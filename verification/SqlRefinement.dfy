/** The layout pass writes exactly the declared separators. */
module SqlRefinement {
  import opened Text
  import opened SqlTokens
  import opened SqlLayout
  import opened SqlSeparators

  /** The pass has broken the line and is waiting for token `i`. */
  ghost predicate Pending(toks: seq<Token>, i: nat)
    requires i <= |toks|
  {
    NextItem(toks, i) || (0 < i < |toks| && IsPunct(toks[i - 1], "(") && IsWord(toks[i], "SELECT"))
  }

  ghost function PendingIndent(toks: seq<Token>, i: nat): int
    requires i <= |toks|
  {
    if NextItem(toks, i) then Depth(toks, i) + 1 else Depth(toks, i)
  }

  /** A leading connective is indented; the final trim cuts that off again. */
  function Lead(toks: seq<Token>): string {
    if toks != [] && IsConnective(toks[0]) && !IsStarter(toks[0]) then Indent(1) else ""
  }

  /** What the pass will have shown once the line in progress is flushed. */
  ghost predicate Shows(l: Layout, toks: seq<Token>, i: nat)
    requires i <= |toks|
  {
    && (Flush(l).lines == [] <==> i == 0)
    && (i > 0 ==> Join(Flush(l).lines, "\n") == Lead(toks) + Woven(toks, i))
    && (if i == 0 then l.current == ""
        else if Pending(toks, i) then l.current == Indent(PendingIndent(toks, i))
        else EndsShown(l.current, toks[i - 1].text))
  }

  lemma JoinLast(lines: seq<string>, line: string, more: string)
    ensures Join(lines + [line + more], "\n") == Join(lines + [line], "\n") + more
  {
    if lines == [] {
      assert [] + [line + more] == [line + more] && [] + [line] == [line];
    } else {
      JoinSnoc(lines, line + more, "\n");
      JoinSnoc(lines, line, "\n");
      assert Join(lines, "\n") + "\n" + (line + more) == Join(lines, "\n") + "\n" + line + more;
    }
  }

  lemma Regroup(lead: string, woven: string, nl: string, indent: string, text: string)
    ensures lead + woven + nl + (indent + text) == lead + (woven + (nl + indent) + text)
    ensures lead + woven + (indent + text) == lead + (woven + indent + text)
  {
  }

  lemma WovenSnoc(toks: seq<Token>, i: nat)
    requires i < |toks|
    ensures Woven(toks, i + 1) == Woven(toks, i) + Sep(toks, i) + toks[i].text
    ensures i == 0 ==> Woven(toks, i + 1) == toks[i].text
  {
  }

  /** A new line is written. */
  lemma ShowsLine(before: seq<string>, after: seq<string>, toks: seq<Token>, i: nat, indent: int)
    requires i < |toks|
    requires before == [] <==> i == 0
    requires i > 0 ==> Join(before, "\n") == Lead(toks) + Woven(toks, i)
    requires after == before + [Indent(indent) + toks[i].text]
    requires if i == 0 then Indent(indent) == Lead(toks) else Sep(toks, i) == "\n" + Indent(indent)
    ensures after != [] && Join(after, "\n") == Lead(toks) + Woven(toks, i + 1)
  {
    hide Sep, Depth, Indent, Lead, Woven;
    WovenSnoc(toks, i);
    if i == 0 {
      assert after == [Indent(indent) + toks[0].text];
    } else {
      JoinSnoc(before, Indent(indent) + toks[i].text, "\n");
      Regroup(Lead(toks), Woven(toks, i), "\n", Indent(indent), toks[i].text);
    }
  }

  /** The line in progress grows. */
  lemma ShowsGrown(lines: seq<string>, line: string, toks: seq<Token>, i: nat, sep: string)
    requires 0 < i < |toks|
    requires Join(lines + [line], "\n") == Lead(toks) + Woven(toks, i)
    requires Sep(toks, i) == sep
    ensures Join(lines + [line + sep + toks[i].text], "\n") == Lead(toks) + Woven(toks, i + 1)
  {
    hide Sep, Depth, Lead, Woven, Join;
    WovenSnoc(toks, i);
    JoinLast(lines, line, sep + toks[i].text);
    assert line + (sep + toks[i].text) == line + sep + toks[i].text;
    Regroup(Lead(toks), Woven(toks, i), "", sep, toks[i].text);
  }

  /** Token `i` is written, and no line break pends behind it. */
  ghost predicate Wrote(r: Layout, toks: seq<Token>, i: nat)
    requires i < |toks|
  {
    && EndsShown(r.current, toks[i].text)
    && Flush(r).lines != []
    && Join(Flush(r).lines, "\n") == Lead(toks) + Woven(toks, i + 1)
  }

  lemma WriteFirst(m: Layout, toks: seq<Token>, space: bool)
    requires toks != [] && AllShown(toks)
    requires m.current == "" && m.lines == [] && m.depth <= 0
    requires Lead(toks) == ""
    ensures Wrote(Append(m, toks[0].text, space), toks, 0)
  {
    hide Append, Woven, Lead;
    assert Shown(toks[0]);
    WriteFresh(m, 0, toks[0].text, space);
    ShowsLine(m.lines, Flush(Append(m, toks[0].text, space)).lines, toks, 0, 0);
  }

  lemma WriteItem(m: Layout, toks: seq<Token>, i: nat, space: bool)
    requires 0 < i < |toks| && AllShown(toks)
    requires m.current == Indent(Depth(toks, i) + 1) && m.depth <= Depth(toks, i)
    requires Sep(toks, i) == "\n" + Indent(Depth(toks, i) + 1)
    requires m.lines != [] && Join(m.lines, "\n") == Lead(toks) + Woven(toks, i)
    ensures Wrote(Append(m, toks[i].text, space), toks, i)
  {
    hide Append, Woven, Lead, Depth, Sep, Indent, Join, Flush;
    assert Shown(toks[i]);
    WriteFresh(m, Depth(toks, i) + 1, toks[i].text, space);
    ShowsLine(m.lines, Flush(Append(m, toks[i].text, space)).lines, toks, i, Depth(toks, i) + 1);
  }

  lemma WriteAlong(m: Layout, toks: seq<Token>, i: nat, space: bool)
    requires 0 < i < |toks| && AllShown(toks)
    requires EndsShown(m.current, toks[i - 1].text)
    requires Sep(toks, i) == Glue(toks[i - 1].text, space)
    requires Flush(m).lines != [] && Join(Flush(m).lines, "\n") == Lead(toks) + Woven(toks, i)
    ensures Wrote(Append(m, toks[i].text, space), toks, i)
  {
    hide Append, Woven, Lead, Depth, Sep, Glue, Join, Flush, EndsShown;
    var last := toks[i - 1].text;
    assert Shown(toks[i]) && Shown(toks[i - 1]);
    WriteOn(m, last, toks[i].text, space);
    ShowsGrown(m.lines, m.current, toks, i, Glue(last, space));
  }

  /** A token that starts no line of its own. */
  lemma PendingIsItem(toks: seq<Token>, i: nat)
    requires 0 < i < |toks| && Pending(toks, i) && !OpensClause(toks, i) && !IsConnective(toks[i])
    ensures Sep(toks, i) == "\n" + Indent(Depth(toks, i) + 1)
    ensures PendingIndent(toks, i) == Depth(toks, i) + 1
  {
    hide OpensClause, SelectAt, Indent;
    assert NextItem(toks, i) by {
      if !NextItem(toks, i) { SelectOpens(toks, i); }
    }
  }

  lemma NoItem(toks: seq<Token>, i: nat)
    requires i <= |toks| && !Pending(toks, i)
    ensures !NextItem(toks, i)
  {
  }

  lemma WriteAfterBreak(l: Layout, toks: seq<Token>, i: nat, m: Layout, space: bool)
    requires 0 < i < |toks| && Shows(l, toks, i) && AllShown(toks) && Pending(toks, i)
    requires m.lines == l.lines && m.current == l.current && m.depth <= Depth(toks, i)
    requires !OpensClause(toks, i) && !IsConnective(toks[i])
    ensures Wrote(Append(m, toks[i].text, space), toks, i)
  {
    hide Append, Woven, Pending, OpensClause, IsConnective, Wrote, Indent, Sep, PendingIndent, AllShown;
    PendingIsItem(toks, i);
    IndentIsBlank(Depth(toks, i) + 1);
    WriteItem(m, toks, i, space);
  }

  lemma WriteInPlace(l: Layout, toks: seq<Token>, i: nat, m: Layout, space: bool)
    requires i < |toks| && Shows(l, toks, i) && AllShown(toks)
    requires m.lines == l.lines && m.current == l.current && m.depth <= Depth(toks, i)
    requires !OpensClause(toks, i) && !IsConnective(toks[i])
    requires space == WantsSpace(toks, i)
    ensures Wrote(Append(m, toks[i].text, space), toks, i)
  {
    hide Append, Woven, Pending, OpensClause, WantsSpace, IsConnective, Wrote, Indent, PendingIndent, NextItem,
         AllShown;
    if i == 0 {
      WriteFirst(m, toks, space);
    } else if Pending(toks, i) {
      WriteAfterBreak(l, toks, i, m, space);
    } else {
      assert !NextItem(toks, i) by { NoItem(toks, i); }
      WriteAlong(m, toks, i, space);
    }
  }

  lemma SelectOpens(toks: seq<Token>, i: nat)
    requires i < |toks| && IsWord(toks[i], "SELECT")
    ensures IsStarter(toks[i]) && OpensClause(toks, i) && !IsConnective(toks[i])
  {
  }

  /** A clause or a connective starts a line. */
  lemma WriteBreaking(l: Layout, toks: seq<Token>, i: nat, extra: nat, depths: seq<int>)
    requires i < |toks| && Shows(l, toks, i) && AllShown(toks) && l.depth == Depth(toks, i)
    requires if OpensClause(toks, i) then extra == 0 else IsConnective(toks[i]) && extra == 1
    ensures Wrote(Append(StartLine(l, extra).(selectDepths := depths), toks[i].text, true), toks, i)
  {
    hide Append, StartLine, Flush, Woven, OpensClause, IsConnective, Lead, Depth, Indent, Join, EndsShown,
         Pending, PendingIndent;
    assert Shown(toks[i]);
    StackIsIgnored(l, extra, toks[i].text, depths);
    if i == 0 {
      LeadIs(toks, extra);
    } else {
      SepBreaks(toks, i, extra);
    }
    var r := Append(StartLine(l, extra).(selectDepths := depths), toks[i].text, true);
    ShowsLine(Flush(l).lines, Flush(r).lines, toks, i, Depth(toks, i) + extra);
  }

  lemma SepBreaks(toks: seq<Token>, i: nat, extra: nat)
    requires 0 < i < |toks|
    requires if OpensClause(toks, i) then extra == 0 else IsConnective(toks[i]) && extra == 1
    ensures Sep(toks, i) == "\n" + Indent(Depth(toks, i) + extra)
  {
  }

  lemma StackIsIgnored(l: Layout, extra: nat, text: string, depths: seq<int>)
    requires text != "" && JsSpace.Tight(text)
    ensures var r := Append(StartLine(l, extra).(selectDepths := depths), text, true);
            && EndsShown(r.current, text)
            && Flush(r).lines == Flush(l).lines + [Indent(l.depth + extra) + text]
  {
    WriteBroken(l, extra, text, true);
    assert Append(StartLine(l, extra).(selectDepths := depths), text, true)
        == Append(StartLine(l, extra), text, true).(selectDepths := depths);
  }

  lemma LeadIs(toks: seq<Token>, extra: nat)
    requires toks != []
    requires if OpensClause(toks, 0) then extra == 0 else IsConnective(toks[0]) && extra == 1
    ensures Lead(toks) == Indent(Depth(toks, 0) + extra)
  {
    if !OpensClause(toks, 0) {
      ConnectiveIsNoStarter(toks[0]);
    }
  }

  lemma ConnectiveIsNoStarter(t: Token)
    requires IsConnective(t)
    ensures !IsStarter(t)
  {
  }

  // ---- one step, and the whole pass ---------------------------------------------------

  lemma Quiet(r: Layout, toks: seq<Token>, i: nat)
    requires i < |toks| && Wrote(r, toks, i) && !Pending(toks, i + 1)
    ensures Shows(r, toks, i + 1)
  {
    hide Pending, Flush, Join, Lead, Woven;
  }

  lemma Breaks(r: Layout, toks: seq<Token>, i: nat, extra: int)
    requires i < |toks| && Wrote(r, toks, i) && Pending(toks, i + 1)
    requires r.depth + extra == PendingIndent(toks, i + 1)
    ensures Shows(StartLine(r, extra), toks, i + 1)
  {
    hide Pending, PendingIndent, Join, Lead, Woven, StartLine, Flush;
    StartKeeps(r, extra);
  }

  lemma StepOpenParen(l: Layout, toks: seq<Token>, i: nat)
    requires i < |toks| && AllShown(toks) && Tracks(l, toks, i) && Shows(l, toks, i)
    requires IsPunct(toks[i], "(")
    ensures Shows(Step(l, toks, i), toks, i + 1)
  {
    hide Append, StartLine, Woven, Lead, SelectAt, Shows, SpaceBeforeOpenParen;
    WriteInPlace(l, toks, i, l, SpaceBeforeOpenParen(toks, i));
    var r := Append(l, "(", SpaceBeforeOpenParen(toks, i)).(depth := l.depth + 1);
    assert Wrote(r, toks, i);
    if i + 1 < |toks| && IsWord(toks[i + 1], "SELECT") {
      Breaks(r, toks, i, 0);
    } else {
      Quiet(r, toks, i);
    }
  }

  lemma StepCloseParen(l: Layout, toks: seq<Token>, i: nat)
    requires i < |toks| && AllShown(toks) && Tracks(l, toks, i) && Shows(l, toks, i)
    requires IsPunct(toks[i], ")")
    ensures Shows(Step(l, toks, i), toks, i + 1)
  {
    hide Append, StartLine, Woven, Lead, SelectAt, Shows, PopDeeper, Wrote;
    var m := l.(depth := l.depth - 1, selectDepths := PopDeeper(l.selectDepths, l.depth - 1));
    WriteInPlace(l, toks, i, m, false);
    Quiet(Append(m, ")", false), toks, i);
  }

  lemma StepComma(l: Layout, toks: seq<Token>, i: nat)
    requires i < |toks| && AllShown(toks) && Tracks(l, toks, i) && Shows(l, toks, i)
    requires IsPunct(toks[i], ",")
    ensures Shows(Step(l, toks, i), toks, i + 1)
  {
    hide StartLine, Woven, Lead, SelectAt, Shows, Wrote;
    WriteInPlace(l, toks, i, l, false);
    var r := Append(l, ",", false);
    TopOfStack(r);
    SelectAtStep(toks, i, l.depth);
    assert NextItem(toks, i + 1) <==> InSelectList(r);
    if InSelectList(r) {
      Breaks(r, toks, i, 1);
    } else {
      Quiet(r, toks, i);
    }
  }

  lemma StepWord(l: Layout, toks: seq<Token>, i: nat)
    requires i < |toks| && AllShown(toks) && Tracks(l, toks, i) && Shows(l, toks, i)
    requires IsStarter(toks[i]) || (IsConnective(toks[i]) && toks[i].kind == Word)
    ensures Shows(Step(l, toks, i), toks, i + 1)
  {
    hide Append, StartLine, Woven, Lead, SelectAt, Shows, Wrote, Tracks, OpensClause;
    var t := toks[i];
    assert l.depth == Depth(toks, i) by { assert Tracks(l, toks, i); TracksDepth(l, toks, i); }
    if IsStarter(t) {
      StarterIsNoConnective(t);
      if OpensClause(toks, i) {
        StartLineDepth(l);
        var b := StartLine(l, 0);
        var depths := if IsWord(t, "SELECT") then b.selectDepths + [b.depth] else b.selectDepths;
        WriteBreaking(l, toks, i, 0, depths);
        Quiet(Append(b.(selectDepths := depths), t.text, true), toks, i);
      } else {
        WriteInPlace(l, toks, i, l, true);
        Quiet(Append(l, t.text, true), toks, i);
      }
    } else {
      NoStarterNoClause(toks, i);
      WriteBreaking(l, toks, i, 1, StartLine(l, 1).selectDepths);
      Quiet(Append(StartLine(l, 1), t.text, true), toks, i);
    }
  }

  lemma TracksDepth(l: Layout, toks: seq<Token>, i: nat)
    requires i <= |toks| && Tracks(l, toks, i)
    ensures l.depth == Depth(toks, i)
  {
  }

  lemma StartLineDepth(l: Layout)
    ensures StartLine(l, 0).depth == l.depth && StartLine(l, 0).selectDepths == l.selectDepths
  {
  }

  lemma StarterIsNoConnective(t: Token)
    requires IsStarter(t)
    ensures !IsConnective(t)
  {
    if IsConnective(t) { ConnectiveIsNoStarter(t); }
  }

  lemma NoStarterNoClause(toks: seq<Token>, i: nat)
    requires i < |toks| && !IsStarter(toks[i])
    ensures !OpensClause(toks, i)
  {
  }

  lemma StepPlain(l: Layout, toks: seq<Token>, i: nat)
    requires i < |toks| && AllShown(toks) && Tracks(l, toks, i) && Shows(l, toks, i)
    requires !IsPunct(toks[i], "(") && !IsPunct(toks[i], ")") && !IsPunct(toks[i], ",")
    requires !IsStarter(toks[i]) && !IsConnective(toks[i])
    ensures Shows(Step(l, toks, i), toks, i + 1)
  {
    hide Append, StartLine, Woven, Lead, SelectAt, Shows, Wrote, OpensClause, IsStarter, IsConnective;
    TracksDepth(l, toks, i);
    NoStarterNoClause(toks, i);
    WriteInPlace(l, toks, i, l, toks[i].text !in NO_SPACE_BEFORE);
    Quiet(Append(l, toks[i].text, toks[i].text !in NO_SPACE_BEFORE), toks, i);
  }

  lemma StepShows(l: Layout, toks: seq<Token>, i: nat)
    requires i < |toks| && AllShown(toks) && Tracks(l, toks, i) && Shows(l, toks, i)
    ensures Shows(Step(l, toks, i), toks, i + 1)
  {
    hide Shows, Tracks, IsStarter, Step;
    if IsPunct(toks[i], "(") {
      StepOpenParen(l, toks, i);
    } else if IsPunct(toks[i], ")") {
      StepCloseParen(l, toks, i);
    } else if IsPunct(toks[i], ",") {
      StepComma(l, toks, i);
    } else if IsStarter(toks[i]) || IsConnective(toks[i]) {
      StepWord(l, toks, i);
    } else {
      StepPlain(l, toks, i);
    }
  }

  /** After any number of tokens: the depth and the stack are what the parentheses say, and the
      text shown is the tokens with their declared separators. */
  lemma {:induction false} LayOutShows(toks: seq<Token>, n: nat)
    requires n <= |toks| && AllShown(toks)
    ensures Tracks(LayOut(toks, n), toks, n)
    ensures Shows(LayOut(toks, n), toks, n)
  {
    hide Step, Shows, Tracks;
    if n == 0 {
      LayOutStarts(toks);
    } else {
      LayOutShows(toks, n - 1);
      StepTracks(LayOut(toks, n - 1), toks, n - 1);
      StepShows(LayOut(toks, n - 1), toks, n - 1);
    }
  }

  lemma LayOutStarts(toks: seq<Token>)
    ensures Tracks(LayOut(toks, 0), toks, 0)
    ensures Shows(LayOut(toks, 0), toks, 0)
  {
  }

  /** The finished layout is the tokens in order with their declared separators. */
  lemma LaidOutIsWoven(toks: seq<Token>)
    requires toks != [] && AllShown(toks)
    ensures LaidOut(toks) == Woven(toks, |toks|) && LaidOut(toks) != ""
    ensures JsSpace.Tight(LaidOut(toks))
  {
    hide Woven, Lead, Shows, Tracks, LayOut, Flush, Join;
    LayOutShows(toks, |toks|);
    ShownText(LayOut(toks, |toks|), toks);
    LeadIsBlank(toks);
    WovenIsTight(toks, |toks|);
    var w := Woven(toks, |toks|);
    JsSpace.TrimDrops(Lead(toks), w, "");
    assert Lead(toks) + w + "" == Lead(toks) + w;
    JsSpace.TrimTight(w);
  }

  lemma ShownText(l: Layout, toks: seq<Token>)
    requires toks != [] && Shows(l, toks, |toks|)
    ensures Join(Flush(l).lines, "\n") == Lead(toks) + Woven(toks, |toks|)
  {
    hide Pending, PendingIndent, Woven, Lead, Join, Flush;
  }

  lemma LeadIsBlank(toks: seq<Token>)
    ensures JsSpace.All(Lead(toks))
  {
    IndentIsBlank(1);
  }

  lemma {:induction false} WovenIsTight(toks: seq<Token>, i: nat)
    requires 0 < i <= |toks| && AllShown(toks)
    ensures Woven(toks, i) != "" && JsSpace.Tight(Woven(toks, i))
  {
    hide Sep, Depth;
    assert Shown(toks[i - 1]);
    WovenSnoc(toks, i - 1);
    if i > 1 {
      WovenIsTight(toks, i - 1);
    }
  }
}
