/** When `formatSql` rewrites, what it may change, and that it settles at once. */
module SqlFormat {
  import opened Text
  import opened SqlTokens
  import opened SqlSpacing
  import opened SqlRespelling
  import opened SqlLayout
  import opened SqlSeparators
  import opened SqlRefinement
  import opened SqlSingleLine
  import opened SqlRoundTrip

  // ---- blank space around the statement ------------------------------------------------

  /** A leading blank never shows in the stream. */
  lemma {:induction false} LeadIsDropped(w: string, gap: string, s: string)
    requires JsSpace.All(w)
    ensures Scan(w + gap, s) == Scan(gap, s)
    decreases |s|
  {
    JsSpace.TrimDrops(w, gap, "");
    assert w + gap + "" == w + gap;
    if s != "" {
      if Lex(s).None? {
        LeadIsDropped(w, gap + s[..1], s[1..]);
        assert w + gap + s[..1] == w + (gap + s[..1]);
      } else {
        ScanMatches(w + gap, s, Lex(s).value);
        ScanMatches(gap, s, Lex(s).value);
      }
    }
  }

  predicate EndsInLineComment(toks: seq<Token>) {
    toks != [] && IsLineComment(toks[|toks| - 1])
  }

  /** A line comment runs on into blank space that does not start with a newline. */
  predicate RunsOn(w: string) {
    w != "" && w[0] != '\n'
  }

  lemma {:induction false} QuoteEndTrails(s: string, i: nat, q: char, w: string)
    requires q !in w
    ensures QuoteEnd(s + w, i, q) == QuoteEnd(s, i, q)
    decreases |s| - i
  {
    if i >= |s| {
      if i <= |s + w| {
        QuoteFails(s + w, i, q);
      }
    } else if s[i] != q {
      QuoteEndTrails(s, i + 1, q, w);
    } else {
      QuoteEndTrails(s, i + 2, q, w);
    }
  }

  lemma {:induction false} BlockEndTrails(s: string, i: nat, w: string)
    requires JsSpace.All(w)
    ensures BlockEnd(s + w, i) == BlockEnd(s, i)
    decreases |s + w| - i
  {
    if i + 1 < |s + w| {
      if i + 1 < |s| {
        assert (s + w)[i] == s[i] && (s + w)[i + 1] == s[i + 1];
      } else {
        assert JsSpace.Has((s + w)[i + 1]);
      }
      BlockEndTrails(s, i + 1, w);
    }
  }

  lemma NumberTrails(s: string, w: string)
    requires s != "" && JsSpace.All(w)
    ensures NumberEnd(s + w) == NumberEnd(s)
  {
    var u, d := s + w, Run(s, 1, Digit);
    if d < |u| && d == |s| { assert JsSpace.Has(u[d]); }
    RunIs(u, 1, Digit, d);
    if d + 1 < |s| && s[d] == '.' && CharClass.Digit.Has(s[d + 1]) {
      var e := Run(s, d + 2, Digit);
      if e < |u| && e == |s| { assert JsSpace.Has(u[e]); }
      RunIs(u, d + 2, Digit, e);
    } else if d + 1 < |u| && d + 1 == |s| {
      assert JsSpace.Has(u[d + 1]);
    }
  }

  lemma LexTrails(s: string, w: string)
    requires s != "" && '\n' !in s && JsSpace.All(w)
    ensures if Lex(s).Some? && IsLineComment(Token(s[..Lex(s).value.len], Lex(s).value.kind)) && RunsOn(w)
            then Lex(s + w).Some? && Lex(s + w).value.len > |s| && Lex(s).value.len == |s|
            else Lex(s + w) == Lex(s)
  {
    var u := s + w;
    assert u[0] == s[0];
    if |s| > 1 { assert u[1] == s[1]; } else if w != "" { assert JsSpace.Has(u[1]); }
    if |s| > 1 && s[0] == '-' && s[1] == '-' {
      LineCommentTrails(s, w);
    } else if s[0] == '\'' || s[0] == '"' {
      QuoteEndTrails(s, 1, s[0], w);
    } else if CharClass.Digit.Has(s[0]) {
      NumberTrails(s, w);
    } else if StartsWord(s[0]) {
      WordTrails(s, w);
    } else {
      BlockEndTrails(s, 2, w);
    }
  }

  lemma WordTrails(s: string, w: string)
    requires s != "" && JsSpace.All(w)
    ensures Run(s + w, 1, WordChar) == Run(s, 1, WordChar)
  {
    var e := Run(s, 1, WordChar);
    if e < |s + w| && e == |s| { assert JsSpace.Has((s + w)[e]); }
    RunIs(s + w, 1, WordChar, e);
  }

  lemma LineCommentTrails(s: string, w: string)
    requires |s| > 1 && '\n' !in s
    ensures Run(s, 2, NotNewline) == |s|
    ensures if RunsOn(w) then Run(s + w, 2, NotNewline) > |s| else Run(s + w, 2, NotNewline) == |s|
  {
    RunIs(s, 2, NotNewline, |s|);
    if RunsOn(w) {
      assert (s + w)[|s|] == w[0];
      assert forall k :: 2 <= k <= |s| ==> CharClass.NotNewline.Has((s + w)[k]);
    } else {
      RunIs(s + w, 2, NotNewline, |s|);
    }
  }

  /** A trailing blank shows in the stream exactly when a line comment swallows it. */
  lemma {:induction false} TrailIsDropped(gap: string, s: string, w: string)
    requires '\n' !in s && JsSpace.All(w)
    ensures Scan(gap, s + w) == Scan(gap, s) <==> !(EndsInLineComment(Scan(gap, s)) && RunsOn(w))
    decreases |s|
  {
    hide Lex, IsLineComment;
    if s == "" {
      GapDropsTrail(gap, w);
      assert s + w == w;
    } else {
      LexTrails(s, w);
      if Lex(s).None? {
        ScanOne(gap, s);
        ScanOne(gap, s + w);
        assert (s + w)[..1] == s[..1] && (s + w)[1..] == s[1..] + w;
        TrailIsDropped(gap + s[..1], s[1..], w);
      } else {
        TrailAfterMatch(gap, s, w);
      }
    }
  }

  lemma GapDropsTrail(gap: string, w: string)
    requires JsSpace.All(w)
    ensures Scan(gap, w) == Scan(gap, "") && !EndsInLineComment(Scan(gap, ""))
  {
    SkipBlanks(gap, w, "");
    assert w + "" == w;
    JsSpace.TrimDrops("", gap, w);
    assert "" + gap + w == gap + w;
  }

  lemma TrailAfterMatch(gap: string, s: string, w: string)
    requires '\n' !in s && JsSpace.All(w) && s != "" && Lex(s).Some?
    ensures Scan(gap, s + w) == Scan(gap, s) <==> !(EndsInLineComment(Scan(gap, s)) && RunsOn(w))
    decreases |s|, 0
  {
    hide Lex, Scan;
    LexTrails(s, w);
    var u, m := s + w, Lex(s).value;
    var t := Token(s[..m.len], m.kind);
    ScanMatches(gap, s, m);
    if IsLineComment(t) && RunsOn(w) {
      CommentGrows(gap, s, w);
    } else {
      ScanMatches(gap, u, m);
      assert u[..m.len] == s[..m.len] && u[m.len..] == s[m.len..] + w;
      TrailIsDropped("", s[m.len..], w);
      SamePrefix(Leftover(gap), [t] + Scan("", s[m.len..]), [t] + Scan("", s[m.len..] + w));
      SamePrefix([t], Scan("", s[m.len..]), Scan("", s[m.len..] + w));
    }
  }

  lemma CommentGrows(gap: string, s: string, w: string)
    requires '\n' !in s && JsSpace.All(w) && s != "" && Lex(s).Some?
    requires IsLineComment(Token(s[..Lex(s).value.len], Lex(s).value.kind)) && RunsOn(w)
    ensures EndsInLineComment(Scan(gap, s)) && Scan(gap, s + w) != Scan(gap, s)
  {
    hide Lex, Scan;
    LexTrails(s, w);
    var u, m, m' := s + w, Lex(s).value, Lex(s + w).value;
    ScanMatches(gap, s, m);
    ScanMatches(gap, u, m');
    assert s[m.len..] == "";
    ScanNothing();
    assert Scan(gap, s)[|Leftover(gap)|] == Token(s[..m.len], m.kind);
    assert Scan(gap, u)[|Leftover(gap)|].text == u[..m'.len];
  }

  lemma SamePrefix<T>(a: seq<T>, b: seq<T>, c: seq<T>)
    ensures a + b == a + c <==> b == c
  {
    if a + b == a + c {
      assert b == (a + b)[|a|..];
      assert c == (a + c)[|a|..];
    }
  }

  predicate EndsBlank(toks: seq<Token>) {
    toks != [] && toks[|toks| - 1].text != "" && JsSpace.Has(toks[|toks| - 1].text[|toks[|toks| - 1].text| - 1])
  }

  /** A line comment that runs on leaves a token that ends in a blank, which no layout does. */
  lemma {:induction false} CommentRunsOn(gap: string, s: string, w: string)
    requires '\n' !in s && JsSpace.All(w) && RunsOn(w)
    requires EndsInLineComment(Scan(gap, s))
    ensures EndsBlank(Scan(gap, s + w))
    decreases |s|
  {
    hide Lex;
    var u := s + w;
    if s != "" {
      LexTrails(s, w);
      if Lex(s).None? {
        assert u[..1] == s[..1] && u[1..] == s[1..] + w;
        CommentRunsOn(gap + s[..1], s[1..], w);
      } else {
        CommentRunsOnMatch(gap, s, w);
      }
    }
  }

  lemma CommentRunsOnMatch(gap: string, s: string, w: string)
    requires '\n' !in s && JsSpace.All(w) && RunsOn(w) && s != "" && Lex(s).Some?
    requires EndsInLineComment(Scan(gap, s))
    ensures EndsBlank(Scan(gap, s + w))
    decreases |s|, 0
  {
    hide Lex, Scan, EndsBlank;
    LexTrails(s, w);
    var m := Lex(s).value;
    var t := Token(s[..m.len], m.kind);
    if IsLineComment(t) {
      CommentTail(gap, s, w);
    } else {
      var u := s + w;
      ScanMatches(gap, s, m);
      ScanMatches(gap, u, m);
      assert u[..m.len] == s[..m.len] && u[m.len..] == s[m.len..] + w;
      var later, later' := Scan("", s[m.len..]), Scan("", s[m.len..] + w);
      assert Scan(gap, s) == Leftover(gap) + [t] + later;
      assert later != [];
      LastOf(Leftover(gap) + [t], later);
      CommentRunsOn("", s[m.len..], w);
      assert Scan(gap, u) == Leftover(gap) + [t] + later';
      LastOf(Leftover(gap) + [t], later');
    }
  }

  lemma LastOf(a: seq<Token>, b: seq<Token>)
    ensures b != [] ==> EndsInLineComment(a + b) == EndsInLineComment(b)
    ensures EndsBlank(b) ==> EndsBlank(a + b)
    ensures ClosesShown(b) ==> ClosesShown(a + b)
  {
    if b != [] {
      assert (a + b)[|a + b| - 1] == b[|b| - 1];
    }
  }

  lemma CommentTail(gap: string, s: string, w: string)
    requires '\n' !in s && JsSpace.All(w) && RunsOn(w) && s != "" && Lex(s).Some?
    requires IsLineComment(Token(s[..Lex(s).value.len], Lex(s).value.kind))
    ensures EndsBlank(Scan(gap, s + w))
  {
    hide Lex, Scan;
    LexTrails(s, w);
    var u, m' := s + w, Lex(s + w).value;
    ScanMatches(gap, u, m');
    assert u[m'.len..] == w[m'.len - |s|..];
    BlankTail(u, m'.len);
    var x := Token(u[..m'.len], m'.kind);
    assert Scan(gap, u) == Leftover(gap) + [x];
    assert x.text[|x.text| - 1] == w[m'.len - 1 - |s|];
  }

  lemma BlankTail(u: string, n: nat)
    requires n <= |u| && JsSpace.All(u[n..])
    ensures Scan("", u[n..]) == []
  {
    hide Lex;
    assert u[n..] + "" == u[n..] && "" + u[n..] == u[n..];
    SkipBlanks("", u[n..], "");
    BlankLeftover(u[n..]);
  }

  // ---- the guard, and when it fires --------------------------------------------------------

  /** The blank space after the last token. */
  function Trailing(sql: string): string
    ensures |Trailing(sql)| <= |sql|
  {
    var t := JsSpace.TrimStart(sql);
    var s := JsSpace.Trim(sql);
    if |s| <= |t| <= |sql| then t[|s|..] else ""
  }

  lemma AroundTrimmed(sql: string) returns (lead: string)
    ensures JsSpace.All(lead) && JsSpace.All(Trailing(sql))
    ensures JsSpace.Tight(JsSpace.Trim(sql))
    ensures sql == lead + (JsSpace.Trim(sql) + Trailing(sql))
  {
    var l, t := JsSpace.TrimSplits(sql);
    lead := JsSpace.TrimStartSplits(sql);
    var trail := JsSpace.TrimEndSplits(JsSpace.TrimStart(sql));
    assert JsSpace.TrimStart(sql) == JsSpace.Trim(sql) + trail;
    assert Trailing(sql) == trail;
  }

  /** Trimming a one-line statement keeps its stream unless a line comment runs on. */
  lemma TrimKeepsTokens(sql: string)
    requires '\n' !in JsSpace.Trim(sql)
    ensures Tokens(sql) == Tokens(JsSpace.Trim(sql)) <==>
            !(EndsInLineComment(Tokens(JsSpace.Trim(sql))) && RunsOn(Trailing(sql)))
    ensures Tokens(sql) != Tokens(JsSpace.Trim(sql)) ==> EndsBlank(Tokens(sql))
  {
    hide Scan, Trailing, RunsOn, EndsInLineComment, EndsBlank;
    var lead := AroundTrimmed(sql);
    var s, w := JsSpace.Trim(sql), Trailing(sql);
    SkipBlanks("", lead, s + w);
    assert "" + lead == lead + "";
    LeadIsDropped(lead, "", s + w);
    TrailIsDropped("", s, w);
    if EndsInLineComment(Scan("", s)) && RunsOn(w) {
      CommentRunsOn("", s, w);
    }
  }

  /** The layout of the trimmed statement carries the statement's own stream. */
  ghost predicate Lays(sql: string) {
    var toks := Tokens(JsSpace.Trim(sql));
    && !LeftAlone(sql)
    && NothingFuses(toks)
    && !(EndsInLineComment(toks) && RunsOn(Trailing(sql)))
  }

  lemma GuardPasses(sql: string)
    requires !LeftAlone(sql)
    ensures LaidOut(Tokens(JsSpace.Trim(sql))) != "" && JsSpace.Tight(LaidOut(Tokens(JsSpace.Trim(sql))))
    ensures SameTokens(sql, LaidOut(Tokens(JsSpace.Trim(sql)))) <==> Lays(sql)
  {
    hide Tokens, Trailing, OneLine, LaidOut, NothingFuses, RunsOn, EndsInLineComment, EndsBlank;
    var s := JsSpace.Trim(sql);
    var toks := Tokens(s);
    var lead := AroundTrimmed(sql);
    TokensOneLine(s);
    OneLineParts(toks);
    LaidOutIsWoven(toks);
    LayoutRoundTrips(toks);
    TrimKeepsTokens(sql);
    LaidOutCloses(toks);
  }

  /** The stream closes with a token that does not end in a blank. */
  predicate ClosesShown(toks: seq<Token>) {
    toks != [] && toks[|toks| - 1].text != "" && !EndsBlank(toks)
  }

  lemma {:induction false} LastTokenShown(gap: string, s: string)
    requires s != "" && !JsSpace.Has(s[|s| - 1])
    ensures ClosesShown(Scan(gap, s))
    decreases |s|
  {
    hide Lex, Scan, ClosesShown;
    match Lex(s)
    case None =>
      ScanOne(gap, s);
      if |s| > 1 {
        LastTokenShown(gap + s[..1], s[1..]);
      } else {
        assert s[1..] == "" && s[..1] == s;
        LeftoverShown(gap, s);
      }
    case Some(m) =>
      ScanMatches(gap, s, m);
      if m.len < |s| {
        LastTokenShown("", s[m.len..]);
        LastOf([Token(s[..m.len], m.kind)], Scan("", s[m.len..]));
        LastOf(Leftover(gap), [Token(s[..m.len], m.kind)] + Scan("", s[m.len..]));
      } else {
        assert s[m.len..] == "" && s[..m.len] == s;
        ScanNothing();
        OneShown(Token(s, m.kind));
        assert [Token(s, m.kind)] + [] == [Token(s, m.kind)];
        LastOf(Leftover(gap), [Token(s, m.kind)]);
      }
  }

  lemma OneShown(t: Token)
    requires t.text != "" && !JsSpace.Has(t.text[|t.text| - 1])
    ensures ClosesShown([t])
  {
  }

  lemma LeftoverShown(gap: string, c: string)
    requires c != "" && !JsSpace.Has(c[|c| - 1])
    ensures ClosesShown(Scan(gap + c, ""))
  {
    var lead, trail := JsSpace.TrimSplits(gap + c);
    assert (gap + c)[|gap + c| - 1] == c[|c| - 1];
  }

  lemma LaidOutCloses(toks: seq<Token>)
    requires toks != [] && AllShown(toks)
    ensures !EndsBlank(Tokens(LaidOut(toks)))
  {
    hide Scan, LaidOut;
    LaidOutIsWoven(toks);
    LastTokenShown("", LaidOut(toks));
  }

  // ---- what the formatter promises ----------------------------------------------------------

  /** The guard discards a layout exactly when two neighbours fuse or a closing line comment runs
      on into trailing blanks; in every other case the layout is what comes back. */
  lemma FormatIs(sql: string)
    ensures Format(sql) == if Lays(sql) then LaidOut(Tokens(JsSpace.Trim(sql))) else sql
  {
    hide Tokens, LaidOut, Lays, SameTokens;
    if !LeftAlone(sql) {
      GuardPasses(sql);
    } else {
      LeftAloneIsNotLaid(sql);
    }
  }

  lemma LeftAloneIsNotLaid(sql: string)
    requires LeftAlone(sql)
    ensures !Lays(sql)
  {
  }

  /** Only blank space between tokens ever changes: input and output are the same tokens, each
      time with blank separators. */
  lemma OnlyBlanksChange(sql: string)
    returns (before: seq<string>, beforeTrail: string, after: seq<string>, afterTrail: string)
    ensures SameTokens(sql, Format(sql))
    ensures |before| == |after| == |Tokens(sql)|
    ensures AllBlank(before) && AllBlank(after) && JsSpace.All(beforeTrail) && JsSpace.All(afterTrail)
    ensures sql == Weave(before, Tokens(sql)) + beforeTrail
    ensures Format(sql) == Weave(after, Tokens(sql)) + afterTrail
  {
    hide Scan, LaidOut, LeftAlone;
    assert SameTokens(sql, Format(sql));
    before, beforeTrail := ScanIsLossless("", sql);
    after, afterTrail := ScanIsLossless("", Format(sql));
    assert "" + sql == sql && "" + Format(sql) == Format(sql);
  }

  /** Formatting what was formatted changes nothing, on every string. */
  lemma FormatIsIdempotent(sql: string)
    ensures Format(Format(sql)) == Format(sql)
  {
    hide Tokens, LaidOut, NothingFuses, RunsOn, EndsInLineComment, Trailing;
    FormatIs(sql);
    if Lays(sql) {
      var toks := Tokens(JsSpace.Trim(sql));
      var f := LaidOut(toks);
      GuardPasses(sql);
      TrimKeepsTokens(sql);
      JsSpace.TrimTight(f);
      assert Tokens(f) == toks;
    }
  }

  /** Where the lines break and how deep they are indented depends on the stream alone. */
  lemma LayoutFollowsTokens(a: string, b: string)
    requires Lays(a) && Lays(b) && SameTokens(a, b)
    ensures Format(a) == Format(b)
  {
    hide Tokens, LaidOut, NothingFuses, RunsOn, EndsInLineComment, Trailing;
    FormatIs(a);
    FormatIs(b);
    TrimKeepsTokens(a);
    TrimKeepsTokens(b);
  }
}
