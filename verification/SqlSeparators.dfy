/** What the layout pass puts between two tokens, said without its buffer, its depth counter or its
    stack: the pass refines this reading. */
module SqlSeparators {
  import opened Text
  import opened SqlTokens
  import opened SqlLayout

  /** Parentheses left open by the first `i` tokens; negative when more were closed. */
  function Depth(toks: seq<Token>, i: nat): int
    requires i <= |toks|
  {
    if i == 0 then 0
    else Depth(toks, i - 1)
         + (if IsPunct(toks[i - 1], "(") then 1 else if IsPunct(toks[i - 1], ")") then -1 else 0)
  }

  /** The `SELECT` at `j` has not been left by the time `i` tokens are read. */
  ghost predicate StillOpen(toks: seq<Token>, j: nat, i: nat)
    requires j < i <= |toks|
  {
    IsWord(toks[j], "SELECT") && forall k :: j < k <= i ==> Depth(toks, k) >= Depth(toks, j)
  }

  /** Some unfinished select list lives at depth `d`. */
  ghost predicate SelectAt(toks: seq<Token>, i: nat, d: int)
    requires i <= |toks|
  {
    exists j :: 0 <= j < i && StillOpen(toks, j, i) && Depth(toks, j) == d
  }

  /** Token `i` follows a comma of a select list. */
  ghost predicate NextItem(toks: seq<Token>, i: nat)
    requires i <= |toks|
  {
    i > 0 && IsPunct(toks[i - 1], ",") && SelectAt(toks, i, Depth(toks, i))
  }

  predicate WantsSpace(toks: seq<Token>, i: nat)
    requires i < |toks|
  {
    if IsPunct(toks[i], "(") then SpaceBeforeOpenParen(toks, i)
    else !IsPunct(toks[i], ")") && !IsPunct(toks[i], ",")
         && (IsStarter(toks[i]) || toks[i].text !in NO_SPACE_BEFORE)
  }

  /** The blank space before token `i`. */
  ghost function Sep(toks: seq<Token>, i: nat): string
    requires i < |toks|
  {
    if i == 0 then ""
    else if OpensClause(toks, i) then "\n" + Indent(Depth(toks, i))
    else if IsConnective(toks[i]) then "\n" + Indent(Depth(toks, i) + 1)
    else if NextItem(toks, i) then "\n" + Indent(Depth(toks, i) + 1)
    else Glue(toks[i - 1].text, WantsSpace(toks, i))
  }

  function Glue(prev: string, space: bool): string {
    if space && prev != "" && prev[|prev| - 1] != '(' && prev[|prev| - 1] != '.' then " " else ""
  }

  /** The first `i` tokens with their separators. */
  ghost function Woven(toks: seq<Token>, i: nat): string
    requires i <= |toks|
  {
    if i == 0 then "" else Woven(toks, i - 1) + Sep(toks, i - 1) + toks[i - 1].text
  }

  predicate Shown(t: Token) {
    t.text != "" && JsSpace.Tight(t.text)
  }

  predicate AllShown(toks: seq<Token>) {
    forall i :: 0 <= i < |toks| ==> Shown(toks[i])
  }

  // ---- the buffer operations ----------------------------------------------------------

  lemma IndentIsBlank(n: int)
    ensures JsSpace.All(Indent(n))
    ensures JsSpace.Trim(Indent(n)) == ""
    ensures Indent(n) == "" <==> n <= 0
  {
    var s := Indent(n);
    BlankIndent(n);
    JsSpace.TrimDrops(s, "", "");
    assert s + "" + "" == s;
  }

  lemma {:induction false} BlankIndent(n: int)
    ensures JsSpace.All(Indent(n))
    decreases n
  {
    if n > 0 {
      BlankIndent(n - 1);
    }
  }

  /** A line that ends in a shown token. */
  predicate EndsShown(line: string, last: string) {
    |line| >= |last| > 0 && line[|line| - |last|..] == last && JsSpace.Tight(last)
  }

  lemma EndsShownIsKept(line: string, last: string)
    requires EndsShown(line, last)
    ensures JsSpace.TrimEnd(line) == line && JsSpace.Trim(line) != ""
    ensures line != "" && line[|line| - 1] == last[|last| - 1]
  {
    var lead := JsSpace.TrimStartSplits(line);
    assert line[|line| - 1] == last[|last| - 1];
    if JsSpace.TrimStart(line) != "" {
      assert JsSpace.TrimStart(line)[|JsSpace.TrimStart(line)| - 1] == line[|line| - 1];
    }
  }

  lemma WriteOn(l: Layout, last: string, text: string, space: bool)
    requires EndsShown(l.current, last) && text != "" && JsSpace.Tight(text)
    ensures Append(l, text, space).current == l.current + Glue(last, space) + text
    ensures EndsShown(Append(l, text, space).current, text)
    ensures Flush(l).lines == l.lines + [l.current]
    ensures Flush(Append(l, text, space)).lines == l.lines + [Append(l, text, space).current]
  {
    EndsShownIsKept(l.current, last);
    var c := l.current[|l.current| - 1];
    assert LastShown(l.current) == [c];
    assert [c] in NO_SPACE_AFTER <==> c == '(' || c == '.';
    EndsShownIsKept(Append(l, text, space).current, text);
  }

  lemma WriteFresh(l: Layout, n: int, text: string, space: bool)
    requires l.current == Indent(n) && (n <= 0 ==> l.depth <= 0)
    requires text != "" && JsSpace.Tight(text)
    ensures Append(l, text, space).current == Indent(n) + text
    ensures EndsShown(Append(l, text, space).current, text)
    ensures Flush(l).lines == l.lines
    ensures Flush(Append(l, text, space)).lines == l.lines + [Indent(n) + text]
  {
    IndentIsBlank(n);
    IndentIsBlank(l.depth);
    EndsShownIsKept(Append(l, text, space).current, text);
  }

  lemma WriteBroken(l: Layout, extra: nat, text: string, space: bool)
    requires text != "" && JsSpace.Tight(text)
    ensures var r := Append(StartLine(l, extra), text, space);
            && EndsShown(r.current, text)
            && Flush(r).lines == Flush(l).lines + [Indent(l.depth + extra) + text]
  {
    WriteFresh(StartLine(l, extra), l.depth + extra, text, space);
  }

  lemma StartKeeps(l: Layout, extra: int)
    ensures Flush(StartLine(l, extra)).lines == Flush(l).lines
    ensures StartLine(l, extra).current == Indent(l.depth + extra)
  {
    IndentIsBlank(l.depth + extra);
  }

  // ---- the stack of select lists --------------------------------------------------------

  /** The stack is sorted and never reaches past the current depth, however the parentheses nest. */
  predicate Stacked(depths: seq<int>, depth: int) {
    && (forall a, b :: 0 <= a < b < |depths| ==> depths[a] <= depths[b])
    && (forall a :: 0 <= a < |depths| ==> depths[a] <= depth)
  }

  lemma {:induction false} PopKeepsShallow(depths: seq<int>, top: int, depth: int)
    requires Stacked(depths, top)
    ensures Stacked(PopDeeper(depths, depth), depth)
    ensures forall d :: d in PopDeeper(depths, depth) <==> d in depths && d <= depth
  {
    if depths != [] && depths[|depths| - 1] > depth {
      var n := |depths| - 1;
      PopKeepsShallow(depths[..n], top, depth);
      assert depths == depths[..n] + [depths[n]];
    }
  }

  lemma SelectAtStep(toks: seq<Token>, i: nat, d: int)
    requires i < |toks|
    ensures SelectAt(toks, i + 1, d) <==>
            (SelectAt(toks, i, d) && d <= Depth(toks, i + 1)) || (IsWord(toks[i], "SELECT") && d == Depth(toks, i))
  {
    if SelectAt(toks, i, d) && d <= Depth(toks, i + 1) {
      var j :| 0 <= j < i && StillOpen(toks, j, i) && Depth(toks, j) == d;
      assert StillOpen(toks, j, i + 1);
    }
    if IsWord(toks[i], "SELECT") && d == Depth(toks, i) {
      assert StillOpen(toks, i, i + 1);
    }
    if SelectAt(toks, i + 1, d) {
      var j :| 0 <= j < i + 1 && StillOpen(toks, j, i + 1) && Depth(toks, j) == d;
      if j < i {
        assert StillOpen(toks, j, i);
      }
    }
  }

  ghost predicate Tracks(l: Layout, toks: seq<Token>, i: nat)
    requires i <= |toks|
  {
    && l.depth == Depth(toks, i)
    && Stacked(l.selectDepths, l.depth)
    && forall d :: d in l.selectDepths <==> SelectAt(toks, i, d)
  }

  lemma TopOfStack(l: Layout)
    requires Stacked(l.selectDepths, l.depth)
    ensures InSelectList(l) <==> l.depth in l.selectDepths
  {
    if l.depth in l.selectDepths {
      var a :| 0 <= a < |l.selectDepths| && l.selectDepths[a] == l.depth;
    }
  }

  lemma StepTracks(l: Layout, toks: seq<Token>, i: nat)
    requires i < |toks| && Tracks(l, toks, i)
    ensures Tracks(Step(l, toks, i), toks, i + 1)
  {
    hide Append, StartLine, SelectAt;
    var n := i + 1;
    forall d ensures SelectAt(toks, n, d) <==>
            (SelectAt(toks, i, d) && d <= Depth(toks, n)) || (IsWord(toks[i], "SELECT") && d == Depth(toks, i))
    {
      SelectAtStep(toks, i, d);
    }
    StepDepths(l, toks, i);
    var r := Step(l, toks, i);
    if IsPunct(toks[i], ")") {
      PopKeepsShallow(l.selectDepths, l.depth, l.depth - 1);
      assert forall d :: d in r.selectDepths <==> SelectAt(toks, n, d);
    } else {
      assert forall d :: d in l.selectDepths ==> d <= l.depth;
      assert forall d :: d in r.selectDepths <==> SelectAt(toks, n, d);
    }
  }

  /** Writing and breaking lines never moves the depth or the stack. */
  lemma StepDepths(l: Layout, toks: seq<Token>, i: nat)
    requires i < |toks|
    ensures var r := Step(l, toks, i);
            if IsPunct(toks[i], "(") then r.depth == l.depth + 1 && r.selectDepths == l.selectDepths
            else if IsPunct(toks[i], ")") then
              r.depth == l.depth - 1 && r.selectDepths == PopDeeper(l.selectDepths, l.depth - 1)
            else r.depth == l.depth &&
                 r.selectDepths == l.selectDepths + (if IsWord(toks[i], "SELECT") then [l.depth] else [])
  {
    hide PopDeeper;
    if IsWord(toks[i], "SELECT") {
      assert OpensClause(toks, i);
    }
  }
}
