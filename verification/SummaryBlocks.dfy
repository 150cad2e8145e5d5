/** `summary_blocks` of `tools/check_no_benchmark_discriminators.py`: summary values found by indentation. */
module SummaryBlocks {
  import opened Text

  function DropOptional(s: string, c: char): string {
    if s != "" && s[0] == c then s[1..] else s
  }

  function Indent(line: string): (n: nat)
    ensures n <= |line|
  {
    TrimStartShrinks(line);
    |line| - |PySpace.TrimStart(line)|
  }

  lemma TrimStartShrinks(s: string)
    ensures |PySpace.TrimStart(s)| <= |s|
  {
    var lead := PySpace.TrimStartSplits(s);
  }

  /** `^(\s*)"?summary"?\s*:\s*(.*)$`: the value part of a summary key line. */
  function KeyValue(line: string): Option<string> {
    var head := DropOptional(PySpace.TrimStart(line), '"');
    if !StartsWith(head, "summary") then None
    else
      var rest := PySpace.TrimStart(DropOptional(head[7..], '"'));
      if rest != "" && rest[0] == ':' then Some(PySpace.Trim(rest[1..])) else None
  }

  predicate IsKey(line: string) {
    KeyValue(line).Some?
  }

  /** A line that is not blank and indented no deeper than the key ends its value. */
  predicate Ends(line: string, indent: nat) {
    PySpace.Trim(line) != "" && Indent(line) <= indent
  }

  function DropDigits(s: string): string {
    if s != "" && '0' <= s[0] <= '9' then DropDigits(s[1..]) else s
  }

  /** Removes a block scalar header: `^[|>][+-]?\d*\s*`. */
  function DropScalarHeader(s: string): string {
    if s == "" || (s[0] != '|' && s[0] != '>') then s
    else
      var t := s[1..];
      PySpace.TrimStart(DropDigits(if t != "" && (t[0] == '+' || t[0] == '-') then t[1..] else t))
  }

  function Joined(parts: seq<string>): string {
    PySpace.Trim(DropScalarHeader(PySpace.Trim(Join(parts, " "))))
  }

  // ---- what the blocks are ------------------------------------------------------------

  /** Where a value opened with this indent ends, looking from line `j` on. */
  function EndFrom(lines: seq<string>, indent: nat, j: nat): (e: nat)
    requires j <= |lines|
    ensures j <= e <= |lines|
    ensures forall k :: j <= k < e ==> !Ends(lines[k], indent)
    ensures e < |lines| ==> Ends(lines[e], indent)
    decreases |lines| - j
  {
    if j == |lines| || Ends(lines[j], indent) then j else EndFrom(lines, indent, j + 1)
  }

  /** One past the last line of the block that the key at `i` opens. */
  function BlockEnd(lines: seq<string>, i: nat): (e: nat)
    requires i < |lines|
    ensures i < e <= |lines|
  {
    EndFrom(lines, Indent(lines[i]), i + 1)
  }

  /** The key lines that open a block: the first one, then the first one after each block. */
  function Starts(lines: seq<string>, i: nat): seq<nat>
    requires i <= |lines|
    decreases |lines| - i
  {
    if i == |lines| then []
    else if IsKey(lines[i]) then [i] + Starts(lines, BlockEnd(lines, i))
    else Starts(lines, i + 1)
  }

  function Stripped(lines: seq<string>, i: nat, j: nat): seq<string>
    requires i <= j <= |lines|
  {
    if i == j then [] else Stripped(lines, i, j - 1) + [PySpace.Trim(lines[j - 1])]
  }

  datatype Block = Block(line: nat, value: string)

  /** The block opened at `i`: its line number and its joined value. */
  function BlockAt(lines: seq<string>, i: nat): Block
    requires i < |lines| && IsKey(lines[i])
  {
    Block(i + 1, Joined([KeyValue(lines[i]).value] + Stripped(lines, i + 1, BlockEnd(lines, i))))
  }

  function Blocks(lines: seq<string>, i: nat): seq<Block>
    requires i <= |lines|
    decreases |lines| - i
  {
    if i == |lines| then []
    else if IsKey(lines[i]) then [BlockAt(lines, i)] + Blocks(lines, BlockEnd(lines, i))
    else Blocks(lines, i + 1)
  }

  // ---- the loop ---------------------------------------------------------------------------

  /** The scan is inside the block opened at `s`, with its first lines collected. */
  ghost predicate Inside(lines: seq<string>, s: nat, n: nat, indent: nat, current: seq<string>)
  {
    && s < n <= |lines| && IsKey(lines[s]) && indent == Indent(lines[s])
    && EndFrom(lines, indent, n) == BlockEnd(lines, s)
    && current == [KeyValue(lines[s]).value] + Stripped(lines, s + 1, n)
  }

  method SummaryBlocks(lines: seq<string>) returns (blocks: seq<Block>)
    ensures blocks == Blocks(lines, 0)
  {
    hide Joined, KeyValue, Indent, Inside, Blocks, Stripped;
    NothingLeft(lines);
    blocks := [];
    var inside: Option<nat> := None;
    var current: seq<string> := [];
    var start := 0;
    for n := 0 to |lines|
      invariant inside.None? ==> current == [] && blocks + Blocks(lines, n) == Blocks(lines, 0)
      invariant inside.Some? ==> 0 < start <= n && Inside(lines, start - 1, n, inside.value, current)
      invariant inside.Some? ==> blocks + Blocks(lines, start - 1) == Blocks(lines, 0)
    {
      var line := lines[n];
      if inside.Some? && !(PySpace.Trim(line) != "" && Indent(line) <= inside.value) {
        StaysInside(lines, start - 1, n, inside.value, current);
        current := current + [PySpace.Trim(line)];
      } else {
        if inside.Some? {
          BlockIsOver(blocks, lines, start - 1, n, inside.value, current);
          blocks := blocks + [Block(start, Joined(current))];
          current := [];
          inside := None;
        }
        var value := KeyValue(line);
        BlocksFrom(lines, n);
        if value.Some? {
          inside, start, current := Some(Indent(line)), n + 1, [value.value];
          BlockOpens(lines, n);
        }
      }
    }
    if inside.Some? {
      BlockIsOver(blocks, lines, start - 1, |lines|, inside.value, current);
      blocks := blocks + [Block(start, Joined(current))];
    }
  }

  lemma NothingLeft(lines: seq<string>)
    ensures Blocks(lines, |lines|) == []
  {
  }

  /** A line outside every block opens one or is passed over. */
  lemma BlocksFrom(lines: seq<string>, n: nat)
    requires n < |lines|
    ensures !IsKey(lines[n]) ==> Blocks(lines, n) == Blocks(lines, n + 1)
  {
    hide Joined, KeyValue, Ends, Indent;
  }

  lemma BlockOpens(lines: seq<string>, n: nat)
    requires n < |lines| && IsKey(lines[n])
    ensures Inside(lines, n, n + 1, Indent(lines[n]), [KeyValue(lines[n]).value])
  {
    hide Joined, KeyValue, Ends, Indent;
    assert [KeyValue(lines[n]).value] + Stripped(lines, n + 1, n + 1) == [KeyValue(lines[n]).value];
  }

  lemma StaysInside(lines: seq<string>, s: nat, n: nat, indent: nat, current: seq<string>)
    requires Inside(lines, s, n, indent, current) && n < |lines| && !Ends(lines[n], indent)
    ensures Inside(lines, s, n + 1, indent, current + [PySpace.Trim(lines[n])])
  {
    hide KeyValue, Ends, Indent;
  }

  lemma BlockIsOver(blocks: seq<Block>, lines: seq<string>, s: nat, n: nat, indent: nat, current: seq<string>)
    requires Inside(lines, s, n, indent, current) && (n == |lines| || Ends(lines[n], indent))
    ensures Block(s + 1, Joined(current)) == BlockAt(lines, s)
    ensures blocks + [Block(s + 1, Joined(current))] + Blocks(lines, n) == blocks + Blocks(lines, s)
  {
    hide Joined, KeyValue, Ends, Indent;
  }

  // ---- what that means ------------------------------------------------------------------------

  lemma {:induction false} BlocksFollowStarts(lines: seq<string>, i: nat)
    requires i <= |lines|
    ensures |Blocks(lines, i)| == |Starts(lines, i)|
    ensures forall k :: 0 <= k < |Starts(lines, i)| ==>
              Starts(lines, i)[k] < |lines| && IsKey(lines[Starts(lines, i)[k]])
              && Blocks(lines, i)[k] == BlockAt(lines, Starts(lines, i)[k])
    decreases |lines| - i
  {
    hide KeyValue, Joined, Ends, Indent;
    if i < |lines| {
      if IsKey(lines[i]) {
        BlocksFollowStarts(lines, BlockEnd(lines, i));
      } else {
        BlocksFollowStarts(lines, i + 1);
      }
    }
  }

  /** Line `x` lies in the body of the block that `s` opens. */
  predicate InBody(lines: seq<string>, s: nat, x: nat)
    requires s < |lines|
  {
    s < x < BlockEnd(lines, s)
  }

  lemma {:induction false} StartsAreOuter(lines: seq<string>, i: nat)
    requires i <= |lines|
    ensures var ss := Starts(lines, i);
            && (forall k :: 0 <= k < |ss| ==> i <= ss[k] < |lines|)
            && (forall j, k :: 0 <= j < k < |ss| ==> BlockEnd(lines, ss[j]) <= ss[k])
            && (forall x: nat :: i <= x < |lines| ==>
                  (x in ss <==> IsKey(lines[x]) && forall s :: s in ss ==> !InBody(lines, s, x)))
    decreases |lines| - i
  {
    hide KeyValue, Ends, Indent;
    if i < |lines| {
      if IsKey(lines[i]) {
        StartsAreOuter(lines, BlockEnd(lines, i));
        OuterCons(lines, i);
      } else {
        StartsAreOuter(lines, i + 1);
      }
    }
  }

  lemma OuterCons(lines: seq<string>, i: nat)
    requires i < |lines| && IsKey(lines[i])
    requires var e := BlockEnd(lines, i);
             var later := Starts(lines, e);
             && (forall k :: 0 <= k < |later| ==> e <= later[k] < |lines|)
             && (forall x: nat :: e <= x < |lines| ==>
                   (x in later <==> IsKey(lines[x]) && forall s :: s in later ==> !InBody(lines, s, x)))
    ensures var ss := Starts(lines, i);
            && (forall k :: 0 <= k < |ss| ==> i <= ss[k] < |lines|)
            && (forall x: nat :: i <= x < |lines| ==>
                  (x in ss <==> IsKey(lines[x]) && forall s :: s in ss ==> !InBody(lines, s, x)))
  {
    hide KeyValue, Ends, Indent, BlockEnd;
    var e := BlockEnd(lines, i);
    var later, ss := Starts(lines, e), Starts(lines, i);
    assert ss == [i] + later;
    forall x: nat | i <= x < |lines|
      ensures x in ss <==> IsKey(lines[x]) && forall s :: s in ss ==> !InBody(lines, s, x)
    {
      assert i in ss;
      assert forall s :: s in ss <==> s == i || s in later;
      if x == i {
        assert forall s :: s in later ==> s >= e;
      } else if x < e {
        assert InBody(lines, i, x);
        assert forall s :: s in later ==> s >= e;
      } else {
        assert !InBody(lines, i, x);
      }
    }
  }

  /** The scanner's result, said without the scan: blocks in order, one for each summary key that no
      earlier block swallows, each running to the first non-blank line indented no deeper. */
  lemma BlocksAreOuterKeys(lines: seq<string>)
    ensures var ss, bs := Starts(lines, 0), Blocks(lines, 0);
            && |bs| == |ss|
            && (forall j, k :: 0 <= j < k < |ss| && ss[j] < |lines| ==> BlockEnd(lines, ss[j]) <= ss[k])
            && (forall k :: 0 <= k < |ss| ==>
                  ss[k] < |lines| && IsKey(lines[ss[k]]) && bs[k] == BlockAt(lines, ss[k]))
            && (forall x: nat :: x < |lines| && IsKey(lines[x]) ==>
                  (x in ss <==> forall s :: s in ss && s < |lines| ==> !InBody(lines, s, x)))
  {
    hide KeyValue, Ends, Indent, BlockEnd, Starts, Blocks, BlockAt;
    BlocksFollowStarts(lines, 0);
    StartsAreOuter(lines, 0);
  }

  // ---- read off the lines ------------------------------------------------------------------

  /** The line has exactly `n` leading blanks. */
  predicate HasIndent(line: string, n: nat) {
    && n <= |line| && (forall k :: 0 <= k < n ==> PySpace.Has(line[k]))
    && (n < |line| ==> !PySpace.Has(line[n]))
  }

  predicate HasText(line: string) {
    exists k :: 0 <= k < |line| && !PySpace.Has(line[k])
  }

  lemma IndentIs(line: string)
    ensures forall n: nat :: HasIndent(line, n) <==> n == Indent(line)
  {
    var lead := PySpace.TrimStartSplits(line);
    var m := Indent(line);
    assert |lead| == m && line[..m] == lead;
    forall k | 0 <= k < m ensures PySpace.Has(line[k]) {
      assert line[k] == lead[k];
    }
    assert HasIndent(line, m);
    forall n: nat | HasIndent(line, n) ensures n == m {
    }
  }

  lemma TextIs(line: string)
    ensures HasText(line) <==> PySpace.Trim(line) != ""
  {
    var lead, trail := PySpace.TrimSplits(line);
    var t := PySpace.Trim(line);
    assert line == lead + t + trail;
    if t != "" {
      assert line[|lead|] == t[0];
    } else {
      assert forall k :: 0 <= k < |line| ==> PySpace.Has(line[k]) by {
        assert line == lead + trail;
      }
    }
  }

  /** How far a block reaches: past every line that is blank or indented deeper than its key, to the first
      that has text and is not. */
  lemma BlockReaches(lines: seq<string>, s: nat, key: nat)
    requires s < |lines| && HasIndent(lines[s], key)
    ensures forall x, n: nat :: s < x < BlockEnd(lines, s) && HasText(lines[x]) && HasIndent(lines[x], n) ==> n > key
    ensures BlockEnd(lines, s) < |lines| ==> HasText(lines[BlockEnd(lines, s)])
    ensures forall n: nat :: BlockEnd(lines, s) < |lines| && HasIndent(lines[BlockEnd(lines, s)], n) ==> n <= key
  {
    hide HasIndent, HasText, EndFrom;
    IndentIs(lines[s]);
    var e := BlockEnd(lines, s);
    forall x, n: nat | s < x < e && HasText(lines[x]) && HasIndent(lines[x], n) ensures n > key {
      IndentIs(lines[x]);
      TextIs(lines[x]);
    }
    if e < |lines| {
      IndentIs(lines[e]);
      TextIs(lines[e]);
    }
  }

  /** So of two summary keys at one indent neither lies in the block of the other. */
  lemma SiblingsStandApart(lines: seq<string>, s: nat, x: nat, n: nat)
    requires s < |lines| && x < |lines| && s != x && IsKey(lines[s]) && IsKey(lines[x])
    requires HasIndent(lines[s], n) && HasIndent(lines[x], n)
    ensures !InBody(lines, s, x)
  {
    hide HasIndent, HasText, BlockEnd, KeyValue;
    BlockReaches(lines, s, n);
    KeyHasText(lines[x]);
  }

  lemma KeyHasText(line: string)
    requires IsKey(line)
    ensures HasText(line)
  {
    var lead := PySpace.TrimStartSplits(line);
    assert PySpace.TrimStart(line) != "";
    assert line[|lead|] == PySpace.TrimStart(line)[0];
  }

  // ---- keys and values, character by character ----------------------------------------------

  predicate OptionalQuote(q: string) {
    q == "" || q == "\""
  }

  /** A key line, cut into its parts. */
  predicate IsKeyLine(line: string, lead: string, q: string, r: string, gap: string, rest: string) {
    && PySpace.All(lead) && OptionalQuote(q) && OptionalQuote(r) && PySpace.All(gap)
    && line == lead + (q + ("summary" + (r + (gap + (":" + rest)))))
  }

  lemma DropsQuote(q: string, s: string)
    requires OptionalQuote(q) && (s != "" ==> s[0] != '"')
    ensures DropOptional(q + s, '"') == s
  {
    assert "" + s == s && ("\"" + s)[1..] == s;
  }

  lemma QuoteDropped(s: string) returns (q: string)
    ensures OptionalQuote(q) && s == q + DropOptional(s, '"')
  {
    q := if s != "" && s[0] == '"' then "\"" else "";
    assert q == s[..|q|];
  }

  lemma TrimStartAt(lead: string, s: string)
    requires PySpace.All(lead) && s != "" && !PySpace.Has(s[0])
    ensures PySpace.TrimStart(lead + s) == s
  {
    PySpace.TrimStartDrops(lead, s);
  }

  /** Which lines are keys, and with what value: leading blanks, the word with or without quotes, blanks, a
      colon; the rest of the line, stripped, is the value. */
  lemma KeyLineIs(line: string, value: string)
    ensures KeyValue(line) == Some(value) <==>
            exists lead, q, r, gap, rest :: IsKeyLine(line, lead, q, r, gap, rest) && value == PySpace.Trim(rest)
  {
    if KeyValue(line) == Some(value) {
      KeyLineParts(line, value);
    }
    if lead, q, r, gap, rest :| IsKeyLine(line, lead, q, r, gap, rest) && value == PySpace.Trim(rest) {
      KeyLineValue(line, lead, q, r, gap, rest);
    }
  }

  lemma KeyLineParts(line: string, value: string)
    requires KeyValue(line) == Some(value)
    ensures exists lead, q, r, gap, rest :: IsKeyLine(line, lead, q, r, gap, rest) && value == PySpace.Trim(rest)
  {
    var lead := PySpace.TrimStartSplits(line);
    var q := QuoteDropped(PySpace.TrimStart(line));
    var head := DropOptional(PySpace.TrimStart(line), '"');
    var r := QuoteDropped(head[7..]);
    var after := DropOptional(head[7..], '"');
    var gap := PySpace.TrimStartSplits(after);
    var colon := PySpace.TrimStart(after);
    assert head == "summary" + head[7..] && colon == ":" + colon[1..];
    assert IsKeyLine(line, lead, q, r, gap, colon[1..]);
  }

  lemma KeyLineValue(line: string, lead: string, q: string, r: string, gap: string, rest: string)
    requires IsKeyLine(line, lead, q, r, gap, rest)
    ensures KeyValue(line) == Some(PySpace.Trim(rest))
  {
    var colon := ":" + rest;
    var after := gap + colon;
    var tail := r + after;
    var head := "summary" + tail;
    TrimStartAt(lead, q + head);
    DropsQuote(q, head);
    assert head[7..] == tail && head[..7] == "summary";
    assert after != "" && after[0] != '"' by {
      if gap != "" { assert PySpace.Has(gap[0]) && after[0] == gap[0]; }
    }
    DropsQuote(r, after);
    TrimStartAt(gap, colon);
    assert colon[1..] == rest;
  }

  /** `|` or `>`, a sign, digits and blanks, as far as they go. */
  predicate IsHeader(s: string, mark: char, sign: string, digits: string, gap: string, rest: string) {
    && s == [mark] + (sign + (digits + (gap + rest))) && (mark == '|' || mark == '>')
    && (sign == "" || sign == "+" || sign == "-")
    && (forall k :: 0 <= k < |digits| ==> '0' <= digits[k] <= '9') && PySpace.All(gap)
    && (rest != "" ==> !PySpace.Has(rest[0]))
    && (gap + rest != "" ==> !('0' <= (gap + rest)[0] <= '9'))
    && (sign == "" && digits + (gap + rest) != "" ==>
          (digits + (gap + rest))[0] != '+' && (digits + (gap + rest))[0] != '-')
  }

  lemma {:induction false} DigitsDropped(s: string) returns (digits: string)
    ensures s == digits + DropDigits(s) && forall k :: 0 <= k < |digits| ==> '0' <= digits[k] <= '9'
    ensures DropDigits(s) != "" ==> !('0' <= DropDigits(s)[0] <= '9')
  {
    digits := "";
    if s != "" && '0' <= s[0] <= '9' {
      var more := DigitsDropped(s[1..]);
      digits := s[..1] + more;
    }
  }

  lemma HeaderIs(s: string) returns (sign: string, digits: string, gap: string, rest: string)
    requires s != "" && (s[0] == '|' || s[0] == '>')
    ensures IsHeader(s, s[0], sign, digits, gap, rest) && DropScalarHeader(s) == rest
  {
    var t := s[1..];
    sign := if t != "" && (t[0] == '+' || t[0] == '-') then t[..1] else "";
    var u := t[|sign|..];
    digits := DigitsDropped(u);
    gap := PySpace.TrimStartSplits(DropDigits(u));
    rest := PySpace.TrimStart(DropDigits(u));
    assert t == sign + u && s == [s[0]] + t && u == digits + (gap + rest);
    assert sign == "" ==> u == t;
  }

  /** The value of a block: its lines joined by blanks and stripped; behind a block scalar header, if it opens
      with one, and stripped again. */
  lemma JoinedIs(parts: seq<string>) returns (sign: string, digits: string, gap: string, rest: string)
    ensures var s := PySpace.Trim(Join(parts, " "));
            if s != "" && (s[0] == '|' || s[0] == '>')
            then IsHeader(s, s[0], sign, digits, gap, rest) && Joined(parts) == PySpace.Trim(rest)
            else Joined(parts) == s
  {
    hide IsHeader;
    var s := PySpace.Trim(Join(parts, " "));
    if s != "" && (s[0] == '|' || s[0] == '>') {
      sign, digits, gap, rest := HeaderIs(s);
    } else {
      sign, digits, gap, rest := "", "", "", "";
      var lead, trail := PySpace.TrimSplits(Join(parts, " "));
      PySpace.TrimTight(s);
    }
  }
}
