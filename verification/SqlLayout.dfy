/** The display formatter of `ui/lib/sql-format.ts`: the layout pass and its guard. */
module SqlLayout {
  import opened Text
  import opened SqlTokens

  // ---- vocabulary -----------------------------------------------------------------

  const SQL_KEYWORDS: set<string> := {
    "SELECT", "FROM", "WHERE", "AND", "OR", "NOT", "AS", "ON", "JOIN", "INNER",
    "LEFT", "RIGHT", "FULL", "OUTER", "CROSS", "GROUP", "BY", "ORDER", "HAVING",
    "LIMIT", "OFFSET", "DISTINCT", "UNION", "ALL", "IN", "IS", "NULL", "LIKE",
    "BETWEEN", "CASE", "WHEN", "THEN", "ELSE", "END", "ASC", "DESC", "WITH",
    "INSERT", "INTO", "VALUES", "UPDATE", "SET", "DELETE", "EXISTS", "USING",
    "OVER", "PARTITION", "TRUE", "FALSE", "NATURAL", "EXCEPT", "INTERSECT",
    "WINDOW", "RETURNING", "FETCH", "ANY", "SOME", "FILTER", "WITHIN"
  }

  const CLAUSE_STARTERS: set<string> := {
    "SELECT", "FROM", "WHERE", "GROUP", "ORDER", "HAVING", "LIMIT", "OFFSET",
    "UNION", "EXCEPT", "INTERSECT", "WITH", "WINDOW", "RETURNING", "FETCH",
    "JOIN", "LEFT", "RIGHT", "INNER", "FULL", "CROSS", "NATURAL"
  }

  const JOIN_MODIFIERS: set<string> := {"LEFT", "RIGHT", "INNER", "FULL", "CROSS", "OUTER", "NATURAL"}

  const NO_SPACE_BEFORE: set<string> := {",", ")", ";", ".", "::"}

  /** The source set also lists "::", which a one-character slice never equals. */
  const NO_SPACE_AFTER: set<string> := {"(", ".", "::"}

  function Upper(s: string): string {
    seq(|s|, i requires 0 <= i < |s| =>
      if 'a' <= s[i] <= 'z' then s[i] - 'a' + 'A' else s[i])
  }

  predicate IsPunct(t: Token, text: string) {
    t.kind == Punct && t.text == text
  }

  predicate IsWord(t: Token, word: string) {
    t.kind == Word && Upper(t.text) == word
  }

  predicate IsKeyword(t: Token) {
    t.kind == Word && Upper(t.text) in SQL_KEYWORDS
  }

  predicate IsStarter(t: Token) {
    t.kind == Word && Upper(t.text) in CLAUSE_STARTERS
  }

  predicate IsJoinModifier(t: Token) {
    t.kind == Word && Upper(t.text) in JOIN_MODIFIERS
  }

  predicate IsConnective(t: Token) {
    IsWord(t, "AND") || IsWord(t, "OR")
  }

  /** A starter opens a clause unless its line was already broken by a join modifier, or it is
      a `GROUP` or `ORDER` with no `BY` after it. */
  predicate OpensClause(toks: seq<Token>, i: nat)
    requires i < |toks|
  {
    && IsStarter(toks[i])
    && !(IsWord(toks[i], "JOIN") && i > 0 && IsJoinModifier(toks[i - 1]))
    && (IsWord(toks[i], "GROUP") || IsWord(toks[i], "ORDER") ==>
          i + 1 < |toks| && IsWord(toks[i + 1], "BY"))
  }

  predicate SpaceBeforeOpenParen(toks: seq<Token>, i: nat)
    requires i < |toks|
  {
    i > 0 && (if toks[i - 1].kind == Word then IsKeyword(toks[i - 1]) else toks[i - 1].kind != Punct)
  }

  // ---- the layout pass --------------------------------------------------------------

  datatype Layout = Layout(lines: seq<string>, current: string, depth: int, selectDepths: seq<int>)

  function Indent(n: int): string
    decreases n
  {
    if n <= 0 then "" else "  " + Indent(n - 1)
  }

  function Flush(l: Layout): Layout {
    l.(lines := if JsSpace.Trim(l.current) != "" then l.lines + [JsSpace.TrimEnd(l.current)] else l.lines,
       current := "")
  }

  function StartLine(l: Layout, extra: int): Layout {
    Flush(l).(current := Indent(l.depth + extra))
  }

  /** `current.trimEnd().slice(-1)`. */
  function LastShown(s: string): string {
    var t := JsSpace.TrimEnd(s);
    if t == "" then "" else t[|t| - 1..]
  }

  function Append(l: Layout, text: string, space: bool): Layout {
    var line := if l.current == "" then Indent(l.depth) else l.current;
    var needsSpace :=
      && space
      && JsSpace.Trim(line) != ""
      && line[|line| - 1] != ' '
      && LastShown(line) !in NO_SPACE_AFTER;
    l.(current := line + (if needsSpace then " " else "") + text)
  }

  function PopDeeper(depths: seq<int>, depth: int): seq<int> {
    if depths != [] && depths[|depths| - 1] > depth then PopDeeper(depths[..|depths| - 1], depth) else depths
  }

  predicate InSelectList(l: Layout) {
    l.selectDepths != [] && l.selectDepths[|l.selectDepths| - 1] == l.depth
  }

  function Step(l: Layout, toks: seq<Token>, i: nat): Layout
    requires i < |toks|
  {
    var t := toks[i];
    if IsPunct(t, "(") then
      var entered := Append(l, "(", SpaceBeforeOpenParen(toks, i)).(depth := l.depth + 1);
      if i + 1 < |toks| && IsWord(toks[i + 1], "SELECT") then StartLine(entered, 0) else entered
    else if IsPunct(t, ")") then
      Append(l.(depth := l.depth - 1, selectDepths := PopDeeper(l.selectDepths, l.depth - 1)), ")", false)
    else if IsPunct(t, ",") then
      var listed := Append(l, ",", false);
      if InSelectList(listed) then StartLine(listed, 1) else listed
    else if IsStarter(t) then
      var broken := if OpensClause(toks, i) then StartLine(l, 0) else l;
      var pushed := if OpensClause(toks, i) && IsWord(t, "SELECT")
                    then broken.(selectDepths := broken.selectDepths + [broken.depth]) else broken;
      Append(pushed, t.text, true)
    else if IsConnective(t) then
      Append(StartLine(l, 1), t.text, true)
    else
      Append(l, t.text, t.text !in NO_SPACE_BEFORE)
  }

  function LayOut(toks: seq<Token>, n: nat): Layout
    requires n <= |toks|
  {
    if n == 0 then Layout([], "", 0, []) else Step(LayOut(toks, n - 1), toks, n - 1)
  }

  function LaidOut(toks: seq<Token>): string {
    JsSpace.Trim(Join(Flush(LayOut(toks, |toks|)).lines, "\n"))
  }

  /** Too short, already laid out, or nothing to lay out. */
  predicate LeftAlone(sql: string) {
    var trimmed := JsSpace.Trim(sql);
    trimmed == "" || '\n' in trimmed || CodeUnits(trimmed) <= 60 || Tokens(trimmed) == []
  }

  function Format(sql: string): string {
    if LeftAlone(sql) then sql
    else
      var formatted := LaidOut(Tokens(JsSpace.Trim(sql)));
      if formatted == "" || !SameTokens(sql, formatted) then sql else formatted
  }

  // ---- the loop ------------------------------------------------------------------------

  /** The cells the layout closures share. */
  class LayoutPass {
    var lines: seq<string>
    var current: string
    var depth: int
    var selectDepths: seq<int>

    function State(): Layout
      reads this
    {
      Layout(lines, current, depth, selectDepths)
    }

    constructor ()
      ensures State() == Layout([], "", 0, [])
    {
      lines, current, depth, selectDepths := [], "", 0, [];
    }

    method DoFlush()
      modifies this
      ensures State() == Flush(old(State()))
    {
      if JsSpace.Trim(current) != "" {
        lines := lines + [JsSpace.TrimEnd(current)];
      }
      current := "";
    }

    method DoStartLine(extraIndent: int)
      modifies this
      ensures State() == StartLine(old(State()), extraIndent)
    {
      DoFlush();
      current := Indent(depth + extraIndent);
    }

    method DoAppend(text: string, space: bool)
      modifies this
      ensures State() == Append(old(State()), text, space)
    {
      if current == "" {
        current := Indent(depth);
      }
      var needsSpace :=
        && space
        && JsSpace.Trim(current) != ""
        && current[|current| - 1] != ' '
        && LastShown(current) !in NO_SPACE_AFTER;
      current := current + (if needsSpace then " " else "") + text;
    }

    method CloseParen()
      modifies this
      ensures var l := old(State());
              var popped := l.(depth := l.depth - 1, selectDepths := PopDeeper(l.selectDepths, l.depth - 1));
              State() == Append(popped, ")", false)
    {
      depth := depth - 1;
      ghost var all := selectDepths;
      while selectDepths != [] && selectDepths[|selectDepths| - 1] > depth
        invariant lines == old(lines) && current == old(current) && depth == old(depth) - 1
        invariant PopDeeper(selectDepths, depth) == PopDeeper(all, depth)
        decreases |selectDepths|
      {
        selectDepths := selectDepths[..|selectDepths| - 1];
      }
      DoAppend(")", false);
    }

    method Take(toks: seq<Token>, i: nat)
      requires i < |toks|
      modifies this
      ensures State() == Step(old(State()), toks, i)
    {
      var token := toks[i];
      if IsPunct(token, "(") {
        DoAppend("(", SpaceBeforeOpenParen(toks, i));
        depth := depth + 1;
        if i + 1 < |toks| && IsWord(toks[i + 1], "SELECT") {
          DoStartLine(0);
        }
      } else if IsPunct(token, ")") {
        CloseParen();
      } else if IsPunct(token, ",") {
        DoAppend(",", false);
        if selectDepths != [] && selectDepths[|selectDepths| - 1] == depth {
          DoStartLine(1);
        }
      } else if IsStarter(token) {
        var brokenByModifier := IsWord(token, "JOIN") && i > 0 && IsJoinModifier(toks[i - 1]);
        var needsBy := IsWord(token, "GROUP") || IsWord(token, "ORDER");
        if !brokenByModifier && (!needsBy || (i + 1 < |toks| && IsWord(toks[i + 1], "BY"))) {
          DoStartLine(0);
          if IsWord(token, "SELECT") {
            selectDepths := selectDepths + [depth];
          }
        }
        DoAppend(token.text, true);
      } else if IsConnective(token) {
        DoStartLine(1);
        DoAppend(token.text, true);
      } else {
        DoAppend(token.text, token.text !in NO_SPACE_BEFORE);
      }
    }
  }

  method FormatSql(sql: string) returns (r: string)
    ensures r == Format(sql)
  {
    var trimmed := JsSpace.Trim(sql);
    if trimmed == "" || '\n' in trimmed || CodeUnits(trimmed) <= 60 {
      return sql;
    }
    var tokens := TokenizeSql(trimmed);
    if tokens == [] {
      return sql;
    }
    var pass := new LayoutPass();
    for i := 0 to |tokens|
      invariant pass.State() == LayOut(tokens, i)
    {
      pass.Take(tokens, i);
    }
    pass.DoFlush();
    var formatted := JsSpace.Trim(Join(pass.lines, "\n"));
    var before := TokenizeSql(sql);
    var after := TokenizeSql(formatted);
    if formatted == "" || before != after {
      return sql;
    }
    return formatted;
  }
}
