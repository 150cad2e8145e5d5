/** The tokenizer of `ui/lib/sql-format.ts`: a longest-alternative scanner over characters. */
module SqlTokens {
  import opened Text

  datatype Kind = Comment | String | Identifier | Number | Word | Punct | Other

  datatype Token = Token(text: string, kind: Kind)

  datatype Match = Match(kind: Kind, len: nat)

  datatype CharClass = Digit | WordChar | NotNewline
  {
    predicate Has(c: char) {
      match this
      case Digit => '0' <= c <= '9'
      case WordChar => 'A' <= c <= 'Z' || 'a' <= c <= 'z' || c == '_' || '0' <= c <= '9'
      case NotNewline => c != '\n'
    }
  }

  predicate StartsWord(c: char) {
    CharClass.WordChar.Has(c) && !CharClass.Digit.Has(c)
  }

  predicate IsOperatorChar(c: char) {
    c in "(),.;*=<>!+/-"
  }

  predicate IsOperatorPair(a: char, b: char) {
    || (a == '<' && b == '=') || (a == '>' && b == '=') || (a == '<' && b == '>')
    || (a == '!' && b == '=') || (a == '|' && b == '|') || (a == ':' && b == ':')
  }

  // ---- the regular expression, alternative by alternative --------------------

  /** End of the maximal run of class characters starting at `i`. */
  function Run(s: string, i: nat, c: CharClass): (end: nat)
    requires i <= |s|
    ensures i <= end <= |s|
    ensures forall k :: i <= k < end ==> c.Has(s[k])
    ensures end < |s| ==> !c.Has(s[end])
    decreases |s| - i
  {
    if i < |s| && c.Has(s[i]) then Run(s, i + 1, c) else i
  }

  /** End of a block comment whose body starts at `i`: just past the first closing pair. */
  function BlockEnd(s: string, i: nat): (end: Option<nat>)
    ensures end.Some? ==> i + 2 <= end.value <= |s|
    decreases |s| - i
  {
    if i + 1 >= |s| then None
    else if s[i] == '*' && s[i + 1] == '/' then Some(i + 2)
    else BlockEnd(s, i + 1)
  }

  /** End of a quoted token whose body continues at `i`. A doubled quote is taken as an escape
      first; when no closing quote follows it, the engine backtracks to its first half. */
  function QuoteEnd(s: string, i: nat, q: char): (end: Option<nat>)
    ensures end.Some? ==> i < end.value <= |s|
    decreases |s| - i
  {
    if i >= |s| then None
    else if s[i] != q then QuoteEnd(s, i + 1, q)
    else if i + 1 < |s| && s[i + 1] == q then
      var later := QuoteEnd(s, i + 2, q);
      if later.Some? then later else Some(i + 1)
    else Some(i + 1)
  }

  function NumberEnd(s: string): (end: nat)
    requires s != ""
    ensures 1 <= end <= |s|
  {
    var d := Run(s, 1, Digit);
    if d + 1 < |s| && s[d] == '.' && CharClass.Digit.Has(s[d + 1]) then Run(s, d + 2, Digit) else d
  }

  /** The match of `SQL_TOKEN` at the head of `s`: the first alternative that matches. */
  function Lex(s: string): (m: Option<Match>)
    ensures m.Some? ==> 0 < m.value.len <= |s| && m.value.kind != Other
  {
    if s == "" then None
    else if |s| > 1 && s[0] == '-' && s[1] == '-' then Some(Match(Comment, Run(s, 2, NotNewline)))
    else if |s| > 1 && s[0] == '/' && s[1] == '*' && BlockEnd(s, 2).Some? then
      Some(Match(Comment, BlockEnd(s, 2).value))
    else if s[0] == '\'' && QuoteEnd(s, 1, '\'').Some? then
      Some(Match(String, QuoteEnd(s, 1, '\'').value))
    else if s[0] == '"' && QuoteEnd(s, 1, '"').Some? then
      Some(Match(Identifier, QuoteEnd(s, 1, '"').value))
    else if CharClass.Digit.Has(s[0]) then Some(Match(Number, NumberEnd(s)))
    else if StartsWord(s[0]) then Some(Match(Word, Run(s, 1, WordChar)))
    else if |s| > 1 && IsOperatorPair(s[0], s[1]) then Some(Match(Punct, 2))
    else if IsOperatorChar(s[0]) then Some(Match(Punct, 1))
    else None
  }

  /** A skipped stretch becomes a token of its own unless it is blank. */
  function Leftover(gap: string): seq<Token> {
    var text := JsSpace.Trim(gap);
    if text == "" then [] else [Token(text, Other)]
  }

  /** The token stream of `s`, with `gap` skipped just before it. */
  function Scan(gap: string, s: string): seq<Token>
    decreases |s|
  {
    if s == "" then Leftover(gap)
    else
      match Lex(s)
      case None => Scan(gap + s[..1], s[1..])
      case Some(m) => Leftover(gap) + [Token(s[..m.len], m.kind)] + Scan("", s[m.len..])
  }

  function Tokens(s: string): seq<Token> {
    Scan("", s)
  }

  predicate SameTokens(a: string, b: string) {
    Tokens(a) == Tokens(b)
  }

  // ---- the loop ---------------------------------------------------------------

  lemma {:induction false} ScanSkips(gap: string, s: string, k: nat)
    requires k <= |s|
    requires forall j :: 0 <= j < k ==> Lex(s[j..]).None?
    ensures Scan(gap, s) == Scan(gap + s[..k], s[k..])
    decreases k
  {
    if k == 0 {
      assert gap + s[..0] == gap && s[0..] == s;
    } else {
      assert s[0..] == s;
      forall j | 0 <= j < k - 1 ensures Lex(s[1..][j..]).None? {
        assert s[1..][j..] == s[j + 1..];
      }
      ScanSkips(gap + s[..1], s[1..], k - 1);
      assert gap + s[..1] + s[1..][..k - 1] == gap + s[..k];
      assert s[1..][k - 1..] == s[k..];
    }
  }

  /** `SQL_TOKEN.exec` from `lastIndex`: the first position at or after it that matches. */
  method Exec(sql: string, lastIndex: nat) returns (index: nat, m: Option<Match>)
    requires lastIndex <= |sql|
    ensures lastIndex <= index <= |sql|
    ensures forall j :: lastIndex <= j < index ==> Lex(sql[j..]).None?
    ensures m == Lex(sql[index..])
    ensures m.None? ==> index == |sql|
  {
    index := lastIndex;
    m := Lex(sql[index..]);
    while m.None? && index < |sql|
      invariant lastIndex <= index <= |sql|
      invariant forall j :: lastIndex <= j < index ==> Lex(sql[j..]).None?
      invariant m == Lex(sql[index..])
    {
      index := index + 1;
      m := Lex(sql[index..]);
    }
  }

  method TokenizeSql(sql: string) returns (tokens: seq<Token>)
    ensures tokens == Tokens(sql)
  {
    hide Lex, Scan;
    tokens := [];
    var last := 0;
    assert sql[0..] == sql;
    var index, m := Exec(sql, 0);
    while m.Some?
      invariant last <= index <= |sql|
      invariant forall j :: last <= j < index ==> Lex(sql[j..]).None?
      invariant m == Lex(sql[index..])
      invariant m.None? ==> index == |sql|
      invariant Tokens(sql) == tokens + Scan("", sql[last..])
      decreases |sql| - last
    {
      var end := index + m.value.len;
      ghost var before := tokens;
      tokens := PushGap(tokens, sql[last..index]);
      tokens := tokens + [Token(sql[index..end], m.value.kind)];
      NextToken(before, tokens, sql, last, index, m.value);
      last := end;
      index, m := Exec(sql, last);
    }
    NoMoreTokens(sql, last);
    tokens := PushGap(tokens, sql[last..]);
  }

  lemma NoMoreTokens(sql: string, last: nat)
    requires last <= |sql|
    requires forall j :: last <= j < |sql| ==> Lex(sql[j..]).None?
    ensures Scan("", sql[last..]) == Leftover(sql[last..])
  {
    SkipTo(sql, last, |sql|);
    assert sql[last..] == sql[last..|sql|] && sql[|sql|..] == "";
  }

  method PushGap(tokens: seq<Token>, gap: string) returns (r: seq<Token>)
    ensures r == tokens + Leftover(gap)
  {
    var text := JsSpace.Trim(gap);
    r := tokens;
    if text != "" {
      r := r + [Token(text, Other)];
    }
  }

  lemma NextToken(before: seq<Token>, after: seq<Token>, sql: string, last: nat, index: nat, m: Match)
    requires last <= index <= |sql|
    requires forall j :: last <= j < index ==> Lex(sql[j..]).None?
    requires Lex(sql[index..]) == Some(m)
    requires after == before + Leftover(sql[last..index]) + [Token(sql[index..index + m.len], m.kind)]
    ensures before + Scan("", sql[last..]) == after + Scan("", sql[index + m.len..])
  {
    hide Lex;
    SkipTo(sql, last, index);
    assert sql[index..][..m.len] == sql[index..index + m.len];
    assert sql[index..][m.len..] == sql[index + m.len..];
  }

  lemma SkipTo(sql: string, last: nat, index: nat)
    requires last <= index <= |sql|
    requires forall j :: last <= j < index ==> Lex(sql[j..]).None?
    ensures Scan("", sql[last..]) == Scan(sql[last..index], sql[index..])
  {
    forall j | 0 <= j < index - last ensures Lex(sql[last..][j..]).None? {
      assert sql[last..][j..] == sql[last + j..];
    }
    ScanSkips("", sql[last..], index - last);
    assert "" + sql[last..][..index - last] == sql[last..index];
    assert sql[last..][index - last..] == sql[index..];
  }
}
