/** Token streams of one trimmed line, and which of them survive being respaced by the layout. */
module SqlSingleLine {
  import opened Text
  import opened SqlTokens
  import opened SqlSpacing
  import opened SqlLayout
  import opened SqlSeparators

  predicate IsLineComment(t: Token) {
    t.kind == Comment && t.text != "" && t.text[0] == '-'
  }

  /** What the scan of one trimmed line satisfies. */
  predicate OneLine(toks: seq<Token>) {
    && Lexed(toks)
    && AllShown(toks)
    && forall i :: 0 <= i < |toks| - 1 ==> !IsLineComment(toks[i])
  }

  /** The two ways the layout runs neighbours together: an integer, a dot and a number that were
      apart, and a skipped stretch ending in a colon before a cast. */
  predicate Fuses(toks: seq<Token>, i: nat)
    requires i < |toks|
  {
    || (i + 2 < |toks| && IsInteger(toks[i]) && IsPunct(toks[i + 1], ".") && toks[i + 2].kind == Number)
    || (i + 1 < |toks| && toks[i].kind == Other && toks[i].text != ""
        && toks[i].text[|toks[i].text| - 1] == ':' && IsPunct(toks[i + 1], "::"))
  }

  // ---- the scan of one line -----------------------------------------------------------

  lemma MatchEnds(s: string)
    requires Lex(s).Some? && '\n' !in s && !JsSpace.Has(s[|s| - 1])
    ensures JsSpace.Tight(s[..Lex(s).value.len])
    ensures IsLineComment(Token(s[..Lex(s).value.len], Lex(s).value.kind)) ==> Lex(s).value.len == |s|
  {
    var n := Lex(s).value.len;
    match Lex(s).value.kind
    case Comment =>
      if s[0] == '/' { BlockEndCloses(s, 2); }
    case String => QuoteEndCloses(s, 1, '\'');
    case Identifier => QuoteEndCloses(s, 1, '"');
    case Number => assert CharClass.Digit.Has(s[n - 1]);
    case Word => assert CharClass.WordChar.Has(s[n - 1]);
    case Punct =>
  }

  lemma {:induction false} BlockEndCloses(s: string, i: nat)
    requires BlockEnd(s, i).Some?
    ensures s[BlockEnd(s, i).value - 1] == '/'
    decreases |s| - i
  {
    if !(s[i] == '*' && s[i + 1] == '/') {
      BlockEndCloses(s, i + 1);
    }
  }

  lemma {:induction false} QuoteEndCloses(s: string, i: nat, q: char)
    requires QuoteEnd(s, i, q).Some?
    ensures s[QuoteEnd(s, i, q).value - 1] == q
    decreases |s| - i
  {
    if s[i] != q {
      QuoteEndCloses(s, i + 1, q);
    } else if i + 1 < |s| && s[i + 1] == q && QuoteEnd(s, i + 2, q).Some? {
      QuoteEndCloses(s, i + 2, q);
    }
  }

  lemma {:induction false} ScanShown(gap: string, s: string)
    requires '\n' !in s && (s != "" ==> !JsSpace.Has(s[|s| - 1]))
    ensures AllShown(Scan(gap, s))
    ensures forall i :: 0 <= i < |Scan(gap, s)| - 1 ==> !IsLineComment(Scan(gap, s)[i])
    decreases |s|
  {
    var lead, trail := JsSpace.TrimSplits(gap);
    if s != "" {
      match Lex(s)
      case None => ScanShown(gap + s[..1], s[1..]);
      case Some(m) =>
        ScanShown("", s[m.len..]);
        MatchEnds(s);
        ScanShownMatch(gap, s, m);
    }
  }

  lemma ScanShownMatch(gap: string, s: string, m: Match)
    requires s != "" && Lex(s) == Some(m)
    requires JsSpace.Tight(s[..m.len]) && JsSpace.Tight(JsSpace.Trim(gap))
    requires IsLineComment(Token(s[..m.len], m.kind)) ==> m.len == |s|
    requires var later := Scan("", s[m.len..]);
             AllShown(later) && forall i :: 0 <= i < |later| - 1 ==> !IsLineComment(later[i])
    ensures AllShown(Scan(gap, s))
    ensures forall i :: 0 <= i < |Scan(gap, s)| - 1 ==> !IsLineComment(Scan(gap, s)[i])
  {
    var t, later := Token(s[..m.len], m.kind), Scan("", s[m.len..]);
    assert |Leftover(gap)| <= 1;
    assert Leftover(gap) != [] ==> Shown(Leftover(gap)[0]) && !IsLineComment(Leftover(gap)[0]);
    if IsLineComment(t) {
      assert s[m.len..] == "";
      ScanEnds("");
      assert later == [];
    }
    assert t.text != "";
    hide Lex, Scan, Leftover, IsLineComment;
    ScanMatches(gap, s, m);
  }

  lemma TokensOneLine(s: string)
    requires JsSpace.Tight(s) && '\n' !in s
    ensures OneLine(Tokens(s))
  {
    TokensLexed(s);
    ScanShown("", s);
  }
}
