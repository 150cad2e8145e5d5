/** What a token needs from the text around it, and why blank space between tokens is free. */
module SqlSpacing {
  import opened Text
  import opened SqlTokens

  /** The tokens written out in order, `seps[i]` just before token `i`. */
  function Weave(seps: seq<string>, toks: seq<Token>): string
    requires |seps| == |toks|
  {
    if toks == [] then "" else seps[0] + toks[0].text + Weave(seps[1..], toks[1..])
  }

  lemma WeaveCons(sep: string, seps: seq<string>, t: Token, toks: seq<Token>)
    requires |seps| == |toks|
    ensures Weave([sep] + seps, [t] + toks) == sep + t.text + Weave(seps, toks)
  {
    assert ([sep] + seps)[1..] == seps && ([t] + toks)[1..] == toks;
  }

  predicate AllBlank(seps: seq<string>) {
    forall i :: 0 <= i < |seps| ==> JsSpace.All(seps[i])
  }

  // ---- one token and what may follow it ---------------------------------------

  predicate IsInteger(t: Token) {
    t.kind == Number && '.' !in t.text
  }

  /** Text that may stand right after `t` without changing where `t` ends. */
  predicate Follow(t: Token, r: string) {
    r == "" || t.text == "" ||
    match t.kind
    case Comment => t.text[0] == '-' ==> r[0] == '\n'
    case String => r[0] != '\''
    case Identifier => r[0] != '"'
    case Number =>
      && !CharClass.Digit.Has(r[0])
      && (IsInteger(t) && r[0] == '.' && |r| > 1 ==> !CharClass.Digit.Has(r[1]))
    case Word => !CharClass.WordChar.Has(r[0])
    case Punct =>
      |t.text| == 1 ==>
        !IsOperatorPair(t.text[0], r[0]) && !(t.text == "-" && r[0] == '-') && !(t.text == "/" && r[0] == '*')
    case Other => !IsOperatorPair(t.text[|t.text| - 1], r[0])
  }

  /** A token that, read on its own, is itself. */
  predicate Solid(t: Token) {
    t.text != "" && Lex(t.text) == Some(Match(t.kind, |t.text|))
  }

  lemma {:induction false} RunIs(s: string, i: nat, c: CharClass, e: nat)
    requires i <= e <= |s|
    requires forall k :: i <= k < e ==> c.Has(s[k])
    requires e < |s| ==> !c.Has(s[e])
    ensures Run(s, i, c) == e
    decreases e - i
  {
    if i < e {
      RunIs(s, i + 1, c, e);
    }
  }

  lemma {:induction false} BlockEndExtends(s: string, i: nat, r: string)
    requires BlockEnd(s, i).Some?
    ensures BlockEnd(s[..BlockEnd(s, i).value] + r, i) == BlockEnd(s, i)
    decreases |s| - i
  {
    var e := BlockEnd(s, i).value;
    var u := s[..e] + r;
    assert u[i] == s[i] && u[i + 1] == s[i + 1];
    if !(s[i] == '*' && s[i + 1] == '/') {
      BlockEndExtends(s, i + 1, r);
    }
  }

  lemma {:induction false} QuoteEndExtends(s: string, i: nat, q: char, r: string)
    requires QuoteEnd(s, i, q).Some?
    requires r != "" ==> r[0] != q
    ensures QuoteEnd(s[..QuoteEnd(s, i, q).value] + r, i, q) == QuoteEnd(s, i, q)
    decreases |s| - i
  {
    var e := QuoteEnd(s, i, q).value;
    var u := s[..e] + r;
    assert u[i] == s[i];
    if s[i] != q {
      QuoteEndExtends(s, i + 1, q, r);
    } else if i + 1 < |s| && s[i + 1] == q && QuoteEnd(s, i + 2, q).Some? {
      assert u[i + 1] == q;
      QuoteEndExtends(s, i + 2, q, r);
    } else {
      assert e == i + 1;
    }
  }

  /** A quoted alternative fails exactly when no later quote closes it. */
  lemma {:induction false} QuoteFails(s: string, i: nat, q: char)
    requires i <= |s|
    ensures QuoteEnd(s, i, q).None? <==> q !in s[i..]
    decreases |s| - i
  {
    if i < |s| {
      assert s[i..] == [s[i]] + s[i + 1..];
      if s[i] != q {
        QuoteFails(s, i + 1, q);
      }
    }
  }

  lemma NumberExtends(s: string, r: string)
    requires s != "" && CharClass.Digit.Has(s[0])
    requires Follow(Token(s[..NumberEnd(s)], Number), r)
    ensures NumberEnd(s[..NumberEnd(s)] + r) == NumberEnd(s)
  {
    var e := NumberEnd(s);
    var u := s[..e] + r;
    var d := Run(s, 1, Digit);
    if e == d {
      RunIs(u, 1, Digit, d);
      if d < |u| && u[d] == '.' {
        assert r != "" && r[0] == u[d];
        assert '.' !in s[..e] by {
          assert forall k :: 0 <= k < e ==> CharClass.Digit.Has(s[k]);
        }
        assert IsInteger(Token(s[..e], Number));
        if d + 1 < |u| {
          assert u[d + 1] == r[1];
        }
      }
    } else {
      assert u[d] == '.' && u[d + 1] == s[d + 1];
      RunIs(u, 1, Digit, d);
      if e < |u| {
        assert u[e] == r[0];
      }
      RunIs(u, d + 2, Digit, e);
    }
  }

  lemma CommentExtends(s: string, r: string)
    requires Lex(s).Some? && Lex(s).value.kind == Comment
    requires Follow(Token(s[..Lex(s).value.len], Comment), r)
    ensures Lex(s[..Lex(s).value.len] + r) == Lex(s)
  {
    var n := Lex(s).value.len;
    var u := s[..n] + r;
    assert u[0] == s[0] && u[1] == s[1];
    if s[0] == '-' {
      if n < |u| { assert u[n] == r[0]; }
      RunIs(u, 2, NotNewline, n);
    } else {
      BlockEndExtends(s, 2, r);
    }
  }

  lemma QuotedExtends(s: string, r: string)
    requires Lex(s).Some? && (Lex(s).value.kind == String || Lex(s).value.kind == Identifier)
    requires Follow(Token(s[..Lex(s).value.len], Lex(s).value.kind), r)
    ensures Lex(s[..Lex(s).value.len] + r) == Lex(s)
  {
    var u := s[..Lex(s).value.len] + r;
    assert u[0] == s[0];
    QuoteEndExtends(s, 1, s[0], r);
  }

  lemma WordExtends(s: string, r: string)
    requires Lex(s).Some? && Lex(s).value.kind == Word
    requires Follow(Token(s[..Lex(s).value.len], Word), r)
    ensures Lex(s[..Lex(s).value.len] + r) == Lex(s)
  {
    var n := Lex(s).value.len;
    var u := s[..n] + r;
    assert u[0] == s[0];
    if n < |u| { assert u[n] == r[0]; }
    RunIs(u, 1, WordChar, n);
  }

  lemma PunctExtends(s: string, r: string)
    requires Lex(s).Some? && Lex(s).value.kind == Punct
    requires Follow(Token(s[..Lex(s).value.len], Punct), r)
    ensures Lex(s[..Lex(s).value.len] + r) == Lex(s)
  {
    var n := Lex(s).value.len;
    var u := s[..n] + r;
    assert u[0] == s[0];
    if n == 2 {
      assert u[1] == s[1];
    } else if r != "" {
      assert s[..1] == [s[0]] && u[1] == r[0];
    }
  }

  /** Where a match ends does not depend on what lies beyond it, as long as `Follow` holds. */
  lemma LexExtends(s: string, r: string)
    requires Lex(s).Some?
    requires Follow(Token(s[..Lex(s).value.len], Lex(s).value.kind), r)
    ensures Lex(s[..Lex(s).value.len] + r) == Lex(s)
  {
    match Lex(s).value.kind
    case Comment => CommentExtends(s, r);
    case String => QuotedExtends(s, r);
    case Identifier => QuotedExtends(s, r);
    case Number =>
      assert (s[..Lex(s).value.len] + r)[0] == s[0];
      NumberExtends(s, r);
    case Word => WordExtends(s, r);
    case Punct => PunctExtends(s, r);
  }

  // ---- stretches the expression skips ------------------------------------------

  /** A character no alternative can start with, unless context completes a pair or a literal. */
  predicate Inert(c: char) {
    !CharClass.Digit.Has(c) && !StartsWord(c) && !IsOperatorChar(c)
  }

  /** No match starts at the head of `s`. */
  predicate Dead(s: string) {
    && s != ""
    && Inert(s[0])
    && (|s| > 1 ==> !IsOperatorPair(s[0], s[1]))
    && (s[0] == '\'' || s[0] == '"' ==> s[0] !in s[1..])
  }

  lemma DeadIsNone(s: string)
    requires s != ""
    ensures Dead(s) <==> Lex(s).None?
  {
    if s[0] == '\'' || s[0] == '"' {
      QuoteFails(s, 1, s[0]);
    }
  }

  /** A skipped stretch, blank ends already cut off. */
  predicate Skipped(u: string) {
    u != "" && JsSpace.Tight(u) && forall k :: 0 <= k < |u| ==> Dead(u[k..])
  }

  /** `t` was skipped and holds a quote that nothing closes. */
  predicate Opens(t: Token, q: char) {
    t.kind == Other && (q == '\'' || q == '"') && q in t.text
  }

  /** What every token stream satisfies, whatever text it came from: each token stands for itself,
      two skipped stretches never meet, and an open quote is the last of its kind. */
  predicate Lexed(toks: seq<Token>) {
    toks != [] ==>
      && (if toks[0].kind == Other then
            && Skipped(toks[0].text)
            && (|toks| > 1 ==> toks[1].kind != Other)
            && forall j, q :: 1 <= j < |toks| && Opens(toks[0], q) ==> q !in toks[j].text
          else Solid(toks[0]))
      && Lexed(toks[1..])
  }

  lemma DeadPrefix(s: string, k: nat, n: nat)
    requires k < n <= |s| && Dead(s[k..])
    ensures Dead(s[..n][k..])
  {
    var a, b := s[k..], s[..n][k..];
    assert b == a[..n - k];
    if |b| > 1 {
      assert b[1..] == a[1..][..n - k - 1];
    }
  }

  lemma LeftoverChars(gap: string, i: nat, c: char)
    requires i < |Leftover(gap)| && c in Leftover(gap)[i].text
    ensures c in gap
  {
    var lead, trail := JsSpace.TrimSplits(gap);
  }

  lemma MatchedChars(gap: string, s: string, m: Match, i: nat, c: char)
    requires m.len <= |s| && i <= |Leftover(gap)|
    requires c in (Leftover(gap) + [Token(s[..m.len], m.kind)])[i].text
    ensures c in gap + s
  {
    if i < |Leftover(gap)| {
      LeftoverChars(gap, i, c);
    } else {
      assert c in s[..m.len];
    }
  }

  lemma {:induction false} TokenChars(gap: string, s: string, i: nat, c: char)
    requires i < |Scan(gap, s)| && c in Scan(gap, s)[i].text
    ensures c in gap + s
    decreases |s|
  {
    hide Lex, Scan, Leftover;
    if s == "" {
      ScanEnds(gap);
      LeftoverChars(gap, i, c);
    } else {
      match Lex(s)
      case None =>
        assert gap + s == gap + s[..1] + s[1..];
        ScanOne(gap, s);
        TokenChars(gap + s[..1], s[1..], i, c);
      case Some(m) =>
        var n := |Leftover(gap)|;
        ScanMatches(gap, s, m);
        if i <= n {
          MatchedChars(gap, s, m, i, c);
        } else {
          TokenChars("", s[m.len..], i - n - 1, c);
          assert c in s[m.len..];
        }
    }
  }

  lemma DeadInGap(lead: string, u: string, rest: string, k: nat)
    requires k < |u|
    requires Dead((lead + u + rest)[|lead| + k..])
    ensures Dead(u[k..])
    ensures u[k] == '\'' || u[k] == '"' ==> u[k] !in rest
  {
    var x := lead + u + rest;
    DeadPrefix(x, |lead| + k, |lead| + |u|);
    assert x[..|lead| + |u|][|lead| + k..] == u[k..];
    assert x[|lead| + k..][1..] == u[k + 1..] + rest;
  }

  lemma SkippedGap(gap: string, s: string)
    requires forall k :: 0 <= k < |gap| ==> Dead((gap + s)[k..])
    ensures forall t :: t in Leftover(gap) ==> t.kind == Other && Skipped(t.text)
    ensures forall t, q :: t in Leftover(gap) && Opens(t, q) ==> q !in s
  {
    var lead, trail := JsSpace.TrimSplits(gap);
    var u := JsSpace.Trim(gap);
    forall k | 0 <= k < |u| ensures Dead(u[k..]) && (u[k] == '\'' || u[k] == '"' ==> u[k] !in s) {
      hide Dead;
      assert gap + s == lead + u + (trail + s);
      DeadInGap(lead, u, trail + s, k);
    }
  }

  lemma {:induction false} ScanLexed(gap: string, s: string)
    requires forall k :: 0 <= k < |gap| ==> Dead((gap + s)[k..])
    ensures Lexed(Scan(gap, s))
    decreases |s|
  {
    SkippedGap(gap, s);
    if s == "" {
    } else {
      match Lex(s)
      case None =>
        DeadIsNone(s);
        assert gap + s[..1] + s[1..] == gap + s;
        assert (gap + s)[|gap|..] == s;
        ScanLexed(gap + s[..1], s[1..]);
      case Some(m) =>
        ScanLexed("", s[m.len..]);
        LexExtends(s, "");
        var t := Token(s[..m.len], m.kind);
        assert s[..m.len] + "" == s[..m.len];
        var later := [t] + Scan("", s[m.len..]);
        assert Lexed(later) by { assert later[1..] == Scan("", s[m.len..]); }
        if Leftover(gap) != [] {
          LexedLeftover(gap, s, m);
        }
    }
  }

  lemma LexedLeftover(gap: string, s: string, m: Match)
    requires s != "" && Lex(s) == Some(m)
    requires Leftover(gap) != []
    requires forall t :: t in Leftover(gap) ==> t.kind == Other && Skipped(t.text)
    requires forall t, q :: t in Leftover(gap) && Opens(t, q) ==> q !in s
    requires Lexed([Token(s[..m.len], m.kind)] + Scan("", s[m.len..]))
    ensures Lexed(Scan(gap, s))
  {
    hide Lex, Solid, Skipped, Scan;
    var first := Leftover(gap)[0];
    var later := [Token(s[..m.len], m.kind)] + Scan("", s[m.len..]);
    assert Scan(gap, s) == [first] + later by {
      ScanMatches(gap, s, m);
    }
    forall j, q | 1 <= j < |[first] + later| && Opens(first, q) ensures q !in ([first] + later)[j].text {
      assert s == s[..m.len] + s[m.len..];
      if j > 1 && q in ([first] + later)[j].text {
        TokenChars("", s[m.len..], j - 2, q);
      }
    }
    assert ([first] + later)[1..] == later;
    assert first in Leftover(gap);
  }

  lemma ScanMatches(gap: string, s: string, m: Match)
    requires s != "" && Lex(s) == Some(m)
    ensures Scan(gap, s) == Leftover(gap) + ([Token(s[..m.len], m.kind)] + Scan("", s[m.len..]))
  {
  }

  lemma ScanEnds(gap: string)
    ensures Scan(gap, "") == Leftover(gap)
  {
  }

  lemma ScanOne(gap: string, s: string)
    requires s != "" && Lex(s).None?
    ensures Scan(gap, s) == Scan(gap + s[..1], s[1..])
  {
  }

  /** The scan of any text satisfies `Lexed`. */
  lemma TokensLexed(s: string)
    ensures Lexed(Tokens(s))
  {
    ScanLexed("", s);
  }
}
