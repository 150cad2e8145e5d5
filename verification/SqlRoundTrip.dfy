/** The laid out text reads back as the stream it was laid out from, exactly when nothing fuses. */
module SqlRoundTrip {
  import opened Text
  import opened SqlTokens
  import opened SqlSpacing
  import opened SqlRespelling
  import opened SqlLayout
  import opened SqlSeparators
  import opened SqlRefinement
  import opened SqlSingleLine

  // ---- the laid out text from token `i` on ----------------------------------------------

  ghost function Rest(toks: seq<Token>, i: nat): string
    requires i <= |toks|
    decreases |toks| - i
  {
    if i == |toks| then "" else Sep(toks, i) + toks[i].text + Rest(toks, i + 1)
  }

  ghost function Seps(toks: seq<Token>): seq<string> {
    seq(|toks|, i requires 0 <= i < |toks| => Sep(toks, i))
  }

  lemma SepIsBlank(toks: seq<Token>, i: nat)
    requires i < |toks|
    ensures JsSpace.All(Sep(toks, i))
  {
    IndentIsBlank(Depth(toks, i));
    IndentIsBlank(Depth(toks, i) + 1);
  }

  lemma SepsAreBlank(toks: seq<Token>)
    ensures AllBlank(Seps(toks))
  {
    forall i | 0 <= i < |toks| ensures JsSpace.All(Seps(toks)[i]) {
      SepIsBlank(toks, i);
    }
  }

  lemma {:induction false} WovenThenRest(toks: seq<Token>, i: nat)
    requires i <= |toks|
    ensures Woven(toks, i) + Rest(toks, i) == Rest(toks, 0)
  {
    hide Sep;
    if i > 0 {
      WovenThenRest(toks, i - 1);
      WovenSnoc(toks, i - 1);
      Regroup(Woven(toks, i - 1), "", Sep(toks, i - 1), toks[i - 1].text, Rest(toks, i));
      assert Woven(toks, i) + Rest(toks, i)
          == Woven(toks, i - 1) + (Sep(toks, i - 1) + toks[i - 1].text + Rest(toks, i));
    }
  }

  lemma {:induction false} WeaveSpan(toks: seq<Token>, a: nat, b: nat)
    requires a <= b <= |toks|
    ensures Weave(Seps(toks)[a..b], toks[a..b]) + Rest(toks, b) == Rest(toks, a)
    decreases b - a
  {
    hide Sep;
    if a < b {
      WeaveSpan(toks, a + 1, b);
      var w := Weave(Seps(toks)[a + 1..b], toks[a + 1..b]);
      assert Seps(toks)[a..b] == [Sep(toks, a)] + Seps(toks)[a + 1..b];
      assert toks[a..b] == [toks[a]] + toks[a + 1..b];
      WeaveCons(Sep(toks, a), Seps(toks)[a + 1..b], toks[a], toks[a + 1..b]);
      assert Sep(toks, a) + toks[a].text + w + Rest(toks, b) == Sep(toks, a) + toks[a].text + (w + Rest(toks, b));
    }
  }

  lemma {:induction false} SeamedSpan(toks: seq<Token>, a: nat, b: nat)
    requires a <= b <= |toks|
    requires forall i :: a <= i < b ==> Settles(toks[i], Rest(toks, i + 1))
    ensures Seamed(Seps(toks)[a..b], toks[a..b], Rest(toks, b))
    decreases b - a
  {
    hide Sep, Settles, Rest;
    if a < b {
      SeamedSpan(toks, a + 1, b);
      WeaveSpan(toks, a + 1, b);
      assert Seps(toks)[a..b][1..] == Seps(toks)[a + 1..b];
      assert toks[a..b][1..] == toks[a + 1..b];
      assert toks[a..b][0] == toks[a];
      assert Settles(toks[a], Rest(toks, a + 1));
    }
  }

  lemma {:induction false} LexedPrefix(toks: seq<Token>, n: nat)
    requires n <= |toks| && Lexed(toks)
    ensures Lexed(toks[..n])
  {
    hide Solid, Skipped;
    if n > 0 {
      LexedPrefix(toks[1..], n - 1);
      assert toks[..n][1..] == toks[1..][..n - 1];
    }
  }

  /** The first `n` tokens are read back when each of them settles. */
  lemma ReadPrefix(toks: seq<Token>, n: nat)
    requires n <= |toks| && Lexed(toks)
    requires forall i :: 0 <= i < n ==> Settles(toks[i], Rest(toks, i + 1))
    ensures Scan("", Rest(toks, 0)) == toks[..n] + Scan("", Rest(toks, n))
  {
    hide Settles, Rest, Scan, Weave, Lexed, Sep;
    SepsAreBlank(toks);
    SeamedSpan(toks, 0, n);
    WeaveSpan(toks, 0, n);
    LexedPrefix(toks, n);
    assert toks[0..n] == toks[..n] && Seps(toks)[0..n] == Seps(toks)[..n];
    Respell(Seps(toks)[..n], toks[..n], Rest(toks, n));
  }

  // ---- single tokens, by their first and last character ------------------------------------

  lemma LexedAt(toks: seq<Token>, i: nat)
    requires i < |toks| && Lexed(toks)
    ensures if toks[i].kind == Other then Skipped(toks[i].text) else Solid(toks[i])
    ensures toks[i].kind == Other && i + 1 < |toks| ==> toks[i + 1].kind != Other
    ensures forall j, q :: i < j < |toks| && Opens(toks[i], q) ==> q !in toks[j].text
  {
    hide Solid, Skipped;
    if i > 0 {
      var later := toks[1..];
      LexedAt(later, i - 1);
      assert later[i - 1] == toks[i];
      if i + 1 < |toks| { assert later[i] == toks[i + 1]; }
      forall j, q | i < j < |toks| && Opens(toks[i], q) ensures q !in toks[j].text {
        assert toks[j] == later[j - 1];
      }
    }
  }

  predicate WellLexed(t: Token) {
    if t.kind == Other then Skipped(t.text) else Solid(t)
  }

  lemma SkippedIsInert(t: Token, k: nat)
    requires t.kind == Other && Skipped(t.text) && k < |t.text|
    ensures Inert(t.text[k])
  {
    assert Dead(t.text[k..]);
  }

  /** Only an opening parenthesis and a dot end in those characters, line comments aside. */
  lemma EndsLikeOpener(t: Token)
    requires WellLexed(t) && t.text != "" && !IsLineComment(t)
    ensures t.text[|t.text| - 1] == '(' || t.text[|t.text| - 1] == '.' ==> IsPunct(t, "(") || IsPunct(t, ".")
  {
    var n := |t.text|;
    match t.kind
    case Comment => BlockEndCloses(t.text, 2);
    case String => QuoteEndCloses(t.text, 1, '\'');
    case Identifier => QuoteEndCloses(t.text, 1, '"');
    case Number => assert CharClass.Digit.Has(t.text[n - 1]);
    case Word => assert CharClass.WordChar.Has(t.text[n - 1]);
    case Punct => if n == 1 { assert t.text == [t.text[0]]; }
    case Other => SkippedIsInert(t, n - 1);
  }

  /** A token spelled like punctuation is punctuation. */
  lemma SpelledPunct(t: Token)
    requires WellLexed(t) && t.text != ""
    ensures t.text in NO_SPACE_BEFORE ==> t.kind == Punct
  {
    if t.kind == Other {
      SkippedIsInert(t, 0);
      assert Dead(t.text[0..]);
    }
  }

  lemma StartsWithDigit(t: Token)
    requires WellLexed(t) && t.text != "" && CharClass.Digit.Has(t.text[0])
    ensures t.kind == Number
  {
    if t.kind == Other {
      SkippedIsInert(t, 0);
    }
  }

  /** Whatever follows a token, something still matches where it starts. */
  lemma SolidLands(t: Token, rest: string)
    requires Solid(t)
    ensures Lex(t.text + rest).Some?
  {
    var u := t.text + rest;
    assert u[0] == t.text[0];
    if |t.text| > 1 { assert u[1] == t.text[1]; }
    if u[0] == '\'' || u[0] == '"' {
      QuoteFails(t.text, 1, u[0]);
      QuoteFails(u, 1, u[0]);
      assert u[1..] == t.text[1..] + rest;
    }
    if Lex(u).None? {
      DeadIsNone(u);
    }
  }

  // ---- every seam that does not fuse is sound ------------------------------------------------

  lemma {:induction false} BlankLands(w: string, x: string)
    requires JsSpace.All(w) && (x == "" || Lex(x).Some?)
    ensures Landed(w + x)
  {
    hide Lex;
    if w == "" {
      assert w + x == x;
    } else {
      assert (w + x)[1..] == w[1..] + x;
      BlankLands(w[1..], x);
    }
  }

  lemma RestSplits(toks: seq<Token>, i: nat)
    requires i < |toks|
    ensures Rest(toks, i) == Sep(toks, i) + (toks[i].text + Rest(toks, i + 1))
  {
    hide Sep;
  }

  lemma RestLands(toks: seq<Token>, i: nat)
    requires i <= |toks| && Lexed(toks)
    requires i < |toks| ==> toks[i].kind != Other
    ensures Landed(Rest(toks, i))
  {
    hide Lex, Sep, Solid, Skipped, Landed, Lexed;
    if i < |toks| {
      LexedAt(toks, i);
      SepIsBlank(toks, i);
      SolidLands(toks[i], Rest(toks, i + 1));
      BlankLands(Sep(toks, i), toks[i].text + Rest(toks, i + 1));
      RestSplits(toks, i);
    } else {
      BlankLands("", "");
      assert "" + "" == "";
    }
  }

  lemma {:induction false} RestHasNot(toks: seq<Token>, i: nat, q: char)
    requires i <= |toks| && !JsSpace.Has(q)
    requires forall j :: i <= j < |toks| ==> q !in toks[j].text
    ensures q !in Rest(toks, i)
    decreases |toks| - i
  {
    hide Sep;
    if i < |toks| {
      SepIsBlank(toks, i);
      RestHasNot(toks, i + 1, q);
    }
  }

  lemma SepOpens(toks: seq<Token>, i: nat)
    requires 0 < i < |toks|
    ensures if Sep(toks, i) != "" then Sep(toks, i)[0] == ' ' || Sep(toks, i)[0] == '\n'
            else Glue(toks[i - 1].text, WantsSpace(toks, i)) == ""
  {
    hide Depth, OpensClause, IsConnective, NextItem, WantsSpace;
  }

  lemma FollowsBlank(t: Token, r: string)
    requires r != "" && (r[0] == ' ' || r[0] == '\n') && !IsLineComment(t)
    ensures Follow(t, r)
  {
  }

  lemma FollowsOpener(t: Token, r: string)
    requires IsPunct(t, "(") || IsPunct(t, ".")
    ensures Follow(t, r)
  {
  }

  lemma FollowsByCall(t: Token, r: string)
    requires Solid(t) && (t.kind == Word || t.kind == Punct)
    requires r != "" && r[0] == '('
    ensures Follow(t, r)
  {
  }

  /** Before a token that takes no space only a dot, or a cast after a colon, can do harm. */
  lemma FollowsMark(t: Token, r: string)
    requires WellLexed(t) && !IsLineComment(t)
    requires r != "" && r[0] in ",);.:"
    requires IsInteger(t) && r[0] == '.' && |r| > 1 ==> !CharClass.Digit.Has(r[1])
    requires t.kind == Other && r[0] == ':' ==> t.text == "" || t.text[|t.text| - 1] != ':'
    ensures Follow(t, r)
  {
  }

  /** What stands right after a dot, when no number does, is no digit. */
  lemma AfterDot(toks: seq<Token>, i: nat)
    requires 0 < i <= |toks| && OneLine(toks)
    requires IsPunct(toks[i - 1], ".")
    requires i < |toks| ==> toks[i].kind != Number
    ensures Rest(toks, i) != "" ==> !CharClass.Digit.Has(Rest(toks, i)[0])
  {
    hide Sep, Solid, Skipped, Lexed;
    if i < |toks| {
      SepIsBlank(toks, i);
      assert Shown(toks[i]);
      if Sep(toks, i) == "" {
        LexedAt(toks, i);
        assert Rest(toks, i)[0] == toks[i].text[0];
        if CharClass.Digit.Has(toks[i].text[0]) {
          StartsWithDigit(toks[i]);
        }
      } else {
        assert JsSpace.Has(Rest(toks, i)[0]);
      }
    }
  }

  lemma FollowsMarkAt(toks: seq<Token>, i: nat)
    requires i + 1 < |toks| && OneLine(toks) && !Fuses(toks, i)
    requires Sep(toks, i + 1) == "" && toks[i + 1].text in NO_SPACE_BEFORE
    ensures Follow(toks[i], Rest(toks, i + 1))
  {
    hide Sep, Solid, Skipped, Lexed, Follow;
    var t, next, r := toks[i], toks[i + 1], Rest(toks, i + 1);
    LexedAt(toks, i);
    LexedAt(toks, i + 1);
    assert Shown(next) && Shown(t);
    SpelledPunct(next);
    assert r[0] == next.text[0];
    if r[0] == '.' {
      assert IsPunct(next, ".");
      assert r == next.text + Rest(toks, i + 2);
      if IsInteger(t) {
        AfterDot(toks, i + 2);
      }
    }
    if r[0] == ':' {
      assert IsPunct(next, "::");
    }
    FollowsMark(t, r);
  }

  lemma FollowsTight(toks: seq<Token>, i: nat)
    requires i + 1 < |toks| && OneLine(toks) && !Fuses(toks, i)
    requires Sep(toks, i + 1) == ""
    ensures Follow(toks[i], Rest(toks, i + 1))
  {
    hide Sep, Solid, Skipped, Lexed, Follow, Fuses;
    var t, next, r := toks[i], toks[i + 1], Rest(toks, i + 1);
    LexedAt(toks, i);
    SepOpens(toks, i + 1);
    assert Shown(next) && Shown(t);
    if t.text[|t.text| - 1] == '(' || t.text[|t.text| - 1] == '.' {
      EndsLikeOpener(t);
      FollowsOpener(t, r);
    } else if IsPunct(next, "(") {
      assert r[0] == '(';
      FollowsByCall(t, r);
    } else {
      assert next.text in NO_SPACE_BEFORE;
      FollowsMarkAt(toks, i);
    }
  }

  lemma SettlesAt(toks: seq<Token>, i: nat)
    requires i < |toks| && OneLine(toks) && !Fuses(toks, i)
    ensures Settles(toks[i], Rest(toks, i + 1))
  {
    hide Sep, Solid, Skipped, Lexed, Follow, Fuses, Landed;
    LexedAt(toks, i);
    if i + 1 == |toks| {
      FollowsNothing(toks[i]);
    } else if Sep(toks, i + 1) == "" {
      FollowsTight(toks, i);
    } else {
      SepOpens(toks, i + 1);
      FollowsBlank(toks[i], Rest(toks, i + 1));
    }
    if toks[i].kind == Other {
      RestLands(toks, i + 1);
      forall q | Opens(toks[i], q) ensures q !in Rest(toks, i + 1) {
        RestHasNot(toks, i + 1, q);
      }
    }
  }

  lemma FollowsNothing(t: Token)
    ensures Follow(t, "")
  {
  }

  // ---- a seam that fuses is read differently -----------------------------------------------

  lemma NoBreakBeforeMark(toks: seq<Token>, i: nat)
    requires 0 < i < |toks|
    requires toks[i].kind == Punct || toks[i].kind == Number
    requires toks[i].text in NO_SPACE_BEFORE || IsPunct(toks[i - 1], ".")
    requires !IsPunct(toks[i - 1], ",")
    requires !IsPunct(toks[i], "(")
    ensures Sep(toks, i) == ""
  {
  }

  lemma NumberSwallows(t: Token, rest: string)
    requires Solid(t) && IsInteger(t)
    requires |rest| > 1 && rest[0] == '.' && CharClass.Digit.Has(rest[1])
    ensures Lex(t.text + rest).Some? && Lex(t.text + rest).value.len > |t.text|
  {
    var u, n := t.text + rest, |t.text|;
    var d := Run(t.text, 1, Digit);
    assert d == n;
    forall k | 1 <= k < n ensures CharClass.Digit.Has(u[k]) {
      assert u[k] == t.text[k];
    }
    assert u[0] == t.text[0] && u[n] == '.' && u[n + 1] == rest[1];
    RunIs(u, 1, Digit, n);
  }

  /** First fusion: the integer grows past its own end. */
  lemma FusedNumberDiffers(toks: seq<Token>, i: nat)
    requires i + 2 < |toks| && OneLine(toks)
    requires IsInteger(toks[i]) && IsPunct(toks[i + 1], ".") && toks[i + 2].kind == Number
    ensures Scan("", Rest(toks, i)) != [] && Scan("", Rest(toks, i))[0] != toks[i]
  {
    hide Sep, Lex, Solid, Skipped, Lexed, Scan;
    var t, r := toks[i], Rest(toks, i + 1);
    LexedAt(toks, i);
    LexedAt(toks, i + 2);
    NoBreakBeforeMark(toks, i + 1);
    NoBreakBeforeMark(toks, i + 2);
    RestSplits(toks, i + 1);
    RestSplits(toks, i + 2);
    NumberStartsWithDigit(toks[i + 2]);
    assert r[0] == '.' && r[1] == toks[i + 2].text[0];
    NumberSwallows(t, r);
    var m := Lex(t.text + r).value;
    RestSplits(toks, i);
    SepIsBlank(toks, i);
    SkipBlanks("", Sep(toks, i), t.text + r);
    assert "" + Sep(toks, i) == Sep(toks, i);
    BlankLeftover(Sep(toks, i));
    ScanMatches(Sep(toks, i), t.text + r, m);
  }

  lemma NumberStartsWithDigit(t: Token)
    requires Solid(t) && t.kind == Number
    ensures CharClass.Digit.Has(t.text[0])
  {
  }

  lemma BlankLeftover(w: string)
    requires JsSpace.All(w)
    ensures Leftover(w) == []
  {
    JsSpace.TrimDrops(w, "", "");
    assert w + "" + "" == w;
  }

  /** The skipped stretch loses its colon to the cast. */
  lemma ColonIsTaken(u: string, rest: string)
    requires u != "" && u[|u| - 1] == ':' && rest != "" && rest[0] == ':'
    ensures Lex((u + rest)[|u| - 1..]) == Some(Match(Punct, 2))
  {
    var s := (u + rest)[|u| - 1..];
    assert s[0] == ':' && s[1] == ':';
  }

  lemma DeadBeforeColon(u: string, rest: string, k: nat)
    requires Skipped(u) && k < |u| - 1
    requires forall q :: (q == '\'' || q == '"') && q in u ==> q !in rest
    ensures Lex((u + rest)[k..]).None?
  {
    hide Lex;
    var s := (u + rest)[k..];
    assert s == u[k..] + rest;
    assert Dead(u[k..]);
    assert s[1..] == u[k..][1..] + rest;
    DeadIsNone(s);
  }

  /** Second fusion: the skipped stretch is cut short. */
  lemma FusedColonDiffers(toks: seq<Token>, i: nat)
    requires i + 1 < |toks| && OneLine(toks)
    requires toks[i].kind == Other && toks[i].text != "" && toks[i].text[|toks[i].text| - 1] == ':'
    requires IsPunct(toks[i + 1], "::")
    ensures Scan("", Rest(toks, i)) != [] && Scan("", Rest(toks, i))[0] != toks[i]
  {
    hide Sep, Lex, Solid, Skipped, Lexed, Scan;
    var u, r, w := toks[i].text, Rest(toks, i + 1), Sep(toks, i);
    LexedAt(toks, i);
    NoBreakBeforeMark(toks, i + 1);
    assert r == "::" + Rest(toks, i + 2);
    forall q | (q == '\'' || q == '"') && q in u ensures q !in r {
      assert Opens(toks[i], q);
      RestHasNot(toks, i + 1, q);
    }
    RestSplits(toks, i);
    SepIsBlank(toks, i);
    SkipBlanks("", w, u + r);
    assert "" + w == w;
    var n := |u| - 1;
    forall k | 0 <= k < n ensures Lex((u + r)[k..]).None? {
      DeadBeforeColon(u, r, k);
    }
    ColonIsTaken(u, r);
    ScanSkips(w, u + r, n);
    assert (u + r)[..n] == u[..n];
    ScanMatches(w + u[..n], (u + r)[n..], Match(Punct, 2));
    ShorterLeftover(w, u[..n]);
  }

  lemma ShorterLeftover(w: string, v: string)
    requires JsSpace.All(w)
    ensures forall t :: t in Leftover(w + v) ==> |t.text| <= |v|
  {
    JsSpace.TrimDrops(w, v, "");
    assert w + v + "" == w + v;
    var a, b := JsSpace.TrimSplits(v);
  }

  lemma FusedDiffers(toks: seq<Token>, i: nat)
    requires i < |toks| && OneLine(toks) && Fuses(toks, i)
    ensures Scan("", Rest(toks, i)) != [] && Scan("", Rest(toks, i))[0] != toks[i]
  {
    hide Scan, OneLine, Rest;
    if toks[i].kind == Other {
      FusedColonDiffers(toks, i);
    } else {
      FusedNumberDiffers(toks, i);
    }
  }

  // ---- the theorem ------------------------------------------------------------------------------

  ghost predicate NothingFuses(toks: seq<Token>) {
    forall i :: 0 <= i < |toks| ==> !Fuses(toks, i)
  }

  /** The laid out text tokenizes to the stream it was laid out from if and only if no two
      neighbours fuse. */
  lemma LayoutRoundTrips(toks: seq<Token>)
    requires OneLine(toks) && toks != []
    ensures Tokens(LaidOut(toks)) == toks <==> NothingFuses(toks)
  {
    hide Scan, OneLine, Rest, Fuses, LaidOut, Settles, Woven;
    assert AllShown(toks) && Lexed(toks) by { OneLineParts(toks); }
    LaidOutIsWoven(toks);
    WovenThenRest(toks, |toks|);
    RestEnds(toks);
    assert LaidOut(toks) == Rest(toks, 0);
    if NothingFuses(toks) {
      forall i | 0 <= i < |toks| ensures Settles(toks[i], Rest(toks, i + 1)) {
        SettlesAt(toks, i);
      }
      ReadPrefix(toks, |toks|);
      BlankLeftover("");
      ScanNothing();
      assert toks[..|toks|] == toks;
    } else {
      var i := FirstFusion(toks);
      forall k | 0 <= k < i ensures Settles(toks[k], Rest(toks, k + 1)) {
        SettlesAt(toks, k);
      }
      ReadPrefix(toks, i);
      FusedDiffers(toks, i);
      assert (toks[..i] + Scan("", Rest(toks, i)))[i] != toks[i];
    }
  }

  lemma OneLineParts(toks: seq<Token>)
    requires OneLine(toks)
    ensures AllShown(toks) && Lexed(toks)
  {
  }

  lemma RestEnds(toks: seq<Token>)
    ensures Rest(toks, |toks|) == ""
  {
  }

  lemma ScanNothing()
    ensures Scan("", "") == []
  {
  }

  lemma FirstFusion(toks: seq<Token>) returns (i: nat)
    requires !NothingFuses(toks)
    ensures i < |toks| && Fuses(toks, i) && forall k :: 0 <= k < i ==> !Fuses(toks, k)
  {
    hide Fuses;
    i := 0;
    while !Fuses(toks, i)
      invariant i < |toks| && forall k :: 0 <= k < i ==> !Fuses(toks, k)
      decreases |toks| - i
    {
      i := i + 1;
    }
  }
}
