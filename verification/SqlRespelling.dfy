/** The tokenizer loses nothing, and a respaced token stream reads back as itself. */
module SqlRespelling {
  import opened Text
  import opened SqlTokens
  import opened SqlSpacing

  // ---- lossless ------------------------------------------------------------------

  /** Every character of the input is in a token, or is blank space between two tokens. */
  lemma {:induction false} ScanIsLossless(gap: string, s: string) returns (seps: seq<string>, trail: string)
    ensures |seps| == |Scan(gap, s)| && AllBlank(seps) && JsSpace.All(trail)
    ensures gap + s == Weave(seps, Scan(gap, s)) + trail
    decreases |s|
  {
    hide Lex, Scan, Weave;
    var lead, rest := JsSpace.TrimSplits(gap);
    if s == "" {
      seps, trail := GapIsLossless(gap, lead, rest);
    } else {
      match Lex(s)
      case None =>
        seps, trail := ScanIsLossless(gap + s[..1], s[1..]);
        assert gap + s[..1] + s[1..] == gap + s;
        ScanOne(gap, s);
      case Some(m) =>
        var later;
        later, trail := ScanIsLossless("", s[m.len..]);
        seps := SpliceGap(gap, s, m, later, trail, lead, rest);
    }
  }

  lemma GapIsLossless(gap: string, lead: string, rest: string) returns (seps: seq<string>, trail: string)
    requires JsSpace.All(lead) && JsSpace.All(rest) && gap == lead + JsSpace.Trim(gap) + rest
    ensures |seps| == |Scan(gap, "")| && AllBlank(seps) && JsSpace.All(trail)
    ensures gap + "" == Weave(seps, Scan(gap, "")) + trail
  {
    ScanEnds(gap);
    hide Scan, Lex;
    if Leftover(gap) == [] {
      seps, trail := [], lead + rest;
    } else {
      seps, trail := [lead], rest;
      WeaveCons(lead, [], Leftover(gap)[0], []);
    }
  }

  lemma WeaveOnto(sep: string, t: Token, rest: string, seps: seq<string>, toks: seq<Token>, trail: string)
    requires |seps| == |toks|
    requires rest == Weave(seps, toks) + trail
    ensures sep + (t.text + rest) == Weave([sep] + seps, [t] + toks) + trail
  {
    WeaveCons(sep, seps, t, toks);
  }

  lemma SpliceGap(gap: string, s: string, m: Match, later: seq<string>, trail: string, lead: string, rest: string)
    returns (seps: seq<string>)
    requires s != "" && Lex(s) == Some(m)
    requires JsSpace.All(lead) && JsSpace.All(rest) && gap == lead + JsSpace.Trim(gap) + rest
    requires |later| == |Scan("", s[m.len..])| && AllBlank(later)
    requires "" + s[m.len..] == Weave(later, Scan("", s[m.len..])) + trail
    ensures |seps| == |Scan(gap, s)| && AllBlank(seps)
    ensures gap + s == Weave(seps, Scan(gap, s)) + trail
  {
    hide Lex, Scan, Weave;
    ScanMatches(gap, s, m);
    var t, y, ahead := Token(s[..m.len], m.kind), s[m.len..], Scan("", s[m.len..]);
    assert s == t.text + y && "" + y == y;
    if Leftover(gap) == [] {
      seps := [lead + rest] + later;
      WeaveOnto(lead + rest, t, y, later, ahead, trail);
      assert Scan(gap, s) == [t] + ahead;
    } else {
      var u := Leftover(gap)[0];
      WeaveOnto(rest, t, y, later, ahead, trail);
      WeaveOnto(lead, u, rest + s, [rest] + later, [t] + ahead, trail);
      assert gap + s == lead + (u.text + (rest + s));
      seps := [lead] + ([rest] + later);
      assert Scan(gap, s) == [u] + ([t] + ahead);
    }
  }

  // ---- reading a respaced stream back ---------------------------------------------

  /** Only blank space separates the head of `s` from a match, or from the end. */
  predicate Landed(s: string) {
    s == "" || Lex(s).Some? || (JsSpace.Has(s[0]) && Landed(s[1..]))
  }

  /** `t` still reads as `t` when `rest` stands right after it. */
  predicate Settles(t: Token, rest: string) {
    && Follow(t, rest)
    && (t.kind == Other ==> Landed(rest) && forall q :: Opens(t, q) ==> q !in rest)
  }

  lemma BlanksAreDead(w: string, x: string, k: nat)
    requires JsSpace.All(w) && k < |w|
    ensures Lex((w + x)[k..]).None?
  {
    var s := (w + x)[k..];
    assert s[0] == w[k] && JsSpace.Has(w[k]);
  }

  lemma SkipBlanks(gap: string, w: string, x: string)
    requires JsSpace.All(w)
    ensures Scan(gap, w + x) == Scan(gap + w, x)
  {
    forall k | 0 <= k < |w| ensures Lex((w + x)[k..]).None? {
      BlanksAreDead(w, x, k);
    }
    ScanSkips(gap, w + x, |w|);
    assert (w + x)[..|w|] == w && (w + x)[|w|..] == x;
  }

  /** Blank space after a skipped stretch belongs to the gap and is trimmed off. */
  lemma BlanksAreDropped(gap: string, w: string)
    requires JsSpace.All(w)
    ensures Leftover(gap + w) == Leftover(gap) && Leftover(w) == []
  {
    JsSpace.TrimDrops("", gap, w);
    assert "" + gap + w == gap + w;
    JsSpace.TrimDrops(w, "", "");
    assert w + "" + "" == w;
  }

  lemma {:induction false} GapEnds(gap: string, w: string, rest: string)
    requires JsSpace.All(w) && Landed(rest)
    ensures Scan(gap + w, rest) == Leftover(gap) + Scan(w, rest)
    decreases |rest|
  {
    hide Lex, Scan;
    assert Leftover(gap + w) == Leftover(gap) && Leftover(w) == [] by { BlanksAreDropped(gap, w); }
    if rest == "" {
      ScanEnds(gap + w);
      ScanEnds(w);
    } else if Lex(rest).Some? {
      ScanMatches(gap + w, rest, Lex(rest).value);
      ScanMatches(w, rest, Lex(rest).value);
    } else {
      GapEnds(gap, w + rest[..1], rest[1..]);
      assert gap + (w + rest[..1]) == gap + w + rest[..1];
      ScanOne(gap + w, rest);
      ScanOne(w, rest);
    }
  }

  lemma DeadAhead(t: Token, rest: string, k: nat)
    requires t.kind == Other && Skipped(t.text) && Settles(t, rest)
    requires k < |t.text|
    ensures Lex((t.text + rest)[k..]).None?
  {
    var u := t.text;
    var s := (u + rest)[k..];
    assert s == u[k..] + rest;
    assert Dead(u[k..]);
    assert s[1..] == u[k..][1..] + rest;
    if |s| > 1 && k == |u| - 1 {
      assert s[1] == rest[0];
    }
    if s[0] == '\'' || s[0] == '"' {
      assert Opens(t, s[0]);
    }
    DeadIsNone(s);
  }

  /** One respaced token is read as that token, and the rest is read afresh. */
  lemma ReadOne(sep: string, t: Token, rest: string)
    requires JsSpace.All(sep)
    requires if t.kind == Other then Skipped(t.text) else Solid(t)
    requires Settles(t, rest)
    ensures Scan("", sep + t.text + rest) == [t] + Scan("", rest)
  {
    var x := t.text + rest;
    assert sep + t.text + rest == sep + x;
    SkipBlanks("", sep, x);
    assert "" + sep == sep;
    JsSpace.TrimDrops(sep, "", "");
    assert sep + "" + "" == sep;
    if t.kind == Other {
      forall k | 0 <= k < |t.text| ensures Lex(x[k..]).None? {
        DeadAhead(t, rest, k);
      }
      ScanSkips(sep, x, |t.text|);
      assert x[..|t.text|] == t.text && x[|t.text|..] == rest;
      GapEnds(sep + t.text, "", rest);
      assert sep + t.text + "" == sep + t.text;
      JsSpace.TrimDrops(sep, t.text, "");
      JsSpace.TrimTight(t.text);
    } else {
      assert t.text[..|t.text|] == t.text;
      LexExtends(t.text, rest);
      ScanMatches(sep, x, Match(t.kind, |t.text|));
      assert x[..|t.text|] == t.text && x[|t.text|..] == rest;
    }
  }

  /** Every token settles against what is written after it. */
  predicate Seamed(seps: seq<string>, toks: seq<Token>, tail: string)
    requires |seps| == |toks|
  {
    toks != [] ==>
      && Settles(toks[0], Weave(seps[1..], toks[1..]) + tail)
      && Seamed(seps[1..], toks[1..], tail)
  }

  /** Respacing: a stream written with blank separators and sound seams is read back unchanged. */
  lemma {:induction false} Respell(seps: seq<string>, toks: seq<Token>, tail: string)
    requires |seps| == |toks| && AllBlank(seps)
    requires Lexed(toks) && Seamed(seps, toks, tail)
    ensures Scan("", Weave(seps, toks) + tail) == toks + Scan("", tail)
  {
    hide Lex, Scan, Settles, Solid, Skipped;
    if toks == [] {
      assert Weave(seps, toks) + tail == tail;
      assert toks + Scan("", tail) == Scan("", tail);
    } else {
      ReadHead(seps, toks, tail);
      Respell(seps[1..], toks[1..], tail);
      assert toks + Scan("", tail) == [toks[0]] + (toks[1..] + Scan("", tail));
    }
  }

  lemma ReadHead(seps: seq<string>, toks: seq<Token>, tail: string)
    requires |seps| == |toks| && AllBlank(seps) && toks != []
    requires Lexed(toks) && Seamed(seps, toks, tail)
    ensures Scan("", Weave(seps, toks) + tail) == [toks[0]] + Scan("", Weave(seps[1..], toks[1..]) + tail)
  {
    hide Lex, Scan, Settles, Solid, Skipped;
    var rest := Weave(seps[1..], toks[1..]) + tail;
    assert Weave(seps, toks) + tail == seps[0] + toks[0].text + rest;
    ReadOne(seps[0], toks[0], rest);
  }
}
