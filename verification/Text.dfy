/** Strings as the source trims and joins them. */
module Text {

  datatype Option<+T> = None | Some(value: T)

  /** The character sets the source strips: `String.prototype.trim` (ECMAScript WhiteSpace and
      LineTerminator, which is also the class `\s`), Python's `str.strip()`, and the explicit
      set given to `rstrip(" ,;")`. */
  datatype Blanks = JsSpace | PySpace | ListTail
  {
    predicate Has(c: char) {
      match this
      case JsSpace =>
        || '\t' <= c <= '\r' || c == ' ' || c == '\U{00A0}' || c == '\U{1680}'
        || '\U{2000}' <= c <= '\U{200A}' || c == '\U{2028}' || c == '\U{2029}'
        || c == '\U{202F}' || c == '\U{205F}' || c == '\U{3000}' || c == '\U{FEFF}'
      case PySpace =>
        || '\t' <= c <= '\r' || '\U{001C}' <= c <= ' ' || c == '\U{0085}' || c == '\U{00A0}'
        || c == '\U{1680}' || '\U{2000}' <= c <= '\U{200A}' || c == '\U{2028}' || c == '\U{2029}'
        || c == '\U{202F}' || c == '\U{205F}' || c == '\U{3000}'
      case ListTail => c == ' ' || c == ',' || c == ';'
    }

    /** Every character of `s` is in the set. */
    predicate All(s: string) {
      forall i :: 0 <= i < |s| ==> Has(s[i])
    }

    function TrimStart(s: string): string {
      if s != "" && Has(s[0]) then TrimStart(s[1..]) else s
    }

    function TrimEnd(s: string): string {
      if s != "" && Has(s[|s| - 1]) then TrimEnd(s[..|s| - 1]) else s
    }

    function Trim(s: string): string {
      TrimEnd(TrimStart(s))
    }

    /** Nothing left to strip at either end. */
    predicate Tight(s: string) {
      s != "" ==> !Has(s[0]) && !Has(s[|s| - 1])
    }

    lemma {:induction false} TrimStartSplits(s: string) returns (lead: string)
      ensures All(lead) && s == lead + TrimStart(s)
      ensures TrimStart(s) != "" ==> !Has(TrimStart(s)[0])
    {
      if s != "" && Has(s[0]) {
        var rest := TrimStartSplits(s[1..]);
        lead := s[..1] + rest;
      } else {
        lead := "";
      }
    }

    lemma {:induction false} TrimEndSplits(s: string) returns (trail: string)
      ensures All(trail) && s == TrimEnd(s) + trail
      ensures TrimEnd(s) != "" ==> !Has(TrimEnd(s)[|TrimEnd(s)| - 1])
    {
      if s != "" && Has(s[|s| - 1]) {
        var rest := TrimEndSplits(s[..|s| - 1]);
        trail := rest + s[|s| - 1..];
      } else {
        trail := "";
      }
    }

    /** What trimming does: it cuts a blank lead and a blank trail and nothing else. */
    lemma TrimSplits(s: string) returns (lead: string, trail: string)
      ensures All(lead) && All(trail)
      ensures s == lead + Trim(s) + trail
      ensures Tight(Trim(s))
    {
      lead := TrimStartSplits(s);
      trail := TrimEndSplits(TrimStart(s));
      assert TrimStart(s) == Trim(s) + trail;
      if Trim(s) != "" {
        assert Trim(s)[0] == TrimStart(s)[0];
      }
    }

    lemma {:induction false} TrimStartDrops(lead: string, s: string)
      requires All(lead)
      ensures TrimStart(lead + s) == TrimStart(s)
    {
      if lead == "" {
        assert lead + s == s;
      } else {
        assert (lead + s)[1..] == lead[1..] + s;
        TrimStartDrops(lead[1..], s);
      }
    }

    lemma {:induction false} TrimEndDrops(s: string, trail: string)
      requires All(trail)
      ensures TrimEnd(s + trail) == TrimEnd(s)
    {
      if trail == "" {
        assert s + trail == s;
      } else {
        assert (s + trail)[..|s + trail| - 1] == s + trail[..|trail| - 1];
        TrimEndDrops(s, trail[..|trail| - 1]);
      }
    }

    /** Blank padding never changes what trimming leaves. */
    lemma TrimDrops(lead: string, s: string, trail: string)
      requires All(lead) && All(trail)
      ensures Trim(lead + s + trail) == Trim(s)
    {
      hide All, TrimStart, TrimEnd;
      assert lead + s + trail == lead + (s + trail);
      TrimStartDrops(lead, s + trail);
      TrailDrops(s, trail);
    }

    lemma TrailDrops(s: string, trail: string)
      requires All(trail)
      ensures Trim(s + trail) == Trim(s)
    {
      hide All;
      var a := TrimStartSplits(s);
      var x := TrimStart(s);
      assert s + trail == a + (x + trail);
      TrimStartDrops(a, x + trail);
      if x == "" {
        assert x + trail == trail + "";
        TrimStartDrops(trail, "");
      } else {
        assert TrimStart(x + trail) == x + trail;
        TrimEndDrops(x, trail);
      }
    }

    lemma TrimTight(s: string)
      requires Tight(s)
      ensures Trim(s) == s
    {
    }
  }

  predicate StartsWith(s: string, prefix: string) {
    |s| >= |prefix| && s[..|prefix|] == prefix
  }

  function Join(parts: seq<string>, sep: string): string {
    if parts == [] then ""
    else if |parts| == 1 then parts[0]
    else parts[0] + sep + Join(parts[1..], sep)
  }

  lemma {:induction false} JoinSnoc(parts: seq<string>, last: string, sep: string)
    requires parts != []
    ensures Join(parts + [last], sep) == Join(parts, sep) + sep + last
  {
    assert (parts + [last])[1..] == parts[1..] + [last];
    if |parts| > 1 {
      JoinSnoc(parts[1..], last, sep);
    }
  }

  /** UTF-16 code units, which is what `length` counts. */
  function CodeUnits(s: string): nat {
    if s == "" then 0 else (if s[0] > '\U{FFFF}' then 2 else 1) + CodeUnits(s[1..])
  }

  lemma {:induction false} CodeUnitsCoverLength(s: string)
    ensures CodeUnits(s) >= |s|
  {
    if s != "" {
      CodeUnitsCoverLength(s[1..]);
    }
  }

  // ---- decimal numerals -----------------------------------------------------------

  function DigitChar(d: int): (c: char)
    requires 0 <= d < 10
    ensures '0' <= c <= '9'
  {
    '0' + d as char
  }

  function Natural(n: nat): (s: string)
    ensures s != ""
    ensures forall i :: 0 <= i < |s| ==> '0' <= s[i] <= '9'
  {
    if n < 10 then [DigitChar(n)] else Natural(n / 10) + [DigitChar(n % 10)]
  }

  /** An integer as a template literal prints it. */
  function Decimal(n: int): string {
    if n < 0 then "-" + Natural(-n) else Natural(n)
  }

  lemma {:induction false} NaturalIsInjective(m: nat, n: nat)
    requires Natural(m) == Natural(n)
    ensures m == n
    decreases m
  {
    var s, t := Natural(m), Natural(n);
    if m >= 10 && n >= 10 {
      assert s[..|s| - 1] == Natural(m / 10) && t[..|t| - 1] == Natural(n / 10);
      assert s[|s| - 1] == DigitChar(m % 10) && t[|t| - 1] == DigitChar(n % 10);
      NaturalIsInjective(m / 10, n / 10);
    } else {
      assert m < 10 ==> |s| == 1;
      assert n < 10 ==> |t| == 1;
      assert m >= 10 ==> |s| >= 2;
      assert n >= 10 ==> |t| >= 2;
      assert s[0] == t[0];
    }
  }

  lemma DecimalIsInjective(m: int, n: int)
    requires Decimal(m) == Decimal(n)
    ensures m == n
  {
    var s, t := Decimal(m), Decimal(n);
    assert s[0] == t[0];
    if m < 0 {
      assert s[1..] == Natural(-m) && t[1..] == Natural(-n);
      NaturalIsInjective(-m, -n);
    } else {
      NaturalIsInjective(m, n);
    }
  }

  // ---- cutting at a separator -----------------------------------------------------

  function IndexOf(s: string, c: char): nat {
    if s == "" || s[0] == c then 0 else 1 + IndexOf(s[1..], c)
  }

  function LastIndexOf(s: string, c: char): int {
    if s == "" || s[|s| - 1] == c then |s| - 1 else LastIndexOf(s[..|s| - 1], c)
  }

  lemma {:induction false} IndexOfIs(a: string, b: string, c: char)
    requires c !in a
    ensures IndexOf(a + [c] + b, c) == |a|
  {
    if a != "" {
      assert (a + [c] + b)[1..] == a[1..] + [c] + b;
      IndexOfIs(a[1..], b, c);
    }
  }

  lemma {:induction false} LastIndexOfIs(a: string, b: string, c: char)
    requires c !in b
    ensures LastIndexOf(a + [c] + b, c) == |a|
  {
    var s := a + [c] + b;
    if b == "" {
      assert s[|s| - 1] == c;
    } else {
      assert s[|s| - 1] == b[|b| - 1];
      assert s[..|s| - 1] == a + [c] + b[..|b| - 1];
      LastIndexOfIs(a, b[..|b| - 1], c);
    }
  }

  lemma CutAt(a: string, b: string, x: string, y: string, c: char)
    requires a + [c] + b == x + [c] + y && |a| == |x|
    ensures a == x && b == y
  {
    var s, t := a + [c] + b, x + [c] + y;
    assert a == s[..|a|] && x == t[..|a|];
    assert b == s[|a| + 1..] && y == t[|a| + 1..];
  }

  lemma SplitFirst(a: string, b: string, x: string, y: string, c: char)
    requires a + [c] + b == x + [c] + y && c !in a && c !in x
    ensures a == x && b == y
  {
    IndexOfIs(a, b, c);
    IndexOfIs(x, y, c);
    CutAt(a, b, x, y, c);
  }

  lemma SplitLast(a: string, b: string, x: string, y: string, c: char)
    requires a + [c] + b == x + [c] + y && c !in b && c !in y
    ensures a == x && b == y
  {
    LastIndexOfIs(a, b, c);
    LastIndexOfIs(x, y, c);
    CutAt(a, b, x, y, c);
  }
}
