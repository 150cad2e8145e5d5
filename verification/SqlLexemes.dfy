/** The token pattern of `ui/lib/sql-format.ts` as a grammar of whole lexemes, and the scanner's matches
    as the ones that grammar selects. */
module SqlLexemes {
  import opened Text
  import opened SqlTokens

  const Digits := "0123456789"
  const Upper := "ABCDEFGHIJKLMNOPQRSTUVWXYZ"
  const Lower := "abcdefghijklmnopqrstuvwxyz"
  const Letters := Upper + Lower + "_"
  const Operators :=
    ["<=", ">=", "<>", "!=", "||", "::", "(", ")", ",", ".", ";", "*", "=", "<", ">", "!", "+", "/", "-"]

  // ---- the grammar --------------------------------------------------------------

  predicate AllIn(t: string, chars: string) {
    forall k :: 0 <= k < |t| ==> t[k] in chars
  }

  predicate IsLine(t: string) {
    |t| >= 2 && t[..2] == "--" && '\n' !in t
  }

  predicate IsBlock(t: string) {
    |t| >= 4 && t[..2] == "/*" && t[|t| - 2..] == "*/"
  }

  /** Characters other than the quote, and quotes in pairs. */
  predicate Doubled(t: string, q: char) {
    || t == ""
    || (t[0] != q && Doubled(t[1..], q))
    || (|t| >= 2 && t[..2] == [q, q] && Doubled(t[2..], q))
  }

  predicate IsQuoted(t: string, q: char) {
    |t| >= 2 && t[0] == q && t[|t| - 1] == q && Doubled(t[1..|t| - 1], q)
  }

  predicate IsNumber(t: string) {
    || (t != "" && AllIn(t, Digits))
    || exists p | 0 < p < |t| - 1 :: t[p] == '.' && AllIn(t[..p], Digits) && AllIn(t[p + 1..], Digits)
  }

  predicate IsName(t: string) {
    t != "" && t[0] in Letters && AllIn(t, Letters + Digits)
  }

  predicate Fits(t: string, kind: Kind) {
    match kind
    case Comment => IsLine(t) || IsBlock(t)
    case String => IsQuoted(t, '\'')
    case Identifier => IsQuoted(t, '"')
    case Number => IsNumber(t)
    case Word => IsName(t)
    case Punct => t in Operators
    case Other => false
  }

  // ---- characters and operators -------------------------------------------------

  lemma ClassesAre(c: char)
    ensures CharClass.Digit.Has(c) <==> c in Digits
    ensures CharClass.WordChar.Has(c) <==> c in Letters + Digits
    ensures StartsWord(c) <==> c in Letters
  {
    assert forall k | 0 <= k < |Digits| :: Digits[k] as int == '0' as int + k;
    assert forall k | 0 <= k < |Upper| :: Upper[k] as int == 'A' as int + k;
    assert forall k | 0 <= k < |Lower| :: Lower[k] as int == 'a' as int + k;
    if '0' <= c <= '9' { assert Digits[c as int - '0' as int] == c; }
    if 'A' <= c <= 'Z' { assert Upper[c as int - 'A' as int] == c; }
    if 'a' <= c <= 'z' { assert Lower[c as int - 'a' as int] == c; }
  }

  lemma OperatorsAre(t: string)
    ensures t in Operators <==> (|t| == 1 && IsOperatorChar(t[0])) || (|t| == 2 && IsOperatorPair(t[0], t[1]))
  {
    if |t| == 1 { assert t == [t[0]]; }
    if |t| == 2 { assert t == [t[0], t[1]]; }
  }

  // ---- quotes and block comments --------------------------------------------------

  predicate ClosesAt(s: string, i: nat, e: nat, q: char) {
    i < e <= |s| && s[e - 1] == q && Doubled(s[i..e - 1], q)
  }

  lemma ClosesLater(s: string, i: nat, e: nat, q: char)
    requires i + 1 < e <= |s| && s[i] != q
    ensures ClosesAt(s, i, e, q) <==> ClosesAt(s, i + 1, e, q)
  {
    assert s[i..e - 1][1..] == s[i + 1..e - 1];
  }

  lemma ClosesPast(s: string, i: nat, e: nat, q: char)
    requires i + 1 < e <= |s| && s[i] == q
    ensures ClosesAt(s, i, e, q) <==> s[i + 1] == q && ClosesAt(s, i + 2, e, q)
  {
    var t := s[i..e - 1];
    if |t| >= 2 {
      assert t[2..] == s[i + 2..e - 1] && t[..2] == [q, s[i + 1]];
    }
  }

  /** A quoted token closes at the last quote up to which the quotes inside are paired. */
  lemma {:induction false} QuoteEndIsLast(s: string, i: nat, q: char)
    requires i <= |s|
    ensures QuoteEnd(s, i, q).Some? ==> ClosesAt(s, i, QuoteEnd(s, i, q).value, q)
    ensures forall e: nat | ClosesAt(s, i, e, q) :: QuoteEnd(s, i, q).Some? && e <= QuoteEnd(s, i, q).value
    decreases |s| - i
  {
    hide Doubled;
    if i == |s| {
    } else if s[i] != q {
      QuoteEndIsLast(s, i + 1, q);
      forall e: nat | i + 1 < e <= |s| ensures ClosesAt(s, i, e, q) <==> ClosesAt(s, i + 1, e, q) {
        ClosesLater(s, i, e, q);
      }
    } else {
      NothingInside(s, i, q);
      forall e: nat | i + 1 < e <= |s|
        ensures ClosesAt(s, i, e, q) <==> s[i + 1] == q && ClosesAt(s, i + 2, e, q)
      {
        ClosesPast(s, i, e, q);
      }
      if i + 1 < |s| && s[i + 1] == q {
        QuoteEndIsLast(s, i + 2, q);
      }
    }
  }

  lemma NothingInside(s: string, i: nat, q: char)
    requires i < |s| && s[i] == q
    ensures ClosesAt(s, i, i + 1, q)
  {
  }

  predicate ClosesBlock(s: string, i: nat, e: nat) {
    i + 2 <= e <= |s| && s[e - 2..e] == "*/"
  }

  /** A block comment ends just past the first closing pair. */
  lemma {:induction false} BlockEndIsFirst(s: string, i: nat)
    ensures BlockEnd(s, i).Some? ==> ClosesBlock(s, i, BlockEnd(s, i).value)
    ensures forall e: nat | ClosesBlock(s, i, e) :: BlockEnd(s, i).Some? && BlockEnd(s, i).value <= e
    decreases |s| - i
  {
    if i + 1 < |s| {
      assert s[i..i + 2] == [s[i], s[i + 1]];
      BlockEndIsFirst(s, i + 1);
      forall e: nat | ClosesBlock(s, i, e) && e > i + 2 ensures ClosesBlock(s, i + 1, e) {
      }
    }
  }

  // ---- the match ------------------------------------------------------------------

  /** What a lexeme of each kind starts with. The kinds are told apart by it, except that a comment
      starts like an operator. */
  predicate Heads(s: string, kind: Kind) {
    s != "" &&
    match kind
    case Comment => |s| >= 2 && (s[..2] == "--" || s[..2] == "/*")
    case String => s[0] == '\''
    case Identifier => s[0] == '"'
    case Number => s[0] in Digits
    case Word => s[0] in Letters
    case Punct => IsOperatorChar(s[0]) || s[0] in "|:"
    case Other => false
  }

  lemma FitHeads(s: string, n: nat, kind: Kind)
    requires n <= |s| && Fits(s[..n], kind)
    ensures n > 0 && Heads(s, kind)
  {
    var t := s[..n];
    if kind == Punct { OperatorsAre(t); }
    if kind == Comment { assert t[..2] == s[..2]; }
    if kind == Number && !AllIn(t, Digits) {
      var p :| 0 < p < |t| - 1 && t[p] == '.' && AllIn(t[..p], Digits) && AllIn(t[p + 1..], Digits);
      assert t[..p][0] == s[0];
    }
  }

  predicate FitsAt(s: string, n: nat, kind: Kind) {
    n <= |s| && Fits(s[..n], kind)
  }

  lemma BlocksFit(s: string, n: nat)
    requires n <= |s|
    ensures IsBlock(s[..n]) <==> n >= 2 && s[..2] == "/*" && ClosesBlock(s, 2, n)
  {
    if n >= 4 {
      assert s[..n][n - 2..] == s[n - 2..n] && s[..n][..2] == s[..2];
    }
  }

  lemma QuotesFit(s: string, n: nat, q: char)
    requires n <= |s|
    ensures IsQuoted(s[..n], q) <==> s != "" && s[0] == q && ClosesAt(s, 1, n, q)
  {
    if n >= 2 {
      assert s[..n][1..n - 1] == s[1..n - 1];
    }
  }

  lemma RunFits(s: string, i: nat, n: nat, c: CharClass)
    requires i <= n <= |s|
    ensures (forall k :: i <= k < n ==> c.Has(s[k])) <==> n <= Run(s, i, c)
  {
  }

  lemma DigitsFit(s: string, i: nat, n: nat)
    requires i <= n <= |s|
    ensures AllIn(s[i..n], Digits) <==> n <= Run(s, i, Digit)
  {
    hide Digits;
    forall c: char ensures CharClass.Digit.Has(c) <==> c in Digits { ClassesAre(c); }
    if AllIn(s[i..n], Digits) {
      forall k | i <= k < n ensures CharClass.Digit.Has(s[k]) { assert s[i..n][k - i] == s[k]; }
    }
  }

  lemma NumbersFit(s: string)
    requires s != "" && s[0] in Digits
    ensures IsNumber(s[..NumberEnd(s)])
    ensures forall n: nat | n <= |s| && IsNumber(s[..n]) :: n <= NumberEnd(s)
  {
    hide Digits;
    ClassesAre(s[0]);
    var d, end := Run(s, 1, Digit), NumberEnd(s);
    DigitsFit(s, 0, d);
    if end > d {
      var t := s[..end];
      ClassesAre(s[d + 1]);
      DigitsFit(s, d + 1, end);
      assert t[..d] == s[0..d] && t[d + 1..] == s[d + 1..end];
    } else {
      assert s[..end] == s[0..d];
    }
    forall n: nat | n <= |s| && IsNumber(s[..n]) ensures n <= end { NumberWithin(s, n); }
  }

  lemma NumberWithin(s: string, n: nat)
    requires s != "" && s[0] in Digits && n <= |s| && IsNumber(s[..n])
    ensures n <= NumberEnd(s)
  {
    var t := s[..n];
    if AllIn(t, Digits) {
      assert t == s[0..n];
      DigitsFit(s, 0, n);
    } else {
      var p :| 0 < p < |t| - 1 && t[p] == '.' && AllIn(t[..p], Digits) && AllIn(t[p + 1..], Digits);
      assert t[..p] == s[0..p] && t[p + 1..] == s[p + 1..n];
      FractionWithin(s, n, p);
    }
  }

  lemma FractionWithin(s: string, n: nat, p: nat)
    requires 0 < p < n - 1 && n <= |s| && s[p] == '.'
    requires AllIn(s[0..p], Digits) && AllIn(s[p + 1..n], Digits)
    ensures n <= NumberEnd(s)
  {
    hide Digits, AllIn;
    DigitsFit(s, 0, p);
    DigitsFit(s, p + 1, n);
    assert Run(s, 1, Digit) == p;
    assert CharClass.Digit.Has(s[p + 1]);
  }

  lemma NamesFit(s: string, n: nat)
    requires 0 < n <= |s| && s[0] in Letters
    ensures IsName(s[..n]) <==> n <= Run(s, 1, WordChar)
  {
    hide Upper, Lower, Letters, Digits;
    forall c: char ensures CharClass.WordChar.Has(c) <==> c in Letters + Digits { ClassesAre(c); }
    var t := s[..n];
    if IsName(t) {
      forall k | 1 <= k < n ensures CharClass.WordChar.Has(s[k]) { assert t[k] == s[k]; }
    }
  }

  lemma LineFits(s: string)
    requires |s| >= 2 && s[0] == '-' && s[1] == '-'
    ensures IsLine(s[..Run(s, 2, NotNewline)])
  {
    var t := s[..Run(s, 2, NotNewline)];
    assert t[..2] == "--";
    assert forall k :: 0 <= k < |t| ==> t[k] == s[k] && t[k] != '\n';
  }

  lemma CommentFits(s: string, n: nat)
    requires Lex(s) == Some(Match(Comment, n))
    ensures FitsAt(s, n, Comment)
  {
    hide Lex, BlockEnd, Run, IsLine, IsBlock;
    LexComment(s, n);
    if s[0] == '/' {
      BlockEndIsFirst(s, 2);
      BlocksFit(s, n);
      assert s[..2] == "/*";
    } else {
      LineFits(s);
    }
  }

  lemma LexComment(s: string, n: nat)
    requires Lex(s) == Some(Match(Comment, n))
    ensures |s| >= 2
    ensures (s[0] == '-' && s[1] == '-' && n == Run(s, 2, NotNewline))
            || (s[0] == '/' && s[1] == '*' && BlockEnd(s, 2) == Some(n))
  {
    hide Run, QuoteEnd, BlockEnd, NumberEnd, IsOperatorChar, StartsWord;
  }

  lemma QuoteFits(s: string, n: nat, q: char, kind: Kind)
    requires Lex(s) == Some(Match(kind, n)) && (kind == String || kind == Identifier)
    requires q == if kind == String then '\'' else '"'
    ensures IsQuoted(s[..n], q)
  {
    hide QuoteEnd, BlockEnd, NumberEnd, Doubled;
    QuoteEndIsLast(s, 1, q);
    QuotesFit(s, n, q);
  }

  lemma OperatorFits(s: string, n: nat)
    requires Lex(s) == Some(Match(Punct, n))
    ensures s[..n] in Operators
  {
    hide QuoteEnd, BlockEnd, NumberEnd, Operators;
    OperatorsAre(s[..n]);
  }

  lemma NumberFits(s: string, n: nat)
    requires Lex(s) == Some(Match(Number, n))
    ensures IsNumber(s[..n])
  {
    hide Digits, QuoteEnd, BlockEnd, NumberEnd, IsNumber;
    ClassesAre(s[0]);
    NumbersFit(s);
  }

  lemma NameFits(s: string, n: nat)
    requires Lex(s) == Some(Match(Word, n))
    ensures IsName(s[..n])
  {
    hide Upper, Lower, Letters, Digits, QuoteEnd, BlockEnd, NumberEnd, IsName;
    ClassesAre(s[0]);
    NamesFit(s, n);
  }

  /** A match is a lexeme of its kind. */
  lemma MatchFits(s: string)
    ensures Lex(s).Some? ==> FitsAt(s, Lex(s).value.len, Lex(s).value.kind)
  {
    hide Lex, IsLine, IsBlock, IsQuoted, IsNumber, IsName, Operators;
    if Lex(s).Some? {
      var Match(kind, n) := Lex(s).value;
      match kind {
        case Comment => CommentFits(s, n);
        case String => QuoteFits(s, n, '\'', kind);
        case Identifier => QuoteFits(s, n, '"', kind);
        case Number => NumberFits(s, n);
        case Word => NameFits(s, n);
        case Punct => OperatorFits(s, n);
        case Other => assert false;
      }
    }
  }

  lemma LinesFit(s: string, n: nat)
    requires n <= |s| && IsLine(s[..n])
    ensures s[..2] == "--" && n <= Run(s, 2, NotNewline)
  {
    var t := s[..n];
    assert t[..2] == s[..2];
    forall k | 2 <= k < n ensures s[k] != '\n' { assert t[k] == s[k]; }
  }

  lemma CommentMatches(s: string, n: nat)
    requires FitsAt(s, n, Comment)
    ensures Lex(s).Some? && Lex(s).value.kind == Comment
    ensures if IsBlock(s[..n]) then Lex(s).value.len <= n else n <= Lex(s).value.len
  {
    hide QuoteEnd, BlockEnd, NumberEnd;
    BlockEndIsFirst(s, 2);
    BlocksFit(s, n);
    if IsLine(s[..n]) {
      LinesFit(s, n);
    }
  }

  lemma QuoteMatches(s: string, n: nat, q: char, kind: Kind)
    requires n <= |s| && IsQuoted(s[..n], q) && ((q == '\'' && kind == String) || (q == '"' && kind == Identifier))
    ensures Lex(s).Some? && Lex(s).value.kind == kind && n <= Lex(s).value.len
  {
    hide QuoteEnd, BlockEnd, NumberEnd, Doubled;
    QuoteEndIsLast(s, 1, q);
    QuotesFit(s, n, q);
  }

  lemma NumberMatches(s: string, n: nat)
    requires n <= |s| && IsNumber(s[..n])
    ensures Lex(s).Some? && Lex(s).value.kind == Number && n <= Lex(s).value.len
  {
    FitHeads(s, n, Number);
    hide Digits, QuoteEnd, BlockEnd, NumberEnd, IsNumber;
    ClassesAre(s[0]);
    NumbersFit(s);
  }

  lemma LexWord(s: string)
    requires s != "" && StartsWord(s[0])
    ensures Lex(s) == Some(Match(Word, Run(s, 1, WordChar)))
  {
    hide Run, QuoteEnd, BlockEnd, NumberEnd, IsOperatorChar;
  }

  lemma NameHead(t: string)
    requires IsName(t)
    ensures t != "" && t[0] in Letters
  {
  }

  lemma NameMatches(s: string, n: nat)
    requires n <= |s| && IsName(s[..n])
    ensures Lex(s).Some? && Lex(s).value.kind == Word && n <= Lex(s).value.len
  {
    NameHead(s[..n]);
    hide Upper, Lower, Letters, Digits, IsName, Lex;
    ClassesAre(s[0]);
    LexWord(s);
    NamesFit(s, n);
  }

  lemma OperatorMatches(s: string, n: nat)
    requires n <= |s| && s[..n] in Operators
    ensures Lex(s).Some? && (Lex(s).value.kind == Comment || (Lex(s).value.kind == Punct && n <= Lex(s).value.len))
  {
    hide Operators, QuoteEnd, BlockEnd, NumberEnd;
    OperatorsAre(s[..n]);
  }

  /** A lexeme at the head of a text is matched, to the end of the longest of its kind; a block comment to
      the end of the shortest. Only an operator gives way, to the comment it opens. */
  lemma FitMatches(s: string, n: nat, kind: Kind)
    requires FitsAt(s, n, kind)
    ensures Lex(s).Some?
    ensures Lex(s).value.kind == kind || (kind == Punct && Lex(s).value.kind == Comment)
    ensures IsBlock(s[..n]) ==> Lex(s).value.len <= n
    ensures Lex(s).value.kind == kind && !IsBlock(s[..n]) ==> n <= Lex(s).value.len
  {
    hide Lex, IsLine, IsBlock, IsQuoted, IsNumber, IsName, Operators;
    match kind {
      case Comment => CommentMatches(s, n);
      case String => QuoteMatches(s, n, '\'', kind);
      case Identifier => QuoteMatches(s, n, '"', kind);
      case Number => NumberMatches(s, n);
      case Word => NameMatches(s, n);
      case Punct => OperatorMatches(s, n);
      case Other => assert false;
    }
    if IsBlock(s[..n]) && kind != Comment {
      BlockIsComment(s, n, kind);
    }
  }

  lemma BlockIsComment(s: string, n: nat, kind: Kind)
    requires FitsAt(s, n, kind) && IsBlock(s[..n])
    ensures kind == Comment
  {
    hide Upper, Lower, Letters, Digits, Operators, Doubled, AllIn;
    assert s[0] == s[..n][0] == '/';
    ClassesAre('/');
    OperatorsAre(s[..n]);
    if kind == Number {
      FitHeads(s, n, kind);
    }
  }
}
