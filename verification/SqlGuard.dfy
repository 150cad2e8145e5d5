/** Statements on which the guard of `formatSql` fires: it is what keeps them as they are. */
module SqlGuard {
  import opened Text
  import opened SqlTokens
  import opened SqlSpacing
  import opened SqlRespelling
  import opened SqlLayout
  import opened SqlSingleLine
  import opened SqlRoundTrip
  import opened SqlFormat

  /** Long enough a word to be worth a layout. */
  predicate LongWord(w: string) {
    |w| > 60 && StartsWord(w[0]) && forall i :: 0 <= i < |w| ==> CharClass.WordChar.Has(w[i])
  }

  const LONG: string := seq(61, _ => 'a')

  /** Past every early return, the statement has a layout of another stream, and comes back as it was. */
  predicate Discarded(sql: string) {
    && !LeftAlone(sql)
    && LaidOut(Tokens(JsSpace.Trim(sql))) != ""
    && !SameTokens(sql, LaidOut(Tokens(JsSpace.Trim(sql))))
    && Format(sql) == sql
  }

  lemma GuardFires(sql: string)
    requires !LeftAlone(sql) && !Lays(sql)
    ensures Discarded(sql)
  {
    hide Tokens, LaidOut, Lays, LeftAlone;
    GuardPasses(sql);
    FormatIs(sql);
  }

  // ---- single tokens ------------------------------------------------------------------------

  lemma DigitIsNumber(c: char)
    requires CharClass.Digit.Has(c)
    ensures Solid(Token([c], Number))
  {
  }

  lemma OperatorIsPunct(c: char)
    requires IsOperatorChar(c)
    ensures Solid(Token([c], Punct))
  {
  }

  lemma CastIsPunct()
    ensures Solid(Token("::", Punct))
  {
  }

  lemma ColonIsSkipped()
    ensures Skipped(":")
  {
  }

  lemma WordIsWord(w: string)
    requires LongWord(w)
    ensures Solid(Token(w, Word)) && Tokens(" " + w) == [Token(w, Word)]
    ensures '\n' !in w && !JsSpace.Has(w[0]) && !JsSpace.Has(w[|w| - 1])
  {
    RunIs(w, 1, WordChar, |w|);
    ReadOne(" ", Token(w, Word), "");
    assert " " + w + "" == " " + w;
    BlankLeftover("");
  }

  lemma DashesAreComment()
    ensures Solid(Token("--c", Comment)) && Tokens(" --c") == [Token("--c", Comment)]
  {
    RunIs("--c", 2, NotNewline, 3);
    ReadOne(" ", Token("--c", Comment), "");
    assert " " + "--c" + "" == " --c";
    BlankLeftover("");
  }

  lemma IsLong(sql: string)
    requires |sql| > 60 && '\n' !in sql && JsSpace.Tight(sql) && Tokens(sql) != []
    ensures JsSpace.Trim(sql) == sql && !LeftAlone(sql)
  {
    JsSpace.TrimTight(sql);
    CodeUnitsCoverLength(sql);
  }

  // ---- the three families -----------------------------------------------------------------------

  lemma SpacedDecimalTokens(w: string)
    requires LongWord(w)
    ensures Tokens("1 . 2 " + w) == [Token("1", Number), Token(".", Punct), Token("2", Number), Token(w, Word)]
  {
    hide Lex, Scan, Solid, LongWord;
    WordIsWord(w);
    DigitIsNumber('1');
    DigitIsNumber('2');
    OperatorIsPunct('.');
    var two := " " + "2" + (" " + w);
    ReadOne(" ", Token("2", Number), " " + w);
    var dot := " " + "." + two;
    ReadOne(" ", Token(".", Punct), two);
    ReadOne("", Token("1", Number), dot);
    assert "1 . 2 " + w == "" + "1" + dot;
  }

  /** `1 . 2` is three tokens, laid out it reads as one number. */
  lemma SpacedDecimalFuses(w: string)
    requires LongWord(w)
    ensures Discarded("1 . 2 " + w)
  {
    hide Tokens, Solid, LaidOut, LeftAlone, Format, Discarded;
    var sql := "1 . 2 " + w;
    WordIsWord(w);
    SpacedDecimalTokens(w);
    IsLong(sql);
    assert Fuses(Tokens(sql), 0);
    GuardFires(sql);
  }

  lemma SpacedCastTokens(w: string)
    requires LongWord(w)
    ensures Tokens(": :: " + w) == [Token(":", Other), Token("::", Punct), Token(w, Word)]
  {
    hide Lex, Scan, Solid, Skipped, LongWord;
    WordIsWord(w);
    CastIsPunct();
    ColonIsSkipped();
    var cast := " " + "::" + (" " + w);
    ReadOne(" ", Token("::", Punct), " " + w);
    CastLands(w);
    ReadOne("", Token(":", Other), cast);
    assert ": :: " + w == "" + ":" + cast;
  }

  /** A colon that is no token, before a cast: laid out the two colons in front pair up. */
  lemma SpacedCastFuses(w: string)
    requires LongWord(w)
    ensures Discarded(": :: " + w)
  {
    hide Tokens, Solid, LaidOut, LeftAlone, Format, Discarded;
    var sql := ": :: " + w;
    WordIsWord(w);
    SpacedCastTokens(w);
    IsLong(sql);
    assert Fuses(Tokens(sql), 0);
    GuardFires(sql);
  }

  lemma CastLands(w: string)
    ensures Landed(" " + "::" + (" " + w))
  {
    var x := "::" + (" " + w);
    assert Lex(x).Some?;
    BlankLands(" ", x);
    assert " " + x == " " + "::" + (" " + w);
  }

  lemma ClosingCommentTokens(w: string)
    requires LongWord(w)
    ensures Tokens(w + " --c") == [Token(w, Word), Token("--c", Comment)]
  {
    hide Lex, Scan, Solid, LongWord;
    WordIsWord(w);
    DashesAreComment();
    ReadOne("", Token(w, Word), " --c");
    assert "" + w + " --c" == w + " --c";
  }

  /** The comment takes in the blank that trimming drops. */
  lemma ClosingCommentRunsOn(w: string)
    requires LongWord(w)
    ensures Discarded(w + " --c ")
  {
    hide Tokens, Solid, LaidOut, Format, Discarded;
    var s, sql := w + " --c", w + " --c ";
    WordIsWord(w);
    ClosingCommentTokens(w);
    IsLong(s);
    TrimsOneBlank(s);
    assert sql == s + " ";
    GuardFires(sql);
  }

  lemma TrimsOneBlank(s: string)
    requires s != "" && JsSpace.Tight(s)
    ensures JsSpace.Trim(s + " ") == s && Trailing(s + " ") == " "
  {
    JsSpace.TrimDrops("", s, " ");
    JsSpace.TrimTight(s);
    assert "" + s + " " == s + " ";
    assert JsSpace.TrimStart(s + " ") == s + " ";
  }

  /** The guard is needed: such statements exist, in each family. */
  lemma GuardIsNeeded()
    ensures Discarded("1 . 2 " + LONG) && Discarded(": :: " + LONG) && Discarded(LONG + " --c ")
  {
    hide Discarded;
    SpacedDecimalFuses(LONG);
    SpacedCastFuses(LONG);
    ClosingCommentRunsOn(LONG);
  }
}
