/** Where the laid out text breaks and where it leaves a blank, said from the words of the tokens: the
    words are spelled out here, and nothing is read off the layout's own tests. */
module SqlClauses {
  import opened Text
  import opened SqlTokens
  import opened SqlSpacing
  import opened SqlLayout
  import opened SqlSeparators
  import opened SqlRefinement
  import opened SqlSingleLine
  import opened SqlRoundTrip
  import opened SqlFormat

  /** `c` is `u`, or the small letter of it. */
  predicate Spells(c: char, u: char) {
    (c == u && !('a' <= u <= 'z')) || ('A' <= u <= 'Z' && c == u - 'A' + 'a')
  }

  /** A word token that spells `word`, in any case. */
  predicate Says(t: Token, word: string) {
    && t.kind == Word && |t.text| == |word|
    && forall k :: 0 <= k < |word| ==> Spells(t.text[k], word[k])
  }

  predicate SaysModifier(t: Token) {
    || Says(t, "LEFT") || Says(t, "RIGHT") || Says(t, "INNER") || Says(t, "FULL") || Says(t, "CROSS")
    || Says(t, "OUTER") || Says(t, "NATURAL")
  }

  /** The words that open a clause wherever they stand. */
  predicate SaysClause(t: Token) {
    || Says(t, "SELECT") || Says(t, "FROM") || Says(t, "WHERE") || Says(t, "HAVING") || Says(t, "LIMIT")
    || Says(t, "OFFSET") || Says(t, "UNION") || Says(t, "EXCEPT") || Says(t, "INTERSECT") || Says(t, "WITH")
    || Says(t, "WINDOW") || Says(t, "RETURNING") || Says(t, "FETCH")
    || Says(t, "LEFT") || Says(t, "RIGHT") || Says(t, "INNER") || Says(t, "FULL") || Says(t, "CROSS")
    || Says(t, "NATURAL")
  }

  lemma SaysIsWord(t: Token, word: string)
    ensures Says(t, word) <==> IsWord(t, word)
  {
    var u := Upper(t.text);
    if Says(t, word) {
      assert forall k :: 0 <= k < |word| ==> Spells(t.text[k], word[k]) && u[k] == word[k];
    }
    if u == word {
      assert forall k :: 0 <= k < |word| ==> u[k] == word[k] && Spells(t.text[k], word[k]);
    }
  }

  lemma Words(t: Token)
    ensures forall w :: Says(t, w) <==> IsWord(t, w)
  {
    forall w ensures Says(t, w) <==> IsWord(t, w) {
      SaysIsWord(t, w);
    }
  }

  /** Some keyword of the vocabulary. */
  ghost predicate SaysKeyword(t: Token) {
    exists w :: w in SQL_KEYWORDS && Says(t, w)
  }

  // ---- the table ---------------------------------------------------------------------------

  /** A line break and two blanks a level. */
  predicate BreaksTo(sep: string, level: int) {
    && |sep| == 1 + 2 * (if level > 0 then level else 0) && sep[0] == '\n'
    && forall k :: 1 <= k < |sep| ==> sep[k] == ' '
  }

  predicate ClauseStartsAt(toks: seq<Token>, i: nat)
    requires 0 < i < |toks|
  {
    || SaysClause(toks[i])
    || (Says(toks[i], "JOIN") && !SaysModifier(toks[i - 1]))
    || ((Says(toks[i], "GROUP") || Says(toks[i], "ORDER")) && i + 1 < |toks| && Says(toks[i + 1], "BY"))
  }

  predicate IsMark(t: Token) {
    t == Token(",", Punct) || t == Token(")", Punct) || t == Token(";", Punct) || t == Token(".", Punct)
    || t == Token("::", Punct)
  }

  /** What stands between token `i` and the one before it. */
  ghost predicate Separates(sep: string, toks: seq<Token>, i: nat)
    requires 0 < i < |toks|
  {
    var prev, t, level := toks[i - 1], toks[i], Depth(toks, i);
    if ClauseStartsAt(toks, i) then BreaksTo(sep, level)
    else if Says(t, "AND") || Says(t, "OR") then BreaksTo(sep, level + 1)
    else if prev == Token(",", Punct) && SelectAt(toks, i, level) then BreaksTo(sep, level + 1)
    else if t == Token("(", Punct) then
      if prev.kind == Word then sep == (if SaysKeyword(prev) then " " else "")
      else sep == (if prev.kind == Punct then "" else " ")
    else if IsMark(t) || prev == Token("(", Punct) || prev == Token(".", Punct) then sep == ""
    else sep == " "
  }

  lemma {:induction false} IndentIs(n: int)
    ensures |Indent(n)| == 2 * (if n > 0 then n else 0)
    ensures forall k :: 0 <= k < |Indent(n)| ==> Indent(n)[k] == ' '
    decreases n
  {
    if n > 0 {
      IndentIs(n - 1);
    }
  }

  lemma BreakIs(n: int)
    ensures BreaksTo("\n" + Indent(n), n)
  {
    IndentIs(n);
  }

  lemma Modifiers(t: Token)
    ensures SaysModifier(t) <==> IsJoinModifier(t)
  {
    Words(t);
    hide Says, Upper;
  }

  lemma Clauses(t: Token)
    ensures SaysClause(t) || Says(t, "JOIN") || Says(t, "GROUP") || Says(t, "ORDER") <==> IsStarter(t)
  {
    Words(t);
    hide Says, Upper;
  }

  lemma Keywords(t: Token)
    ensures SaysKeyword(t) <==> IsKeyword(t)
  {
    Words(t);
  }

  lemma ClauseStarts(toks: seq<Token>, i: nat)
    requires 0 < i < |toks|
    ensures ClauseStartsAt(toks, i) <==> OpensClause(toks, i)
  {
    var t := toks[i];
    Words(t);
    Clauses(t);
    OtherClauses(t);
    Modifiers(toks[i - 1]);
    if i + 1 < |toks| {
      Words(toks[i + 1]);
    }
    hide Says, SaysModifier, IsStarter, IsJoinModifier;
  }

  lemma OtherClauses(t: Token)
    ensures SaysClause(t) ==> !Says(t, "JOIN") && !Says(t, "GROUP") && !Says(t, "ORDER")
  {
    Words(t);
    hide Says;
  }

  // ---- the layout keeps the table --------------------------------------------------------------

  /** A clause or a connective is a word that is no mark. */
  lemma WordsAreNoMarks(t: Token, w: string)
    requires Says(t, w)
    ensures t.kind == Word && !IsMark(t) && t != Token("(", Punct)
  {
  }

  lemma BreakSeparates(toks: seq<Token>, i: nat)
    requires 0 < i < |toks| && (OpensClause(toks, i) || IsConnective(toks[i]) || NextItem(toks, i))
    ensures Separates(Sep(toks, i), toks, i)
  {
    ClauseStarts(toks, i);
    Words(toks[i]);
    BreakIs(Depth(toks, i));
    BreakIs(Depth(toks, i) + 1);
    hide Says, Indent, BreaksTo, SelectAt, OpensClause, ClauseStartsAt;
  }

  lemma OpenerReads(t: Token)
    requires WellLexed(t) && t.text != "" && !IsLineComment(t)
    ensures t.text[|t.text| - 1] == '(' || t.text[|t.text| - 1] == '.' <==>
            t == Token("(", Punct) || t == Token(".", Punct)
  {
    EndsLikeOpener(t);
    hide WellLexed, IsLineComment;
  }

  lemma MarkReads(t: Token)
    requires WellLexed(t) && t.text != ""
    ensures t.text in NO_SPACE_BEFORE <==> IsMark(t)
  {
    SpelledPunct(t);
    hide WellLexed;
  }

  /** Two tokens as the glue sees them: by their outer characters and their texts. */
  lemma GlueReads(toks: seq<Token>, i: nat)
    requires 0 < i < |toks| && OneLine(toks)
    ensures var prev, t := toks[i - 1], toks[i];
            && prev.text != ""
            && (prev.text[|prev.text| - 1] == '(' || prev.text[|prev.text| - 1] == '.' <==>
                prev == Token("(", Punct) || prev == Token(".", Punct))
            && (t.text in NO_SPACE_BEFORE <==> IsMark(t))
  {
    hide Lexed, Solid, Skipped, IsLineComment, IsMark;
    LexedAt(toks, i - 1);
    LexedAt(toks, i);
    OpenerReads(toks[i - 1]);
    MarkReads(toks[i]);
  }

  lemma GlueSeparates(toks: seq<Token>, i: nat)
    requires 0 < i < |toks| && OneLine(toks)
    requires !OpensClause(toks, i) && !IsConnective(toks[i]) && !NextItem(toks, i)
    ensures Separates(Sep(toks, i), toks, i)
  {
    assert !ClauseStartsAt(toks, i) by { ClauseStarts(toks, i); }
    assert !Says(toks[i], "AND") && !Says(toks[i], "OR") by { Words(toks[i]); }
    GlueReads(toks, i);
    StarterIsNoMark(toks[i]);
    hide Says, SaysKeyword, Indent, BreaksTo, SelectAt, OpensClause, ClauseStartsAt, OneLine, IsStarter, IsKeyword,
         IsConnective;
    assert SaysKeyword(toks[i - 1]) <==> IsKeyword(toks[i - 1]) by { Keywords(toks[i - 1]); }
    if IsPunct(toks[i], "(") {
      ParenSeparates(toks, i);
    } else {
      hide SpaceBeforeOpenParen;
    }
  }

  lemma ParenSeparates(toks: seq<Token>, i: nat)
    requires 0 < i < |toks| && IsPunct(toks[i], "(")
    requires !OpensClause(toks, i) && !IsConnective(toks[i]) && !NextItem(toks, i)
    requires var prev := toks[i - 1];
             && prev.text != "" && (SaysKeyword(prev) <==> IsKeyword(prev))
             && (prev.text[|prev.text| - 1] == '(' || prev.text[|prev.text| - 1] == '.' <==>
                 prev == Token("(", Punct) || prev == Token(".", Punct))
    ensures var prev := toks[i - 1];
            Sep(toks, i) == (if prev.kind == Word then (if SaysKeyword(prev) then " " else "")
                             else if prev.kind == Punct then "" else " ")
  {
    hide SaysKeyword, Indent, OpensClause, IsKeyword, IsConnective, NextItem;
  }

  lemma StarterIsNoMark(t: Token)
    ensures IsStarter(t) ==> !IsMark(t) && t.kind == Word
  {
  }

  /** The text of the layout: the tokens, and between any two of them what the table says. */
  lemma LaidOutSeparates(toks: seq<Token>) returns (seps: seq<string>)
    requires OneLine(toks) && toks != []
    ensures |seps| == |toks| && seps[0] == "" && LaidOut(toks) == Weave(seps, toks)
    ensures forall i :: 0 < i < |toks| ==> Separates(seps[i], toks, i)
  {
    hide Sep, LaidOut, Woven, Separates, OpensClause, NextItem;
    seps := Seps(toks);
    assert AllShown(toks) by { OneLineParts(toks); }
    LaidOutIsWoven(toks);
    WovenThenRest(toks, |toks|);
    RestEnds(toks);
    WeaveSpan(toks, 0, |toks|);
    assert Woven(toks, |toks|) + "" == Woven(toks, |toks|) && Weave(seps, toks) + "" == Weave(seps, toks);
    assert Seps(toks)[0..|toks|] == seps && toks[0..|toks|] == toks;
    assert seps[0] == "" by { FirstSep(toks); }
    forall i | 0 < i < |toks| ensures Separates(seps[i], toks, i) {
      if OpensClause(toks, i) || IsConnective(toks[i]) || NextItem(toks, i) {
        BreakSeparates(toks, i);
      } else {
        GlueSeparates(toks, i);
      }
    }
  }

  lemma FirstSep(toks: seq<Token>)
    requires toks != []
    ensures Sep(toks, 0) == ""
  {
  }

  /** The same of the formatter: what it returns when it lays a statement out. */
  lemma FormatSeparates(sql: string) returns (seps: seq<string>)
    requires Lays(sql)
    ensures |seps| == |Tokens(sql)| && seps != [] && seps[0] == "" && Format(sql) == Weave(seps, Tokens(sql))
    ensures forall i :: 0 < i < |Tokens(sql)| ==> Separates(seps[i], Tokens(sql), i)
  {
    hide Tokens, LaidOut, NothingFuses, EndsInLineComment, RunsOn, Trailing, Separates, OneLine;
    var toks := Tokens(JsSpace.Trim(sql));
    var lead := AroundTrimmed(sql);
    TokensOneLine(JsSpace.Trim(sql));
    seps := LaidOutSeparates(toks);
    FormatIs(sql);
    TrimKeepsTokens(sql);
  }
}
