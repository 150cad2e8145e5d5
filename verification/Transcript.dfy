/** `mapStreamToChatMessages` of `ui/lib/stream-messages.ts`: wire frames folded into chat rows. */
module Transcript {
  import opened Text
  import opened Steps
  import Json

  /** `governed` is `additional_kwargs?.governed_bi`. */
  datatype Frame = Frame(id: Option<string>, ftype: Option<string>, content: Json.Value, governed: Json.Value)

  /** A parsed `AnswerView`; the schema that parses it is a parameter. */
  type Answer = Json.Value

  datatype Role = User | Assistant

  datatype Row = Row(id: string, role: Role, text: Option<string>, answer: Option<Answer>,
                     steps: Option<seq<TimelineStep>>)

  /** What the mapper asks of its caller: the answer schema, the records and traces by message id,
      and `String(...)`. */
  datatype Sources = Sources(parse: Json.Value -> Option<Answer>,
                             answerFor: string -> Option<Answer>,
                             stepsFor: (string, Answer) -> Option<seq<TimelineStep>>,
                             display: Json.Value -> string)

  /** What changes from render to render. */
  datatype Moment = Moment(channelAnswer: Option<Answer>, isRunning: bool, awaitingClarification: bool)
  {
    predicate Idle() {
      !isRunning && !awaitingClarification
    }
  }

  predicate IsHuman(f: Frame) {
    f.ftype == Some("human")
  }

  predicate IsInternal(f: Frame) {
    || f.ftype == Some("tool") || f.ftype == Some("system") || f.ftype == Some("function")
    || f.ftype == Some("remove-ui") || f.ftype == Some("ui")
  }

  predicate IsAi(f: Frame) {
    f.ftype == Some("ai") || f.ftype == Some("AIMessageChunk") || f.ftype == Some("AIMessage")
  }

  /** A frame is a question, an answer, or internal by its type alone; a frame of any other type, or of none, is
      neither. */
  lemma FrameTypes(f: Frame)
    ensures IsHuman(f) <==> f.ftype == Some("human")
    ensures IsAi(f) <==> f.ftype.Some? && f.ftype.value in ["ai", "AIMessageChunk", "AIMessage"]
    ensures IsInternal(f) <==> f.ftype.Some? && f.ftype.value in ["tool", "system", "function", "remove-ui", "ui"]
  {
  }

  function FlattenPart(part: Json.Value, display: Json.Value -> string): string {
    match part
    case Str(s) => s
    case Object(fields) =>
      if "text" in fields && fields["text"] != Json.Undefined && fields["text"] != Json.Null
      then display(fields["text"]) else ""
    case _ => ""
  }

  function FlattenParts(parts: seq<Json.Value>, display: Json.Value -> string): string {
    if parts == [] then "" else FlattenPart(parts[0], display) + FlattenParts(parts[1..], display)
  }

  function FlattenContent(content: Json.Value, display: Json.Value -> string): string {
    match content
    case Str(s) => s
    case Array(items) => FlattenParts(items, display)
    case _ => ""
  }

  function FrameId(messages: seq<Frame>, i: nat): string
    requires i < |messages|
  {
    if messages[i].id.Some? then messages[i].id.value else "stream-" + Natural(i)
  }

  /** Index of the last human frame before `n`, or -1. */
  function LastHuman(messages: seq<Frame>, n: nat): (h: int)
    requires n <= |messages|
    ensures -1 <= h < n
    ensures h >= 0 ==> IsHuman(messages[h])
    ensures forall i :: h < i < n ==> !IsHuman(messages[i])
  {
    if n == 0 then -1 else if IsHuman(messages[n - 1]) then n - 1 else LastHuman(messages, n - 1)
  }

  function LastAi(messages: seq<Frame>, n: nat): (a: int)
    requires n <= |messages|
    ensures -1 <= a < n
    ensures a >= 0 ==> IsAi(messages[a])
    ensures forall i :: a < i < n ==> !IsAi(messages[i])
  {
    if n == 0 then -1 else if IsAi(messages[n - 1]) then n - 1 else LastAi(messages, n - 1)
  }

  /** The current turn's AI frame, when one has arrived; else -1. */
  function NewestAi(messages: seq<Frame>): int {
    var a := LastAi(messages, |messages|);
    if a > LastHuman(messages, |messages|) then a else -1
  }

  /** From `i` on, the first visible frame is human, or there is none. */
  predicate TurnEndsAt(messages: seq<Frame>, i: nat)
    decreases |messages| - i
  {
    if i >= |messages| then true
    else if IsInternal(messages[i]) then TurnEndsAt(messages, i + 1)
    else IsHuman(messages[i])
  }

  predicate IsTurnFinalAi(messages: seq<Frame>, i: nat)
    requires i < |messages|
  {
    IsAi(messages[i]) && TurnEndsAt(messages, i + 1)
  }

  function Card(id: string, answer: Answer, src: Sources): Row {
    Row(id, Assistant, None, Some(answer), src.stepsFor(id, answer))
  }

  function TextRow(id: string, text: string): Option<Row> {
    if JsSpace.Trim(text) == "" then None else Some(Row(id, Assistant, Some(text), None, None))
  }

  predicate IsNullish(v: Json.Value) {
    v == Json.Undefined || v == Json.Null
  }

  function Governed(f: Frame, src: Sources): Option<Answer> {
    if IsNullish(f.governed) then None else src.parse(f.governed)
  }

  /** The row of one frame, if it has one. */
  function RowAt(messages: seq<Frame>, src: Sources, now: Moment, i: nat): Option<Row>
    requires i < |messages|
  {
    var f, id := messages[i], FrameId(messages, i);
    var text := FlattenContent(f.content, src.display);
    if IsHuman(f) then Some(Row(id, User, Some(text), None, None))
    else if IsInternal(f) then None
    else if i == NewestAi(messages) && now.channelAnswer.Some? && now.Idle() then
      Some(Card(id, now.channelAnswer.value, src))
    else if Governed(f, src).Some? then Some(Card(id, Governed(f, src).value, src))
    else if IsTurnFinalAi(messages, i) && src.answerFor(id).Some? then Some(Card(id, src.answerFor(id).value, src))
    else if IsTurnFinalAi(messages, i) && i < LastHuman(messages, |messages|) then TextRow(id, text)
    else if !now.Idle() || now.channelAnswer.Some? || i != NewestAi(messages) then None
    else TextRow(id, text)
  }

  /** The rows of the first `n` frames. */
  function FrameRows(messages: seq<Frame>, src: Sources, now: Moment, n: nat): seq<Row>
    requires n <= |messages|
  {
    if n == 0 then []
    else
      var row := RowAt(messages, src, now, n - 1);
      FrameRows(messages, src, now, n - 1) + (if row.Some? then [row.value] else [])
  }

  function MapStreamToChatMessages(messages: seq<Frame>, src: Sources, now: Moment): seq<Row> {
    FrameRows(messages, src, now, |messages|)
    + (if now.Idle() && now.channelAnswer.Some? && NewestAi(messages) < 0
       then [Card("channel-answer", now.channelAnswer.value, src)] else [])
  }

  // ---- settled history ------------------------------------------------------------------

  lemma {:induction false} LastHumanGrows(messages: seq<Frame>, more: seq<Frame>, n: nat)
    requires n <= |messages|
    ensures LastHuman(messages + more, n) == LastHuman(messages, n)
  {
    if n > 0 {
      LastHumanGrows(messages, more, n - 1);
    }
  }

  /** A turn that ends before a human frame ends the same way in every continuation. */
  lemma {:induction false} TurnEndStands(messages: seq<Frame>, more: seq<Frame>, i: nat, h: nat)
    requires i <= h < |messages| && IsHuman(messages[h])
    ensures TurnEndsAt(messages + more, i) == TurnEndsAt(messages, i)
    decreases h - i
  {
    if IsInternal(messages[i]) {
      TurnEndStands(messages, more, i + 1, h);
    }
  }

  /** The row of a frame at or before the last question: no part of the moment is in it. */
  function HistoryRow(f: Frame, id: string, turnFinal: bool, src: Sources): Option<Row> {
    var text := FlattenContent(f.content, src.display);
    if IsHuman(f) then Some(Row(id, User, Some(text), None, None))
    else if IsInternal(f) then None
    else if Governed(f, src).Some? then Some(Card(id, Governed(f, src).value, src))
    else if !turnFinal then None
    else if src.answerFor(id).Some? then Some(Card(id, src.answerFor(id).value, src))
    else TextRow(id, text)
  }

  lemma RowIsHistory(messages: seq<Frame>, src: Sources, now: Moment, i: nat)
    requires i <= LastHuman(messages, |messages|)
    ensures RowAt(messages, src, now, i) ==
            HistoryRow(messages[i], FrameId(messages, i), IsTurnFinalAi(messages, i), src)
  {
    hide FlattenContent, LastHuman, LastAi, Governed, TextRow, Card, FrameId, IsHuman, IsInternal, IsAi;
  }

  lemma SettledRowStands(messages: seq<Frame>, more: seq<Frame>, src: Sources, now: Moment, later: Moment, i: nat)
    requires i <= LastHuman(messages, |messages|)
    ensures RowAt(messages + more, src, later, i) == RowAt(messages, src, now, i)
  {
    hide RowAt, HistoryRow, IsHuman, IsInternal, IsAi, LastAi, TurnEndsAt, LastHuman;
    var h := LastHuman(messages, |messages|);
    var all := messages + more;
    assert all[i] == messages[i] && all[h] == messages[h];
    assert LastHuman(all, |all|) >= h;
    RowIsHistory(messages, src, now, i);
    RowIsHistory(all, src, later, i);
    assert FrameId(all, i) == FrameId(messages, i);
    if i < h {
      TurnEndStands(messages, more, i + 1, h);
    } else {
      HumanHistory(messages[h], FrameId(messages, h), IsTurnFinalAi(messages, h), IsTurnFinalAi(all, h), src);
    }
  }

  lemma HumanHistory(f: Frame, id: string, a: bool, b: bool, src: Sources)
    requires IsHuman(f)
    ensures HistoryRow(f, id, a, src) == HistoryRow(f, id, b, src)
  {
  }

  lemma {:induction false} SettledRowsStand(messages: seq<Frame>, more: seq<Frame>, src: Sources,
                                            now: Moment, later: Moment, n: nat)
    requires n <= LastHuman(messages, |messages|) + 1
    ensures FrameRows(messages + more, src, later, n) == FrameRows(messages, src, now, n)
  {
    hide RowAt;
    if n > 0 {
      SettledRowsStand(messages, more, src, now, later, n - 1);
      SettledRowStands(messages, more, src, now, later, n - 1);
    }
  }

  lemma {:induction false} FrameRowsPrefix(messages: seq<Frame>, src: Sources, now: Moment, n: nat, m: nat)
    requires n <= m <= |messages|
    ensures FrameRows(messages, src, now, n) <= FrameRows(messages, src, now, m)
    decreases m - n
  {
    hide RowAt;
    if n < m {
      FrameRowsPrefix(messages, src, now, n, m - 1);
    }
  }

  /** Rows up to and including the last question: the settled transcript. */
  function Settled(messages: seq<Frame>, src: Sources, now: Moment): seq<Row> {
    FrameRows(messages, src, now, LastHuman(messages, |messages|) + 1)
  }

  /** The settled transcript opens every later transcript, whatever the run is doing, whatever frames
      arrive after it, and whatever the answer channel holds: no card blanks, shifts or changes. */
  lemma SettledNeverChanges(messages: seq<Frame>, more: seq<Frame>, src: Sources, now: Moment, later: Moment)
    ensures Settled(messages, src, now) <= MapStreamToChatMessages(messages + more, src, later)
    ensures Settled(messages, src, now) == Settled(messages, src, later)
  {
    hide RowAt, FrameRows;
    var all, n := messages + more, LastHuman(messages, |messages|) + 1;
    SettledRowsStand(messages, more, src, now, later, n);
    SettledRowsStand(messages, [], src, now, later, n);
    assert messages + [] == messages;
    FrameRowsPrefix(all, src, later, n, |all|);
  }

  // ---- one answer per question ------------------------------------------------------------

  ghost predicate NoStamps(messages: seq<Frame>, src: Sources) {
    forall f :: f in messages ==> Governed(f, src).None?
  }

  predicate AnswersAt(messages: seq<Frame>, src: Sources, now: Moment, i: nat)
    requires i < |messages|
  {
    RowAt(messages, src, now, i).Some? && RowAt(messages, src, now, i).value.role == Assistant
  }

  lemma AnswerIsFinal(messages: seq<Frame>, src: Sources, now: Moment, i: nat)
    requires i < |messages| && NoStamps(messages, src) && AnswersAt(messages, src, now, i)
    ensures IsAi(messages[i]) && (i == NewestAi(messages) || IsTurnFinalAi(messages, i))
  {
    assert messages[i] in messages;
  }

  /** Between the end of a turn and a later AI frame there is a question. */
  lemma {:induction false} TurnEndNeedsHuman(messages: seq<Frame>, i: nat, j: nat)
    requires i <= j < |messages| && TurnEndsAt(messages, i) && IsAi(messages[j])
    ensures exists k :: i <= k < j && IsHuman(messages[k])
    decreases j - i
  {
    if IsInternal(messages[i]) {
      TurnEndNeedsHuman(messages, i + 1, j);
    }
  }

  lemma TwoAnswersNeedAQuestion(messages: seq<Frame>, src: Sources, now: Moment, i: nat, j: nat)
    requires i < j < |messages| && NoStamps(messages, src)
    requires AnswersAt(messages, src, now, i) && AnswersAt(messages, src, now, j)
    ensures exists k :: i < k < j && IsHuman(messages[k])
  {
    hide RowAt;
    AnswerIsFinal(messages, src, now, i);
    AnswerIsFinal(messages, src, now, j);
    TurnEndNeedsHuman(messages, i + 1, j);
  }

  /** No two answers stand next to each other. */
  predicate Alternates(rows: seq<Row>) {
    forall k :: 0 < k < |rows| ==> !(rows[k - 1].role == Assistant && rows[k].role == Assistant)
  }

  predicate EndsInAnswer(rows: seq<Row>) {
    rows != [] && rows[|rows| - 1].role == Assistant
  }

  /** Frame `i` shows an answer and no question follows it before `n`. */
  ghost predicate AnsweredSince(messages: seq<Frame>, src: Sources, now: Moment, i: nat, n: nat)
    requires n <= |messages|
  {
    i < n && AnswersAt(messages, src, now, i) && forall k :: i < k < n ==> !IsHuman(messages[k])
  }

  /** The last answer so far comes from a frame with no question after it. */
  lemma {:induction false} RowsAlternate(messages: seq<Frame>, src: Sources, now: Moment, n: nat)
    requires n <= |messages| && NoStamps(messages, src)
    ensures Alternates(FrameRows(messages, src, now, n))
    ensures EndsInAnswer(FrameRows(messages, src, now, n)) ==>
              exists i :: AnsweredSince(messages, src, now, i, n)
  {
    if n > 0 {
      RowsAlternate(messages, src, now, n - 1);
      NextRowAlternates(messages, src, now, n - 1, n);
    }
  }

  lemma HumanHasRow(messages: seq<Frame>, src: Sources, now: Moment, i: nat)
    requires i < |messages|
    ensures var row := RowAt(messages, src, now, i); IsHuman(messages[i]) <==> row.Some? && row.value.role == User
  {
  }

  lemma NextRowAlternates(messages: seq<Frame>, src: Sources, now: Moment, n: nat, m: nat)
    requires n < m == n + 1 <= |messages| && NoStamps(messages, src)
    requires Alternates(FrameRows(messages, src, now, n))
    requires EndsInAnswer(FrameRows(messages, src, now, n)) ==>
               exists i :: AnsweredSince(messages, src, now, i, n)
    ensures Alternates(FrameRows(messages, src, now, m))
    ensures EndsInAnswer(FrameRows(messages, src, now, m)) ==> exists i :: AnsweredSince(messages, src, now, i, m)
  {
    hide RowAt;
    var rows := FrameRows(messages, src, now, n);
    HumanHasRow(messages, src, now, n);
    if EndsInAnswer(rows) {
      var i :| AnsweredSince(messages, src, now, i, n);
      if AnswersAt(messages, src, now, n) {
        TwoAnswersNeedAQuestion(messages, src, now, i, n);
        assert false;
      }
      assert !IsHuman(messages[n]) ==> AnsweredSince(messages, src, now, i, m);
    } else if AnswersAt(messages, src, now, n) {
      assert AnsweredSince(messages, src, now, n, m);
    }
  }

  /** With no stamped frames, a question never gets two answers. */
  lemma OneAnswerPerQuestion(messages: seq<Frame>, src: Sources, now: Moment)
    requires NoStamps(messages, src)
    ensures Alternates(MapStreamToChatMessages(messages, src, now))
  {
    hide RowAt;
    RowsAlternate(messages, src, now, |messages|);
    if EndsInAnswer(FrameRows(messages, src, now, |messages|)) {
      var i :| AnsweredSince(messages, src, now, i, |messages|);
      AnsweredTurnHasFrame(messages, src, now, i);
    }
  }

  lemma AnsweredTurnHasFrame(messages: seq<Frame>, src: Sources, now: Moment, i: nat)
    requires i < |messages| && NoStamps(messages, src) && AnswersAt(messages, src, now, i)
    requires forall k :: i < k < |messages| ==> !IsHuman(messages[k])
    ensures NewestAi(messages) >= 0
  {
    hide RowAt;
    AnswerIsFinal(messages, src, now, i);
    assert i <= LastAi(messages, |messages|);
  }

  lemma {:induction false} QuietFrames(messages: seq<Frame>, src: Sources, now: Moment, n: nat, m: nat)
    requires n <= m <= |messages|
    requires forall i :: n <= i < m ==> RowAt(messages, src, now, i).None?
    ensures FrameRows(messages, src, now, m) == FrameRows(messages, src, now, n)
    decreases m - n
  {
    hide RowAt;
    if n < m {
      QuietFrames(messages, src, now, n, m - 1);
    }
  }

  lemma OnlyNewestAnswers(messages: seq<Frame>, src: Sources, now: Moment, i: nat)
    requires NoStamps(messages, src) && LastHuman(messages, |messages|) < i < |messages|
    requires now.Idle() && now.channelAnswer.Some?
    ensures RowAt(messages, src, now, i) ==
            if i == NewestAi(messages) then Some(Card(FrameId(messages, i), now.channelAnswer.value, src)) else None
  {
    hide FlattenContent, Governed, TextRow, Card, FrameId, IsHuman, IsInternal, IsAi, TurnEndsAt;
    assert messages[i] in messages;
    KindsDiffer(messages[i]);
    if i != NewestAi(messages) && IsTurnFinalAi(messages, i) {
      TurnEndNeedsHuman(messages, i + 1, LastAi(messages, |messages|));
    }
  }

  lemma KindsDiffer(f: Frame)
    ensures !(IsHuman(f) && IsInternal(f)) && !(IsHuman(f) && IsAi(f)) && !(IsInternal(f) && IsAi(f))
  {
  }

  /** Idle with an answer on the channel: the settled transcript, then exactly that answer. */
  lemma FinishedTurnShowsItsAnswer(messages: seq<Frame>, src: Sources, now: Moment)
    requires NoStamps(messages, src) && now.Idle() && now.channelAnswer.Some?
    ensures exists id ::
      MapStreamToChatMessages(messages, src, now)
      == Settled(messages, src, now) + [Card(id, now.channelAnswer.value, src)]
  {
    hide RowAt, Card, FrameId, IsHuman, IsInternal, IsAi, TurnEndsAt;
    var h, a, n := LastHuman(messages, |messages|), NewestAi(messages), |messages|;
    forall i | h < i < n
      ensures RowAt(messages, src, now, i) ==
              if i == a then Some(Card(FrameId(messages, i), now.channelAnswer.value, src)) else None
    {
      OnlyNewestAnswers(messages, src, now, i);
    }
    if a < 0 {
      QuietFrames(messages, src, now, h + 1, n);
      assert MapStreamToChatMessages(messages, src, now)
          == Settled(messages, src, now) + [Card("channel-answer", now.channelAnswer.value, src)];
    } else {
      QuietFrames(messages, src, now, h + 1, a);
      QuietFrames(messages, src, now, a + 1, n);
      assert FrameRows(messages, src, now, a + 1)
          == FrameRows(messages, src, now, a) + [Card(FrameId(messages, a), now.channelAnswer.value, src)];
    }
  }

  /** While a turn is running or suspended it shows nothing of its own, short of a record or a stamp
      that names its frame. */
  lemma RunningTurnIsSilent(messages: seq<Frame>, src: Sources, now: Moment)
    requires NoStamps(messages, src) && !now.Idle()
    requires forall i :: LastHuman(messages, |messages|) < i < |messages| ==> src.answerFor(FrameId(messages, i)).None?
    ensures MapStreamToChatMessages(messages, src, now) == Settled(messages, src, now)
  {
    hide RowAt, FrameRows, LastAi, IsHuman, IsInternal, IsAi, TurnEndsAt, FrameId;
    forall i | LastHuman(messages, |messages|) < i < |messages| ensures RowAt(messages, src, now, i).None? {
      RunningFrameIsSilent(messages, src, now, i);
    }
    QuietFrames(messages, src, now, LastHuman(messages, |messages|) + 1, |messages|);
  }

  lemma RunningFrameIsSilent(messages: seq<Frame>, src: Sources, now: Moment, i: nat)
    requires NoStamps(messages, src) && !now.Idle()
    requires LastHuman(messages, |messages|) < i < |messages| && src.answerFor(FrameId(messages, i)).None?
    ensures RowAt(messages, src, now, i).None?
  {
    hide FlattenContent, Governed, TextRow, Card, FrameId, IsHuman, IsInternal, IsAi, TurnEndsAt;
    assert messages[i] in messages;
  }

  // ---- the text of a bubble ------------------------------------------------------------------

  /** An object with a `text` that is there. */
  predicate HasTextPart(part: Json.Value) {
    && part.Object? && "text" in part.fields
    && part.fields["text"] != Json.Null && part.fields["text"] != Json.Undefined
  }

  /** `text` is what the part of a message displays. */
  predicate Displays(part: Json.Value, display: Json.Value -> string, text: string) {
    && (part.Str? ==> text == part.s)
    && (HasTextPart(part) ==> text == display(part.fields["text"]))
    && (!part.Str? && !HasTextPart(part) ==> text == "")
  }

  /** A string is its own text; of a list, the texts of its parts, in order; anything else has none. */
  lemma FlattenIs(content: Json.Value, display: Json.Value -> string) returns (texts: seq<string>)
    ensures content.Str? ==> FlattenContent(content, display) == content.s
    ensures content.Array? ==>
              && FlattenContent(content, display) == Join(texts, "") && |texts| == |content.items|
              && forall i :: 0 <= i < |texts| ==> Displays(content.items[i], display, texts[i])
    ensures !content.Str? && !content.Array? ==> FlattenContent(content, display) == ""
  {
    texts := [];
    if content.Array? {
      texts := FlattenPartsAre(content.items, display);
    }
  }

  lemma {:induction false} FlattenPartsAre(parts: seq<Json.Value>, display: Json.Value -> string)
    returns (texts: seq<string>)
    ensures FlattenParts(parts, display) == Join(texts, "") && |texts| == |parts|
    ensures forall i :: 0 <= i < |texts| ==> Displays(parts[i], display, texts[i])
  {
    texts := [];
    if parts != [] {
      var later := FlattenPartsAre(parts[1..], display);
      texts := [FlattenPart(parts[0], display)] + later;
      assert texts[1..] == later;
    }
  }

  /** The idle turn of an engine without an answer channel: its last AI frame, where nothing else is known of
      it, shows its text, and no other frame of the turn shows anything. */
  lemma PlainTurnShowsText(messages: seq<Frame>, src: Sources, now: Moment, i: nat)
    requires NoStamps(messages, src) && now.Idle() && now.channelAnswer.None?
    requires LastHuman(messages, |messages|) < i < |messages| && src.answerFor(FrameId(messages, i)).None?
    ensures var row, text := RowAt(messages, src, now, i), FlattenContent(messages[i].content, src.display);
            row == (if IsAi(messages[i]) && (forall j :: i < j < |messages| ==> !IsAi(messages[j]))
                       && JsSpace.Trim(text) != ""
                    then Some(Row(FrameId(messages, i), Assistant, Some(text), None, None)) else None)
  {
    KindsDiffer(messages[i]);
    hide FlattenContent, JsSpace.Trim, IsTurnFinalAi, FrameId, Card;
  }
}
