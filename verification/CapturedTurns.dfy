/** The finished turns of `ui/hooks/use-stream-chat.ts`: what `onFinish` captures is read before what the
    cursor attaches, and both decide what the cards of settled turns show. */
module CapturedTurns {
  import opened Text
  import opened Transcript
  import opened TurnRecords
  import opened SettledRecords
  import Clarifications
  import Steps
  import Json

  type Trace = seq<Steps.TimelineStep>

  /** `completedAnswers` and `completedSteps`. */
  datatype Captures = Captures(answers: map<string, Answer>, traces: map<string, Trace>)

  /** A run that ends: the frames of its state, the live trace, and the answer channel. */
  datatype Finish = Finish(frames: seq<Frame>, trace: Trace, answer: Option<Answer>)

  /** Index of the last frame before `n` that is not human, or -1. */
  function LastOther(messages: seq<Frame>, n: nat): (k: int)
    requires n <= |messages|
    ensures -1 <= k < n
    ensures k >= 0 ==> !IsHuman(messages[k])
    ensures forall i :: k < i < n ==> IsHuman(messages[i])
  {
    if n == 0 then -1 else if !IsHuman(messages[n - 1]) then n - 1 else LastOther(messages, n - 1)
  }

  /** Where the captures of a finished run are filed. */
  function FiledAt(f: Finish): int {
    LastOther(f.frames, |f.frames|)
  }

  function OnFinish(c: Captures, f: Finish): Captures {
    var k := FiledAt(f);
    if k < 0 then c
    else
      var id := FrameId(f.frames, k);
      Captures(if f.answer.Some? then c.answers[id := f.answer.value] else c.answers,
               if f.trace != [] then c.traces[id := f.trace] else c.traces)
  }

  function AfterAll(c: Captures, fs: seq<Finish>): Captures {
    if fs == [] then c else OnFinish(AfterAll(c, fs[..|fs| - 1]), fs[|fs| - 1])
  }

  class CaptureCells {
    var completedAnswers: map<string, Answer>
    var completedSteps: map<string, Trace>

    function Cells(): Captures
      reads this
    {
      Captures(completedAnswers, completedSteps)
    }

    constructor ()
      ensures Cells() == Captures(map[], map[])
    {
      completedAnswers, completedSteps := map[], map[];
    }

    method DoFinish(f: Finish)
      modifies this
      ensures Cells() == OnFinish(old(Cells()), f)
    {
      if f.trace == [] && f.answer.None? {
        return;
      }
      var i := |f.frames|;
      while i > 0
        invariant 0 <= i <= |f.frames|
        invariant LastOther(f.frames, |f.frames|) == LastOther(f.frames, i)
        invariant Cells() == old(Cells())
      {
        i := i - 1;
        if !IsHuman(f.frames[i]) {
          var id := FrameId(f.frames, i);
          if f.trace != [] {
            completedSteps := completedSteps[id := f.trace];
          }
          if f.answer.Some? {
            completedAnswers := completedAnswers[id := f.answer.value];
          }
          return;
        }
      }
    }
  }

  // ---- what the mapper is given ---------------------------------------------------------------------

  /** The fixed parts of the hook: the answer schema, `String(...)`, the steps of an answer's ledger, and
      label copy. */
  datatype Hook = Hook(parse: Parser, display: Json.Value -> string, ledger: Answer -> Trace, labels: Steps.Labeler)

  function AnswerFor(c: Captures, out: map<string, Answer>): string -> Option<Answer> {
    id => if id in c.answers then Some(c.answers[id]) else if id in out then Some(out[id]) else None
  }

  function TraceOf(c: Captures, id: string, ledger: Trace): Trace {
    if id in c.traces && c.traces[id] != [] then c.traces[id] else ledger
  }

  function StepsFor(hook: Hook, c: Captures, facts: seq<Clarifications.Fact>): (string, Answer) -> Option<Trace> {
    (id, answer) =>
      var rows := TraceOf(c, id, hook.ledger(answer));
      if rows == [] then None else Some(Clarifications.JoinAll(rows, facts, hook.labels))
  }

  function SourcesOf(hook: Hook, c: Captures, facts: seq<Clarifications.Fact>, out: map<string, Answer>): Sources {
    Sources(hook.parse, AnswerFor(c, out), StepsFor(hook, c, facts), hook.display)
  }

  // ---- where captures land ------------------------------------------------------------------------------

  /** A finished turn is filed under a frame of an earlier turn exactly when no frame but questions follows
      its question: its capture then lands on the last frame of the turn before. */
  lemma FiledEarlier(f: Finish)
    requires FiledAt(f) >= 0
    ensures Asked(f.frames, FiledAt(f)) < Asked(f.frames, |f.frames|) <==> IsHuman(f.frames[|f.frames| - 1])
  {
    hide IsHuman;
    var k, n := FiledAt(f), |f.frames|;
    AskedGrows(f.frames, k + 1, n);
    if IsHuman(f.frames[n - 1]) {
      assert k + 1 <= n - 1;
    } else {
      assert k == n - 1;
    }
  }

  /** The frame it is filed under carries an answer card exactly if it is an AI frame; a capture filed under a
      tool or system frame is never looked up for one. */
  lemma FiledOnCard(f: Finish)
    requires FiledAt(f) >= 0
    ensures IsTurnFinalAi(f.frames, FiledAt(f)) <==> IsAi(f.frames[FiledAt(f)])
  {
    var k := FiledAt(f);
    if k + 1 < |f.frames| {
      KindsDiffer(f.frames[k + 1]);
    }
  }

  /** Only questions have arrived since the last question of `messages`. */
  predicate IsSilentSince(messages: seq<Frame>, f: Finish) {
    var h := LastHuman(messages, |messages|);
    h >= 0 && forall j :: h <= j < |f.frames| ==> IsHuman(f.frames[j])
  }

  /** A later finish is filed under a settled frame exactly if its turn was silent; and then under the last
      frame that is no question. */
  lemma FiledOnSettled(messages: seq<Frame>, f: Finish)
    requires messages <= f.frames
    ensures FiledAt(f) < LastHuman(messages, |messages|) <==> IsSilentSince(messages, f)
    ensures IsSilentSince(messages, f) ==> FiledAt(f) == LastOther(messages, |messages|)
  {
    var h, k := LastHuman(messages, |messages|), FiledAt(f);
    if IsSilentSince(messages, f) {
      var m := LastOther(messages, |messages|);
      assert m >= 0 ==> !IsHuman(f.frames[m]);
      assert k >= 0 ==> !IsHuman(messages[k]);
    }
  }

  predicate Between(messages: seq<Frame>, f: Finish, all: seq<Frame>) {
    messages <= f.frames <= all
  }

  /** The captures under `id` are the same. */
  predicate SameCapture(c: Captures, d: Captures, id: string) {
    && (id in c.answers <==> id in d.answers) && (id in c.answers ==> c.answers[id] == d.answers[id])
    && (id in c.traces <==> id in d.traces) && (id in c.traces ==> c.traces[id] == d.traces[id])
  }

  lemma FinishStands(messages: seq<Frame>, all: seq<Frame>, c: Captures, f: Finish, i: nat)
    requires DistinctIds(all) && Between(messages, f, all)
    requires i < LastHuman(messages, |messages|)
    requires !(IsSilentSince(messages, f) && i == LastOther(messages, |messages|))
    ensures SameCapture(c, OnFinish(c, f), FrameId(messages, i))
  {
    hide IsHuman, LastHuman, LastOther, OnFinish, SameCapture, IsSilentSince;
    FiledOnSettled(messages, f);
    var k := FiledAt(f);
    assert FrameId(messages, i) == FrameId(all, i);
    if k >= 0 {
      assert k != i && FrameId(f.frames, k) == FrameId(all, k);
    }
    OtherIdStands(c, f, FrameId(messages, i));
  }

  lemma OtherIdStands(c: Captures, f: Finish, id: string)
    requires FiledAt(f) >= 0 ==> FrameId(f.frames, FiledAt(f)) != id
    ensures SameCapture(c, OnFinish(c, f), id)
  {
    hide FiledAt, FrameId;
  }

  /** The captures of settled frames stand, but for the last frame that is no question, and for that one too
      unless some turn finished silently. */
  lemma {:induction false} CapturesStand(messages: seq<Frame>, all: seq<Frame>, c: Captures, fs: seq<Finish>, i: nat)
    requires DistinctIds(all) && i < LastHuman(messages, |messages|)
    requires forall f :: f in fs ==> Between(messages, f, all)
    requires i == LastOther(messages, |messages|) ==> forall f :: f in fs ==> !IsSilentSince(messages, f)
    ensures SameCapture(c, AfterAll(c, fs), FrameId(messages, i))
  {
    hide OnFinish, LastHuman, LastOther, DistinctIds, Between, FrameId, IsSilentSince;
    if fs != [] {
      var n := |fs| - 1;
      assert fs[n] in fs && forall f :: f in fs[..n] ==> f in fs;
      CapturesStand(messages, all, c, fs[..n], i);
      FinishStands(messages, all, AfterAll(c, fs[..n]), fs[n], i);
    }
  }

  /** No capture is ever taken back. */
  lemma {:induction false} CapturesGrow(c: Captures, fs: seq<Finish>)
    ensures c.answers.Keys <= AfterAll(c, fs).answers.Keys
  {
    hide FiledAt, FrameId;
    if fs != [] {
      CapturesGrow(c, fs[..|fs| - 1]);
    }
  }

  // ---- one settled card -----------------------------------------------------------------------------------

  /** The frame shows a card or a text, and another one under the other sources. */
  predicate CardMoves(f: Frame, id: string, end: bool, src: Sources, other: Sources) {
    var stamp, was := Governed(f, src), src.answerFor(id);
    && !IsHuman(f) && !IsInternal(f)
    && if stamp.Some? then src.stepsFor(id, stamp.value) != other.stepsFor(id, stamp.value)
       else
         && end
         && (other.answerFor(id) != was || (was.Some? && src.stepsFor(id, was.value) != other.stepsFor(id, was.value)))
  }

  lemma HistoryMoves(f: Frame, id: string, end: bool, src: Sources, other: Sources)
    requires other.parse == src.parse && other.display == src.display
    requires src.answerFor(id).Some? ==> other.answerFor(id).Some?
    ensures var r, s := HistoryRow(f, id, end, src), HistoryRow(f, id, end, other);
            (r.Some? ==> s.Some?) && (r != s <==> CardMoves(f, id, end, src, other))
  {
    assert Governed(f, other) == Governed(f, src);
    hide FlattenContent, IsHuman, IsInternal, Governed;
  }

  /** A frame without a stamp, whose turn's record came late, and nothing captured to show instead. */
  predicate IsOvertaken(messages: seq<Frame>, i: nat, rows: seq<Json.Value>, before: seq<nat>, turns: seq<nat>,
                        parse: Parser, d: Captures)
    requires i < |messages|
  {
    && (IsNullish(messages[i].governed) || parse(messages[i].governed).None?)
    && FrameId(messages, i) !in d.answers && IsLateFor(messages, i, rows, before, turns, parse)
  }

  /** Over the records there were, the frame shows another answer or another trace with the captures of now. */
  predicate IsRefiled(messages: seq<Frame>, i: nat, hook: Hook, facts: seq<Clarifications.Fact>,
                      out: map<string, Answer>, c: Captures, d: Captures)
    requires i < |messages|
  {
    CardMoves(messages[i], FrameId(messages, i), IsTurnFinalAi(messages, i),
              SourcesOf(hook, c, facts, out), SourcesOf(hook, d, facts, out))
  }

  /** What `AttachedStands` says of one id. */
  predicate CursorStands(out: map<string, Answer>, later: map<string, Answer>, id: string, late: bool) {
    (id in out ==> id in later && later[id] == out[id]) && (late <==> id in later && id !in out)
  }

  lemma CardMovesBy(f: Frame, id: string, end: bool, hook: Hook, facts: seq<Clarifications.Fact>, c: Captures,
                    d: Captures, out: map<string, Answer>, later: map<string, Answer>, late: bool)
    requires id in c.answers ==> id in d.answers
    requires CursorStands(out, later, id, late) && (late ==> end)
    requires end ==> !IsHuman(f) && !IsInternal(f)
    ensures var src := SourcesOf(hook, c, facts, out);
            CardMoves(f, id, end, src, SourcesOf(hook, d, facts, later)) <==>
            (Governed(f, src).None? && id !in d.answers && late)
            || CardMoves(f, id, end, src, SourcesOf(hook, d, facts, out))
  {
    hide IsHuman, IsInternal, Governed, StepsFor;
  }

  lemma FinalIsAi(messages: seq<Frame>, i: nat)
    requires i < |messages| && IsTurnFinalAi(messages, i)
    ensures !IsHuman(messages[i]) && !IsInternal(messages[i])
  {
    KindsDiffer(messages[i]);
  }

  lemma RowMoves(messages: seq<Frame>, more: seq<Frame>, rows: seq<Json.Value>, moreRows: seq<Json.Value>,
                 before: seq<nat>, turns: seq<nat>, hook: Hook, facts: seq<Clarifications.Fact>, c: Captures,
                 d: Captures, now: Moment, later: Moment, i: nat)
    requires DistinctIds(messages) && DistinctIds(messages + more)
    requires Faithful(rows, before) && Faithful(rows + moreRows, turns) && before <= turns
    requires c.answers.Keys <= d.answers.Keys && i < LastHuman(messages, |messages|)
    ensures var out := Attached(messages, rows, hook.parse);
            var r := RowAt(messages, SourcesOf(hook, c, facts, out), now, i);
            var s := RowAt(messages + more,
                           SourcesOf(hook, d, facts, Attached(messages + more, rows + moreRows, hook.parse)), later, i);
            && (r.Some? ==> s.Some?)
            && (r != s <==> IsOvertaken(messages, i, rows + moreRows, before, turns, hook.parse, d)
                            || IsRefiled(messages, i, hook, facts, out, c, d))
  {
    hide Attached, FrameId, LastHuman, Faithful, DistinctIds, Asked, RowAt, IsTurnFinalAi, HistoryRow, TurnEndsAt,
         CardMoves, StepsFor, IsLateFor, AnswersTurn;
    var out, all := Attached(messages, rows, hook.parse), messages + more;
    var outLater := Attached(all, rows + moreRows, hook.parse);
    var first, second := SourcesOf(hook, c, facts, out), SourcesOf(hook, d, facts, outLater);
    var f, id, end := messages[i], FrameId(messages, i), IsTurnFinalAi(messages, i);
    var late := IsLateFor(messages, i, rows + moreRows, before, turns, hook.parse);
    SettledRowStands(messages, more, second, now, later, i);
    RowIsHistory(messages, first, now, i);
    RowIsHistory(messages, second, now, i);
    AttachedStands(messages, more, rows, moreRows, before, turns, hook.parse, i);
    if late {
      LateIsFinal(messages, i, rows + moreRows, before, turns, hook.parse);
    }
    if end {
      FinalIsAi(messages, i);
    }
    HistoryMoves(f, id, end, first, second);
    CardMovesBy(f, id, end, hook, facts, c, d, out, outLater, late);
  }

  lemma LateIsFinal(messages: seq<Frame>, i: nat, rows: seq<Json.Value>, before: seq<nat>, turns: seq<nat>,
                    parse: Parser)
    requires i < |messages| && IsLateFor(messages, i, rows, before, turns, parse)
    ensures IsTurnFinalAi(messages, i)
  {
  }

  // ---- the settled transcript -----------------------------------------------------------------------------

  lemma AppendSame(a: seq<Row>, b: seq<Row>, r: Option<Row>, s: Option<Row>)
    requires |a| <= |b| && (r.Some? ==> s.Some?)
    ensures var x, y := a + (if r.Some? then [r.value] else []), b + (if s.Some? then [s.value] else []);
            |x| <= |y| && (x == y <==> a == b && r == s)
  {
    var x, y := a + (if r.Some? then [r.value] else []), b + (if s.Some? then [s.value] else []);
    assert a + [] == a && b + [] == b;
    if x == y && r.Some? {
      assert |a| == |b| && a == x[..|a|] && b == y[..|b|];
      assert r.value == x[|a|] && s.value == y[|b|];
    }
  }

  /** Where no row is taken away, the rows of the first frames agree exactly if they agree one by one. */
  lemma {:induction false} SameRows(messages: seq<Frame>, all: seq<Frame>, src: Sources, other: Sources,
                                    now: Moment, later: Moment, n: nat)
    requires n <= |messages| && n <= |all|
    requires forall i :: 0 <= i < n && RowAt(messages, src, now, i).Some? ==> RowAt(all, other, later, i).Some?
    ensures |FrameRows(messages, src, now, n)| <= |FrameRows(all, other, later, n)|
    ensures FrameRows(messages, src, now, n) == FrameRows(all, other, later, n) <==>
            forall i :: 0 <= i < n ==> RowAt(messages, src, now, i) == RowAt(all, other, later, i)
  {
    hide RowAt;
    if n > 0 {
      SameRows(messages, all, src, other, now, later, n - 1);
      AppendSame(FrameRows(messages, src, now, n - 1), FrameRows(all, other, later, n - 1),
                 RowAt(messages, src, now, n - 1), RowAt(all, other, later, n - 1));
    }
  }

  lemma QuestionRow(messages: seq<Frame>, i: nat, src: Sources, other: Sources)
    requires i == LastHuman(messages, |messages|) && other.display == src.display
    ensures HistoryRow(messages[i], FrameId(messages, i), IsTurnFinalAi(messages, i), src)
         == HistoryRow(messages[i], FrameId(messages, i), IsTurnFinalAi(messages, i), other)
  {
  }

  /** Exactly when the settled transcript is no longer what the later transcript opens with, whatever frames,
      truthful rows and captures have arrived: some card was waiting for its record with nothing captured, or
      shows another capture. */
  lemma SettledWithCaptures(messages: seq<Frame>, more: seq<Frame>, rows: seq<Json.Value>, moreRows: seq<Json.Value>,
                            before: seq<nat>, turns: seq<nat>, hook: Hook, facts: seq<Clarifications.Fact>,
                            c: Captures, d: Captures, now: Moment, later: Moment)
    requires DistinctIds(messages) && DistinctIds(messages + more)
    requires Faithful(rows, before) && Faithful(rows + moreRows, turns) && before <= turns
    requires c.answers.Keys <= d.answers.Keys
    ensures var h, all := LastHuman(messages, |messages|), messages + more;
            var out := Attached(messages, rows, hook.parse);
            var first := SourcesOf(hook, c, facts, out);
            var second := SourcesOf(hook, d, facts, Attached(all, rows + moreRows, hook.parse));
            && FrameRows(all, second, later, h + 1) <= MapStreamToChatMessages(all, second, later)
            && (Settled(messages, first, now) == FrameRows(all, second, later, h + 1) <==>
                forall i :: 0 <= i < h ==>
                  && !IsOvertaken(messages, i, rows + moreRows, before, turns, hook.parse, d)
                  && !IsRefiled(messages, i, hook, facts, out, c, d))
  {
    hide Attached, FrameId, LastHuman, Faithful, FrameRows, DistinctIds, RowAt, IsOvertaken, IsRefiled, StepsFor;
    var h, all := LastHuman(messages, |messages|), messages + more;
    var out := Attached(messages, rows, hook.parse);
    var first := SourcesOf(hook, c, facts, out);
    var second := SourcesOf(hook, d, facts, Attached(all, rows + moreRows, hook.parse));
    FrameRowsPrefix(all, second, later, h + 1, |all|);
    forall i | 0 <= i < h
      ensures RowAt(messages, first, now, i).Some? ==> RowAt(all, second, later, i).Some?
      ensures RowAt(messages, first, now, i) != RowAt(all, second, later, i) <==>
              || IsOvertaken(messages, i, rows + moreRows, before, turns, hook.parse, d)
              || IsRefiled(messages, i, hook, facts, out, c, d)
    {
      RowMoves(messages, more, rows, moreRows, before, turns, hook, facts, c, d, now, later, i);
    }
    if h >= 0 {
      QuestionStands(messages, more, first, second, now, later);
    }
    SameRows(messages, all, first, second, now, later, h + 1);
  }

  lemma QuestionStands(messages: seq<Frame>, more: seq<Frame>, src: Sources, other: Sources, now: Moment, later: Moment)
    requires LastHuman(messages, |messages|) >= 0 && other.display == src.display
    ensures var h := LastHuman(messages, |messages|);
            RowAt(messages, src, now, h) == RowAt(messages + more, other, later, h)
  {
    hide RowAt, HistoryRow, FrameId, IsTurnFinalAi, LastHuman;
    var h := LastHuman(messages, |messages|);
    SettledRowStands(messages, more, other, now, later, h);
    RowIsHistory(messages, src, now, h);
    RowIsHistory(messages, other, now, h);
    QuestionRow(messages, h, src, other);
  }

  /** The captures can change one settled card only, the last one, and only through a turn that left no frame. */
  lemma RefiledBySilence(messages: seq<Frame>, all: seq<Frame>, hook: Hook, facts: seq<Clarifications.Fact>,
                         out: map<string, Answer>, c: Captures, fs: seq<Finish>, i: nat)
    requires DistinctIds(all) && messages <= all && forall f :: f in fs ==> Between(messages, f, all)
    requires i < LastHuman(messages, |messages|) && IsRefiled(messages, i, hook, facts, out, c, AfterAll(c, fs))
    ensures i == LastOther(messages, |messages|) && exists f :: f in fs && IsSilentSince(messages, f)
  {
    hide LastHuman, LastOther, DistinctIds, Between, FrameId, IsSilentSince, IsTurnFinalAi, AfterAll;
    if i != LastOther(messages, |messages|) || !exists f :: f in fs && IsSilentSince(messages, f) {
      CapturesStand(messages, all, c, fs, i);
      SameCaptureSameCard(messages[i], FrameId(messages, i), IsTurnFinalAi(messages, i), hook, facts, out, c,
                          AfterAll(c, fs));
    }
  }

  lemma SameCaptureSameCard(f: Frame, id: string, end: bool, hook: Hook, facts: seq<Clarifications.Fact>,
                            out: map<string, Answer>, c: Captures, d: Captures)
    requires SameCapture(c, d, id)
    ensures !CardMoves(f, id, end, SourcesOf(hook, c, facts, out), SourcesOf(hook, d, facts, out))
  {
    var src, other := SourcesOf(hook, c, facts, out), SourcesOf(hook, d, facts, out);
    assert src.answerFor(id) == other.answerFor(id);
    forall a ensures src.stepsFor(id, a) == other.stepsFor(id, a) {
      assert TraceOf(c, id, hook.ledger(a)) == TraceOf(d, id, hook.ledger(a));
    }
    hide IsHuman, IsInternal, Governed, StepsFor, AnswerFor;
  }

  /** Exactly when a settled transcript changes while frames, rows and finished turns arrive: a record comes
      late for a card with nothing captured, or a turn that left no frame is filed under the last card and
      shows there. */
  lemma SettledTurnsChange(messages: seq<Frame>, more: seq<Frame>, rows: seq<Json.Value>, moreRows: seq<Json.Value>,
                           before: seq<nat>, turns: seq<nat>, hook: Hook, facts: seq<Clarifications.Fact>,
                           c: Captures, fs: seq<Finish>, now: Moment, later: Moment)
    requires DistinctIds(messages) && DistinctIds(messages + more)
    requires Faithful(rows, before) && Faithful(rows + moreRows, turns) && before <= turns
    requires forall f :: f in fs ==> Between(messages, f, messages + more)
    ensures var h, k, all := LastHuman(messages, |messages|), LastOther(messages, |messages|), messages + more;
            var out, d := Attached(messages, rows, hook.parse), AfterAll(c, fs);
            var first := SourcesOf(hook, c, facts, out);
            var second := SourcesOf(hook, d, facts, Attached(all, rows + moreRows, hook.parse));
            Settled(messages, first, now) != FrameRows(all, second, later, h + 1) <==>
            || (exists i :: 0 <= i < h && IsOvertaken(messages, i, rows + moreRows, before, turns, hook.parse, d))
            || (0 <= k < h && (exists f :: f in fs && IsSilentSince(messages, f))
                && IsRefiled(messages, k, hook, facts, out, c, d))
  {
    hide Attached, FrameId, LastHuman, LastOther, Faithful, FrameRows, DistinctIds, IsOvertaken, IsRefiled, StepsFor,
         AfterAll, IsSilentSince, Between;
    var h, all := LastHuman(messages, |messages|), messages + more;
    var out, d := Attached(messages, rows, hook.parse), AfterAll(c, fs);
    CapturesGrow(c, fs);
    SettledWithCaptures(messages, more, rows, moreRows, before, turns, hook, facts, c, d, now, later);
    forall i | 0 <= i < h && IsRefiled(messages, i, hook, facts, out, c, d)
      ensures i == LastOther(messages, |messages|) && exists f :: f in fs && IsSilentSince(messages, f)
    {
      RefiledBySilence(messages, all, hook, facts, out, c, fs, i);
    }
  }

  // ---- and both do happen -----------------------------------------------------------------------------------

  /** Any conversation that ends in a question, with an answer frame before it: if the turn finishes without a
      frame, as a decline does, the settled card before it becomes the card of that turn. */
  lemma SilentFinishOverwrites(messages: seq<Frame>, rows: seq<Json.Value>, turns: seq<nat>, hook: Hook,
                               facts: seq<Clarifications.Fact>, c: Captures, trace: Trace, answer: Answer,
                               now: Moment, later: Moment)
    requires DistinctIds(messages) && Faithful(rows, turns)
    requires messages != [] && IsHuman(messages[|messages| - 1])
    requires var k := LastOther(messages, |messages|);
             && k >= 0 && IsAi(messages[k])
             && (IsNullish(messages[k].governed) || hook.parse(messages[k].governed).None?)
             && AnswerFor(c, Attached(messages, rows, hook.parse))(FrameId(messages, k)) != Some(answer)
    ensures var k, out := LastOther(messages, |messages|), Attached(messages, rows, hook.parse);
            var d := OnFinish(c, Finish(messages, trace, Some(answer)));
            var first, second := SourcesOf(hook, c, facts, out), SourcesOf(hook, d, facts, out);
            && RowAt(messages, second, later, k) == Some(Card(FrameId(messages, k), answer, second))
            && Settled(messages, first, now) != Settled(messages, second, later)
  {
    hide Attached, FrameId, LastHuman, Faithful, FrameRows, DistinctIds, RowAt, StepsFor, IsOvertaken, IsTurnFinalAi,
         LastOther, IsHuman, IsAi, IsNullish, IsRefiled;
    var k, out := LastOther(messages, |messages|), Attached(messages, rows, hook.parse);
    var d := OnFinish(c, Finish(messages, trace, Some(answer)));
    EndsInQuestion(messages);
    SilentFinishRefiles(messages, out, hook, facts, c, trace, answer, later);
    assert c.answers.Keys <= d.answers.Keys;
    hide OnFinish, Settled, AnswerFor;
    RefiledShows(messages, rows, turns, hook, facts, c, d, now, later, k);
  }

  /** Another capture on one settled frame is another settled transcript. */
  lemma RefiledShows(messages: seq<Frame>, rows: seq<Json.Value>, turns: seq<nat>, hook: Hook,
                     facts: seq<Clarifications.Fact>, c: Captures, d: Captures, now: Moment, later: Moment, i: nat)
    requires DistinctIds(messages) && Faithful(rows, turns) && c.answers.Keys <= d.answers.Keys
    requires i < LastHuman(messages, |messages|)
    requires IsRefiled(messages, i, hook, facts, Attached(messages, rows, hook.parse), c, d)
    ensures var out := Attached(messages, rows, hook.parse);
            Settled(messages, SourcesOf(hook, c, facts, out), now)
            != Settled(messages, SourcesOf(hook, d, facts, out), later)
  {
    hide Attached, FrameId, LastHuman, Faithful, FrameRows, DistinctIds, StepsFor, IsOvertaken, IsRefiled, SourcesOf,
         MapStreamToChatMessages;
    assert messages + [] == messages && rows + [] == rows;
    SettledWithCaptures(messages, [], rows, [], turns, turns, hook, facts, c, d, now, later);
  }

  lemma EndsInQuestion(messages: seq<Frame>)
    requires messages != [] && IsHuman(messages[|messages| - 1])
    ensures LastHuman(messages, |messages|) == |messages| - 1
    ensures LastOther(messages, |messages|) < |messages| - 1
  {
  }

  lemma SilentFinishRefiles(messages: seq<Frame>, out: map<string, Answer>, hook: Hook, facts: seq<Clarifications.Fact>,
                            c: Captures, trace: Trace, answer: Answer, later: Moment)
    requires messages != [] && IsHuman(messages[|messages| - 1])
    requires var k := LastOther(messages, |messages|);
             && k >= 0 && IsAi(messages[k])
             && (IsNullish(messages[k].governed) || hook.parse(messages[k].governed).None?)
             && AnswerFor(c, out)(FrameId(messages, k)) != Some(answer)
    ensures var k := LastOther(messages, |messages|);
            var d := OnFinish(c, Finish(messages, trace, Some(answer)));
            var second := SourcesOf(hook, d, facts, out);
            && IsRefiled(messages, k, hook, facts, out, c, d)
            && RowAt(messages, second, later, k) == Some(Card(FrameId(messages, k), answer, second))
  {
    hide FrameId, LastHuman, RowAt, StepsFor, IsTurnFinalAi, LastOther, IsHuman, IsAi, IsInternal, IsNullish;
    var k, f := LastOther(messages, |messages|), Finish(messages, trace, Some(answer));
    EndsInQuestion(messages);
    FiledOnCard(f);
    FinalIsAi(messages, k);
    RowIsHistory(messages, SourcesOf(hook, OnFinish(c, f), facts, out), later, k);
    assert FiledAt(f) == k;
  }

  /** The shortest such conversation, with nothing recorded yet: a question, its answer, and a question that
      is declined. The first card, captured when its turn finished, turns into the decline. */
  lemma DeclineOverwrites(question: Frame, reply: Frame, next: Frame, answer: Answer, decline: Answer, hook: Hook,
                          now: Moment, later: Moment)
    requires IsHuman(question) && IsAi(reply) && IsHuman(next) && DistinctIds([question, reply, next])
    requires IsNullish(reply.governed) && answer != decline
    ensures var messages := [question, reply, next];
            var c := OnFinish(Captures(map[], map[]), Finish([question, reply], [], Some(answer)));
            var d := OnFinish(c, Finish(messages, [], Some(decline)));
            var first, second := SourcesOf(hook, c, [], map[]), SourcesOf(hook, d, [], map[]);
            && Attached(messages, [], hook.parse) == map[]
            && RowAt(messages, first, now, 1) == Some(Card(FrameId(messages, 1), answer, first))
            && RowAt(messages, second, later, 1) == Some(Card(FrameId(messages, 1), decline, second))
            && Settled(messages, first, now) != Settled(messages, second, later)
  {
    hide IsNullish, StepsFor, Settled, RowAt, LastHuman, DistinctIds;
    var messages := [question, reply, next];
    var opening := Finish([question, reply], [], Some(answer));
    var c := OnFinish(Captures(map[], map[]), opening);
    KindsDiffer(reply);
    assert FiledAt(opening) == 1 && FrameId([question, reply], 1) == FrameId(messages, 1);
    assert LastOther(messages, 3) == 1;
    NothingRecorded();
    assert Attached(messages, [], hook.parse) == map[];
    SilentFinishOverwrites(messages, [], [], hook, [], c, [], decline, now, later);
    ShowsCapture(messages, 1, hook, c, now);
  }

  lemma NothingRecorded()
    ensures Faithful([], [])
  {
  }

  /** A captured answer is what an unstamped settled answer frame shows, whatever the cursor has. */
  lemma ShowsCapture(messages: seq<Frame>, i: nat, hook: Hook, c: Captures, now: Moment)
    requires i < LastHuman(messages, |messages|) && IsTurnFinalAi(messages, i)
    requires FrameId(messages, i) in c.answers && IsNullish(messages[i].governed)
    ensures forall facts, out ::
      var src := SourcesOf(hook, c, facts, out);
      RowAt(messages, src, now, i) == Some(Card(FrameId(messages, i), c.answers[FrameId(messages, i)], src))
  {
    hide RowAt, FrameId, IsTurnFinalAi, LastHuman;
    forall facts, out
      ensures var src := SourcesOf(hook, c, facts, out);
              RowAt(messages, src, now, i) == Some(Card(FrameId(messages, i), c.answers[FrameId(messages, i)], src))
    {
      FinalIsAi(messages, i);
      RowIsHistory(messages, SourcesOf(hook, c, facts, out), now, i);
    }
  }

  /** A question, its answer and the next question, with the first record to come: with nothing captured the
      settled transcript changes, with the answer captured it does not. */
  lemma LateRecordOvertakes(question: Frame, reply: Frame, next: Frame, row: Json.Value, hook: Hook, c: Captures,
                            facts: seq<Clarifications.Fact>, now: Moment, later: Moment)
    requires IsHuman(question) && IsAi(reply) && IsHuman(next) && DistinctIds([question, reply, next])
    requires IsNullish(reply.governed)
    requires ReadRow(row).Some? && ReadRow(row).value.stated.None? && hook.parse(Envelope(ReadRow(row).value)).Some?
    ensures var messages := [question, reply, next];
            var first := SourcesOf(hook, c, facts, Attached(messages, [], hook.parse));
            var second := SourcesOf(hook, c, facts, Attached(messages, [row], hook.parse));
            Settled(messages, first, now) == Settled(messages, second, later) <==> FrameId(messages, 1) in c.answers
  {
    hide ReadRow, Envelope, IsNullish, StepsFor, Attached, FrameRows, FrameId, Faithful, DistinctIds;
    var messages := [question, reply, next];
    LateRow(question, reply, next, row, hook.parse);
    assert messages + [] == messages && [] + [row] == [row];
    SettledTurnsChange(messages, [], [], [row], [], [0], hook, facts, c, [], now, later);
    hide IsLateFor;
    assert !IsOvertaken(messages, 0, [row], [], [0], hook.parse, c);
    assert IsOvertaken(messages, 1, [row], [], [0], hook.parse, c) <==> FrameId(messages, 1) !in c.answers;
  }

  lemma LateRow(question: Frame, reply: Frame, next: Frame, row: Json.Value, parse: Parser)
    requires IsHuman(question) && IsAi(reply) && IsHuman(next)
    requires ReadRow(row).Some? && ReadRow(row).value.stated.None? && parse(Envelope(ReadRow(row).value)).Some?
    ensures var messages := [question, reply, next];
            && LastHuman(messages, 3) == 2 && Faithful([], []) && Faithful([row], [0])
            && IsLateFor(messages, 1, [row], [], [0], parse) && !IsLateFor(messages, 0, [row], [], [0], parse)
  {
    hide ReadRow, Envelope;
    var messages := [question, reply, next];
    KindsDiffer(next);
    KindsDiffer(question);
    assert [row][..0] == [] && RecordedRows([]) == [] && RecordedRows([row]) == [row];
    assert Asked(messages, 0) == 0 && Asked(messages, 1) == 1;
    assert AnswersTurn([row], [0], 0, 0, parse);
  }

  /** An answer of another turn's clarification never appears on a card: a resolved fact that no row of the
      card asks about changes nothing there. */
  lemma OtherFactsDoNotShow(hook: Hook, c: Captures, facts: seq<Clarifications.Fact>, fact: Clarifications.Fact,
                            id: string, answer: Answer)
    requires Clarifications.DistinctFacts(facts + [fact]) && fact.resolution.Some?
    requires Clarifications.FindAsk(TraceOf(c, id, hook.ledger(answer)), fact.id).None?
    ensures StepsFor(hook, c, facts + [fact])(id, answer) == StepsFor(hook, c, facts)(id, answer)
  {
    var rows := TraceOf(c, id, hook.ledger(answer));
    assert (facts + [fact])[..|facts|] == facts;
    Clarifications.FactsBefore(facts, fact);
    Clarifications.JoinAllProjects(rows, facts, hook.labels);
    var shown := Clarifications.JoinAll(rows, facts, hook.labels);
    Clarifications.FindAskInProjection(shown, rows, facts, fact, hook.labels);
  }

  /** Whose trace a card shows: the captured one if there is one, else that of the answer's ledger; none if
      there is neither. */
  lemma StepsShown(hook: Hook, c: Captures, facts: seq<Clarifications.Fact>, id: string, answer: Answer)
    ensures id in c.traces && c.traces[id] != [] ==>
              StepsFor(hook, c, facts)(id, answer) == Some(Clarifications.JoinAll(c.traces[id], facts, hook.labels))
    ensures !(id in c.traces && c.traces[id] != []) && hook.ledger(answer) != [] ==>
              StepsFor(hook, c, facts)(id, answer)
              == Some(Clarifications.JoinAll(hook.ledger(answer), facts, hook.labels))
    ensures !(id in c.traces && c.traces[id] != []) && hook.ledger(answer) == [] ==>
              StepsFor(hook, c, facts)(id, answer) == None
  {
    var rows := TraceOf(c, id, hook.ledger(answer));
    assert StepsFor(hook, c, facts)(id, answer)
        == if rows == [] then None else Some(Clarifications.JoinAll(rows, facts, hook.labels));
  }

  /** Whose answer: the captured one first, then the record's. */
  lemma AnswerShown(c: Captures, out: map<string, Answer>, id: string)
    ensures id in c.answers ==> AnswerFor(c, out)(id) == Some(c.answers[id])
    ensures id !in c.answers && id in out ==> AnswerFor(c, out)(id) == Some(out[id])
    ensures id !in c.answers && id !in out ==> AnswerFor(c, out)(id) == None
  {
  }
}
