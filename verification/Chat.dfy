/** The chat cockpit of `ui/hooks/use-chat.ts`: one turn at a time, a timer that replays it, and a
    clarification that can suspend it. */
module Chat {
  import opened Text
  import opened Steps
  import Json

  datatype Choice = Choice(id: string, caption: string)

  datatype ClarificationRequest = ClarificationRequest(id: string, question: string, why: string, choices: seq<Choice>)

  datatype ClarificationResponse = Answered(answer: string) | Chosen(choiceId: string) | Declined | Deferred

  datatype Answer = Answer(view: Json.Value)

  /** The scripted engine: question patterns, answers, the replayed events and the question it may ask.
      Any script will do for what follows. */
  datatype Script = Script(refuses: string -> bool, grades: string -> bool, reasons: string -> bool,
                           asks: string -> bool, events: seq<GovEvent>, refusal: Answer, gradedAnswer: Answer,
                           agentAnswer: Answer, plainAnswer: Answer, clarifiedAnswer: Answer,
                           request: ClarificationRequest, labels: Labeler)
  {
    predicate IsClarifyQuestion(q: string) {
      asks(q) && !refuses(q)
    }

    function AnswerFor(q: string): Answer {
      if refuses(q) then refusal
      else if grades(q) then gradedAnswer
      else if reasons(q) && !refuses(q) then agentAnswer
      else plainAnswer
    }
  }

  datatype Message =
    | User(id: nat, text: string)
    | Assistant(id: nat, answer: Answer, trace: seq<TimelineStep>)

  /** The closure of a running interval. */
  datatype Timer =
    | Asking(acc: seq<TimelineStep>, i: nat)
    | Serving(question: string, acc: seq<TimelineStep>, i: nat)

  datatype State = State(messages: seq<Message>, isRunning: bool, steps: seq<TimelineStep>,
                         clarification: Option<ClarificationRequest>, timer: Option<Timer>,
                         clarifySteps: seq<TimelineStep>, idCounter: nat)

  function Initial(): State {
    State([], false, [], None, None, [], 0)
  }

  const CALL := "ask_user:call_1"

  /** The agent steps played before the interrupt. */
  function Preamble(script: Script): seq<GovEvent> {
    [ GovEvent(1, Some("accept:mock"), Rail, "accept", Done(Ok), None, Some(map["turn_index" := Json.Number(1.0)])),
      GovEvent(2, Some("assemble:mock"), Rail, "assemble", Done(Ok), None, Some(map["n_chars" := Json.Number(4820.0)])),
      GovEvent(3, Some("agent_core:mock"), Rail, "agent_core", Start, None, None),
      GovEvent(4, Some(CALL), Tool, "ask_user", Start, None,
               Some(map["clarification_id" := Json.Str(script.request.id)])) ]
  }

  function CaptionOf(choices: seq<Choice>, id: string): string {
    if choices == [] then id else if choices[0].id == id then choices[0].caption else CaptionOf(choices[1..], id)
  }

  /** The event that settles the question row. */
  function Resolution(request: ClarificationRequest, response: ClarificationResponse): GovEvent {
    var outcome: Detail :=
      match response
      case Declined => map["declined" := Json.Bool(true)]
      case Answered(a) => map["answer" := Json.Str(a)]
      case Chosen(id) => map["answer" := Json.Str(CaptionOf(request.choices, id))]
      case Deferred => map["answer" := Json.Undefined];
    GovEvent(5, Some(CALL), Tool, "ask_user", if response.Declined? then Done(Verdict.Declined) else Done(Ok), None,
             Some(map["clarification_id" := Json.Str(request.id), "question" := Json.Str(request.question),
                      "why" := Json.Str(request.why)] + outcome))
  }

  // ---- one operation at a time -----------------------------------------------------------

  function Resolve(s: State, answer: Answer, trace: seq<TimelineStep>): State {
    s.(timer := None, messages := s.messages + [Assistant(s.idCounter + 1, answer, trace)],
       idCounter := s.idCounter + 1, isRunning := false)
  }

  function Send(script: Script, s: State, question: string): State {
    var trimmed := JsSpace.Trim(question);
    if trimmed == "" || s.isRunning then s
    else
      s.(messages := s.messages + [User(s.idCounter + 1, trimmed)], idCounter := s.idCounter + 1,
         isRunning := true, steps := [], clarification := None,
         timer := Some(if script.IsClarifyQuestion(trimmed) then Asking([], 0) else Serving(trimmed, [], 0)))
  }

  function Tick(script: Script, s: State): State {
    match s.timer
    case None => s
    case Some(Asking(acc, i)) =>
      if i < |Preamble(script)| then
        var acc' := ReduceSteps(acc, Preamble(script)[i], script.labels);
        s.(steps := acc', timer := Some(Asking(acc', i + 1)))
      else s.(timer := None, clarifySteps := acc, clarification := Some(script.request))
    case Some(Serving(question, acc, i)) =>
      if i < |script.events| then
        var acc' := ReduceSteps(acc, script.events[i], script.labels);
        s.(steps := acc', timer := Some(Serving(question, acc', i + 1)))
      else Resolve(s, script.AnswerFor(question), acc)
  }

  function Respond(script: Script, s: State, response: ClarificationResponse): State {
    if s.clarification.None? then s
    else
      var trace := ReduceSteps(s.clarifySteps, Resolution(s.clarification.value, response), script.labels);
      Resolve(s.(steps := trace, clarification := None),
              if response.Declined? then script.refusal else script.clarifiedAnswer, trace)
  }

  function Stop(s: State): State {
    s.(timer := None, isRunning := false, steps := [], clarification := None)
  }

  function Reset(s: State): State {
    s.(timer := None, messages := [], isRunning := false, steps := [], clarification := None)
  }

  /** The state cells and refs of the hook. Handlers see the state of the latest render. */
  class ChatHook {
    const script: Script
    var messages: seq<Message>
    var isRunning: bool
    var steps: seq<TimelineStep>
    var clarification: Option<ClarificationRequest>
    var timer: Option<Timer>
    var clarifySteps: seq<TimelineStep>
    var idCounter: nat

    function Cells(): State
      reads this
    {
      State(messages, isRunning, steps, clarification, timer, clarifySteps, idCounter)
    }

    constructor (script: Script)
      ensures Cells() == Initial() && this.script == script
    {
      this.script := script;
      messages, isRunning, steps, clarification := [], false, [], None;
      timer, clarifySteps, idCounter := None, [], 0;
    }

    method DoResolve(answer: Answer, trace: seq<TimelineStep>)
      modifies this
      ensures Cells() == Resolve(old(Cells()), answer, trace)
    {
      timer := None;
      idCounter := idCounter + 1;
      messages := messages + [Assistant(idCounter, answer, trace)];
      isRunning := false;
    }

    method DoSend(question: string)
      modifies this
      ensures Cells() == Send(script, old(Cells()), question)
    {
      var trimmed := JsSpace.Trim(question);
      if trimmed == "" || isRunning {
        return;
      }
      idCounter := idCounter + 1;
      messages := messages + [User(idCounter, trimmed)];
      isRunning := true;
      steps := [];
      clarification := None;
      timer := None;
      if script.IsClarifyQuestion(trimmed) {
        timer := Some(Asking([], 0));
        return;
      }
      timer := Some(Serving(trimmed, [], 0));
    }

    /** The interval fires; a cleared interval never does. */
    method DoTick()
      modifies this
      ensures Cells() == Tick(script, old(Cells()))
    {
      match timer
      case None =>
      case Some(Asking(acc, i)) =>
        if i < |Preamble(script)| {
          steps := ReduceSteps(acc, Preamble(script)[i], script.labels);
          timer := Some(Asking(steps, i + 1));
        } else {
          timer := None;
          clarifySteps := acc;
          clarification := Some(script.request);
        }
      case Some(Serving(question, acc, i)) =>
        if i < |script.events| {
          steps := ReduceSteps(acc, script.events[i], script.labels);
          timer := Some(Serving(question, steps, i + 1));
        } else {
          DoResolve(script.AnswerFor(question), acc);
        }
    }

    method DoRespond(response: ClarificationResponse)
      modifies this
      ensures Cells() == Respond(script, old(Cells()), response)
    {
      if clarification.None? {
        return;
      }
      var trace := ReduceSteps(clarifySteps, Resolution(clarification.value, response), script.labels);
      steps := trace;
      clarification := None;
      DoResolve(if response.Declined? then script.refusal else script.clarifiedAnswer, trace);
    }

    method DoStop()
      modifies this
      ensures Cells() == Stop(old(Cells()))
    {
      timer := None;
      isRunning := false;
      steps := [];
      clarification := None;
    }

    method DoReset()
      modifies this
      ensures Cells() == Reset(old(Cells()))
    {
      timer := None;
      messages := [];
      isRunning := false;
      steps := [];
      clarification := None;
    }
  }

  // ---- every reachable state -----------------------------------------------------------------

  datatype Command =
    | SendQuestion(question: string) | TimerFires | Reply(response: ClarificationResponse) | PressStop | PressReset

  function Perform(script: Script, s: State, c: Command): State {
    match c
    case SendQuestion(q) => Send(script, s, q)
    case TimerFires => Tick(script, s)
    case Reply(r) => Respond(script, s, r)
    case PressStop => Stop(s)
    case PressReset => Reset(s)
  }

  function RunAll(script: Script, s: State, cs: seq<Command>): State {
    if cs == [] then s else Perform(script, RunAll(script, s, cs[..|cs| - 1]), cs[|cs| - 1])
  }

  /** Every answer directly follows the question it answers, and ids never repeat. */
  ghost predicate WellShaped(messages: seq<Message>, idCounter: nat) {
    && (forall i :: 0 <= i < |messages| && messages[i].Assistant? ==> i > 0 && messages[i - 1].User?)
    && (forall i :: 0 <= i < |messages| ==> messages[i].id <= idCounter)
    && (forall i, j :: 0 <= i < j < |messages| ==> messages[i].id < messages[j].id)
  }

  /** The shown trace is the fold of the events played so far, and the paused turn holds on to it. */
  ghost predicate Replaying(script: Script, s: State) {
    match s.timer
    case None => s.clarification.Some? ==>
      && s.clarification == Some(script.request) && s.steps == s.clarifySteps
      && s.clarifySteps == Fold(Preamble(script), script.labels)
    case Some(Asking(acc, i)) =>
      i <= |Preamble(script)| && s.steps == acc == Fold(Preamble(script)[..i], script.labels)
    case Some(Serving(q, acc, i)) =>
      i <= |script.events| && s.steps == acc == Fold(script.events[..i], script.labels)
  }

  ghost predicate Sound(script: Script, s: State) {
    && (s.isRunning <==> s.timer.Some? || s.clarification.Some?)
    && !(s.timer.Some? && s.clarification.Some?)
    && (s.isRunning ==> s.messages != [] && s.messages[|s.messages| - 1].User?)
    && WellShaped(s.messages, s.idCounter)
    && Replaying(script, s)
  }

  lemma FoldsOn(events: seq<GovEvent>, i: nat, labels: Labeler)
    requires i < |events|
    ensures ReduceSteps(Fold(events[..i], labels), events[i], labels) == Fold(events[..i + 1], labels)
  {
    assert events[..i + 1][..i] == events[..i];
  }

  lemma TickStaysSound(script: Script, s: State)
    requires Sound(script, s)
    ensures Sound(script, Tick(script, s))
  {
    hide ReduceSteps, Fold, Preamble;
    match s.timer
    case None =>
    case Some(Asking(acc, i)) =>
      if i < |Preamble(script)| {
        FoldsOn(Preamble(script), i, script.labels);
      } else {
        assert Preamble(script)[..i] == Preamble(script);
      }
    case Some(Serving(q, acc, i)) =>
      if i < |script.events| {
        FoldsOn(script.events, i, script.labels);
      }
  }

  lemma SendStaysSound(script: Script, s: State, question: string)
    requires Sound(script, s)
    ensures Sound(script, Send(script, s, question))
  {
    hide Preamble;
  }

  /** Each operation keeps: running exactly while one of timer and prompt is live, idle with neither; at
      most one answer per question, right after it; and a trace that is the fold of what was played. */
  lemma PerformStaysSound(script: Script, s: State, c: Command)
    requires Sound(script, s)
    ensures Sound(script, Perform(script, s, c))
  {
    hide ReduceSteps, Fold, Preamble, Tick, Send;
    match c
    case SendQuestion(q) => SendStaysSound(script, s, q);
    case TimerFires => TickStaysSound(script, s);
    case Reply(r) =>
    case PressStop =>
    case PressReset =>
  }

  lemma {:induction false} EveryRunIsSound(script: Script, cs: seq<Command>)
    ensures Sound(script, RunAll(script, Initial(), cs))
  {
    hide Perform, Preamble;
    if cs != [] {
      EveryRunIsSound(script, cs[..|cs| - 1]);
      PerformStaysSound(script, RunAll(script, Initial(), cs[..|cs| - 1]), cs[|cs| - 1]);
    }
  }

  /** Only a reset ever removes or changes a message. */
  lemma TranscriptOnlyGrows(script: Script, s: State, c: Command)
    requires c != PressReset
    ensures s.messages <= Perform(script, s, c).messages
  {
  }

  // ---- a turn runs to its end -------------------------------------------------------------

  function Ticks(script: Script, s: State, n: nat): State {
    if n == 0 then s else Tick(script, Ticks(script, s, n - 1))
  }

  lemma {:induction false} ServingTicks(script: Script, s: State, question: string, n: nat)
    requires s.timer == Some(Serving(question, [], 0)) && n <= |script.events|
    ensures Ticks(script, s, n) ==
            s.(timer := Some(Serving(question, Fold(script.events[..n], script.labels), n)),
               steps := if n == 0 then s.steps else Fold(script.events[..n], script.labels))
  {
    hide ReduceSteps, Fold;
    if n == 0 {
      FoldNothing(script.labels);
    } else {
      ServingTicks(script, s, question, n - 1);
      FoldsOn(script.events, n - 1, script.labels);
    }
  }

  lemma FoldNothing(labels: Labeler)
    ensures Fold([], labels) == []
  {
  }

  /** A question that asks nothing back is answered after one tick per scripted event and one more, and
      its card carries the fold of the whole script. */
  lemma QuestionIsAnswered(script: Script, s: State, question: string)
    requires Sound(script, s) && !s.isRunning && JsSpace.Trim(question) != ""
    requires !script.IsClarifyQuestion(JsSpace.Trim(question))
    ensures var q := JsSpace.Trim(question);
            var done := Ticks(script, Send(script, s, question), |script.events| + 1);
            && !done.isRunning && done.timer.None? && done.clarification.None?
            && done.messages == s.messages + [User(s.idCounter + 1, q),
                 Assistant(s.idCounter + 2, script.AnswerFor(q), Fold(script.events, script.labels))]
  {
    hide ReduceSteps, Fold;
    var sent := Send(script, s, question);
    ServingTicks(script, sent, JsSpace.Trim(question), |script.events|);
    assert script.events[..|script.events|] == script.events;
  }

  lemma {:induction false} AskingTicks(script: Script, s: State, n: nat)
    requires s.timer == Some(Asking([], 0)) && n <= |Preamble(script)|
    ensures Ticks(script, s, n) ==
            s.(timer := Some(Asking(Fold(Preamble(script)[..n], script.labels), n)),
               steps := if n == 0 then s.steps else Fold(Preamble(script)[..n], script.labels))
  {
    hide ReduceSteps, Fold, Preamble;
    if n == 0 {
      FoldNothing(script.labels);
    } else {
      AskingTicks(script, s, n - 1);
      FoldsOn(Preamble(script), n - 1, script.labels);
    }
  }

  /** The turn that asks: after its preamble it holds, however many ticks go by. */
  lemma QuestionIsHeld(script: Script, s: State, question: string, extra: nat)
    requires Sound(script, s) && !s.isRunning && JsSpace.Trim(question) != ""
    requires script.IsClarifyQuestion(JsSpace.Trim(question))
    ensures var held := Ticks(script, Send(script, s, question), |Preamble(script)| + 1 + extra);
            && held.isRunning && held.timer.None? && held.clarification == Some(script.request)
            && held.clarifySteps == Fold(Preamble(script), script.labels)
            && held.messages == s.messages + [User(s.idCounter + 1, JsSpace.Trim(question))]
            && held.idCounter == s.idCounter + 1
  {
    hide ReduceSteps, Fold, Preamble;
    var sent, n := Send(script, s, question), |Preamble(script)|;
    AskingTicks(script, sent, n);
    assert Preamble(script)[..n] == Preamble(script);
    SuspendedTicks(script, Ticks(script, sent, n + 1), extra);
    TicksAdd(script, sent, n + 1, extra);
  }

  /** A suspended turn: no tick moves it, and the reply ends it with one answer, a refusal exactly when
      the user declined. */
  lemma ClarificationIsAnswered(script: Script, s: State, question: string, extra: nat, response: ClarificationResponse)
    requires Sound(script, s) && !s.isRunning && JsSpace.Trim(question) != ""
    requires script.IsClarifyQuestion(JsSpace.Trim(question))
    ensures var held := Ticks(script, Send(script, s, question), |Preamble(script)| + 1 + extra);
            var done := Respond(script, held, response);
            && held.isRunning && held.timer.None? && held.clarification == Some(script.request)
            && !done.isRunning && done.timer.None? && done.clarification.None?
            && done.messages == s.messages + [User(s.idCounter + 1, JsSpace.Trim(question)),
                 Assistant(s.idCounter + 2, if response.Declined? then script.refusal else script.clarifiedAnswer,
                           Fold(Preamble(script) + [Resolution(script.request, response)], script.labels))]
  {
    hide ReduceSteps, Fold, Preamble, Resolution, Ticks, Send, Sound;
    QuestionIsHeld(script, s, question, extra);
    var n, all := |Preamble(script)|, Preamble(script) + [Resolution(script.request, response)];
    FoldsOn(all, n, script.labels);
    assert all[..n] == Preamble(script) && all[..n + 1] == all;
  }

  lemma {:induction false} SuspendedTicks(script: Script, s: State, n: nat)
    requires s.timer.None?
    ensures Ticks(script, s, n) == s
  {
    if n > 0 {
      SuspendedTicks(script, s, n - 1);
    }
  }

  lemma {:induction false} TicksAdd(script: Script, s: State, m: nat, n: nat)
    ensures Ticks(script, s, m + n) == Ticks(script, Ticks(script, s, m), n)
  {
    hide Tick;
    if n > 0 {
      TicksAdd(script, s, m, n - 1);
    }
  }

  lemma PreambleKeys(script: Script)
    ensures Arrivals(Preamble(script)) == ["accept:mock", "assemble:mock", "agent_core:mock", CALL]
  {
    hide Preamble, KeyOf, Arrivals;
    var p := Preamble(script);
    PreambleEvents(script);
    KeysDiffer();
    assert p[..0] == [] && p[..4] == p;
    NewKey(p, 0);
    NewKey(p, 1);
    NewKey(p, 2);
    NewKey(p, 3);
  }

  lemma PreambleEvents(script: Script)
    ensures var p := Preamble(script);
            && |p| == 4 && KeyOf(p[0]) == "accept:mock" && KeyOf(p[1]) == "assemble:mock"
            && KeyOf(p[2]) == "agent_core:mock" && KeyOf(p[3]) == CALL
    ensures Arrivals([]) == []
  {
  }

  lemma KeysDiffer()
    ensures "accept:mock" != "assemble:mock" && "accept:mock" != "agent_core:mock" && "accept:mock" != CALL
    ensures "assemble:mock" != "agent_core:mock" && "assemble:mock" != CALL && "agent_core:mock" != CALL
  {
    assert "accept:mock"[1] == 'c' && "assemble:mock"[1] == 's' && "agent_core:mock"[1] == 'g';
    assert CALL[1] == 's' && "assemble:mock"[2] == 's' && CALL[2] == 'k';
  }

  lemma NewKey(events: seq<GovEvent>, n: nat)
    requires n < |events| && KeyOf(events[n]) !in Arrivals(events[..n])
    ensures Arrivals(events[..n + 1]) == Arrivals(events[..n]) + [KeyOf(events[n])]
  {
    assert events[..n + 1][..n] == events[..n];
  }

  /** The reply settles the question row that is already there: four rows before, four rows after, and
      the row shows the question and how it ended. */
  lemma ReplySettlesTheQuestion(script: Script, response: ClarificationResponse)
    ensures var trace := Fold(Preamble(script) + [Resolution(script.request, response)], script.labels);
            && |trace| == 4 && trace[3].key == CALL
            && trace[3].status == Settled(if response.Declined? then Verdict.Declined else Ok)
            && "question" in trace[3].detail && trace[3].detail["question"] == Json.Str(script.request.question)
  {
    hide Fold, Own, Preamble;
    var p, ev := Preamble(script), Resolution(script.request, response);
    PreambleKeys(script);
    assert (p + [ev])[..|p + [ev]| - 1] == p;
    assert Arrivals(p + [ev]) == Arrivals(p);
    FoldIsTimeline(p + [ev], script.labels);
    OwnSnoc(p, ev, CALL);
    TimelineRows(Fold(p + [ev], script.labels), p + [ev], script.labels);
  }

  // ---- what the script says ------------------------------------------------------------------

  /** A refused question is never asked back and gets the refusal; then a graded one its answer, then one that
      reasons, then any other; and only a question that asks is asked back. */
  lemma ScriptAnswers(script: Script, q: string)
    ensures script.refuses(q) ==> !script.IsClarifyQuestion(q) && script.AnswerFor(q) == script.refusal
    ensures !script.refuses(q) && script.grades(q) ==> script.AnswerFor(q) == script.gradedAnswer
    ensures !script.refuses(q) && !script.grades(q) && script.reasons(q) ==> script.AnswerFor(q) == script.agentAnswer
    ensures !script.refuses(q) && !script.grades(q) && !script.reasons(q) ==> script.AnswerFor(q) == script.plainAnswer
    ensures script.IsClarifyQuestion(q) ==> script.asks(q)
    ensures script.asks(q) && !script.refuses(q) ==> script.IsClarifyQuestion(q)
  {
  }

  /** After a reset nothing is left of the conversation but the counter of its ids; after a stop, the
      transcript too. */
  lemma ResetEmpties(s: State)
    ensures Reset(s).messages == [] && Reset(s).idCounter == s.idCounter
    ensures Stop(s).messages == s.messages && Stop(s).idCounter == s.idCounter
    ensures forall r :: r in [Reset(s), Stop(s)] ==>
              !r.isRunning && r.steps == [] && r.timer.None? && r.clarification.None?
  {
  }

  /** The caption of the first choice of that id; a reply to no choice stands for itself. */
  lemma {:induction false} CaptionIs(choices: seq<Choice>, id: string)
    ensures (forall i :: 0 <= i < |choices| ==> choices[i].id != id) ==> CaptionOf(choices, id) == id
    ensures forall i :: 0 <= i < |choices| && choices[i].id == id && (forall j :: 0 <= j < i ==> choices[j].id != id)
              ==> CaptionOf(choices, id) == choices[i].caption
  {
    if choices != [] && choices[0].id != id {
      CaptionIs(choices[1..], id);
      forall i | 0 <= i < |choices| && choices[i].id == id && forall j :: 0 <= j < i ==> choices[j].id != id
        ensures CaptionOf(choices, id) == choices[i].caption
      {
        assert choices[1..][i - 1] == choices[i];
        assert forall j :: 0 <= j < i - 1 ==> choices[1..][j] == choices[j + 1];
      }
    }
  }

  /** What the trace of an answered clarification shows: three rails, the last of them still running, and the
      question with the reply to it. */
  lemma ReplyShows(script: Script, response: ClarificationResponse)
    ensures var trace := Fold(Preamble(script) + [Resolution(script.request, response)], script.labels);
            && |trace| == 4
            && trace[0].step == "accept" && trace[0].kind == Rail && trace[0].status == Settled(Ok)
            && trace[1].step == "assemble" && trace[1].kind == Rail && trace[1].status == Settled(Ok)
            && trace[2].step == "agent_core" && trace[2].kind == Rail && trace[2].status == Running
            && trace[3].step == "ask_user" && trace[3].kind == Tool
            && (response.Declined? <==> trace[3].status == Settled(Verdict.Declined))
            && (!response.Declined? <==> trace[3].status == Settled(Ok))
            && ShowsReply(trace[3].detail, script.request, response)
  {
    ReplySettlesTheQuestion(script, response);
    var ev := Resolution(script.request, response);
    var events := Preamble(script) + [ev];
    assert Arrivals(events) == ["accept:mock", "assemble:mock", "agent_core:mock", CALL] by {
      PreambleKeys(script);
      assert events[..|events| - 1] == Preamble(script);
    }
    ReplyLasts(script, response);
    RowSays(events, script.labels, 0, 0);
    RowSays(events, script.labels, 1, 1);
    RowSays(events, script.labels, 2, 2);
    RowSays(events, script.labels, 3, 4);
    var row := Fold(events, script.labels)[3];
    hide Fold, Arrivals, IsLast;
    ReplyDetail(script, response, row.detail);
  }

  lemma ReplyLasts(script: Script, response: ClarificationResponse)
    ensures var events := Preamble(script) + [Resolution(script.request, response)];
            && IsLast(events, "accept:mock", 0) && IsLast(events, "assemble:mock", 1)
            && IsLast(events, "agent_core:mock", 2) && IsLast(events, CALL, 4)
  {
    KeysDiffer();
    PreambleEvents(script);
    var events := Preamble(script) + [Resolution(script.request, response)];
    assert KeyOf(events[4]) == CALL;
  }

  /** The detail tells the question and the reply. */
  predicate ShowsReply(detail: Detail, request: ClarificationRequest, response: ClarificationResponse) {
    && "clarification_id" in detail && detail["clarification_id"] == Json.Str(request.id)
    && "question" in detail && detail["question"] == Json.Str(request.question)
    && "why" in detail && detail["why"] == Json.Str(request.why)
    && (response.Declined? ==> "declined" in detail && detail["declined"] == Json.Bool(true) && "answer" !in detail)
    && (!response.Declined? ==> "declined" !in detail && "answer" in detail)
    && (response.Answered? ==> detail["answer"] == Json.Str(response.answer))
    && (response.Chosen? ==> detail["answer"] == Json.Str(CaptionOf(request.choices, response.choiceId)))
  }

  lemma ResolutionSays(request: ClarificationRequest, response: ClarificationResponse)
    ensures var ev := Resolution(request, response);
            && ev.detail.Some? && ShowsReply(ev.detail.value, request, response)
            && "clarification_id" in ev.detail.value
  {
    hide CaptionOf;
  }

  lemma ReplyDetail(script: Script, response: ClarificationResponse, detail: Detail)
    requires forall p :: IsSaid(Preamble(script) + [Resolution(script.request, response)], CALL, detail, p)
    ensures ShowsReply(detail, script.request, response)
  {
    var ev := Resolution(script.request, response);
    var events := Preamble(script) + [ev];
    ResolutionSays(script.request, response);
    assert |events| == 5 && KeyOf(events[4]) == CALL && events[4] == ev;
    assert forall j :: 0 <= j < 4 && KeyOf(events[j]) == CALL && events[j].detail.Some? ==>
                       events[j].detail.value.Keys == {"clarification_id"} by {
      AskCarriesItsId(script);
    }
    forall p ensures p in ev.detail.value ==> p in detail && detail[p] == ev.detail.value[p]
      ensures p !in ev.detail.value ==> p !in detail
    {
      hide Resolution, Preamble, KeyOf;
      SaidByLast(events, CALL, detail, p);
    }
    hide Resolution, Preamble, KeyOf, CaptionOf, IsSaid;
    assert detail == ev.detail.value;
  }

  lemma AskCarriesItsId(script: Script)
    ensures var p := Preamble(script);
            && KeyOf(p[0]) != CALL && KeyOf(p[1]) != CALL && KeyOf(p[2]) != CALL
            && p[3].detail == Some(map["clarification_id" := Json.Str(script.request.id)])
  {
    KeysDiffer();
    PreambleEvents(script);
  }
}
