/** `turnFinalAiFrames` and `turnAnswersByMessageId`: which record belongs to which message. */
module TurnRecords {
  import opened Text
  import opened Transcript
  import Json

  datatype TurnFrame = TurnFrame(id: string, turn: int)

  /** Questions asked in the first `n` frames. */
  function Asked(messages: seq<Frame>, n: nat): nat
    requires n <= |messages|
  {
    if n == 0 then 0 else Asked(messages, n - 1) + (if IsHuman(messages[n - 1]) then 1 else 0)
  }

  /** The answer frames among the first `n`, each with the question it answers. */
  function FinalFrames(messages: seq<Frame>, n: nat): seq<TurnFrame>
    requires n <= |messages|
  {
    if n == 0 then []
    else FinalFrames(messages, n - 1)
         + (if IsTurnFinalAi(messages, n - 1)
            then [TurnFrame(FrameId(messages, n - 1), Asked(messages, n - 1) - 1)] else [])
  }

  method TurnFinalAiFrames(messages: seq<Frame>) returns (out: seq<TurnFrame>)
    ensures out == FinalFrames(messages, |messages|)
  {
    out := [];
    var asked := 0;
    for index := 0 to |messages|
      invariant out == FinalFrames(messages, index)
      invariant asked == Asked(messages, index)
    {
      if IsHuman(messages[index]) {
        asked := asked + 1;
        KindsDiffer(messages[index]);
      } else if IsTurnFinalAi(messages, index) {
        out := out + [TurnFrame(FrameId(messages, index), asked - 1)];
      }
    }
  }

  ghost predicate Rising(frames: seq<TurnFrame>) {
    forall i, j :: 0 <= i < j < |frames| ==> frames[i].turn < frames[j].turn
  }

  lemma {:induction false} AskedGrows(messages: seq<Frame>, i: nat, j: nat)
    requires i <= j <= |messages|
    ensures Asked(messages, i) <= Asked(messages, j)
    ensures (exists k :: i <= k < j && IsHuman(messages[k])) ==> Asked(messages, i) < Asked(messages, j)
    decreases j - i
  {
    hide IsHuman;
    if i < j {
      AskedGrows(messages, i, j - 1);
    }
  }

  /** Each tag so far belongs to an answer frame `i`, one question before its own count. */
  ghost predicate TagsFrame(messages: seq<Frame>, frame: TurnFrame, i: nat)
    requires i < |messages|
  {
    IsTurnFinalAi(messages, i) && frame == TurnFrame(FrameId(messages, i), Asked(messages, i) - 1)
  }

  lemma {:induction false} FramesAreTagged(messages: seq<Frame>, n: nat, f: TurnFrame)
    requires n <= |messages|
    ensures f in FinalFrames(messages, n) <==> exists i :: 0 <= i < n && TagsFrame(messages, f, i)
  {
    hide IsTurnFinalAi, FrameId;
    if n > 0 {
      FramesAreTagged(messages, n - 1, f);
      if TagsFrame(messages, f, n - 1) {
        assert exists i :: 0 <= i < n && TagsFrame(messages, f, i);
      }
    }
  }

  /** Tags rise strictly: a question lies between any two answer frames. */
  lemma {:induction false} TagsRise(messages: seq<Frame>, n: nat)
    requires n <= |messages|
    ensures Rising(FinalFrames(messages, n))
  {
    hide IsTurnFinalAi, FrameId;
    if n > 0 {
      TagsRise(messages, n - 1);
      if IsTurnFinalAi(messages, n - 1) {
        var before := FinalFrames(messages, n - 1);
        forall k | 0 <= k < |before| ensures before[k].turn < Asked(messages, n - 1) - 1 {
          FramesAreTagged(messages, n - 1, before[k]);
          var i :| 0 <= i < n - 1 && TagsFrame(messages, before[k], i);
          LaterAnswerIsLaterTurn(messages, i, n - 1);
        }
      }
    }
  }

  lemma LaterAnswerIsLaterTurn(messages: seq<Frame>, i: nat, j: nat)
    requires i < j < |messages| && IsTurnFinalAi(messages, i) && IsTurnFinalAi(messages, j)
    ensures Asked(messages, i) < Asked(messages, j)
  {
    TurnEndNeedsHuman(messages, i + 1, j);
    AskedGrows(messages, i, j);
  }

  // ---- rows of the `turns` channel --------------------------------------------------------

  /** `asMapping`: a plain object, or nothing. */
  function AsMapping(v: Json.Value): Option<map<string, Json.Value>> {
    if v.Object? then Some(v.fields) else None
  }

  function WholeNumber(v: Json.Value): Option<int> {
    if v.Number? && v.n == v.n.Floor as real then Some(v.n.Floor) else None
  }

  /** The first row of `usage` whose `turn_index` is a whole number from 1 up. */
  function FirstIndex(usage: seq<Json.Value>): (n: Option<int>)
    ensures n.Some? ==> n.value >= 1
  {
    if usage == [] then None
    else
      var row := AsMapping(usage[0]);
      var index := if row.Some? then WholeNumber(Json.At(row.value, "turn_index")) else None;
      if index.Some? && index.value >= 1 then index else FirstIndex(usage[1..])
  }

  /** The question number a record states, if it states one. */
  function StatedQuestionNumber(record: map<string, Json.Value>): (n: Option<int>)
    ensures n.Some? ==> n.value >= 1
  {
    var usage := Json.At(record, "usage");
    if usage.Array? then FirstIndex(usage.items) else None
  }

  /** An object whose `turn_index` is `n`, from 1 up. */
  predicate CarriesIndex(row: Json.Value, n: int) {
    row.Object? && "turn_index" in row.fields && row.fields["turn_index"] == Json.Number(n as real) && n >= 1
  }

  /** The first element of `usage` that carries a number carries `n`. */
  ghost predicate FirstCarries(usage: seq<Json.Value>, n: int) {
    exists i :: 0 <= i < |usage| && CarriesIndex(usage[i], n)
                && forall j, m :: 0 <= j < i ==> !CarriesIndex(usage[j], m)
  }

  ghost predicate UsageCarries(record: map<string, Json.Value>, n: int) {
    "usage" in record && record["usage"].Array? && FirstCarries(record["usage"].items, n)
  }

  lemma IndexIs(row: Json.Value, n: int)
    ensures var r := AsMapping(row);
            var index := if r.Some? then WholeNumber(Json.At(r.value, "turn_index")) else None;
            index == Some(n) && n >= 1 <==> CarriesIndex(row, n)
  {
  }

  lemma {:induction false} FirstIndexIs(usage: seq<Json.Value>, n: int)
    ensures FirstIndex(usage) == Some(n) <==> FirstCarries(usage, n)
  {
    if usage != [] {
      FirstIndexIs(usage[1..], n);
      assert usage == [usage[0]] + usage[1..];
      forall m ensures var r := AsMapping(usage[0]);
                       var index := if r.Some? then WholeNumber(Json.At(r.value, "turn_index")) else None;
                       index == Some(m) && m >= 1 <==> CarriesIndex(usage[0], m)
      {
        IndexIs(usage[0], m);
      }
      hide AsMapping, WholeNumber, CarriesIndex;
      if FirstCarries(usage[1..], n) && forall m :: !CarriesIndex(usage[0], m) {
        var i :| 0 <= i < |usage[1..]| && CarriesIndex(usage[1..][i], n)
                 && forall j, m :: 0 <= j < i ==> !CarriesIndex(usage[1..][j], m);
        assert CarriesIndex(usage[i + 1], n);
        forall j, m | 0 <= j < i + 1 ensures !CarriesIndex(usage[j], m) {
          if j > 0 { assert usage[j] == usage[1..][j - 1]; }
        }
      }
      if FirstCarries(usage, n) && forall m :: !CarriesIndex(usage[0], m) {
        var i :| 0 <= i < |usage| && CarriesIndex(usage[i], n)
                 && forall j, m :: 0 <= j < i ==> !CarriesIndex(usage[j], m);
        assert usage[1..][i - 1] == usage[i];
        forall j, m | 0 <= j < i - 1 ensures !CarriesIndex(usage[1..][j], m) {
          assert usage[1..][j] == usage[j + 1];
        }
      }
    }
  }

  /** Which number a record states, read off its fields; none exactly if no element of its usage carries one. */
  lemma StatedNumberIs(record: map<string, Json.Value>)
    ensures forall n :: StatedQuestionNumber(record) == Some(n) <==> UsageCarries(record, n)
    ensures StatedQuestionNumber(record).None? <==> forall n :: !UsageCarries(record, n)
  {
    hide FirstIndex, FirstCarries;
    forall n ensures StatedQuestionNumber(record) == Some(n) <==> UsageCarries(record, n) {
      if "usage" in record && record["usage"].Array? {
        FirstIndexIs(record["usage"].items, n);
      }
    }
    var stated := StatedQuestionNumber(record);
    if stated.Some? {
      assert UsageCarries(record, stated.value);
    }
  }

  /** A recorded turn: a row with a record that carries a turn id. */
  datatype Recorded = Recorded(turnId: string, stated: Option<int>, entry: map<string, Json.Value>,
                               record: map<string, Json.Value>)

  function ReadRow(row: Json.Value): Option<Recorded> {
    var entry := AsMapping(row);
    var record := if entry.Some? then AsMapping(Json.At(entry.value, "record")) else None;
    if record.None? then None
    else
      var id := Json.At(record.value, "turn_id");
      if id.Str? && id.s != "" then Some(Recorded(id.s, StatedQuestionNumber(record.value), entry.value, record.value))
      else None
  }

  /** What the row is parsed from; its text is system copy and stays null. */
  function Envelope(r: Recorded): Json.Value {
    var outcome, text := Json.At(r.entry, "outcome"), Json.At(r.entry, "answer_text");
    Json.Object(map["outcome" := if IsNullish(outcome) then Json.Str("answered") else outcome,
                    "text" := Json.Null,
                    "answer_text" := if text.Str? then text else Json.Null,
                    "record" := Json.Object(r.record)])
  }

  /** A row whose record has a turn id. */
  predicate HasTurnId(row: Json.Value) {
    && row.Object? && "record" in row.fields && row.fields["record"].Object?
    && var record := row.fields["record"].fields;
       "turn_id" in record && record["turn_id"].Str? && record["turn_id"].s != ""
  }

  /** Which rows are read, and as what. */
  lemma ReadRowIs(row: Json.Value)
    ensures ReadRow(row).Some? <==> HasTurnId(row)
    ensures HasTurnId(row) ==>
              var r, record := ReadRow(row).value, row.fields["record"].fields;
              && r.turnId == record["turn_id"].s && r.entry == row.fields && r.record == record
              && forall n :: r.stated == Some(n) <==> UsageCarries(record, n)
  {
    hide StatedQuestionNumber, UsageCarries;
    if HasTurnId(row) {
      StatedNumberIs(row.fields["record"].fields);
    }
  }

  /** What an answer is parsed from: four properties of the row, with the outcome `answered` where it has none
      and its text only where that is a string. */
  lemma EnvelopeIs(row: Json.Value)
    requires HasTurnId(row) && ReadRow(row).Some?
    ensures var v, entry := Envelope(ReadRow(row).value), row.fields;
            && v.Object? && v.fields.Keys == {"outcome", "text", "answer_text", "record"}
            && v.fields["text"] == Json.Null && v.fields["record"] == entry["record"]
            && ("outcome" in entry && entry["outcome"] != Json.Undefined && entry["outcome"] != Json.Null ==>
                  v.fields["outcome"] == entry["outcome"])
            && ("outcome" !in entry || entry["outcome"] == Json.Undefined || entry["outcome"] == Json.Null ==>
                  v.fields["outcome"] == Json.Str("answered"))
            && ("answer_text" in entry && entry["answer_text"].Str? ==> v.fields["answer_text"] == entry["answer_text"])
            && ("answer_text" !in entry || !entry["answer_text"].Str? ==> v.fields["answer_text"] == Json.Null)
  {
    ReadRowIs(row);
    hide ReadRow, UsageCarries;
  }

  datatype Cursor = Cursor(seen: set<string>, next: int, out: map<string, Answer>)

  function TurnOf(c: Cursor, r: Recorded): int {
    if r.stated.Some? then r.stated.value - 1 else c.next
  }

  function Attach(out: map<string, Answer>, frameOf: map<int, string>, turn: int, answer: Option<Answer>)
    : map<string, Answer>
  {
    if turn in frameOf && answer.Some? then out[frameOf[turn] := answer.value] else out
  }

  function Advance(c: Cursor, row: Json.Value, frameOf: map<int, string>, parse: Json.Value -> Option<Answer>): Cursor {
    var r := ReadRow(row);
    if r.None? || r.value.turnId in c.seen then c
    else
      var turn := TurnOf(c, r.value);
      Cursor(c.seen + {r.value.turnId}, turn + 1, Attach(c.out, frameOf, turn, parse(Envelope(r.value))))
  }

  function Run(rows: seq<Json.Value>, n: nat, frameOf: map<int, string>, parse: Json.Value -> Option<Answer>): Cursor
    requires n <= |rows|
  {
    if n == 0 then Cursor({}, 0, map[]) else Advance(Run(rows, n - 1, frameOf, parse), rows[n - 1], frameOf, parse)
  }

  /** `new Map` over the frames, later frames winning. */
  function FrameOfTurn(frames: seq<TurnFrame>): map<int, string> {
    if frames == [] then map[]
    else FrameOfTurn(frames[..|frames| - 1])[frames[|frames| - 1].turn := frames[|frames| - 1].id]
  }

  method IndexFrames(frames: seq<TurnFrame>) returns (frameOf: map<int, string>)
    ensures frameOf == FrameOfTurn(frames)
  {
    frameOf := map[];
    for k := 0 to |frames|
      invariant frameOf == FrameOfTurn(frames[..k])
    {
      assert frames[..k + 1][..k] == frames[..k];
      frameOf := frameOf[frames[k].turn := frames[k].id];
    }
    assert frames[..|frames|] == frames;
  }

  method TurnAnswersByMessageId(turns: Json.Value, messages: seq<Frame>, parse: Json.Value -> Option<Answer>)
    returns (out: map<string, Answer>)
    ensures out == if turns.Array?
                   then Run(turns.items, |turns.items|, FrameOfTurn(FinalFrames(messages, |messages|)), parse).out
                   else map[]
  {
    hide ReadRow, Envelope, FinalFrames, FrameOfTurn;
    out := map[];
    if !turns.Array? || turns.items == [] {
      return;
    }
    var rows := turns.items;
    var frames := TurnFinalAiFrames(messages);
    var frameOf := IndexFrames(frames);
    var seen: set<string> := {};
    var next := 0;
    for n := 0 to |rows|
      invariant Cursor(seen, next, out) == Run(rows, n, frameOf, parse)
    {
      var r := ReadRow(rows[n]);
      if r.Some? && r.value.turnId !in seen {
        seen := seen + {r.value.turnId};
        var turn := if r.value.stated.Some? then r.value.stated.value - 1 else next;
        next := turn + 1;
        if turn in frameOf {
          var answer := parse(Envelope(r.value));
          if answer.Some? {
            out := out[frameOf[turn] := answer.value];
          }
        }
      }
    }
  }

  // ---- rows that do not count -----------------------------------------------------------------

  /** The row is a recorded turn and none of these rows is the same one. */
  predicate Counts(before: seq<Json.Value>, row: Json.Value) {
    && ReadRow(row).Some?
    && forall b :: b in before && ReadRow(b).Some? ==> ReadRow(b).value.turnId != ReadRow(row).value.turnId
  }

  /** The rows that stand for a turn: no other rows, and each turn once. */
  function RecordedRows(rows: seq<Json.Value>): seq<Json.Value> {
    if rows == [] then []
    else
      var n := |rows| - 1;
      var before := RecordedRows(rows[..n]);
      if Counts(before, rows[n]) then before + [rows[n]] else before
  }

  lemma {:induction false} RecordedAreRecorded(rows: seq<Json.Value>)
    ensures AllRecorded(RecordedRows(rows))
  {
    hide ReadRow;
    if rows != [] {
      RecordedAreRecorded(rows[..|rows| - 1]);
    }
  }

  lemma {:induction false} RecordedGrow(rows: seq<Json.Value>, m: nat)
    requires m <= |rows|
    ensures RecordedRows(rows[..m]) <= RecordedRows(rows)
  {
    hide Counts;
    if m < |rows| {
      assert rows[..|rows| - 1][..m] == rows[..m];
      RecordedGrow(rows[..|rows| - 1], m);
    } else {
      assert rows[..m] == rows;
    }
  }

  lemma {:induction false} RunReadsPrefix(rows: seq<Json.Value>, m: nat, n: nat, frameOf: map<int, string>,
                                          parse: Json.Value -> Option<Answer>)
    requires n <= m <= |rows|
    ensures Run(rows, n, frameOf, parse) == Run(rows[..m], n, frameOf, parse)
  {
    hide Advance;
    if n > 0 {
      RunReadsPrefix(rows, m, n - 1, frameOf, parse);
    }
  }

  /** A row without a record or a turn id, and a turn that was there before, move neither the cursor nor
      the attachments: the run over all rows is the run over the recorded ones. */
  lemma {:induction false} SkippedRowsDoNotCount(rows: seq<Json.Value>, frameOf: map<int, string>,
                                                 parse: Json.Value -> Option<Answer>)
    ensures var recorded := RecordedRows(rows);
            && Run(rows, |rows|, frameOf, parse) == Run(recorded, |recorded|, frameOf, parse)
            && forall id :: id in Run(rows, |rows|, frameOf, parse).seen <==>
                            exists b :: b in recorded && ReadRow(b).Some? && ReadRow(b).value.turnId == id
  {
    hide ReadRow, Envelope, Attach;
    if rows != [] {
      var n := |rows| - 1;
      var recorded, before := RecordedRows(rows), RecordedRows(rows[..n]);
      SkippedRowsDoNotCount(rows[..n], frameOf, parse);
      RunReadsPrefix(rows, n, n, frameOf, parse);
      if Counts(before, rows[n]) {
        assert recorded[..|before|] == before;
        RunReadsPrefix(recorded, |before|, |before|, frameOf, parse);
        assert rows[n] in recorded;
      }
    }
  }

  // ---- records land on their own turn -------------------------------------------------------

  /** One row per recorded turn: all readable, all of different turns. */
  ghost predicate AllRecorded(rows: seq<Json.Value>) {
    && (forall k :: 0 <= k < |rows| ==> ReadRow(rows[k]).Some?)
    && (forall j, k :: 0 <= j < k < |rows| ==> ReadRow(rows[j]).value.turnId != ReadRow(rows[k]).value.turnId)
  }

  /** The true turns: rising, and never misstated. */
  ghost predicate Truthful(rows: seq<Json.Value>, turns: seq<nat>) {
    && |turns| == |rows| && AllRecorded(rows)
    && (forall j, k :: 0 <= j < k < |turns| ==> turns[j] < turns[k])
    && (forall k :: 0 <= k < |rows| && ReadRow(rows[k]).value.stated.Some? ==>
          ReadRow(rows[k]).value.stated.value == turns[k] + 1)
  }

  /** The turn the cursor gives row `k`. */
  function Assigned(rows: seq<Json.Value>, k: nat, frameOf: map<int, string>, parse: Json.Value -> Option<Answer>): int
    requires k < |rows| && ReadRow(rows[k]).Some?
  {
    TurnOf(Run(rows, k, frameOf, parse), ReadRow(rows[k]).value)
  }

  /** A row that states no number must come right after the previous row's turn. */
  predicate GapsStated(rows: seq<Json.Value>, turns: seq<nat>, n: nat)
    requires n <= |rows| == |turns|
  {
    forall k :: 0 <= k < n ==> StatedOrNext(rows, turns, k)
  }

  predicate StatedOrNext(rows: seq<Json.Value>, turns: seq<nat>, k: nat)
    requires k < |rows| == |turns|
  {
    ReadRow(rows[k]).Some? && ReadRow(rows[k]).value.stated.None? ==>
      turns[k] == if k == 0 then 0 else turns[k - 1] + 1
  }

  lemma {:induction false} SeenSoFar(rows: seq<Json.Value>, n: nat, frameOf: map<int, string>,
                                     parse: Json.Value -> Option<Answer>)
    requires n <= |rows| && AllRecorded(rows)
    ensures forall id :: id in Run(rows, n, frameOf, parse).seen ==>
              exists j :: 0 <= j < n && ReadRow(rows[j]).value.turnId == id
  {
    hide ReadRow;
    if n > 0 {
      SeenSoFar(rows, n - 1, frameOf, parse);
    }
  }

  lemma AdvancesOnEachRow(rows: seq<Json.Value>, n: nat, frameOf: map<int, string>, parse: Json.Value -> Option<Answer>)
    requires n < |rows| && AllRecorded(rows)
    ensures Run(rows, n + 1, frameOf, parse).next == Assigned(rows, n, frameOf, parse) + 1
    ensures Run(rows, n + 1, frameOf, parse).out ==
            Attach(Run(rows, n, frameOf, parse).out, frameOf, Assigned(rows, n, frameOf, parse),
                   parse(Envelope(ReadRow(rows[n]).value)))
  {
    hide ReadRow, Envelope, Attach;
    SeenSoFar(rows, n, frameOf, parse);
  }

  lemma {:induction false} CursorStepsThrough(rows: seq<Json.Value>, turns: seq<nat>, n: nat, frameOf: map<int, string>,
                                              parse: Json.Value -> Option<Answer>)
    requires Truthful(rows, turns) && n <= |rows|
    ensures (forall k :: 0 <= k < n ==> Assigned(rows, k, frameOf, parse) == turns[k]) <==> GapsStated(rows, turns, n)
  {
    hide ReadRow, Run, Assigned;
    if n > 0 {
      var k := n - 1;
      CursorStepsThrough(rows, turns, k, frameOf, parse);
      AssignedStep(rows, k, frameOf, parse);
      if k > 0 && (forall i :: 0 <= i < k ==> Assigned(rows, i, frameOf, parse) == turns[i]) {
        assert Assigned(rows, k - 1, frameOf, parse) == turns[k - 1];
      }
      assert GapsStated(rows, turns, n) <==> GapsStated(rows, turns, k) && StatedOrNext(rows, turns, k);
    }
  }

  lemma AssignedStep(rows: seq<Json.Value>, k: nat, frameOf: map<int, string>, parse: Json.Value -> Option<Answer>)
    requires k < |rows| && AllRecorded(rows)
    ensures Assigned(rows, k, frameOf, parse) ==
            var stated := ReadRow(rows[k]).value.stated;
            if stated.Some? then stated.value - 1
            else if k == 0 then 0 else Assigned(rows, k - 1, frameOf, parse) + 1
  {
    hide ReadRow;
    if k > 0 {
      AdvancesOnEachRow(rows, k - 1, frameOf, parse);
    }
  }

  /** Row `p` is the `Rank`-th recorded one. */
  predicate CountsAt(rows: seq<Json.Value>, p: nat)
    requires p < |rows|
  {
    Counts(RecordedRows(rows[..p]), rows[p])
  }

  function Rank(rows: seq<Json.Value>, p: nat): nat
    requires p < |rows|
  {
    |RecordedRows(rows[..p])|
  }

  lemma RankIs(rows: seq<Json.Value>, p: nat)
    requires p < |rows| && CountsAt(rows, p)
    ensures Rank(rows, p) < |RecordedRows(rows)| && RecordedRows(rows)[Rank(rows, p)] == rows[p]
    ensures RecordedRows(rows)[..Rank(rows, p)] == RecordedRows(rows[..p])
  {
    hide Counts;
    assert rows[..p + 1][..p] == rows[..p];
    assert RecordedRows(rows[..p + 1]) == RecordedRows(rows[..p]) + [rows[p]];
    RecordedGrow(rows, p + 1);
  }

  lemma {:induction false} RankFound(rows: seq<Json.Value>, k: nat) returns (p: nat)
    requires k < |RecordedRows(rows)|
    ensures p < |rows| && CountsAt(rows, p) && Rank(rows, p) == k
  {
    hide Counts;
    var n := |rows| - 1;
    if k < |RecordedRows(rows[..n])| {
      p := RankFound(rows[..n], k);
      assert rows[..n][..p] == rows[..p];
    } else {
      p := n;
    }
  }

  lemma AssignedByRank(rows: seq<Json.Value>, p: nat, frameOf: map<int, string>, parse: Json.Value -> Option<Answer>)
    requires p < |rows| && CountsAt(rows, p)
    ensures Rank(rows, p) < |RecordedRows(rows)| && ReadRow(RecordedRows(rows)[Rank(rows, p)]).Some?
    ensures Assigned(rows, p, frameOf, parse) == Assigned(RecordedRows(rows), Rank(rows, p), frameOf, parse)
  {
    hide ReadRow, Run, RecordedRows;
    var recorded, k := RecordedRows(rows), Rank(rows, p);
    RankIs(rows, p);
    RunReadsPrefix(rows, p, p, frameOf, parse);
    SkippedRowsDoNotCount(rows[..p], frameOf, parse);
    RunReadsPrefix(recorded, k, k, frameOf, parse);
  }

  /** Row `p` does not count, or the cursor gives it its true turn. */
  predicate FindsTurn(rows: seq<Json.Value>, turns: seq<nat>, p: nat, frameOf: map<int, string>,
                      parse: Json.Value -> Option<Answer>)
    requires p < |rows|
  {
    CountsAt(rows, p) ==> Rank(rows, p) < |turns| && Assigned(rows, p, frameOf, parse) == turns[Rank(rows, p)]
  }

  lemma FindsByRank(rows: seq<Json.Value>, turns: seq<nat>, p: nat, frameOf: map<int, string>,
                    parse: Json.Value -> Option<Answer>)
    requires p < |rows| && CountsAt(rows, p) && |turns| == |RecordedRows(rows)|
    ensures Rank(rows, p) < |turns| && ReadRow(RecordedRows(rows)[Rank(rows, p)]).Some?
    ensures FindsTurn(rows, turns, p, frameOf, parse) <==>
            Assigned(RecordedRows(rows), Rank(rows, p), frameOf, parse) == turns[Rank(rows, p)]
  {
    hide ReadRow, Run, RecordedRows, Rank, Assigned;
    AssignedByRank(rows, p, frameOf, parse);
  }

  /** The cursor gives every counted row its true turn if and only if every one that follows a gap says
      so. */
  lemma CursorFindsTurns(rows: seq<Json.Value>, turns: seq<nat>, frameOf: map<int, string>,
                         parse: Json.Value -> Option<Answer>)
    requires Truthful(RecordedRows(rows), turns)
    ensures (forall p :: 0 <= p < |rows| ==> FindsTurn(rows, turns, p, frameOf, parse)) <==>
            GapsStated(RecordedRows(rows), turns, |turns|)
  {
    hide ReadRow, Run, RecordedRows, CountsAt, Rank, Assigned, GapsStated, FindsTurn;
    var recorded := RecordedRows(rows);
    CursorStepsThrough(recorded, turns, |turns|, frameOf, parse);
    if GapsStated(recorded, turns, |turns|) {
      forall p | 0 <= p < |rows| ensures FindsTurn(rows, turns, p, frameOf, parse) {
        if CountsAt(rows, p) {
          FindsByRank(rows, turns, p, frameOf, parse);
        } else {
          SkippedFinds(rows, turns, p, frameOf, parse);
        }
      }
    }
    if forall p :: 0 <= p < |rows| ==> FindsTurn(rows, turns, p, frameOf, parse) {
      forall k | 0 <= k < |turns| ensures Assigned(recorded, k, frameOf, parse) == turns[k] {
        var p := RankFound(rows, k);
        FindsByRank(rows, turns, p, frameOf, parse);
      }
    }
  }

  lemma SkippedFinds(rows: seq<Json.Value>, turns: seq<nat>, p: nat, frameOf: map<int, string>,
                     parse: Json.Value -> Option<Answer>)
    requires p < |rows| && !CountsAt(rows, p)
    ensures FindsTurn(rows, turns, p, frameOf, parse)
  {
  }

  lemma StartsAtZero(rows: seq<Json.Value>, frameOf: map<int, string>, parse: Json.Value -> Option<Answer>)
    ensures Run(rows, 0, frameOf, parse) == Cursor({}, 0, map[])
  {
  }

  /** The record shown by message `id` after `n` rows. */
  ghost predicate Landed(rows: seq<Json.Value>, turns: seq<nat>, n: nat, frameOf: map<int, string>,
                         parse: Json.Value -> Option<Answer>, out: map<string, Answer>)
    requires n <= |rows| == |turns| && AllRecorded(rows)
  {
    && (forall k :: 0 <= k < n && turns[k] in frameOf ==>
          var answer := parse(Envelope(ReadRow(rows[k]).value));
          if answer.Some? then frameOf[turns[k]] in out && out[frameOf[turns[k]]] == answer.value
          else frameOf[turns[k]] !in out)
    && (forall id :: id in out ==> exists k :: 0 <= k < n && turns[k] in frameOf && frameOf[turns[k]] == id)
  }

  /** Each record lands on the frame of its own turn and on no other; a turn with no row shows none. */
  lemma {:induction false} RecordsLand(rows: seq<Json.Value>, turns: seq<nat>, n: nat, frameOf: map<int, string>,
                                       parse: Json.Value -> Option<Answer>)
    requires Truthful(rows, turns) && n <= |rows| && GapsStated(rows, turns, |rows|)
    requires forall s, t :: s in frameOf && t in frameOf && s != t ==> frameOf[s] != frameOf[t]
    ensures Landed(rows, turns, n, frameOf, parse, Run(rows, n, frameOf, parse).out)
  {
    hide ReadRow, Run, Envelope, Attach, Landed, Assigned;
    if n == 0 {
      StartsAtZero(rows, frameOf, parse);
      NothingLandedYet(rows, turns, frameOf, parse);
    } else {
      RecordsLand(rows, turns, n - 1, frameOf, parse);
      AdvancesOnEachRow(rows, n - 1, frameOf, parse);
      CursorStepsThrough(rows, turns, |rows|, frameOf, parse);
      assert Assigned(rows, n - 1, frameOf, parse) == turns[n - 1];
      AttachLands(rows, turns, n - 1, frameOf, parse, Run(rows, n - 1, frameOf, parse).out);
    }
  }

  lemma NothingLandedYet(rows: seq<Json.Value>, turns: seq<nat>, frameOf: map<int, string>,
                         parse: Json.Value -> Option<Answer>)
    requires |rows| == |turns| && AllRecorded(rows)
    ensures Landed(rows, turns, 0, frameOf, parse, map[])
  {
  }

  lemma AttachLands(rows: seq<Json.Value>, turns: seq<nat>, n: nat, frameOf: map<int, string>,
                    parse: Json.Value -> Option<Answer>, out: map<string, Answer>)
    requires Truthful(rows, turns) && n < |rows|
    requires forall s, t :: s in frameOf && t in frameOf && s != t ==> frameOf[s] != frameOf[t]
    requires Landed(rows, turns, n, frameOf, parse, out)
    ensures Landed(rows, turns, n + 1, frameOf, parse,
                   Attach(out, frameOf, turns[n], parse(Envelope(ReadRow(rows[n]).value))))
  {
    hide ReadRow, Envelope;
    var r := Attach(out, frameOf, turns[n], parse(Envelope(ReadRow(rows[n]).value)));
    assert turns[n] in frameOf ==> frameOf[turns[n]] !in out;
    forall id | id in r ensures exists k :: 0 <= k < n + 1 && turns[k] in frameOf && frameOf[turns[k]] == id {
      if id in out {
        var k :| 0 <= k < n && turns[k] in frameOf && frameOf[turns[k]] == id;
      }
    }
  }

  lemma {:induction false} FrameOfTurnFinds(frames: seq<TurnFrame>)
    requires Rising(frames)
    ensures forall t :: t in FrameOfTurn(frames) <==> exists f :: f in frames && f.turn == t
    ensures forall f :: f in frames ==> f.turn in FrameOfTurn(frames) && FrameOfTurn(frames)[f.turn] == f.id
  {
    if frames != [] {
      var n := |frames| - 1;
      FrameOfTurnFinds(frames[..n]);
      assert frames == frames[..n] + [frames[n]];
      assert frames[n] in frames;
    }
  }

  /** No two frames of the transcript share an id. */
  ghost predicate DistinctIds(messages: seq<Frame>) {
    forall i, j :: 0 <= i < j < |messages| ==> FrameId(messages, i) != FrameId(messages, j)
  }

  lemma {:induction false} FrameIdsDiffer(messages: seq<Frame>, s: TurnFrame, t: TurnFrame)
    requires DistinctIds(messages)
    requires s in FinalFrames(messages, |messages|) && t in FinalFrames(messages, |messages|) && s.turn != t.turn
    ensures s.id != t.id
  {
    hide IsTurnFinalAi, FrameId;
    FramesAreTagged(messages, |messages|, s);
    FramesAreTagged(messages, |messages|, t);
    var i :| 0 <= i < |messages| && TagsFrame(messages, s, i);
    var j :| 0 <= j < |messages| && TagsFrame(messages, t, j);
    assert i != j;
  }

  /** The run over any rows lands the recorded ones. */
  lemma RunLands(messages: seq<Frame>, rows: seq<Json.Value>, turns: seq<nat>, parse: Json.Value -> Option<Answer>)
    requires Truthful(RecordedRows(rows), turns) && GapsStated(RecordedRows(rows), turns, |turns|)
    requires DistinctIds(messages)
    ensures var frameOf := FrameOfTurn(FinalFrames(messages, |messages|));
            Landed(RecordedRows(rows), turns, |turns|, frameOf, parse, Run(rows, |rows|, frameOf, parse).out)
  {
    hide ReadRow, Run, Envelope, FinalFrames, RecordedRows, Landed;
    var frames, recorded := FinalFrames(messages, |messages|), RecordedRows(rows);
    var frameOf := FrameOfTurn(frames);
    TagsRise(messages, |messages|);
    FrameOfTurnFinds(frames);
    forall s, t | s in frameOf && t in frameOf && s != t ensures frameOf[s] != frameOf[t] {
      var f :| f in frames && f.turn == s;
      var g :| g in frames && g.turn == t;
      FrameIdsDiffer(messages, f, g);
    }
    RecordsLand(recorded, turns, |recorded|, frameOf, parse);
    SkippedRowsDoNotCount(rows, frameOf, parse);
  }

  /** For a transcript whose messages have different ids: every record lands on the message that ends its
      own turn, whatever turns are missing, and no message gets a record of another turn. */
  lemma RecordsLandOnTheirTurn(messages: seq<Frame>, rows: seq<Json.Value>, turns: seq<nat>,
                               parse: Json.Value -> Option<Answer>)
    requires Truthful(RecordedRows(rows), turns) && GapsStated(RecordedRows(rows), turns, |turns|)
    requires DistinctIds(messages)
    ensures var frames, recorded := FinalFrames(messages, |messages|), RecordedRows(rows);
            var out := Run(rows, |rows|, FrameOfTurn(frames), parse).out;
            && (forall f, k :: f in frames && 0 <= k < |recorded| && f.turn == turns[k] ==>
                  var answer := parse(Envelope(ReadRow(recorded[k]).value));
                  if answer.Some? then f.id in out && out[f.id] == answer.value else f.id !in out)
            && (forall id :: id in out ==> exists f :: f in frames && f.turn in turns && f.id == id)
  {
    hide ReadRow, Run, Envelope, FinalFrames, RecordedRows;
    var frames := FinalFrames(messages, |messages|);
    var out := Run(rows, |rows|, FrameOfTurn(frames), parse).out;
    RunLands(messages, rows, turns, parse);
    TagsRise(messages, |messages|);
    FrameOfTurnFinds(frames);
    forall id | id in out ensures exists f :: f in frames && f.turn in turns && f.id == id {
      var k :| 0 <= k < |turns| && turns[k] in FrameOfTurn(frames) && FrameOfTurn(frames)[turns[k]] == id;
      var f :| f in frames && f.turn == turns[k];
    }
  }

  /** Rows that each carry their own turn, counted from zero, as question number from one; in rising order,
      with different turn ids. */
  ghost predicate CarryTurns(rows: seq<Json.Value>, turns: seq<nat>) {
    && |rows| == |turns|
    && (forall k :: 0 <= k < |rows| ==>
          HasTurnId(rows[k]) && UsageCarries(rows[k].fields["record"].fields, turns[k] + 1))
    && (forall j, k :: 0 <= j < k < |rows| ==>
          && turns[j] < turns[k]
          && rows[j].fields["record"].fields["turn_id"] != rows[k].fields["record"].fields["turn_id"])
  }

  lemma {:induction false} AllCount(rows: seq<Json.Value>)
    requires AllRecorded(rows)
    ensures RecordedRows(rows) == rows
  {
    hide ReadRow;
    if rows != [] {
      var n := |rows| - 1;
      AllCount(rows[..n]);
      assert rows == rows[..n] + [rows[n]];
    }
  }

  lemma CarryTurnsAreTruthful(rows: seq<Json.Value>, turns: seq<nat>)
    requires CarryTurns(rows, turns)
    ensures RecordedRows(rows) == rows && Truthful(rows, turns) && GapsStated(rows, turns, |turns|)
  {
    hide ReadRow, UsageCarries, RecordedRows;
    forall k | 0 <= k < |rows|
      ensures ReadRow(rows[k]).Some? && ReadRow(rows[k]).value.stated == Some(turns[k] + 1)
      ensures ReadRow(rows[k]).value.turnId == rows[k].fields["record"].fields["turn_id"].s
    {
      ReadRowIs(rows[k]);
    }
    assert AllRecorded(rows);
    AllCount(rows);
  }

  /** Whatever turns left no row: a record that carries its question number is shown on the frame that ends
      its turn, and no frame of a turn without a row shows any. */
  lemma CarriedRecordsLand(messages: seq<Frame>, rows: seq<Json.Value>, turns: seq<nat>,
                           parse: Json.Value -> Option<Answer>)
    requires CarryTurns(rows, turns) && DistinctIds(messages)
    ensures var frames := FinalFrames(messages, |messages|);
            var out := Run(rows, |rows|, FrameOfTurn(frames), parse).out;
            && (forall f, k :: f in frames && 0 <= k < |rows| && f.turn == turns[k] ==>
                  ReadRow(rows[k]).Some? &&
                  var answer := parse(Envelope(ReadRow(rows[k]).value));
                  if answer.Some? then f.id in out && out[f.id] == answer.value else f.id !in out)
            && (forall id :: id in out ==> exists f :: f in frames && f.turn in turns && f.id == id)
  {
    hide ReadRow, UsageCarries, RecordedRows, Run, Envelope, FinalFrames, FrameOfTurn;
    CarryTurnsAreTruthful(rows, turns);
    RecordsLandOnTheirTurn(messages, rows, turns, parse);
  }
}
