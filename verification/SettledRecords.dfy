/** Records and frames together: what the cursor has attached to a settled frame does not change while both
    keep arriving. */
module SettledRecords {
  import opened Text
  import opened Transcript
  import opened TurnRecords
  import Json

  type Parser = Json.Value -> Option<Answer>

  /** The records by message id, as `turnAnswersByMessageId` has them. */
  function Attached(messages: seq<Frame>, rows: seq<Json.Value>, parse: Parser): map<string, Answer> {
    Run(rows, |rows|, FrameOfTurn(FinalFrames(messages, |messages|)), parse).out
  }

  function Lookup(out: map<string, Answer>): string -> Option<Answer> {
    id => if id in out then Some(out[id]) else None
  }

  /** The recorded rows tell the truth about these turns, gaps included. */
  ghost predicate Faithful(rows: seq<Json.Value>, turns: seq<nat>) {
    Truthful(RecordedRows(rows), turns) && GapsStated(RecordedRows(rows), turns, |turns|)
  }

  /** The answer recorded row `k` parses to. */
  function AnswerOf(rows: seq<Json.Value>, k: nat, parse: Parser): Option<Answer> {
    var recorded := RecordedRows(rows);
    if k < |recorded| && ReadRow(recorded[k]).Some? then parse(Envelope(ReadRow(recorded[k]).value)) else None
  }

  /** Recorded row `k` answers `turn`. */
  predicate AnswersTurn(rows: seq<Json.Value>, turns: seq<nat>, k: nat, turn: int, parse: Parser) {
    k < |turns| && turns[k] == turn && AnswerOf(rows, k, parse).Some?
  }

  predicate HasAnswer(rows: seq<Json.Value>, turns: seq<nat>, turn: int, parse: Parser) {
    exists k :: 0 <= k < |turns| && AnswersTurn(rows, turns, k, turn, parse)
  }

  /** What is attached to a frame is the record of its own turn. */
  lemma AttachedIsAnswer(messages: seq<Frame>, i: nat, rows: seq<Json.Value>, turns: seq<nat>, parse: Parser)
    requires i < |messages| && DistinctIds(messages) && Faithful(rows, turns)
    requires FrameId(messages, i) in Attached(messages, rows, parse)
    ensures IsTurnFinalAi(messages, i)
    ensures HasAnswer(rows, turns, Asked(messages, i) - 1, parse)
  {
    hide ReadRow, Run, Envelope, FinalFrames, FrameOfTurn, FrameId, IsTurnFinalAi, Asked, RecordedRows, GapsStated;
    var id, frames, recorded := FrameId(messages, i), FinalFrames(messages, |messages|), RecordedRows(rows);
    RunLands(messages, rows, turns, parse);
    TagsRise(messages, |messages|);
    FrameOfTurnFinds(frames);
    var k: nat :| k < |turns| && turns[k] in FrameOfTurn(frames) && FrameOfTurn(frames)[turns[k]] == id;
    var f :| f in frames && f.turn == turns[k];
    FramesAreTagged(messages, |messages|, f);
    var j :| 0 <= j < |messages| && TagsFrame(messages, f, j);
    assert FrameId(messages, j) == FrameId(messages, i);
    assert j == i;
    assert ReadRow(recorded[k]).Some? && parse(Envelope(ReadRow(recorded[k]).value)).Some?;
    assert AnswersTurn(rows, turns, k, Asked(messages, i) - 1, parse);
  }

  /** And the record of its own turn is attached to the frame that ends it. */
  lemma AnswerIsAttached(messages: seq<Frame>, i: nat, rows: seq<Json.Value>, turns: seq<nat>, k: nat, parse: Parser)
    requires i < |messages| && DistinctIds(messages) && Faithful(rows, turns)
    requires IsTurnFinalAi(messages, i) && AnswersTurn(rows, turns, k, Asked(messages, i) - 1, parse)
    ensures FrameId(messages, i) in Attached(messages, rows, parse)
    ensures Attached(messages, rows, parse)[FrameId(messages, i)] == AnswerOf(rows, k, parse).value
  {
    hide ReadRow, Run, Envelope, FinalFrames, FrameOfTurn, FrameId, IsTurnFinalAi, Asked, RecordedRows, GapsStated;
    var f := TurnFrame(FrameId(messages, i), Asked(messages, i) - 1);
    RecordsLandOnTheirTurn(messages, rows, turns, parse);
    FramesAreTagged(messages, |messages|, f);
    assert TagsFrame(messages, f, i);
    assert f in FinalFrames(messages, |messages|) && f.turn == turns[k];
  }

  // ---- frames and rows that arrive later -------------------------------------------------------

  lemma {:induction false} AskedStands(messages: seq<Frame>, more: seq<Frame>, n: nat)
    requires n <= |messages|
    ensures Asked(messages + more, n) == Asked(messages, n)
  {
    hide IsHuman;
    if n > 0 {
      AskedStands(messages, more, n - 1);
    }
  }

  /** A frame before the last question keeps its id, its turn and its place at the end of it. */
  lemma SettledFrameStands(messages: seq<Frame>, more: seq<Frame>, i: nat)
    requires i < LastHuman(messages, |messages|)
    ensures FrameId(messages + more, i) == FrameId(messages, i)
    ensures Asked(messages + more, i) == Asked(messages, i) < Asked(messages, |messages|)
    ensures IsTurnFinalAi(messages + more, i) == IsTurnFinalAi(messages, i)
  {
    hide IsHuman, IsAi, TurnEndsAt;
    var h := LastHuman(messages, |messages|);
    TurnEndStands(messages, more, i + 1, h);
    AskedStands(messages, more, i);
    assert h < |messages| && IsHuman(messages[h]);
    AskedGrows(messages, i, |messages|);
  }

  lemma AnswersStand(rows: seq<Json.Value>, moreRows: seq<Json.Value>, k: nat, parse: Parser)
    requires k < |RecordedRows(rows)|
    ensures |RecordedRows(rows)| <= |RecordedRows(rows + moreRows)|
    ensures AnswerOf(rows + moreRows, k, parse) == AnswerOf(rows, k, parse)
  {
    hide ReadRow, Envelope;
    assert (rows + moreRows)[..|rows|] == rows;
    RecordedGrow(rows + moreRows, |rows|);
  }

  /** One of the rows that came later answers the turn frame `i` ends. */
  predicate IsLateFor(messages: seq<Frame>, i: nat, rows: seq<Json.Value>, before: seq<nat>, turns: seq<nat>,
                      parse: Parser)
    requires i < |messages|
  {
    var turn := Asked(messages, i) - 1;
    IsTurnFinalAi(messages, i) && exists k :: |before| <= k < |turns| && AnswersTurn(rows, turns, k, turn, parse)
  }

  lemma OneRowPerTurn(rows: seq<Json.Value>, turns: seq<nat>, j: nat, k: nat, turn: int, parse: Parser)
    requires Faithful(rows, turns)
    requires AnswersTurn(rows, turns, j, turn, parse) && AnswersTurn(rows, turns, k, turn, parse)
    ensures j == k
  {
    hide AnswerOf, RecordedRows, AllRecorded;
  }

  /** A record attached to a settled frame stays as it is; and one is attached later exactly if it is the
      late record of its turn. */
  lemma AttachedStands(messages: seq<Frame>, more: seq<Frame>, rows: seq<Json.Value>, moreRows: seq<Json.Value>,
                       before: seq<nat>, turns: seq<nat>, parse: Parser, i: nat)
    requires DistinctIds(messages) && DistinctIds(messages + more)
    requires Faithful(rows, before) && Faithful(rows + moreRows, turns) && before <= turns
    requires i < LastHuman(messages, |messages|)
    ensures var out, later, id := Attached(messages, rows, parse), Attached(messages + more, rows + moreRows, parse),
                                  FrameId(messages, i);
            && (id in out ==> id in later && later[id] == out[id])
            && (IsLateFor(messages, i, rows + moreRows, before, turns, parse) <==> id in later && id !in out)
  {
    hide Attached, RecordedRows, ReadRow, Envelope, FrameId, IsTurnFinalAi, LastHuman, Asked, Faithful, DistinctIds,
         AnswersTurn, AnswerOf;
    var turn, id, all := Asked(messages, i) - 1, FrameId(messages, i), rows + moreRows;
    SettledFrameStands(messages, more, i);
    if id in Attached(messages, rows, parse) {
      AttachedIsAnswer(messages, i, rows, before, parse);
      var k: nat :| k < |before| && AnswersTurn(rows, before, k, turn, parse);
      AnswerIsAttached(messages, i, rows, before, k, parse);
      AnswersTurnStands(rows, moreRows, before, turns, k, turn, parse);
      AnswerIsAttached(messages + more, i, all, turns, k, parse);
      forall m: nat | AnswersTurn(all, turns, m, turn, parse) ensures m == k {
        OneRowPerTurn(all, turns, m, k, turn, parse);
      }
    } else if id in Attached(messages + more, all, parse) {
      AttachedIsAnswer(messages + more, i, all, turns, parse);
      var k: nat :| k < |turns| && AnswersTurn(all, turns, k, turn, parse);
      AnswersTurnStands(rows, moreRows, before, turns, k, turn, parse);
      if k < |before| {
        AnswerIsAttached(messages, i, rows, before, k, parse);
      }
    } else if IsLateFor(messages, i, all, before, turns, parse) {
      var k: nat :| |before| <= k < |turns| && AnswersTurn(all, turns, k, turn, parse);
      AnswerIsAttached(messages + more, i, all, turns, k, parse);
    }
  }

  lemma AnswersTurnStands(rows: seq<Json.Value>, moreRows: seq<Json.Value>, before: seq<nat>, turns: seq<nat>,
                          k: nat, turn: int, parse: Parser)
    requires Faithful(rows, before) && before <= turns
    ensures AnswersTurn(rows + moreRows, turns, k, turn, parse) ==> k < |turns| && turns[k] == turn
    ensures k < |before| ==>
              && (AnswersTurn(rows + moreRows, turns, k, turn, parse) <==> AnswersTurn(rows, before, k, turn, parse))
              && AnswerOf(rows + moreRows, k, parse) == AnswerOf(rows, k, parse)
    ensures k >= |before| ==> !AnswersTurn(rows, before, k, turn, parse)
  {
    hide AnswerOf, RecordedRows;
    FaithfulCounts(rows, before);
    if k < |before| {
      AnswersStand(rows, moreRows, k, parse);
    }
  }

  lemma FaithfulCounts(rows: seq<Json.Value>, turns: seq<nat>)
    requires Faithful(rows, turns)
    ensures |turns| == |RecordedRows(rows)|
  {
  }
}
