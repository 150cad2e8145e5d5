/** The timeline fold of `ui/lib/steps.ts`. */
module Steps {
  import opened Text
  import opened Lists
  import opened Sorting
  import Json

  datatype Kind = Rail | Tool | Final

  datatype Verdict = Ok | Blocked | Error | Refused | Cap | Hit | Miss | Declined

  datatype EventStatus = Start | Done(verdict: Verdict)

  datatype StepStatus = Running | Settled(verdict: Verdict)

  type Detail = map<string, Json.Value>

  datatype GovEvent = GovEvent(seqNo: int, id: Option<string>, kind: Kind, step: string, status: EventStatus,
                               caption: Option<string>, detail: Option<Detail>)

  datatype TimelineStep = TimelineStep(key: string, seqNo: int, kind: Kind, step: string, status: StepStatus,
                                       caption: string, detail: Detail)

  /** `defaultLabel`: client copy, a function of what the row shows. */
  type Labeler = (string, StepStatus, Detail) -> string

  function KeyOf(ev: GovEvent): string {
    if ev.id.Some? then ev.id.value else ev.step + ":" + Decimal(ev.seqNo)
  }

  function RowStatus(status: EventStatus): StepStatus {
    match status
    case Start => Running
    case Done(v) => Settled(v)
  }

  /** `{ ...before, ...(detail ?? {}) }`. */
  function Spread(before: Detail, detail: Option<Detail>): Detail {
    if detail.Some? then before + detail.value else before
  }

  function FindKey(rows: seq<TimelineStep>, key: string): (at: Option<nat>)
    ensures at.Some? ==> at.value < |rows| && rows[at.value].key == key
  {
    if rows == [] then None
    else if rows[0].key == key then Some(0)
    else
      var later := FindKey(rows[1..], key);
      if later.Some? then Some(later.value + 1) else None
  }

  function MaxSeq(rows: seq<TimelineStep>): int
    requires rows != []
  {
    if |rows| == 1 then rows[0].seqNo
    else
      var m := MaxSeq(rows[..|rows| - 1]);
      if rows[|rows| - 1].seqNo > m then rows[|rows| - 1].seqNo else m
  }

  function NextPosition(prev: seq<TimelineStep>, first: int): int {
    if prev == [] then first else MaxSeq(prev) + 1
  }

  function SeqOrder(): (TimelineStep, TimelineStep) -> bool {
    (a: TimelineStep, b: TimelineStep) => a.seqNo <= b.seqNo
  }

  function ReduceSteps(prev: seq<TimelineStep>, ev: GovEvent, labels: Labeler): seq<TimelineStep> {
    var key := KeyOf(ev);
    var status := RowStatus(ev.status);
    var i := FindKey(prev, key);
    var detail := Spread(if i.Some? then prev[i.value].detail else map[], ev.detail);
    var merged := TimelineStep(
      key, if i.Some? then prev[i.value].seqNo else NextPosition(prev, ev.seqNo), ev.kind, ev.step, status,
      if ev.caption.Some? then ev.caption.value else labels(ev.step, status, detail), detail);
    Sort(if i.Some? then prev[i.value := merged] else prev + [merged], SeqOrder())
  }

  function Fold(events: seq<GovEvent>, labels: Labeler): seq<TimelineStep> {
    if events == [] then []
    else ReduceSteps(Fold(events[..|events| - 1], labels), events[|events| - 1], labels)
  }

  predicate IsRepair(row: TimelineStep) {
    row.step == "check" && (row.status == Settled(Blocked) || row.status == Settled(Error))
  }

  function RepairTest(): TimelineStep -> bool {
    (row: TimelineStep) => IsRepair(row)
  }

  function CountRepairs(rows: seq<TimelineStep>): nat {
    |Filter(rows, RepairTest())|
  }

  // ---- the same timeline, key by key ---------------------------------------------------

  function HasKey(key: string): GovEvent -> bool {
    (ev: GovEvent) => KeyOf(ev) == key
  }

  /** The events of one row. */
  function Own(events: seq<GovEvent>, key: string): seq<GovEvent> {
    Filter(events, HasKey(key))
  }

  function MergedDetail(own: seq<GovEvent>): Detail {
    if own == [] then map[]
    else
      var before, last := MergedDetail(own[..|own| - 1]), own[|own| - 1].detail;
      match last
      case None => before
      case Some(detail) => before + detail
  }

  /** A row as its own events alone determine it: all details merged, everything else from the last. */
  function RowOf(own: seq<GovEvent>, position: int, labels: Labeler): TimelineStep
    requires own != []
  {
    var last, detail := own[|own| - 1], MergedDetail(own);
    var status := RowStatus(last.status);
    TimelineStep(KeyOf(last), position, last.kind, last.step, status,
                 if last.caption.Some? then last.caption.value else labels(last.step, status, detail), detail)
  }

  /** The keys in order of first arrival. */
  function Arrivals(events: seq<GovEvent>): (keys: seq<string>)
    ensures forall i, j :: 0 <= i < j < |keys| ==> keys[i] != keys[j]
    ensures events == [] <==> keys == []
  {
    if events == [] then []
    else
      var before, key := Arrivals(events[..|events| - 1]), KeyOf(events[|events| - 1]);
      if key in before then before else before + [key]
  }

  lemma {:induction false} ArrivalsAreKeys(events: seq<GovEvent>)
    ensures forall key :: key in Arrivals(events) <==> Own(events, key) != []
  {
    if events != [] {
      var n := |events| - 1;
      ArrivalsAreKeys(events[..n]);
      assert events == events[..n] + [events[n]];
      forall key ensures key in Arrivals(events) <==> Own(events, key) != [] {
        FilterSnoc(events[..n], events[n], HasKey(key));
      }
    }
  }

  lemma {:induction false} ArrivalHasEvent(events: seq<GovEvent>, key: string) returns (ev: GovEvent)
    requires key in Arrivals(events)
    ensures ev in events && KeyOf(ev) == key
  {
    var n := |events| - 1;
    if KeyOf(events[n]) == key {
      ev := events[n];
    } else {
      ev := ArrivalHasEvent(events[..n], key);
    }
  }

  /** Row by row, in arrival order, numbered consecutively from the first event's own number. */
  ghost predicate IsTimeline(rows: seq<TimelineStep>, events: seq<GovEvent>, labels: Labeler) {
    var keys := Arrivals(events);
    && |rows| == |keys|
    && forall i :: 0 <= i < |rows| ==>
         Own(events, keys[i]) != [] && rows[i] == RowOf(Own(events, keys[i]), events[0].seqNo + i, labels)
  }

  lemma OwnKeys(events: seq<GovEvent>, key: string)
    ensures forall ev :: ev in Own(events, key) ==> KeyOf(ev) == key
  {
    FilterHolds(events, HasKey(key));
  }

  lemma RowKey(events: seq<GovEvent>, key: string, position: int, labels: Labeler)
    requires Own(events, key) != []
    ensures RowOf(Own(events, key), position, labels).key == key
  {
    OwnKeys(events, key);
    var own := Own(events, key);
    assert own[|own| - 1] in own;
  }

  lemma {:induction false} FindKeyFinds(rows: seq<TimelineStep>, keys: seq<string>, key: string)
    requires |rows| == |keys|
    requires forall i :: 0 <= i < |rows| ==> rows[i].key == keys[i]
    ensures FindKey(rows, key).Some? <==> key in keys
    ensures FindKey(rows, key).Some? ==> keys[FindKey(rows, key).value] == key
  {
    if rows != [] {
      FindKeyFinds(rows[1..], keys[1..], key);
      assert keys == [keys[0]] + keys[1..];
    }
  }

  lemma {:induction false} MaxOfConsecutive(rows: seq<TimelineStep>, first: int)
    requires rows != [] && forall i :: 0 <= i < |rows| ==> rows[i].seqNo == first + i
    ensures MaxSeq(rows) == first + |rows| - 1
  {
    if |rows| > 1 {
      MaxOfConsecutive(rows[..|rows| - 1], first);
    }
  }

  /** Keys and positions of a timeline's rows. */
  lemma TimelineRows(rows: seq<TimelineStep>, events: seq<GovEvent>, labels: Labeler)
    requires IsTimeline(rows, events, labels)
    ensures forall i :: 0 <= i < |rows| ==> rows[i].key == Arrivals(events)[i]
    ensures forall i :: 0 <= i < |rows| ==> rows[i].seqNo == events[0].seqNo + i
  {
    hide RowOf, Own;
    forall i | 0 <= i < |rows| ensures rows[i].key == Arrivals(events)[i] && rows[i].seqNo == events[0].seqNo + i {
      RowKey(events, Arrivals(events)[i], events[0].seqNo + i, labels);
      PositionOf(Own(events, Arrivals(events)[i]), events[0].seqNo + i, labels);
    }
  }

  lemma StepKeepsTimeline(rows: seq<TimelineStep>, events: seq<GovEvent>, ev: GovEvent, labels: Labeler)
    requires IsTimeline(rows, events, labels)
    ensures IsTimeline(ReduceSteps(rows, ev, labels), events + [ev], labels)
  {
    hide RowOf, Own, Sort, ReduceSteps, Arrivals, IsTimeline;
    TimelineRows(rows, events, labels);
    TimelineLength(rows, events, labels);
    FindKeyFinds(rows, Arrivals(events), KeyOf(ev));
    if FindKey(rows, KeyOf(ev)).Some? {
      MergeKeepsTimeline(rows, events, ev, labels);
    } else {
      AddKeepsTimeline(rows, events, ev, labels);
    }
  }

  lemma TimelineLength(rows: seq<TimelineStep>, events: seq<GovEvent>, labels: Labeler)
    requires IsTimeline(rows, events, labels)
    ensures |rows| == |Arrivals(events)|
  {
  }

  lemma MergeKeepsTimeline(rows: seq<TimelineStep>, events: seq<GovEvent>, ev: GovEvent, labels: Labeler)
    requires IsTimeline(rows, events, labels)
    requires FindKey(rows, KeyOf(ev)).Some?
    requires FindKey(rows, KeyOf(ev)).value < |Arrivals(events)|
    requires Arrivals(events)[FindKey(rows, KeyOf(ev)).value] == KeyOf(ev)
    ensures IsTimeline(ReduceSteps(rows, ev, labels), events + [ev], labels)
  {
    hide RowOf, Own, Sort, ReduceSteps, FindKey, KeyOf, Arrivals;
    var all, keys, i := events + [ev], Arrivals(events), FindKey(rows, KeyOf(ev)).value;
    OldKey(events, ev);
    TimelineRows(rows, events, labels);
    var merged := Merged(rows, events, ev, i, labels);
    PositionOf(Own(all, KeyOf(ev)), rows[i].seqNo, labels);
    KeepOrder(rows[i := merged], all[0].seqNo);
    forall j | 0 <= j < |keys| && j != i ensures Own(all, keys[j]) == Own(events, keys[j]) {
      OwnSnoc(events, ev, keys[j]);
    }
  }

  lemma OldKey(events: seq<GovEvent>, ev: GovEvent)
    requires KeyOf(ev) in Arrivals(events)
    ensures Arrivals(events + [ev]) == Arrivals(events)
    ensures events != []
  {
    assert (events + [ev])[..|events|] == events;
  }

  lemma AddKeepsTimeline(rows: seq<TimelineStep>, events: seq<GovEvent>, ev: GovEvent, labels: Labeler)
    requires IsTimeline(rows, events, labels)
    requires FindKey(rows, KeyOf(ev)).None? && KeyOf(ev) !in Arrivals(events)
    ensures IsTimeline(ReduceSteps(rows, ev, labels), events + [ev], labels)
  {
    hide RowOf, Own, Sort, ReduceSteps, FindKey, MaxSeq, KeyOf;
    var all, keys, key := events + [ev], Arrivals(events), KeyOf(ev);
    TimelineRows(rows, events, labels);
    if rows != [] {
      MaxOfConsecutive(rows, events[0].seqNo);
    }
    var added := Added(rows, events, ev, labels);
    PositionOf(Own(all, key), all[0].seqNo + |rows|, labels);
    KeepOrder(rows + [added], all[0].seqNo);
    forall j | 0 <= j < |keys| ensures Own(all, keys[j]) == Own(events, keys[j]) {
      OwnSnoc(events, ev, keys[j]);
    }
    assert Arrivals(all) == keys + [key] by {
      assert all[..|all| - 1] == events;
    }
  }

  lemma PositionOf(own: seq<GovEvent>, position: int, labels: Labeler)
    requires own != []
    ensures RowOf(own, position, labels).seqNo == position
  {
  }

  lemma OwnSnoc(events: seq<GovEvent>, ev: GovEvent, key: string)
    ensures Own(events + [ev], key) == Own(events, key) + (if KeyOf(ev) == key then [ev] else [])
  {
    FilterSnoc(events, ev, HasKey(key));
  }

  lemma KeepOrder(rows: seq<TimelineStep>, first: int)
    requires forall i :: 0 <= i < |rows| ==> rows[i].seqNo == first + i
    ensures Sort(rows, SeqOrder()) == rows
  {
    SortKeepsSorted(rows, SeqOrder());
  }

  /** The merged row is the row of its own events, one more included. */
  lemma Merged(rows: seq<TimelineStep>, events: seq<GovEvent>, ev: GovEvent, i: nat, labels: Labeler)
    returns (merged: TimelineStep)
    requires IsTimeline(rows, events, labels) && i < |rows|
    requires FindKey(rows, KeyOf(ev)) == Some(i) && Arrivals(events)[i] == KeyOf(ev)
    ensures Own(events + [ev], KeyOf(ev)) != []
    ensures merged == RowOf(Own(events + [ev], KeyOf(ev)), rows[i].seqNo, labels)
    ensures ReduceSteps(rows, ev, labels) == Sort(rows[i := merged], SeqOrder())
  {
    hide Own, Sort, MergedDetail, KeyOf;
    var own := Own(events, KeyOf(ev));
    OwnSnoc(events, ev, KeyOf(ev));
    MergedSnoc(own, ev);
    merged := RowOf(own + [ev], rows[i].seqNo, labels);
  }

  lemma AloneMerges(ev: GovEvent)
    ensures MergedDetail([ev]) == Spread(map[], ev.detail)
  {
    MergedSnoc([], ev);
    assert [] + [ev] == [ev];
  }

  lemma OwnOfNew(events: seq<GovEvent>, ev: GovEvent)
    requires KeyOf(ev) !in Arrivals(events)
    ensures Own(events + [ev], KeyOf(ev)) == [ev]
  {
    hide Own, KeyOf, Arrivals;
    ArrivalsAreKeys(events);
    OwnSnoc(events, ev, KeyOf(ev));
  }

  lemma FirstPosition(rows: seq<TimelineStep>, events: seq<GovEvent>, ev: GovEvent, labels: Labeler)
    requires IsTimeline(rows, events, labels)
    requires rows != [] ==> MaxSeq(rows) == events[0].seqNo + |rows| - 1
    ensures NextPosition(rows, ev.seqNo) == (events + [ev])[0].seqNo + |rows|
  {
    hide MaxSeq, RowOf, Own;
    assert rows == [] <==> events == [];
  }

  lemma ReduceNew(rows: seq<TimelineStep>, ev: GovEvent, labels: Labeler)
    requires FindKey(rows, KeyOf(ev)).None?
    ensures ReduceSteps(rows, ev, labels) ==
            Sort(rows + [RowOf([ev], NextPosition(rows, ev.seqNo), labels)], SeqOrder())
  {
    AloneMerges(ev);
    hide Sort, MergedDetail, KeyOf, Spread, FindKey, NextPosition, RowStatus;
  }

  lemma Added(rows: seq<TimelineStep>, events: seq<GovEvent>, ev: GovEvent, labels: Labeler)
    returns (added: TimelineStep)
    requires IsTimeline(rows, events, labels)
    requires FindKey(rows, KeyOf(ev)).None? && KeyOf(ev) !in Arrivals(events)
    requires rows != [] ==> MaxSeq(rows) == events[0].seqNo + |rows| - 1
    ensures Own(events + [ev], KeyOf(ev)) != []
    ensures added == RowOf(Own(events + [ev], KeyOf(ev)), (events + [ev])[0].seqNo + |rows|, labels)
    ensures ReduceSteps(rows, ev, labels) == Sort(rows + [added], SeqOrder())
  {
    OwnOfNew(events, ev);
    FirstPosition(rows, events, ev, labels);
    hide Own, Sort, MergedDetail, KeyOf, Arrivals, FindKey, IsTimeline, NextPosition, MaxSeq, RowOf, ReduceSteps;
    added := RowOf([ev], (events + [ev])[0].seqNo + |rows|, labels);
    ReduceNew(rows, ev, labels);
  }

  /** The fold refines the key-by-key reading, whatever the interleaving and the numbering. */
  lemma {:induction false} FoldIsTimeline(events: seq<GovEvent>, labels: Labeler)
    ensures IsTimeline(Fold(events, labels), events, labels)
  {
    hide ReduceSteps;
    if events != [] {
      var n := |events| - 1;
      FoldIsTimeline(events[..n], labels);
      StepKeepsTimeline(Fold(events[..n], labels), events[..n], events[n], labels);
      assert events == events[..n] + [events[n]];
    }
  }

  // ---- what the timeline promises ----------------------------------------------------------

  /** Row keys never repeat, positions rise strictly, and there is a row exactly for every key seen. */
  lemma FoldIsOrdered(events: seq<GovEvent>, labels: Labeler)
    ensures var rows := Fold(events, labels);
            && (forall i, j :: 0 <= i < j < |rows| ==> rows[i].key != rows[j].key && rows[i].seqNo < rows[j].seqNo)
            && |rows| == |Arrivals(events)|
            && forall i :: 0 <= i < |rows| ==> rows[i].key == Arrivals(events)[i]
  {
    hide RowOf, Own, Fold;
    FoldIsTimeline(events, labels);
    TimelineRows(Fold(events, labels), events, labels);
  }

  /** Interleaving: two streams that agree on one key's events show the same row for it, wherever the
      other keys' events fall. */
  lemma RowIsItsOwnEvents(a: seq<GovEvent>, b: seq<GovEvent>, labels: Labeler, i: nat, j: nat)
    requires i < |Arrivals(a)| && j < |Arrivals(b)| && Arrivals(a)[i] == Arrivals(b)[j]
    requires Own(a, Arrivals(a)[i]) == Own(b, Arrivals(b)[j])
    ensures |Fold(a, labels)| == |Arrivals(a)| && |Fold(b, labels)| == |Arrivals(b)|
    ensures Fold(b, labels)[j] == Fold(a, labels)[i].(seqNo := b[0].seqNo + j)
  {
    FoldIsTimeline(a, labels);
    FoldIsTimeline(b, labels);
  }

  /** The same events with ids, numbered differently. */
  ghost predicate Renumbers(a: seq<GovEvent>, b: seq<GovEvent>) {
    |a| == |b| && forall i :: 0 <= i < |a| ==> a[i].id.Some? && b[i] == a[i].(seqNo := b[i].seqNo)
  }

  lemma {:induction false} RenumberOwn(a: seq<GovEvent>, b: seq<GovEvent>, key: string)
    requires Renumbers(a, b)
    ensures Renumbers(Own(a, key), Own(b, key))
  {
    if a != [] {
      RenumberOwn(a[1..], b[1..], key);
      assert KeyOf(a[0]) == KeyOf(b[0]);
    }
  }

  lemma {:induction false} RenumberDetail(a: seq<GovEvent>, b: seq<GovEvent>)
    requires Renumbers(a, b)
    ensures MergedDetail(a) == MergedDetail(b)
  {
    if a != [] {
      var n := |a| - 1;
      RenumberDetail(a[..n], b[..n]);
      assert a[n].detail == b[n].detail;
    }
  }

  lemma {:induction false} RenumberArrivals(a: seq<GovEvent>, b: seq<GovEvent>)
    requires Renumbers(a, b)
    ensures Arrivals(a) == Arrivals(b)
  {
    if a != [] {
      var n := |a| - 1;
      RenumberArrivals(a[..n], b[..n]);
      assert KeyOf(a[n]) == KeyOf(b[n]);
    }
  }

  /** A restarted counter: renumbering events that carry ids moves every position by one constant and
      changes nothing else, so `seq` never reorders the timeline. */
  lemma RenumberingShifts(a: seq<GovEvent>, b: seq<GovEvent>, labels: Labeler)
    requires Renumbers(a, b) && a != []
    ensures |Fold(a, labels)| == |Fold(b, labels)|
    ensures forall i :: 0 <= i < |Fold(a, labels)| ==>
              Fold(b, labels)[i] ==
              Fold(a, labels)[i].(seqNo := Fold(a, labels)[i].seqNo + (b[0].seqNo - a[0].seqNo))
  {
    hide Fold, Own, MergedDetail, Arrivals;
    FoldIsTimeline(a, labels);
    FoldIsTimeline(b, labels);
    RenumberArrivals(a, b);
    forall i | 0 <= i < |Fold(a, labels)|
      ensures Fold(b, labels)[i] ==
              Fold(a, labels)[i].(seqNo := Fold(a, labels)[i].seqNo + (b[0].seqNo - a[0].seqNo))
    {
      var own, own' := Own(a, Arrivals(a)[i]), Own(b, Arrivals(a)[i]);
      RenumberOwn(a, b, Arrivals(a)[i]);
      RenumberDetail(own, own');
      assert own'[|own'| - 1] == own[|own| - 1].(seqNo := own'[|own'| - 1].seqNo);
    }
  }

  // ---- repairs -------------------------------------------------------------------------------

  // ---- a row, read off the events ----------------------------------------------------------

  /** Event `j` is of this key and carries the property. */
  predicate Carries(events: seq<GovEvent>, key: string, j: nat, p: string) {
    j < |events| && KeyOf(events[j]) == key && events[j].detail.Some? && p in events[j].detail.value
  }

  /** And no later one does. */
  ghost predicate CarriesLast(events: seq<GovEvent>, key: string, j: nat, p: string) {
    Carries(events, key, j, p) && forall k: nat :: k > j ==> !Carries(events, key, k, p)
  }

  /** The detail says of the property what the events said: it has it exactly if one of them carried it, and
      with the value of the last that did. */
  ghost predicate IsSaid(events: seq<GovEvent>, key: string, detail: Detail, p: string) {
    && (p in detail <==> exists j: nat :: Carries(events, key, j, p))
    && (forall j: nat :: CarriesLast(events, key, j, p) ==> p in detail && detail[p] == events[j].detail.value[p])
  }

  lemma NotSaidNow(before: seq<GovEvent>, ev: GovEvent, key: string, detail: Detail, p: string)
    requires IsSaid(before, key, detail, p)
    requires !(KeyOf(ev) == key && ev.detail.Some? && p in ev.detail.value)
    ensures IsSaid(before + [ev], key, detail, p)
  {
    hide KeyOf;
    var events, n: nat := before + [ev], |before|;
    forall j: nat ensures Carries(events, key, j, p) <==> Carries(before, key, j, p) {
      if j < n { assert events[j] == before[j]; }
      if j == n { assert events[j] == ev; }
    }
    forall j: nat | CarriesLast(events, key, j, p) ensures CarriesLast(before, key, j, p) && events[j] == before[j] {
      forall k: nat | k > j ensures !Carries(before, key, k, p) {
        assert !Carries(events, key, k, p);
      }
    }
  }

  lemma SaidNow(before: seq<GovEvent>, ev: GovEvent, key: string, detail: Detail, p: string)
    requires KeyOf(ev) == key && ev.detail.Some? && p in ev.detail.value
    requires p in detail && detail[p] == ev.detail.value[p]
    ensures IsSaid(before + [ev], key, detail, p)
  {
    hide KeyOf;
    var events, n: nat := before + [ev], |before|;
    assert events[n] == ev && Carries(events, key, n, p);
  }

  lemma SaidAlike(events: seq<GovEvent>, key: string, detail: Detail, other: Detail, p: string)
    requires IsSaid(events, key, detail, p)
    requires (p in other <==> p in detail) && (p in detail ==> other[p] == detail[p])
    ensures IsSaid(events, key, other, p)
  {
  }

  lemma SaidSnoc(before: seq<GovEvent>, ev: GovEvent, key: string, detail: Detail, p: string)
    requires IsSaid(before, key, detail, p)
    ensures KeyOf(ev) == key && ev.detail.Some? ==> IsSaid(before + [ev], key, detail + ev.detail.value, p)
    ensures KeyOf(ev) != key || ev.detail.None? ==> IsSaid(before + [ev], key, detail, p)
  {
    hide KeyOf, Carries, CarriesLast;
    if KeyOf(ev) == key && ev.detail.Some? {
      if p in ev.detail.value {
        SaidNow(before, ev, key, detail + ev.detail.value, p);
      } else {
        NotSaidNow(before, ev, key, detail, p);
        SaidAlike(before + [ev], key, detail, detail + ev.detail.value, p);
      }
    } else {
      NotSaidNow(before, ev, key, detail, p);
    }
  }

  lemma {:induction false} DetailOfKey(events: seq<GovEvent>, key: string, p: string)
    ensures IsSaid(events, key, MergedDetail(Own(events, key)), p)
  {
    if events == [] {
      NoOwn(key);
    } else {
      hide KeyOf, Own, IsSaid, MergedDetail;
      var n := |events| - 1;
      var before, ev := events[..n], events[n];
      assert events == before + [ev];
      DetailOfKey(before, key, p);
      SaidSnoc(before, ev, key, MergedDetail(Own(before, key)), p);
      OwnSnoc(before, ev, key);
      MergedSnoc(Own(before, key), ev);
    }
  }

  lemma MergedSnoc(own: seq<GovEvent>, ev: GovEvent)
    ensures MergedDetail(own + [ev]) ==
            if ev.detail.Some? then MergedDetail(own) + ev.detail.value else MergedDetail(own)
    ensures own + [] == own
  {
    assert (own + [ev])[..|own|] == own;
  }

  lemma NoOwn(key: string)
    ensures Own([], key) == []
  {
  }

  /** What the last event of all carries is what its row says; what none carries is not there. */
  lemma SaidByLast(events: seq<GovEvent>, key: string, detail: Detail, p: string)
    requires events != [] && KeyOf(events[|events| - 1]) == key && events[|events| - 1].detail.Some?
    requires IsSaid(events, key, detail, p)
    ensures p in events[|events| - 1].detail.value ==>
              p in detail && detail[p] == events[|events| - 1].detail.value[p]
    ensures (forall j :: 0 <= j < |events| && KeyOf(events[j]) == key && events[j].detail.Some? ==>
               p !in events[j].detail.value) ==> p !in detail
  {
    hide KeyOf;
    var n: nat := |events| - 1;
    if p in events[n].detail.value {
      assert CarriesLast(events, key, n, p);
    }
  }

  /** The last event of the key. */
  ghost predicate IsLast(events: seq<GovEvent>, key: string, j: nat) {
    j < |events| && KeyOf(events[j]) == key && forall k: nat :: j < k < |events| ==> KeyOf(events[k]) != key
  }

  lemma {:induction false} LastOfKey(events: seq<GovEvent>, key: string, j: nat)
    requires IsLast(events, key, j)
    ensures Own(events, key) != [] && Own(events, key)[|Own(events, key)| - 1] == events[j]
  {
    hide KeyOf, Own;
    var n: nat := |events| - 1;
    assert events == events[..n] + [events[n]];
    OwnSnoc(events[..n], events[n], key);
    if j < n {
      assert KeyOf(events[n]) != key;
      LastOfKey(events[..n], key, j);
    }
  }

  /** A row of the timeline: kind, step and status are those of the last event of its key, running exactly
      while that is a start; every property any of its events carried is in its detail, with the value given
      last, and no other. */
  lemma RowSays(events: seq<GovEvent>, labels: Labeler, i: nat, j: nat)
    requires i < |Arrivals(events)| && IsLast(events, Arrivals(events)[i], j)
    ensures i < |Fold(events, labels)|
    ensures var key, row, last := Arrivals(events)[i], Fold(events, labels)[i], events[j];
            && row.key == key && row.kind == last.kind && row.step == last.step
            && (row.status == Running <==> last.status == Start)
            && (forall v :: row.status == Settled(v) <==> last.status == Done(v))
            && row.caption == (if last.caption.Some? then last.caption.value
                               else labels(row.step, row.status, row.detail))
            && (forall p :: IsSaid(events, key, row.detail, p))
  {
    hide KeyOf, Own, MergedDetail, IsSaid, IsLast, Fold;
    var key := Arrivals(events)[i];
    FoldIsTimeline(events, labels);
    LastOfKey(events, key, j);
    RowKey(events, key, events[0].seqNo + i, labels);
    forall p ensures IsSaid(events, key, MergedDetail(Own(events, key)), p) {
      DetailOfKey(events, key, p);
    }
  }

  lemma {:induction false} KeyHasLast(events: seq<GovEvent>, key: string) returns (j: nat)
    requires key in Arrivals(events)
    ensures IsLast(events, key, j)
  {
    hide KeyOf;
    var n: nat := |events| - 1;
    if KeyOf(events[n]) == key {
      j := n;
    } else {
      j := KeyHasLast(events[..n], key);
    }
  }

  /** Events without an id share a row exactly if they are of one step and bear one number. */
  lemma UnnamedKeys(a: GovEvent, b: GovEvent)
    requires a.id.None? && b.id.None?
    ensures KeyOf(a) == KeyOf(b) <==> a.step == b.step && a.seqNo == b.seqNo
  {
    if KeyOf(a) == KeyOf(b) {
      SplitLast(a.step, Decimal(a.seqNo), b.step, Decimal(b.seqNo), ':');
      DecimalIsInjective(a.seqNo, b.seqNo);
    }
  }

  /** Events with an id share a row exactly if they share the id. */
  lemma NamedKeys(a: GovEvent, b: GovEvent)
    requires a.id.Some? && b.id.Some?
    ensures KeyOf(a) == KeyOf(b) <==> a.id == b.id
  {
  }


  /** The row of `key` will count as a repair: its last event is a failed check. */
  predicate EndsInRepair(own: seq<GovEvent>) {
    own != [] && own[|own| - 1].step == "check"
    && (own[|own| - 1].status == Done(Blocked) || own[|own| - 1].status == Done(Error))
  }

  function RepairKey(events: seq<GovEvent>): string -> bool {
    (key: string) => EndsInRepair(Own(events, key))
  }

  lemma {:induction false} FilterPairs<A, B>(xs: seq<A>, ys: seq<B>, p: A -> bool, q: B -> bool)
    requires |xs| == |ys| && forall i :: 0 <= i < |xs| ==> p(xs[i]) == q(ys[i])
    ensures |Filter(xs, p)| == |Filter(ys, q)|
  {
    if xs != [] {
      assert p(xs[0]) == q(ys[0]);
      FilterPairs(xs[1..], ys[1..], p, q);
    }
  }

  /** A repair is counted once per check that ended in a block or an error, however many events it took. */
  lemma RepairsAreFailedChecks(events: seq<GovEvent>, labels: Labeler)
    ensures CountRepairs(Fold(events, labels)) == |Filter(Arrivals(events), RepairKey(events))|
  {
    hide Fold, Own, MergedDetail, Arrivals;
    FoldIsTimeline(events, labels);
    FilterPairs(Fold(events, labels), Arrivals(events), RepairTest(), RepairKey(events));
  }
}
