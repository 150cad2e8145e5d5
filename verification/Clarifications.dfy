/** `withClarifications` of `ui/hooks/use-stream-chat.ts`: client-held facts joined onto the
    event-folded rows at render time. */
module Clarifications {
  import opened Text
  import opened Lists
  import opened Steps
  import Json

  datatype Resolution = Resolution(declined: bool, answer: Option<string>)

  datatype Fact = Fact(id: string, question: string, why: string, resolution: Option<Resolution>)

  const ASK := "ask_user"
  const PREFIX := "clarification:"

  /** The clarification a row asks about, if it is an `ask_user` row. */
  function AsksFor(row: TimelineStep): Option<Json.Value> {
    if row.step == ASK then Some(Json.At(row.detail, "clarification_id")) else None
  }

  predicate Matches(row: TimelineStep, id: string) {
    AsksFor(row) == Some(Json.Str(id))
  }

  /** `findIndex`: the first row that asks about `id`. */
  function FindAsk(rows: seq<TimelineStep>, id: string): (at: Option<nat>)
    ensures at.Some? ==> at.value < |rows| && Matches(rows[at.value], id)
    ensures at.Some? ==> forall i :: 0 <= i < at.value ==> !Matches(rows[i], id)
    ensures at.None? ==> forall i :: 0 <= i < |rows| ==> !Matches(rows[i], id)
  {
    if rows == [] then None
    else if Matches(rows[0], id) then Some(0)
    else
      var later := FindAsk(rows[1..], id);
      if later.Some? then Some(later.value + 1) else None
  }

  function FactDetail(fact: Fact): Detail {
    map["clarification_id" := Json.Str(fact.id), "question" := Json.Str(fact.question), "why" := Json.Str(fact.why)]
    + (match fact.resolution
       case None => map[]
       case Some(r) =>
         if r.declined then map["declined" := Json.Bool(true)]
         else map["answer" := if r.answer.Some? then Json.Str(r.answer.value) else Json.Undefined])
  }

  /** The engine's settled status wins; a resolution only fills in for a row still running. */
  function MergedRow(row: TimelineStep, fact: Fact, labels: Labeler): TimelineStep {
    var detail := row.detail + FactDetail(fact);
    var status :=
      if row.status == Running && fact.resolution.Some? then
        (if fact.resolution.value.declined then Settled(Declined) else Settled(Ok))
      else row.status;
    row.(status := status, caption := labels(row.step, status, detail), detail := detail)
  }

  /** The largest position held, or 0. */
  function Top(rows: seq<TimelineStep>): int {
    if rows == [] then 0
    else
      var m := Top(rows[..|rows| - 1]);
      if rows[|rows| - 1].seqNo > m then rows[|rows| - 1].seqNo else m
  }

  function AskRow(position: int, fact: Fact, labels: Labeler): TimelineStep {
    var detail := FactDetail(fact);
    TimelineStep(PREFIX + fact.id, position, Tool, ASK, Running, labels(ASK, Running, detail), detail)
  }

  function Join(rows: seq<TimelineStep>, fact: Fact, labels: Labeler): seq<TimelineStep> {
    var at := FindAsk(rows, fact.id);
    if at.Some? then rows[at.value := MergedRow(rows[at.value], fact, labels)]
    else if fact.resolution.Some? then rows
    else rows + [AskRow(Top(rows) + 1, fact, labels)]
  }

  function JoinAll(steps: seq<TimelineStep>, facts: seq<Fact>, labels: Labeler): seq<TimelineStep> {
    if facts == [] then steps else Join(JoinAll(steps, facts[..|facts| - 1], labels), facts[|facts| - 1], labels)
  }

  method WithClarifications(steps: seq<TimelineStep>, facts: seq<Fact>, labels: Labeler)
    returns (out: seq<TimelineStep>)
    ensures out == JoinAll(steps, facts, labels)
  {
    hide MergedRow, AskRow, Top;
    out := steps;
    for k := 0 to |facts|
      invariant out == JoinAll(steps, facts[..k], labels)
    {
      assert facts[..k + 1][..k] == facts[..k];
      var fact := facts[k];
      var at := FindAsk(out, fact.id);
      if at.Some? {
        out := out[at.value := MergedRow(out[at.value], fact, labels)];
      } else if fact.resolution.None? {
        out := out + [AskRow(Top(out) + 1, fact, labels)];
      }
    }
    assert facts[..|facts|] == facts;
  }

  // ---- the projection, row by row --------------------------------------------------------

  ghost predicate DistinctFacts(facts: seq<Fact>) {
    forall i, j :: 0 <= i < j < |facts| ==> facts[i].id != facts[j].id
  }

  /** Pending, and no engine row asks about it. */
  predicate IsNew(steps: seq<TimelineStep>, fact: Fact) {
    fact.resolution.None? && FindAsk(steps, fact.id).None?
  }

  function NewTest(steps: seq<TimelineStep>): Fact -> bool {
    (fact: Fact) => IsNew(steps, fact)
  }

  /** The facts that get a row of their own. */
  function NewFacts(steps: seq<TimelineStep>, facts: seq<Fact>): seq<Fact> {
    Filter(facts, NewTest(steps))
  }

  /** The fact whose first matching row is row `i`. */
  function FactFor(steps: seq<TimelineStep>, facts: seq<Fact>, i: nat): Option<Fact> {
    if facts == [] then None
    else if FindAsk(steps, facts[|facts| - 1].id) == Some(i) then Some(facts[|facts| - 1])
    else FactFor(steps, facts[..|facts| - 1], i)
  }

  function Shown(steps: seq<TimelineStep>, facts: seq<Fact>, i: nat, labels: Labeler): TimelineStep
    requires i < |steps|
  {
    var fact := FactFor(steps, facts, i);
    if fact.Some? then MergedRow(steps[i], fact.value, labels) else steps[i]
  }

  /** The engine's rows in place and in order, each merged with at most its own fact, then one row
      per new fact, numbered on. */
  ghost predicate IsProjection(rows: seq<TimelineStep>, steps: seq<TimelineStep>, facts: seq<Fact>, labels: Labeler) {
    var added := NewFacts(steps, facts);
    && |rows| == |steps| + |added|
    && (forall i :: 0 <= i < |steps| ==> rows[i] == Shown(steps, facts, i, labels))
    && (forall j :: 0 <= j < |added| ==> rows[|steps| + j] == AskRow(Top(steps) + 1 + j, added[j], labels))
  }

  lemma MergeKeepsAsk(row: TimelineStep, fact: Fact, labels: Labeler)
    requires Matches(row, fact.id)
    ensures AsksFor(MergedRow(row, fact, labels)) == AsksFor(row)
  {
  }

  lemma {:induction false} FactForMatches(steps: seq<TimelineStep>, facts: seq<Fact>, i: nat)
    ensures FactFor(steps, facts, i).Some? ==>
              FactFor(steps, facts, i).value in facts && FindAsk(steps, FactFor(steps, facts, i).value.id) == Some(i)
    ensures FactFor(steps, facts, i).None? ==> forall f :: f in facts ==> FindAsk(steps, f.id) != Some(i)
  {
    if facts != [] {
      FactForMatches(steps, facts[..|facts| - 1], i);
      assert facts == facts[..|facts| - 1] + [facts[|facts| - 1]];
    }
  }

  lemma ShownKeepsAsk(steps: seq<TimelineStep>, facts: seq<Fact>, i: nat, labels: Labeler)
    requires i < |steps|
    ensures AsksFor(Shown(steps, facts, i, labels)) == AsksFor(steps[i])
    ensures Shown(steps, facts, i, labels).key == steps[i].key
    ensures Shown(steps, facts, i, labels).seqNo == steps[i].seqNo
  {
    FactForMatches(steps, facts, i);
    if FactFor(steps, facts, i).Some? {
      MergeKeepsAsk(steps[i], FactFor(steps, facts, i).value, labels);
    }
  }

  lemma AskRowAsks(position: int, fact: Fact, labels: Labeler)
    ensures AsksFor(AskRow(position, fact, labels)) == Some(Json.Str(fact.id))
  {
  }

  /** Where a projection's rows ask, row by row. */
  lemma ProjectionAsks(rows: seq<TimelineStep>, steps: seq<TimelineStep>, facts: seq<Fact>, labels: Labeler)
    requires IsProjection(rows, steps, facts, labels)
    ensures forall i :: 0 <= i < |steps| ==> AsksFor(rows[i]) == AsksFor(steps[i])
    ensures forall j :: |steps| <= j < |rows| ==> Matches(rows[j], NewFacts(steps, facts)[j - |steps|].id)
  {
    hide Shown, AskRow, NewFacts;
    forall i | 0 <= i < |steps| ensures AsksFor(rows[i]) == AsksFor(steps[i]) {
      ShownKeepsAsk(steps, facts, i, labels);
    }
    var added := NewFacts(steps, facts);
    forall j | |steps| <= j < |rows| ensures Matches(rows[j], added[j - |steps|].id) {
      AskRowAsks(Top(steps) + 1 + (j - |steps|), added[j - |steps|], labels);
      assert rows[|steps| + (j - |steps|)] == AskRow(Top(steps) + 1 + (j - |steps|), added[j - |steps|], labels);
    }
  }

  /** An unseen fact finds its row among the engine's, or nowhere. */
  lemma FindAskInProjection(rows: seq<TimelineStep>, steps: seq<TimelineStep>, facts: seq<Fact>, fact: Fact,
                            labels: Labeler)
    requires IsProjection(rows, steps, facts, labels)
    requires forall f :: f in facts ==> f.id != fact.id
    ensures FindAsk(rows, fact.id) == FindAsk(steps, fact.id)
  {
    hide Shown, AskRow, AsksFor;
    ProjectionAsks(rows, steps, facts, labels);
    FilterHolds(facts, NewTest(steps));
    forall j | |steps| <= j < |rows| ensures !Matches(rows[j], fact.id) {
      assert NewFacts(steps, facts)[j - |steps|] in NewFacts(steps, facts);
    }
    var at := FindAsk(steps, fact.id);
    var at' := FindAsk(rows, fact.id);
    if at.Some? {
      assert Matches(rows[at.value], fact.id);
    }
  }

  lemma {:induction false} TopNumbersOn(steps: seq<TimelineStep>, more: seq<TimelineStep>)
    requires forall j :: 0 <= j < |more| ==> more[j].seqNo == Top(steps) + 1 + j
    ensures Top(steps + more) == Top(steps) + |more|
  {
    if more == [] {
      assert steps + more == steps;
    } else {
      var n := |more| - 1;
      assert (steps + more)[..|steps + more| - 1] == steps + more[..n];
      TopNumbersOn(steps, more[..n]);
    }
  }

  lemma {:induction false} TopOfSame(a: seq<TimelineStep>, b: seq<TimelineStep>)
    requires |a| == |b| && forall i :: 0 <= i < |a| ==> a[i].seqNo == b[i].seqNo
    ensures Top(a) == Top(b)
  {
    if a != [] {
      TopOfSame(a[..|a| - 1], b[..|b| - 1]);
    }
  }

  lemma TopOfProjection(rows: seq<TimelineStep>, steps: seq<TimelineStep>, facts: seq<Fact>, labels: Labeler)
    requires IsProjection(rows, steps, facts, labels)
    ensures Top(rows) == Top(steps) + |NewFacts(steps, facts)|
  {
    hide Shown, NewFacts;
    var n := |steps|;
    forall i | 0 <= i < n ensures rows[..n][i].seqNo == steps[i].seqNo {
      ShownKeepsAsk(steps, facts, i, labels);
    }
    TopOfSame(rows[..n], steps);
    assert rows == rows[..n] + rows[n..];
    forall j | 0 <= j < |rows[n..]| ensures rows[n..][j].seqNo == Top(steps) + 1 + j {
      assert rows[n..][j] == rows[n + j];
      assert rows[n + j] == AskRow(Top(steps) + 1 + j, NewFacts(steps, facts)[j], labels);
    }
    TopNumbersOn(rows[..n], rows[n..]);
  }

  lemma FactsBefore(facts: seq<Fact>, fact: Fact)
    requires DistinctFacts(facts + [fact])
    ensures DistinctFacts(facts) && forall f :: f in facts ==> f.id != fact.id
  {
    var all := facts + [fact];
    forall f | f in facts ensures f.id != fact.id {
      var i :| 0 <= i < |facts| && facts[i] == f;
      assert all[i].id != all[|facts|].id;
    }
    forall i, j | 0 <= i < j < |facts| ensures facts[i].id != facts[j].id {
      assert all[i].id != all[j].id;
    }
  }

  lemma JoinKeepsProjection(rows: seq<TimelineStep>, steps: seq<TimelineStep>, facts: seq<Fact>, fact: Fact,
                            labels: Labeler)
    requires IsProjection(rows, steps, facts, labels)
    requires DistinctFacts(facts + [fact])
    ensures IsProjection(Join(rows, fact, labels), steps, facts + [fact], labels)
  {
    hide IsProjection, AskRow, MergedRow, FindAsk, Top, NewFacts;
    FactsBefore(facts, fact);
    FindAskInProjection(rows, steps, facts, fact, labels);
    if FindAsk(steps, fact.id).Some? {
      JoinMerges(rows, steps, facts, fact, labels);
    } else {
      JoinAppends(rows, steps, facts, fact, labels);
    }
  }

  lemma JoinMerges(rows: seq<TimelineStep>, steps: seq<TimelineStep>, facts: seq<Fact>, fact: Fact, labels: Labeler)
    requires IsProjection(rows, steps, facts, labels)
    requires forall f :: f in facts ==> f.id != fact.id
    requires FindAsk(steps, fact.id).Some? && FindAsk(rows, fact.id) == FindAsk(steps, fact.id)
    ensures IsProjection(Join(rows, fact, labels), steps, facts + [fact], labels)
  {
    hide AskRow, MergedRow, FindAsk, Top;
    var all := facts + [fact];
    assert all[..|all| - 1] == facts;
    FilterSnoc(facts, fact, NewTest(steps));
    OneFactPerRow(steps, facts, fact);
  }

  lemma JoinAppends(rows: seq<TimelineStep>, steps: seq<TimelineStep>, facts: seq<Fact>, fact: Fact, labels: Labeler)
    requires IsProjection(rows, steps, facts, labels)
    requires FindAsk(steps, fact.id).None? && FindAsk(rows, fact.id).None?
    ensures IsProjection(Join(rows, fact, labels), steps, facts + [fact], labels)
  {
    hide AskRow, MergedRow, FindAsk, Top;
    var all := facts + [fact];
    assert all[..|all| - 1] == facts;
    TopOfProjection(rows, steps, facts, labels);
    FilterSnoc(facts, fact, NewTest(steps));
  }

  lemma OneFactPerRow(steps: seq<TimelineStep>, facts: seq<Fact>, fact: Fact)
    requires FindAsk(steps, fact.id).Some?
    requires forall f :: f in facts ==> f.id != fact.id
    ensures FindAsk(steps, fact.id).value < |steps|
    ensures FactFor(steps, facts, FindAsk(steps, fact.id).value).None?
  {
    FactForMatches(steps, facts, FindAsk(steps, fact.id).value);
  }

  /** Whatever the rows and the facts, the projection is the row-by-row reading. */
  lemma {:induction false} JoinAllProjects(steps: seq<TimelineStep>, facts: seq<Fact>, labels: Labeler)
    requires DistinctFacts(facts)
    ensures IsProjection(JoinAll(steps, facts, labels), steps, facts, labels)
  {
    hide Join;
    if facts != [] {
      var n := |facts| - 1;
      JoinAllProjects(steps, facts[..n], labels);
      assert facts == facts[..n] + [facts[n]];
      JoinKeepsProjection(JoinAll(steps, facts[..n], labels), steps, facts[..n], facts[n], labels);
    }
  }

  // ---- what the projection promises ----------------------------------------------------------

  /** Engine rows keep their place, key and position, and a status the engine settled; a row appears
      only for a pending question no engine row asks, so resolved facts never add one. */
  lemma EngineRowsStand(steps: seq<TimelineStep>, facts: seq<Fact>, labels: Labeler)
    requires DistinctFacts(facts)
    ensures |JoinAll(steps, facts, labels)| == |steps| + |NewFacts(steps, facts)|
    ensures forall i :: 0 <= i < |steps| ==>
              var row := JoinAll(steps, facts, labels)[i];
              && row.key == steps[i].key && row.seqNo == steps[i].seqNo
              && (steps[i].status != Running ==> row.status == steps[i].status)
    ensures (forall f :: f in facts ==> f.resolution.Some?) ==> |JoinAll(steps, facts, labels)| == |steps|
  {
    JoinAllProjects(steps, facts, labels);
    forall i | 0 <= i < |steps|
      ensures var row := JoinAll(steps, facts, labels)[i];
              && row.key == steps[i].key && row.seqNo == steps[i].seqNo
              && (steps[i].status != Running ==> row.status == steps[i].status)
    {
      ShownKeepsAsk(steps, facts, i, labels);
    }
    FilterNone(facts, NewTest(steps));
  }

  ghost predicate DistinctKeys(rows: seq<TimelineStep>) {
    forall i, j :: 0 <= i < j < |rows| ==> rows[i].key != rows[j].key
  }

  lemma {:induction false} NewFactsDistinct(steps: seq<TimelineStep>, facts: seq<Fact>)
    requires DistinctFacts(facts)
    ensures DistinctFacts(NewFacts(steps, facts))
  {
    if facts != [] {
      assert DistinctFacts(facts[1..]);
      NewFactsDistinct(steps, facts[1..]);
      FilterHolds(facts[1..], NewTest(steps));
      var later := NewFacts(steps, facts[1..]);
      forall j | 0 <= j < |later| ensures later[j].id != facts[0].id {
        assert later[j] in later;
        assert later[j] in facts[1..];
      }
    }
  }

  /** Rows never share a key, exactly when no engine key spells the prefixed id of a new question. */
  lemma KeysStayDistinct(steps: seq<TimelineStep>, facts: seq<Fact>, labels: Labeler)
    requires DistinctFacts(facts) && DistinctKeys(steps)
    ensures DistinctKeys(JoinAll(steps, facts, labels)) <==>
            forall f, row :: f in NewFacts(steps, facts) && row in steps ==> row.key != PREFIX + f.id
  {
    hide NewFacts, Shown, JoinAll;
    JoinAllProjects(steps, facts, labels);
    var rows, added, n := JoinAll(steps, facts, labels), NewFacts(steps, facts), |steps|;
    NewFactsDistinct(steps, facts);
    forall i | 0 <= i < n ensures rows[i].key == steps[i].key {
      ShownKeepsAsk(steps, facts, i, labels);
    }
    forall j | 0 <= j < |added| ensures rows[n + j].key == PREFIX + added[j].id {
      assert rows[n + j] == AskRow(Top(steps) + 1 + j, added[j], labels);
    }
    if DistinctKeys(rows) {
      forall f, row | f in added && row in steps ensures row.key != PREFIX + f.id {
        var i :| 0 <= i < n && steps[i] == row;
        var j :| 0 <= j < |added| && added[j] == f;
        assert rows[i].key != rows[n + j].key;
      }
    }
    if forall f, row :: f in added && row in steps ==> row.key != PREFIX + f.id {
      KeysApart(rows, steps, added);
    }
  }

  lemma PrefixIsInjective(prefix: string, a: string, b: string)
    ensures prefix + a == prefix + b ==> a == b
  {
    assert (prefix + a)[|prefix|..] == a && (prefix + b)[|prefix|..] == b;
  }

  lemma KeysApart(rows: seq<TimelineStep>, steps: seq<TimelineStep>, added: seq<Fact>)
    requires |rows| == |steps| + |added| && DistinctKeys(steps) && DistinctFacts(added)
    requires forall i :: 0 <= i < |steps| ==> rows[i].key == steps[i].key
    requires forall j :: 0 <= j < |added| ==> rows[|steps| + j].key == PREFIX + added[j].id
    requires forall f, row :: f in added && row in steps ==> row.key != PREFIX + f.id
    ensures DistinctKeys(rows)
  {
    var n := |steps|;
    forall i, j | 0 <= i < j < |rows| ensures rows[i].key != rows[j].key {
      if j >= n {
        assert rows[n + (j - n)].key == PREFIX + added[j - n].id;
        if i >= n {
          assert rows[n + (i - n)].key == PREFIX + added[i - n].id;
          PrefixIsInjective(PREFIX, added[i - n].id, added[j - n].id);
        } else {
          assert steps[i] in steps && added[j - n] in added;
        }
      }
    }
  }

  lemma MergeTwice(row: TimelineStep, fact: Fact, labels: Labeler)
    ensures MergedRow(MergedRow(row, fact, labels), fact, labels) == MergedRow(row, fact, labels)
  {
    var d := FactDetail(fact);
    assert row.detail + d + d == row.detail + d;
  }

  lemma MergeAskRow(position: int, fact: Fact, labels: Labeler)
    requires fact.resolution.None?
    ensures MergedRow(AskRow(position, fact, labels), fact, labels) == AskRow(position, fact, labels)
  {
    var d := FactDetail(fact);
    assert d + d == d;
  }

  /** Rendering the projection of a projection shows nothing twice and nothing new. */
  lemma JoinAllIsIdempotent(steps: seq<TimelineStep>, facts: seq<Fact>, labels: Labeler)
    requires DistinctFacts(facts)
    ensures JoinAll(JoinAll(steps, facts, labels), facts, labels) == JoinAll(steps, facts, labels)
  {
    hide JoinAll, MergedRow, AskRow, FindAsk, Top, NewFacts, FactFor;
    var rows := JoinAll(steps, facts, labels);
    JoinAllProjects(steps, facts, labels);
    JoinAllProjects(rows, facts, labels);
    NothingNew(rows, steps, facts, labels);
    var again := JoinAll(rows, facts, labels);
    forall i | 0 <= i < |rows| ensures again[i] == rows[i] {
      ShownAgain(rows, steps, facts, i, labels);
    }
  }

  lemma NewFactsAre(steps: seq<TimelineStep>, facts: seq<Fact>)
    ensures forall f :: f in NewFacts(steps, facts) <==> f in facts && IsNew(steps, f)
  {
    FilterHolds(facts, NewTest(steps));
  }

  lemma FactsPlace(rows: seq<TimelineStep>, steps: seq<TimelineStep>, facts: seq<Fact>, f: Fact, labels: Labeler)
    requires DistinctFacts(facts) && IsProjection(rows, steps, facts, labels) && f in facts
    ensures FindAsk(steps, f.id).Some? ==> FindAsk(rows, f.id) == FindAsk(steps, f.id)
    ensures FindAsk(steps, f.id).None? && f.resolution.Some? ==> FindAsk(rows, f.id).None?
    ensures FindAsk(steps, f.id).None? && f.resolution.None? ==>
              exists j :: 0 <= j < |NewFacts(steps, facts)| && NewFacts(steps, facts)[j] == f
                          && FindAsk(rows, f.id) == Some(|steps| + j)
  {
    hide Shown, AskRow, AsksFor, NewFacts;
    ProjectionAsks(rows, steps, facts, labels);
    NewFactsAre(steps, facts);
    var at := FindAsk(steps, f.id);
    if at.Some? {
      assert Matches(rows[at.value], f.id);
    } else {
      NewFactPlace(rows, steps, facts, f, labels);
    }
  }

  lemma NewFactPlace(rows: seq<TimelineStep>, steps: seq<TimelineStep>, facts: seq<Fact>, f: Fact, labels: Labeler)
    requires DistinctFacts(facts) && IsProjection(rows, steps, facts, labels) && f in facts
    requires FindAsk(steps, f.id).None?
    ensures f.resolution.Some? ==> FindAsk(rows, f.id).None?
    ensures f.resolution.None? ==>
              exists j :: 0 <= j < |NewFacts(steps, facts)| && NewFacts(steps, facts)[j] == f
                          && FindAsk(rows, f.id) == Some(|steps| + j)
  {
    hide Shown, AskRow, AsksFor, NewFacts;
    ProjectionAsks(rows, steps, facts, labels);
    NewFactsAre(steps, facts);
    var added, at := NewFacts(steps, facts), FindAsk(rows, f.id);
    if at.Some? {
      assert at.value >= |steps| && Matches(rows[at.value], added[at.value - |steps|].id);
      assert added[at.value - |steps|] in added;
      SameFact(facts, f, added[at.value - |steps|]);
    }
    if f.resolution.None? {
      assert f in added;
      var j :| 0 <= j < |added| && added[j] == f;
      assert Matches(rows[|steps| + j], f.id);
    }
  }

  lemma SameFact(facts: seq<Fact>, f: Fact, g: Fact)
    requires DistinctFacts(facts) && f in facts && g in facts && f.id == g.id
    ensures f == g
  {
    var i :| 0 <= i < |facts| && facts[i] == f;
    var j :| 0 <= j < |facts| && facts[j] == g;
  }

  lemma NothingNew(rows: seq<TimelineStep>, steps: seq<TimelineStep>, facts: seq<Fact>, labels: Labeler)
    requires DistinctFacts(facts) && IsProjection(rows, steps, facts, labels)
    ensures NewFacts(rows, facts) == []
  {
    hide IsProjection, FindAsk;
    forall f | f in facts ensures !NewTest(rows)(f) {
      FactsPlace(rows, steps, facts, f, labels);
    }
    FilterNone(facts, NewTest(rows));
  }

  lemma ShownAgain(rows: seq<TimelineStep>, steps: seq<TimelineStep>, facts: seq<Fact>, i: nat, labels: Labeler)
    requires DistinctFacts(facts) && IsProjection(rows, steps, facts, labels) && i < |rows|
    ensures Shown(rows, facts, i, labels) == rows[i]
  {
    hide MergedRow, AskRow, FindAsk, Top, NewFacts, AsksFor;
    FactForMatches(rows, facts, i);
    if FactFor(rows, facts, i).Some? {
      var f := FactFor(rows, facts, i).value;
      FactsPlace(rows, steps, facts, f, labels);
      if i < |steps| {
        FactForMatches(steps, facts, i);
        assert FindAsk(steps, f.id) == Some(i);
        var g := FactFor(steps, facts, i).value;
        SameAsk(steps, f, g, i);
        SameFact(facts, f, g);
        MergeTwice(steps[i], f, labels);
      } else {
        var j := i - |steps|;
        assert rows[|steps| + j] == AskRow(Top(steps) + 1 + j, NewFacts(steps, facts)[j], labels);
        NewIsPending(steps, facts, j);
        MergeAskRow(Top(steps) + 1 + j, f, labels);
      }
    }
  }

  lemma SameAsk(steps: seq<TimelineStep>, f: Fact, g: Fact, i: nat)
    requires FindAsk(steps, f.id) == Some(i) && FindAsk(steps, g.id) == Some(i)
    ensures f.id == g.id
  {
    assert Matches(steps[i], f.id) && Matches(steps[i], g.id);
  }

  lemma NewIsPending(steps: seq<TimelineStep>, facts: seq<Fact>, j: nat)
    requires j < |NewFacts(steps, facts)|
    ensures NewFacts(steps, facts)[j].resolution.None?
  {
    FilterHolds(facts, NewTest(steps));
    assert NewFacts(steps, facts)[j] in NewFacts(steps, facts);
  }

  /** Over any event stream whose ids avoid the prefix, the displayed timeline has no duplicate. */
  lemma DisplayedTimelineIsSound(events: seq<GovEvent>, facts: seq<Fact>, labels: Labeler)
    requires DistinctFacts(facts)
    requires forall ev :: ev in events ==> !StartsWith(KeyOf(ev), PREFIX)
    ensures DistinctKeys(JoinAll(Fold(events, labels), facts, labels))
  {
    hide Fold, JoinAll, Arrivals, Own, NewFacts;
    var steps := Fold(events, labels);
    FoldIsOrdered(events, labels);
    KeysStayDistinct(steps, facts, labels);
    forall f, row | f in NewFacts(steps, facts) && row in steps ensures row.key != PREFIX + f.id {
      var i :| 0 <= i < |steps| && steps[i] == row;
      var ev := ArrivalHasEvent(events, Arrivals(events)[i]);
      assert (PREFIX + f.id)[..|PREFIX|] == PREFIX;
    }
  }

  /** What a row shows once it is merged with its fact: its own status, or the resolution's while it was still
      running; the question asked, and the answer or the refusal to answer; everything else as it was. */
  lemma MergedShows(row: TimelineStep, fact: Fact, labels: Labeler)
    ensures var r := MergedRow(row, fact, labels);
            && r.key == row.key && r.seqNo == row.seqNo && r.kind == row.kind && r.step == row.step
            && r.caption == labels(row.step, r.status, r.detail)
            && (row.status != Running || fact.resolution.None? ==> r.status == row.status)
            && (row.status == Running && fact.resolution.Some? ==>
                  r.status.Settled? && (r.status.verdict == Declined <==> fact.resolution.value.declined)
                  && (r.status.verdict == Ok <==> !fact.resolution.value.declined))
            && SaysFact(r.detail, fact)
            && forall p :: p in row.detail && p !in ["clarification_id", "question", "why", "declined", "answer"] ==>
                             p in r.detail && r.detail[p] == row.detail[p]
  {
  }

  /** The detail tells the fact. */
  predicate SaysFact(detail: Detail, fact: Fact) {
    && "clarification_id" in detail && detail["clarification_id"] == Json.Str(fact.id)
    && "question" in detail && detail["question"] == Json.Str(fact.question)
    && "why" in detail && detail["why"] == Json.Str(fact.why)
    && (fact.resolution.Some? && fact.resolution.value.declined ==>
          "declined" in detail && detail["declined"] == Json.Bool(true))
    && (fact.resolution.Some? && !fact.resolution.value.declined ==>
          "answer" in detail && (fact.resolution.value.answer.Some? ==>
                                   detail["answer"] == Json.Str(fact.resolution.value.answer.value)))
  }

  /** An added row asks its own question: running, last, and with nothing in its detail but the fact. */
  lemma AddedShows(rows: seq<TimelineStep>, fact: Fact, labels: Labeler)
    requires fact.resolution.None?
    ensures var r := AskRow(Top(rows) + 1, fact, labels);
            && r.key == "clarification:" + fact.id && r.kind == Tool && r.step == "ask_user" && r.status == Running
            && r.detail.Keys == {"clarification_id", "question", "why"} && SaysFact(r.detail, fact)
            && r.caption == labels(r.step, r.status, r.detail)
            && r.seqNo > 0 && forall i :: 0 <= i < |rows| ==> rows[i].seqNo < r.seqNo
  {
    TopIsHighest(rows);
  }

  lemma {:induction false} TopIsHighest(rows: seq<TimelineStep>)
    ensures Top(rows) >= 0 && forall i :: 0 <= i < |rows| ==> rows[i].seqNo <= Top(rows)
  {
    if rows != [] {
      TopIsHighest(rows[..|rows| - 1]);
      assert forall i :: 0 <= i < |rows| - 1 ==> rows[i] == rows[..|rows| - 1][i];
    }
  }
}
