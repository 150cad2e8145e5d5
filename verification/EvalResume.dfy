/** The crash and resume protocol of `tools/run_datalake_eval.py`: one append-only artifact, many runs. */
module EvalResume {
  import opened Text
  import opened Lists

  datatype EvalRow = EvalRow(questionId: string, crashed: bool, body: string)

  /** A line of the artifact; lines that do not parse carry no row. */
  datatype Line = Blank | Unparsed(text: string) | Row(row: EvalRow)

  /** A process that is up: the questions its flags cover, those of them it has to ask, and those whose rows it
      has appended. */
  datatype Run = Run(covered: seq<string>, remaining: seq<string>, appended: set<string>)

  datatype Eval = Eval(file: seq<Line>, run: Option<Run>)

  predicate IsMeasured(l: Line) {
    l.Row? && !l.row.crashed
  }

  predicate IsCrashed(l: Line) {
    l.Row? && l.row.crashed
  }

  function MeasuredTest(): Line -> bool {
    (l: Line) => IsMeasured(l)
  }

  function CrashedTest(): Line -> bool {
    (l: Line) => IsCrashed(l)
  }

  /** The lines a resume keeps. */
  function Kept(file: seq<Line>): seq<Line> {
    Filter(file, MeasuredTest())
  }

  function Done(file: seq<Line>): set<string> {
    set l | l in file && IsMeasured(l) :: l.row.questionId
  }

  function NotDone(done: set<string>): string -> bool {
    (q: string) => q !in done
  }

  function Remaining(covered: seq<string>, done: set<string>): seq<string> {
    Filter(covered, NotDone(done))
  }

  // ---- launching ------------------------------------------------------------------------

  /** An attempt to launch: `sameTreatment` is the verdict of the identity check on the kept rows. */
  datatype Flags = Flags(resume: bool, truncate: bool, sameTreatment: bool)

  predicate Refuses(covered: seq<string>, file: seq<Line>, flags: Flags) {
    if flags.resume && flags.truncate then true
    else if !flags.resume then file != [] && !flags.truncate
    else file != [] && (!flags.sameTreatment || exists q :: q in Done(file) && q !in covered)
  }

  function FileAtStart(file: seq<Line>, flags: Flags): seq<Line> {
    if !flags.resume then []
    else if |Filter(file, CrashedTest())| > 0 then Kept(file)
    else file
  }

  function Launch(covered: seq<string>, s: Eval, flags: Flags): Eval {
    if s.run.Some? || Refuses(covered, s.file, flags) then s
    else
      var todo := if flags.resume then Remaining(covered, Done(s.file)) else covered;
      Eval(FileAtStart(s.file, flags), if todo == [] then None else Some(Run(covered, todo, {})))
  }

  /** `append`: one row of the run, in whatever order the workers finish. */
  function OnRow(s: Eval, row: EvalRow): Eval {
    if s.run.None? || row.questionId !in s.run.value.remaining || row.questionId in s.run.value.appended then s
    else Eval(s.file + [Row(row)], Some(s.run.value.(appended := s.run.value.appended + {row.questionId})))
  }

  function Interrupt(s: Eval): Eval {
    s.(run := None)
  }

  class EvalDriver {
    var file: seq<Line>
    var run: Option<Run>

    function Cells(): Eval
      reads this
    {
      Eval(file, run)
    }

    constructor ()
      ensures Cells() == Eval([], None)
    {
      file, run := [], None;
    }

    method DoLaunch(covered: seq<string>, flags: Flags)
      modifies this
      ensures Cells() == Launch(covered, old(Cells()), flags)
    {
      if run.Some? || (flags.resume && flags.truncate) {
        return;
      }
      if !flags.resume {
        if file != [] && !flags.truncate {
          return;
        }
        file := [];
        run := if covered == [] then None else Some(Run(covered, covered, {}));
        return;
      }
      var done, kept, retrying := ReadArtifact(file);
      var stale := AnyOutside(done, covered);
      if file != [] && (!flags.sameTreatment || stale) {
        return;
      }
      if retrying > 0 {
        file := kept;
      }
      var todo := Remaining(covered, done);
      run := if todo == [] then None else Some(Run(covered, todo, {}));
    }

    method DoOnRow(row: EvalRow)
      modifies this
      ensures Cells() == OnRow(old(Cells()), row)
    {
      if run.Some? && row.questionId in run.value.remaining && row.questionId !in run.value.appended {
        file := file + [Row(row)];
        run := Some(run.value.(appended := run.value.appended + {row.questionId}));
      }
    }

    method DoInterrupt()
      modifies this
      ensures Cells() == Interrupt(old(Cells()))
    {
      run := None;
    }
  }

  /** The loop over the artifact's lines. */
  method ReadArtifact(file: seq<Line>) returns (done: set<string>, kept: seq<Line>, retrying: nat)
    ensures done == Done(file) && kept == Kept(file) && retrying == |Filter(file, CrashedTest())|
  {
    done, kept, retrying := {}, [], 0;
    for i := 0 to |file|
      invariant done == Done(file[..i])
      invariant kept == Kept(file[..i])
      invariant retrying == |Filter(file[..i], CrashedTest())|
    {
      var line := file[i];
      assert file[..i + 1] == file[..i] + [line];
      FilterSnoc(file[..i], line, MeasuredTest());
      FilterSnoc(file[..i], line, CrashedTest());
      DoneSnoc(file[..i], line);
      if line.Row? {
        if line.row.crashed {
          retrying := retrying + 1;
        } else {
          kept := kept + [line];
          done := done + {line.row.questionId};
        }
      }
    }
    assert file[..|file|] == file;
  }

  lemma DoneSnoc(file: seq<Line>, line: Line)
    ensures Done(file + [line]) == Done(file) + (if IsMeasured(line) then {line.row.questionId} else {})
  {
    forall q ensures q in Done(file + [line]) <==> q in Done(file) || (IsMeasured(line) && q == line.row.questionId) {
      if IsMeasured(line) && q == line.row.questionId {
        assert line in file + [line];
      }
      if q in Done(file) {
        var l :| l in file && IsMeasured(l) && l.row.questionId == q;
        assert l in file + [line];
      }
    }
  }

  method AnyOutside(done: set<string>, covered: seq<string>) returns (stale: bool)
    ensures stale <==> exists q :: q in done && q !in covered
  {
    stale := exists q :: q in done && q !in covered;
  }

  // ---- safety over whole runs ----------------------------------------------------------------

  ghost predicate OneRowEach(file: seq<Line>) {
    && (forall i :: 0 <= i < |file| ==> file[i].Row?)
    && (forall i, j :: 0 <= i < j < |file| ==> file[i].row.questionId != file[j].row.questionId)
  }

  ghost predicate HasRow(file: seq<Line>, q: string) {
    exists l :: l in file && l.Row? && l.row.questionId == q
  }

  /** One row per question at most. While a run is up all of them are of questions it covers, its questions
      and the finished ones share out what it covers, and what is not its to ask is measured already. */
  ghost predicate Sound(s: Eval) {
    && OneRowEach(s.file)
    && (s.run.Some? ==>
          var run := s.run.value;
          && Distinct(run.covered) && Distinct(run.remaining)
          && (forall q :: HasRow(s.file, q) ==> q in run.covered)
          && (forall q :: q in run.remaining ==> q in run.covered)
          && (forall q :: q in run.appended ==> q in run.remaining)
          && (forall q :: q in run.covered ==> (HasRow(s.file, q) <==> q !in run.remaining || q in run.appended))
          && (forall q :: q in run.covered && q !in run.remaining ==> q in Done(s.file)))
  }

  /** Each launch brings its own scope. */
  datatype Command = LaunchRun(covered: seq<string>, flags: Flags) | RowDone(row: EvalRow) | Stop

  function Perform(s: Eval, c: Command): Eval {
    match c
    case LaunchRun(covered, flags) => Launch(covered, s, flags)
    case RowDone(row) => OnRow(s, row)
    case Stop => Interrupt(s)
  }

  function RunAll(cs: seq<Command>): Eval {
    if cs == [] then Eval([], None) else Perform(RunAll(cs[..|cs| - 1]), cs[|cs| - 1])
  }

  /** The question ids of a dataset repeat nowhere. */
  ghost predicate DistinctScopes(cs: seq<Command>) {
    forall c :: c in cs && c.LaunchRun? ==> Distinct(c.covered)
  }

  lemma {:induction false} KeptOneRowEach(file: seq<Line>)
    requires OneRowEach(file)
    ensures OneRowEach(Kept(file))
  {
    if file != [] {
      assert OneRowEach(file[1..]);
      KeptOneRowEach(file[1..]);
      FilterHolds(file[1..], MeasuredTest());
      var later := Kept(file[1..]);
      forall j | 0 <= j < |later| ensures later[j].Row? && later[j].row.questionId != file[0].row.questionId {
        assert later[j] in later;
        var k :| 0 <= k < |file[1..]| && file[1..][k] == later[j];
        assert file[k + 1] == later[j];
      }
    }
  }

  /** The artifact a resume starts from: exactly the measured rows, still one each. */
  lemma ResumeKeepsMeasured(file: seq<Line>, flags: Flags)
    requires OneRowEach(file) && flags.resume
    ensures OneRowEach(FileAtStart(file, flags))
    ensures forall l :: l in FileAtStart(file, flags) <==> l in file && IsMeasured(l)
    ensures Done(FileAtStart(file, flags)) == Done(file)
  {
    KeptOneRowEach(file);
    FilterHolds(file, MeasuredTest());
    FilterHolds(file, CrashedTest());
    FilterNone(file, CrashedTest());
    var start := FileAtStart(file, flags);
    forall l ensures l in start <==> l in file && IsMeasured(l) {
      if |Filter(file, CrashedTest())| == 0 && l in file {
        assert !CrashedTest()(l);
        var i :| 0 <= i < |file| && file[i] == l;
      }
    }
  }

  lemma LaunchStaysSound(covered: seq<string>, s: Eval, flags: Flags)
    requires Distinct(covered) && Sound(s)
    ensures Sound(Launch(covered, s, flags))
  {
    if s.run.None? && !Refuses(covered, s.file, flags) && flags.resume {
      ResumeKeepsMeasured(s.file, flags);
      FilterDistinct(covered, NotDone(Done(s.file)));
      FilterHolds(covered, NotDone(Done(s.file)));
      ResumedIsSound(covered, s, flags);
    }
  }

  lemma ResumedIsSound(covered: seq<string>, s: Eval, flags: Flags)
    requires Distinct(covered) && Sound(s) && s.run.None?
    requires !Refuses(covered, s.file, flags) && flags.resume
    ensures Sound(Launch(covered, s, flags))
  {
    hide FileAtStart;
    ResumeKeepsMeasured(s.file, flags);
    FilterDistinct(covered, NotDone(Done(s.file)));
    FilterHolds(covered, NotDone(Done(s.file)));
    var start := FileAtStart(s.file, flags);
    forall q ensures HasRow(start, q) <==> q in Done(s.file) {
      if HasRow(start, q) {
        var l :| l in start && l.Row? && l.row.questionId == q;
      }
      if q in Done(s.file) {
        var l :| l in s.file && IsMeasured(l) && l.row.questionId == q;
        assert l in start;
      }
    }
    forall q | q in Done(s.file) ensures HasRow(s.file, q) {
      var l :| l in s.file && IsMeasured(l) && l.row.questionId == q;
    }
  }

  lemma OnRowStaysSound(s: Eval, row: EvalRow)
    requires Sound(s)
    ensures Sound(OnRow(s, row))
  {
    var r := OnRow(s, row);
    if r != s {
      var line := Row(row);
      DoneSnoc(s.file, line);
      forall q ensures HasRow(r.file, q) <==> HasRow(s.file, q) || q == row.questionId {
        assert line in r.file;
        if HasRow(s.file, q) {
          var l :| l in s.file && l.Row? && l.row.questionId == q;
          assert l in r.file;
        }
      }
      assert !HasRow(s.file, row.questionId);
      forall i | 0 <= i < |s.file| ensures s.file[i].row.questionId != row.questionId {
        assert s.file[i] in s.file;
      }
    }
  }

  /** Through any sequence of launches, each with its own scope, rows and interruptions. */
  lemma {:induction false} EveryRunIsSound(cs: seq<Command>)
    requires DistinctScopes(cs)
    ensures Sound(RunAll(cs))
  {
    hide Sound, Launch, OnRow;
    if cs == [] {
      StartsSound();
    } else {
      var n := |cs| - 1;
      var s := RunAll(cs[..n]);
      assert cs[n] in cs;
      EveryRunIsSound(cs[..n]);
      match cs[n]
      case LaunchRun(covered, flags) => LaunchStaysSound(covered, s, flags);
      case RowDone(row) => OnRowStaysSound(s, row);
      case Stop => InterruptStaysSound(s);
    }
  }

  lemma StartsSound()
    ensures Sound(Eval([], None))
  {
  }

  lemma InterruptStaysSound(s: Eval)
    requires Sound(s)
    ensures Sound(Interrupt(s))
  {
  }

  /** Nothing short of `--truncate` loses a measured row, and no row is written for a question that has
      one. */
  lemma MeasuredRowsSurvive(s: Eval, c: Command, l: Line)
    requires Sound(s)
    requires c.LaunchRun? ==> c.flags.resume || !c.flags.truncate
    requires l in s.file && IsMeasured(l)
    ensures l in Perform(s, c).file
    ensures c.RowDone? && Perform(s, c) != s ==> !HasRow(s.file, c.row.questionId)
  {
    if c.LaunchRun? && c.flags.resume {
      ResumeKeepsMeasured(s.file, c.flags);
    }
  }

  /** A resume that starts asks exactly the covered questions without a measured row: every crashed one
      again, no measured one, and together with the measured ones all of them. A crashed row the scope no
      longer covers is dropped with the others. */
  lemma ResumeAsksTheRest(covered: seq<string>, s: Eval, flags: Flags)
    requires Distinct(covered) && Sound(s) && s.run.None?
    requires flags.resume && !Refuses(covered, s.file, flags)
    ensures var after := Launch(covered, s, flags);
            var todo := if after.run.Some? then after.run.value.remaining else [];
            && (forall q :: q in todo <==> q in covered && q !in Done(s.file))
            && (forall q :: q in covered <==> q in todo || q in Done(after.file))
            && (forall l :: l in s.file && IsCrashed(l) ==>
                  l !in after.file && (l.row.questionId in covered ==> l.row.questionId in todo))
  {
    ResumeKeepsMeasured(s.file, flags);
    FilterHolds(covered, NotDone(Done(s.file)));
    var after := Launch(covered, s, flags);
    var todo := Remaining(covered, Done(s.file));
    forall l | l in s.file && IsCrashed(l)
      ensures l !in after.file && (l.row.questionId in covered ==> l.row.questionId in todo)
    {
      CrashedIsNotDone(s.file, l);
    }
  }

  /** A resume under the same treatment is refused, and then changes nothing, exactly if the scope has been
      narrowed past a measured row. */
  lemma NarrowedScopeIsRefused(covered: seq<string>, s: Eval, flags: Flags)
    requires s.run.None? && flags.resume && !flags.truncate && flags.sameTreatment
    ensures Refuses(covered, s.file, flags) <==>
            exists l :: l in s.file && IsMeasured(l) && l.row.questionId !in covered
    ensures Refuses(covered, s.file, flags) ==> Launch(covered, s, flags) == s
  {
    if q :| q in Done(s.file) && q !in covered {
      var l :| l in s.file && IsMeasured(l) && l.row.questionId == q;
    }
    if l :| l in s.file && IsMeasured(l) && l.row.questionId !in covered {
      assert l.row.questionId in Done(s.file);
    }
  }

  /** What is refused whatever the scope: both flags, an artifact that would be appended to, and one of another
      treatment. A refused launch changes nothing; and with no artifact only the flags can be wrong. */
  lemma RefusedLaunches(covered: seq<string>, s: Eval, flags: Flags)
    requires s.run.None?
    ensures flags.resume && flags.truncate ==> Refuses(covered, s.file, flags)
    ensures s.file != [] && !flags.resume && !flags.truncate ==> Refuses(covered, s.file, flags)
    ensures s.file != [] && flags.resume && !flags.sameTreatment ==> Refuses(covered, s.file, flags)
    ensures s.file == [] && Refuses(covered, s.file, flags) ==> flags.resume && flags.truncate
    ensures Refuses(covered, s.file, flags) ==> Launch(covered, s, flags) == s
    ensures !flags.resume && flags.truncate ==>
              Launch(covered, s, flags) == Eval([], if covered == [] then None else Some(Run(covered, covered, {})))
  {
  }

  /** A run that covers all that an earlier one covered is not refused, and asks what that one has not
      measured: the questions new in scope, the crashed ones, and those it did not get to. */
  lemma WidenedScopeAsksTheRest(s: Eval, wide: seq<string>, flags: Flags)
    requires Sound(s) && s.run.Some? && Distinct(wide) && forall q :: q in s.run.value.covered ==> q in wide
    requires flags.resume && !flags.truncate && flags.sameTreatment
    ensures !Refuses(wide, s.file, flags)
    ensures var after := Launch(wide, Interrupt(s), flags);
            var todo := if after.run.Some? then after.run.value.remaining else [];
            forall q :: q in todo <==> q in wide && (q !in s.run.value.covered || q !in Done(s.file))
  {
    forall q | q in Done(s.file) ensures q in s.run.value.covered {
      var l :| l in s.file && IsMeasured(l) && l.row.questionId == q;
      assert HasRow(s.file, q);
    }
    ResumeAsksTheRest(wide, Interrupt(s), flags);
  }

  lemma CrashedIsNotDone(file: seq<Line>, l: Line)
    requires OneRowEach(file) && l in file && IsCrashed(l)
    ensures l.row.questionId !in Done(file)
  {
    var i :| 0 <= i < |file| && file[i] == l;
    forall m | m in file && IsMeasured(m) ensures m.row.questionId != l.row.questionId {
      var j :| 0 <= j < |file| && file[j] == m;
      assert i != j;
    }
  }

  /** A run that appended a row for each of its questions leaves exactly one row per covered question. */
  lemma FinishedRunIsComplete(s: Eval)
    requires Sound(s) && s.run.Some?
    requires forall q :: q in s.run.value.remaining ==> q in s.run.value.appended
    ensures forall q :: q in s.run.value.covered <==> HasRow(s.file, q)
    ensures |s.file| == |s.run.value.covered|
  {
    var covered := s.run.value.covered;
    var ids := seq(|s.file|, i requires 0 <= i < |s.file| && s.file[i].Row? => s.file[i].row.questionId);
    forall q ensures q in ids <==> q in covered {
      if q in covered {
        var l :| l in s.file && l.Row? && l.row.questionId == q;
        var i :| 0 <= i < |s.file| && s.file[i] == l;
        assert ids[i] == q;
      }
      if q in ids {
        var i :| 0 <= i < |ids| && ids[i] == q;
        assert s.file[i] in s.file && HasRow(s.file, q);
      }
    }
    SameDistinct(ids, covered);
  }

  lemma SameDistinct(a: seq<string>, b: seq<string>)
    requires Distinct(a) && Distinct(b) && forall q :: q in a <==> q in b
    ensures |a| == |b|
  {
    SizeOfDistinct(a);
    SizeOfDistinct(b);
    assert (set q | q in a) == (set q | q in b);
  }
}
