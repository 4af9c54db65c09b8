/** `scripts/migrate.js`: one runner's loop over the sorted files, and any number of runners at once
    against one database. A migration's SQL is an opaque effect inside its transaction. The environment
    is PostgreSQL's contract for a primary key: an insert waits while another open transaction has
    inserted the same key, and fails once that key is committed. */
module Migrations {
  type Version = string

  datatype RunnerId = RunnerId(id: nat)

  /** Where a runner stands: before its query, at file `next` of its loop, inside the transaction of that
      file, after its INSERT, or ended. */
  datatype Phase = Connected | Looping | Begun | Recorded | Finished | Failed

  datatype Runner = Runner(phase: Phase, applied: set<Version>, next: nat)

  datatype Db = Db(
    versions: seq<Version>,           // committed rows of schema_migrations, in commit order
    effects: seq<Version>,            // committed migration effects, in commit order
    runners: map<RunnerId, Runner>)

  datatype Step =
    | Connect(r: RunnerId)
    | ReadApplied(r: RunnerId)                 // SELECT version FROM schema_migrations
    | Skip(r: RunnerId)                        // applied.has(version)
    | Begin(r: RunnerId)                       // BEGIN
    | Record(r: RunnerId)                      // the file's SQL succeeded; INSERT INTO schema_migrations
    | SqlFails(r: RunnerId)                    // the file's SQL fails: ROLLBACK, break
    | Duplicate(r: RunnerId)                   // the INSERT hits a committed key: ROLLBACK, break
    | Commit(r: RunnerId)
    | EndLoop(r: RunnerId)
    | Crash(r: RunnerId)                       // the process dies; its transaction is rolled back

  function VersionSet(versions: seq<Version>): set<Version> {
    set v | v in versions
  }

  /** The directory's sorted file names, as versions: no two are the same. */
  ghost predicate Listing(files: seq<Version>) {
    forall i, j :: 0 <= i < j < |files| ==> files[i] != files[j]
  }

  /** Another open transaction has inserted the version's row. */
  predicate Contended(files: seq<Version>, d: Db, r: RunnerId, v: Version) {
    exists q :: q in d.runners && q != r && d.runners[q].phase == Recorded &&
                d.runners[q].next < |files| && files[d.runners[q].next] == v
  }

  predicate At(files: seq<Version>, d: Db, r: RunnerId, phase: Phase) {
    r in d.runners && d.runners[r].phase == phase && d.runners[r].next < |files|
  }

  predicate Enabled(files: seq<Version>, d: Db, step: Step) {
    match step
    case Connect(r) => r !in d.runners
    case ReadApplied(r) => r in d.runners && d.runners[r].phase == Connected
    case Skip(r) => At(files, d, r, Looping) && files[d.runners[r].next] in d.runners[r].applied
    case Begin(r) => At(files, d, r, Looping) && files[d.runners[r].next] !in d.runners[r].applied
    case Record(r) => At(files, d, r, Begun) && files[d.runners[r].next] !in d.versions &&
                      !Contended(files, d, r, files[d.runners[r].next])
    case SqlFails(r) => At(files, d, r, Begun)
    case Duplicate(r) => At(files, d, r, Begun) && files[d.runners[r].next] in d.versions
    case Commit(r) => At(files, d, r, Recorded)
    case EndLoop(r) => r in d.runners && d.runners[r].phase == Looping && d.runners[r].next >= |files|
    case Crash(r) => r in d.runners
  }

  function Move(d: Db, r: RunnerId, runner: Runner): Db {
    d.(runners := d.runners[r := runner])
  }

  function Apply(files: seq<Version>, d: Db, step: Step): Db
    requires Enabled(files, d, step)
  {
    match step
    case Connect(r) => Move(d, r, Runner(Connected, {}, 0))
    case ReadApplied(r) => Move(d, r, Runner(Looping, VersionSet(d.versions), 0))
    case Skip(r) => Move(d, r, d.runners[r].(next := d.runners[r].next + 1))
    case Begin(r) => Move(d, r, d.runners[r].(phase := Begun))
    case Record(r) => Move(d, r, d.runners[r].(phase := Recorded))
    case SqlFails(r) => Move(d, r, d.runners[r].(phase := Failed))
    case Duplicate(r) => Move(d, r, d.runners[r].(phase := Failed))
    case Commit(r) =>
      var v := files[d.runners[r].next];
      Move(d, r, d.runners[r].(phase := Looping, next := d.runners[r].next + 1))
        .(versions := d.versions + [v], effects := d.effects + [v])
    case EndLoop(r) => Move(d, r, d.runners[r].(phase := Finished))
    case Crash(r) => Move(d, r, d.runners[r].(phase := Failed))
  }

  predicate Runnable(files: seq<Version>, d: Db, steps: seq<Step>)
    decreases |steps|
  {
    steps == [] || (Enabled(files, d, steps[0]) && Runnable(files, Apply(files, d, steps[0]), steps[1..]))
  }

  function Run(files: seq<Version>, d: Db, steps: seq<Step>): Db
    requires Runnable(files, d, steps)
    decreases |steps|
  {
    if steps == [] then d else Run(files, Apply(files, d, steps[0]), steps[1..])
  }

  // --- Any number of runners -----------------------------------------------------------------------

  /** A runner's snapshot holds applied versions only, and every file it has passed is applied; the file of its
      transaction was not in the snapshot; a version it has inserted holds a key that is not committed. */
  ghost predicate RunnerInv(files: seq<Version>, d: Db, r: RunnerId)
    requires r in d.runners
  {
    var x := d.runners[r];
    && (x.phase == Looping || x.phase == Begun || x.phase == Recorded || x.phase == Finished ==>
          x.next <= |d.versions| && forall v :: v in x.applied ==> v in d.versions)
    && (x.phase == Begun || x.phase == Recorded ==> x.next < |files| && files[x.next] !in x.applied)
    && (x.phase == Recorded ==> files[x.next] !in d.versions)
    && (x.phase == Finished ==> x.next >= |files|)
  }

  ghost predicate Inv(files: seq<Version>, d: Db) {
    && d.versions <= files
    && d.effects == d.versions
    && (forall r :: r in d.runners ==> RunnerInv(files, d, r))
    && (forall q, r :: q in d.runners && d.runners[q].phase == Recorded &&
                       r in d.runners && d.runners[r].phase == Recorded && q != r ==>
          d.runners[q].next != d.runners[r].next)
  }

  /** A version is committed exactly when its file lies in the applied prefix. */
  lemma {:induction false} AppliedIsPrefix(files: seq<Version>, versions: seq<Version>, i: nat)
    requires Listing(files) && versions <= files && i < |files|
    ensures files[i] in versions <==> i < |versions|
  {
    if i < |versions| {
      assert versions[i] == files[i];
    }
  }

  lemma {:induction false} CommitInv(files: seq<Version>, d: Db, r: RunnerId)
    requires Listing(files) && Inv(files, d) && Enabled(files, d, Commit(r))
    ensures Inv(files, Apply(files, d, Commit(r)))
  {
    var d' := Apply(files, d, Commit(r));
    forall q | q in d.runners && d.runners[q].phase == Recorded ensures d.runners[q].next == |d.versions| {
      assert RunnerInv(files, d, q);
      AppliedIsPrefix(files, d.versions, d.runners[q].next);
    }
    forall q | q in d'.runners ensures RunnerInv(files, d', q) {
      assert RunnerInv(files, d, q);
    }
  }

  lemma {:induction false} StepInv(files: seq<Version>, d: Db, step: Step)
    requires Listing(files) && Inv(files, d) && Enabled(files, d, step)
    ensures Inv(files, Apply(files, d, step))
  {
    var d' := Apply(files, d, step);
    if step.Commit? {
      CommitInv(files, d, step.r);
      return;
    }
    forall q | q in d'.runners ensures RunnerInv(files, d', q) {
      if q in d.runners {
        assert RunnerInv(files, d, q);
        if step == Skip(q) {
          AppliedIsPrefix(files, d.versions, d.runners[q].next);
        }
      }
    }
  }

  lemma {:induction false} RunInv(files: seq<Version>, d: Db, steps: seq<Step>)
    requires Listing(files) && Inv(files, d) && Runnable(files, d, steps)
    ensures Inv(files, Run(files, d, steps))
    decreases |steps|
  {
    if steps != [] {
      StepInv(files, d, steps[0]);
      RunInv(files, Apply(files, d, steps[0]), steps[1..]);
    }
  }

  /** Concurrent migrations. From a database with an applied prefix of the files, in every interleaving of
      any number of runners with failures and crashes: the committed versions are a prefix of the sorted
      files, the committed effects are the same list, so each migration takes effect at most once and in
      file order, and when some runner has ended its loop without failure every file is applied. */
  lemma {:induction false} ConcurrentMigrations(files: seq<Version>, done: nat, steps: seq<Step>)
    requires Listing(files) && done <= |files|
    requires Runnable(files, Db(files[..done], files[..done], map[]), steps)
    ensures var d := Run(files, Db(files[..done], files[..done], map[]), steps);
            && files[..done] <= d.versions <= files
            && d.effects == d.versions
            && (forall i, j :: 0 <= i < j < |d.effects| ==> d.effects[i] != d.effects[j])
            && (forall r :: r in d.runners && d.runners[r].phase == Finished ==> d.versions == files)
  {
    var d0 := Db(files[..done], files[..done], map[]);
    RunInv(files, d0, steps);
    VersionsGrow(files, d0, steps);
    var d := Run(files, d0, steps);
    forall r | r in d.runners && d.runners[r].phase == Finished ensures d.versions == files {
      assert RunnerInv(files, d, r);
    }
  }

  lemma {:induction false} VersionsGrow(files: seq<Version>, d: Db, steps: seq<Step>)
    requires Runnable(files, d, steps)
    ensures d.versions <= Run(files, d, steps).versions
    decreases |steps|
  {
    if steps != [] {
      VersionsGrow(files, Apply(files, d, steps[0]), steps[1..]);
    }
  }

  // --- Overtaken runners ---------------------------------------------------------------------------

  /** A file the runner has still to pass is applied, but was not when the runner took its snapshot. */
  ghost predicate Doomed(files: seq<Version>, d: Db, r: RunnerId) {
    && r in d.runners && (d.runners[r].phase == Looping || d.runners[r].phase == Begun)
    && exists i :: d.runners[r].next <= i < |d.versions| && i < |files| && files[i] !in d.runners[r].applied
  }

  predicate HasFailed(d: Db, r: RunnerId) {
    r in d.runners && d.runners[r].phase == Failed
  }

  /** Between its snapshot and its end. */
  predicate Live(d: Db, r: RunnerId) {
    r in d.runners && d.runners[r].phase in {Looping, Begun, Recorded}
  }

  predicate Overtakes(d: Db, step: Step, r: RunnerId) {
    Live(d, r) && step.Commit? && step.r != r
  }

  /** Another runner commits a migration between the runner's snapshot and its end. */
  predicate Overtaken(files: seq<Version>, d: Db, steps: seq<Step>, r: RunnerId)
    requires Runnable(files, d, steps)
    decreases |steps|
  {
    steps != [] && (Overtakes(d, steps[0], r) || Overtaken(files, Apply(files, d, steps[0]), steps[1..], r))
  }

  /** Once doomed, a runner can only skip and begin until it fails. */
  lemma {:induction false} DoomedStep(files: seq<Version>, d: Db, step: Step, r: RunnerId)
    requires Listing(files) && Inv(files, d) && Enabled(files, d, step)
    requires Doomed(files, d, r) || HasFailed(d, r)
    ensures var d' := Apply(files, d, step); Doomed(files, d', r) || HasFailed(d', r)
  {
    if Doomed(files, d, r) {
      var x, d' := d.runners[r], Apply(files, d, step);
      var i :| x.next <= i < |d.versions| && i < |files| && files[i] !in x.applied;
      assert RunnerInv(files, d, r);
      AppliedIsPrefix(files, d.versions, x.next);
      if step == Skip(r) {
        assert i != x.next;
      }
      assert !HasFailed(d', r) ==> d'.runners[r].next <= i < |d'.versions|;
    }
  }

  /** A runner overtaken after its snapshot, in whatever state and by whichever file ahead of it, never
      applies another migration and never reports success: it ends in failure, if it ends. */
  lemma {:induction false} OvertakenRunnerFails(files: seq<Version>, d: Db, r: RunnerId, steps: seq<Step>)
    requires Listing(files) && Inv(files, d) && Doomed(files, d, r)
    requires Runnable(files, d, steps)
    ensures var d' := Run(files, d, steps); Doomed(files, d', r) || HasFailed(d', r)
    ensures Record(r) !in steps && Commit(r) !in steps && EndLoop(r) !in steps
  {
    DoomedRun(files, d, r, steps);
  }

  lemma {:induction false} DoomedRun(files: seq<Version>, d: Db, r: RunnerId, steps: seq<Step>)
    requires Listing(files) && Inv(files, d) && (Doomed(files, d, r) || HasFailed(d, r))
    requires Runnable(files, d, steps)
    ensures var d' := Run(files, d, steps); Doomed(files, d', r) || HasFailed(d', r)
    ensures Record(r) !in steps && Commit(r) !in steps && EndLoop(r) !in steps
    decreases |steps|
  {
    if steps != [] {
      DoomedBlocks(files, d, steps[0], r);
      DoomedStep(files, d, steps[0], r);
      StepInv(files, d, steps[0]);
      DoomedRun(files, Apply(files, d, steps[0]), r, steps[1..]);
      assert steps == [steps[0]] + steps[1..];
    }
  }

  lemma {:induction false} DoomedBlocks(files: seq<Version>, d: Db, step: Step, r: RunnerId)
    requires Listing(files) && Inv(files, d) && (Doomed(files, d, r) || HasFailed(d, r))
    requires Enabled(files, d, step)
    ensures step != Record(r) && step != Commit(r) && step != EndLoop(r)
  {
    if Doomed(files, d, r) {
      AppliedIsPrefix(files, d.versions, d.runners[r].next);
    }
  }

  /** What another runner commits was in no snapshot and lies ahead of every live runner. */
  lemma {:induction false} OvertakingDooms(files: seq<Version>, d: Db, step: Step, r: RunnerId)
    requires Listing(files) && Inv(files, d) && Enabled(files, d, step) && Overtakes(d, step, r)
    ensures Doomed(files, Apply(files, d, step), r)
  {
    var n, q := |d.versions|, step.r;
    assert RunnerInv(files, d, r) && RunnerInv(files, d, q);
    AppliedIsPrefix(files, d.versions, d.runners[q].next);
    assert d.runners[q].next == n;
    if d.runners[r].phase == Recorded {
      AppliedIsPrefix(files, d.versions, d.runners[r].next);
      assert false;
    }
    assert files[n] !in d.versions;
    assert Apply(files, d, step).runners[r] == d.runners[r];
  }

  lemma {:induction false} DuplicateIsDoomed(files: seq<Version>, d: Db, r: RunnerId)
    requires Listing(files) && Inv(files, d) && Enabled(files, d, Duplicate(r))
    ensures Doomed(files, d, r)
  {
    assert RunnerInv(files, d, r);
    AppliedIsPrefix(files, d.versions, d.runners[r].next);
  }

  /** Nothing else dooms a runner, or fails it unless its own file's SQL fails or it crashes. */
  lemma {:induction false} OnlyOvertakingDooms(files: seq<Version>, d: Db, step: Step, r: RunnerId)
    requires Listing(files) && Inv(files, d) && Enabled(files, d, step) && !Overtakes(d, step, r)
    requires step != SqlFails(r) && step != Crash(r)
    requires !Doomed(files, d, r) && !HasFailed(d, r)
    ensures !Doomed(files, Apply(files, d, step), r) && !HasFailed(Apply(files, d, step), r)
  {
    var d' := Apply(files, d, step);
    if r in d.runners {
      var x := d.runners[r];
      assert RunnerInv(files, d, r);
      if step == Duplicate(r) {
        DuplicateIsDoomed(files, d, r);
        assert false;
      } else if step == Commit(r) {
        AppliedIsPrefix(files, d.versions, x.next);
      } else if step == ReadApplied(r) {
        assert forall i :: 0 <= i < |d.versions| && i < |files| ==> d.versions[i] == files[i];
      } else if Doomed(files, d', r) {
        assert d'.versions == d.versions && d.runners[r].phase in {Looping, Begun};
        assert Doomed(files, d, r);
      }
    }
  }

  lemma {:induction false} DoomIffOvertaken(files: seq<Version>, d: Db, steps: seq<Step>, r: RunnerId)
    requires Listing(files) && Inv(files, d) && Runnable(files, d, steps)
    requires SqlFails(r) !in steps && Crash(r) !in steps
    ensures var d' := Run(files, d, steps);
            Doomed(files, d', r) || HasFailed(d', r) <==>
            Doomed(files, d, r) || HasFailed(d, r) || Overtaken(files, d, steps, r)
    decreases |steps|
  {
    if steps != [] {
      var step, d1 := steps[0], Apply(files, d, steps[0]);
      assert step in steps;
      if Doomed(files, d, r) || HasFailed(d, r) {
        DoomedStep(files, d, step, r);
      } else if Overtakes(d, step, r) {
        OvertakingDooms(files, d, step, r);
      } else {
        OnlyOvertakingDooms(files, d, step, r);
      }
      StepInv(files, d, step);
      assert forall s :: s in steps[1..] ==> s in steps;
      DoomIffOvertaken(files, d1, steps[1..], r);
    }
  }

  /** Exactly which runners fail. In every interleaving from an applied prefix, a runner that has ended, whose
      own SQL did not fail and that did not crash, has failed exactly when another runner committed a migration
      between its snapshot and its end. */
  lemma {:induction false} FailsIffOvertaken(files: seq<Version>, done: nat, steps: seq<Step>, r: RunnerId)
    requires Listing(files) && done <= |files|
    requires Runnable(files, Db(files[..done], files[..done], map[]), steps)
    requires SqlFails(r) !in steps && Crash(r) !in steps
    requires var d := Run(files, Db(files[..done], files[..done], map[]), steps);
             r in d.runners && (d.runners[r].phase == Finished || d.runners[r].phase == Failed)
    ensures var d0 := Db(files[..done], files[..done], map[]);
            Run(files, d0, steps).runners[r].phase == Failed <==> Overtaken(files, d0, steps, r)
  {
    var d0 := Db(files[..done], files[..done], map[]);
    DoomIffOvertaken(files, d0, steps, r);
  }

  lemma {:induction false} RunCons(files: seq<Version>, d: Db, step: Step, rest: seq<Step>)
    requires Enabled(files, d, step) && Runnable(files, Apply(files, d, step), rest)
    ensures Runnable(files, d, [step] + rest)
    ensures Run(files, d, [step] + rest) == Run(files, Apply(files, d, step), rest)
  {
    assert ([step] + rest)[1..] == rest;
  }

  // --- Progress ------------------------------------------------------------------------------------

  /** What a runner does next when nothing goes wrong. */
  function Next(files: seq<Version>, d: Db, r: RunnerId): Step
    requires r in d.runners
  {
    var x := d.runners[r];
    match x.phase
    case Connected => ReadApplied(r)
    case Looping =>
      if x.next >= |files| then EndLoop(r)
      else if files[x.next] in x.applied then Skip(r)
      else Begin(r)
    case Begun => if x.next < |files| && files[x.next] in d.versions then Duplicate(r) else Record(r)
    case Recorded => Commit(r)
    case _ => Crash(r)
  }

  /** No runner is stuck: in every reachable state one that has not ended can take its next step, unless that is an
      INSERT whose key another runner has inserted and not yet committed; and then that runner can commit. */
  lemma {:induction false} NeverStuck(files: seq<Version>, done: nat, steps: seq<Step>, r: RunnerId)
    requires Listing(files) && done <= |files|
    requires Runnable(files, Db(files[..done], files[..done], map[]), steps)
    requires var d := Run(files, Db(files[..done], files[..done], map[]), steps);
             r in d.runners && d.runners[r].phase != Finished && d.runners[r].phase != Failed
    ensures var d := Run(files, Db(files[..done], files[..done], map[]), steps);
            || Enabled(files, d, Next(files, d, r))
            || (d.runners[r].phase == Begun && exists q :: q != r && Enabled(files, d, Commit(q)) &&
                                                         d.runners[q].next == d.runners[r].next)
  {
    var d := Run(files, Db(files[..done], files[..done], map[]), steps);
    RunInv(files, Db(files[..done], files[..done], map[]), steps);
    assert RunnerInv(files, d, r);
    if d.runners[r].phase == Begun && !Enabled(files, d, Next(files, d, r)) {
      var v := files[d.runners[r].next];
      assert Contended(files, d, r, v);
      var q :| q in d.runners && q != r && d.runners[q].phase == Recorded &&
               d.runners[q].next < |files| && files[d.runners[q].next] == v;
      assert Enabled(files, d, Commit(q));
    }
  }

  /** The steps a lone runner takes from file `next` on, those below `done` being applied. */
  function LoneSteps(files: seq<Version>, done: nat, next: nat, r: RunnerId): seq<Step>
    requires next <= |files|
    decreases |files| - next
  {
    if next == |files| then [EndLoop(r)]
    else if next < done then [Skip(r)] + LoneSteps(files, done, next + 1, r)
    else [Begin(r)] + ([Record(r)] + ([Commit(r)] + LoneSteps(files, done, next + 1, r)))
  }

  /** A lone runner at file `next` of its loop. */
  ghost predicate LoneAt(files: seq<Version>, done: nat, d: Db, r: RunnerId, next: nat) {
    && done <= |files| && next <= |files|
    && d.runners == map[r := Runner(Looping, VersionSet(files[..done]), next)]
    && d.versions == d.effects == (if next <= done then files[..done] else files[..next])
  }

  lemma {:induction false} LoneFile(files: seq<Version>, done: nat, d: Db, r: RunnerId, next: nat)
    requires Listing(files) && LoneAt(files, done, d, r, next) && done <= next < |files|
    ensures Enabled(files, d, Begin(r)) && Enabled(files, Apply(files, d, Begin(r)), Record(r))
    ensures Enabled(files, Apply(files, Apply(files, d, Begin(r)), Record(r)), Commit(r))
    ensures LoneAt(files, done, Apply(files, Apply(files, Apply(files, d, Begin(r)), Record(r)), Commit(r)), r,
                   next + 1)
  {
    AppliedIsPrefix(files, files[..done], next);
    AppliedIsPrefix(files, files[..next], next);
    assert files[..next] + [files[next]] == files[..next + 1];
    assert next == done ==> files[..next] == files[..done];
  }

  lemma {:induction false} LoneFrom(files: seq<Version>, done: nat, d: Db, r: RunnerId, next: nat)
    requires Listing(files) && LoneAt(files, done, d, r, next)
    ensures Runnable(files, d, LoneSteps(files, done, next, r))
    ensures var d' := Run(files, d, LoneSteps(files, done, next, r));
            d'.versions == files && r in d'.runners && d'.runners[r].phase == Finished
    decreases |files| - next
  {
    if next == |files| {
      assert files[..next] == files;
      RunCons(files, d, EndLoop(r), []);
      assert [EndLoop(r)] + [] == [EndLoop(r)];
    } else if next < done {
      AppliedIsPrefix(files, files[..done], next);
      LoneFrom(files, done, Apply(files, d, Skip(r)), r, next + 1);
      RunCons(files, d, Skip(r), LoneSteps(files, done, next + 1, r));
    } else {
      LoneFile(files, done, d, r, next);
      var d1 := Apply(files, d, Begin(r));
      var d2 := Apply(files, d1, Record(r));
      var rest := LoneSteps(files, done, next + 1, r);
      LoneFrom(files, done, Apply(files, d2, Commit(r)), r, next + 1);
      RunCons(files, d2, Commit(r), rest);
      RunCons(files, d1, Record(r), [Commit(r)] + rest);
      RunCons(files, d, Begin(r), [Record(r)] + ([Commit(r)] + rest));
    }
  }

  /** A runner that is alone, and whose SQL does not fail, applies every file that was missing and ends well. */
  lemma {:induction false} LoneRunFinishes(files: seq<Version>, done: nat, r: RunnerId)
    requires Listing(files) && done <= |files|
    ensures var steps := [Connect(r)] + ([ReadApplied(r)] + LoneSteps(files, done, 0, r));
            var d0 := Db(files[..done], files[..done], map[]);
            && Runnable(files, d0, steps)
            && Run(files, d0, steps).versions == files
            && r in Run(files, d0, steps).runners && Run(files, d0, steps).runners[r].phase == Finished
  {
    var d0 := Db(files[..done], files[..done], map[]);
    var d1 := Apply(files, d0, Connect(r));
    var d2 := Apply(files, d1, ReadApplied(r));
    assert d2.runners == map[r := Runner(Looping, VersionSet(files[..done]), 0)];
    LoneFrom(files, done, d2, r, 0);
    RunCons(files, d1, ReadApplied(r), LoneSteps(files, done, 0, r));
    RunCons(files, d0, Connect(r), [ReadApplied(r)] + LoneSteps(files, done, 0, r));
  }

  // --- Failed runners --------------------------------------------------------------------------------

  lemma {:induction false} FailedStays(files: seq<Version>, d: Db, steps: seq<Step>, r: RunnerId)
    requires Runnable(files, d, steps) && HasFailed(d, r)
    ensures HasFailed(Run(files, d, steps), r)
    ensures forall s :: s in steps && s.r == r ==> s.Crash?
    decreases |steps|
  {
    if steps != [] {
      FailedStays(files, Apply(files, d, steps[0]), steps[1..], r);
      assert steps == [steps[0]] + steps[1..];
    }
  }

  /** A runner whose file fails stops: whatever the others do, it takes no further step, ends no loop and stays
      failed. */
  lemma {:induction false} SqlFailureStops(files: seq<Version>, d: Db, r: RunnerId, after: seq<Step>)
    requires Enabled(files, d, SqlFails(r)) && Runnable(files, Apply(files, d, SqlFails(r)), after)
    ensures HasFailed(Run(files, Apply(files, d, SqlFails(r)), after), r)
    ensures Run(files, Apply(files, d, SqlFails(r)), after).runners[r].next == d.runners[r].next
    ensures Skip(r) !in after && Begin(r) !in after && Record(r) !in after && SqlFails(r) !in after
    ensures Duplicate(r) !in after && Commit(r) !in after && EndLoop(r) !in after
    ensures Connect(r) !in after && ReadApplied(r) !in after
  {
    FailedStays(files, Apply(files, d, SqlFails(r)), after, r);
    FailedKeepsPlace(files, Apply(files, d, SqlFails(r)), after, r);
  }

  lemma {:induction false} FailedKeepsPlace(files: seq<Version>, d: Db, steps: seq<Step>, r: RunnerId)
    requires Runnable(files, d, steps) && HasFailed(d, r)
    ensures r in Run(files, d, steps).runners && Run(files, d, steps).runners[r].next == d.runners[r].next
    decreases |steps|
  {
    if steps != [] {
      FailedKeepsPlace(files, Apply(files, d, steps[0]), steps[1..], r);
    }
  }

  lemma {:induction false} OwnFailureFails(files: seq<Version>, d: Db, steps: seq<Step>, r: RunnerId)
    requires Runnable(files, d, steps) && (SqlFails(r) in steps || Crash(r) in steps)
    ensures HasFailed(Run(files, d, steps), r)
    decreases |steps|
  {
    var d1 := Apply(files, d, steps[0]);
    if steps[0] == SqlFails(r) || steps[0] == Crash(r) {
      FailedStays(files, d1, steps[1..], r);
    } else {
      assert steps == [steps[0]] + steps[1..];
      OwnFailureFails(files, d1, steps[1..], r);
    }
  }

  /** Exactly which runners fail, own failures included: in every interleaving from an applied prefix, a runner
      that has ended has failed exactly when its own SQL failed, it crashed, or another runner committed a
      migration between its snapshot and its end. */
  lemma {:induction false} FailedIff(files: seq<Version>, done: nat, steps: seq<Step>, r: RunnerId)
    requires Listing(files) && done <= |files|
    requires Runnable(files, Db(files[..done], files[..done], map[]), steps)
    requires var d := Run(files, Db(files[..done], files[..done], map[]), steps);
             r in d.runners && (d.runners[r].phase == Finished || d.runners[r].phase == Failed)
    ensures var d0 := Db(files[..done], files[..done], map[]);
            Run(files, d0, steps).runners[r].phase == Failed <==>
            SqlFails(r) in steps || Crash(r) in steps || Overtaken(files, d0, steps, r)
  {
    var d0 := Db(files[..done], files[..done], map[]);
    if SqlFails(r) in steps || Crash(r) in steps {
      OwnFailureFails(files, d0, steps, r);
    } else {
      FailsIffOvertaken(files, done, steps, r);
    }
  }

  /** Two runners that start together on a new database: whichever is slower at the first file fails,
      although no migration does. */
  lemma {:induction false} TwoRunners(files: seq<Version>, a: RunnerId, b: RunnerId)
    requires Listing(files) && files != [] && a != b
    ensures var steps := [Connect(a), Connect(b), ReadApplied(a), ReadApplied(b), Begin(a), Begin(b), Record(a),
                          Commit(a), Duplicate(b)];
            && Runnable(files, Db([], [], map[]), steps)
            && HasFailed(Run(files, Db([], [], map[]), steps), b)
            && Run(files, Db([], [], map[]), steps).versions == [files[0]]
  {
    var d0 := Db([], [], map[]);
    var d1 := Apply(files, d0, Connect(a));
    var d2 := Apply(files, d1, Connect(b));
    var d3 := Apply(files, d2, ReadApplied(a));
    var d4 := Apply(files, d3, ReadApplied(b));
    assert VersionSet([]) == {};
    assert d4.runners == map[a := Runner(Looping, {}, 0), b := Runner(Looping, {}, 0)];
    SlowerFails(files, a, b, d4);
    var last := [Begin(a), Begin(b), Record(a), Commit(a), Duplicate(b)];
    RunCons(files, d3, ReadApplied(b), last);
    RunCons(files, d2, ReadApplied(a), [ReadApplied(b)] + last);
    RunCons(files, d1, Connect(b), [ReadApplied(a)] + ([ReadApplied(b)] + last));
    RunCons(files, d0, Connect(a), [Connect(b)] + ([ReadApplied(a)] + ([ReadApplied(b)] + last)));
    assert [Connect(a)] + ([Connect(b)] + ([ReadApplied(a)] + ([ReadApplied(b)] + last)))
        == [Connect(a), Connect(b), ReadApplied(a), ReadApplied(b), Begin(a), Begin(b), Record(a), Commit(a),
            Duplicate(b)];
  }

  lemma {:induction false} SlowerFails(files: seq<Version>, a: RunnerId, b: RunnerId, d: Db)
    requires Listing(files) && files != [] && a != b
    requires d == Db([], [], map[a := Runner(Looping, {}, 0), b := Runner(Looping, {}, 0)])
    ensures var steps := [Begin(a), Begin(b), Record(a), Commit(a), Duplicate(b)];
            && Runnable(files, d, steps)
            && HasFailed(Run(files, d, steps), b) && Run(files, d, steps).versions == [files[0]]
  {
    var d1 := Apply(files, d, Begin(a));
    var d2 := Apply(files, d1, Begin(b));
    var d3 := Apply(files, d2, Record(a));
    var d4 := Apply(files, d3, Commit(a));
    RunCons(files, d4, Duplicate(b), []);
    RunCons(files, d3, Commit(a), [Duplicate(b)]);
    RunCons(files, d2, Record(a), [Commit(a)] + [Duplicate(b)]);
    RunCons(files, d1, Begin(b), [Record(a)] + ([Commit(a)] + [Duplicate(b)]));
    RunCons(files, d, Begin(a), [Begin(b)] + ([Record(a)] + ([Commit(a)] + [Duplicate(b)])));
    assert [Begin(a)] + ([Begin(b)] + ([Record(a)] + ([Commit(a)] + [Duplicate(b)])))
        == [Begin(a), Begin(b), Record(a), Commit(a), Duplicate(b)];
  }

  // --- One runner ----------------------------------------------------------------------------------

  /** The steps of a runner that is alone: `ok[i]` says whether the SQL of file i succeeds. */
  function Alone(files: seq<Version>, applied: set<Version>, ok: seq<bool>, i: nat): (firstFailure: nat)
    requires |ok| == |files| && i <= |files|
    ensures i <= firstFailure <= |files|
    decreases |files| - i
  {
    if i == |files| || (files[i] !in applied && !ok[i]) then i else Alone(files, applied, ok, i + 1)
  }

  /** The files below `to` that were not applied before, in order. */
  function Fresh(files: seq<Version>, applied: set<Version>, to: nat): seq<Version>
    requires to <= |files|
  {
    if to == 0 then []
    else Fresh(files, applied, to - 1) + if files[to - 1] in applied then [] else [files[to - 1]]
  }

  class MigrationRunner {
    var versions: seq<Version>
    var effects: seq<Version>
    var exitCode: nat

    constructor (versions: seq<Version>)
      ensures this.versions == versions && effects == versions && exitCode == 0
    {
      this.versions, effects, exitCode := versions, versions, 0;
    }

    /** The script's loop: skip the applied files, apply each other one in its transaction, stop at the
        first failure. */
    method Run(files: seq<Version>, ok: seq<bool>)
      requires |ok| == |files| && Listing(files)
      modifies this
      ensures var applied := VersionSet(old(versions));
              var stop := Alone(files, applied, ok, 0);
              && versions == old(versions) + Fresh(files, applied, stop)
              && effects == old(effects) + Fresh(files, applied, stop)
              && exitCode == if stop < |files| then 1 else old(exitCode)
    {
      var applied := VersionSet(versions);
      for i := 0 to |files|
        invariant exitCode == old(exitCode)
        invariant versions == old(versions) + Fresh(files, applied, i)
        invariant effects == old(effects) + Fresh(files, applied, i)
        invariant Alone(files, applied, ok, 0) == Alone(files, applied, ok, i)
      {
        var version := files[i];
        if version in applied {
          continue;
        }
        if ok[i] {
          effects := effects + [version];
          versions := versions + [version];
        } else {
          exitCode := 1;
          break;
        }
      }
    }
  }

  lemma {:induction false} FreshOfPrefix(files: seq<Version>, done: nat, to: nat)
    requires Listing(files) && done <= |files| && to <= |files|
    ensures Fresh(files, VersionSet(files[..done]), to) == if to <= done then [] else files[done..to]
  {
    if to > 0 {
      FreshOfPrefix(files, done, to - 1);
      AppliedIsPrefix(files, files[..done], to - 1);
      FreshNext(files, VersionSet(files[..done]), done, to);
    }
  }

  lemma {:induction false} FreshNext(files: seq<Version>, applied: set<Version>, done: nat, to: nat)
    requires 0 < to <= |files| && done <= |files|
    requires files[to - 1] in applied <==> to - 1 < done
    requires Fresh(files, applied, to - 1) == if to - 1 <= done then [] else files[done..to - 1]
    ensures Fresh(files, applied, to) == if to <= done then [] else files[done..to]
  {
    if to > done {
      assert files[done..to] == files[done..to - 1] + [files[to - 1]];
    }
  }

  lemma Glue(files: seq<Version>, done: nat, to: nat)
    requires done <= to <= |files|
    ensures files[..done] + files[done..to] == files[..to]
  {
  }

  /** From an applied prefix a lone runner extends it up to the first file whose SQL fails; a second run
      with nothing failing completes the list, and a run on a complete list changes nothing. */
  lemma {:induction false} LoneRunExtendsPrefix(files: seq<Version>, done: nat, ok: seq<bool>)
    requires Listing(files) && done <= |files| && |ok| == |files|
    ensures var applied := VersionSet(files[..done]);
            var stop := Alone(files, applied, ok, 0);
            && done <= stop
            && files[..done] + Fresh(files, applied, stop) == files[..stop]
            && (stop < |files| <==> exists i :: done <= i < |files| && !ok[i])
            && (stop < |files| ==> !ok[stop] && forall i :: done <= i < stop ==> ok[i])
  {
    var applied := VersionSet(files[..done]);
    AloneFrom(files, done, ok, 0);
    var stop := Alone(files, applied, ok, 0);
    FreshOfPrefix(files, done, stop);
    Glue(files, done, stop);
    assert done == stop ==> files[done..stop] == [];
  }

  lemma {:induction false} AloneFrom(files: seq<Version>, done: nat, ok: seq<bool>, i: nat)
    requires Listing(files) && done <= |files| && |ok| == |files| && i <= |files|
    ensures var stop := Alone(files, VersionSet(files[..done]), ok, i);
            && (i <= done ==> done <= stop)
            && (stop < |files| ==> stop >= done && !ok[stop])
            && (forall k :: i <= k < stop && done <= k ==> ok[k])
    decreases |files| - i
  {
    if i < |files| {
      AppliedIsPrefix(files, files[..done], i);
      AloneFrom(files, done, ok, i + 1);
    }
  }
}
