/** What a recorded cancellation is worth over whole runs of the job queue: which doors to success it
    closes by itself, and which ones only the worker's guards close. */
module Cancellation {
  import opened Common
  import opened JobLeases
  import opened JobDiscipline

  // ---------------------------------------------------------------- the two doors to success

  /** The holder finalises the job as a succeeded command; the cancellation request is not looked at. */
  predicate CommandDoor(db: Db, op: Op, id: string) {
    op.FinalizeCommand? && op.token.job == id && op.outcome == Succeeded && Accepts(db, op)
  }

  /** The holder finalises the stage job as succeeded while neither it nor its run is cancelled. */
  predicate StageDoor(db: Db, op: Op, id: string) {
    && op.FinalizeStage? && op.token.job == id && op.outcome == Succeeded && Accepts(db, op)
    && !db.jobs[id].cancelRequested && !RunIsCancelled(db, db.jobs[id].run)
  }

  lemma SuccessStep(db: Db, op: Op, id: string)
    requires id in db.jobs && db.jobs[id].status != Succeeded
    ensures id in Step(db, op).jobs
    ensures Step(db, op).jobs[id].status == Succeeded <==> CommandDoor(db, op, id) || StageDoor(db, op, id)
  {}

  /** The operation is an accepted resume of the job. */
  predicate Reopens(db: Db, op: Op, id: string) { op.Resume? && op.id == id && Accepts(db, op) }

  lemma RequestStep(db: Db, op: Op, id: string)
    requires id in db.jobs && db.jobs[id].cancelRequested && !Reopens(db, op, id)
    ensures id in Step(db, op).jobs && Step(db, op).jobs[id].cancelRequested
  {}

  // ---------------------------------------------------------------- what a success requires, over any run

  ghost predicate ReopensAt(db: Db, ops: seq<Op>, k: nat, id: string)
    requires k < |ops|
  {
    Reopens(Run(db, ops[..k]), ops[k], id)
  }

  ghost predicate ReopenedBefore(db: Db, ops: seq<Op>, i: nat, id: string)
    requires i <= |ops|
  {
    exists k: nat | k < i :: ReopensAt(db, ops, k, id)
  }

  /** Operation `i` lets the job succeed: through the command door, or through the stage door after
      an earlier resume. */
  ghost predicate LetsThrough(db: Db, ops: seq<Op>, i: nat, id: string)
    requires i < |ops|
  {
    || CommandDoor(Run(db, ops[..i]), ops[i], id)
    || (StageDoor(Run(db, ops[..i]), ops[i], id) && ReopenedBefore(db, ops, i, id))
  }

  lemma {:induction false} StillRequested(db: Db, ops: seq<Op>, id: string)
    requires id in db.jobs && db.jobs[id].cancelRequested && !ReopenedBefore(db, ops, |ops|, id)
    ensures id in Run(db, ops).jobs && Run(db, ops).jobs[id].cancelRequested
  {
    if ops != [] {
      var n := |ops| - 1;
      forall k: nat | k < n ensures !ReopensAt(db, ops[..n], k, id) {
        assert ops[..n][..k] == ops[..k];
        assert !ReopensAt(db, ops, k, id);
      }
      StillRequested(db, ops[..n], id);
      assert !ReopensAt(db, ops, n, id);
      RequestStep(Run(db, ops[..n]), ops[n], id);
    }
  }

  lemma SuccessStays(db: Db, ops: seq<Op>, i: nat, id: string)
    requires i <= |ops| && id in Run(db, ops[..i]).jobs && Run(db, ops[..i]).jobs[id].status == Succeeded
    ensures id in Run(db, ops).jobs && Run(db, ops).jobs[id].status == Succeeded
  {
    assert ops == ops[..i] + ops[i..];
    RunConcat(db, ops[..i], ops[i..]);
    RunKeepsJob(Run(db, ops[..i]), ops[i..], id);
  }

  /** The operation after which the job is succeeded for the first time. */
  lemma {:induction false} FirstSuccess(db: Db, ops: seq<Op>, id: string) returns (i: nat)
    requires id in db.jobs && db.jobs[id].status != Succeeded
    requires id in Run(db, ops).jobs && Run(db, ops).jobs[id].status == Succeeded
    ensures i < |ops| && id in Run(db, ops[..i]).jobs && Run(db, ops[..i]).jobs[id].status != Succeeded
    ensures CommandDoor(Run(db, ops[..i]), ops[i], id) || StageDoor(Run(db, ops[..i]), ops[i], id)
  {
    var n := |ops| - 1;
    RunKeepsJob(db, ops[..n], id);
    if Run(db, ops[..n]).jobs[id].status == Succeeded {
      i := FirstSuccess(db, ops[..n], id);
      assert ops[..n][..i] == ops[..i];
    } else {
      i := n;
      SuccessStep(Run(db, ops[..n]), ops[n], id);
    }
  }

  lemma DoorNeedsResume(db: Db, ops: seq<Op>, i: nat, id: string)
    requires id in db.jobs && db.jobs[id].cancelRequested && i < |ops| && StageDoor(Run(db, ops[..i]), ops[i], id)
    ensures ReopenedBefore(db, ops, i, id)
  {
    if !ReopenedBefore(db, ops, i, id) {
      forall k: nat | k < i ensures !ReopensAt(db, ops[..i], k, id) {
        assert ops[..i][..k] == ops[..k];
        assert !ReopensAt(db, ops, k, id);
      }
      StillRequested(db, ops[..i], id);
      assert false;
    }
  }

  lemma SuccessWasLetThrough(db: Db, ops: seq<Op>, id: string) returns (i: nat)
    requires id in db.jobs && db.jobs[id].cancelRequested && db.jobs[id].status != Succeeded
    requires id in Run(db, ops).jobs && Run(db, ops).jobs[id].status == Succeeded
    ensures i < |ops| && LetsThrough(db, ops, i, id)
  {
    i := FirstSuccess(db, ops, id);
    if StageDoor(Run(db, ops[..i]), ops[i], id) { DoorNeedsResume(db, ops, i, id); }
  }

  lemma LetThroughSucceeds(db: Db, ops: seq<Op>, i: nat, id: string)
    requires id in db.jobs && i < |ops| && LetsThrough(db, ops, i, id)
    ensures id in Run(db, ops).jobs && Run(db, ops).jobs[id].status == Succeeded
  {
    RunKeepsJob(db, ops[..i], id);
    if Run(db, ops[..i]).jobs[id].status == Succeeded {
      SuccessStays(db, ops, i, id);
    } else {
      RunStep(db, ops, i);
      SuccessStep(Run(db, ops[..i]), ops[i], id);
      SuccessStays(db, ops, i + 1, id);
    }
  }

  /** Over any run, disciplined or not: a job whose cancellation is recorded ends succeeded if and only
      if some operation lets it through the command door, or through the stage door after a resume. */
  lemma SuccessAfterCancellation(db: Db, ops: seq<Op>, id: string)
    requires id in db.jobs && db.jobs[id].cancelRequested && db.jobs[id].status != Succeeded
    ensures id in Run(db, ops).jobs
    ensures Run(db, ops).jobs[id].status == Succeeded <==> exists i: nat | i < |ops| :: LetsThrough(db, ops, i, id)
  {
    RunKeepsJob(db, ops, id);
    if Run(db, ops).jobs[id].status == Succeeded {
      var i := SuccessWasLetThrough(db, ops, id);
    } else if i: nat :| i < |ops| && LetsThrough(db, ops, i, id) {
      LetThroughSucceeds(db, ops, i, id);
    }
  }

  // ---------------------------------------------------------------- a cancelled run

  lemma CancelledRunStep(db: Db, op: Op, run: string)
    requires RunIsCancelled(db, run) && Disciplined(db, op)
    ensures RunIsCancelled(Step(db, op), run)
  {}

  /** Over every disciplined run a stage job of a cancelled run never succeeds, resumed or not. */
  lemma {:induction false} CancelledRunNeverSucceeds(db: Db, ops: seq<Op>, id: string)
    requires id in db.jobs && db.jobs[id].kind == Stage && db.jobs[id].status != Succeeded
    requires RunIsCancelled(db, db.jobs[id].run) && DisciplinedRun(db, ops)
    ensures RunIsCancelled(Run(db, ops), db.jobs[id].run)
    ensures id in Run(db, ops).jobs && Run(db, ops).jobs[id].status != Succeeded
  {
    if ops != [] {
      var init, last := ops[..|ops| - 1], ops[|ops| - 1];
      CancelledRunNeverSucceeds(db, init, id);
      RunKeepsJob(db, init, id);
      CancelledRunStep(Run(db, init), last, db.jobs[id].run);
      SuccessStep(Run(db, init), last, id);
    }
  }

  // ---------------------------------------------------------------- an ended run

  predicate Ended(db: Db, run: string) { run in db.runs && db.runs[run].status != RunOpen }

  /** The worker's guard on resuming: the run has not ended. */
  predicate ResumesOpen(db: Db, op: Op) { op.Resume? && Accepts(db, op) ==> !Ended(db, db.jobs[op.id].run) }

  predicate GuardedRun(db: Db, ops: seq<Op>) {
    ops == [] || (GuardedRun(db, ops[..|ops| - 1]) && ResumesOpen(Run(db, ops[..|ops| - 1]), ops[|ops| - 1]))
  }

  /** A stage job that cannot succeed any more: its run has ended, and it has failed, is cancelled or
      has been asked to stop. */
  predicate Doomed(db: Db, id: string) {
    && id in db.jobs && db.jobs[id].kind == Stage && Ended(db, db.jobs[id].run)
    && (db.jobs[id].status in {Failed, Cancelled} || (db.jobs[id].cancelRequested && db.jobs[id].status != Succeeded))
  }

  lemma EndedStep(db: Db, op: Op, run: string)
    requires Ended(db, run) && Disciplined(db, op)
    ensures Ended(Step(db, op), run)
  {}

  lemma DoomedStep(db: Db, op: Op, id: string)
    requires Doomed(db, id) && Disciplined(db, op) && ResumesOpen(db, op)
    ensures Doomed(Step(db, op), id)
  {
    StepOnJob(db, op, id);
    EndedStep(db, op, db.jobs[id].run);
    SuccessStep(db, op, id);
    if db.jobs[id].cancelRequested { RequestStep(db, op, id); }
  }

  lemma {:induction false} DoomedForever(db: Db, ops: seq<Op>, id: string)
    requires Doomed(db, id) && DisciplinedRun(db, ops) && GuardedRun(db, ops)
    ensures Doomed(Run(db, ops), id)
  {
    if ops != [] {
      DoomedForever(db, ops[..|ops| - 1], id);
      DoomedStep(Run(db, ops[..|ops| - 1]), ops[|ops| - 1], id);
    }
  }

  /** Requesting cancellation dooms every unfinished stage job of the run. */
  lemma CancellationDooms(db: Db, op: Op, id: string)
    requires op.CancelRun? && Accepts(db, op) && id in db.jobs && db.jobs[id].run == op.run
    requires db.jobs[id].kind == Stage && db.jobs[id].status != Succeeded
    ensures Doomed(Step(db, op), id)
  {}

  lemma CancellationMarksRun(db: Db, op: Op, run: string)
    requires op.CancelRun? && Accepts(db, op) && run == op.run
    ensures RunIsCancelled(Step(db, op), run) <==> db.runs[run].status != RunSucceeded
  {}

  /** Once cancellation of a run is requested, no unfinished stage job of it ever succeeds, over every
      run of workers that check before they act.  Only if the run had already succeeded do they also
      have to resume nothing in an ended run. */
  lemma CancellationIsFinal(db: Db, op: Op, ops: seq<Op>, id: string)
    requires op.CancelRun? && Accepts(db, op) && id in db.jobs && db.jobs[id].run == op.run
    requires db.jobs[id].kind == Stage && db.jobs[id].status != Succeeded
    requires WorkerRun(Step(db, op), ops)
    requires db.runs[op.run].status == RunSucceeded ==> GuardedRun(Step(db, op), ops)
    ensures id in Run(Step(db, op), ops).jobs && Run(Step(db, op), ops).jobs[id].status != Succeeded
  {
    CancellationDooms(db, op, id);
    CancellationMarksRun(db, op, op.run);
    StepOnJob(db, op, id);
    WorkerRunIsDisciplined(Step(db, op), ops);
    if db.runs[op.run].status == RunSucceeded {
      DoomedForever(Step(db, op), ops, id);
    } else {
      CancelledRunNeverSucceeds(Step(db, op), ops, id);
    }
  }

  // ---------------------------------------------------------------- two successes after a cancellation

  lemma Extend(db: Db, ops: seq<Op>, op: Op)
    ensures Run(db, ops + [op]) == Step(Run(db, ops), op)
    ensures DisciplinedRun(db, ops) && Disciplined(Run(db, ops), op) ==> DisciplinedRun(db, ops + [op])
    ensures GuardedRun(db, ops + [op]) ==> GuardedRun(db, ops) && ResumesOpen(Run(db, ops), op)
  {
    assert (ops + [op])[..|ops|] == ops;
  }

  /** A cancel command in progress: its own cancellation request reaches it as well. */
  const COMMAND_JOB := Job("r", Command, "", Running, 0, 0, 0, Some("w"), 1, Some(30), 1, 0, false, None, NotStarted,
                           false, None, [], None, 1)

  const COMMAND_STORE := Db(map["c" := COMMAND_JOB], map[], map["r" := RunRow(RunOpen, 0)])

  const CANCEL := CancelRun("r", 1)

  const CLOSE_COMMAND := FinalizeCommand(Token("c", "w", 1), Succeeded, 2)

  /** A command job that succeeds after its cancellation was recorded. */
  lemma CancelledCommandSucceeds()
    ensures var after := Run(COMMAND_STORE, [CANCEL] + [CLOSE_COMMAND]);
            && Consistent(COMMAND_STORE) && DisciplinedRun(COMMAND_STORE, [CANCEL] + [CLOSE_COMMAND])
            && "c" in Run(COMMAND_STORE, [CANCEL]).jobs && Run(COMMAND_STORE, [CANCEL]).jobs["c"].cancelRequested
            && "c" in after.jobs && after.jobs["c"].status == Succeeded
  {
    assert JobConsistent(COMMAND_JOB, Attempts(COMMAND_STORE, "c"));
    OneStep(COMMAND_STORE, CANCEL);
    Extend(COMMAND_STORE, [], CANCEL);
    assert [] + [CANCEL] == [CANCEL];
    Extend(COMMAND_STORE, [CANCEL], CLOSE_COMMAND);
  }

  /** An optional stage still running when its run has succeeded and is then asked to stop. */
  const STAGE_JOB := Job("r", Stage, "profile", Running, 0, 0, 0, Some("w"), 1, Some(30), 1, 0, true, Some(0),
                         AttemptCreated, false, None, [], None, 3)

  const STAGE_STORE := Db(map["s" := STAGE_JOB], map["s" := [Attempt(AttemptCreated, Running, 0)]],
                          map["r" := RunRow(RunSucceeded, 1)])

  const FAIL := FinalizeStage(Token("s", "w", 1), 0, 0, Failed, [], "error", 0, 1, 1)
  const REOPEN := Resume("s", 2)
  const RECLAIM := Claim("s", "w", 30, 1, 1, 3)
  const RESTART := EnsureAttempt(Token("s", "w", 2), 3)
  const SUCCEED := FinalizeStage(Token("s", "w", 2), 1, 0, Succeeded, ["out"], "ok", 0, 4, 4)

  const FAILED := STAGE_JOB.(status := Failed, owner := None, expires := None, available := 1, phase := Finalized,
                             durableResult := Some("error"), revision := 4)

  const REOPENED := STAGE_JOB.(status := Queued, owner := None, expires := None, available := 2, attempt := None,
                               cancelRequested := false, revision := 5)

  function StageStore(j: Job, attempt: Attempt): Db {
    Db(map["s" := j], map["s" := [attempt]], map["r" := RunRow(RunSucceeded, 1)])
  }

  lemma FailStep()
    ensures Accepts(STAGE_STORE, FAIL) && Step(STAGE_STORE, FAIL) == StageStore(FAILED, Attempt(Finalized, Failed, 1))
  {
    assert Holds(STAGE_STORE, Token("s", "w", 1), 1) && AttemptMatches(STAGE_STORE, "s", 0, 0);
    assert EffectiveOutcome(true, Failed) == Failed;
    var after := Step(STAGE_STORE, FAIL);
    assert after.jobs["s"] == FAILED;
    assert after.attempts["s"] == [Attempt(Finalized, Failed, 1)];
    assert after.jobs == map["s" := FAILED] && after.attempts == map["s" := [Attempt(Finalized, Failed, 1)]];
  }

  lemma ReopenStep(attempt: Attempt)
    ensures var db := StageStore(FAILED, attempt);
            && Accepts(db, REOPEN) && !ResumesOpen(db, REOPEN) && Step(db, REOPEN) == StageStore(REOPENED, attempt)
  {
    var after := Step(StageStore(FAILED, attempt), REOPEN);
    assert after.jobs["s"] == REOPENED;
    assert after.jobs == map["s" := REOPENED];
  }

  /** After the failure and the resume nothing is left of the request. */
  lemma FailedAndReopened()
    ensures Run(STAGE_STORE, [FAIL] + [REOPEN]) == StageStore(REOPENED, Attempt(Finalized, Failed, 1))
    ensures DisciplinedRun(STAGE_STORE, [FAIL] + [REOPEN]) && !GuardedRun(STAGE_STORE, [FAIL] + [REOPEN])
  {
    FailStep();
    ReopenStep(Attempt(Finalized, Failed, 1));
    OneStep(STAGE_STORE, FAIL);
    Extend(STAGE_STORE, [], FAIL);
    assert [] + [FAIL] == [FAIL];
    Extend(STAGE_STORE, [FAIL], REOPEN);
  }

  lemma ReopenedSucceeds(db: Db)
    requires db == StageStore(REOPENED, Attempt(Finalized, Failed, 1))
    ensures var after := Step(Step(Step(db, RECLAIM), RESTART), SUCCEED);
            "s" in after.jobs && after.jobs["s"].status == Succeeded
  {
    assert ActiveInRun(db, "r", 3) == {};
    var claimed := Step(db, RECLAIM);
    assert Holds(claimed, Token("s", "w", 2), 3) && claimed.jobs["s"].attempt == None;
    var restarted := Step(claimed, RESTART);
    assert Attempts(restarted, "s") == [Attempt(Finalized, Failed, 1), Attempt(AttemptCreated, Running, 0)];
    assert Holds(restarted, Token("s", "w", 2), 4) && AttemptMatches(restarted, "s", 1, 0);
  }

  lemma ExtendByThree(db: Db, ops: seq<Op>, a: Op, b: Op, c: Op)
    requires DisciplinedRun(db, ops) && !GuardedRun(db, ops)
    requires a.Claim? && b.EnsureAttempt? && c.FinalizeStage? && RealOutcome(c.outcome)
    ensures Run(db, ops + [a] + [b] + [c]) == Step(Step(Step(Run(db, ops), a), b), c)
    ensures DisciplinedRun(db, ops + [a] + [b] + [c]) && !GuardedRun(db, ops + [a] + [b] + [c])
  {
    Extend(db, ops, a);
    Extend(db, ops + [a], b);
    Extend(db, ops + [a] + [b], c);
  }

  lemma StageStoreConsistent()
    ensures Consistent(STAGE_STORE)
  {
    assert JobConsistent(STAGE_JOB, Attempts(STAGE_STORE, "s"));
  }

  const AFTER_REOPENING := [FAIL] + [REOPEN] + [RECLAIM] + [RESTART] + [SUCCEED]

  /** Without the guard on resuming, a stage job succeeds after its cancellation was recorded: its run
      had already succeeded, so only the request on the job stood in the way, and the resume clears it. */
  lemma ReopenedStageSucceeds()
    ensures Consistent(STAGE_STORE) && STAGE_JOB.cancelRequested
    ensures DisciplinedRun(STAGE_STORE, AFTER_REOPENING) && !GuardedRun(STAGE_STORE, AFTER_REOPENING)
    ensures var after := Run(STAGE_STORE, AFTER_REOPENING); "s" in after.jobs && after.jobs["s"].status == Succeeded
  {
    StageStoreConsistent();
    FailedAndReopened();
    ReopenedSucceeds(Run(STAGE_STORE, [FAIL] + [REOPEN]));
    ExtendByThree(STAGE_STORE, [FAIL] + [REOPEN], RECLAIM, RESTART, SUCCEED);
  }
}
