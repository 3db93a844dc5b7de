/** How the workers use the job queue (src/dirty_data_to_olap/application/jobs.py) and what the store
    then keeps over every run: rows that agree with each other, and handlers that are not started twice. */
module JobDiscipline {
  import opened Common
  import opened JobLeases

  // ---------------------------------------------------------------- the worker's discipline

  /** A handler is started from a fresh attempt, or again from an interrupted one that is safe to replay. */
  predicate MayStart(j: Job) { j.phase == AttemptCreated || (j.phase == DeliveryStarted && j.replaySafe) }

  /** A run that has ended is not brought back: a succeeded run may still be marked cancelled. */
  predicate MayReplace(was: RunStatus, status: RunStatus) {
    was == RunOpen || status == was || status == RunCancelled
  }

  predicate RealOutcome(status: Status) { status != Queued && status != Running }

  /** What the worker's own checks add, at the moment an operation is accepted: it finalises with a
      real outcome, closes commands through the command door, and asks before starting a handler or
      replacing the status of a run. */
  predicate Disciplined(db: Db, op: Op) {
    Accepts(db, op) ==>
      match op
      case MarkDelivery(t, _) => MayStart(db.jobs[t.job])
      case FinalizeStage(_, _, _, outcome, _, _, _, _, _) => RealOutcome(outcome)
      case FinalizeCommand(t, outcome, _) => outcome in {Succeeded, Blocked} && db.jobs[t.job].kind == Command
      case UpdateRun(run, status, _, _) => MayReplace(db.runs[run].status, status)
      case _ => true
  }

  predicate DisciplinedRun(db: Db, ops: seq<Op>) {
    ops == [] || (DisciplinedRun(db, ops[..|ops| - 1]) && Disciplined(Run(db, ops[..|ops| - 1]), ops[|ops| - 1]))
  }

  // ---------------------------------------------------------------- checks made on rows read earlier

  /** The worker does not check and act in one transaction: operation `i` rests on rows read when `k`
      operations were done.  Between reading a job and starting its handler it only sends heartbeats. */
  ghost predicate Sees(db: Db, ops: seq<Op>, i: nat, k: nat)
    requires i < |ops|
  {
    k <= i && var was := Run(db, ops[..k]);
    match ops[i]
    case MarkDelivery(t, _) =>
      && t.job in was.jobs && was.jobs[t.job].generation == t.generation && MayStart(was.jobs[t.job])
      && OnlyHeartbeats(ops[k..i], t)
    case FinalizeStage(_, _, _, outcome, _, _, _, _, _) => RealOutcome(outcome)
    case FinalizeCommand(t, outcome, _) =>
      outcome in {Succeeded, Blocked} && t.job in was.jobs && was.jobs[t.job].kind == Command
    case UpdateRun(run, status, seen, _) =>
      run in was.runs && was.runs[run].revision == seen && MayReplace(was.runs[run].status, status)
    case _ => true
  }

  ghost predicate Checked(db: Db, ops: seq<Op>, i: nat)
    requires i < |ops|
  {
    exists k: nat :: Sees(db, ops, i, k)
  }

  /** A run of workers that check before they act, on rows that may be stale by then. */
  ghost predicate WorkerRun(db: Db, ops: seq<Op>) { forall i: nat | i < |ops| :: Checked(db, ops, i) }

  /** A stale check is as good as a fresh one: the fence, the generation and the revision refuse the
      operation whenever the rows it rests on have changed. */
  lemma StaleCheckSuffices(db: Db, ops: seq<Op>, i: nat, k: nat)
    requires i < |ops| && Sees(db, ops, i, k)
    ensures Disciplined(Run(db, ops[..i]), ops[i])
  {
    var was, now := Run(db, ops[..k]), Run(db, ops[..i]);
    assert ops[..i] == ops[..k] + ops[k..i];
    RunConcat(db, ops[..k], ops[k..i]);
    if Accepts(now, ops[i]) {
      match ops[i]
      case MarkDelivery(t, _) =>
        RunKeepsJob(was, ops[k..i], t.job);
        if Lost(was, t) { LostForever(was, ops[k..i], t); }
        PhaseKeptWhileHeld(was, ops[k..i], t);
      case FinalizeCommand(t, _, _) => RunKeepsJob(was, ops[k..i], t.job);
      case UpdateRun(run, status, _, at) => UpdateIsCompareAndSwap(was, ops[k..i], run, status, at);
      case _ =>
    }
  }

  lemma WorkerRunPrefix(db: Db, ops: seq<Op>, n: nat)
    requires WorkerRun(db, ops) && n <= |ops|
    ensures WorkerRun(db, ops[..n])
  {
    forall i: nat | i < n ensures Checked(db, ops[..n], i) {
      assert Checked(db, ops, i);
      var k: nat :| Sees(db, ops, i, k);
      assert ops[..n][..k] == ops[..k] && ops[..n][k..i] == ops[k..i];
      assert Sees(db, ops[..n], i, k);
    }
  }

  /** Workers that check on stale rows still make a disciplined run. */
  lemma {:induction false} WorkerRunIsDisciplined(db: Db, ops: seq<Op>)
    requires WorkerRun(db, ops)
    ensures DisciplinedRun(db, ops)
  {
    if ops != [] {
      var n := |ops| - 1;
      WorkerRunPrefix(db, ops, n);
      WorkerRunIsDisciplined(db, ops[..n]);
      assert Checked(db, ops, n);
      var k: nat :| Sees(db, ops, n, k);
      StaleCheckSuffices(db, ops, n, k);
    }
  }

  lemma {:induction false} DisciplinedParts(db: Db, a: seq<Op>, b: seq<Op>)
    requires DisciplinedRun(db, a + b)
    ensures DisciplinedRun(db, a) && DisciplinedRun(Run(db, a), b)
  {
    if b == [] {
      assert a + b == a;
    } else {
      var n := |b| - 1;
      assert (a + b)[..|a + b| - 1] == a + b[..n];
      DisciplinedParts(db, a, b[..n]);
      RunConcat(db, a, b[..n]);
    }
  }

  /** Every stretch of a disciplined run is one, from where it starts to where it ends. */
  lemma DisciplinedSlice(db: Db, ops: seq<Op>, i: nat, j: nat)
    requires DisciplinedRun(db, ops) && i <= j <= |ops|
    ensures DisciplinedRun(db, ops[..i]) && DisciplinedRun(Run(db, ops[..i]), ops[i..j])
    ensures Run(Run(db, ops[..i]), ops[i..j]) == Run(db, ops[..j])
  {
    assert ops == ops[..j] + ops[j..];
    DisciplinedParts(db, ops[..j], ops[j..]);
    assert ops[..j] == ops[..i] + ops[i..j];
    DisciplinedParts(db, ops[..i], ops[i..j]);
    RunConcat(db, ops[..i], ops[i..j]);
  }

  lemma OneStep(db: Db, op: Op)
    ensures Run(db, [op]) == Step(db, op)
    ensures DisciplinedRun(db, [op]) ==> Disciplined(db, op)
  {
    assert [op][..0] == [];
  }

  lemma DisciplinedAt(db: Db, ops: seq<Op>, i: nat)
    requires DisciplinedRun(db, ops) && i < |ops|
    ensures Disciplined(Run(db, ops[..i]), ops[i])
  {
    DisciplinedSlice(db, ops, i, i + 1);
    assert ops[i..i + 1] == [ops[i]];
    OneStep(Run(db, ops[..i]), ops[i]);
  }

  // ---------------------------------------------------------------- rows that agree

  /** What the job row, the lease columns and the attempt rows say about each other. */
  ghost predicate JobConsistent(j: Job, attempts: seq<Attempt>) {
    && j.deliveries == j.generation
    && (if j.status == Running then j.owner.Some? && j.expires.Some? && j.generation > 0
        else j.owner == None && j.expires == None)
    && (j.kind == Command ==> attempts == [] && j.attempt == None)
    && (j.kind == Stage ==>
          && (j.cancelRequested ==> j.status in {Running, Failed, Cancelled})
          && (j.attempt == None ==> j.phase == AttemptCreated)
          && (j.attempt.Some? ==> j.attempt.value < |attempts| && attempts[j.attempt.value].phase == j.phase)
          && (j.status == Running ==> j.phase != Finalized)
          && (j.status in {Queued, RetryWait} ==> j.attempt == None)
          && (j.status in {NeedsReview, Blocked, Failed, Succeeded} ==> j.phase == Finalized)
          && (forall n | 0 <= n < |attempts| && j.attempt != Some(n) :: attempts[n].phase == Finalized))
  }

  ghost predicate Consistent(db: Db) {
    && (forall id | id in db.jobs :: JobConsistent(db.jobs[id], Attempts(db, id)))
    && (forall id | id !in db.jobs :: Attempts(db, id) == [])
  }

  lemma FinalizeStageKeepsConsistent(db: Db, op: Op, id: string)
    requires Consistent(db) && Disciplined(db, op) && id in Step(db, op).jobs && op.FinalizeStage?
    ensures JobConsistent(Step(db, op).jobs[id], Attempts(Step(db, op), id))
  {
    assert JobConsistent(db.jobs[id], Attempts(db, id));
  }

  lemma ControlKeepsConsistent(db: Db, op: Op, id: string)
    requires Consistent(db) && Disciplined(db, op) && id in Step(db, op).jobs
    requires op.FinalizeCommand? || op.Resume?
    ensures JobConsistent(Step(db, op).jobs[id], Attempts(Step(db, op), id))
  {
    assert JobConsistent(db.jobs[id], Attempts(db, id));
  }

  lemma CancelKeepsConsistent(db: Db, op: Op, id: string)
    requires Consistent(db) && id in Step(db, op).jobs && op.CancelRun?
    ensures JobConsistent(Step(db, op).jobs[id], Attempts(Step(db, op), id))
  {
    assert JobConsistent(db.jobs[id], Attempts(db, id));
  }

  lemma WorkKeepsConsistent(db: Db, op: Op, id: string)
    requires Consistent(db) && Disciplined(db, op) && id in Step(db, op).jobs
    requires op.EnsureAttempt? || op.MarkDelivery? || op.RecordResult?
    ensures JobConsistent(Step(db, op).jobs[id], Attempts(Step(db, op), id))
  {
    assert JobConsistent(db.jobs[id], Attempts(db, id));
  }

  lemma LeaseKeepsConsistent(db: Db, op: Op, id: string)
    requires Consistent(db) && id in Step(db, op).jobs
    requires op.Enqueue? || op.Claim? || op.Heartbeat? || op.CreateRun? || op.UpdateRun?
    ensures JobConsistent(Step(db, op).jobs[id], Attempts(Step(db, op), id))
  {
    if id in db.jobs { assert JobConsistent(db.jobs[id], Attempts(db, id)); }
  }

  lemma ConsistentStep(db: Db, op: Op)
    requires Consistent(db) && Disciplined(db, op)
    ensures Consistent(Step(db, op))
  {
    forall id | id in Step(db, op).jobs ensures JobConsistent(Step(db, op).jobs[id], Attempts(Step(db, op), id)) {
      if op.FinalizeStage? {
        FinalizeStageKeepsConsistent(db, op, id);
      } else if op.FinalizeCommand? || op.Resume? {
        ControlKeepsConsistent(db, op, id);
      } else if op.CancelRun? {
        CancelKeepsConsistent(db, op, id);
      } else if op.EnsureAttempt? || op.MarkDelivery? || op.RecordResult? {
        WorkKeepsConsistent(db, op, id);
      } else {
        LeaseKeepsConsistent(db, op, id);
      }
    }
    forall id | id !in Step(db, op).jobs ensures Attempts(Step(db, op), id) == [] {
      if id in db.jobs { StepOnJob(db, op, id); }
    }
  }

  /** Every reachable store is consistent, starting from any consistent one (the empty store is). */
  lemma {:induction false} ConsistentRun(db: Db, ops: seq<Op>)
    requires Consistent(db) && DisciplinedRun(db, ops)
    ensures Consistent(Run(db, ops))
  {
    if ops != [] {
      var init := ops[..|ops| - 1];
      ConsistentRun(db, init);
      ConsistentStep(Run(db, init), ops[|ops| - 1]);
    }
  }

  // ---------------------------------------------------------------- attempts and deliveries

  /** An attempt row is never dropped, leaves the created phase for good, and is frozen once finalised. */
  ghost predicate AttemptAdvances(a: Attempt, b: Attempt) {
    && (a.phase != AttemptCreated ==> b.phase != AttemptCreated)
    && (a.phase == Finalized ==> b == a)
  }

  ghost predicate RowAdvances(db: Db, op: Op, id: string, n: nat)
    requires n < |Attempts(db, id)|
  {
    n < |Attempts(Step(db, op), id)| && AttemptAdvances(Attempts(db, id)[n], Attempts(Step(db, op), id)[n])
  }

  lemma FinalizeAdvances(db: Db, op: Op, id: string, n: nat)
    requires Consistent(db) && n < |Attempts(db, id)| && op.FinalizeStage?
    ensures RowAdvances(db, op, id, n)
  {
    assert id in db.jobs && JobConsistent(db.jobs[id], Attempts(db, id));
  }

  lemma WorkAdvances(db: Db, op: Op, id: string, n: nat)
    requires Consistent(db) && n < |Attempts(db, id)| && (op.EnsureAttempt? || op.MarkDelivery? || op.RecordResult?)
    ensures RowAdvances(db, op, id, n)
  {
    assert id in db.jobs && JobConsistent(db.jobs[id], Attempts(db, id));
  }

  lemma AttemptStep(db: Db, op: Op, id: string, n: nat)
    requires Consistent(db) && n < |Attempts(db, id)|
    ensures RowAdvances(db, op, id, n)
  {
    if op.FinalizeStage? {
      FinalizeAdvances(db, op, id, n);
    } else if op.EnsureAttempt? || op.MarkDelivery? || op.RecordResult? {
      WorkAdvances(db, op, id, n);
    }
  }

  /** Whole runs: the attempt rows only move forward, and a finalised attempt never changes again. */
  lemma {:induction false} AttemptsAdvance(db: Db, ops: seq<Op>, id: string, n: nat)
    requires Consistent(db) && DisciplinedRun(db, ops) && n < |Attempts(db, id)|
    ensures n < |Attempts(Run(db, ops), id)| && AttemptAdvances(Attempts(db, id)[n], Attempts(Run(db, ops), id)[n])
  {
    if ops != [] {
      var init := ops[..|ops| - 1];
      AttemptsAdvance(db, init, id, n);
      ConsistentRun(db, init);
      AttemptStep(Run(db, init), ops[|ops| - 1], id, n);
    }
  }

  /** The operation starts the stage handler for attempt `n` of job `id`. */
  predicate Delivers(db: Db, op: Op, id: string, n: nat) {
    op.MarkDelivery? && Accepts(db, op) && op.token.job == id && db.jobs[id].attempt == Some(n)
  }

  lemma DeliveryIsMarked(db: Db, op: Op, id: string, n: nat)
    requires Delivers(db, op, id, n)
    ensures n < |Attempts(Step(db, op), id)| && Attempts(Step(db, op), id)[n].phase == DeliveryStarted
  {}

  lemma RedeliveryIsReplaySafe(db: Db, op: Op, id: string, n: nat)
    requires Consistent(db) && Disciplined(db, op) && Delivers(db, op, id, n)
    requires n < |Attempts(db, id)| && Attempts(db, id)[n].phase != AttemptCreated
    ensures db.jobs[id].replaySafe
  {
    assert JobConsistent(db.jobs[id], Attempts(db, id));
  }

  /** Across crashes, expired leases and takeovers, the handler is started twice for one attempt
      only when the stage was declared safe to replay. */
  lemma DeliveredOnce(db: Db, first: Op, between: seq<Op>, second: Op, id: string, n: nat)
    requires Consistent(db) && Disciplined(db, first) && Delivers(db, first, id, n)
    requires var after := Run(Step(db, first), between);
             && DisciplinedRun(Step(db, first), between)
             && Disciplined(after, second) && Delivers(after, second, id, n)
    ensures db.jobs[id].replaySafe
  {
    DeliveryIsMarked(db, first, id, n);
    ConsistentStep(db, first);
    AttemptsAdvance(Step(db, first), between, id, n);
    ConsistentRun(Step(db, first), between);
    RedeliveryIsReplaySafe(Run(Step(db, first), between), second, id, n);
    StepOnJob(db, first, id);
    RunKeepsJob(Step(db, first), between, id);
  }

  /** The same for any run of workers that check on rows read earlier. */
  lemma HandlerStartedOnce(db: Db, ops: seq<Op>, i: nat, j: nat, id: string, n: nat)
    requires Consistent(db) && WorkerRun(db, ops) && i < j < |ops|
    requires Delivers(Run(db, ops[..i]), ops[i], id, n) && Delivers(Run(db, ops[..j]), ops[j], id, n)
    ensures Run(db, ops[..i]).jobs[id].replaySafe
  {
    WorkerRunIsDisciplined(db, ops);
    DisciplinedSlice(db, ops, 0, i);
    ConsistentRun(db, ops[..i]);
    DisciplinedAt(db, ops, i);
    DisciplinedAt(db, ops, j);
    RunStep(db, ops, i);
    DisciplinedSlice(db, ops, i + 1, j);
    DeliveredOnce(Run(db, ops[..i]), ops[i], ops[i + 1..j], ops[j], id, n);
  }
}
