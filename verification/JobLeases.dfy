/** The durable job queue (src/dirty_data_to_olap/adapters/platform/sqlite_control_store.py): workers
    claim jobs under expiring leases, and every later write is fenced by the lease's generation.

    `Db` is the content of the jobs, stage_attempts and runs tables; each operation is one
    transaction, so a run of the system is a sequence of operations by any workers in any order. */
module JobLeases {
  import opened Common
  import opened Text

  datatype Status = Queued | Running | RetryWait | NeedsReview | Blocked | Failed | Cancelled | Succeeded

  datatype Kind = Command | Stage

  datatype Phase = NotStarted | AttemptCreated | DeliveryStarted | ResultRecorded | Finalized

  datatype Attempt = Attempt(phase: Phase, outcome: Status, revision: nat)

  datatype Job = Job(
    run: string, kind: Kind, stage: string, status: Status, priority: int, created: int, available: int,
    owner: Option<string>, generation: nat, expires: Option<int>, deliveries: nat, retries: nat,
    cancelRequested: bool, attempt: Option<nat>, phase: Phase, replaySafe: bool, scope: Option<string>,
    results: seq<string>, durableResult: Option<string>, revision: nat)

  /** `RunOpen` stands for every status that is neither cancelled nor succeeded. */
  datatype RunStatus = RunOpen | RunCancelled | RunSucceeded

  datatype RunRow = RunRow(status: RunStatus, revision: nat)

  /** `attempts[id]` are the attempts of a stage job in order of their numbers. */
  datatype Db = Db(jobs: map<string, Job>, attempts: map<string, seq<Attempt>>, runs: map<string, RunRow>)

  const EMPTY := Db(map[], map[], map[])

  /** A worker's claim to a job: who it is and under which generation it was given the lease. */
  datatype Token = Token(job: string, worker: string, generation: nat)

  datatype Op =
    | Enqueue(id: string, kind: Kind, stage: string, run: string, replaySafe: bool, scope: Option<string>, now: int)
    | Claim(id: string, worker: string, lease: int, perRun: int, perSource: int, now: int)
    | Heartbeat(token: Token, lease: int, now: int)
    | EnsureAttempt(token: Token, now: int)
    | MarkDelivery(token: Token, now: int)
    | RecordResult(token: Token, attempt: nat, seen: nat, result: string, now: int)
    | FinalizeStage(token: Token, attempt: nat, seen: nat, outcome: Status, outputs: seq<string>,
                    result: string, retries: nat, available: int, now: int)
    | FinalizeCommand(token: Token, outcome: Status, now: int)
    | CancelRun(run: string, now: int)
    | Resume(id: string, now: int)
    | CreateRun(run: string, status: RunStatus, now: int)
    | UpdateRun(run: string, status: RunStatus, seen: nat, now: int)

  // ---------------------------------------------------------------- queries

  predicate Live(j: Job, now: int) { j.status == Running && j.expires.Some? && j.expires.value > now }

  function ActiveInRun(db: Db, run: string, now: int): set<string> {
    set id | id in db.jobs && db.jobs[id].run == run && Live(db.jobs[id], now)
  }

  function ActiveOnSource(db: Db, scope: string, now: int): set<string> {
    set id | id in db.jobs && db.jobs[id].scope == Some(scope) && Live(db.jobs[id], now)
  }

  predicate Claimable(j: Job, now: int) {
    || ((j.status == Queued || j.status == RetryWait) && j.available <= now && !j.cancelRequested)
    || (j.status == Running && j.expires.Some? && j.expires.value <= now)
  }

  /** The WHERE clause of the claim query. */
  predicate Eligible(db: Db, id: string, perRun: int, perSource: int, now: int) {
    && id in db.jobs && Claimable(db.jobs[id], now)
    && |ActiveInRun(db, db.jobs[id].run, now)| < perRun
    && (db.jobs[id].scope.Some? ==> |ActiveOnSource(db, db.jobs[id].scope.value, now)| < perSource)
  }

  /** The ORDER BY of the claim query: highest priority, then longest available, oldest, smallest id. */
  predicate Before(db: Db, a: string, b: string)
    requires a in db.jobs && b in db.jobs
  {
    var x, y := db.jobs[a], db.jobs[b];
    if x.priority != y.priority then x.priority > y.priority
    else if x.available != y.available then x.available < y.available
    else if x.created != y.created then x.created < y.created
    else LexLe(a, b)
  }

  predicate Current(db: Db, t: Token) {
    && t.job in db.jobs && db.jobs[t.job].status == Running
    && db.jobs[t.job].owner == Some(t.worker) && db.jobs[t.job].generation == t.generation
  }

  /** The lease fence: the token is current and its lease has not expired. */
  predicate Holds(db: Db, t: Token, now: int) { Current(db, t) && Live(db.jobs[t.job], now) }

  // ---------------------------------------------------------------- one transaction

  function Put(db: Db, id: string, j: Job): Db
    requires id in db.jobs
  {
    db.(jobs := db.jobs[id := j.(revision := db.jobs[id].revision + 1)])
  }

  function Released(j: Job): Job { j.(owner := None, expires := None) }

  predicate Final(s: Status) { s == Succeeded || s == Failed || s == Cancelled }

  /** A cancellation that arrived first turns every other completion but a failure into a cancellation. */
  function EffectiveOutcome(cancelled: bool, outcome: Status): Status {
    if cancelled && outcome in {Succeeded, NeedsReview, Blocked, RetryWait} then Cancelled else outcome
  }

  predicate IsStageJob(j: Job, run: string, stage: string) { j.kind == Stage && j.run == run && j.stage == stage }

  /** The run has a job for this stage, whatever plan it was scheduled from. */
  predicate StageTaken(db: Db, run: string, stage: string) {
    exists id | id in db.jobs :: IsStageJob(db.jobs[id], run, stage)
  }

  predicate RunIsCancelled(db: Db, run: string) { run in db.runs && db.runs[run].status == RunCancelled }

  function Attempts(db: Db, id: string): seq<Attempt> { if id in db.attempts then db.attempts[id] else [] }

  /** The compare-and-swap on an attempt row: it exists, is the job's own and has the revision seen. */
  predicate AttemptMatches(db: Db, id: string, attempt: nat, seen: nat)
    requires id in db.jobs
  {
    && db.jobs[id].attempt == Some(attempt) && attempt < |Attempts(db, id)|
    && Attempts(db, id)[attempt].revision == seen
  }

  function PutAttempt(db: Db, id: string, attempt: nat, a: Attempt): Db
    requires attempt < |Attempts(db, id)|
  {
    var all := Attempts(db, id);
    db.(attempts := db.attempts[id := all[attempt := a.(revision := all[attempt].revision + 1)]])
  }

  function Claimed(j: Job, worker: string, expires: int): Job {
    j.(status := Running, owner := Some(worker), generation := j.generation + 1, expires := Some(expires),
       deliveries := j.deliveries + 1)
  }

  predicate Waiting(j: Job) { j.status in {Queued, RetryWait, NeedsReview, Blocked} }

  /** request_run_cancellation on one job row. */
  function CancelJob(j: Job, run: string): Job {
    if j.run != run || Final(j.status) then j
    else
      var k := j.(cancelRequested := true, revision := j.revision + 1);
      if Waiting(j) then Released(k).(status := Cancelled) else k
  }

  function PutRun(runs: map<string, RunRow>, run: string, status: RunStatus): map<string, RunRow>
    requires run in runs
  {
    runs[run := RunRow(status, runs[run].revision + 1)]
  }

  /** A stage job and its attempt, closed with an outcome; a retry starts over with a new attempt. */
  function Closed(db: Db, id: string, n: nat, outcome: Status, outputs: seq<string>, result: string, retries: nat,
                  available: int): Db
    requires id in db.jobs && n < |Attempts(db, id)|
  {
    var j := Released(db.jobs[id]).(status := outcome, available := available, retries := retries,
                                    results := if outcome == Cancelled then [] else outputs);
    Put(PutAttempt(db, id, n, Attempt(Finalized, outcome, 0)), id,
        if outcome == RetryWait then j.(attempt := None, phase := AttemptCreated, durableResult := None)
        else j.(phase := Finalized, durableResult := Some(result)))
  }

  /** Does the operation take effect, or is it refused with the store unchanged? */
  predicate Accepts(db: Db, op: Op) {
    match op
    case Enqueue(id, kind, stage, run, _, _, _) =>
      id !in db.jobs && run in db.runs && (kind == Stage ==> !StageTaken(db, run, stage))
    case Claim(id, worker, lease, perRun, perSource, now) =>
      worker != "" && lease >= 1 && perRun >= 1 && perSource >= 1 && Eligible(db, id, perRun, perSource, now)
    case Heartbeat(t, _, now) => Holds(db, t, now)
    case EnsureAttempt(t, now) => Holds(db, t, now) && db.jobs[t.job].kind == Stage && db.jobs[t.job].attempt == None
    case MarkDelivery(t, now) =>
      Holds(db, t, now) && db.jobs[t.job].kind == Stage && db.jobs[t.job].attempt.Some?
      && db.jobs[t.job].attempt.value < |Attempts(db, t.job)|
    case RecordResult(t, attempt, seen, _, now) =>
      Holds(db, t, now) && db.jobs[t.job].kind == Stage && AttemptMatches(db, t.job, attempt, seen)
    case FinalizeStage(t, attempt, seen, _, _, _, _, _, now) =>
      Holds(db, t, now) && AttemptMatches(db, t.job, attempt, seen)
    case FinalizeCommand(t, _, now) => Holds(db, t, now)
    case CancelRun(run, _) => run in db.runs
    case Resume(id, _) => id in db.jobs && db.jobs[id].status in {NeedsReview, Blocked, Failed}
    case CreateRun(run, _, _) => run !in db.runs
    case UpdateRun(run, _, seen, _) => run in db.runs && db.runs[run].revision == seen
  }

  function Apply(db: Db, op: Op): Db
    requires Accepts(db, op)
  {
    match op
    case Enqueue(id, kind, stage, run, replaySafe, scope, now) =>
      var phase := if kind == Stage then AttemptCreated else NotStarted;
      db.(jobs := db.jobs[id := Job(run, kind, stage, Queued, 0, now, now, None, 0, None, 0, 0, false, None, phase,
                                    replaySafe, scope, [], None, 0)])
    case Claim(id, worker, lease, _, _, now) => Put(db, id, Claimed(db.jobs[id], worker, now + lease))
    case Heartbeat(t, lease, now) => Put(db, t.job, db.jobs[t.job].(expires := Some(now + lease)))
    case EnsureAttempt(t, _) =>
      var started := Attempt(AttemptCreated, Running, 0);
      Put(db.(attempts := db.attempts[t.job := Attempts(db, t.job) + [started]]), t.job,
          db.jobs[t.job].(attempt := Some(|Attempts(db, t.job)|)))
    case MarkDelivery(t, _) =>
      var n := db.jobs[t.job].attempt.value;
      Put(PutAttempt(db, t.job, n, Attempts(db, t.job)[n].(phase := DeliveryStarted)), t.job,
          db.jobs[t.job].(phase := DeliveryStarted))
    case RecordResult(t, n, _, result, _) =>
      Put(PutAttempt(db, t.job, n, Attempts(db, t.job)[n].(phase := ResultRecorded)), t.job,
          db.jobs[t.job].(phase := ResultRecorded, durableResult := Some(result)))
    case FinalizeStage(t, n, _, requested, outputs, result, retries, available, _) =>
      var j := db.jobs[t.job];
      var outcome := EffectiveOutcome(j.cancelRequested || RunIsCancelled(db, j.run), requested);
      Closed(db, t.job, n, outcome, outputs, result, retries, available)
    case FinalizeCommand(t, outcome, _) =>
      Put(db, t.job, Released(db.jobs[t.job]).(status := outcome, phase := Finalized))
    case CancelRun(run, _) =>
      Db(map id | id in db.jobs :: CancelJob(db.jobs[id], run), db.attempts,
         if db.runs[run].status == RunOpen then PutRun(db.runs, run, RunCancelled) else db.runs)
    case Resume(id, now) =>
      Put(db, id, Released(db.jobs[id]).(status := Queued, attempt := None, available := now, cancelRequested := false,
                                         phase := AttemptCreated, durableResult := None))
    case CreateRun(run, status, _) => db.(runs := db.runs[run := RunRow(status, 0)])
    case UpdateRun(run, status, _, _) => db.(runs := PutRun(db.runs, run, status))
  }

  /** One transaction; a refused operation is rolled back. */
  function Step(db: Db, op: Op): Db { if Accepts(db, op) then Apply(db, op) else db }

  /** The content of the store after a sequence of operations. */
  function Run(db: Db, ops: seq<Op>): Db {
    if ops == [] then db else Step(Run(db, ops[..|ops| - 1]), ops[|ops| - 1])
  }

  // ---------------------------------------------------------------- per-job effect of one step

  ghost predicate Preserved(j: Job, k: Job) {
    k.run == j.run && k.kind == j.kind && k.stage == j.stage && k.scope == j.scope && k.replaySafe == j.replaySafe
  }

  /** What one operation can do to one job row. */
  ghost predicate RowStep(db: Db, op: Op, id: string)
    requires id in db.jobs
  {
    var j, jobs := db.jobs[id], Step(db, op).jobs;
    && id in jobs && Preserved(j, jobs[id])
    && (jobs[id] == j || jobs[id].revision == j.revision + 1)
    && (jobs[id].generation == j.generation || (op.Claim? && op.id == id && jobs[id].generation == j.generation + 1))
    && (j.status in {Succeeded, Cancelled} ==> jobs[id] == j)
  }

  lemma AttemptOpOnJob(db: Db, op: Op, id: string)
    requires id in db.jobs && (op.EnsureAttempt? || op.MarkDelivery? || op.RecordResult?)
    ensures RowStep(db, op, id)
  {}

  lemma FinalizeOnJob(db: Db, op: Op, id: string)
    requires id in db.jobs && (op.FinalizeStage? || op.FinalizeCommand?)
    ensures RowStep(db, op, id)
  {}

  lemma LeaseOpOnJob(db: Db, op: Op, id: string)
    requires id in db.jobs && (op.Enqueue? || op.Claim? || op.Heartbeat?)
    ensures RowStep(db, op, id)
  {}

  lemma StepOnJob(db: Db, op: Op, id: string)
    requires id in db.jobs
    ensures RowStep(db, op, id)
  {
    if op.EnsureAttempt? || op.MarkDelivery? || op.RecordResult? {
      AttemptOpOnJob(db, op, id);
    } else if op.FinalizeStage? || op.FinalizeCommand? {
      FinalizeOnJob(db, op, id);
    } else if op.Enqueue? || op.Claim? || op.Heartbeat? {
      LeaseOpOnJob(db, op, id);
    }
  }

  lemma {:induction false} RunKeepsJob(db: Db, ops: seq<Op>, id: string)
    requires id in db.jobs
    ensures id in Run(db, ops).jobs && Preserved(db.jobs[id], Run(db, ops).jobs[id])
    ensures db.jobs[id].generation <= Run(db, ops).jobs[id].generation
    ensures db.jobs[id].revision <= Run(db, ops).jobs[id].revision
    ensures db.jobs[id].status in {Succeeded, Cancelled} ==> Run(db, ops).jobs[id] == db.jobs[id]
  {
    if ops != [] {
      RunKeepsJob(db, ops[..|ops| - 1], id);
      StepOnJob(Run(db, ops[..|ops| - 1]), ops[|ops| - 1], id);
    }
  }

  lemma {:induction false} RunConcat(db: Db, a: seq<Op>, b: seq<Op>)
    ensures Run(db, a + b) == Run(Run(db, a), b)
  {
    if b == [] {
      assert a + b == a;
    } else {
      assert (a + b)[..|a + b| - 1] == a + b[..|b| - 1];
      RunConcat(db, a, b[..|b| - 1]);
    }
  }

  lemma RunStep(db: Db, ops: seq<Op>, i: nat)
    requires i < |ops|
    ensures Run(db, ops[..i + 1]) == Step(Run(db, ops[..i]), ops[i])
  {
    assert ops[..i + 1][..i] == ops[..i];
  }

  /** A job id is bound once and for all: whatever happens later, the job keeps what it was enqueued
      with, and every further attempt to enqueue that id changes nothing. */
  lemma EnqueueBindsOnce(db: Db, op: Op, ops: seq<Op>, again: Op)
    requires op.Enqueue? && Accepts(db, op) && again.Enqueue? && again.id == op.id
    ensures var after := Run(Step(db, op), ops);
            && op.id in after.jobs && after.jobs[op.id].run == op.run && after.jobs[op.id].kind == op.kind
            && after.jobs[op.id].stage == op.stage
            && after.jobs[op.id].scope == op.scope && after.jobs[op.id].replaySafe == op.replaySafe
            && Step(after, again) == after
  {
    RunKeepsJob(Step(db, op), ops, op.id);
  }

  // ---------------------------------------------------------------- run rows

  lemma StepOnRun(db: Db, op: Op, run: string)
    requires run in db.runs
    ensures var runs := Step(db, op).runs;
            run in runs && (runs[run] == db.runs[run] || runs[run].revision == db.runs[run].revision + 1)
  {}

  lemma {:induction false} RunRowAdvances(db: Db, ops: seq<Op>, run: string)
    requires run in db.runs
    ensures var runs := Run(db, ops).runs;
            && run in runs && db.runs[run].revision <= runs[run].revision
            && (runs[run].revision == db.runs[run].revision ==> runs[run] == db.runs[run])
  {
    if ops != [] {
      RunRowAdvances(db, ops[..|ops| - 1], run);
      StepOnRun(Run(db, ops[..|ops| - 1]), ops[|ops| - 1], run);
    }
  }

  /** The compare-and-swap on a run: an update based on an earlier read is accepted if and only if
      the row is still the one that was read, whatever happened in between. */
  lemma UpdateIsCompareAndSwap(db: Db, ops: seq<Op>, run: string, status: RunStatus, now: int)
    requires run in db.runs
    ensures Accepts(Run(db, ops), UpdateRun(run, status, db.runs[run].revision, now))
       <==> run in Run(db, ops).runs && Run(db, ops).runs[run] == db.runs[run]
  {
    RunRowAdvances(db, ops, run);
  }

  // ---------------------------------------------------------------- fencing

  /** The token an operation is fenced by. */
  function Fence(op: Op): Option<Token> {
    match op
    case Heartbeat(t, _, _) => Some(t)
    case EnsureAttempt(t, _) => Some(t)
    case MarkDelivery(t, _) => Some(t)
    case RecordResult(t, _, _, _, _) => Some(t)
    case FinalizeStage(t, _, _, _, _, _, _, _, _) => Some(t)
    case FinalizeCommand(t, _, _) => Some(t)
    case _ => None
  }

  /** The generation of the token has been reached. */
  predicate Issued(db: Db, t: Token) { t.job in db.jobs && t.generation <= db.jobs[t.job].generation }

  /** The token was issued and is no longer the current one. */
  predicate Lost(db: Db, t: Token) { Issued(db, t) && !Current(db, t) }

  lemma LostStep(db: Db, op: Op, t: Token)
    requires Lost(db, t)
    ensures Lost(Step(db, op), t)
  {}

  lemma {:induction false} LostForever(db: Db, ops: seq<Op>, t: Token)
    requires Lost(db, t)
    ensures Lost(Run(db, ops), t)
  {
    if ops != [] {
      LostForever(db, ops[..|ops| - 1], t);
      LostStep(Run(db, ops[..|ops| - 1]), ops[|ops| - 1], t);
    }
  }

  /** A worker whose lease was taken over or given up can never write again, whatever happens in between. */
  lemma StaleWorkerIsInert(db: Db, ops: seq<Op>, op: Op)
    requires Fence(op).Some? && Lost(db, Fence(op).value)
    ensures Step(Run(db, ops), op) == Run(db, ops)
  {
    LostForever(db, ops, Fence(op).value);
  }

  /** A claim is granted only when no lease on the job can pass the fence any more, and it leaves
      every earlier token lost and the claimant current. */
  lemma ClaimTakesOver(db: Db, op: Op, t: Token, later: int)
    requires op.Claim? && Accepts(db, op) && t.job == op.id && t.generation <= db.jobs[op.id].generation
    requires op.now <= later
    ensures !Holds(db, t, later)
    ensures Lost(Step(db, op), t)
    ensures Holds(Step(db, op), Token(op.id, op.worker, db.jobs[op.id].generation + 1), op.now)
  {}

  /** The delivery phase, the attempt and the recorded result of a leased job change only by the
      hand of the token that holds it. */
  lemma PhaseBelongsToHolder(db: Db, op: Op, t: Token)
    requires Current(db, t) && Current(Step(db, op), t) && (Fence(op) == Some(t) ==> op.Heartbeat?)
    ensures SamePhase(db.jobs[t.job], Step(db, op).jobs[t.job])
  {}

  ghost predicate SamePhase(j: Job, k: Job) {
    k.phase == j.phase && k.attempt == j.attempt && k.durableResult == j.durableResult
  }

  /** The token's own operations are heartbeats. */
  ghost predicate OnlyHeartbeats(ops: seq<Op>, t: Token) {
    forall i | 0 <= i < |ops| && Fence(ops[i]) == Some(t) :: ops[i].Heartbeat?
  }

  lemma CurrentThroughout(db: Db, ops: seq<Op>, op: Op, t: Token)
    requires Current(db, t) && Current(Step(Run(db, ops), op), t)
    ensures Current(Run(db, ops), t)
  {
    RunKeepsJob(db, ops, t.job);
    if !Current(Run(db, ops), t) { LostStep(Run(db, ops), op, t); }
  }

  /** Over a whole run: a worker that holds its lease at both ends and only sent heartbeats finds
      phase, attempt and result as it read them. */
  lemma {:induction false} PhaseKeptWhileHeld(db: Db, ops: seq<Op>, t: Token)
    requires Current(db, t) && Current(Run(db, ops), t) && OnlyHeartbeats(ops, t)
    ensures SamePhase(db.jobs[t.job], Run(db, ops).jobs[t.job])
  {
    if ops != [] {
      var init, last := ops[..|ops| - 1], ops[|ops| - 1];
      CurrentThroughout(db, init, last, t);
      PhaseKeptWhileHeld(db, init, t);
      PhaseBelongsToHolder(Run(db, init), last, t);
    }
  }

  // ---------------------------------------------------------------- time

  function Time(op: Op): int {
    match op
    case Enqueue(_, _, _, _, _, _, now) => now
    case Claim(_, _, _, _, _, now) => now
    case Heartbeat(_, _, now) => now
    case EnsureAttempt(_, now) => now
    case MarkDelivery(_, now) => now
    case RecordResult(_, _, _, _, now) => now
    case FinalizeStage(_, _, _, _, _, _, _, _, now) => now
    case FinalizeCommand(_, _, now) => now
    case CancelRun(_, now) => now
    case Resume(_, now) => now
    case CreateRun(_, _, now) => now
    case UpdateRun(_, _, _, now) => now
  }

  // ---------------------------------------------------------------- expiry

  /** The token's own heartbeat, sent with a clock from before `start`, makes its lease outlast `start`. */
  ghost predicate Revives(db: Db, op: Op, t: Token, start: int) {
    op.Heartbeat? && op.token == t && Accepts(db, op) && op.now + op.lease > start
  }

  lemma ExpiredStep(db: Db, op: Op, t: Token, start: int)
    requires Issued(db, t) && !Holds(db, t, start)
    ensures Issued(Step(db, op), t)
    ensures Holds(Step(db, op), t, start) <==> Revives(db, op, t, start)
  {
    StepOnJob(db, op, t.job);
  }

  /** At every moment of the run the token fails the fence at `start`. */
  ghost predicate NeverHolds(db: Db, ops: seq<Op>, t: Token, start: int) {
    forall n: nat | n <= |ops| :: !HoldsAt(db, ops, n, t, start)
  }

  ghost predicate HoldsAt(db: Db, ops: seq<Op>, n: nat, t: Token, start: int)
    requires n <= |ops|
  {
    Holds(Run(db, ops[..n]), t, start)
  }

  ghost predicate RevivesAt(db: Db, ops: seq<Op>, i: nat, t: Token, start: int)
    requires i < |ops|
  {
    Revives(Run(db, ops[..i]), ops[i], t, start)
  }

  lemma {:induction false} ExpiredUntilRevived(db: Db, ops: seq<Op>, t: Token, start: int, n: nat)
    requires Issued(db, t) && !Holds(db, t, start) && n <= |ops|
    requires forall i: nat | i < n :: !RevivesAt(db, ops, i, t, start)
    ensures Issued(Run(db, ops[..n]), t) && !HoldsAt(db, ops, n, t, start)
  {
    if n > 0 {
      ExpiredUntilRevived(db, ops, t, start, n - 1);
      RunStep(db, ops, n - 1);
      assert !RevivesAt(db, ops, n - 1, t, start);
      ExpiredStep(Run(db, ops[..n - 1]), ops[n - 1], t, start);
    }
  }

  /** Whatever clocks all the operations carry: a token that does not hold at some time never passes
      the fence of that time again, if and only if none of its own heartbeats, sent with an older
      clock, is accepted and reaches beyond that time. */
  lemma ExpiryIsFinalExactly(db: Db, ops: seq<Op>, t: Token, start: int)
    requires Issued(db, t) && !Holds(db, t, start)
    ensures NeverHolds(db, ops, t, start) <==> forall i: nat | i < |ops| :: !RevivesAt(db, ops, i, t, start)
  {
    if forall i: nat | i < |ops| :: !RevivesAt(db, ops, i, t, start) {
      forall n: nat | n <= |ops| ensures !HoldsAt(db, ops, n, t, start) {
        ExpiredUntilRevived(db, ops, t, start, n);
      }
    }
    if NeverHolds(db, ops, t, start) {
      forall i: nat | i < |ops| ensures !RevivesAt(db, ops, i, t, start) {
        assert !HoldsAt(db, ops, i, t, start) && !HoldsAt(db, ops, i + 1, t, start);
        RunKeepsJob(db, ops[..i], t.job);
        RunStep(db, ops, i);
        ExpiredStep(Run(db, ops[..i]), ops[i], t, start);
      }
    }
  }

  /** A heartbeat of the token either carries a clock that has reached `start`, or asks for too short
      a lease to reach it. */
  predicate Punctual(op: Op, t: Token, start: int) {
    op.Heartbeat? && op.token == t ==> start <= op.now || op.now + op.lease <= start
  }

  lemma {:induction false} PunctualStaysExpired(db: Db, ops: seq<Op>, t: Token, start: int)
    requires Issued(db, t) && !Holds(db, t, start) && forall i | 0 <= i < |ops| :: Punctual(ops[i], t, start)
    ensures Issued(Run(db, ops), t) && !Holds(Run(db, ops), t, start)
  {
    if ops != [] {
      var init, last := ops[..|ops| - 1], ops[|ops| - 1];
      PunctualStaysExpired(db, init, t, start);
      ExpiredStep(Run(db, init), last, t, start);
    }
  }

  /** A worker whose lease does not hold at some time, expired or taken over, reclaimed or not, has no
      operation with that time or a later one accepted any more.  Only its own heartbeats have to be
      punctual: every other operation of any worker may carry any time. */
  lemma ExpiredWorkerIsInert(db: Db, ops: seq<Op>, op: Op, start: int)
    requires Fence(op).Some? && Issued(db, Fence(op).value) && !Holds(db, Fence(op).value, start)
    requires start <= Time(op) && forall i | 0 <= i < |ops| :: Punctual(ops[i], Fence(op).value, start)
    ensures !Accepts(Run(db, ops), op) && Step(Run(db, ops), op) == Run(db, ops)
  {
    PunctualStaysExpired(db, ops, Fence(op).value, start);
  }
}
