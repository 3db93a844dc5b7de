/** The control store as an object: its tables are fields and every public operation is one
    transaction on them.  The store remembers, for the proofs only, which operations it was asked
    for; its content is always the run of the protocol in `JobLeases` over that history, so what is
    proved about runs holds of the object, whatever calls are made in whatever order. */
module ControlStore {
  import opened Common
  import opened Text
  import opened JobLeases
  import opened JobDiscipline
  import opened Cancellation
  import opened Admission
  import opened JobLaws

  // ---------------------------------------------------------------- the claim order

  lemma BeforeTotal(db: Db, a: string, b: string)
    requires a in db.jobs && b in db.jobs
    ensures Before(db, a, b) || Before(db, b, a)
  {
    LexTotal(a, b);
  }

  lemma BeforeTransitive(db: Db, a: string, b: string, c: string)
    requires a in db.jobs && b in db.jobs && c in db.jobs
    requires Before(db, a, b) && Before(db, b, c)
    ensures Before(db, a, c)
  {
    if LexLe(a, b) && LexLe(b, c) { LexTransitive(a, b, c); }
  }

  predicate IsFirst(db: Db, ids: set<string>, id: string)
    requires ids <= db.jobs.Keys
  {
    id in ids && forall other | other in ids :: Before(db, id, other)
  }

  /** The claim query has one answer. */
  lemma FirstIsUnique(db: Db, ids: set<string>, a: string, b: string)
    requires ids <= db.jobs.Keys && IsFirst(db, ids, a) && IsFirst(db, ids, b)
    ensures a == b
  {
    assert Before(db, a, b) && Before(db, b, a);
    if LexLe(a, b) && LexLe(b, a) { LexAntisymmetric(a, b); }
  }

  function EligibleJobs(db: Db, perRun: int, perSource: int, now: int): (ids: set<string>)
    ensures ids <= db.jobs.Keys
  {
    set id | id in db.jobs && Eligible(db, id, perRun, perSource, now)
  }

  /** Said in the columns: the job may be claimed, and no other that may goes before it. */
  ghost predicate IsNext(db: Db, id: string, perRun: int, perSource: int, now: int) {
    && MayBeClaimed(db, id, perRun, perSource, now)
    && forall other | other in db.jobs && MayBeClaimed(db, other, perRun, perSource, now) :: !Ahead(db, other, id)
  }

  lemma FirstIsNext(db: Db, perRun: int, perSource: int, now: int, id: string)
    requires IsFirst(db, EligibleJobs(db, perRun, perSource, now), id)
    ensures IsNext(db, id, perRun, perSource, now)
  {
    EligibleExactly(db, id, perRun, perSource, now);
    forall other | other in db.jobs && MayBeClaimed(db, other, perRun, perSource, now) ensures !Ahead(db, other, id) {
      EligibleExactly(db, other, perRun, perSource, now);
      BeforeExactly(db, id, other);
    }
  }

  lemma NoneMayBeClaimed(db: Db, perRun: int, perSource: int, now: int)
    requires forall id | id in db.jobs :: id !in EligibleJobs(db, perRun, perSource, now)
    ensures forall id | id in db.jobs :: !MayBeClaimed(db, id, perRun, perSource, now)
  {
    forall id | id in db.jobs ensures !MayBeClaimed(db, id, perRun, perSource, now) {
      EligibleExactly(db, id, perRun, perSource, now);
    }
  }

  /** `found` is the first eligible row among those already scanned. */
  ghost predicate BestSoFar(db: Db, eligible: set<string>, left: set<string>, found: Option<string>)
    requires eligible <= db.jobs.Keys
  {
    if found.Some? then IsFirst(db, eligible - left, found.value) else eligible <= left
  }

  lemma SkipRow(db: Db, eligible: set<string>, left: set<string>, found: Option<string>, id: string)
    requires eligible <= db.jobs.Keys && BestSoFar(db, eligible, left, found)
    requires id !in eligible || (id in left && found.Some? && Before(db, found.value, id))
    ensures BestSoFar(db, eligible, left - {id}, found)
  {}

  lemma TakeRow(db: Db, eligible: set<string>, left: set<string>, found: Option<string>, id: string)
    requires eligible <= db.jobs.Keys && BestSoFar(db, eligible, left, found) && id in eligible
    requires found.Some? ==> !Before(db, found.value, id)
    ensures BestSoFar(db, eligible, left - {id}, Some(id))
  {
    forall other | other in eligible - (left - {id}) ensures Before(db, id, other) {
      BeforeTotal(db, id, id);
      if other != id {
        BeforeTotal(db, found.value, id);
        BeforeTransitive(db, id, found.value, other);
      }
    }
  }

  /** One more row of a COUNT over a scan. */
  lemma CountStep(active: set<string>, left: set<string>, id: string)
    requires id in left
    ensures |active - (left - {id})| == |active - left| + (if id in active then 1 else 0)
  {
    if id in active {
      assert active - (left - {id}) == (active - left) + {id};
    } else {
      assert active - (left - {id}) == active - left;
    }
  }

  // ---------------------------------------------------------------- the cancellation scan

  /** The rows already scanned are cancelled, the others are as they were. */
  ghost predicate PartlyCancelled(was: map<string, Job>, jobs: map<string, Job>, left: set<string>, run: string) {
    jobs == map id | id in was :: if id in left then was[id] else CancelJob(was[id], run)
  }

  lemma CancelStep(was: map<string, Job>, jobs: map<string, Job>, left: set<string>, run: string, id: string)
    requires PartlyCancelled(was, jobs, left, run) && id in left && id in was
    ensures PartlyCancelled(was, jobs[id := CancelJob(jobs[id], run)], left - {id}, run)
  {}

  // ---------------------------------------------------------------- history

  lemma RunSnoc(ops: seq<Op>, op: Op)
    ensures Run(EMPTY, ops + [op]) == Step(Run(EMPTY, ops), op)
  {
    assert (ops + [op])[..|ops|] == ops;
  }

  ghost predicate EnqueuesAt(ops: seq<Op>, i: nat, id: string)
    requires i < |ops|
  {
    ops[i].Enqueue? && ops[i].id == id && Accepts(Run(EMPTY, ops[..i]), ops[i])
  }

  ghost predicate Enqueued(ops: seq<Op>, id: string) { exists i: nat | i < |ops| :: EnqueuesAt(ops, i, id) }

  lemma NewJob(db: Db, op: Op, id: string)
    ensures id in Step(db, op).jobs <==> id in db.jobs || (op.Enqueue? && op.id == id && Accepts(db, op))
  {
    if id in db.jobs { StepOnJob(db, op, id); }
  }

  /** The jobs of a store are exactly those that were enqueued. */
  lemma {:induction false} JobsWereEnqueued(ops: seq<Op>, id: string)
    ensures id in Run(EMPTY, ops).jobs <==> Enqueued(ops, id)
  {
    if ops != [] {
      var n := |ops| - 1;
      JobsWereEnqueued(ops[..n], id);
      NewJob(Run(EMPTY, ops[..n]), ops[n], id);
      forall i: nat | i < n ensures EnqueuesAt(ops, i, id) == EnqueuesAt(ops[..n], i, id) {
        assert ops[..n][..i] == ops[..i];
      }
      if Enqueued(ops[..n], id) {
        var i: nat :| i < n && EnqueuesAt(ops[..n], i, id);
        assert EnqueuesAt(ops, i, id);
      }
      if id in Run(EMPTY, ops).jobs && id !in Run(EMPTY, ops[..n]).jobs { assert EnqueuesAt(ops, n, id); }
    }
  }

  ghost predicate StageEnqueuesAt(ops: seq<Op>, i: nat, run: string, stage: string)
    requires i < |ops|
  {
    && ops[i].Enqueue? && ops[i].kind == Stage && ops[i].run == run && ops[i].stage == stage
    && Accepts(Run(EMPTY, ops[..i]), ops[i])
  }

  ghost predicate StageEnqueued(ops: seq<Op>, run: string, stage: string) {
    exists i: nat | i < |ops| :: StageEnqueuesAt(ops, i, run, stage)
  }

  lemma NewStage(db: Db, op: Op, run: string, stage: string)
    ensures StageTaken(Step(db, op), run, stage)
       <==> StageTaken(db, run, stage)
            || (op.Enqueue? && op.kind == Stage && op.run == run && op.stage == stage && Accepts(db, op))
  {
    if id :| id in db.jobs && IsStageJob(db.jobs[id], run, stage) { StepOnJob(db, op, id); }
    if id :| id in Step(db, op).jobs && IsStageJob(Step(db, op).jobs[id], run, stage) {
      NewJob(db, op, id);
      if id in db.jobs { StepOnJob(db, op, id); }
    }
    if op.Enqueue? && op.kind == Stage && op.run == run && op.stage == stage && Accepts(db, op) {
      assert IsStageJob(Step(db, op).jobs[op.id], run, stage);
    }
  }

  /** The stages that have a job are exactly those for which one was enqueued. */
  lemma {:induction false} StagesWereEnqueued(ops: seq<Op>, run: string, stage: string)
    ensures StageTaken(Run(EMPTY, ops), run, stage) <==> StageEnqueued(ops, run, stage)
  {
    if ops != [] {
      var n := |ops| - 1;
      StagesWereEnqueued(ops[..n], run, stage);
      NewStage(Run(EMPTY, ops[..n]), ops[n], run, stage);
      forall i: nat | i < n ensures StageEnqueuesAt(ops, i, run, stage) == StageEnqueuesAt(ops[..n], i, run, stage) {
        assert ops[..n][..i] == ops[..i];
      }
      if StageEnqueued(ops[..n], run, stage) {
        var i: nat :| i < n && StageEnqueuesAt(ops[..n], i, run, stage);
        assert StageEnqueuesAt(ops, i, run, stage);
      }
      if StageTaken(Run(EMPTY, ops), run, stage) && !StageTaken(Run(EMPTY, ops[..n]), run, stage) {
        assert StageEnqueuesAt(ops, n, run, stage);
      }
    }
  }

  /** A run never has two jobs for one stage, from whatever plans they were scheduled. */
  lemma {:induction false} OneJobPerStage(ops: seq<Op>, a: string, b: string, run: string, stage: string)
    requires var jobs := Run(EMPTY, ops).jobs;
             a in jobs && b in jobs && IsStageJob(jobs[a], run, stage) && IsStageJob(jobs[b], run, stage)
    ensures a == b
  {
    var before, op := Run(EMPTY, ops[..|ops| - 1]), ops[|ops| - 1];
    NewJob(before, op, a);
    NewJob(before, op, b);
    if a in before.jobs { StepOnJob(before, op, a); }
    if b in before.jobs { StepOnJob(before, op, b); }
    if a in before.jobs && b in before.jobs { OneJobPerStage(ops[..|ops| - 1], a, b, run, stage); }
  }

  /** At moment `n` of the history the run had revision `seen`. */
  ghost predicate HadRevision(ops: seq<Op>, n: nat, run: string, seen: nat)
    requires n <= |ops|
  {
    run in Run(EMPTY, ops[..n]).runs && Run(EMPTY, ops[..n]).runs[run].revision == seen
  }

  lemma SameRowSince(ops: seq<Op>, n: nat, run: string)
    requires n <= |ops| && run in Run(EMPTY, ops).runs && HadRevision(ops, n, run, Run(EMPTY, ops).runs[run].revision)
    ensures Run(EMPTY, ops[..n]).runs[run] == Run(EMPTY, ops).runs[run]
  {
    assert ops == ops[..n] + ops[n..];
    RunConcat(EMPTY, ops[..n], ops[n..]);
    RunRowAdvances(Run(EMPTY, ops[..n]), ops[n..], run);
  }

  // ---------------------------------------------------------------- the store

  class Store {
    var jobs: map<string, Job>
    var attempts: map<string, seq<Attempt>>
    var runs: map<string, RunRow>
    ghost var history: seq<Op>

    ghost function Content(): Db reads this { Db(jobs, attempts, runs) }

    ghost predicate Valid() reads this { Content() == Run(EMPTY, history) }

    /** A freshly created database. */
    constructor ()
      ensures Valid() && history == [] && Content() == EMPTY
    {
      jobs, attempts, runs, history := map[], map[], map[], [];
    }

    /** The tables now hold what the operation makes of them; note it down. */
    ghost method Log(op: Op, before: Db)
      requires before == Run(EMPTY, history) && Content() == Step(before, op)
      modifies this`history
      ensures Valid() && history == old(history) + [op]
    {
      RunSnoc(history, op);
      history := history + [op];
    }

    predicate Fenced(t: Token, now: int)
      reads this
    {
      && t.job in jobs && jobs[t.job].status == Running && jobs[t.job].owner == Some(t.worker)
      && jobs[t.job].generation == t.generation
      && jobs[t.job].expires.Some? && jobs[t.job].expires.value > now
    }

    method Save(id: string, j: Job)
      requires id in jobs
      modifies this`jobs
      ensures jobs == old(jobs)[id := j.(revision := old(jobs)[id].revision + 1)]
    {
      jobs := jobs[id := j.(revision := jobs[id].revision + 1)];
    }

    method SaveAttempt(id: string, n: nat, a: Attempt)
      requires id in attempts && n < |attempts[id]|
      modifies this`attempts
      ensures attempts == old(attempts)[id := old(attempts)[id][n := a.(revision := old(attempts)[id][n].revision + 1)]]
    {
      attempts := attempts[id := attempts[id][n := a.(revision := attempts[id][n].revision + 1)]];
    }

    // -------------------------------------------------------------- the claim query

    method CountInRun(run: string, now: int) returns (n: nat)
      ensures n == |ActiveInRun(Content(), run, now)|
    {
      n := 0;
      var left := jobs.Keys;
      ghost var active := ActiveInRun(Content(), run, now);
      while left != {}
        invariant left <= jobs.Keys && n == |active - left|
      {
        var id :| id in left;
        CountStep(active, left, id);
        if jobs[id].run == run && Live(jobs[id], now) { n := n + 1; }
        left := left - {id};
      }
      assert active - left == active;
    }

    method CountOnSource(scope: string, now: int) returns (n: nat)
      ensures n == |ActiveOnSource(Content(), scope, now)|
    {
      n := 0;
      var left := jobs.Keys;
      ghost var active := ActiveOnSource(Content(), scope, now);
      while left != {}
        invariant left <= jobs.Keys && n == |active - left|
      {
        var id :| id in left;
        CountStep(active, left, id);
        if jobs[id].scope == Some(scope) && Live(jobs[id], now) { n := n + 1; }
        left := left - {id};
      }
      assert active - left == active;
    }

    /** The WHERE clause for one row, with its two subqueries. */
    method Admits(id: string, perRun: int, perSource: int, now: int) returns (ok: bool)
      requires id in jobs
      ensures ok == Eligible(Content(), id, perRun, perSource, now)
    {
      if !Claimable(jobs[id], now) { return false; }
      var inRun := CountInRun(jobs[id].run, now);
      if inRun >= perRun { return false; }
      if jobs[id].scope == None { return true; }
      var onSource := CountOnSource(jobs[id].scope.value, now);
      return onSource < perSource;
    }

    /** The claim query as a scan: the first eligible row, if there is one. */
    method SelectClaimable(perRun: int, perSource: int, now: int) returns (found: Option<string>)
      ensures var eligible := EligibleJobs(Content(), perRun, perSource, now);
              if found.Some? then IsFirst(Content(), eligible, found.value) else eligible == {}
    {
      found := None;
      var left := jobs.Keys;
      ghost var db := Content();
      ghost var eligible := EligibleJobs(db, perRun, perSource, now);
      while left != {}
        invariant left <= jobs.Keys && BestSoFar(db, eligible, left, found)
      {
        var id :| id in left;
        var admitted := Admits(id, perRun, perSource, now);
        if admitted && (found.None? || !Before(Db(jobs, attempts, runs), found.value, id)) {
          TakeRow(db, eligible, left, found, id);
          found := Some(id);
        } else {
          SkipRow(db, eligible, left, found, id);
        }
        left := left - {id};
      }
      assert eligible - left == eligible;
    }

    /** A job is claimed whenever one may be: a due one, or one whose worker's lease has lapsed, with room
        in its run and on its source; and it is the next in priority, availability, age and id order. */
    method ClaimNextJob(worker: string, lease: int, perRun: int, perSource: int, now: int)
      returns (claimed: Option<string>)
      requires Valid()
      modifies this
      ensures Valid()
      ensures var db := old(Content());
              if claimed.Some? then
                && worker != "" && lease >= 1 && perRun >= 1 && perSource >= 1
                && IsNext(db, claimed.value, perRun, perSource, now)
                && var op := Claim(claimed.value, worker, lease, perRun, perSource, now);
                   Accepts(db, op) && Content() == Step(db, op) && history == old(history) + [op]
              else
                && Content() == db && history == old(history)
                && (worker == "" || lease < 1 || perRun < 1 || perSource < 1
                    || forall id | id in db.jobs :: !MayBeClaimed(db, id, perRun, perSource, now))
    {
      if worker == "" || lease < 1 || perRun < 1 || perSource < 1 {
        return None;
      }
      claimed := SelectClaimable(perRun, perSource, now);
      if claimed.Some? {
        ghost var before := Content();
        FirstIsNext(before, perRun, perSource, now, claimed.value);
        Save(claimed.value, Claimed(jobs[claimed.value], worker, now + lease));
        Log(Claim(claimed.value, worker, lease, perRun, perSource, now), before);
      } else {
        NoneMayBeClaimed(Content(), perRun, perSource, now);
      }
    }

    // -------------------------------------------------------------- fenced operations

    /** Every method below reports whether the store accepted the operation; a refusal is the
        source's raised conflict, and leaves the tables as they were. */
    method HeartbeatJob(t: Token, lease: int, now: int) returns (ok: bool)
      requires Valid()
      modifies this
      ensures Valid() && history == old(history) + [Heartbeat(t, lease, now)]
      ensures ok == Accepts(old(Content()), Heartbeat(t, lease, now))
    {
      ghost var before := Content();
      ok := Fenced(t, now);
      if ok { Save(t.job, jobs[t.job].(expires := Some(now + lease))); }
      Log(Heartbeat(t, lease, now), before);
    }

    method EnsureStageAttempt(t: Token, now: int) returns (ok: bool, attempt: nat)
      requires Valid()
      modifies this
      ensures Valid() && history == old(history) + [EnsureAttempt(t, now)]
      ensures ok == (Holds(old(Content()), t, now) && old(jobs)[t.job].kind == Stage)
      ensures ok ==> t.job in jobs && jobs[t.job].attempt == Some(attempt)
    {
      ghost var before := Content();
      attempt := 0;
      ok := Fenced(t, now) && jobs[t.job].kind == Stage;
      if ok && jobs[t.job].attempt.Some? {
        attempt := jobs[t.job].attempt.value;
      } else if ok {
        var earlier := if t.job in attempts then attempts[t.job] else [];
        attempt := |earlier|;
        attempts := attempts[t.job := earlier + [Attempt(AttemptCreated, Running, 0)]];
        Save(t.job, jobs[t.job].(attempt := Some(attempt)));
      }
      Log(EnsureAttempt(t, now), before);
    }

    method MarkHandlerDeliveryStarted(t: Token, now: int) returns (ok: bool)
      requires Valid()
      modifies this
      ensures Valid() && history == old(history) + [MarkDelivery(t, now)]
      ensures ok == Accepts(old(Content()), MarkDelivery(t, now))
    {
      ghost var before := Content();
      ok := Fenced(t, now) && jobs[t.job].kind == Stage && jobs[t.job].attempt.Some? && t.job in attempts
            && jobs[t.job].attempt.value < |attempts[t.job]|;
      if ok {
        var n := jobs[t.job].attempt.value;
        SaveAttempt(t.job, n, attempts[t.job][n].(phase := DeliveryStarted));
        Save(t.job, jobs[t.job].(phase := DeliveryStarted));
      }
      Log(MarkDelivery(t, now), before);
    }

    predicate Unmoved(id: string, attempt: nat, seen: nat)
      requires id in jobs
      reads this
    {
      && jobs[id].attempt == Some(attempt) && id in attempts && attempt < |attempts[id]|
      && attempts[id][attempt].revision == seen
    }

    method RecordStageResult(t: Token, attempt: nat, seen: nat, result: string, now: int) returns (ok: bool)
      requires Valid()
      modifies this
      ensures Valid() && history == old(history) + [RecordResult(t, attempt, seen, result, now)]
      ensures ok == Accepts(old(Content()), RecordResult(t, attempt, seen, result, now))
    {
      ghost var before := Content();
      ok := Fenced(t, now) && jobs[t.job].kind == Stage && Unmoved(t.job, attempt, seen);
      if ok {
        SaveAttempt(t.job, attempt, attempts[t.job][attempt].(phase := ResultRecorded));
        Save(t.job, jobs[t.job].(phase := ResultRecorded, durableResult := Some(result)));
      }
      Log(RecordResult(t, attempt, seen, result, now), before);
    }

    /** The completion that is stored: a cancellation that came first wins over all but a failure. */
    method Settle(row: Job, requested: Status) returns (outcome: Status)
      ensures outcome == EffectiveOutcome(row.cancelRequested || RunIsCancelled(Content(), row.run), requested)
    {
      var cancelled := row.cancelRequested || (row.run in runs && runs[row.run].status == RunCancelled);
      outcome := requested;
      if cancelled && requested in {Succeeded, NeedsReview, Blocked, RetryWait} {
        outcome := Cancelled;
      }
    }

    method CloseStage(id: string, attempt: nat, outcome: Status, outputs: seq<string>, result: string, retries: nat,
                      available: int)
      requires id in jobs && id in attempts && attempt < |attempts[id]|
      modifies this`jobs, this`attempts
      ensures Content() == Closed(old(Content()), id, attempt, outcome, outputs, result, retries, available)
    {
      var closed := jobs[id].(status := outcome, owner := None, expires := None, available := available,
                              retries := retries, results := if outcome == Cancelled then [] else outputs);
      SaveAttempt(id, attempt, Attempt(Finalized, outcome, 0));
      if outcome == RetryWait {
        closed := closed.(attempt := None, phase := AttemptCreated, durableResult := None);
      } else {
        closed := closed.(phase := Finalized, durableResult := Some(result));
      }
      Save(id, closed);
    }

    method FinalizeStageJob(t: Token, attempt: nat, seen: nat, requested: Status, outputs: seq<string>,
                            result: string, retries: nat, available: int, now: int) returns (ok: bool)
      requires Valid()
      modifies this
      ensures Valid()
      ensures var op := FinalizeStage(t, attempt, seen, requested, outputs, result, retries, available, now);
              history == old(history) + [op] && ok == Accepts(old(Content()), op)
    {
      ghost var before := Content();
      ok := Fenced(t, now) && Unmoved(t.job, attempt, seen);
      if ok {
        var outcome := Settle(jobs[t.job], requested);
        CloseStage(t.job, attempt, outcome, outputs, result, retries, available);
      }
      Log(FinalizeStage(t, attempt, seen, requested, outputs, result, retries, available, now), before);
    }

    method FinalizeCommandJob(t: Token, outcome: Status, now: int) returns (ok: bool)
      requires Valid()
      modifies this
      ensures Valid() && history == old(history) + [FinalizeCommand(t, outcome, now)]
      ensures ok == Accepts(old(Content()), FinalizeCommand(t, outcome, now))
    {
      ghost var before := Content();
      ok := Fenced(t, now);
      if ok { Save(t.job, jobs[t.job].(status := outcome, owner := None, expires := None, phase := Finalized)); }
      Log(FinalizeCommand(t, outcome, now), before);
    }

    // -------------------------------------------------------------- runs and control

    method CreateRun(run: string, status: RunStatus, now: int) returns (added: bool)
      requires Valid()
      modifies this
      ensures Valid() && history == old(history) + [Op.CreateRun(run, status, now)]
      ensures added == Accepts(old(Content()), Op.CreateRun(run, status, now))
    {
      ghost var before := Content();
      added := run !in runs;
      if added { runs := runs[run := RunRow(status, 0)]; }
      Log(Op.CreateRun(run, status, now), before);
    }

    /** update_run, as far as the queue reads it.  At whatever moment the caller read the row it based
        the update on, an accepted update replaces that very row. */
    method UpdateRun(run: string, status: RunStatus, seen: nat, now: int) returns (ok: bool)
      requires Valid()
      modifies this
      ensures Valid() && history == old(history) + [Op.UpdateRun(run, status, seen, now)]
      ensures ok == Accepts(old(Content()), Op.UpdateRun(run, status, seen, now))
      ensures ok ==> forall n: nat | n <= |old(history)| && HadRevision(old(history), n, run, seen) ::
                       Run(EMPTY, old(history)[..n]).runs[run] == old(runs)[run]
    {
      ghost var before := Content();
      ok := run in runs && runs[run].revision == seen;
      if ok {
        forall n: nat | n <= |history| && HadRevision(history, n, run, seen)
          ensures Run(EMPTY, history[..n]).runs[run] == runs[run]
        {
          SameRowSince(history, n, run);
        }
        runs := runs[run := RunRow(status, seen + 1)];
      }
      Log(Op.UpdateRun(run, status, seen, now), before);
    }

    /** The UPDATE for one row: its WHERE clause and its CASE expressions. */
    method CancelRow(row: Job, run: string) returns (updated: Job)
      ensures updated == CancelJob(row, run)
    {
      updated := row;
      if row.run == run && row.status !in {Succeeded, Failed, Cancelled} {
        if row.status in {Queued, RetryWait, NeedsReview, Blocked} {
          updated := updated.(status := Cancelled, owner := None, expires := None);
        }
        updated := updated.(cancelRequested := true, revision := row.revision + 1);
      }
    }

    /** The UPDATE over the job rows of a cancelled run, as a scan. */
    method MarkCancelled(run: string)
      modifies this`jobs
      ensures jobs == map id | id in old(jobs) :: CancelJob(old(jobs)[id], run)
    {
      var left := jobs.Keys;
      while left != {}
        invariant jobs.Keys == old(jobs).Keys && left <= jobs.Keys
        invariant PartlyCancelled(old(jobs), jobs, left, run)
      {
        var id :| id in left;
        CancelStep(old(jobs), jobs, left, run, id);
        var row := CancelRow(jobs[id], run);
        jobs := jobs[id := row];
        left := left - {id};
      }
    }

    method RequestRunCancellation(run: string, now: int) returns (ok: bool)
      requires Valid()
      modifies this
      ensures Valid() && history == old(history) + [CancelRun(run, now)]
      ensures ok == Accepts(old(Content()), CancelRun(run, now))
      ensures jobs.Keys == old(jobs).Keys && attempts == old(attempts) && runs.Keys == old(runs).Keys
      ensures forall id | id in jobs && old(jobs)[id].run != run :: jobs[id] == old(jobs)[id]
      ensures forall other | other in runs && other != run :: runs[other] == old(runs)[other]
      ensures ok ==> forall id | id in old(jobs) && old(jobs)[id].run == run && old(jobs)[id].kind == Stage
                                 && old(jobs)[id].status != Succeeded :: Doomed(Content(), id)
    {
      ghost var before := Content();
      ok := run in runs;
      if ok {
        if runs[run].status == RunOpen { runs := runs[run := RunRow(RunCancelled, runs[run].revision + 1)]; }
        MarkCancelled(run);
      }
      Log(CancelRun(run, now), before);
      assert Content() == Step(before, CancelRun(run, now)) by { RunSnoc(old(history), CancelRun(run, now)); }
      if ok {
        forall id | id in before.jobs && before.jobs[id].run == run && before.jobs[id].kind == Stage
                    && before.jobs[id].status != Succeeded ensures Doomed(Content(), id)
        {
          CancellationDooms(before, CancelRun(run, now), id);
        }
      }
    }

    method ResumeJob(id: string, now: int) returns (ok: bool)
      requires Valid()
      modifies this
      ensures Valid() && history == old(history) + [Resume(id, now)]
      ensures ok == Accepts(old(Content()), Resume(id, now))
    {
      ghost var before := Content();
      ok := id in jobs && jobs[id].status in {NeedsReview, Blocked, Failed};
      if ok {
        Save(id, jobs[id].(status := Queued, attempt := None, available := now, owner := None, expires := None,
                           cancelRequested := false, phase := AttemptCreated, durableResult := None));
      }
      Log(Resume(id, now), before);
    }

    /** The row of this stage in this run, if there is one: the lookup before a stage job is inserted. */
    method HasStage(run: string, stage: string) returns (taken: bool)
      ensures taken == StageTaken(Content(), run, stage)
    {
      var left := jobs.Keys;
      while left != {}
        invariant left <= jobs.Keys
        invariant forall id | id in jobs && id !in left :: !IsStageJob(jobs[id], run, stage)
      {
        var id :| id in left;
        if IsStageJob(jobs[id], run, stage) { return true; }
        left := left - {id};
      }
      return false;
    }

    /** A job is added if and only if its run exists, its id was never enqueued before, and neither was
        a job for its stage of the run. */
    method EnqueueJob(id: string, kind: Kind, stage: string, run: string, replaySafe: bool, scope: Option<string>,
                      now: int) returns (added: bool)
      requires Valid()
      modifies this
      ensures Valid() && history == old(history) + [Enqueue(id, kind, stage, run, replaySafe, scope, now)]
      ensures added <==> run in old(runs) && !Enqueued(old(history), id)
                         && (kind == Stage ==> !StageEnqueued(old(history), run, stage))
    {
      ghost var before := Content();
      JobsWereEnqueued(history, id);
      StagesWereEnqueued(history, run, stage);
      var taken := HasStage(run, stage);
      added := id !in jobs && run in runs && (kind == Command || !taken);
      if added {
        var phase := if kind == Stage then AttemptCreated else NotStarted;
        jobs := jobs[id := Job(run, kind, stage, Queued, 0, now, now, None, 0, None, 0, 0, false, None, phase,
                               replaySafe, scope, [], None, 0)];
      }
      Log(Enqueue(id, kind, stage, run, replaySafe, scope, now), before);
    }
  }

  // ---------------------------------------------------------------- what holds of the object

  /** Whatever calls were made under this cap with whatever clocks: unless a heartbeat resurrected a dead
      lease in a full group, the live leases of the group are within the cap, at the latest claim time
      and ever after. */
  lemma StoreRespectsCaps(s: Store, g: Group, cap: nat, start: int, now: int)
    requires s.Valid() && Capped(s.history, g, cap) && Latest(s.history, start) <= now
    requires forall i: nat | i < |s.history| :: !OverrunsAt(EMPTY, s.history, g, cap, start, i)
    ensures |Active(s.Content(), g, now)| <= cap
  {
    assert Active(EMPTY, g, start) == {};
    CapUntilOverrun(EMPTY, s.history, g, cap, start, |s.history|);
    assert s.history[..|s.history|] == s.history;
    ActiveShrinks(s.Content(), g, Latest(s.history, start), now);
  }

  /** However workers interleave, a store they use with their checks has rows that agree. */
  lemma StoreIsConsistent(s: Store)
    requires s.Valid() && WorkerRun(EMPTY, s.history)
    ensures Consistent(s.Content())
  {
    WorkerRunIsDisciplined(EMPTY, s.history);
    ConsistentRun(EMPTY, s.history);
  }

  /** A token that did not hold at some time is refused by the object at that time and later, whatever
      clocks the calls carried, as long as the token's own heartbeats were punctual. */
  lemma StoreRefusesStaleToken(s: Store, n: nat, op: Op, start: int)
    requires s.Valid() && n <= |s.history| && Fence(op).Some?
    requires Issued(Run(EMPTY, s.history[..n]), Fence(op).value)
    requires !Holds(Run(EMPTY, s.history[..n]), Fence(op).value, start) && start <= Time(op)
    requires forall i | n <= i < |s.history| :: Punctual(s.history[i], Fence(op).value, start)
    ensures !Accepts(s.Content(), op)
  {
    assert s.history == s.history[..n] + s.history[n..];
    RunConcat(EMPTY, s.history[..n], s.history[n..]);
    ExpiredWorkerIsInert(Run(EMPTY, s.history[..n]), s.history[n..], op, start);
  }

  /** A stage job doomed by a cancellation is never seen succeeded. */
  lemma StoreKeepsCancellation(s: Store, n: nat, id: string)
    requires s.Valid() && n <= |s.history| && Doomed(Run(EMPTY, s.history[..n]), id)
    requires DisciplinedRun(Run(EMPTY, s.history[..n]), s.history[n..])
    requires GuardedRun(Run(EMPTY, s.history[..n]), s.history[n..])
    ensures id in s.jobs && s.jobs[id].status != Succeeded
  {
    assert s.history == s.history[..n] + s.history[n..];
    RunConcat(EMPTY, s.history[..n], s.history[n..]);
    DoomedForever(Run(EMPTY, s.history[..n]), s.history[n..], id);
  }
}
