/** What the operations of the job queue mean in the columns of its tables: which rows one operation can
    touch, which job a claim takes, and what becomes of a job that is claimed, run, cancelled or resumed. */
module JobLaws {
  import opened Common
  import opened Text
  import opened JobLeases

  // ---------------------------------------------------------------- the frame

  /** The operation is about this job: it names it, its token is for it, or it cancels the job's run. */
  predicate Concerns(op: Op, id: string, run: string) {
    || ((op.Enqueue? || op.Claim? || op.Resume?) && op.id == id)
    || (Fence(op).Some? && Fence(op).value.job == id)
    || (op.CancelRun? && op.run == run)
  }

  /** A job row changes, or appears, only by an operation that concerns it. */
  lemma JobFrame(db: Db, op: Op, id: string)
    requires id in Step(db, op).jobs
    ensures id in db.jobs ==> Step(db, op).jobs[id] == db.jobs[id] || Concerns(op, id, db.jobs[id].run)
    ensures id !in db.jobs ==> op.Enqueue? && op.id == id
  {}

  /** The attempts of a job change only by an operation with a token for that job. */
  lemma AttemptFrame(db: Db, op: Op, id: string)
    ensures Attempts(Step(db, op), id) == Attempts(db, id) || (Fence(op).Some? && Fence(op).value.job == id)
  {}

  /** A run row changes, or appears, only by an operation that names the run. */
  lemma RunFrame(db: Db, op: Op, run: string)
    requires run in Step(db, op).runs
    ensures || (run in db.runs && Step(db, op).runs[run] == db.runs[run])
            || ((op.CreateRun? || op.UpdateRun? || op.CancelRun?) && op.run == run)
  {}

  // ---------------------------------------------------------------- who can be claimed

  /** A lease that somebody holds at `now`. */
  predicate Leased(j: Job, now: int) { j.status == Running && j.expires != None && j.expires.value > now }

  function LeasesInRun(db: Db, run: string, now: int): set<string> {
    set id | id in db.jobs && Leased(db.jobs[id], now) && db.jobs[id].run == run
  }

  function LeasesOnSource(db: Db, scope: string, now: int): set<string> {
    set id | id in db.jobs && Leased(db.jobs[id], now) && db.jobs[id].scope == Some(scope)
  }

  /** Waiting, due and not asked to stop. */
  predicate Due(j: Job, now: int) { j.status in {Queued, RetryWait} && j.available <= now && !j.cancelRequested }

  /** Left running by a worker whose lease has ended. */
  predicate Lapsed(j: Job, now: int) { j.status == Running && j.expires != None && j.expires.value <= now }

  /** Its run and its source have room for one more lease. */
  predicate HasRoom(db: Db, j: Job, perRun: int, perSource: int, now: int) {
    && |LeasesInRun(db, j.run, now)| < perRun
    && (j.scope != None ==> |LeasesOnSource(db, j.scope.value, now)| < perSource)
  }

  predicate MayBeClaimed(db: Db, id: string, perRun: int, perSource: int, now: int) {
    && id in db.jobs && (Due(db.jobs[id], now) || Lapsed(db.jobs[id], now))
    && HasRoom(db, db.jobs[id], perRun, perSource, now)
  }

  lemma EligibleExactly(db: Db, id: string, perRun: int, perSource: int, now: int)
    ensures Eligible(db, id, perRun, perSource, now) <==> MayBeClaimed(db, id, perRun, perSource, now)
  {
    if id in db.jobs {
      assert ActiveInRun(db, db.jobs[id].run, now) == LeasesInRun(db, db.jobs[id].run, now);
      if db.jobs[id].scope.Some? {
        assert ActiveOnSource(db, db.jobs[id].scope.value, now) == LeasesOnSource(db, db.jobs[id].scope.value, now);
      }
    }
  }

  /** `a` goes strictly before `b`: higher priority, else available earlier, else created earlier, else
      the smaller id. */
  predicate Ahead(db: Db, a: string, b: string)
    requires a in db.jobs && b in db.jobs
  {
    var x, y := db.jobs[a], db.jobs[b];
    || x.priority > y.priority
    || (x.priority == y.priority && x.available < y.available)
    || (x.priority == y.priority && x.available == y.available && x.created < y.created)
    || (x.priority == y.priority && x.available == y.available && x.created == y.created && a != b && LexLe(a, b))
  }

  lemma BeforeExactly(db: Db, a: string, b: string)
    requires a in db.jobs && b in db.jobs
    ensures Before(db, a, b) <==> !Ahead(db, b, a)
  {
    LexTotal(a, b);
    if LexLe(a, b) && LexLe(b, a) { LexAntisymmetric(a, b); }
  }

  /** The lease of a crashed worker ends: if nobody else holds a lease in its run or on its source, the job
      can be claimed from the end of its lease on, under any caps. */
  lemma CrashedJobIsRecovered(db: Db, id: string, perRun: int, perSource: int, now: int)
    requires id in db.jobs && Lapsed(db.jobs[id], now) && perRun >= 1 && perSource >= 1
    requires LeasesInRun(db, db.jobs[id].run, now) == {}
    requires db.jobs[id].scope != None ==> LeasesOnSource(db, db.jobs[id].scope.value, now) == {}
    ensures forall worker, lease | worker != "" && lease >= 1 ::
              Accepts(db, Claim(id, worker, lease, perRun, perSource, now))
  {
    EligibleExactly(db, id, perRun, perSource, now);
  }

  // ---------------------------------------------------------------- leases

  /** An operation with a token is accepted only while the job is running under that very lease. */
  lemma TokenMustHold(db: Db, op: Op)
    requires Fence(op).Some? && Accepts(db, op)
    ensures var t := Fence(op).value;
            && t.job in db.jobs && db.jobs[t.job].owner == Some(t.worker) && db.jobs[t.job].generation == t.generation
            && Leased(db.jobs[t.job], Time(op))
  {}

  /** A claim or a heartbeat gives the token exactly the times up to the end of the lease asked for, and
      changes nothing else of what the job is. */
  lemma LeaseLasts(db: Db, op: Op, t: Token, later: int)
    requires Accepts(db, op)
    requires || (op.Claim? && t == Token(op.id, op.worker, db.jobs[op.id].generation + 1))
             || (op.Heartbeat? && t == op.token)
    ensures var after, was := Step(db, op), db.jobs[t.job];
            && t.job in after.jobs
            && (Accepts(after, Heartbeat(t, op.lease, later)) <==> later < op.now + op.lease)
            && (Accepts(after, FinalizeCommand(t, Succeeded, later)) <==> later < op.now + op.lease)
            && var j := after.jobs[t.job];
               j == was.(status := Running, owner := Some(t.worker), generation := t.generation,
                         expires := Some(op.now + op.lease), deliveries := j.deliveries, revision := was.revision + 1)
               && j.deliveries == was.deliveries + (if op.Claim? then 1 else 0)
  {}

  // ---------------------------------------------------------------- the life of a stage job

  /** What a finished stage leaves behind. */
  ghost predicate Left(db: Db, after: Db, id: string, outcome: Status, outputs: seq<string>, result: string,
                       retries: nat, available: int)
    requires id in db.jobs
  {
    var was, n := db.jobs[id], |Attempts(db, id)|;
    && id in after.jobs && var j := after.jobs[id];
    && j.status == outcome && j.owner == None && j.expires == None
    && j.generation == was.generation + 1 && j.deliveries == was.deliveries + 1
    && j.retries == retries && j.available == available && j.priority == was.priority && j.created == was.created
    && Preserved(was, j) && j.cancelRequested == was.cancelRequested
    && j.results == (if outcome == Cancelled then [] else outputs)
    && (if outcome == RetryWait then j.attempt == None && j.phase == AttemptCreated && j.durableResult == None
        else j.attempt == Some(n) && j.phase == Finalized && j.durableResult == Some(result))
    && Attempts(after, id) == Attempts(db, id) + [Attempt(Finalized, outcome, 3)]
  }

  /** One piece of work on a job under a lease: the job row becomes `j` up to its revision, its attempts
      become `attempts`, and the runs stay. */
  ghost predicate Worked(db: Db, after: Db, id: string, j: Job, attempts: seq<Attempt>) {
    && id in after.jobs && after.jobs[id] == j.(revision := after.jobs[id].revision)
    && Attempts(after, id) == attempts && after.runs == db.runs
  }

  lemma TakeLease(db: Db, id: string, worker: string, lease: int, perRun: int, perSource: int, start: int)
    requires MayBeClaimed(db, id, perRun, perSource, start)
    requires worker != "" && lease >= 1 && perRun >= 1 && perSource >= 1
    ensures var op, was := Claim(id, worker, lease, perRun, perSource, start), db.jobs[id];
            && Accepts(db, op)
            && Worked(db, Step(db, op), id,
                      was.(status := Running, owner := Some(worker), generation := was.generation + 1,
                           expires := Some(start + lease), deliveries := was.deliveries + 1), Attempts(db, id))
  {
    EligibleExactly(db, id, perRun, perSource, start);
  }

  lemma Begin(db: Db, t: Token, now: int)
    requires Holds(db, t, now) && db.jobs[t.job].kind == Stage && db.jobs[t.job].attempt == None
    ensures var op, a := EnsureAttempt(t, now), Attempts(db, t.job);
            && Accepts(db, op)
            && Worked(db, Step(db, op), t.job, db.jobs[t.job].(attempt := Some(|a|)),
                      a + [Attempt(AttemptCreated, Running, 0)])
  {}

  lemma Deliver(db: Db, t: Token, n: nat, now: int)
    requires Holds(db, t, now) && db.jobs[t.job].kind == Stage && db.jobs[t.job].attempt == Some(n)
    requires n < |Attempts(db, t.job)|
    ensures var op, a := MarkDelivery(t, now), Attempts(db, t.job);
            && Accepts(db, op)
            && Worked(db, Step(db, op), t.job, db.jobs[t.job].(phase := DeliveryStarted),
                      a[n := Attempt(DeliveryStarted, a[n].outcome, a[n].revision + 1)])
  {}

  lemma Record(db: Db, t: Token, n: nat, result: string, now: int)
    requires Holds(db, t, now) && db.jobs[t.job].kind == Stage && db.jobs[t.job].attempt == Some(n)
    requires n < |Attempts(db, t.job)|
    ensures var a := Attempts(db, t.job);
            var op := RecordResult(t, n, a[n].revision, result, now);
            && Accepts(db, op)
            && Worked(db, Step(db, op), t.job,
                      db.jobs[t.job].(phase := ResultRecorded, durableResult := Some(result)),
                      a[n := Attempt(ResultRecorded, a[n].outcome, a[n].revision + 1)])
  {}

  /** The outcome that is stored: a job asked to stop, or one of a cancelled run, can only fail or be
      cancelled. */
  function Stored(stopped: bool, requested: Status): Status {
    if stopped && requested in {Succeeded, NeedsReview, Blocked, RetryWait} then Cancelled else requested
  }

  predicate Stopped(db: Db, j: Job) {
    j.cancelRequested || (j.run in db.runs && db.runs[j.run].status == RunCancelled)
  }

  function Closing(j: Job, n: nat, outcome: Status, outputs: seq<string>, result: string, retries: nat,
                   available: int): Job
  {
    j.(status := outcome, owner := None, expires := None, available := available, retries := retries,
       results := if outcome == Cancelled then [] else outputs,
       attempt := if outcome == RetryWait then None else Some(n),
       phase := if outcome == RetryWait then AttemptCreated else Finalized,
       durableResult := if outcome == RetryWait then None else Some(result))
  }

  lemma Finish(db: Db, t: Token, n: nat, requested: Status, outputs: seq<string>, result: string, retries: nat,
               available: int, now: int)
    requires Holds(db, t, now) && db.jobs[t.job].attempt == Some(n) && n < |Attempts(db, t.job)|
    ensures var a, was := Attempts(db, t.job), db.jobs[t.job];
            var op := FinalizeStage(t, n, a[n].revision, requested, outputs, result, retries, available, now);
            var outcome := Stored(Stopped(db, was), requested);
            && Accepts(db, op)
            && Worked(db, Step(db, op), t.job, Closing(was, n, outcome, outputs, result, retries, available),
                      a[n := Attempt(Finalized, outcome, a[n].revision + 1)])
  {}

  /** Both operations are accepted, one after the other. */
  ghost predicate Both(db: Db, first: Op, second: Op, after: Db) {
    Accepts(db, first) && Accepts(Step(db, first), second) && after == Step(Step(db, first), second)
  }

  lemma Delivered(d1: Db, t: Token, end: int, begun: int, delivered: int) returns (d3: Db)
    requires Current(d1, t) && d1.jobs[t.job].expires == Some(end)
    requires d1.jobs[t.job].kind == Stage && d1.jobs[t.job].attempt == None
    requires begun < end && delivered < end
    ensures Both(d1, EnsureAttempt(t, begun), MarkDelivery(t, delivered), d3)
    ensures var a := Attempts(d1, t.job);
            Worked(d1, d3, t.job, d1.jobs[t.job].(attempt := Some(|a|), phase := DeliveryStarted),
                   a + [Attempt(DeliveryStarted, Running, 1)])
  {
    var n, d2 := |Attempts(d1, t.job)|, Step(d1, EnsureAttempt(t, begun));
    Begin(d1, t, begun);
    Deliver(d2, t, n, delivered);
    d3 := Step(d2, MarkDelivery(t, delivered));
  }

  lemma Finished(d3: Db, t: Token, n: nat, end: int, recorded: int, finished: int, requested: Status,
                 outputs: seq<string>, result: string, retries: nat, available: int) returns (after: Db)
    requires Current(d3, t) && d3.jobs[t.job].expires == Some(end)
    requires d3.jobs[t.job].kind == Stage && d3.jobs[t.job].attempt == Some(n)
    requires n < |Attempts(d3, t.job)| && Attempts(d3, t.job)[n] == Attempt(DeliveryStarted, Running, 1)
    requires recorded < end && finished < end
    ensures Both(d3, RecordResult(t, n, 1, result, recorded),
                 FinalizeStage(t, n, 2, requested, outputs, result, retries, available, finished), after)
    ensures var outcome := Stored(Stopped(d3, d3.jobs[t.job]), requested);
            Worked(d3, after, t.job, Closing(d3.jobs[t.job], n, outcome, outputs, result, retries, available),
                   Attempts(d3, t.job)[n := Attempt(Finalized, outcome, 3)])
  {
    var d4 := Step(d3, RecordResult(t, n, 1, result, recorded));
    Record(d3, t, n, result, recorded);
    Finish(d4, t, n, requested, outputs, result, retries, available, finished);
    after := Step(d4, FinalizeStage(t, n, 2, requested, outputs, result, retries, available, finished));
  }

  lemma WorkLeaves(db: Db, d1: Db, d3: Db, after: Db, id: string, worker: string, end: int, outcome: Status,
                   outputs: seq<string>, result: string, retries: nat, available: int)
    requires id in db.jobs && id in d1.jobs && id in d3.jobs
    requires var was, n := db.jobs[id], |Attempts(db, id)|;
             && Worked(db, d1, id, was.(status := Running, owner := Some(worker), generation := was.generation + 1,
                                        expires := Some(end), deliveries := was.deliveries + 1), Attempts(db, id))
             && Worked(d1, d3, id, d1.jobs[id].(attempt := Some(n), phase := DeliveryStarted),
                       Attempts(db, id) + [Attempt(DeliveryStarted, Running, 1)])
             && Worked(d3, after, id, Closing(d3.jobs[id], n, outcome, outputs, result, retries, available),
                       Attempts(d3, id)[n := Attempt(Finalized, outcome, 3)])
    ensures Left(db, after, id, outcome, outputs, result, retries, available)
  {}

  /** What becomes of a stage job that is due, claimed at `start` and worked on to its end within one lease:
      every operation is accepted, and the outcome, the outputs, the result, the attempt and the released
      lease are on record; only a cancellation of the run turns the outcome, and then no outputs are kept. */
  lemma StageRunsThrough(db: Db, id: string, worker: string, lease: int, perRun: int, perSource: int, start: int,
                         begun: int, delivered: int, recorded: int, finished: int, requested: Status,
                         outputs: seq<string>, result: string, retries: nat, available: int)
    returns (claimed: Db, started: Db, after: Db)
    requires MayBeClaimed(db, id, perRun, perSource, start) && Due(db.jobs[id], start)
    requires db.jobs[id].kind == Stage && db.jobs[id].attempt == None
    requires worker != "" && lease >= 1 && perRun >= 1 && perSource >= 1
    requires begun < start + lease && delivered < start + lease && recorded < start + lease && finished < start + lease
    ensures var claim := Claim(id, worker, lease, perRun, perSource, start);
            Accepts(db, claim) && claimed == Step(db, claim)
    ensures var t, n := Token(id, worker, db.jobs[id].generation + 1), |Attempts(db, id)|;
            && Both(claimed, EnsureAttempt(t, begun), MarkDelivery(t, delivered), started)
            && Both(started, RecordResult(t, n, 1, result, recorded),
                    FinalizeStage(t, n, 2, requested, outputs, result, retries, available, finished), after)
    ensures Left(db, after, id, Stored(Stopped(db, db.jobs[id]), requested), outputs, result, retries, available)
  {
    var t, n, end := Token(id, worker, db.jobs[id].generation + 1), |Attempts(db, id)|, start + lease;
    TakeLease(db, id, worker, lease, perRun, perSource, start);
    claimed := Step(db, Claim(id, worker, lease, perRun, perSource, start));
    started := Delivered(claimed, t, end, begun, delivered);
    after := Finished(started, t, n, end, recorded, finished, requested, outputs, result, retries, available);
    WorkLeaves(db, claimed, started, after, id, worker, end, Stored(Stopped(db, db.jobs[id]), requested), outputs,
               result, retries, available);
  }

  // ---------------------------------------------------------------- other doors

  /** A job that waits for its retry is due again exactly from the time it is available, and starts over. */
  lemma RetryIsDue(db: Db, after: Db, id: string, outputs: seq<string>, result: string, retries: nat, available: int,
                   now: int)
    requires id in db.jobs && Left(db, after, id, RetryWait, outputs, result, retries, available)
    ensures Due(after.jobs[id], now) <==> available <= now && !db.jobs[id].cancelRequested
    ensures after.jobs[id].attempt == None
  {}

  /** A new job is due from the time it was enqueued, exactly as it was asked for. */
  lemma EnqueuedIsDue(db: Db, op: Op, now: int)
    requires op.Enqueue? && Accepts(db, op)
    ensures op.id in Step(db, op).jobs
    ensures var j := Step(db, op).jobs[op.id];
            && (Due(j, now) <==> op.now <= now) && j.attempt == None && j.generation == 0 && j.priority == 0
            && j.created == op.now && j.run == op.run && j.kind == op.kind && j.stage == op.stage
            && j.scope == op.scope && j.replaySafe == op.replaySafe && j.results == [] && j.durableResult == None
  {}

  /** A job can be resumed exactly out of review, blocked or failed; it is then due at once, without an
      attempt, a result or a cancellation request, and otherwise as it was. */
  lemma ResumeStartsOver(db: Db, id: string, now: int)
    ensures Accepts(db, Resume(id, now)) <==> id in db.jobs && db.jobs[id].status in {NeedsReview, Blocked, Failed}
    ensures Accepts(db, Resume(id, now)) ==>
              var was, j := db.jobs[id], Step(db, Resume(id, now)).jobs[id];
              && (forall later :: Due(j, later) <==> now <= later)
              && j == was.(status := Queued, available := now, attempt := None, phase := AttemptCreated,
                           durableResult := None, cancelRequested := false, owner := None, expires := None,
                           revision := was.revision + 1)
  {}

  /** Cancelling a run touches exactly the unfinished jobs of that run: one that waits is cancelled and its
      lease given up, a running one is only asked to stop; an open run is marked cancelled. */
  lemma CancelTouches(db: Db, run: string, now: int, id: string)
    requires run in db.runs && id in db.jobs
    ensures var op := CancelRun(run, now); var was, after := db.jobs[id], Step(db, op);
            && Accepts(db, op) && id in after.jobs && after.attempts == db.attempts
            && after.jobs.Keys == db.jobs.Keys && after.runs.Keys == db.runs.Keys
            && after.jobs[id] ==
                 (if was.run != run || was.status in {Succeeded, Failed, Cancelled} then was
                  else if was.status == Running then was.(cancelRequested := true, revision := was.revision + 1)
                  else was.(status := Cancelled, cancelRequested := true, owner := None, expires := None,
                            revision := was.revision + 1))
            && after.runs[run].status == (if db.runs[run].status == RunOpen then RunCancelled else db.runs[run].status)
  {}

  /** A command is closed with the outcome its holder names, and its lease is given up. */
  lemma CommandCloses(db: Db, op: Op)
    requires op.FinalizeCommand? && Accepts(db, op)
    ensures var was, j := db.jobs[op.token.job], Step(db, op).jobs[op.token.job];
            j == was.(status := op.outcome, owner := None, expires := None, phase := Finalized,
                      revision := was.revision + 1)
  {}

  // ---------------------------------------------------------------- rows seen before they are written

  /** A result or a completion is accepted only for the job's own attempt, whose row still has the revision
      that was seen; stage work only on stage jobs. */
  lemma AttemptMustMatch(db: Db, op: Op)
    requires (op.RecordResult? || op.FinalizeStage?) && Accepts(db, op)
    ensures var id := op.token.job;
            && id in db.jobs && db.jobs[id].attempt == Some(op.attempt) && op.attempt < |Attempts(db, id)|
            && Attempts(db, id)[op.attempt].revision == op.seen && (op.RecordResult? ==> db.jobs[id].kind == Stage)
  {}

  lemma StageWorkOnly(db: Db, op: Op)
    requires (op.EnsureAttempt? || op.MarkDelivery? || op.RecordResult?) && Accepts(db, op)
    ensures op.token.job in db.jobs && db.jobs[op.token.job].kind == Stage
  {}

  /** An attempt row is never dropped, and a changed one has its revision raised by one. */
  lemma AttemptRowStep(db: Db, op: Op, id: string, n: nat)
    requires n < |Attempts(db, id)|
    ensures n < |Attempts(Step(db, op), id)|
    ensures var a, b := Attempts(db, id)[n], Attempts(Step(db, op), id)[n]; b == a || b.revision == a.revision + 1
  {}

  lemma {:induction false} AttemptRowAdvances(db: Db, ops: seq<Op>, id: string, n: nat)
    requires n < |Attempts(db, id)|
    ensures n < |Attempts(Run(db, ops), id)|
    ensures var a, b := Attempts(db, id)[n], Attempts(Run(db, ops), id)[n];
            a.revision <= b.revision && (a.revision == b.revision ==> b == a)
  {
    if ops != [] {
      AttemptRowAdvances(db, ops[..|ops| - 1], id, n);
      AttemptRowStep(Run(db, ops[..|ops| - 1]), ops[|ops| - 1], id, n);
    }
  }

  /** The compare-and-swap on an attempt: what is recorded or completed is the very row the worker read,
      whatever happened in between. */
  lemma AttemptIsCompareAndSwap(db: Db, ops: seq<Op>, op: Op)
    requires (op.RecordResult? || op.FinalizeStage?) && op.attempt < |Attempts(db, op.token.job)|
    requires op.seen == Attempts(db, op.token.job)[op.attempt].revision && Accepts(Run(db, ops), op)
    ensures op.attempt < |Attempts(Run(db, ops), op.token.job)|
    ensures Attempts(Run(db, ops), op.token.job)[op.attempt] == Attempts(db, op.token.job)[op.attempt]
  {
    AttemptRowAdvances(db, ops, op.token.job, op.attempt);
    AttemptMustMatch(Run(db, ops), op);
  }

  /** A run is created once, with the status given; an update gives it the status asked for and a new
      revision. */
  lemma RunsAreWritten(db: Db, op: Op)
    requires op.CreateRun? || op.UpdateRun?
    ensures op.CreateRun? ==> (Accepts(db, op) <==> op.run !in db.runs)
    ensures Accepts(db, op) ==> op.run in Step(db, op).runs && Step(db, op).runs[op.run].status == op.status
    ensures Accepts(db, op) && op.UpdateRun? ==>
              op.run in db.runs && Step(db, op).runs[op.run].revision == db.runs[op.run].revision + 1
  {}
}
