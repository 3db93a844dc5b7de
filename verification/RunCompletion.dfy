/** When stages are scheduled and runs are completed (src/dirty_data_to_olap/application/jobs.py,
    `_schedule_ready` and `_maybe_complete_run`).  Both look at the stages' jobs in one transaction
    and act in a later one; a success never goes away, so what they saw is still true. */
module RunCompletion {
  import opened Common
  import opened JobLeases
  import opened ControlStore

  // ---------------------------------------------------------------- succeeded stages

  /** The stage's job in the run has succeeded. */
  ghost predicate StageSucceeded(db: Db, run: string, stage: string) {
    exists id | id in db.jobs :: IsStageJob(db.jobs[id], run, stage) && db.jobs[id].status == Succeeded
  }

  ghost predicate AllSucceeded(db: Db, run: string, stages: set<string>) {
    forall stage | stage in stages :: StageSucceeded(db, run, stage)
  }

  lemma SuccessLasts(db: Db, ops: seq<Op>, run: string, stages: set<string>)
    requires AllSucceeded(db, run, stages)
    ensures AllSucceeded(Run(db, ops), run, stages)
  {
    forall stage | stage in stages ensures StageSucceeded(Run(db, ops), run, stage) {
      assert StageSucceeded(db, run, stage);
      var id :| id in db.jobs && IsStageJob(db.jobs[id], run, stage) && db.jobs[id].status == Succeeded;
      RunKeepsJob(db, ops, id);
    }
  }

  ghost predicate SucceededBy(ops: seq<Op>, k: nat, run: string, stages: set<string>)
    requires k <= |ops|
  {
    AllSucceeded(Run(EMPTY, ops[..k]), run, stages)
  }

  lemma SucceededLater(ops: seq<Op>, k: nat, n: nat, run: string, stages: set<string>)
    requires k <= n <= |ops| && SucceededBy(ops, k, run, stages)
    ensures SucceededBy(ops, n, run, stages)
  {
    assert ops[..n] == ops[..k] + ops[k..n];
    RunConcat(EMPTY, ops[..k], ops[k..n]);
    SuccessLasts(Run(EMPTY, ops[..k]), ops[k..n], run, stages);
  }

  // ---------------------------------------------------------------- the workers' checks

  /** The operation marks a run as succeeded that was not. */
  ghost predicate Completes(db: Db, op: Op, run: string) {
    && op.UpdateRun? && op.run == run && op.status == RunSucceeded && Accepts(db, op)
    && db.runs[run].status != RunSucceeded
  }

  ghost predicate CompletesAt(ops: seq<Op>, i: nat, run: string)
    requires i < |ops|
  {
    Completes(Run(EMPTY, ops[..i]), ops[i], run)
  }

  ghost predicate SeenSucceeded(ops: seq<Op>, i: nat, run: string, stages: set<string>)
    requires i < |ops|
  {
    exists k: nat | k <= i :: SucceededBy(ops, k, run, stages)
  }

  /** Operation `i`, issued by a worker whose plan asks for `needs`, rests on its check: a stage job is
      enqueued after the stages it depends on were seen succeeded, a run is completed after all its
      required stages were; both at some earlier moment.  No run is created as succeeded. */
  ghost predicate RestsOnCheck(ops: seq<Op>, i: nat, needs: set<string>)
    requires i < |ops|
  {
    && (ops[i].Enqueue? && ops[i].kind == Stage ==> SeenSucceeded(ops, i, ops[i].run, needs))
    && (ops[i].UpdateRun? && CompletesAt(ops, i, ops[i].run) ==> SeenSucceeded(ops, i, ops[i].run, needs))
    && (ops[i].CreateRun? ==> ops[i].status != RunSucceeded)
  }

  /** `needs[i]` comes from the plan in force when operation `i` was issued: plans may be replaced. */
  ghost predicate PlannedRun(ops: seq<Op>, needs: seq<set<string>>) {
    |needs| == |ops| && forall i: nat | i < |ops| :: RestsOnCheck(ops, i, needs[i])
  }

  lemma SeenIsLasting(ops: seq<Op>, i: nat, run: string, stages: set<string>, n: nat)
    requires i <= n <= |ops| && i < |ops| && SeenSucceeded(ops, i, run, stages)
    ensures SucceededBy(ops, n, run, stages)
  {
    var k: nat :| k <= i && SucceededBy(ops, k, run, stages);
    SucceededLater(ops, k, n, run, stages);
  }

  // ---------------------------------------------------------------- dependencies

  lemma {:induction false} WhenEnqueued(ops: seq<Op>, id: string) returns (i: nat)
    requires id in Run(EMPTY, ops).jobs
    ensures i < |ops| && EnqueuesAt(ops, i, id)
    ensures var op, job := ops[i], Run(EMPTY, ops).jobs[id];
            op.kind == job.kind && op.run == job.run && op.stage == job.stage
  {
    JobsWereEnqueued(ops, id);
    i :| i < |ops| && EnqueuesAt(ops, i, id);
    RunStep(EMPTY, ops, i);
    assert ops == ops[..i + 1] + ops[i + 1..];
    RunConcat(EMPTY, ops[..i + 1], ops[i + 1..]);
    RunKeepsJob(Run(EMPTY, ops[..i + 1]), ops[i + 1..], id);
  }

  /** Every stage job in the store was enqueued when everything its plan made it depend on had succeeded,
      and all of that is still succeeded: a stage starts only after its dependencies. */
  lemma DependenciesComeFirst(ops: seq<Op>, needs: seq<set<string>>, id: string)
    requires PlannedRun(ops, needs) && id in Run(EMPTY, ops).jobs && Run(EMPTY, ops).jobs[id].kind == Stage
    ensures exists i: nat :: i < |ops| && EnqueuesAt(ops, i, id)
                             && AllSucceeded(Run(EMPTY, ops), Run(EMPTY, ops).jobs[id].run, needs[i])
  {
    var i := WhenEnqueued(ops, id);
    assert RestsOnCheck(ops, i, needs[i]);
    SeenIsLasting(ops, i, ops[i].run, needs[i], |ops|);
    assert ops[..|ops|] == ops;
  }

  /** All plans of the run give a stage the same dependencies. */
  ghost predicate PlanKept(ops: seq<Op>, needs: seq<set<string>>, run: string, deps: map<string, set<string>>) {
    |needs| == |ops| &&
    forall i: nat | i < |ops| && ops[i].Enqueue? && ops[i].kind == Stage && ops[i].run == run ::
      ops[i].stage in deps && needs[i] == deps[ops[i].stage]
  }

  lemma StageDependencies(ops: seq<Op>, needs: seq<set<string>>, run: string, deps: map<string, set<string>>,
                          stage: string)
    requires PlannedRun(ops, needs) && PlanKept(ops, needs, run, deps) && StageTaken(Run(EMPTY, ops), run, stage)
    ensures stage in deps && AllSucceeded(Run(EMPTY, ops), run, deps[stage])
  {
    var id :| id in Run(EMPTY, ops).jobs && IsStageJob(Run(EMPTY, ops).jobs[id], run, stage);
    var i := WhenEnqueued(ops, id);
    assert RestsOnCheck(ops, i, needs[i]);
    SeenIsLasting(ops, i, run, needs[i], |ops|);
    assert ops[..|ops|] == ops;
  }

  ghost predicate DependsOn(deps: map<string, set<string>>, chain: seq<string>, j: nat)
    requires j + 1 < |chain|
  {
    chain[j] in deps && chain[j + 1] in deps[chain[j]]
  }

  /** Along any chain of dependencies that starts at a stage with a job, every later stage has succeeded. */
  lemma {:induction false} ChainSucceeded(ops: seq<Op>, needs: seq<set<string>>, run: string,
                                          deps: map<string, set<string>>, chain: seq<string>, j: nat)
    requires PlannedRun(ops, needs) && PlanKept(ops, needs, run, deps)
    requires 0 < j < |chain| && StageTaken(Run(EMPTY, ops), run, chain[0])
    requires forall n: nat | n + 1 < |chain| :: DependsOn(deps, chain, n)
    ensures StageSucceeded(Run(EMPTY, ops), run, chain[j])
  {
    if j > 1 {
      ChainSucceeded(ops, needs, run, deps, chain, j - 1);
      var id :| id in Run(EMPTY, ops).jobs && IsStageJob(Run(EMPTY, ops).jobs[id], run, chain[j - 1]);
    }
    assert StageTaken(Run(EMPTY, ops), run, chain[j - 1]);
    StageDependencies(ops, needs, run, deps, chain[j - 1]);
    assert DependsOn(deps, chain, j - 1);
  }

  // ---------------------------------------------------------------- completed runs

  ghost predicate RunDone(db: Db, run: string) { run in db.runs && db.runs[run].status == RunSucceeded }

  lemma DoneStep(db: Db, op: Op, run: string)
    requires !RunDone(db, run) && RunDone(Step(db, op), run) && !(op.CreateRun? && op.status == RunSucceeded)
    ensures Completes(db, op, run)
  {}

  lemma {:induction false} WhenCompleted(ops: seq<Op>, run: string) returns (i: nat)
    requires RunDone(Run(EMPTY, ops), run)
    requires forall n: nat | n < |ops| && ops[n].CreateRun? :: ops[n].status != RunSucceeded
    ensures i < |ops| && CompletesAt(ops, i, run)
  {
    var n := |ops| - 1;
    if RunDone(Run(EMPTY, ops[..n]), run) {
      i := WhenCompleted(ops[..n], run);
      assert ops[..n][..i] == ops[..i];
    } else {
      i := n;
      DoneStep(Run(EMPTY, ops[..n]), ops[n], run);
    }
  }

  /** A run that is marked succeeded was completed by an operation whose required stages have all
      succeeded, and will be for good. */
  lemma SucceededRunIsComplete(ops: seq<Op>, needs: seq<set<string>>, run: string, later: seq<Op>)
    requires PlannedRun(ops, needs) && RunDone(Run(EMPTY, ops), run)
    ensures exists i: nat :: i < |ops| && CompletesAt(ops, i, run)
                             && AllSucceeded(Run(EMPTY, ops), run, needs[i])
                             && AllSucceeded(Run(EMPTY, ops + later), run, needs[i])
  {
    forall n: nat | n < |ops| && ops[n].CreateRun? ensures ops[n].status != RunSucceeded {
      assert RestsOnCheck(ops, n, needs[n]);
    }
    var i := WhenCompleted(ops, run);
    assert RestsOnCheck(ops, i, needs[i]);
    SeenIsLasting(ops, i, run, needs[i], |ops|);
    assert ops[..|ops|] == ops;
    RunConcat(EMPTY, ops, later);
    SuccessLasts(Run(EMPTY, ops), later, run, needs[i]);
  }
}
