/** Admission control of the job queue over whole runs: how many live leases a run or a source can
    have, when every operation of every worker may carry any time. */
module Admission {
  import opened Common
  import opened JobLeases

  /** What a cap is about: the jobs of a run, or those on a source. */
  datatype Group = InRun(run: string) | OnSource(scope: string)

  predicate Belongs(j: Job, g: Group) {
    match g
    case InRun(run) => j.run == run
    case OnSource(scope) => j.scope == Some(scope)
  }

  function Active(db: Db, g: Group, now: int): set<string> {
    match g
    case InRun(run) => ActiveInRun(db, run, now)
    case OnSource(scope) => ActiveOnSource(db, scope, now)
  }

  /** The cap a claim is made under. */
  function CapOf(op: Op, g: Group): int
    requires op.Claim?
  {
    if g.InRun? then op.perRun else op.perSource
  }

  lemma ActiveMembers(db: Db, g: Group, now: int, id: string)
    ensures id in Active(db, g, now) <==> id in db.jobs && Belongs(db.jobs[id], g) && Live(db.jobs[id], now)
  {}

  lemma ActiveShrinks(db: Db, g: Group, t: int, u: int)
    requires t <= u
    ensures Active(db, g, u) <= Active(db, g, t) && |Active(db, g, u)| <= |Active(db, g, t)|
  {
    SubsetSize(Active(db, g, u), Active(db, g, t));
  }

  // ---------------------------------------------------------------- one operation

  /** An accepted heartbeat that is sent with an old clock and makes a lease live that is dead at `now`. */
  predicate Resurrects(db: Db, op: Op, now: int) {
    op.Heartbeat? && Accepts(db, op) && !Live(db.jobs[op.token.job], now) && op.now + op.lease > now
  }

  /** The job that an operation brings to life at `now`, besides those alive already. */
  predicate BringsToLife(db: Db, op: Op, now: int, id: string) {
    || (op.Claim? && op.id == id && Accepts(db, op))
    || (op.Heartbeat? && op.token.job == id && Resurrects(db, op, now))
  }

  /** At whatever time one looks, only a granted claim or a resurrecting heartbeat makes a job live. */
  lemma NewlyLive(db: Db, op: Op, now: int, id: string)
    requires id in Step(db, op).jobs && Live(Step(db, op).jobs[id], now)
    ensures id in db.jobs && Preserved(db.jobs[id], Step(db, op).jobs[id])
    ensures Live(db.jobs[id], now) || BringsToLife(db, op, now, id)
  {
    if id in db.jobs { StepOnJob(db, op, id); }
  }

  lemma NothingNew(db: Db, op: Op, g: Group, now: int)
    requires forall id | id in db.jobs && BringsToLife(db, op, now, id) :: !Belongs(db.jobs[id], g)
    ensures Active(Step(db, op), g, now) <= Active(db, g, now)
  {
    forall id | id in Active(Step(db, op), g, now) ensures id in Active(db, g, now) {
      ActiveMembers(Step(db, op), g, now, id);
      ActiveMembers(db, g, now, id);
      NewlyLive(db, op, now, id);
    }
  }

  lemma ClaimAddsOne(db: Db, op: Op, g: Group, now: int)
    requires op.Claim? && Accepts(db, op)
    ensures Active(Step(db, op), g, now) <= Active(db, g, now) + {op.id}
  {
    forall id | id in Active(Step(db, op), g, now) ensures id in Active(db, g, now) + {op.id} {
      ActiveMembers(Step(db, op), g, now, id);
      ActiveMembers(db, g, now, id);
      NewlyLive(db, op, now, id);
    }
  }

  lemma ClaimHadRoom(db: Db, op: Op, g: Group)
    requires op.Claim? && Accepts(db, op) && Belongs(db.jobs[op.id], g)
    ensures |Active(db, g, op.now)| < CapOf(op, g)
  {}

  /** A claim keeps the cap at the latest claim time, whether it is itself the latest or carries an
      older clock: an older clock sees more live leases. */
  lemma ClaimKeepsCap(db: Db, op: Op, g: Group, cap: int, latest: int)
    requires op.Claim? && CapOf(op, g) <= cap && |Active(db, g, latest)| <= cap
    ensures |Active(Step(db, op), g, Later(latest, op))| <= cap
  {
    var now := Later(latest, op);
    ActiveShrinks(db, g, latest, now);
    if Accepts(db, op) && Belongs(db.jobs[op.id], g) {
      ClaimHadRoom(db, op, g);
      ActiveShrinks(db, g, op.now, now);
      ClaimAddsOne(db, op, g, now);
      SubsetSize(Active(Step(db, op), g, now), Active(db, g, now) + {op.id});
    } else {
      NothingNew(db, op, g, now);
      SubsetSize(Active(Step(db, op), g, now), Active(db, g, now));
    }
  }

  /** A resurrection in a group that is full. */
  predicate Overruns(db: Db, op: Op, g: Group, cap: int, now: int) {
    Resurrects(db, op, now) && Belongs(db.jobs[op.token.job], g) && |Active(db, g, now)| >= cap
  }

  lemma ResurrectionAddsOne(db: Db, op: Op, g: Group, now: int)
    requires Resurrects(db, op, now) && Belongs(db.jobs[op.token.job], g)
    ensures |Active(Step(db, op), g, now)| == |Active(db, g, now)| + 1
  {
    var id, more := op.token.job, Active(Step(db, op), g, now);
    forall other ensures other in more <==> other in Active(db, g, now) + {id} {
      ActiveMembers(Step(db, op), g, now, other);
      ActiveMembers(db, g, now, other);
    }
    assert more == Active(db, g, now) + {id};
    ActiveMembers(db, g, now, id);
  }

  lemma OtherKeepsCap(db: Db, op: Op, g: Group, cap: int, now: int)
    requires !op.Claim? && |Active(db, g, now)| <= cap
    ensures |Active(Step(db, op), g, now)| <= cap <==> !Overruns(db, op, g, cap, now)
  {
    if Resurrects(db, op, now) && Belongs(db.jobs[op.token.job], g) {
      ResurrectionAddsOne(db, op, g, now);
    } else {
      NothingNew(db, op, g, now);
      SubsetSize(Active(Step(db, op), g, now), Active(db, g, now));
    }
  }

  // ---------------------------------------------------------------- whole runs

  /** The later of `latest` and the time of the operation, if it is a claim. */
  function Later(latest: int, op: Op): int { if op.Claim? && op.now > latest then op.now else latest }

  /** The latest claim time so far. */
  function Latest(ops: seq<Op>, start: int): int {
    if ops == [] then start else Later(Latest(ops[..|ops| - 1], start), ops[|ops| - 1])
  }

  ghost predicate Capped(ops: seq<Op>, g: Group, cap: int) {
    forall i | 0 <= i < |ops| && ops[i].Claim? :: CapOf(ops[i], g) <= cap
  }

  /** After `n` operations the group is within the cap at the latest claim time. */
  ghost predicate WithinCap(db: Db, ops: seq<Op>, g: Group, cap: int, start: int, n: nat)
    requires n <= |ops|
  {
    |Active(Run(db, ops[..n]), g, Latest(ops[..n], start))| <= cap
  }

  ghost predicate OverrunsAt(db: Db, ops: seq<Op>, g: Group, cap: int, start: int, i: nat)
    requires i < |ops|
  {
    Overruns(Run(db, ops[..i]), ops[i], g, cap, Latest(ops[..i], start))
  }

  lemma LatestStep(ops: seq<Op>, start: int, i: nat)
    requires i < |ops|
    ensures Latest(ops[..i + 1], start) == Later(Latest(ops[..i], start), ops[i])
  {
    assert ops[..i + 1][..i] == ops[..i];
  }

  lemma CapStep(db: Db, ops: seq<Op>, g: Group, cap: int, start: int, i: nat)
    requires i < |ops| && Capped(ops, g, cap) && WithinCap(db, ops, g, cap, start, i)
    ensures WithinCap(db, ops, g, cap, start, i + 1) <==> !OverrunsAt(db, ops, g, cap, start, i)
  {
    RunStep(db, ops, i);
    LatestStep(ops, start, i);
    if ops[i].Claim? {
      ClaimKeepsCap(Run(db, ops[..i]), ops[i], g, cap, Latest(ops[..i], start));
    } else {
      OtherKeepsCap(Run(db, ops[..i]), ops[i], g, cap, Latest(ops[..i], start));
    }
  }

  lemma {:induction false} CapUntilOverrun(db: Db, ops: seq<Op>, g: Group, cap: int, start: int, n: nat)
    requires n <= |ops| && Capped(ops, g, cap) && |Active(db, g, start)| <= cap
    requires forall i: nat | i < n :: !OverrunsAt(db, ops, g, cap, start, i)
    ensures WithinCap(db, ops, g, cap, start, n)
  {
    if n > 0 {
      CapUntilOverrun(db, ops, g, cap, start, n - 1);
      CapStep(db, ops, g, cap, start, n - 1);
    }
  }

  /** However many workers race and whatever clocks they send: at every moment the leases live at the
      latest claim time are within the cap the claims were made under, if and only if no accepted
      heartbeat resurrects, in a full group, a lease that was dead at that time. */
  lemma AdmissionExactly(db: Db, ops: seq<Op>, g: Group, cap: int, start: int)
    requires Capped(ops, g, cap) && |Active(db, g, start)| <= cap
    ensures (forall n: nat | n <= |ops| :: WithinCap(db, ops, g, cap, start, n))
       <==> (forall i: nat | i < |ops| :: !OverrunsAt(db, ops, g, cap, start, i))
  {
    if forall i: nat | i < |ops| :: !OverrunsAt(db, ops, g, cap, start, i) {
      forall n: nat | n <= |ops| ensures WithinCap(db, ops, g, cap, start, n) {
        CapUntilOverrun(db, ops, g, cap, start, n);
      }
    }
    if forall n: nat | n <= |ops| :: WithinCap(db, ops, g, cap, start, n) {
      forall i: nat | i < |ops| ensures !OverrunsAt(db, ops, g, cap, start, i) {
        assert WithinCap(db, ops, g, cap, start, i) && WithinCap(db, ops, g, cap, start, i + 1);
        CapStep(db, ops, g, cap, start, i);
      }
    }
  }

  // ---------------------------------------------------------------- punctual heartbeats

  /** Heartbeat `i` carries a clock no older than any claim before it; other operations carry any time. */
  ghost predicate PunctualAt(ops: seq<Op>, start: int, i: nat)
    requires i < |ops|
  {
    ops[i].Heartbeat? ==> Latest(ops[..i], start) <= ops[i].now
  }

  /** An accepted heartbeat whose clock has reached `now` finds its lease live then. */
  lemma PunctualNeverResurrects(db: Db, op: Op, now: int)
    requires op.Heartbeat? && now <= op.now
    ensures !Resurrects(db, op, now)
  {}

  /** If heartbeats never lag behind the claims, the caps hold at the latest claim time and ever after. */
  lemma AdmissionBound(db: Db, ops: seq<Op>, g: Group, cap: int, start: int, now: int)
    requires Capped(ops, g, cap) && |Active(db, g, start)| <= cap && Latest(ops, start) <= now
    requires forall i: nat | i < |ops| :: PunctualAt(ops, start, i)
    ensures |Active(Run(db, ops), g, now)| <= cap
  {
    forall i: nat | i < |ops| ensures !OverrunsAt(db, ops, g, cap, start, i) {
      assert PunctualAt(ops, start, i);
      if ops[i].Heartbeat? { PunctualNeverResurrects(Run(db, ops[..i]), ops[i], Latest(ops[..i], start)); }
    }
    CapUntilOverrun(db, ops, g, cap, start, |ops|);
    assert ops[..|ops|] == ops;
    ActiveShrinks(Run(db, ops), g, Latest(ops, start), now);
  }

  // ---------------------------------------------------------------- an overrun

  function CommandJob(owner: Option<string>, expires: Option<int>): Job {
    Job("r", Command, "", if owner == None then Queued else Running, 0, 0, 0, owner, if owner == None then 0 else 1,
        expires, if owner == None then 0 else 1, 0, false, None, NotStarted, false, None, [], None, 0)
  }

  /** One command leased until 30, another one waiting. */
  const RACE := Db(map["a" := CommandJob(Some("v"), Some(30)), "b" := CommandJob(None, None)], map[],
                   map["r" := RunRow(RunOpen, 0)])

  const TAKE := Claim("b", "w", 30, 1, 1, 31)

  const LAG := Heartbeat(Token("a", "v", 1), 30, 29)

  lemma TakeIsGranted()
    ensures Accepts(RACE, TAKE)
    ensures Step(RACE, TAKE).jobs["a"] == RACE.jobs["a"]
    ensures Live(Step(RACE, TAKE).jobs["b"], 31) && Step(RACE, TAKE).jobs["b"].run == "r"
  {
    assert ActiveInRun(RACE, "r", 31) == {};
  }

  /** Without punctual heartbeats the cap of one does not hold: the first lease runs out at 30, the
      second job is claimed at 31, and then a heartbeat that read its clock at 29 is accepted.  Both
      jobs of the run are live at 31. */
  lemma LateHeartbeatOverrunsCap()
    ensures var after := Step(Step(RACE, TAKE), LAG);
            && Accepts(RACE, TAKE) && Accepts(Step(RACE, TAKE), LAG)
            && |ActiveInRun(RACE, "r", 31)| == 0 && ActiveInRun(after, "r", 31) == {"a", "b"}
            && |ActiveInRun(after, "r", 31)| == 2
            && Overruns(Step(RACE, TAKE), LAG, InRun("r"), 1, 31)
  {
    TakeIsGranted();
    var taken := Step(RACE, TAKE);
    assert ActiveInRun(RACE, "r", 31) == {};
    assert ActiveInRun(taken, "r", 31) == {"b"};
    var after := Step(taken, LAG);
    assert ActiveInRun(after, "r", 31) == {"a", "b"};
  }

  /** The same heartbeat by itself: a token that fails the fence at 31 passes it again afterwards. */
  lemma LateHeartbeatRevivesToken()
    ensures var t, finish := Token("a", "v", 1), FinalizeCommand(Token("a", "v", 1), Succeeded, 31);
            && Issued(RACE, t) && !Holds(RACE, t, 31) && !Accepts(RACE, finish)
            && Revives(RACE, LAG, t, 31) && !Punctual(LAG, t, 31) && Accepts(Step(RACE, LAG), finish)
  {}
}
