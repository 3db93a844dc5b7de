/** The polling protocol of the load harness (tools/run_step38_load_stress.py, `poll_product_runs`),
    against a server that may answer anything. */
module Polling {
  import opened Common
  import opened Text

  /** What the server answers about one run: no usable summary, or its pending checkpoints and
      status, and the HTTP statuses that accepting the first checkpoint and resuming would get. */
  datatype Reply = NoSummary | Summary(pending: seq<string>, status: string, action: int, resume: int)

  datatype Event = Event(run: string, checkpoint: string, action: int, resume: int, key: string)

  datatype State = State(accepted: map<string, seq<string>>, events: seq<Event>, final: map<string, Reply>)

  datatype Exchange = Exchange(run: string, reply: Reply)

  const TERMINAL := {"SUCCEEDED", "FAILED", "CANCELLED", "BLOCKED"}

  predicate Terminal(r: Reply) { r.Summary? && r.status in TERMINAL }

  function ReviewKey(run: string, n: nat): string { "step38-review-" + run + ['-'] + Decimal(n) }

  function AsSet(runs: seq<string>): set<string> { set r | r in runs }

  function Start(runs: seq<string>): State { State(map r | r in AsSet(runs) :: [], [], map[]) }

  /** Does this exchange post a review? */
  predicate Posts(st: State, targets: set<string>, e: Exchange)
    requires e.run in st.accepted
  {
    && e.run !in st.final && e.reply.Summary? && e.run in targets && e.reply.pending != []
    && e.reply.pending[0] !in st.accepted[e.run]
  }

  predicate Records(st: State, targets: set<string>, e: Exchange)
    requires e.run in st.accepted
  {
    Posts(st, targets, e) && e.reply.action == 200 && e.reply.resume in {200, 202}
  }

  /** One poll of one run. */
  function Handle(st: State, targets: set<string>, e: Exchange): State
    requires e.run in st.accepted
  {
    var seen := st.accepted[e.run];
    var reviewed :=
      if Records(st, targets, e) then
        st.(accepted := st.accepted[e.run := seen + [e.reply.pending[0]]],
            events := st.events + [Event(e.run, e.reply.pending[0], e.reply.action, e.reply.resume,
                                         ReviewKey(e.run, |seen|))])
      else st;
    if e.run !in st.final && Terminal(e.reply) then reviewed.(final := reviewed.final[e.run := e.reply]) else reviewed
  }

  /** Every exchange is about a run that is being polled. */
  ghost predicate Known(st: State, exchanges: seq<Exchange>) { forall e | e in exchanges :: e.run in st.accepted }

  /** The state after a sequence of exchanges. */
  function HandleAll(st: State, targets: set<string>, exchanges: seq<Exchange>): (r: State)
    requires Known(st, exchanges)
    ensures r.accepted.Keys == st.accepted.Keys
  {
    if exchanges == [] then st
    else
      var n := |exchanges| - 1;
      Handle(HandleAll(st, targets, exchanges[..n]), targets, exchanges[n])
  }

  // ---------------------------------------------------------------- what every run keeps

  function Project(events: seq<Event>, run: string): seq<string> {
    if events == [] then []
    else
      var n := |events| - 1;
      Project(events[..n], run) + (if events[n].run == run then [events[n].checkpoint] else [])
  }

  ghost predicate Distinct(s: seq<string>) { forall i, j | 0 <= i < j < |s| :: s[i] != s[j] }

  ghost predicate RunSound(st: State, targets: set<string>, run: string)
    requires run in st.accepted
  {
    && Distinct(st.accepted[run]) && Project(st.events, run) == st.accepted[run]
    && (run !in targets ==> st.accepted[run] == [])
  }

  ghost predicate EventSound(st: State, targets: set<string>, i: nat)
    requires i < |st.events|
  {
    var e := st.events[i];
    && e.run in st.accepted && e.run in targets && e.action == 200 && e.resume in {200, 202}
    && e.key == ReviewKey(e.run, |Project(st.events[..i], e.run)|)
  }

  ghost predicate Sound(st: State, targets: set<string>) {
    && (forall run | run in st.accepted :: RunSound(st, targets, run))
    && (forall i | 0 <= i < |st.events| :: EventSound(st, targets, i))
    && (forall run | run in st.final :: run in st.accepted && Terminal(st.final[run]))
  }

  lemma ProjectSnoc(events: seq<Event>, e: Event, run: string)
    ensures Project(events + [e], run) == Project(events, run) + (if e.run == run then [e.checkpoint] else [])
  {
    assert (events + [e])[..|events|] == events;
  }

  lemma SoundStep(st: State, targets: set<string>, e: Exchange)
    requires Sound(st, targets) && e.run in st.accepted
    ensures Sound(Handle(st, targets, e), targets)
  {
    var next := Handle(st, targets, e);
    if Records(st, targets, e) {
      var seen := st.accepted[e.run];
      var event := Event(e.run, e.reply.pending[0], e.reply.action, e.reply.resume, ReviewKey(e.run, |seen|));
      assert next.events == st.events + [event];
      forall run | run in next.accepted ensures RunSound(next, targets, run) {
        assert RunSound(st, targets, run);
        ProjectSnoc(st.events, event, run);
      }
      forall i | 0 <= i < |next.events| ensures EventSound(next, targets, i) {
        assert RunSound(st, targets, e.run);
        if i < |st.events| {
          assert EventSound(st, targets, i);
          assert next.events[..i] == st.events[..i];
        } else {
          assert next.events[..i] == st.events;
        }
      }
    } else {
      forall run | run in next.accepted ensures RunSound(next, targets, run) { assert RunSound(st, targets, run); }
      forall i | 0 <= i < |next.events| ensures EventSound(next, targets, i) { assert EventSound(st, targets, i); }
    }
  }

  /** Whatever the server answers: checkpoints are accepted at most once per run, the events of a run
      are exactly its accepted list, other runs accept nothing, and final runs are terminal. */
  lemma {:induction false} SoundAlways(st: State, targets: set<string>, exchanges: seq<Exchange>)
    requires Sound(st, targets) && Known(st, exchanges)
    ensures Sound(HandleAll(st, targets, exchanges), targets)
  {
    if exchanges != [] {
      var n := |exchanges| - 1;
      SoundAlways(st, targets, exchanges[..n]);
      SoundStep(HandleAll(st, targets, exchanges[..n]), targets, exchanges[n]);
    }
  }

  lemma StartSound(runs: seq<string>, targets: set<string>)
    ensures Sound(Start(runs), targets)
  {}

  /** Nothing about the run differs between two states. */
  ghost predicate SameRun(a: State, b: State, run: string) {
    && run in a.final && run in b.final && a.final[run] == b.final[run]
    && run in a.accepted && run in b.accepted && a.accepted[run] == b.accepted[run]
    && Project(a.events, run) == Project(b.events, run)
  }

  lemma FrozenStep(st: State, targets: set<string>, e: Exchange, run: string)
    requires e.run in st.accepted && run in st.final && run in st.accepted
    ensures SameRun(Handle(st, targets, e), st, run)
  {
    if Records(st, targets, e) {
      ProjectSnoc(st.events, Event(e.run, e.reply.pending[0], e.reply.action, e.reply.resume,
                                   ReviewKey(e.run, |st.accepted[e.run]|)), run);
    }
  }

  /** A finalised run never changes again. */
  lemma {:induction false} FinalIsFrozen(st: State, targets: set<string>, exchanges: seq<Exchange>, run: string)
    requires Known(st, exchanges) && run in st.final && run in st.accepted
    ensures SameRun(HandleAll(st, targets, exchanges), st, run)
  {
    if exchanges != [] {
      var n := |exchanges| - 1;
      FinalIsFrozen(st, targets, exchanges[..n], run);
      FrozenStep(HandleAll(st, targets, exchanges[..n]), targets, exchanges[n], run);
    }
  }

  /** The first terminal answer about a run. */
  function FirstTerminal(exchanges: seq<Exchange>, run: string): Option<Reply> {
    if exchanges == [] then None
    else
      var n := |exchanges| - 1;
      var earlier := FirstTerminal(exchanges[..n], run);
      if earlier.Some? then earlier
      else if exchanges[n].run == run && Terminal(exchanges[n].reply) then Some(exchanges[n].reply)
      else None
  }

  /** What is reported as final is the first terminal answer, and a run without one is not final. */
  lemma {:induction false} FinalIsFirstTerminal(runs: seq<string>, targets: set<string>, exchanges: seq<Exchange>,
                                                run: string)
    requires forall e | e in exchanges :: e.run in runs
    ensures var r := HandleAll(Start(runs), targets, exchanges);
            FirstTerminal(exchanges, run) == if run in r.final then Some(r.final[run]) else None
  {
    if exchanges != [] {
      FinalIsFirstTerminal(runs, targets, exchanges[..|exchanges| - 1], run);
    }
  }

  // ---------------------------------------------------------------- exactly what is recorded

  /** The state in which exchange `i` is handled. */
  ghost function StateAt(st: State, targets: set<string>, exchanges: seq<Exchange>, i: nat): (r: State)
    requires Known(st, exchanges) && i <= |exchanges|
    ensures r.accepted.Keys == st.accepted.Keys
  {
    HandleAll(st, targets, exchanges[..i])
  }

  lemma StateStep(st: State, targets: set<string>, exchanges: seq<Exchange>, i: nat)
    requires Known(st, exchanges) && i < |exchanges|
    ensures StateAt(st, targets, exchanges, i + 1)
         == Handle(StateAt(st, targets, exchanges, i), targets, exchanges[i])
  {
    assert exchanges[..i + 1][..i] == exchanges[..i];
  }

  // The rest is said in the columns of the answers alone.

  /** The answer says that its run has ended. */
  predicate SaysEnded(e: Exchange) {
    && e.reply.Summary?
    && (e.reply.status == "SUCCEEDED" || e.reply.status == "FAILED" || e.reply.status == "CANCELLED"
        || e.reply.status == "BLOCKED")
  }

  ghost predicate EndedBefore(exchanges: seq<Exchange>, i: nat, run: string)
    requires i <= |exchanges|
  {
    exists j | 0 <= j < i :: exchanges[j].run == run && SaysEnded(exchanges[j])
  }

  /** Answer `i` is about a target run that had not ended, has something pending, and its review and
      resume went through. */
  ghost predicate WentThrough(targets: set<string>, exchanges: seq<Exchange>, i: nat)
    requires i < |exchanges|
  {
    var e := exchanges[i];
    && e.run in targets && e.reply.Summary? && e.reply.pending != []
    && e.reply.action == 200 && (e.reply.resume == 200 || e.reply.resume == 202)
    && !EndedBefore(exchanges, i, e.run)
  }

  /** Before `i`, a review of this checkpoint of the run went through. */
  ghost predicate ReviewedBefore(targets: set<string>, exchanges: seq<Exchange>, i: nat, run: string,
                                 checkpoint: string)
    requires i <= |exchanges|
  {
    exists j: nat | j < i :: Reviews(targets, exchanges, j, run, checkpoint)
  }

  ghost predicate Reviews(targets: set<string>, exchanges: seq<Exchange>, j: nat, run: string, checkpoint: string)
    requires j < |exchanges|
  {
    WentThrough(targets, exchanges, j) && exchanges[j].run == run && exchanges[j].reply.pending[0] == checkpoint
  }

  /** Run, checkpoint and the two statuses. */
  datatype Review = Review(run: string, checkpoint: string, action: int, resume: int)

  /** The reviews that went through for the first time, among the first `n` answers, in order. */
  ghost function FirstReviews(targets: set<string>, exchanges: seq<Exchange>, n: nat): seq<Review>
    requires n <= |exchanges|
  {
    if n == 0 then []
    else
      var e := exchanges[n - 1];
      FirstReviews(targets, exchanges, n - 1)
      + (if WentThrough(targets, exchanges, n - 1)
            && !ReviewedBefore(targets, exchanges, n - 1, e.run, e.reply.pending[0])
         then [Review(e.run, e.reply.pending[0], e.reply.action, e.reply.resume)]
         else [])
  }

  function Columns(events: seq<Event>): seq<Review> {
    seq(|events|, i requires 0 <= i < |events| =>
          Review(events[i].run, events[i].checkpoint, events[i].action, events[i].resume))
  }

  /** What the state knows of a run after `n` answers. */
  ghost predicate Tracks(st: State, targets: set<string>, exchanges: seq<Exchange>, n: nat, run: string)
    requires n <= |exchanges| && run in st.accepted
  {
    && (run in st.final <==> EndedBefore(exchanges, n, run))
    && forall checkpoint :: checkpoint in st.accepted[run] <==> ReviewedBefore(targets, exchanges, n, run, checkpoint)
  }

  lemma EndedStep(exchanges: seq<Exchange>, n: nat, run: string)
    requires n < |exchanges|
    ensures EndedBefore(exchanges, n + 1, run)
       <==> EndedBefore(exchanges, n, run) || (exchanges[n].run == run && SaysEnded(exchanges[n]))
  {}

  lemma ReviewedStep(targets: set<string>, exchanges: seq<Exchange>, n: nat, run: string, checkpoint: string)
    requires n < |exchanges|
    ensures ReviewedBefore(targets, exchanges, n + 1, run, checkpoint)
       <==> ReviewedBefore(targets, exchanges, n, run, checkpoint) || Reviews(targets, exchanges, n, run, checkpoint)
  {}

  lemma TracksStep(st: State, targets: set<string>, exchanges: seq<Exchange>, n: nat, run: string)
    requires n < |exchanges| && exchanges[n].run in st.accepted && run in st.accepted
    requires Tracks(st, targets, exchanges, n, run) && Tracks(st, targets, exchanges, n, exchanges[n].run)
    ensures Tracks(Handle(st, targets, exchanges[n]), targets, exchanges, n + 1, run)
  {
    var e, next := exchanges[n], Handle(st, targets, exchanges[n]);
    EndedStep(exchanges, n, run);
    forall checkpoint ensures checkpoint in next.accepted[run]
                         <==> ReviewedBefore(targets, exchanges, n + 1, run, checkpoint)
    {
      ReviewedStep(targets, exchanges, n, run, checkpoint);
    }
  }

  lemma ColumnsSnoc(events: seq<Event>, e: Event)
    ensures Columns(events + [e]) == Columns(events) + [Review(e.run, e.checkpoint, e.action, e.resume)]
  {}

  lemma RecordedStep(st: State, targets: set<string>, exchanges: seq<Exchange>, n: nat)
    requires n < |exchanges| && exchanges[n].run in st.accepted
    requires Tracks(st, targets, exchanges, n, exchanges[n].run)
    requires Columns(st.events) == FirstReviews(targets, exchanges, n)
    ensures Columns(Handle(st, targets, exchanges[n]).events) == FirstReviews(targets, exchanges, n + 1)
  {
    var e := exchanges[n];
    if Records(st, targets, e) {
      ColumnsSnoc(st.events, Event(e.run, e.reply.pending[0], e.reply.action, e.reply.resume,
                                   ReviewKey(e.run, |st.accepted[e.run]|)));
    }
  }

  ghost predicate UpTo(st: State, targets: set<string>, exchanges: seq<Exchange>, n: nat)
    requires n <= |exchanges|
  {
    && Columns(st.events) == FirstReviews(targets, exchanges, n)
    && forall run | run in st.accepted :: Tracks(st, targets, exchanges, n, run)
  }

  lemma UpToStep(st: State, targets: set<string>, exchanges: seq<Exchange>, n: nat)
    requires n < |exchanges| && exchanges[n].run in st.accepted && UpTo(st, targets, exchanges, n)
    ensures UpTo(Handle(st, targets, exchanges[n]), targets, exchanges, n + 1)
  {
    var next, m := Handle(st, targets, exchanges[n]), n + 1;
    RecordedStep(st, targets, exchanges, n);
    forall run | run in next.accepted ensures Tracks(next, targets, exchanges, m, run) {
      TracksStep(st, targets, exchanges, n, run);
    }
  }

  lemma {:induction false} RecordedUpTo(runs: seq<string>, targets: set<string>, exchanges: seq<Exchange>, n: nat)
    requires Known(Start(runs), exchanges) && n <= |exchanges|
    ensures UpTo(StateAt(Start(runs), targets, exchanges, n), targets, exchanges, n)
  {
    if n == 0 {
      assert exchanges[..0] == [];
    } else {
      RecordedUpTo(runs, targets, exchanges, n - 1);
      UpToStep(StateAt(Start(runs), targets, exchanges, n - 1), targets, exchanges, n - 1);
      StateStep(Start(runs), targets, exchanges, n - 1);
    }
  }

  /** Over every transcript: the recorded events are exactly, and in order, the first pending checkpoints
      of the answers about a target run that had not ended, not accepted before, answered 200 and then 200
      or 202; a checkpoint is accepted exactly if there is such an answer, and a run is final exactly if
      some answer about it said that it had ended. */
  lemma RecordedExactly(runs: seq<string>, targets: set<string>, exchanges: seq<Exchange>)
    requires Known(Start(runs), exchanges)
    ensures var st := HandleAll(Start(runs), targets, exchanges);
            && Columns(st.events) == FirstReviews(targets, exchanges, |exchanges|)
            && forall run | run in st.accepted :: Tracks(st, targets, exchanges, |exchanges|, run)
  {
    RecordedUpTo(runs, targets, exchanges, |exchanges|);
    assert exchanges[..|exchanges|] == exchanges;
  }

  // ---------------------------------------------------------------- idempotency keys

  lemma ReviewKeyInjective(a: string, m: nat, b: string, n: nat)
    requires ReviewKey(a, m) == ReviewKey(b, n)
    ensures a == b && m == n
  {
    var p := "step38-review-";
    JoinInjective(p + a, m, p + b, n, '-');
    assert a == (p + a)[|p|..] && b == (p + b)[|p|..];
  }

  /** The first review of a run and its eleventh carry these keys. */
  lemma KeyTexts(run: string)
    ensures ReviewKey(run, 0) == "step38-review-" + run + "-0" && ReviewKey(run, 10) == "step38-review-" + run + "-10"
  {
    assert Decimal(0) == "0" && Decimal(1) == "1";
    assert Decimal(10) == "10";
  }

  lemma {:induction false} ProjectGrows(events: seq<Event>, i: nat, j: nat)
    requires i < j <= |events|
    ensures |Project(events[..i], events[i].run)| < |Project(events[..j], events[i].run)|
  {
    assert events[..j][..j - 1] == events[..j - 1];
    if j == i + 1 {
      assert events[..j][i] == events[i];
    } else {
      ProjectGrows(events, i, j - 1);
    }
  }

  /** No two recorded acceptances used the same idempotency key. */
  lemma RecordedKeysDistinct(st: State, targets: set<string>, i: nat, j: nat)
    requires Sound(st, targets) && i < j < |st.events|
    ensures st.events[i].key != st.events[j].key
  {
    assert EventSound(st, targets, i) && EventSound(st, targets, j);
    var a, b := st.events[i].run, st.events[j].run;
    if a == b { ProjectGrows(st.events, i, j); }
    if st.events[i].key == st.events[j].key {
      ReviewKeyInjective(a, |Project(st.events[..i], a)|, b, |Project(st.events[..j], b)|);
    }
  }

  ghost predicate PostsAt(st: State, targets: set<string>, exchanges: seq<Exchange>, i: nat)
    requires Known(st, exchanges) && i < |exchanges|
  {
    Posts(StateAt(st, targets, exchanges, i), targets, exchanges[i])
  }

  ghost predicate RecordsAt(st: State, targets: set<string>, exchanges: seq<Exchange>, i: nat)
    requires Known(st, exchanges) && i < |exchanges|
  {
    Records(StateAt(st, targets, exchanges, i), targets, exchanges[i])
  }

  /** How many reviews of the run have been accepted when exchange `i` is handled. */
  ghost function AcceptedBy(st: State, targets: set<string>, exchanges: seq<Exchange>, run: string, i: nat): nat
    requires Known(st, exchanges) && run in st.accepted && i <= |exchanges|
  {
    |StateAt(st, targets, exchanges, i).accepted[run]|
  }

  /** The idempotency key that the review posted in exchange `i` carries. */
  ghost function PostedKey(st: State, targets: set<string>, exchanges: seq<Exchange>, i: nat): string
    requires Known(st, exchanges) && i < |exchanges|
  {
    ReviewKey(exchanges[i].run, AcceptedBy(st, targets, exchanges, exchanges[i].run, i))
  }

  /** One exchange lengthens the accepted list of a run by one if it records for that run, else not. */
  lemma AcceptedStep(st: State, targets: set<string>, e: Exchange, run: string)
    requires e.run in st.accepted && run in st.accepted
    ensures |Handle(st, targets, e).accepted[run]|
         == |st.accepted[run]| + (if e.run == run && Records(st, targets, e) then 1 else 0)
  {}

  ghost predicate Quiet(st: State, targets: set<string>, exchanges: seq<Exchange>, run: string, i: nat, j: nat)
    requires Known(st, exchanges) && j <= |exchanges|
  {
    forall k | i <= k < j && exchanges[k].run == run :: !RecordsAt(st, targets, exchanges, k)
  }

  lemma AcceptedAt(st: State, targets: set<string>, exchanges: seq<Exchange>, run: string, i: nat)
    requires Known(st, exchanges) && run in st.accepted && i < |exchanges|
    ensures AcceptedBy(st, targets, exchanges, run, i + 1)
         == AcceptedBy(st, targets, exchanges, run, i)
            + (if exchanges[i].run == run && RecordsAt(st, targets, exchanges, i) then 1 else 0)
  {
    StateStep(st, targets, exchanges, i);
    AcceptedStep(StateAt(st, targets, exchanges, i), targets, exchanges[i], run);
  }

  lemma QuietStep(st: State, targets: set<string>, exchanges: seq<Exchange>, run: string, i: nat, j: nat)
    requires Known(st, exchanges) && i < j <= |exchanges|
    ensures Quiet(st, targets, exchanges, run, i, j)
       <==> Quiet(st, targets, exchanges, run, i, j - 1)
            && (exchanges[j - 1].run == run ==> !RecordsAt(st, targets, exchanges, j - 1))
  {}

  /** Between two points the accepted list of a run never shrinks, and keeps its length exactly when
      nothing is recorded for the run in between. */
  lemma {:induction false} AcceptedGrows(st: State, targets: set<string>, exchanges: seq<Exchange>, run: string,
                                         i: nat, j: nat)
    requires Known(st, exchanges) && run in st.accepted && i <= j <= |exchanges|
    ensures AcceptedBy(st, targets, exchanges, run, i) <= AcceptedBy(st, targets, exchanges, run, j)
    ensures AcceptedBy(st, targets, exchanges, run, i) == AcceptedBy(st, targets, exchanges, run, j)
       <==> Quiet(st, targets, exchanges, run, i, j)
  {
    if i < j {
      AcceptedGrows(st, targets, exchanges, run, i, j - 1);
      AcceptedAt(st, targets, exchanges, run, j - 1);
      QuietStep(st, targets, exchanges, run, i, j);
    }
  }

  /** Whatever the server answers, two reviews are posted under one idempotency key if and only if
      they are for the same run and no review of that run was recorded from the first up to the second. */
  lemma PostedKeysShared(st: State, targets: set<string>, exchanges: seq<Exchange>, i: nat, j: nat)
    requires Known(st, exchanges) && i < j < |exchanges|
    requires PostsAt(st, targets, exchanges, i) && PostsAt(st, targets, exchanges, j)
    ensures PostedKey(st, targets, exchanges, i) == PostedKey(st, targets, exchanges, j)
       <==> exchanges[i].run == exchanges[j].run && Quiet(st, targets, exchanges, exchanges[i].run, i, j)
  {
    var a, b := exchanges[i].run, exchanges[j].run;
    AcceptedGrows(st, targets, exchanges, a, i, j);
    if PostedKey(st, targets, exchanges, i) == PostedKey(st, targets, exchanges, j) {
      ReviewKeyInjective(a, AcceptedBy(st, targets, exchanges, a, i), b, AcceptedBy(st, targets, exchanges, b, j));
    }
  }

  /** A run whose first review is refused and whose next summary asks about something else. */
  const REFUSED := [Exchange("r", Summary(["mapping"], "NEEDS_REVIEW", 409, 409)),
                    Exchange("r", Summary(["materialization"], "NEEDS_REVIEW", 200, 202))]

  /** A key is not bound to one checkpoint: after a refusal the same key is posted for another one. */
  lemma KeyReusedForAnotherCheckpoint()
    ensures var st, targets := Start(["r"]), {"r"};
            && Known(st, REFUSED) && PostsAt(st, targets, REFUSED, 0) && PostsAt(st, targets, REFUSED, 1)
            && PostedKey(st, targets, REFUSED, 0) == PostedKey(st, targets, REFUSED, 1)
            && REFUSED[0].reply.pending[0] != REFUSED[1].reply.pending[0]
  {
    var st, targets := Start(["r"]), {"r"};
    assert "r" in AsSet(["r"]) by { assert ["r"][0] == "r"; }
    StateStep(st, targets, REFUSED, 0);
    assert StateAt(st, targets, REFUSED, 0) == st == StateAt(st, targets, REFUSED, 1);
    assert |REFUSED[0].reply.pending[0]| < |REFUSED[1].reply.pending[0]|;
  }

  // ---------------------------------------------------------------- the polling loop

  /** The exchanges of the first `k` positions of one round; `serve` is what the server answers. */
  function RoundOf(runs: seq<string>, serve: (nat, nat) -> Reply, round: nat, k: nat): seq<Exchange>
    requires k <= |runs|
  {
    seq(k, i requires 0 <= i < k => Exchange(runs[i], serve(round, i)))
  }

  /** Everything the server would be asked in a number of full rounds. */
  function Transcript(runs: seq<string>, serve: (nat, nat) -> Reply, rounds: nat): (r: seq<Exchange>)
    ensures forall e | e in r :: e.run in runs
  {
    if rounds == 0 then [] else Transcript(runs, serve, rounds - 1) + RoundOf(runs, serve, rounds - 1, |runs|)
  }

  /** The transcript asks about every run in order, round after round, and has what the server answers
      in that round at that place. */
  lemma {:induction false} TranscriptExactly(runs: seq<string>, serve: (nat, nat) -> Reply, rounds: nat, r: nat, i: nat)
    requires r < rounds && i < |runs|
    ensures |Transcript(runs, serve, rounds)| == rounds * |runs| && r * |runs| + i < rounds * |runs|
    ensures Transcript(runs, serve, rounds)[r * |runs| + i] == Exchange(runs[i], serve(r, i))
  {
    var before := Transcript(runs, serve, rounds - 1);
    assert rounds * |runs| == (rounds - 1) * |runs| + |runs|;
    if rounds > 1 {
      TranscriptExactly(runs, serve, rounds - 1, if r < rounds - 1 then r else 0, i);
    }
  }

  lemma {:induction false} AllFinalIsDone(st: State, targets: set<string>, exchanges: seq<Exchange>)
    requires Known(st, exchanges) && forall e | e in exchanges :: e.run in st.final
    ensures HandleAll(st, targets, exchanges) == st
  {
    if exchanges != [] { AllFinalIsDone(st, targets, exchanges[..|exchanges| - 1]); }
  }

  lemma {:induction false} HandleAllConcat(st: State, targets: set<string>, a: seq<Exchange>, b: seq<Exchange>)
    requires Known(st, a + b)
    ensures Known(st, a) && Known(st, b)
    ensures HandleAll(st, targets, a + b) == HandleAll(HandleAll(st, targets, a), targets, b)
  {
    assert forall e | e in a :: e in a + b;
    assert forall e | e in b :: e in a + b;
    if b == [] {
      assert a + b == a;
    } else {
      assert (a + b)[..|a + b| - 1] == a + b[..|b| - 1];
      HandleAllConcat(st, targets, a, b[..|b| - 1]);
    }
  }

  lemma {:induction false} SetSize(runs: seq<string>)
    ensures |AsSet(runs)| <= |runs|
  {
    if runs != [] {
      SetSize(runs[1..]);
      assert AsSet(runs) == {runs[0]} + AsSet(runs[1..]);
    }
  }

  lemma FullIsEverything(runs: seq<string>, keys: set<string>)
    requires keys <= AsSet(runs) && |keys| >= |runs|
    ensures keys == AsSet(runs)
  {
    SetSize(runs);
    assert AsSet(runs) == keys + (AsSet(runs) - keys);
  }

  /** Poll one run: the body of the inner loop. */
  method PollOne(st: State, run: string, targets: set<string>, reply: Reply) returns (next: State)
    requires run in st.accepted
    ensures next == Handle(st, targets, Exchange(run, reply))
  {
    next := st;
    if run in st.final || reply.NoSummary? { return; }
    if run in targets && reply.pending != [] {
      var checkpoint := reply.pending[0];
      if checkpoint !in st.accepted[run] {
        var key := ReviewKey(run, |st.accepted[run]|);
        if reply.action == 200 && reply.resume in {200, 202} {
          next := next.(accepted := st.accepted[run := st.accepted[run] + [checkpoint]],
                        events := st.events + [Event(run, checkpoint, reply.action, reply.resume, key)]);
        }
      }
    }
    if reply.status in TERMINAL { next := next.(final := st.final[run := reply]); }
  }

  lemma RoundWithinRuns(runs: seq<string>, serve: (nat, nat) -> Reply, round: nat)
    ensures forall e | e in RoundOf(runs, serve, round, |runs|) :: e.run in AsSet(runs)
  {}

  lemma TranscriptKnown(runs: seq<string>, serve: (nat, nat) -> Reply, rounds: nat)
    ensures Known(Start(runs), Transcript(runs, serve, rounds))
  {}

  /** The state after a number of full rounds. */
  function After(runs: seq<string>, targets: set<string>, serve: (nat, nat) -> Reply, rounds: nat): (st: State)
    ensures st.accepted.Keys == AsSet(runs)
  {
    TranscriptKnown(runs, serve, rounds);
    HandleAll(Start(runs), targets, Transcript(runs, serve, rounds))
  }

  /** One more round of the transcript is one more pass over all the runs. */
  lemma AfterStep(runs: seq<string>, targets: set<string>, serve: (nat, nat) -> Reply, round: nat)
    ensures Known(After(runs, targets, serve, round), RoundOf(runs, serve, round, |runs|))
    ensures After(runs, targets, serve, round + 1)
         == HandleAll(After(runs, targets, serve, round), targets, RoundOf(runs, serve, round, |runs|))
  {
    RoundWithinRuns(runs, serve, round);
    TranscriptKnown(runs, serve, round + 1);
    HandleAllConcat(Start(runs), targets, Transcript(runs, serve, round), RoundOf(runs, serve, round, |runs|));
  }

  /** One pass over all runs. */
  method PollRound(st: State, runs: seq<string>, targets: set<string>, serve: (nat, nat) -> Reply, round: nat)
    returns (next: State)
    requires st == After(runs, targets, serve, round)
    ensures next == After(runs, targets, serve, round + 1)
  {
    next := st;
    RoundWithinRuns(runs, serve, round);
    AfterStep(runs, targets, serve, round);
    for k := 0 to |runs|
      invariant next == HandleAll(st, targets, RoundOf(runs, serve, round, k))
    {
      assert RoundOf(runs, serve, round, k + 1)[..k] == RoundOf(runs, serve, round, k);
      next := PollOne(next, runs[k], targets, serve(round, k));
    }
  }

  lemma AfterSound(runs: seq<string>, targets: set<string>, serve: (nat, nat) -> Reply, rounds: nat)
    ensures Sound(After(runs, targets, serve, rounds), targets)
    ensures After(runs, targets, serve, rounds).final.Keys <= AsSet(runs)
  {
    StartSound(runs, targets);
    TranscriptKnown(runs, serve, rounds);
    SoundAlways(Start(runs), targets, Transcript(runs, serve, rounds));
  }

  lemma IdleRound(runs: seq<string>, targets: set<string>, serve: (nat, nat) -> Reply, round: nat)
    requires AsSet(runs) <= After(runs, targets, serve, round).final.Keys
    ensures After(runs, targets, serve, round + 1) == After(runs, targets, serve, round)
  {
    AfterStep(runs, targets, serve, round);
    RoundWithinRuns(runs, serve, round);
    AllFinalIsDone(After(runs, targets, serve, round), targets, RoundOf(runs, serve, round, |runs|));
  }

  /** Once every run is final, further rounds change nothing. */
  lemma {:induction false} IdleRounds(runs: seq<string>, targets: set<string>, serve: (nat, nat) -> Reply,
                                      i: nat, j: nat)
    requires i <= j && AsSet(runs) <= After(runs, targets, serve, i).final.Keys
    ensures After(runs, targets, serve, j) == After(runs, targets, serve, i)
    decreases j - i
  {
    if i < j {
      IdleRound(runs, targets, serve, i);
      IdleRounds(runs, targets, serve, i + 1, j);
    }
  }

  lemma FinalWithinRuns(runs: seq<string>, targets: set<string>, serve: (nat, nat) -> Reply, rounds: nat)
    ensures After(runs, targets, serve, rounds).final.Keys <= AsSet(runs)
  {
    AfterSound(runs, targets, serve, rounds);
  }

  lemma StoppedEarly(runs: seq<string>, targets: set<string>, serve: (nat, nat) -> Reply, i: nat, j: nat)
    requires i <= j && |After(runs, targets, serve, i).final| >= |runs|
    ensures After(runs, targets, serve, i) == After(runs, targets, serve, j)
  {
    FinalWithinRuns(runs, targets, serve, i);
    FullIsEverything(runs, After(runs, targets, serve, i).final.Keys);
    IdleRounds(runs, targets, serve, i, j);
  }

  /** The runs that have no final answer. */
  function TimedOut(st: State, runs: seq<string>): set<string> { AsSet(runs) - st.final.Keys }

  /** Final and timed-out runs partition the inputs. */
  lemma FinalOrTimedOut(runs: seq<string>, targets: set<string>, serve: (nat, nat) -> Reply, rounds: nat)
    ensures var st := After(runs, targets, serve, rounds);
            st.final.Keys !! TimedOut(st, runs) && st.final.Keys + TimedOut(st, runs) == AsSet(runs)
  {
    FinalWithinRuns(runs, targets, serve, rounds);
  }

  /** The polling loop, for `rounds` rounds before the deadline and any answers.  Stopping early when
      every run is final loses nothing: the result is that of all the rounds. */
  method PollProductRuns(runs: seq<string>, targets: set<string>, rounds: nat, serve: (nat, nat) -> Reply)
    returns (st: State, timedOut: set<string>)
    ensures st == After(runs, targets, serve, rounds)
    ensures st.final.Keys !! timedOut && st.final.Keys + timedOut == AsSet(runs)
  {
    st := PollUntilFinal(runs, targets, rounds, serve);
    timedOut := TimedOut(st, runs);
    FinalOrTimedOut(runs, targets, serve, rounds);
  }

  method PollUntilFinal(runs: seq<string>, targets: set<string>, rounds: nat, serve: (nat, nat) -> Reply)
    returns (st: State)
    ensures st == After(runs, targets, serve, rounds)
  {
    st := Start(runs);
    for round := 0 to rounds
      invariant st == After(runs, targets, serve, round)
    {
      if |st.final| >= |runs| {
        StoppedEarly(runs, targets, serve, round, rounds);
        return;
      }
      st := PollRound(st, runs, targets, serve, round);
    }
  }
}
