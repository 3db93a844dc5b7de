/** What an accepted execution state records (tools/execution_state.py), said by a table of data: for
    every position of the pointer, which steps, documents and gates the state must show.  The table is
    proved to say exactly what the web of evidence predicates says, and the state that completing a
    step leaves is proved to be accepted. */
module ExecutionRecord {
  import opened ExecutionState
  import Text

  // ---------------------------------------------------------------- the table

  /** What a state must show with the pointer on a step: `titled` if the current title is compared,
      `commit` if the last commit is the one in the document of the step before, the steps that are
      completed, the documents that passed, those whose gate passed, those bound to a commit, to a CI
      run and to the commit they assessed, and the gates that have passed or are still pending. */
  datatype Entry = Entry(titled: bool, commit: bool, done: set<int>, docs: set<int>, gated: set<int>,
                         signed: set<int>, ci: set<int>, assessed: set<int>, passed: set<int>, pending: set<int>)

  function Table(p: int): Entry
    requires 31 <= p <= 41
  {
    match p
    case 31 => Entry(false, false, {30}, {}, {}, {}, {}, {}, {8}, {})
    case 32 => Entry(false, true, {30, 31}, {31}, {}, {}, {}, {}, {6, 7, 8}, {})
    case 33 => Entry(false, true, {30, 31, 32}, {31}, {32}, {32}, {}, {}, {6, 7, 8, 9}, {10, 13, 14, 15})
    case 34 => Entry(false, true, {30, 31, 33}, {31, 33}, {33}, {33}, {}, {}, {6, 7, 8, 9, 10}, {11, 12, 13, 14, 15})
    case 35 => Entry(true, true, {30, 31, 33, 34}, {31, 33, 34}, {33}, {33, 34}, {}, {}, {6, 7, 8, 9, 10},
                     {11, 12, 13, 14, 15})
    case 36 => Entry(true, true, {30, 31, 33, 34, 35}, {31, 33, 34, 35}, {33}, {33, 34, 35}, {35}, {},
                     {6, 7, 8, 9, 10}, {11, 12, 13, 14, 15})
    case 37 => Entry(true, true, {30, 31, 33, 34, 35, 36}, {31, 33, 34, 35, 36}, {33, 36}, {33, 35, 36}, {35, 36}, {},
                     {6, 7, 8, 9, 10, 11}, {12, 13, 14, 15})
    case 38 => Entry(true, true, {30, 31, 33, 34, 35, 36, 37}, {31, 33, 34, 35, 36, 37}, {33, 36}, {33, 35, 36, 37},
                     {35, 36, 37}, {}, {6, 7, 8, 9, 10, 11}, {12, 13, 14, 15})
    case 39 => Entry(true, true, {30, 31, 32, 33, 34, 35, 36, 37, 38}, {38}, {}, {38}, {}, {38},
                     {6, 7, 8, 9, 10, 11, 12}, {13, 14, 15})
    case 40 => Entry(true, true, {30, 31, 32, 33, 34, 35, 36, 37, 38, 39}, {39}, {39}, {39}, {}, {39},
                     {6, 7, 8, 9, 10, 11, 12, 13}, {14, 15})
    case _ => Entry(true, false, {30, 31, 32, 33, 34, 35, 36, 37, 38, 39, 40}, {}, {}, {}, {}, {},
                    {6, 7, 8, 9, 10, 11, 12, 13, 14}, {15})
  }

  /** Step 38 can also be under way with its gate open. */
  const OPEN38 := Entry(true, true, {30, 31, 32, 33, 34, 35, 36, 37}, {37}, {}, {37}, {37}, {},
                        {6, 7, 8, 9, 10, 11}, {12, 13, 14, 15})

  // ---------------------------------------------------------------- one entry

  predicate DocPassed(s: State, n: int) {
    Section(s, n).Doc? && Section(s, n).r.started == Flag(true) && Section(s, n).r.status == Str(Pass)
  }

  predicate GatePassed(s: State, n: int) { Read(Section(s, n)).gateStatus == Str(Pass) }

  predicate Signed(s: State, n: int) { IsCommitSha(Read(Section(s, n)).contentCommit) }

  predicate BuiltByCi(s: State, n: int) { CiBound(Read(Section(s, n))) }

  predicate Assessed(s: State, n: int) {
    Read(Section(s, n)).assessedCommit == Read(Section(s, n)).contentCommit
  }

  predicate GateIs(s: State, g: int, w: Word) { Gate(s, g) == Str(w) }

  predicate Documents(s: State, e: Entry) {
    && (forall n | n in e.docs :: DocPassed(s, n)) && (forall n | n in e.gated :: GatePassed(s, n))
    && (forall n | n in e.signed :: Signed(s, n)) && (forall n | n in e.ci :: BuiltByCi(s, n))
    && (forall n | n in e.assessed :: Assessed(s, n))
  }

  predicate Gates(s: State, e: Entry) {
    && (forall g | g in e.passed :: GateIs(s, g, Pass)) && (forall g | g in e.pending :: GateIs(s, g, Pending))
    && Unblocked(s)
  }

  predicate Handover(s: State, p: int, e: Entry) {
    && s.lastTitle == Str(Title(p - 1)) && (e.titled ==> s.currentTitle == Str(Title(p)))
    && (e.commit ==> s.lastCommit == Read(Section(s, p - 1)).contentCommit)
  }

  predicate Shows(s: State, p: int, e: Entry) {
    Handover(s, p, e) && (forall n | n in e.done :: Done(s, n)) && Documents(s, e) && Gates(s, e)
  }

  /** A passed gate 11 or 12 is backed by a receipt while step 32 is being closed. */
  predicate EarlyGates(s: State) {
    && (GateIs(s, 11, Pending) || (GateIs(s, 11, Pass) && Receipt36(s)))
    && (GateIs(s, 12, Pending) || (GateIs(s, 12, Pass) && Receipt38(s)))
  }

  /** What a few positions ask beyond the table. */
  predicate Special(s: State, p: int) {
    && (p == 33 ==>
          && Section(s, 32).Doc? && Section(s, 32).r.started == Flag(true)
          && (Section(s, 32).r.status == Str(Pass) || Section(s, 32).r.status == Str(Incomplete))
          && EarlyGates(s))
    && (p == 37 || p == 38 ==>
          && Read(Section(s, 36)).receipt == Str(ResilienceReview)
          && Read(Section(s, 36)).gateReceipt == Str(ResilienceGate))
    && (p == 41 ==> IsCommitSha(s.lastCommit))
  }

  /** The state shows that the step before `p` was closed and that `p` has not begun. */
  predicate Fresh(s: State, p: int)
    requires 31 <= p <= 41
  {
    Shows(s, p, Table(p)) && Unstarted(s, p) && Special(s, p)
  }

  /** The state shows an active step 38 whose gate is still open. */
  predicate Open38(s: State) {
    && Shows(s, 38, OPEN38) && Unstarted(s, 39)
    && Get(s.started, 38) == Flag(true) && Get(s.status, 38) == Str(IncompleteFullRegressionBlocker)
  }

  predicate Recorded(s: State, p: int)
    requires 31 <= p <= 41
  {
    Fresh(s, p) || (p == 38 && Open38(s))
  }

  // ---------------------------------------------------------------- the table is the web

  lemma AllDoneEach(s: State, last: int)
    requires 37 <= last <= 40 && AllDone(s, last)
    ensures forall n | 30 <= n <= last :: Done(s, n)
  {}

  lemma GatesEach(s: State, last: int)
    requires 6 <= last <= 14 && GatesPass(s, 6, last) && GatesPending(s, last + 1, 15)
    ensures forall g | 6 <= g <= last :: GateIs(s, g, Pass)
    ensures forall g | last < g <= 15 :: GateIs(s, g, Pending)
  {}

  lemma Records31(s: State)
    requires At(s, 31) && Direct30(s)
    ensures Fresh(s, 31)
  {}

  /** The evidence up to step 34 behind a pointer on 37 or 38. */
  lemma LateEvidence(s: State, p: int)
    requires 37 <= p <= 38 && Pointer(s) && At(s, p) && Fresh(s, p)
    ensures Evidence34(s) && Receipt35(s) && Receipt36(s) && (p == 38 ==> Receipt37(s))
  {
    assert Evidence31(s);
    assert Evidence33(s);
    assert Observed(s);
  }

  lemma Accepts31(s: State)
    requires Pointer(s) && At(s, 31) && Fresh(s, 31)
    ensures Direct30(s)
  {}

  lemma Records32(s: State)
    requires At(s, 32) && Direct31(s)
    ensures Fresh(s, 32)
  {}

  lemma Accepts32(s: State)
    requires Pointer(s) && At(s, 32) && Fresh(s, 32)
    ensures Direct31(s)
  {}

  lemma Records33(s: State)
    requires At(s, 33) && Direct32(s)
    ensures Fresh(s, 33)
  {}

  lemma Accepts33(s: State)
    requires Pointer(s) && At(s, 33) && Fresh(s, 33)
    ensures Direct32(s)
  {}

  lemma Records34(s: State)
    requires At(s, 34) && Evidence33(s)
    ensures Fresh(s, 34)
  {}

  lemma Accepts34(s: State)
    requires Pointer(s) && At(s, 34) && Fresh(s, 34)
    ensures Evidence33(s)
  {}

  lemma Records35(s: State)
    requires At(s, 35) && Evidence34(s)
    ensures Fresh(s, 35)
  {}

  lemma Accepts35(s: State)
    requires Pointer(s) && At(s, 35) && Fresh(s, 35)
    ensures Evidence34(s)
  {}

  lemma Records36(s: State)
    requires At(s, 36) && Evidence35(s)
    ensures Fresh(s, 36)
  {}

  lemma Accepts36(s: State)
    requires Pointer(s) && At(s, 36) && Fresh(s, 36)
    ensures Evidence35(s)
  {}

  lemma Records37(s: State)
    requires At(s, 37) && Evidence36(s)
    ensures Fresh(s, 37)
  {}

  lemma Accepts37(s: State)
    requires Pointer(s) && At(s, 37) && Fresh(s, 37)
    ensures Evidence36(s)
  {
    LateEvidence(s, 37);
  }

  lemma Records38Documents(s: State)
    requires At(s, 38) && Direct37(s)
    ensures Documents(s, Table(38)) && Special(s, 38)
  {}

  lemma Records38Rest(s: State)
    requires At(s, 38) && Direct37(s)
    ensures Handover(s, 38, Table(38)) && Gates(s, Table(38)) && Unstarted(s, 38)
    ensures forall n | n in Table(38).done :: Done(s, n)
  {}

  lemma Records38(s: State)
    requires At(s, 38) && Direct37(s)
    ensures Fresh(s, 38)
  {
    Records38Documents(s);
    Records38Rest(s);
  }

  lemma Accepts38(s: State)
    requires Pointer(s) && At(s, 38) && Fresh(s, 38)
    ensures Direct37(s)
  {
    LateEvidence(s, 38);
    assert Evidence36(s);
  }

  lemma Records39(s: State)
    requires At(s, 39) && Direct38(s)
    ensures Fresh(s, 39)
  {
    AllDoneEach(s, 38);
    GatesEach(s, 12);
  }

  lemma Accepts39(s: State)
    requires Pointer(s) && At(s, 39) && Fresh(s, 39)
    ensures Direct38(s)
  {}

  lemma Records40(s: State)
    requires At(s, 40) && Direct39(s)
    ensures Fresh(s, 40)
  {
    AllDoneEach(s, 39);
    GatesEach(s, 13);
  }

  lemma Accepts40(s: State)
    requires Pointer(s) && At(s, 40) && Fresh(s, 40)
    ensures Direct39(s)
  {}

  lemma Records41(s: State)
    requires At(s, 41) && Direct40(s)
    ensures Fresh(s, 41)
  {
    AllDoneEach(s, 40);
    GatesEach(s, 14);
  }

  lemma Accepts41(s: State)
    requires Pointer(s) && At(s, 41) && Fresh(s, 41)
    ensures Direct40(s)
  {}

  lemma RecordsOpen38(s: State)
    requires At(s, 38) && Direct38Incomplete(s)
    ensures Open38(s)
  {}

  lemma AcceptsOpen38(s: State)
    requires Pointer(s) && At(s, 38) && Open38(s)
    ensures Direct38Incomplete(s)
  {}

  /** What the row of step `p` asks, as one predicate. */
  predicate RowOf(s: State, p: int)
    requires 31 <= p <= 41
  {
    match p
    case 31 => Direct30(s)
    case 32 => Direct31(s)
    case 33 => Direct32(s)
    case 34 => Evidence33(s)
    case 35 => Evidence34(s)
    case 36 => Evidence35(s)
    case 37 => Evidence36(s)
    case 38 => Direct37(s) || Direct38Incomplete(s)
    case 39 => Direct38(s)
    case 40 => Direct39(s)
    case _ => Direct40(s)
  }

  lemma RowAtEarlyPointer(s: State, p: int)
    requires At(s, p) && 31 <= p <= 36
    ensures Row(s) <==> RowOf(s, p)
  {}

  lemma RowAtLatePointer(s: State, p: int)
    requires At(s, p) && 37 <= p <= 41
    ensures Row(s) <==> RowOf(s, p)
  {}

  lemma RecordsRow(s: State, p: int)
    requires At(s, p) && 31 <= p <= 41 && RowOf(s, p)
    ensures Recorded(s, p)
  {
    match p {
      case 31 => Records31(s);
      case 32 => Records32(s);
      case 33 => Records33(s);
      case 34 => Records34(s);
      case 35 => Records35(s);
      case 36 => Records36(s);
      case 37 => Records37(s);
      case 38 => if Direct37(s) { Records38(s); } else { RecordsOpen38(s); }
      case 39 => Records39(s);
      case 40 => Records40(s);
      case _ => Records41(s);
    }
  }

  lemma AcceptsRow(s: State, p: int)
    requires Pointer(s) && At(s, p) && 31 <= p <= 41 && Recorded(s, p)
    ensures RowOf(s, p)
  {
    match p {
      case 31 => Accepts31(s);
      case 32 => Accepts32(s);
      case 33 => Accepts33(s);
      case 34 => Accepts34(s);
      case 35 => Accepts35(s);
      case 36 => Accepts36(s);
      case 37 => Accepts37(s);
      case 38 => if Fresh(s, 38) { Accepts38(s); } else { AcceptsOpen38(s); }
      case 39 => Accepts39(s);
      case 40 => Accepts40(s);
      case _ => Accepts41(s);
    }
  }

  /** In every state that is not terminal, a closure accepts exactly what the table describes: a
      well-formed pointer past its step and a state that shows what the entry of that position lists. */
  lemma ClosureIsRecorded(s: State, k: int)
    requires 30 <= k <= 40 && k != 34 && s.currentStep.Num?
    ensures Closed(s, k) <==> Pointer(s) && s.currentStep.n > k && Recorded(s, s.currentStep.n)
  {
    ClosedFlat(s, k);
    var p := s.currentStep.n;
    if Pointer(s) && p > k {
      if p <= 36 { RowAtEarlyPointer(s, p); } else { RowAtLatePointer(s, p); }
      if RowOf(s, p) { RecordsRow(s, p); }
      if Recorded(s, p) { AcceptsRow(s, p); }
    }
  }

  // ---------------------------------------------------------------- the steps around the pointer

  /** The step is recorded as completed. */
  predicate RecordedDone(s: State, n: int) {
    n in s.started && s.started[n] == Flag(true) && n in s.status && s.status[n] == Str(Completed(n))
  }

  /** The step is recorded as not begun, or, for step 38 alone, as begun and held up. */
  predicate RecordedOpen(s: State, n: int) {
    && n in s.started && n in s.status
    && ( || (s.started[n] == Flag(false) && s.status[n] == Str(NotStarted))
         || (n == 38 && s.started[n] == Flag(true) && s.status[n] == Str(IncompleteFullRegressionBlocker)))
  }

  lemma EntryDone(s: State, p: int, n: int)
    requires 31 <= p <= 41 && Recorded(s, p) && 30 <= n < p && (n != 32 || p == 33 || p >= 39)
    ensures RecordedDone(s, n)
  {
    assert n in Table(p).done && (p == 38 ==> n in OPEN38.done);
    assert Done(s, n);
  }

  /** Whatever closure accepts a state that is not terminal, its pointer stands on the first open step:
      that step is not completed, the last completed one is the step before, and every step from 30 up
      to it is completed (step 32 is looked at right after it and from step 39 on).  The step-34 closure
      with the pointer on 36 is set aside. */
  lemma PointerIsOnFirstOpenStep(s: State, k: int)
    requires 30 <= k <= 40 && Closed(s, k) && s.currentStep.Num? && !(k == 34 && s.currentStep.n == 36)
    ensures var p := s.currentStep.n;
            && k < p <= 41 && s.lastStep == Num(p - 1) && RecordedOpen(s, p)
            && forall n | 30 <= n < p && (n != 32 || p == 33 || p >= 39) :: RecordedDone(s, n)
  {
    var p := s.currentStep.n;
    if k == 34 {
      Step34Flat(s);
      Step34KeepsEarlier(s, 33);
      ClosureIsRecorded(s, 33);
    } else {
      ClosureIsRecorded(s, k);
    }
    forall n | 30 <= n < p && (n != 32 || p == 33 || p >= 39) ensures RecordedDone(s, n) { EntryDone(s, p, n); }
    assert RecordedOpen(s, p) by { assert Unstarted(s, p) || (p == 38 && Open38(s)); }
  }

  // ---------------------------------------------------------------- the state a completed step leaves

  const STEPS: set<int> := {29, 30, 31, 32, 33, 34, 35, 36, 37, 38, 39, 40, 41, 42}

  const GATES: set<int> := {0, 1, 2, 3, 4, 5, 6, 7, 8, 9, 10, 11, 12, 13, 14, 15}

  /** The last gate that has passed once step `k` is completed. */
  function LastGate(k: int): int {
    if k <= 31 then 8 else if k == 32 then 9 else if k <= 35 then 10 else if k <= 37 then 11 else k - 26
  }

  /** The document of a completed step, bound to one commit throughout. */
  function DocumentOf(n: int, sha: Word): Receipt {
    EMPTY.(started := Flag(true), status := Str(Pass), gateStatus := Str(Pass), contentCommit := Str(sha),
           assessedCommit := Str(sha), ciHead := Str(sha), reportCommit := Str(sha),
           ciRun := Str(ContentCiRun), ciResult := Str(if n == 41 then Free("PASS; documented") else Pass),
           receipt := Str(if n == 36 then ResilienceReview else TechnicalWriterReview),
           gateReceipt := Str(if n == 36 then ResilienceGate else ReleaseGate),
           validator := Str(DocumentationValidator), validatorResult := Str(Free("PASS; documented")))
  }

  /** The state that completing step `k` leaves: the pointer on the next step, or nowhere after the last. */
  function AfterStep(k: int, sha: Word): State {
    State(
      if k == 41 then None else Num(k + 1), if k == 41 then None else Str(Role(k + 1)),
      if k == 41 then None else Str(Title(k + 1)), Num(k), Str(Role(k)), Str(Title(k)), Str(sha),
      if k == 41 then None else Str(Title(k + 1)), if k == 41 then Str(Complete) else None, None,
      map n | n in STEPS :: Flag(n <= k), map n | n in STEPS :: Str(if n <= k then Completed(n) else NotStarted),
      map n | n in STEPS :: Doc(DocumentOf(n, sha)), false,
      map g | g in GATES :: Str(if g <= LastGate(k) then Pass else Pending), Flag(false),
      map[TechnicalWriterReview := {sha, ContentCiRun}, ReleaseGate := {sha, ContentCiRun}])
  }

  lemma AfterStepPointer(k: int, sha: Word)
    requires 30 <= k <= 40
    ensures Pointer(AfterStep(k, sha))
  {}

  /** Its steps and documents, one by one. */
  lemma AfterStepShows(k: int, sha: Word, n: int)
    requires 30 <= k <= 41 && n in STEPS && IsCommitSha(Str(sha))
    ensures var s := AfterStep(k, sha);
            && (n <= k ==> Done(s, n)) && (n > k ==> Unstarted(s, n))
            && Section(s, n) == Doc(DocumentOf(n, sha)) && (n <= k && n < 41 ==> StepFull(s, n))
  {}

  lemma AfterStepGate(k: int, sha: Word, g: int)
    requires 30 <= k <= 41 && g in GATES
    ensures GateFits(AfterStep(k, sha), k, g)
  {}

  /** The step is complete in every respect that is ever looked at. */
  predicate StepFull(s: State, n: int) {
    Done(s, n) && DocPassed(s, n) && GatePassed(s, n) && Signed(s, n) && BuiltByCi(s, n) && Assessed(s, n)
  }

  /** The gate has passed exactly if it belongs to a step up to `k`. */
  predicate GateFits(s: State, k: int, g: int) { GateIs(s, g, if g <= LastGate(k) then Pass else Pending) }

  /** The entry of a position speaks of nothing at or after it. */
  lemma EntryInRange(p: int)
    requires 31 <= p <= 41
    ensures var e := Table(p);
            && (forall n | n in e.done :: 30 <= n < p) && (forall n | n in e.docs :: 30 <= n < p)
            && (forall n | n in e.gated :: 30 <= n < p) && (forall n | n in e.signed :: 30 <= n < p)
            && (forall n | n in e.ci :: 30 <= n < p) && (forall n | n in e.assessed :: 30 <= n < p)
            && (forall g | g in e.passed :: 6 <= g <= LastGate(p - 1))
            && (forall g | g in e.pending :: LastGate(p - 1) < g <= 15)
  {}

  /** Both titles and the last commit are recorded. */
  predicate HandedOver(s: State, p: int) {
    && s.lastTitle == Str(Title(p - 1)) && s.currentTitle == Str(Title(p))
    && s.lastCommit == Read(Section(s, p - 1)).contentCommit
  }

  ghost predicate CompleteUpTo(s: State, k: int) {
    (forall n | 30 <= n <= k :: StepFull(s, n)) && (forall g | 6 <= g <= 15 :: GateFits(s, k, g))
  }

  /** A state in which every step up to `k` is complete in every respect shows what the next entry lists. */
  lemma CompleteShows(s: State, k: int)
    requires 30 <= k <= 40 && HandedOver(s, k + 1) && Unblocked(s) && CompleteUpTo(s, k)
    ensures Shows(s, k + 1, Table(k + 1))
  {
    var e := Table(k + 1);
    EntryInRange(k + 1);
    forall n | n in e.done ensures Done(s, n) { assert StepFull(s, n); }
    forall n | n in e.docs ensures DocPassed(s, n) { assert StepFull(s, n); }
    forall n | n in e.gated ensures GatePassed(s, n) { assert StepFull(s, n); }
    forall n | n in e.signed ensures Signed(s, n) { assert StepFull(s, n); }
    forall n | n in e.ci ensures BuiltByCi(s, n) { assert StepFull(s, n); }
    forall n | n in e.assessed ensures Assessed(s, n) { assert StepFull(s, n); }
    forall g | g in e.passed ensures GateIs(s, g, Pass) { assert GateFits(s, k, g); }
    forall g | g in e.pending ensures GateIs(s, g, Pending) { assert GateFits(s, k, g); }
  }

  lemma AfterStepComplete(k: int, sha: Word)
    requires 30 <= k <= 40 && IsCommitSha(Str(sha))
    ensures CompleteUpTo(AfterStep(k, sha), k)
  {
    forall n | 30 <= n <= k ensures StepFull(AfterStep(k, sha), n) { AfterStepShows(k, sha, n); }
    forall g | 6 <= g <= 15 ensures GateFits(AfterStep(k, sha), k, g) { AfterStepGate(k, sha, g); }
  }

  lemma CompleteRecorded(s: State, k: int)
    requires 30 <= k <= 40 && HandedOver(s, k + 1) && Unblocked(s) && CompleteUpTo(s, k)
    requires Special(s, k + 1) && Unstarted(s, k + 1)
    ensures Recorded(s, k + 1)
  {
    CompleteShows(s, k);
  }

  lemma AfterStepHandover(k: int, sha: Word)
    requires 30 <= k <= 40 && IsCommitSha(Str(sha))
    ensures HandedOver(AfterStep(k, sha), k + 1) && Unblocked(AfterStep(k, sha))
  {
    AfterStepShows(k, sha, k);
  }

  lemma AfterStepSpecial(k: int, sha: Word)
    requires 30 <= k <= 40 && IsCommitSha(Str(sha))
    ensures Special(AfterStep(k, sha), k + 1)
  {
    AfterStepShows(k, sha, 32);
    AfterStepShows(k, sha, 36);
    AfterStepGate(k, sha, 11);
    AfterStepGate(k, sha, 12);
  }

  /** Any state that shows all this is accepted by the closure of step `k`. */
  lemma CompleteIsClosed(s: State, k: int)
    requires 30 <= k <= 40 && At(s, k + 1) && Pointer(s)
    requires HandedOver(s, k + 1) && Unblocked(s) && CompleteUpTo(s, k)
    requires Special(s, k + 1) && Unstarted(s, k + 1)
    ensures Closed(s, k)
  {
    CompleteRecorded(s, k);
    if k == 34 {
      RowAtEarlyPointer(s, 35);
      AcceptsRow(s, 35);
      Step34Flat(s);
    } else {
      ClosureIsRecorded(s, k);
    }
  }

  lemma TerminalWhenComplete(s: State)
    requires s.sequenceStatus == Str(Complete) && s.currentStep == None && s.currentRole == None
    requires s.currentTitle == None && s.nextStep == None && !s.hasStep42Key && Finished(s, 41) && Unblocked(s)
    requires (forall n | 29 <= n <= 41 :: Done(s, n)) && (forall g | 0 <= g <= 15 :: GateIs(s, g, Pass))
    requires DocPassed(s, 29) && GatePassed(s, 29) && Receipt41(s)
    ensures Step41Closed(s)
  {
    assert GateIs(s, 0, Pass) && GateIs(s, 1, Pass) && GateIs(s, 2, Pass) && GateIs(s, 3, Pass) && GateIs(s, 4, Pass);
    assert GateIs(s, 5, Pass) && GateIs(s, 6, Pass) && GateIs(s, 7, Pass) && GateIs(s, 8, Pass) && GateIs(s, 9, Pass);
    assert GateIs(s, 10, Pass) && GateIs(s, 11, Pass) && GateIs(s, 12, Pass) && GateIs(s, 13, Pass);
    assert GateIs(s, 14, Pass) && GateIs(s, 15, Pass);
  }

  lemma AfterLastReceipt(sha: Word)
    requires IsCommitSha(Str(sha))
    ensures Receipt41(AfterStep(41, sha))
  {
    AfterStepShows(41, sha, 41);
  }

  lemma AfterLastStep(sha: Word)
    requires IsCommitSha(Str(sha))
    ensures Step41Closed(AfterStep(41, sha))
  {
    var s := AfterStep(41, sha);
    forall n | 29 <= n <= 41 ensures Done(s, n) { AfterStepShows(41, sha, n); }
    forall g | 0 <= g <= 15 ensures GateIs(s, g, Pass) { AfterStepGate(41, sha, g); }
    AfterStepShows(41, sha, 29);
    AfterLastReceipt(sha);
    TerminalWhenComplete(s);
  }

  /** Everything that step `k` leaves for its closure to look at. */
  ghost predicate Ready(s: State, k: int)
    requires 30 <= k <= 40
  {
    && Pointer(s) && At(s, k + 1) && HandedOver(s, k + 1) && Unblocked(s)
    && CompleteUpTo(s, k) && Special(s, k + 1) && Unstarted(s, k + 1)
  }

  lemma ReadyIsClosed(s: State, k: int)
    requires 30 <= k <= 40 && Ready(s, k)
    ensures Closed(s, k)
  {
    CompleteIsClosed(s, k);
  }

  lemma AfterStepOpen(k: int, sha: Word)
    requires 30 <= k <= 40 && IsCommitSha(Str(sha))
    ensures Unstarted(AfterStep(k, sha), k + 1)
  {
    AfterStepShows(k, sha, k + 1);
  }

  lemma AfterStepReady(k: int, sha: Word)
    requires 30 <= k <= 40 && IsCommitSha(Str(sha))
    ensures Ready(AfterStep(k, sha), k)
  {
    AfterStepPointer(k, sha);
    AfterStepComplete(k, sha);
    AfterStepHandover(k, sha);
    AfterStepSpecial(k, sha);
    AfterStepOpen(k, sha);
  }

  lemma AfterStepClosed(k: int, sha: Word)
    requires 30 <= k <= 41 && IsCommitSha(Str(sha))
    ensures Closed(AfterStep(k, sha), k)
  {
    if k == 41 {
      AfterLastStep(sha);
    } else {
      AfterStepReady(k, sha);
      ReadyIsClosed(AfterStep(k, sha), k);
    }
  }

  /** For every step: the state that completing it leaves is accepted by its own closure and by every
      earlier one from 30 on, by no later one, and its gates are coherent. */
  lemma CompletedStepIsAccepted(k: int, sha: Word, j: int)
    requires 30 <= k <= 41 && 30 <= j <= 41 && IsCommitSha(Str(sha))
    ensures Closed(AfterStep(k, sha), j) <==> j <= k
  {
    var s := AfterStep(k, sha);
    AfterStepClosed(k, sha);
    if k == 34 && j < 34 {
      AfterStepShows(34, sha, 35);
      Step34KeepsEarlier(s, j);
    } else if j <= k {
      LaterClosureKeepsEarlier(s, j, k);
    } else if Closed(s, j) {
      if j == 34 { Step34Flat(s); } else { ClosedFlat(s, j); }
      assert false;
    }
  }

  // ---------------------------------------------------------------- coherent gates are reached

  lemma AfterStepGate7(k: int, sha: Word)
    requires 30 <= k <= 41 && IsCommitSha(Str(sha))
    ensures Step29Closed(AfterStep(k, sha))
  {
    AfterStepShows(k, sha, 29);
    AfterStepGate(k, sha, 7);
  }

  lemma AfterStepReceipts(k: int, sha: Word)
    requires 30 <= k <= 41 && IsCommitSha(Str(sha))
    ensures Receipt36(AfterStep(k, sha)) && Receipt38(AfterStep(k, sha))
  {
    AfterStepShows(k, sha, 36);
    AfterStepShows(k, sha, 38);
  }

  /** A passed gate is backed by the closure or the receipt it stands for. */
  lemma PassedIsBacked(s: State, g: int, k: int)
    requires 30 <= k <= 41 && 7 <= g <= LastGate(k) && Gate(s, g) == Str(Pass)
    requires Step29Closed(s) && Receipt36(s) && Receipt38(s) && forall j | 30 <= j <= k :: Closed(s, j)
    ensures GateBacked(s, g)
  {
    assert g == 8 ==> Closed(s, 30);
    assert g == 9 ==> Closed(s, 32);
    assert g == 10 ==> Closed(s, 33);
    assert g >= 13 ==> Closed(s, g + 26);
  }

  lemma PendingIsBacked(s: State, g: int)
    requires Gate(s, g) == Str(Pending)
    ensures GateBacked(s, g)
  {}

  lemma AfterStepGateStatus(k: int, sha: Word, g: int)
    requires 30 <= k <= 41 && g in GATES
    ensures Gate(AfterStep(k, sha), g) == Str(if g <= LastGate(k) then Pass else Pending)
  {
    AfterStepGate(k, sha, g);
  }

  lemma AfterStepBacked(k: int, sha: Word, g: int)
    requires 30 <= k <= 41 && IsCommitSha(Str(sha)) && 7 <= g <= 15
    ensures GateBacked(AfterStep(k, sha), g)
  {
    AfterStepGateStatus(k, sha, g);
    if g <= LastGate(k) {
      AfterStepGate7(k, sha);
      AfterStepReceipts(k, sha);
      forall j | 30 <= j <= k ensures Closed(AfterStep(k, sha), j) { CompletedStepIsAccepted(k, sha, j); }
      PassedIsBacked(AfterStep(k, sha), g, k);
    } else {
      PendingIsBacked(AfterStep(k, sha), g);
    }
  }

  /** The gates that completing a step leaves are coherent. */
  lemma AfterStepCoherent(k: int, sha: Word)
    requires 30 <= k <= 41 && IsCommitSha(Str(sha))
    ensures PriorGatesCoherent(AfterStep(k, sha))
  {
    var s := AfterStep(k, sha);
    AfterStepGate(k, sha, 3);
    AfterStepGate(k, sha, 4);
    AfterStepGate(k, sha, 5);
    AfterStepGate(k, sha, 6);
    forall g | 7 <= g <= 15 ensures GateBacked(s, g) { AfterStepBacked(k, sha, g); }
  }

  // ---------------------------------------------------------------- pointers and held-up steps

  /** A bare pointer on a step. */
  function PointerState(p: int, lastRole: Word): State {
    AfterStep(30, FinalHead).(currentStep := Num(p), currentRole := Str(Role(p)), lastStep := Num(p - 1),
                              lastRole := Str(lastRole), nextStep := Str(Title(p)))
  }

  /** A pointer on any step from 6 to 41 is authorised under every range that contains it, with the role of
      the step before as the last one; step 26 also takes the other name of that role. */
  lemma PointerIsAuthorized(p: int, lo: int, hi: int)
    requires 6 <= p <= 41 && lo <= p <= hi
    ensures Authorized(PointerState(p, Role(p - 1)), lo, hi)
    ensures Authorized(PointerState(p, UxDesigner), lo, hi) <==> p == 6 || p == 26
  {
    AuthorizedFlat(PointerState(p, Role(p - 1)), lo, hi);
  }

  /** Step 38 begun after step 37, and held up with its gate open. */
  function HeldUp(sha: Word): State {
    var s := AfterStep(37, sha);
    s.(started := s.started[38 := Flag(true)], status := s.status[38 := Str(IncompleteFullRegressionBlocker)])
  }

  lemma HeldUpStep(sha: Word, n: int)
    requires 30 <= n <= 37 && IsCommitSha(Str(sha))
    ensures StepFull(HeldUp(sha), n)
  {
    AfterStepShows(37, sha, n);
  }

  lemma HeldUpGate(sha: Word, g: int)
    requires g in GATES
    ensures GateFits(HeldUp(sha), 37, g)
  {
    AfterStepGate(37, sha, g);
  }

  lemma HeldUpPointer(sha: Word)
    requires IsCommitSha(Str(sha))
    ensures var s := HeldUp(sha);
            && Pointer(s) && At(s, 38) && HandedOver(s, 38) && Unblocked(s)
            && Get(s.started, 38) == Flag(true) && Get(s.status, 38) == Str(IncompleteFullRegressionBlocker)
  {
    AfterStepPointer(37, sha);
    AfterStepHandover(37, sha);
  }

  lemma HeldUpNext(sha: Word)
    ensures Unstarted(HeldUp(sha), 39)
  {}

  lemma HeldUpComplete(sha: Word)
    requires IsCommitSha(Str(sha))
    ensures CompleteUpTo(HeldUp(sha), 37)
  {
    forall n | 30 <= n <= 37 ensures StepFull(HeldUp(sha), n) { HeldUpStep(sha, n); }
    forall g | 6 <= g <= 15 ensures GateFits(HeldUp(sha), 37, g) { HeldUpGate(sha, g); }
  }

  lemma CompleteIsOpen38(s: State)
    requires At(s, 38) && HandedOver(s, 38) && Unblocked(s) && CompleteUpTo(s, 37) && Unstarted(s, 39)
    requires Get(s.started, 38) == Flag(true) && Get(s.status, 38) == Str(IncompleteFullRegressionBlocker)
    ensures Open38(s)
  {
    forall n | n in OPEN38.done ensures Done(s, n) { assert StepFull(s, n); }
    assert StepFull(s, 37);
    forall g | g in OPEN38.passed ensures GateIs(s, g, Pass) { assert GateFits(s, 37, g); }
    forall g | g in OPEN38.pending ensures GateIs(s, g, Pending) { assert GateFits(s, 37, g); }
  }

  lemma Open38IsHeldUp(s: State)
    requires Pointer(s) && At(s, 38) && Open38(s)
    ensures Closed(s, 37) && Step38Incomplete(s) && !Closed(s, 38)
  {
    ClosureIsRecorded(s, 37);
    ClosureIsRecorded(s, 38);
    AcceptsOpen38(s);
    LateClosuresFlat(s);
  }

  /** With step 38 held up step 37 stays closed, step 38 is not, and the handoff says so. */
  lemma HeldUpIsAccepted(sha: Word)
    requires IsCommitSha(Str(sha))
    ensures var s := HeldUp(sha); Closed(s, 37) && Step38Incomplete(s) && !Closed(s, 38)
  {
    HeldUpPointer(sha);
    HeldUpComplete(sha);
    HeldUpNext(sha);
    CompleteIsOpen38(HeldUp(sha));
    Open38IsHeldUp(HeldUp(sha));
  }

  /** Step 31 implemented, and blocked by the final head's external CI alone. */
  function ExternallyBlocked(sha: Word): State {
    var s := AfterStep(30, sha);
    s.(started := s.started[31 := Flag(true)], status := s.status[31 := Str(BlockedExternalFinalCi)],
       sections := s.sections[31 := Doc(BlockedDocument(sha))], step31BlockingReason := Str(BlockedExternalFinalCi),
       blocked := Flag(true))
  }

  function BlockedDocument(sha: Word): Receipt {
    DocumentOf(31, sha).(
      implementationResult := Str(Pass), finalHead := Str(FinalHead), finalHeadCiRun := Str(FinalHeadCiRun),
      finalHeadCiResult := Str(BlockedExternal), finalHeadCiBlocker := Str(BillingRestriction))
  }

  lemma BlockedPointer(sha: Word)
    ensures var s := ExternallyBlocked(sha);
            && Current(s, 31) && Finished(s, 30) && s.nextStep == Str(Title(31)) && s.lastCommit == Str(sha)
            && Pointer(s) && s.step31BlockingReason == Str(BlockedExternalFinalCi) && s.blocked == Flag(true)
  {}

  lemma BlockedSteps(sha: Word)
    ensures var s := ExternallyBlocked(sha);
            && Done(s, 29) && Done(s, 30) && Unstarted(s, 32)
            && Get(s.started, 31) == Flag(true) && Get(s.status, 31) == Str(BlockedExternalFinalCi)
  {}

  lemma BlockedSections(sha: Word)
    ensures var s := ExternallyBlocked(sha);
            Section(s, 29) == Doc(DocumentOf(29, sha)) && Section(s, 31) == Doc(BlockedDocument(sha))
  {}

  lemma BlockedGate(sha: Word, g: int)
    requires g in GATES
    ensures GateFits(ExternallyBlocked(sha), 30, g)
  {}

  lemma BlockedGates(sha: Word)
    ensures GatesPass(ExternallyBlocked(sha), 6, 8) && Gate(ExternallyBlocked(sha), 9) == Str(Pending)
  {
    BlockedGate(sha, 6);
    BlockedGate(sha, 7);
    BlockedGate(sha, 8);
    BlockedGate(sha, 9);
  }

  lemma BlockedIsRecognised(s: State, sha: Word)
    requires Current(s, 31) && Finished(s, 30) && s.nextStep == Str(Title(31)) && s.lastCommit == Str(sha)
    requires Pointer(s) && s.step31BlockingReason == Str(BlockedExternalFinalCi) && s.blocked == Flag(true)
    requires Done(s, 30) && Unstarted(s, 32) && Section(s, 31) == Doc(BlockedDocument(sha))
    requires Get(s.started, 31) == Flag(true) && Get(s.status, 31) == Str(BlockedExternalFinalCi)
    requires GatesPass(s, 6, 8) && Gate(s, 9) == Str(Pending) && IsCommitSha(Str(sha))
    ensures Step31ExternalCiBlocked(s) && !Step30Closed(s)
  {
    ClosedNeverExternallyBlocked(s);
    AuthorizedFlat(s, 31, 31);
  }

  /** That state is recognised, and step 30 is not closed in it. */
  lemma ExternallyBlockedIsRecognised(sha: Word)
    requires IsCommitSha(Str(sha))
    ensures Step31ExternalCiBlocked(ExternallyBlocked(sha)) && !Step30Closed(ExternallyBlocked(sha))
  {
    BlockedPointer(sha);
    BlockedSteps(sha);
    BlockedSections(sha);
    BlockedGates(sha);
    BlockedIsRecognised(ExternallyBlocked(sha), sha);
  }

  lemma BlockedBacked(sha: Word, g: int)
    requires IsCommitSha(Str(sha)) && 7 <= g <= 15
    ensures GateBacked(ExternallyBlocked(sha), g)
  {
    BlockedGate(sha, g);
    if g == 7 {
      BlockedSteps(sha);
      BlockedSections(sha);
    } else if g == 8 {
      ExternallyBlockedIsRecognised(sha);
    }
  }

  /** Its gates are coherent all the same. */
  lemma ExternallyBlockedIsCoherent(sha: Word)
    requires IsCommitSha(Str(sha))
    ensures PriorGatesCoherent(ExternallyBlocked(sha))
  {
    BlockedGate(sha, 3);
    BlockedGate(sha, 4);
    BlockedGate(sha, 5);
    BlockedGate(sha, 6);
    forall g | 7 <= g <= 15 ensures GateBacked(ExternallyBlocked(sha), g) { BlockedBacked(sha, g); }
  }

  // ---------------------------------------------------------------- the building blocks in the fields

  predicate HexChar(c: char) { '0' <= c <= '9' || 'a' <= c <= 'f' || 'A' <= c <= 'F' }

  lemma {:induction false} AllHexExactly(s: string)
    ensures AllHex(s) <==> forall i | 0 <= i < |s| :: HexChar(s[i])
  {
    if s != [] {
      AllHexExactly(s[1..]);
      assert forall i | 0 < i < |s| :: s[i] == s[1..][i - 1];
    }
  }

  lemma {:induction false} AllDigitsExactly(s: string)
    ensures AllDigits(s) <==> forall i | 0 <= i < |s| :: '0' <= s[i] <= '9'
  {
    if s != [] {
      AllDigitsExactly(s[1..]);
      assert forall i | 0 < i < |s| :: s[i] == s[1..][i - 1];
    }
  }

  /** A commit is a text of forty hexadecimal digits, the known final head among them. */
  lemma CommitExactly(v: Value)
    ensures IsCommitSha(v)
       <==> v == Str(FinalHead)
            || (v.Str? && v.w.Free? && |v.w.s| == 40 && forall i | 0 <= i < 40 :: HexChar(v.w.s[i]))
  {
    if v.Str? && v.w.Free? { AllHexExactly(v.w.s); }
  }

  /** Steps, gates and documents are read from the fields named after them; what is missing counts as absent. */
  lemma FieldsExactly(s: State, n: int, w: Word)
    ensures Done(s, n) <==> RecordedDone(s, n)
    ensures Unstarted(s, n)
       <==> n in s.started && s.started[n] == Flag(false) && n in s.status && s.status[n] == Str(NotStarted)
    ensures Gate(s, n) == Str(w) <==> n in s.gates && s.gates[n] == Str(w)
    ensures DocPassed(s, n) <==> n in s.sections && s.sections[n].Doc? && s.sections[n].r.started == Flag(true)
                                 && s.sections[n].r.status == Str(Pass)
    ensures GatePassed(s, n) <==> n in s.sections && s.sections[n].Doc? && s.sections[n].r.gateStatus == Str(Pass)
  {}

  /** A well-formed pointer names a step from 6 to 41 with its role, the step before as the last one, with its
      role, and a next step whose text begins with the step's own name. */
  lemma PointerExactly(s: State)
    ensures Pointer(s)
       <==> s.currentStep.Num? && var p := s.currentStep.n;
            && 6 <= p <= 41 && s.lastStep == Num(p - 1) && s.currentRole == Str(Role(p))
            && (p == 6 || s.lastRole == Str(Role(p - 1)) || (p == 26 && s.lastRole == Str(UxDesigner)))
            && (s.nextStep == Str(Title(p)) || BeginsWith(s.nextStep, "Step" + Text.Decimal(p)))
  {
    if s.nextStep.Str? && s.nextStep.w.Free? { assert s.nextStep == Str(Free(s.nextStep.w.s)); }
  }

  /** An otherwise unknown text with this beginning. */
  ghost predicate BeginsWith(v: Value, beginning: string) {
    exists text: string :: v == Str(Free(text)) && beginning <= text
  }

  /** A receipt passed for a commit and was reported, and built by CI, for that very commit. */
  ghost predicate BoundReceipt(s: State, n: int) {
    && DocPassed(s, n) && IsCommitSha(s.sections[n].r.contentCommit)
    && s.sections[n].r.ciResult == Str(Pass) && s.sections[n].r.ciHead == s.sections[n].r.contentCommit
    && s.sections[n].r.reportCommit == s.sections[n].r.contentCommit
  }

  lemma ReceiptsExactly(s: State)
    ensures Receipt35(s) <==> BoundReceipt(s, 35)
    ensures Receipt36(s) <==> BoundReceipt(s, 36) && s.sections[36].r.gateStatus == Str(Pass)
                              && s.sections[36].r.receipt == Str(ResilienceReview)
                              && s.sections[36].r.gateReceipt == Str(ResilienceGate)
    ensures Receipt37(s) <==> BoundReceipt(s, 37)
    ensures Receipt38(s) <==> DocPassed(s, 38) && IsCommitSha(s.sections[38].r.contentCommit)
                              && s.sections[38].r.assessedCommit == s.sections[38].r.contentCommit
  {}

  /** The document of step 41: a validated build of the last commit, whose review and gate files exist and
      mention that commit and its CI run. */
  ghost predicate FinalReceipt(s: State) {
    41 in s.sections && s.sections[41].Doc? && var r := s.sections[41].r;
    && r.status == Str(Pass) && IsCommitSha(r.contentCommit) && s.lastCommit == r.contentCommit
    && r.ciRun.Str? && IsDigits(r.ciRun.w) && r.validator == Str(DocumentationValidator)
    && BeginsWith(r.validatorResult, "PASS;") && BeginsWith(r.ciResult, "PASS;")
    && Mentioned(s, TechnicalWriterReview, r.receipt, r) && Mentioned(s, ReleaseGate, r.gateReceipt, r)
  }

  ghost predicate Mentioned(s: State, file: Word, named: Value, r: Receipt)
    requires r.contentCommit.Str? && r.ciRun.Str?
  {
    named == Str(file) && file in s.files && {r.contentCommit.w, r.ciRun.w} <= s.files[file]
  }

  lemma FinalReceiptExactly(s: State)
    ensures Receipt41(s) <==> FinalReceipt(s)
  {
    if Receipt41(s) {
      var r := s.sections[41].r;
      assert r.validatorResult == Str(Free(r.validatorResult.w.s)) && r.ciResult == Str(Free(r.ciResult.w.s));
    }
  }

  /** The terminal closure: no pointer is left, steps 30 to 41 are completed and nothing of a step 42 is
      recorded, step 29 passed its gate, all sixteen gates have passed, nothing is blocked. */
  ghost predicate AllRecorded(s: State) {
    && s.sequenceStatus == Str(Complete) && s.currentStep == None
    && s.currentRole == None && s.currentTitle == None && s.nextStep == None
    && s.lastStep == Num(41) && s.lastRole == Str(Role(41)) && s.lastTitle == Str(Title(41))
    && (forall n | 29 <= n <= 41 :: RecordedDone(s, n)) && !s.hasStep42Key
    && DocPassed(s, 29) && GatePassed(s, 29) && (forall g | 0 <= g <= 15 :: GateIs(s, g, Pass))
    && s.blocked == Flag(false) && Receipt41(s)
  }

  lemma TerminalSteps(s: State, n: int)
    requires Step41Closed(s) && 29 <= n <= 41
    ensures RecordedDone(s, n)
  {
    assert Done(s, n);
  }

  lemma TerminalGate(s: State, g: int)
    requires Step41Closed(s) && 0 <= g <= 15
    ensures GateIs(s, g, Pass)
  {}

  lemma TerminalRecords(s: State)
    requires Step41Closed(s)
    ensures AllRecorded(s)
  {
    forall n | 29 <= n <= 41 ensures RecordedDone(s, n) { TerminalSteps(s, n); }
    forall g | 0 <= g <= 15 ensures GateIs(s, g, Pass) { TerminalGate(s, g); }
  }

  lemma RecordedIsTerminal(s: State)
    requires AllRecorded(s)
    ensures Step41Closed(s)
  {
    forall n | 29 <= n <= 41 ensures Done(s, n) { assert RecordedDone(s, n); }
    TerminalWhenComplete(s);
  }

  lemma TerminalExactly(s: State)
    ensures Step41Closed(s) <==> AllRecorded(s)
  {
    if Step41Closed(s) { TerminalRecords(s); }
    if AllRecorded(s) { RecordedIsTerminal(s); }
  }

  /** The externally blocked state, field by field. */
  ghost predicate BlockedRecord(s: State) {
    && s.currentStep == Num(31) && s.currentRole == Str(Role(31)) && s.currentTitle == Str(Title(31))
    && s.lastStep == Num(30) && s.lastRole == Str(Role(30)) && s.lastTitle == Str(Title(30))
    && s.nextStep == Str(Title(31)) && s.blocked == Flag(true)
    && s.step31BlockingReason == Str(BlockedExternalFinalCi)
    && RecordedDone(s, 30) && 31 in s.started && s.started[31] == Flag(true)
    && 31 in s.status && s.status[31] == Str(BlockedExternalFinalCi) && Unstarted(s, 32)
    && GateIs(s, 6, Pass) && GateIs(s, 7, Pass) && GateIs(s, 8, Pass) && GateIs(s, 9, Pending)
    && DocPassed(s, 31) && BlockedFields(s.sections[31].r) && s.lastCommit == s.sections[31].r.contentCommit
  }

  predicate BlockedFields(r: Receipt) {
    && IsCommitSha(r.contentCommit) && r.implementationResult == Str(Pass)
    && r.ciRun == Str(ContentCiRun) && r.ciResult == Str(Pass)
    && r.finalHead == Str(FinalHead) && r.finalHeadCiRun == Str(FinalHeadCiRun)
    && r.finalHeadCiResult == Str(BlockedExternal) && r.finalHeadCiBlocker == Str(BillingRestriction)
  }

  lemma BlockedExactly(s: State)
    ensures Step31ExternalCiBlocked(s) <==> BlockedRecord(s)
  {
    AuthorizedFlat(s, 31, 31);
  }

  /** What stands behind a passed gate. */
  predicate Behind(s: State, g: int)
    requires 7 <= g <= 15
  {
    match g
    case 7 => Step29Closed(s)
    case 8 => Closed(s, 30) || Step31ExternalCiBlocked(s)
    case 9 => Closed(s, 32)
    case 10 => Closed(s, 33)
    case 11 => Receipt36(s) && GateIs(s, 11, Pass)
    case 12 => Receipt38(s) && GateIs(s, 12, Pass)
    case _ => Closed(s, g + 26)
  }

  lemma BehindExactly(s: State, g: int)
    requires 7 <= g <= 15
    ensures GateBacked(s, g) <==> GateIs(s, g, Pending) || Behind(s, g)
  {}

  /** Gates are coherent exactly if G3 to G6 have one of their statuses, and each later one is pending or has
      its own closure or receipt behind it. */
  lemma CoherentExactly(s: State)
    ensures PriorGatesCoherent(s)
       <==> && (GateIs(s, 3, Pending) || GateIs(s, 3, Pass) || GateIs(s, 3, Blocked))
            && (GateIs(s, 4, Pending) || GateIs(s, 4, Pass))
            && (GateIs(s, 5, Pending) || GateIs(s, 5, ReviewOnlyValidated) || GateIs(s, 5, Pass))
            && (GateIs(s, 6, Pending) || GateIs(s, 6, Pass))
            && forall g | 7 <= g <= 15 :: GateIs(s, g, Pending) || Behind(s, g)
  {
    forall g | 7 <= g <= 15 ensures GateBacked(s, g) <==> GateIs(s, g, Pending) || Behind(s, g) { BehindExactly(s, g); }
  }

  /** The gate of step 29. */
  lemma Step29Exactly(s: State)
    ensures Step29Closed(s) <==> DocPassed(s, 29) && GatePassed(s, 29) && RecordedDone(s, 29) && GateIs(s, 7, Pass)
  {}
}
