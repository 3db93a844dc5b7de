/** The durable execution-state recogniser (tools/execution_state.py): which specialist step a
    recorded state has reached, and whether the gates it reports are backed by evidence.

    A state is an arbitrary JSON dictionary.  It is modelled as a record whose every field holds
    an arbitrary `Value`; the texts the recogniser compares with are the words below, and any
    other text is `Free`. */
module ExecutionState {
  import Text

  // ---------------------------------------------------------------- data model

  /** A text.  `Role(n)` is the role the step table names for step `n` (steps 6 to 41) and
      `Title(n)` is its "StepN - ..." heading. */
  datatype Word =
    | Pass | Pending | Blocked | Incomplete | ReviewOnlyValidated | NotStarted | Complete
    | Completed(step: int)
    | IncompleteFullRegressionBlocker | BlockedExternalFinalCi | BlockedExternal | BillingRestriction
    | Role(step: int) | UxDesigner
    | Title(step: int)
    | ContentCiRun | FinalHead | FinalHeadCiRun
    | ResilienceReview | ResilienceGate | TechnicalWriterReview | ReleaseGate | DocumentationValidator
    | Free(s: string)

  datatype Value = None | Flag(b: bool) | Num(n: int) | Str(w: Word) | Doc(r: Receipt) | Other

  /** A nested per-step document: the union of the keys the recogniser reads from one.
      `started` is the document's own stepNN_started, `gateStatus` its gNN_status. */
  datatype Receipt = Receipt(
    started: Value, status: Value, gateStatus: Value, contentCommit: Value,
    ciRun: Value, ciResult: Value, ciHead: Value, reportCommit: Value, assessedCommit: Value,
    receipt: Value, gateReceipt: Value, validator: Value, validatorResult: Value,
    implementationResult: Value, finalHead: Value, finalHeadCiRun: Value,
    finalHeadCiResult: Value, finalHeadCiBlocker: Value)

  const EMPTY := Receipt(None, None, None, None, None, None, None, None, None, None, None, None,
                         None, None, None, None, None, None)

  /** `sections[n]` is the document of step n, `started[n]`/`status[n]` are stepN_started and
      stepN_status, `gates[n]` is the entry of gate Gn; `files` gives, for every file of the
      repository named by its path, the words that occur in its text: what the terminal receipt check reads. */
  datatype State = State(
    currentStep: Value, currentRole: Value, currentTitle: Value,
    lastStep: Value, lastRole: Value, lastTitle: Value, lastCommit: Value,
    nextStep: Value, sequenceStatus: Value, step31BlockingReason: Value,
    started: map<int, Value>, status: map<int, Value>, sections: map<int, Value>,
    hasStep42Key: bool,
    gates: map<int, Value>, blocked: Value,
    files: map<Word, set<Word>>)

  function Get(m: map<int, Value>, k: int): Value { if k in m then m[k] else None }

  /** A missing section reads as the empty dictionary; an explicit null does not. */
  function Section(s: State, n: int): Value { if n in s.sections then s.sections[n] else Doc(EMPTY) }

  function Read(v: Value): Receipt { if v.Doc? then v.r else EMPTY }

  function Gate(s: State, g: int): Value { Get(s.gates, g) }

  predicate At(s: State, step: int) { s.currentStep == Num(step) }

  predicate Done(s: State, n: int) {
    Get(s.started, n) == Flag(true) && Get(s.status, n) == Str(Completed(n))
  }

  predicate Unstarted(s: State, n: int) {
    Get(s.started, n) == Flag(false) && Get(s.status, n) == Str(NotStarted)
  }

  /** Steps 30 to `last` are done. */
  predicate AllDone(s: State, last: int)
    requires 37 <= last <= 40
  {
    && Done(s, 30) && Done(s, 31) && Done(s, 32) && Done(s, 33) && Done(s, 34) && Done(s, 35) && Done(s, 36)
    && Done(s, 37) && (last >= 38 ==> Done(s, 38)) && (last >= 39 ==> Done(s, 39)) && (last >= 40 ==> Done(s, 40))
  }

  /** Gates `lo` to `hi` all have the status `w`. */
  predicate GatesAre(s: State, lo: int, hi: int, w: Word)
    requires 6 <= lo <= hi <= 15
  {
    && (lo <= 6 ==> Gate(s, 6) == Str(w))
    && (lo <= 7 <= hi ==> Gate(s, 7) == Str(w))
    && (lo <= 8 <= hi ==> Gate(s, 8) == Str(w))
    && (lo <= 9 <= hi ==> Gate(s, 9) == Str(w))
    && (lo <= 10 <= hi ==> Gate(s, 10) == Str(w))
    && (lo <= 11 <= hi ==> Gate(s, 11) == Str(w))
    && (lo <= 12 <= hi ==> Gate(s, 12) == Str(w))
    && (lo <= 13 <= hi ==> Gate(s, 13) == Str(w))
    && (lo <= 14 <= hi ==> Gate(s, 14) == Str(w))
    && (hi >= 15 ==> Gate(s, 15) == Str(w))
  }

  predicate FirstGatesPass(s: State) {
    && Gate(s, 0) == Str(Pass) && Gate(s, 1) == Str(Pass) && Gate(s, 2) == Str(Pass)
    && Gate(s, 3) == Str(Pass) && Gate(s, 4) == Str(Pass) && Gate(s, 5) == Str(Pass)
  }

  predicate GatesPass(s: State, lo: int, hi: int)
    requires 6 <= lo <= hi <= 15
  {
    GatesAre(s, lo, hi, Pass)
  }

  predicate GatesPending(s: State, lo: int, hi: int)
    requires 6 <= lo <= hi <= 15
  {
    GatesAre(s, lo, hi, Pending)
  }

  predicate Unblocked(s: State) { s.blocked == Flag(false) }

  predicate HexDigit(c: char) { '0' <= c <= '9' || 'a' <= c <= 'f' || 'A' <= c <= 'F' }

  predicate AllHex(s: string) { s == "" || (HexDigit(s[0]) && AllHex(s[1..])) }

  predicate AllDigits(s: string) { s == "" || ('0' <= s[0] <= '9' && AllDigits(s[1..])) }

  predicate IsCommitSha(v: Value) {
    v.Str? && (v.w == FinalHead || (v.w.Free? && |v.w.s| == 40 && AllHex(v.w.s)))
  }

  predicate Finished(s: State, step: int) {
    s.lastStep == Num(step) && s.lastRole == Str(Role(step)) && s.lastTitle == Str(Title(step))
  }

  predicate Current(s: State, step: int) {
    At(s, step) && s.currentRole == Str(Role(step)) && s.currentTitle == Str(Title(step))
  }

  // ---------------------------------------------------------------- receipts

  predicate ReceiptBound(r: Receipt) {
    && r.started == Flag(true) && r.status == Str(Pass) && IsCommitSha(r.contentCommit)
  }

  predicate CiBound(r: Receipt) {
    && r.ciResult == Str(Pass) && r.ciHead == r.contentCommit && r.reportCommit == r.contentCommit
  }

  predicate Receipt35(s: State) {
    Section(s, 35).Doc? && ReceiptBound(Read(Section(s, 35))) && CiBound(Read(Section(s, 35)))
  }

  predicate Receipt36(s: State) {
    var v := Section(s, 36);
    && v.Doc? && ReceiptBound(v.r) && CiBound(v.r) && v.r.gateStatus == Str(Pass)
    && v.r.receipt == Str(ResilienceReview)
    && v.r.gateReceipt == Str(ResilienceGate)
  }

  predicate Receipt37(s: State) {
    Section(s, 37).Doc? && ReceiptBound(Read(Section(s, 37))) && CiBound(Read(Section(s, 37)))
  }

  predicate Receipt38(s: State) {
    var v := Section(s, 38);
    v.Doc? && ReceiptBound(v.r) && v.r.assessedCommit == v.r.contentCommit
  }

  predicate FileContains(s: State, path: Value, expected: Word, a: Word, b: Word) {
    path == Str(expected) && expected in s.files && a in s.files[expected] && b in s.files[expected]
  }

  predicate IsDigits(w: Word) {
    w == ContentCiRun || w == FinalHeadCiRun || (w.Free? && w.s != "" && AllDigits(w.s))
  }

  predicate StartsPass(v: Value) { v.Str? && v.w.Free? && "PASS;" <= v.w.s }

  predicate Receipt41(s: State) {
    var v := Section(s, 41);
    && v.Doc?
    && IsCommitSha(v.r.contentCommit) && s.lastCommit == v.r.contentCommit
    && v.r.ciRun.Str? && IsDigits(v.r.ciRun.w)
    && v.r.status == Str(Pass)
    && v.r.validator == Str(DocumentationValidator)
    && StartsPass(v.r.validatorResult) && StartsPass(v.r.ciResult)
    && FileContains(s, v.r.receipt, TechnicalWriterReview, v.r.contentCommit.w, v.r.ciRun.w)
    && FileContains(s, v.r.gateReceipt, ReleaseGate, v.r.contentCommit.w, v.r.ciRun.w)
  }

  // ---------------------------------------------------------------- completion evidence

  predicate Step29Closed(s: State) {
    var v := Section(s, 29);
    && v.Doc? && v.r.started == Flag(true) && v.r.status == Str(Pass) && v.r.gateStatus == Str(Pass)
    && Done(s, 29) && Gate(s, 7) == Str(Pass)
  }

  /** The exact terminal closure. */
  predicate Step41Closed(s: State) {
    && s.sequenceStatus == Str(Complete)
    && s.currentStep == None && s.currentRole == None && s.currentTitle == None
    && Finished(s, 41) && s.nextStep == None
    && Done(s, 41) && !s.hasStep42Key && AllDone(s, 40)
    && Step29Closed(s) && FirstGatesPass(s) && GatesPass(s, 6, 15) && Unblocked(s) && Receipt41(s)
  }

  predicate Evidence31(s: State) {
    var v := Section(s, 31);
    && v.Doc? && Done(s, 31) && Done(s, 30)
    && v.r.started == Flag(true) && v.r.status == Str(Pass)
    && GatesPass(s, 6, 8) && Unblocked(s)
  }

  predicate Evidence33(s: State) {
    var v := Section(s, 33);
    var late := At(s, 37) || At(s, 38);
    && v.Doc? && Evidence31(s)
    && ( || (At(s, 34) && s.lastStep == Num(33) && s.lastRole == Str(Role(33)) && s.lastCommit == v.r.contentCommit)
         || (At(s, 35) && s.lastStep == Num(34) && s.lastRole == Str(Role(34)))
         || (At(s, 36) && s.lastStep == Num(35) && s.lastRole == Str(Role(35)))
         || (At(s, 37) && s.lastStep == Num(36) && s.lastRole == Str(Role(36)) && Receipt36(s))
         || (At(s, 38) && s.lastStep == Num(37) && s.lastRole == Str(Role(37)) && Receipt37(s)))
    && (At(s, 35) || At(s, 36) || late || (s.lastTitle == Str(Title(33)) && s.lastCommit == v.r.contentCommit))
    && IsCommitSha(v.r.contentCommit) && Done(s, 33)
    && ( || (At(s, 34) && Unstarted(s, 34))
         || (At(s, 35) && Done(s, 34))
         || (At(s, 36) && Done(s, 35))
         || (At(s, 37) && Done(s, 35) && Done(s, 36))
         || (At(s, 38) && Done(s, 35) && Done(s, 36) && Receipt37(s))
         || (late && Done(s, 36)))
    && v.r.started == Flag(true) && v.r.status == Str(Pass) && v.r.gateStatus == Str(Pass)
    && GatesPass(s, 9, 10)
    && Gate(s, 11) == Str(if late then Pass else Pending)
    && GatesPending(s, 12, 15) && Unblocked(s)
  }

  /** The conjuncts every branch of the step-34 evidence shares. */
  predicate Observed(s: State) {
    var v := Section(s, 34);
    && v.Doc? && Evidence33(s) && Done(s, 34)
    && v.r.started == Flag(true) && v.r.status == Str(Pass)
    && GatesPass(s, 6, 10) && GatesPending(s, 12, 15) && Unblocked(s)
  }

  predicate Evidence34(s: State) {
    var commit := Read(Section(s, 34)).contentCommit;
    && Observed(s)
    && ( || (Current(s, 35) && Finished(s, 34) && s.lastCommit == commit && IsCommitSha(commit)
             && Unstarted(s, 35) && Gate(s, 11) == Str(Pending))
         || (Receipt35(s) && Current(s, 36) && Finished(s, 35) && IsCommitSha(commit)
             && s.lastCommit == Read(Section(s, 35)).contentCommit && Gate(s, 11) == Str(Pending))
         || (Receipt36(s) && Current(s, 37) && Finished(s, 36) && Gate(s, 11) == Str(Pass) && Unstarted(s, 37))
         || (Receipt36(s) && Receipt37(s) && Current(s, 38) && Finished(s, 37) && Gate(s, 11) == Str(Pass)))
  }

  predicate Evidence35(s: State) {
    && Evidence34(s) && Receipt35(s)
    && ( || (Current(s, 36) && Finished(s, 35) && s.lastCommit == Read(Section(s, 35)).contentCommit)
         || (Current(s, 37) && s.lastStep == Num(36) && s.lastRole == Str(Role(36)) && Receipt36(s))
         || (Current(s, 38) && s.lastStep == Num(37) && s.lastRole == Str(Role(37)) && Receipt37(s)))
    && Done(s, 35)
    && (if At(s, 36) then Unstarted(s, 36) else Done(s, 36))
    && GatesPass(s, 6, 10)
    && Gate(s, 11) == Str(if At(s, 36) then Pending else Pass)
    && GatesPending(s, 12, 15) && Unblocked(s)
  }

  predicate Evidence36(s: State) {
    && Evidence35(s) && Receipt36(s)
    && ( || (Current(s, 37) && Finished(s, 36) && s.lastCommit == Read(Section(s, 36)).contentCommit)
         || (Current(s, 38) && Finished(s, 37) && Receipt37(s)))
    && Done(s, 36)
    && (if At(s, 37) then Unstarted(s, 37) else Done(s, 37) && Receipt37(s))
    && Gate(s, 11) == Str(Pass) && GatesPending(s, 12, 15) && Unblocked(s)
  }

  // ---------------------------------------------------------------- the direct closure of each step
  // What a closure asks of the state beside the authorised pointer.

  predicate Direct30(s: State) {
    Finished(s, 30) && Done(s, 30) && Unstarted(s, 31) && Gate(s, 8) == Str(Pass) && Unblocked(s)
  }

  predicate Direct31(s: State) {
    var v := Section(s, 31);
    && Finished(s, 31) && s.lastCommit == Read(v).contentCommit
    && Done(s, 31) && Done(s, 30) && Unstarted(s, 32)
    && v.Doc? && v.r.started == Flag(true) && v.r.status == Str(Pass)
    && GatesPass(s, 6, 8) && Unblocked(s)
  }

  predicate Direct32(s: State) {
    var v := Section(s, 32);
    && v.Doc? && Evidence31(s) && Finished(s, 32)
    && s.lastCommit == v.r.contentCommit && IsCommitSha(v.r.contentCommit)
    && Done(s, 32) && Unstarted(s, 33)
    && v.r.started == Flag(true) && (v.r.status == Str(Pass) || v.r.status == Str(Incomplete))
    && v.r.gateStatus == Str(Pass)
    && Gate(s, 9) == Str(Pass) && Gate(s, 10) == Str(Pending)
    && (Gate(s, 11) == Str(Pending) || (Gate(s, 11) == Str(Pass) && Receipt36(s)))
    && (Gate(s, 12) == Str(Pending) || (Gate(s, 12) == Str(Pass) && Receipt38(s)))
    && GatesPending(s, 13, 15) && Unblocked(s)
  }

  predicate Direct37(s: State) {
    && Evidence36(s) && Receipt37(s) && Current(s, 38) && Finished(s, 37)
    && s.lastCommit == Read(Section(s, 37)).contentCommit
    && Done(s, 36) && Done(s, 37) && Unstarted(s, 38)
    && GatesPass(s, 6, 11) && GatesPending(s, 12, 15) && Unblocked(s)
  }

  /** An active step-38 run whose gate is still open. */
  predicate Direct38Incomplete(s: State) {
    && Current(s, 38) && Finished(s, 37)
    && s.lastCommit == Read(Section(s, 37)).contentCommit
    && AllDone(s, 37)
    && Get(s.started, 38) == Flag(true) && Get(s.status, 38) == Str(IncompleteFullRegressionBlocker)
    && Unstarted(s, 39)
    && GatesPass(s, 6, 11) && GatesPending(s, 12, 15) && Unblocked(s) && Receipt37(s)
  }

  predicate Direct38(s: State) {
    var v := Section(s, 38);
    && v.Doc? && Current(s, 39) && Finished(s, 38)
    && s.lastCommit == v.r.contentCommit && IsCommitSha(v.r.contentCommit)
    && AllDone(s, 38) && Unstarted(s, 39)
    && v.r.started == Flag(true) && v.r.status == Str(Pass) && v.r.assessedCommit == v.r.contentCommit
    && GatesPass(s, 6, 12) && GatesPending(s, 13, 15) && Unblocked(s)
  }

  predicate Direct39(s: State) {
    var v := Section(s, 39);
    && v.Doc? && Current(s, 40) && Finished(s, 39)
    && s.lastCommit == v.r.contentCommit && IsCommitSha(v.r.contentCommit)
    && AllDone(s, 39) && Unstarted(s, 40)
    && v.r.started == Flag(true) && v.r.status == Str(Pass) && v.r.gateStatus == Str(Pass)
    && v.r.assessedCommit == v.r.contentCommit
    && GatesPass(s, 6, 13) && GatesPending(s, 14, 15) && Unblocked(s)
  }

  predicate Direct40(s: State) {
    && Current(s, 41) && Finished(s, 40) && IsCommitSha(s.lastCommit)
    && AllDone(s, 40) && Unstarted(s, 41)
    && GatesPass(s, 6, 14) && GatesPending(s, 15, 15) && Unblocked(s)
  }

  // ---------------------------------------------------------------- the mutually recursive web

  predicate NextNames(v: Value, step: nat) {
    v.Str? && (v.w == Title(step) || (v.w.Free? && "Step" + Text.Decimal(step) <= v.w.s))
  }

  /** The pointer checks that do not depend on the caller's range. */
  predicate Pointer(s: State) {
    && s.currentStep.Num? && s.lastStep.Num?
    && var step := s.currentStep.n;
    && s.lastStep.n == step - 1
    && 6 <= step <= 41 && s.currentRole == Str(Role(step))
    && (if step == 26 then s.lastRole == Str(Role(25)) || s.lastRole == Str(UxDesigner)
        else step == 6 || s.lastRole == Str(Role(step - 1)))
    && NextNames(s.nextStep, step)
  }

  predicate Past(s: State, step: int) { s.currentStep.Num? && s.currentStep.n > step }

  /** 1 for a closure of step `k` that the pointer has already left behind, else 0. */
  function Phase(s: State, k: int): nat { if Past(s, k + 1) then 1 else 0 }

  /** The ceiling relaxation: the closure just behind the pointer vouches for a step past `hi`. */
  predicate Relaxed(s: State, hi: int)
    requires s.currentStep.Num?
    decreases 0, if Past(s, hi) then 1000 else 0
  {
    var step := s.currentStep.n;
    || (step == 32 && hi == 31 && Step31Closed(s))
    || (step == 33 && (hi == 31 || hi == 32) && Step32Closed(s))
    || (step == 34 && hi <= 33 && Evidence33(s))
    || (step == 35 && hi <= 34 && Step34Closed(s))
    || (step == 36 && hi <= 35 && Step35Closed(s))
    || (step == 37 && hi <= 36 && Step36Closed(s))
    || (step == 38 && hi <= 37 && Step37Closed(s))
    || (step == 39 && hi <= 38 && Step38Closed(s))
    || (step == 40 && hi <= 39 && Step39Closed(s))
    || (step == 41 && hi <= 40 && Step40Closed(s))
  }

  predicate Authorized(s: State, lo: int, hi: int)
    decreases 0, if Past(s, hi) then 1001 else 1
  {
    || Step41Closed(s)
    || ( && s.currentStep.Num? && s.lastStep.Num?
         && (lo <= s.currentStep.n <= hi || Relaxed(s, hi)) && Pointer(s))
  }

  predicate Step30Closed(s: State)
    decreases Phase(s, 30), 70
  {
    (Authorized(s, 31, 31) && Direct30(s)) || Step31Closed(s)
  }

  predicate Step31Closed(s: State)
    decreases Phase(s, 31), 69
  {
    (Authorized(s, 32, 32) && Direct31(s)) || Step32Closed(s)
  }

  predicate Step32Closed(s: State)
    decreases Phase(s, 32), 68
  {
    || (Authorized(s, 33, 33) && Direct32(s))
    || (Authorized(s, 34, 34) && Evidence33(s))
    || (Authorized(s, 35, 35) && Evidence34(s))
    || (Authorized(s, 36, 36) && Evidence35(s))
    || (Authorized(s, 37, 37) && Step36Closed(s))
    || Step38Incomplete(s) || Step38Closed(s) || Step39Closed(s) || Step40Closed(s)
  }

  predicate Step33Closed(s: State)
    decreases Phase(s, 33), 67
  {
    || (Authorized(s, 34, 34) && Evidence33(s))
    || (Authorized(s, 35, 35) && Evidence34(s))
    || (Authorized(s, 36, 36) && Evidence35(s))
    || Step38Incomplete(s) || Step38Closed(s) || Step39Closed(s) || Step40Closed(s)
  }

  predicate Step34Closed(s: State)
    decreases Phase(s, 34), 66
  {
    || (Authorized(s, 35, 35) && Evidence34(s))
    || (Authorized(s, 36, 36) && Evidence34(s))
    || Step38Incomplete(s) || Step38Closed(s) || Step40Closed(s)
  }

  predicate Step35Closed(s: State)
    decreases Phase(s, 35), 65
  {
    (Authorized(s, 36, 36) && Evidence35(s)) || Step38Incomplete(s) || Step38Closed(s) || Step40Closed(s)
  }

  predicate Step36Closed(s: State)
    decreases Phase(s, 36), 64
  {
    (Authorized(s, 37, 37) && Evidence36(s)) || Step38Incomplete(s) || Step38Closed(s) || Step40Closed(s)
  }

  predicate Step37Closed(s: State)
    decreases Phase(s, 37), 63
  {
    (Authorized(s, 38, 38) && Direct37(s)) || Step38Incomplete(s) || Step38Closed(s) || Step40Closed(s)
  }

  predicate Step38Incomplete(s: State)
    decreases Phase(s, 37), 2
  {
    Authorized(s, 38, 38) && Direct38Incomplete(s)
  }

  predicate Step38Closed(s: State)
    decreases Phase(s, 38), 62
  {
    (Authorized(s, 39, 39) && Direct38(s)) || Step39Closed(s) || Step40Closed(s)
  }

  predicate Step39Closed(s: State)
    decreases Phase(s, 39), 61
  {
    (Authorized(s, 40, 40) && Direct39(s)) || Step40Closed(s)
  }

  predicate Step40Closed(s: State)
    decreases Phase(s, 40), 60
  {
    (Authorized(s, 41, 41) && Direct40(s)) || Step41Closed(s)
  }

  // ---------------------------------------------------------------- the flat table

  /** What acceptance means with the pointer on its current step: one non-recursive row per step. */
  predicate Row(s: State) {
    || (At(s, 31) && Direct30(s))
    || (At(s, 32) && Direct31(s))
    || (At(s, 33) && Direct32(s))
    || (At(s, 34) && Evidence33(s))
    || (At(s, 35) && Evidence34(s))
    || (At(s, 36) && Evidence35(s))
    || (At(s, 37) && Evidence36(s))
    || (At(s, 38) && (Direct37(s) || Direct38Incomplete(s)))
    || (At(s, 39) && Direct38(s))
    || (At(s, 40) && Direct39(s))
    || (At(s, 41) && Direct40(s))
  }

  /** The closure of step `k`, said without recursion. */
  predicate Accepted(s: State, k: int) {
    Step41Closed(s) || (Pointer(s) && Past(s, k) && Row(s))
  }

  /** Each completion evidence carries the evidence of the steps before it. */
  lemma EvidenceChain(s: State)
    ensures Evidence36(s) ==> Evidence35(s)
    ensures Evidence35(s) ==> Evidence34(s)
    ensures Evidence34(s) ==> Evidence33(s)
    ensures Evidence33(s) ==> Evidence31(s)
  {}

  /** Phase 0: a ceiling the pointer has not passed is compared literally, so a closure at or
      ahead of the pointer accepts exactly the row of its own step. */
  lemma LateAheadOfPointer(s: State)
    requires !Step41Closed(s)
    ensures forall n :: !Past(s, n) ==> Authorized(s, n, n) == (Pointer(s) && At(s, n))
    ensures !Past(s, 41) ==> Step40Closed(s) == (Pointer(s) && At(s, 41) && Row(s))
    ensures !Past(s, 40) ==> Step39Closed(s) == (Pointer(s) && At(s, 40) && Row(s))
    ensures !Past(s, 39) ==> Step38Closed(s) == (Pointer(s) && At(s, 39) && Row(s))
    ensures !Past(s, 38) ==> Step37Closed(s) == (Pointer(s) && At(s, 38) && Row(s))
  {}

  lemma EarlyAheadOfPointer(s: State)
    requires !Step41Closed(s)
    ensures !Past(s, 37) ==> Step36Closed(s) == (Pointer(s) && At(s, 37) && Row(s))
    ensures !Past(s, 36) ==> Step35Closed(s) == (Pointer(s) && At(s, 36) && Row(s))
    ensures !Past(s, 35) ==> Step34Closed(s) == (Pointer(s) && At(s, 35) && Row(s))
    ensures !Past(s, 33) ==> Step32Closed(s) == (Pointer(s) && At(s, 33) && Row(s))
    ensures !Past(s, 32) ==> Step31Closed(s) == (Pointer(s) && At(s, 32) && Row(s))
  {
    LateAheadOfPointer(s);
  }

  /** The closure that a relaxed ceiling consults is the row of the current step. */
  lemma ConsultedClosure(s: State)
    requires !Step41Closed(s) && Pointer(s)
    ensures Consulted(s, Row(s))
  {
    if Past(s, 37) { ConsultedLate(s); } else { ConsultedEarly(s); }
  }

  lemma ConsultedEarly(s: State)
    requires !Step41Closed(s) && Pointer(s) && !Past(s, 37)
    ensures Consulted(s, Row(s))
  {
    EarlyAheadOfPointer(s);
  }

  lemma ConsultedLate(s: State)
    requires !Step41Closed(s) && Pointer(s) && Past(s, 37)
    ensures Consulted(s, Row(s))
  {
    LateAheadOfPointer(s);
  }

  /** The ceiling relaxation, said flatly: a pointer beyond the caller's ceiling is accepted
      exactly when its own row holds (a ceiling of 31 or 32 is asked for at steps 32 and 33). */
  predicate Beyond(s: State, hi: int, row: bool) {
    && Past(s, hi) && 32 <= s.currentStep.n <= 41
    && (At(s, 32) ==> hi == 31) && (At(s, 33) ==> hi == 31 || hi == 32) && row
  }

  /** The closure that a relaxed ceiling consults says `row`. */
  predicate Consulted(s: State, row: bool) {
    && (At(s, 32) ==> Step31Closed(s) == row)
    && (At(s, 33) ==> Step32Closed(s) == row)
    && (At(s, 34) ==> Evidence33(s) == row)
    && (At(s, 35) ==> Step34Closed(s) == row)
    && (At(s, 36) ==> Step35Closed(s) == row)
    && (At(s, 37) ==> Step36Closed(s) == row)
    && (At(s, 38) ==> Step37Closed(s) == row)
    && (At(s, 39) ==> Step38Closed(s) == row)
    && (At(s, 40) ==> Step39Closed(s) == row)
    && (At(s, 41) ==> Step40Closed(s) == row)
  }

  lemma RelaxedFrom(s: State, hi: int, row: bool)
    requires !Step41Closed(s) && Pointer(s) && Consulted(s, row)
    ensures Relaxed(s, hi) == Beyond(s, hi, row)
  {}

  /** Authorization, given what the consulted closure says. */
  lemma AuthorizedFrom(s: State, lo: int, hi: int, row: bool)
    requires !Step41Closed(s) && Pointer(s) && Consulted(s, row)
    ensures Authorized(s, lo, hi) == (lo <= s.currentStep.n <= hi || Beyond(s, hi, row))
  {
    RelaxedFrom(s, hi, row);
  }

  lemma AuthorizedFlat(s: State, lo: int, hi: int)
    ensures Authorized(s, lo, hi)
         == (Step41Closed(s) || (Pointer(s) && (lo <= s.currentStep.n <= hi || Beyond(s, hi, Row(s)))))
  {
    if !Step41Closed(s) && Pointer(s) {
      ConsultedClosure(s);
      AuthorizedFrom(s, lo, hi, Row(s));
    }
  }

  lemma FinalClosuresFlat(s: State)
    ensures Step40Closed(s) == Accepted(s, 40)
    ensures Step39Closed(s) == Accepted(s, 39)
    ensures Step38Closed(s) == Accepted(s, 38)
  {
    if !Step41Closed(s) { LateAheadOfPointer(s); }
  }

  lemma LateClosuresFlat(s: State)
    ensures Step40Closed(s) == Accepted(s, 40)
    ensures Step39Closed(s) == Accepted(s, 39)
    ensures Step38Closed(s) == Accepted(s, 38)
    ensures Step38Incomplete(s) == (!Step41Closed(s) && Pointer(s) && At(s, 38) && Direct38Incomplete(s))
    ensures Step37Closed(s) == Accepted(s, 37)
  {
    FinalClosuresFlat(s);
    AuthorizedFlat(s, 38, 38);
  }

  lemma Step36Flat(s: State)
    ensures Step36Closed(s) == Accepted(s, 36)
  {
    LateClosuresFlat(s);
    AuthorizedFlat(s, 37, 37);
  }

  lemma Step35Flat(s: State)
    ensures Step35Closed(s) == Accepted(s, 35)
  {
    LateClosuresFlat(s);
    AuthorizedFlat(s, 36, 36);
  }

  lemma Step33Flat(s: State)
    ensures Step33Closed(s) == Accepted(s, 33)
  {
    LateClosuresFlat(s);
    AuthorizedFlat(s, 34, 34);
    AuthorizedFlat(s, 35, 35);
    AuthorizedFlat(s, 36, 36);
  }

  /** The web collapses: the step-32 closure is one case split on the current step. */
  lemma Step32Flat(s: State)
    ensures Step32Closed(s) == Accepted(s, 32)
  {
    LateClosuresFlat(s);
    Step36Flat(s);
    AuthorizedFlat(s, 33, 33);
    AuthorizedFlat(s, 34, 34);
    AuthorizedFlat(s, 35, 35);
    AuthorizedFlat(s, 36, 36);
    AuthorizedFlat(s, 37, 37);
  }

  lemma Step31Flat(s: State)
    ensures Step31Closed(s) == Accepted(s, 31)
  {
    Step32Flat(s);
    AuthorizedFlat(s, 32, 32);
  }

  lemma Step30Flat(s: State)
    ensures Step30Closed(s) == Accepted(s, 30)
  {
    Step31Flat(s);
    AuthorizedFlat(s, 31, 31);
  }

  lemma Step34Flat(s: State)
    ensures Step34Closed(s)
         == (Accepted(s, 34) || (!Step41Closed(s) && Pointer(s) && At(s, 36) && Evidence34(s)))
  {
    LateClosuresFlat(s);
    AuthorizedFlat(s, 35, 35);
    AuthorizedFlat(s, 36, 36);
  }

  // ---------------------------------------------------------------- guarantees over every state

  /** The closure of step `k`, for k from 30 to 41. */
  predicate Closed(s: State, k: int)
    requires 30 <= k <= 41
  {
    if k >= 37 then LateClosed(s, k)
    else
      match k
      case 30 => Step30Closed(s)
      case 31 => Step31Closed(s)
      case 32 => Step32Closed(s)
      case 33 => Step33Closed(s)
      case 34 => Step34Closed(s)
      case 35 => Step35Closed(s)
      case _ => Step36Closed(s)
  }

  predicate LateClosed(s: State, k: int)
    requires 37 <= k <= 41
  {
    match k
    case 37 => Step37Closed(s)
    case 38 => Step38Closed(s)
    case 39 => Step39Closed(s)
    case 40 => Step40Closed(s)
    case _ => Step41Closed(s)
  }

  lemma EarlyClosedFlat(s: State, k: int)
    requires 30 <= k <= 33
    ensures Closed(s, k) == Accepted(s, k)
  {
    if k == 30 {
      Step30Flat(s);
    } else if k == 31 {
      Step31Flat(s);
    } else if k == 32 {
      Step32Flat(s);
    } else {
      Step33Flat(s);
    }
  }

  lemma LateClosedFlat(s: State, k: int)
    requires 37 <= k <= 41
    ensures LateClosed(s, k) == Accepted(s, k)
  {
    LateClosuresFlat(s);
  }

  /** Every closure but the step-34 one is its flat reading. */
  lemma ClosedFlat(s: State, k: int)
    requires 30 <= k <= 41 && k != 34
    ensures Closed(s, k) == Accepted(s, k)
  {
    if k <= 33 {
      EarlyClosedFlat(s, k);
    } else if k == 35 {
      Step35Flat(s);
    } else if k == 36 {
      Step36Flat(s);
    } else {
      LateClosedFlat(s, k);
    }
  }

  /** An accepted closure survives every later handoff: closing step k keeps every earlier step
      closed.  The one exception is that the step-34 closure does not reach back. */
  lemma LaterClosureKeepsEarlier(s: State, j: int, k: int)
    requires 30 <= j <= k <= 41 && (k == 34 ==> j == 34)
    ensures Closed(s, k) ==> Closed(s, j)
  {
    if j != k {
      ClosedFlat(s, k);
      if j == 34 { Step34Flat(s); } else { ClosedFlat(s, j); }
    }
  }

  /** No later closure speaks for a pointer on step 37, or on a step 38 that has not begun. */
  lemma NoLaterClosure(s: State)
    requires !Step41Closed(s) && Pointer(s) && ((At(s, 37) && Evidence36(s)) || (At(s, 38) && Direct37(s)))
    ensures !Step38Incomplete(s) && !Step38Closed(s) && !Step40Closed(s)
  {
    LateClosuresFlat(s);
  }

  /** Where step 37 is freshly closed, step 36 stays closed through the relaxed ceiling alone: the
      pointer is past the literal ceiling and every other disjunct of the closure is false. */
  lemma Step36KeptByRelaxation(s: State)
    requires !Step41Closed(s) && Pointer(s) && At(s, 38) && Direct37(s)
    ensures Step37Closed(s) && Step36Closed(s)
    ensures Evidence36(s) && Relaxed(s, 37) && Past(s, 37)
    ensures !Step38Incomplete(s) && !Step38Closed(s) && !Step40Closed(s)
  {
    NoLaterClosure(s);
    LateClosuresFlat(s);
    AuthorizedFlat(s, 37, 37);
  }

  /** The same for step 35, after step 36 or step 37 has been closed. */
  lemma Step35KeptByRelaxation(s: State)
    requires !Step41Closed(s) && Pointer(s) && ((At(s, 37) && Evidence36(s)) || (At(s, 38) && Direct37(s)))
    ensures Step36Closed(s) && Step35Closed(s)
    ensures Evidence35(s) && Relaxed(s, 36) && Past(s, 36)
    ensures !Step38Incomplete(s) && !Step38Closed(s) && !Step40Closed(s)
  {
    NoLaterClosure(s);
    Step36Flat(s);
    AuthorizedFlat(s, 36, 36);
  }

  /** When the step-34 closure does keep step 33 (and with it 32, 31 and 30) closed: exactly
      unless the pointer is on step 36 and that step is not recorded as not started. */
  lemma Step34KeepsEarlier(s: State, j: int)
    requires Step34Closed(s) && 30 <= j <= 33
    ensures Closed(s, j) <==> (At(s, 36) ==> Unstarted(s, 36))
  {
    Step34Flat(s);
    ClosedFlat(s, j);
  }

  /** A complete document of a step, bound to the final head. */
  const BOUND := Doc(EMPTY.(started := Flag(true), status := Str(Pass), gateStatus := Str(Pass),
                            contentCommit := Str(FinalHead), ciResult := Str(Pass), ciHead := Str(FinalHead),
                            reportCommit := Str(FinalHead)))

  const AHEAD_STEPS: set<int> := {30, 31, 32, 33, 34, 35, 36}

  const AHEAD_GATES: set<int> := {6, 7, 8, 9, 10, 11, 12, 13, 14, 15}

  /** A step-36 pointer whose step 36 is already marked completed. */
  function Step36RunAhead(): State {
    State(
      Num(36), Str(Role(36)), Str(Title(36)), Num(35), Str(Role(35)), Str(Title(35)), Str(FinalHead),
      Str(Title(36)), None, None,
      map n | n in AHEAD_STEPS :: Flag(true), map n | n in AHEAD_STEPS :: Str(Completed(n)),
      map n | n in AHEAD_STEPS :: BOUND, false,
      map g | g in AHEAD_GATES :: Str(if g <= 10 then Pass else Pending), Flag(false), map[])
  }

  /** The pointer of such a state. */
  predicate AheadPointer(s: State) {
    Current(s, 36) && Finished(s, 35) && Pointer(s) && s.lastCommit == Str(FinalHead) && Unblocked(s)
  }

  /** Its steps, gates and documents. */
  predicate AheadRecord(s: State) {
    && Done(s, 30) && Done(s, 31) && Done(s, 33) && Done(s, 34) && Done(s, 35) && Done(s, 36)
    && GatesPass(s, 6, 10) && GatesPending(s, 11, 15)
    && Section(s, 31) == BOUND && Section(s, 33) == BOUND && Section(s, 34) == BOUND && Section(s, 35) == BOUND
  }

  lemma AheadIsSecure(s: State)
    requires AheadPointer(s) && AheadRecord(s)
    ensures Evidence33(s)
  {
    assert Evidence31(s);
  }

  lemma AheadIsObserved(s: State)
    requires AheadPointer(s) && AheadRecord(s)
    ensures Evidence34(s)
  {
    AheadIsSecure(s);
    assert Observed(s) && Receipt35(s);
  }

  lemma AheadCloses34Only(s: State)
    requires AheadPointer(s) && AheadRecord(s)
    ensures Step34Closed(s) && !Step33Closed(s)
  {
    AheadIsObserved(s);
    Step34Flat(s);
    Step34KeepsEarlier(s, 33);
  }

  lemma Step34DoesNotImplyStep33()
    ensures var s := Step36RunAhead(); Step34Closed(s) && !Step33Closed(s)
  {
    var s := Step36RunAhead();
    assert AheadPointer(s);
    assert AheadRecord(s);
    AheadCloses34Only(s);
  }

  /** The gates that the step-33 evidence carries, with the one that opens at step 37. */
  lemma SecurityBacksGates(s: State)
    requires Evidence33(s)
    ensures Unblocked(s) && GatesPass(s, 6, 10) && (At(s, 37) ==> Gate(s, 11) == Str(Pass))
  {}

  lemma MiddleRowIsEvidence(s: State)
    requires Row(s) && Past(s, 33) && !Past(s, 37)
    ensures Evidence33(s)
  {
    EvidenceChain(s);
  }

  lemma FirstRowsBackGates(s: State)
    requires Row(s) && !Past(s, 33)
    ensures Gate(s, 8) == Str(Pass) && Unblocked(s)
    ensures Past(s, 31) ==> GatesPass(s, 6, 8)
    ensures Past(s, 32) ==> GatesPass(s, 6, 9)
  {}

  lemma EarlyRowBacksGates(s: State)
    requires Row(s) && !Past(s, 37)
    ensures Gate(s, 8) == Str(Pass) && Unblocked(s)
    ensures Past(s, 31) ==> GatesPass(s, 6, 8)
    ensures Past(s, 32) ==> GatesPass(s, 6, 9)
    ensures Past(s, 33) ==> GatesPass(s, 6, 10)
    ensures Past(s, 36) ==> GatesPass(s, 6, 11)
  {
    if Past(s, 33) {
      MiddleRowIsEvidence(s);
      SecurityBacksGates(s);
    } else {
      FirstRowsBackGates(s);
    }
  }

  lemma LateRowBacksGates(s: State)
    requires Row(s) && Past(s, 37)
    ensures Unblocked(s) && GatesPass(s, 6, 11)
    ensures Past(s, 38) ==> GatesPass(s, 6, 12)
    ensures Past(s, 39) ==> GatesPass(s, 6, 13)
    ensures Past(s, 40) ==> GatesPass(s, 6, 14)
  {}

  /** A row carries the gates of every step closed before it. */
  lemma RowBacksGates(s: State)
    requires Row(s)
    ensures Gate(s, 8) == Str(Pass) && Unblocked(s)
    ensures Past(s, 31) ==> GatesPass(s, 6, 8)
    ensures Past(s, 32) ==> GatesPass(s, 6, 9)
    ensures Past(s, 33) ==> GatesPass(s, 6, 10)
    ensures Past(s, 36) ==> GatesPass(s, 6, 11)
    ensures Past(s, 38) ==> GatesPass(s, 6, 12)
    ensures Past(s, 39) ==> GatesPass(s, 6, 13)
    ensures Past(s, 40) ==> GatesPass(s, 6, 14)
  {
    if Past(s, 37) { LateRowBacksGates(s); } else { EarlyRowBacksGates(s); }
  }

  /** Gates G6 up to the one a closure stands for pass in every state that closure accepts. */
  lemma ClosureBacksGates(s: State, k: int)
    requires 30 <= k <= 41 && Closed(s, k)
    ensures Gate(s, 8) == Str(Pass) && Unblocked(s)
    ensures k >= 31 ==> GatesPass(s, 6, 8)
    ensures k >= 32 ==> GatesPass(s, 6, 9)
    ensures k >= 33 ==> GatesPass(s, 6, 10)
    ensures k >= 36 ==> GatesPass(s, 6, 11)
    ensures k >= 38 ==> GatesPass(s, 6, 12)
    ensures k >= 39 ==> GatesPass(s, 6, 13)
    ensures k >= 40 ==> GatesPass(s, 6, 14)
    ensures k >= 41 ==> GatesPass(s, 6, 15)
  {
    if Step41Closed(s) {
      assert GatesPass(s, 6, 15);
    } else if k == 34 {
      Step34BacksGates(s);
    } else {
      ClosedFlat(s, k);
      RowBacksGates(s);
    }
  }

  lemma Step34BacksGates(s: State)
    requires Step34Closed(s) && !Step41Closed(s)
    ensures Unblocked(s) && GatesPass(s, 6, 10)
  {
    Step34Flat(s);
    if Row(s) { RowBacksGates(s); } else { assert Observed(s); }
  }

  predicate Step30Accepted(s: State) {
    && Authorized(s, 31, 31) && Finished(s, 30) && s.currentRole == Str(Role(31))
    && Done(s, 30) && Gate(s, 8) == Str(Pass)
  }

  predicate Step31ExternalCiBlocked(s: State) {
    var v := Section(s, 31);
    && v.Doc? && Step30Accepted(s) && Current(s, 31) && Finished(s, 30)
    && s.lastCommit == v.r.contentCommit && IsCommitSha(v.r.contentCommit)
    && s.nextStep == Str(Title(31))
    && Get(s.started, 31) == Flag(true) && Get(s.status, 31) == Str(BlockedExternalFinalCi)
    && Unstarted(s, 32)
    && v.r.started == Flag(true) && v.r.status == Str(Pass) && v.r.implementationResult == Str(Pass)
    && v.r.ciRun == Str(ContentCiRun) && v.r.ciResult == Str(Pass)
    && v.r.finalHead == Str(FinalHead) && v.r.finalHeadCiRun == Str(FinalHeadCiRun)
    && v.r.finalHeadCiResult == Str(BlockedExternal) && v.r.finalHeadCiBlocker == Str(BillingRestriction)
    && s.step31BlockingReason == Str(BlockedExternalFinalCi)
    && GatesPass(s, 6, 8) && Gate(s, 9) == Str(Pending) && s.blocked == Flag(true)
  }

  predicate GateOneOf(s: State, g: int, words: set<Word>) { Gate(s, g).Str? && Gate(s, g).w in words }

  predicate GateBacked(s: State, g: int) {
    || Gate(s, g) == Str(Pending)
    || (g == 7 && Step29Closed(s))
    || (g == 8 && (Step30Closed(s) || Step31ExternalCiBlocked(s)))
    || (g == 9 && Step32Closed(s))
    || (g == 10 && Step33Closed(s))
    || (g == 11 && Gate(s, 11) == Str(Pass) && Receipt36(s))
    || (g == 12 && Gate(s, 12) == Str(Pass) && Receipt38(s))
    || (g == 13 && Step39Closed(s))
    || (g == 14 && Step40Closed(s))
    || (g == 15 && Step41Closed(s))
  }

  predicate PriorGatesCoherent(s: State) {
    && GateOneOf(s, 3, {Pending, Pass, Blocked})
    && GateOneOf(s, 4, {Pending, Pass})
    && GateOneOf(s, 5, {Pending, ReviewOnlyValidated, Pass})
    && GateOneOf(s, 6, {Pending, Pass})
    && forall g | 7 <= g <= 15 :: GateBacked(s, g)
  }

  /** In every coherent state gates G7 to G15 are pending or passed, and a pass at G9, G10 or G13
      to G15 means every gate from G6 up to it has passed. */
  lemma CoherentGates(s: State, g: int)
    requires PriorGatesCoherent(s) && 7 <= g <= 15
    ensures Gate(s, g) == Str(Pending) || Gate(s, g) == Str(Pass)
    ensures g in {9, 10, 13, 14, 15} && Gate(s, g) == Str(Pass) ==> GatesPass(s, 6, g)
  {
    assert GateBacked(s, g);
    if Gate(s, g) != Str(Pending) {
      match g {
        case 8 => if Closed(s, 30) { ClosureBacksGates(s, 30); }
        case 9 => ClosureBacksGates(s, 32);
        case 10 => ClosureBacksGates(s, 33);
        case 13 => ClosureBacksGates(s, 39);
        case 14 => ClosureBacksGates(s, 40);
        case 15 => ClosureBacksGates(s, 41);
        case _ =>
      }
    }
  }

  /** The accepted step-30 closure and the externally blocked state exclude each other. */
  lemma ClosedNeverExternallyBlocked(s: State)
    ensures !(Step30Closed(s) && Step31ExternalCiBlocked(s))
  {
    if Closed(s, 30) { ClosureBacksGates(s, 30); }
  }

  // ---------------------------------------------------------------- the call graph

  /** A predicate call made while one state is evaluated; `Handoff(hi)` is the pointer check under
      ceiling `hi`. */
  datatype Call = Handoff(hi: int) | Closure(k: int) | Incomplete38

  /** Which calls the body of a predicate contains. */
  predicate Calls(s: State, a: Call, b: Call) {
    match (a, b)
    case (Handoff(hi), Closure(k)) => k == 41 || (31 <= k <= 40 && k != 33 && At(s, k + 1) && Past(s, hi))
    case (Closure(k), Handoff(n)) =>
      30 <= k <= 40 && k < n <= (if k == 32 then 37 else if k == 33 then 36 else if k == 34 then 36 else k + 1)
    case (Closure(k), Closure(j)) =>
      if k <= 31 then 30 <= k && j == k + 1
      else k <= 40 && k < j && (j == 41 || j == 40 || j == 39 || j == 38 || (k == 32 && j == 36))
    case (Closure(k), Incomplete38) => 32 <= k <= 37
    case (Incomplete38, Handoff(n)) => n == 38
    case _ => false
  }

  predicate Relaxes(s: State, c: Call) { c.Handoff? && Past(s, c.hi) }

  /** A call whose every ceiling lies at or above the pointer; the terminal closure has none. */
  predicate Quiet(s: State, c: Call) {
    match c
    case Handoff(hi) => !Past(s, hi)
    case Closure(k) => k == 41 || !Past(s, k + 1)
    case Incomplete38 => !Past(s, 38)
  }

  lemma {:induction false} QuietForever(s: State, path: seq<Call>, i: nat)
    requires forall n | 0 <= n < |path| - 1 :: Calls(s, path[n], path[n + 1])
    requires i < |path| && Quiet(s, path[0])
    ensures Quiet(s, path[i])
  {
    if i > 0 {
      QuietForever(s, path, i - 1);
      assert Calls(s, path[i - 1], path[i - 1 + 1]);
    }
  }

  /** On no call path is the ceiling relaxation entered twice. */
  lemma RelaxedAtMostOnce(s: State, path: seq<Call>, i: nat, j: nat)
    requires forall n | 0 <= n < |path| - 1 :: Calls(s, path[n], path[n + 1])
    requires i < j < |path| && Relaxes(s, path[i])
    ensures !Relaxes(s, path[j])
  {
    assert Calls(s, path[i], path[i + 1]);
    QuietForever(s, path[i + 1..], j - i - 1);
  }
}
