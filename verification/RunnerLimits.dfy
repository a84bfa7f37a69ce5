/** Runs that show where the runner's protections end, step by step as the program takes them: under a policy that
    validatePolicy accepts, with the calls that come before each submission and confirmation, and with the adapter's
    records. */
module RunnerLimits {
  import opened Wrappers
  import opened OperationIds
  import opened RunnerState
  import opened Wallet
  import opened RunnerMachine
  import opened RunnerInvariant
  import opened RunnerSafety
  import opened RunnerSteps
  import opened RunnerCap

  /** What validatePolicy demands of the parts of a policy that the model has, for a session started at `started`. */
  predicate ValidPolicy(p: Policy, started: int) {
    && ValidId(p.authorization) && started < p.authorizationExpires
    && 0 < p.maximumSpend && 0 < p.maximumFee && 0 < p.recoveryGas && 0 < p.minimumFinal
    && 1 <= |p.gasCaps| <= 8 && (forall k | 0 <= k < |p.gasCaps| :: 0 < p.gasCaps[k])
    && 1 <= p.maximumTransactions <= 16
    && 0 < p.solanaCap && 1 <= p.solanaTransactions <= 16
    && 30 <= p.minimumActionRemaining <= 170 && 5 <= p.minimumSubmitRemaining <= 120
    && p.minimumSubmitRemaining <= p.minimumActionRemaining
    && started + 60 * 1000 <= p.runnerExpires <= started + 3600 * 1000
  }

  const APPROVE := Transaction("token", "approve", 0)
  const SWAP := Transaction("router", "swap", 0)
  const REVOKE := Revocation("token", "router")

  /** A policy whose cap is exactly the reserve of one action: 4 for the revocation, 4 for the approval,
      1 for the swap. */
  const LEAN := Env(Policy("runner.lean.0001", 9, 1, [4, 1], 4, 16, 1, 1, 1, 100_000, 60_000, 30, 5),
                    id => Content([APPROVE, SWAP], Some(REVOKE)))

  /** When the handoff expires, and when its requests are submitted. */
  const EXPIRES := 60_000
  const NOW := 1_000

  lemma LeanPolicy()
    ensures ValidPolicy(LEAN.policy, 0) && WindowOpen(LEAN.policy, EXPIRES, NOW)
    ensures EXPIRES - NOW >= LEAN.policy.minimumActionRemaining * 1000
    ensures Sized(LEAN, "a") && ReserveOf(LEAN, "a") == LEAN.policy.maximumSpend == 9
    ensures RowCost(LEAN, "a", 0) == 4 && RowCost(LEAN, "a", 1) == 1
  {
    assert Cost(LEAN, "a", 0) == 4;
    assert Cost(LEAN, "a", 1) == 8;
  }

  ghost predicate Grew(r: Run, r': Run) {
    r.states <= r'.states && r.steps <= r'.steps
  }

  lemma Push(r: Run, step: Step, s: Sys) returns (r': Run)
    requires IsRun(LEAN, r) && Next(LEAN, Last(r), step, s)
    ensures IsRun(LEAN, r') && r' == Extend(r, step, s) && Last(r') == s && |r.states| == |r.steps| + 1
  {
    hide Next;
    ExtendRun(LEAN, r, step, s);
    r' := Extend(r, step, s);
  }

  // ----- a process up to its first request -----

  /** Memory and the file agree on one EVM action of step 0 that holds its reserve. */
  ghost predicate OneAction(s: Sys) {
    && s.mem == s.disk && |s.mem.actions| == 1
    && var a := s.mem.actions[0]; a.id == "a" && a.step == 0 && a.family == Evm && a.reserve == Some(9)
  }

  lemma Opened(r: Run) returns (r': Run)
    requires IsRun(LEAN, r) && Last(r).stage.Loading? && Last(r).mem == Last(r).disk
    requires !AnyReleasable(Last(r).mem.actions, |Last(r).mem.actions|) && !HasPending(Last(r).mem, 0)
    ensures IsRun(LEAN, r') && Grew(r, r') && Last(r') == Last(r).(stage := Entered("a", 0, Evm))
  {
    hide IsRun, Next;
    OpenTaken(LEAN, Last(r));
    r' := Push(r, Open, Last(r).(stage := Idle));
    ExecutionTaken(LEAN, Last(r'), "a", 0, Evm);
    r' := Push(r', BeginExecution("a", 0, Evm), Last(r').(stage := Entered("a", 0, Evm)));
  }

  /** The file is written and the try block begins. */
  lemma Entering(r: Run) returns (r': Run)
    requires IsRun(LEAN, r) && Last(r).stage == Entered("a", 0, Evm) && OneAction(Last(r).(disk := Last(r).mem))
    ensures IsRun(LEAN, r') && Grew(r, r') && Last(r') == Last(r).(disk := Last(r).mem, stage := Working(0, false))
  {
    hide IsRun, Next;
    SaveTaken(LEAN, Last(r));
    r' := Push(r, Save, Last(r).(disk := Last(r).mem));
    EnterTaken(LEAN, Last(r'), 0);
    r' := Push(r', Enter(0), Last(r').(stage := Working(0, false)));
  }

  /** The first process of a session reserves the worst case of the action. */
  lemma Started() returns (r: Run)
    ensures IsRun(LEAN, r) && OneAction(Last(r)) && Last(r).stage == Working(0, false)
    ensures Last(r).mem.totals == Totals(9, 0, 0, 0, 0, 0, 0) && Last(r).mem.actions[0] == Fresh("a", 0, Evm).(reserve := Some(9))
    ensures Last(r).wallet == Wallet(map[], [])
  {
    LeanPolicy();
    r := Run([START], []);
    assert IsRun(LEAN, r);
    hide IsRun, Next, Sized, ReserveOf;
    r := Opened(r);
    AddTaken(LEAN, Last(r));
    r := Push(r, AddAction("a", 0, Evm), Last(r).(mem := INITIAL.(actions := [Fresh("a", 0, Evm)])));
    ReserveTaken(LEAN, Last(r), 0);
    r := Push(r, Reserve(0), Last(r).(mem := WithReserve(Last(r).mem, 0, 9)));
    r := Entering(r);
  }

  /** A later process enters the execution of the same action. */
  lemma Reentered(r: Run) returns (r': Run)
    requires IsRun(LEAN, r) && OneAction(Last(r)) && Last(r).stage.Loading?
    requires var a := Last(r).mem.actions[0]; a.status != Submitted && a.status != Confirmed && a.status != Observed
    ensures IsRun(LEAN, r') && Grew(r, r') && Last(r') == Last(r).(stage := Working(0, false))
  {
    hide IsRun;
    r' := Opened(r);
    r' := Entering(r');
  }

  lemma Stopped(r: Run) returns (r': Run)
    requires IsRun(LEAN, r) && Last(r).mem == Last(r).disk
    ensures IsRun(LEAN, r') && r' == Extend(r, Crash, Last(r).(stage := Loading))
  {
    CrashTaken(LEAN, Last(r));
    hide IsRun, Next;
    r' := Push(r, Crash, Last(r).(stage := Loading));
  }

  // ----- requests -----

  function RowTerms(index: nat): Terms
    requires index < 2
  {
    Terms([APPROVE, SWAP][index], EXPIRES, LEAN.policy.gasCaps[index], 1, index)
  }

  function WithPrepared(w: Wallet, op: Operation, terms: Terms): Wallet {
    w.(store := w.store[op := Record(Prepared, terms, "")])
  }

  function WithSent(w: Wallet, op: Operation, terms: Terms, hash: Hash): Wallet {
    Wallet(w.store[op := Record(Sent, terms, hash)], w.sends + [Send(op, terms)])
  }

  /** The operation is new to the adapter, or was prepared before. */
  predicate NewOrPrepared(w: Wallet, op: Operation, terms: Terms) {
    op in w.store ==> w.store[op] == Record(Prepared, terms, "")
  }

  lemma WalletMoves(w: Wallet, op: Operation, terms: Terms, hash: Hash)
    ensures NewOrPrepared(w, op, terms) ==> PrepareStep(w, op, terms.payload, WithPrepared(w, op, terms))
    ensures op in w.store && w.store[op] == Record(Prepared, terms, "") ==>
              SubmitStep(w, op, WithSent(w, op, terms, hash)) && SubmitStep(w, op, w.(sends := w.sends + [Send(op, terms)]))
  {
    assert op in w.store && NewOrPrepared(w, op, terms) ==> WithPrepared(w, op, terms) == w;
  }

  /** The next request of the action in its try block is prepared, with this effect on the adapter's records. */
  lemma RequestPrepared(r: Run, flag: bool, w: Wallet) returns (r': Run)
    requires IsRun(LEAN, r) && OneAction(Last(r)) && Last(r).stage == Working(0, flag)
    requires var a := Last(r).mem.actions[0];
             |a.requests| < 2 && AllConfirmed(a.requests) && PrepareStep(Last(r).wallet, NextOperation(a), [APPROVE, SWAP][|a.requests|], w)
    ensures IsRun(LEAN, r') && Last(r') == Last(r).(wallet := w, stage := PreparedRow(0, flag))
  {
    hide IsRun, Next, PrepareStep;
    var a := Last(r).mem.actions[0];
    PreparationTaken(LEAN, Last(r), 0, flag, w);
    r' := Push(r, CallPrepare(NextOperation(a), [APPROVE, SWAP][|a.requests|]), Last(r).(wallet := w, stage := PreparedRow(0, flag)));
  }

  /** The attempt is marked durably. */
  lemma AttemptMarked(r: Run, flag: bool) returns (r': Run)
    requires IsRun(LEAN, r) && OneAction(Last(r)) && Last(r).stage == PreparedRow(0, flag) && MaySubmit(LEAN, Last(r).mem, 0)
    ensures IsRun(LEAN, r')
    ensures var m := WithStatus(Last(r).mem, 0, SubmissionAttempted); Last(r') == Last(r).(mem := m, disk := m, stage := MarkedRow(0))
  {
    hide IsRun, Next, MaySubmit;
    MarkTaken(LEAN, Last(r), 0, flag);
    r' := Push(r, MarkAttempted(0), Last(r).(mem := WithStatus(Last(r).mem, 0, SubmissionAttempted), stage := MarkedRow(0)));
    SaveTaken(LEAN, Last(r'));
    r' := Push(r', Save, Last(r').(disk := Last(r').mem));
  }

  /** It is handed to the adapter. */
  lemma RequestSubmitted(r: Run, w: Wallet) returns (r': Run)
    requires IsRun(LEAN, r) && OneAction(Last(r)) && Last(r).stage == MarkedRow(0) && MaySubmit(LEAN, Last(r).mem, 0)
    requires SubmitStep(Last(r).wallet, NextOperation(Last(r).mem.actions[0]), w)
    ensures IsRun(LEAN, r') && Last(r') == Last(r).(wallet := w, stage := SubmittedRow(0))
  {
    LeanPolicy();
    hide IsRun, Next, MaySubmit, SubmitStep;
    SubmissionTaken(LEAN, Last(r), 0, EXPIRES, NOW, w);
    r' := Push(r, CallSubmit(0, EXPIRES, NOW), Last(r).(wallet := w, stage := SubmittedRow(0)));
  }

  lemma Threw(r: Run, flag: bool) returns (r': Run)
    requires IsRun(LEAN, r) && |Last(r).mem.actions| == 1 && Last(r).mem.actions[0].family == Evm
    requires var stage := Last(r).stage;
             || stage == PreparedRow(0, flag) || stage == ConfirmedRow(0, flag)
             || (flag && (stage == MarkedRow(0) || stage == SubmittedRow(0)))
    ensures IsRun(LEAN, r') && Last(r') == Last(r).(stage := Failing(0, flag))
  {
    hide IsRun, Next;
    FailTaken(LEAN, Last(r));
    r' := Push(r, Fail, Last(r).(stage := Failing(0, flag)));
  }

  /** The approval of the current attempt is prepared, submitted, recorded and confirmed at fee 4, the last in memory. */
  lemma ApprovalConfirmed(r: Run) returns (r': Run)
    requires IsRun(LEAN, r) && OneAction(Last(r)) && Last(r).stage == Working(0, false)
    requires Last(r).mem.actions[0].requests == [] && Last(r).mem.actions[0].hashes == [] && Last(r).mem.totals.transactions + 1 <= 16
    requires NextOperation(Last(r).mem.actions[0]) !in Last(r).wallet.store
    ensures IsRun(LEAN, r') && Last(r').stage == ConfirmedRow(0, true) && |Last(r').mem.actions| == 1
    ensures var a, b, t, op := Last(r).mem.actions[0], Last(r').mem.actions[0], Last(r).mem.totals, NextOperation(Last(r).mem.actions[0]);
            && b == a.(status := Submitted, requests := b.requests, hashes := b.hashes) && |b.requests| == 1 == |b.hashes|
            && b.requests[0] == Item(op, APPROVE, EXPIRES, "approved", true, 4, 0, 4)
            && Last(r').mem.totals == t.(transactions := t.transactions + 1, fee := t.fee + 4, spend := t.fee + 4 + t.protocol)
            && Last(r').disk.totals.spend == t.spend
            && Last(r').wallet.sends == Last(r).wallet.sends + [Send(op, RowTerms(0))]
            && Last(r').wallet.store == Last(r).wallet.store[op := Record(Settled, RowTerms(0), "approved")]
  {
    hide IsRun;
    var op := NextOperation(Last(r).mem.actions[0]);
    r' := ApprovalSent(r, op);
    r' := ApprovalAsked(r', op);
  }

  lemma ApprovalSent(r: Run, op: Operation) returns (r': Run)
    requires IsRun(LEAN, r) && OneAction(Last(r)) && Last(r).stage == Working(0, false)
    requires Last(r).mem.actions[0].requests == [] && Last(r).mem.totals.transactions + 1 <= 16
    requires op == NextOperation(Last(r).mem.actions[0]) && op !in Last(r).wallet.store
    ensures IsRun(LEAN, r') && OneAction(Last(r'))
    ensures var m, w := WithSubmission(WithStatus(Last(r).mem, 0, SubmissionAttempted), 0, Item(op, APPROVE, EXPIRES, "approved", false, 4, 0, 0)),
                        Last(r).wallet;
            Last(r') == Last(r).(mem := m, disk := m, stage := Working(0, true),
                                 wallet := Wallet(w.store[op := Record(Sent, RowTerms(0), "approved")], w.sends + [Send(op, RowTerms(0))]))
  {
    hide IsRun;
    r' := RowSubmitted(r, false, "approved", true);
    r' := ApprovalRecorded(r', op);
  }

  /** The next request is prepared, marked durably and sent; the adapter may stop before it notes the hash. */
  lemma RowSubmitted(r: Run, flag: bool, hash: Hash, noted: bool) returns (r': Run)
    requires IsRun(LEAN, r) && OneAction(Last(r)) && Last(r).stage == Working(0, flag)
    requires |Last(r).mem.actions[0].requests| < 2 && AllConfirmed(Last(r).mem.actions[0].requests) && Last(r).mem.totals.transactions + 1 <= 16
    requires NewOrPrepared(Last(r).wallet, NextOperation(Last(r).mem.actions[0]), RowTerms(|Last(r).mem.actions[0].requests|))
    ensures IsRun(LEAN, r')
    ensures var m, w, op, terms := WithStatus(Last(r).mem, 0, SubmissionAttempted), Last(r).wallet,
                                   NextOperation(Last(r).mem.actions[0]), RowTerms(|Last(r).mem.actions[0].requests|);
            Last(r') == Last(r).(mem := m, disk := m, stage := SubmittedRow(0),
                                 wallet := Wallet(w.store[op := if noted then Record(Sent, terms, hash) else Record(Prepared, terms, "")],
                                                  w.sends + [Send(op, terms)]))
  {
    hide IsRun, PrepareStep, SubmitStep;
    var m := Last(r).mem;
    var w, op, terms := Last(r).wallet, NextOperation(m.actions[0]), RowTerms(|m.actions[0].requests|);
    assert MaySubmit(LEAN, m, 0) && MaySubmit(LEAN, WithStatus(m, 0, SubmissionAttempted), 0);
    hide MaySubmit, AllConfirmed;
    WalletMoves(w, op, terms, hash);
    r' := RequestPrepared(r, flag, WithPrepared(w, op, terms));
    r' := AttemptMarked(r', flag);
    w := WithPrepared(w, op, terms);
    WalletMoves(w, op, terms, hash);
    r' := RequestSubmitted(r', if noted then WithSent(w, op, terms, hash) else w.(sends := w.sends + [Send(op, terms)]));
  }

  lemma ApprovalRecorded(r: Run, op: Operation) returns (r': Run)
    requires IsRun(LEAN, r) && OneAction(Last(r)) && Last(r).stage == SubmittedRow(0) && Last(r).mem.actions[0].requests == []
    requires Last(r).mem.totals.transactions + 1 <= 16 && op == NextOperation(Last(r).mem.actions[0])
    ensures IsRun(LEAN, r')
    ensures var m := WithSubmission(Last(r).mem, 0, Item(op, APPROVE, EXPIRES, "approved", false, 4, 0, 0));
            Last(r') == Last(r).(mem := m, disk := m, stage := Working(0, true))
  {
    LeanPolicy();
    hide IsRun, Next, RowCost, Sized, Cost;
    var item := Item(op, APPROVE, EXPIRES, "approved", false, 4, 0, 0);
    RecordTaken(LEAN, Last(r), 0, item);
    r' := Push(r, RecordSubmission(0, item), Last(r).(mem := WithSubmission(Last(r).mem, 0, item), stage := RecordedRow(0)));
    SaveTaken(LEAN, Last(r'));
    r' := Push(r', Save, Last(r').(disk := Last(r').mem, stage := Working(0, true)));
  }

  lemma ApprovalAsked(r: Run, op: Operation) returns (r': Run)
    requires IsRun(LEAN, r) && OneAction(Last(r)) && Last(r).stage == Working(0, true)
    requires Last(r).mem.actions[0].requests == [Item(op, APPROVE, EXPIRES, "approved", false, 4, 0, 0)]
    requires op in Last(r).wallet.store && Last(r).wallet.store[op].status == Sent
    ensures IsRun(LEAN, r')
    ensures var w := Last(r).wallet;
            Last(r') == Last(r).(mem := WithConfirmation(Last(r).mem, 0, 4), stage := ConfirmedRow(0, true),
                                 wallet := w.(store := w.store[op := w.store[op].(status := Settled)]))
  {
    hide IsRun, Next;
    var w := Last(r).wallet.(store := Last(r).wallet.store[op := Last(r).wallet.store[op].(status := Settled)]);
    assert ConfirmStep(Last(r).wallet, op, w);
    QuestionTaken(LEAN, Last(r), 0, true, w);
    r' := Push(r, CallConfirm(op), Last(r).(wallet := w, stage := ConfirmingRow(0, true)));
    ConfirmationTaken(LEAN, Last(r'), 0, true, 4);
    r' := Push(r', Step.Confirm(0, 4), Last(r').(mem := WithConfirmation(Last(r').mem, 0, 4), stage := ConfirmedRow(0, true)));
  }

  /** After its approval an attempt fails: past the cap at once, otherwise when its next request cannot be prepared. */
  lemma AttemptFails(r: Run) returns (r': Run)
    requires IsRun(LEAN, r) && Last(r).stage == ConfirmedRow(0, true) && OneAction(Last(r).(disk := Last(r).mem))
    requires |Last(r).mem.actions[0].requests| == 1 && Last(r).mem.actions[0].requests[0].confirmed
    ensures IsRun(LEAN, r')
    ensures Last(r') == Last(r).(disk := if Last(r).mem.totals.spend <= 9 then Last(r).mem else Last(r).disk, stage := Failing(0, true))
  {
    hide IsRun, Next;
    r' := r;
    if Last(r).mem.totals.spend <= 9 {
      SaveTaken(LEAN, Last(r'));
      r' := Push(r', Save, Last(r').(disk := Last(r').mem, stage := Working(0, true)));
      Unmoved(Last(r').wallet, NextOperation(Last(r').mem.actions[0]), SWAP);
      r' := RequestPrepared(r', true, Last(r').wallet);
    }
    r' := Threw(r', true);
  }

  // ----- revocations -----

  const REVOKED := Terms(REVOKE, EXPIRES, 4, 1, 1)

  /** The revocation of the current attempt is prepared and sent. */
  lemma RevocationSent(r: Run) returns (r': Run)
    requires IsRun(LEAN, r) && Last(r).stage == Failing(0, true) && MayRevoke(LEAN, Last(r).mem, 0)
    requires Revoke(Last(r).mem.actions[0].id, Last(r).mem.actions[0].attempt) !in Last(r).wallet.store
    ensures IsRun(LEAN, r') && |Last(r).mem.actions| > 0
    ensures var w, op := Last(r).wallet, Revoke(Last(r).mem.actions[0].id, Last(r).mem.actions[0].attempt);
            Last(r') == Last(r).(stage := Stage.SentRevocation(0),
                                 wallet := Wallet(w.store[op := Record(Sent, REVOKED, "revoked")], w.sends + [Send(op, REVOKED)]))
  {
    LeanPolicy();
    hide IsRun, Next, MayRevoke, PrepareStep, SubmitStep;
    MayRevokeFirst(Last(r).mem);
    var w, op := Last(r).wallet, Revoke(Last(r).mem.actions[0].id, Last(r).mem.actions[0].attempt);
    WalletMoves(w, op, REVOKED, "revoked");
    RevocationPrepared(LEAN, Last(r), 0, true, WithPrepared(w, op, REVOKED));
    r' := Push(r, CallPrepare(op, REVOKE), Last(r).(wallet := WithPrepared(w, op, REVOKED), stage := PreparedRevocation(0)));
    WalletMoves(WithPrepared(w, op, REVOKED), op, REVOKED, "revoked");
    RevocationTaken(LEAN, Last(r'), 0, EXPIRES, NOW, WithSent(Last(r').wallet, op, REVOKED, "revoked"));
    r' := Push(r', CallRevoke(0, EXPIRES, NOW),
               Last(r').(wallet := WithSent(Last(r').wallet, op, REVOKED, "revoked"), stage := Stage.SentRevocation(0)));
  }

  lemma MayRevokeFirst(m: State)
    requires MayRevoke(LEAN, m, 0)
    ensures |m.actions| > 0
  {
  }

  /** It is confirmed, and the recovery recorded and written; j is the step that records it. */
  lemma RecoverySaved(r: Run, fee: nat) returns (r': Run, j: nat)
    requires IsRun(LEAN, r) && Last(r).stage == Stage.SentRevocation(0) && MayRevoke(LEAN, Last(r).mem, 0) && fee <= 4
    requires var op := Revoke(Last(r).mem.actions[0].id, Last(r).mem.actions[0].attempt);
             op in Last(r).wallet.store && Last(r).wallet.store[op].status == Sent
    ensures IsRun(LEAN, r') && |Last(r).mem.actions| > 0 && Last(r).mem.actions[0].requests != []
    ensures var w, op, m := Last(r).wallet, Revoke(Last(r).mem.actions[0].id, Last(r).mem.actions[0].attempt),
                            WithRecovery(Last(r).mem, 0, "revoked", fee);
            Last(r') == Last(r).(mem := m, disk := m, wallet := w.(store := w.store[op := w.store[op].(status := Settled)]), stage := Over)
    ensures j + 1 < |r'.steps| && j < |r'.states| && r'.steps[j] == Recover(0, "revoked", fee) && r'.steps[j + 1] == Save
    ensures r'.states[j].mem == Last(r).mem
  {
    hide IsRun, Next, MayRevoke;
    MayRevokeFirst(Last(r).mem);
    var op := Revoke(Last(r).mem.actions[0].id, Last(r).mem.actions[0].attempt);
    var w := Last(r).wallet.(store := Last(r).wallet.store[op := Last(r).wallet.store[op].(status := Settled)]);
    assert ConfirmStep(Last(r).wallet, op, w);
    RevocationQuestionTaken(LEAN, Last(r), 0, w);
    r' := Push(r, CallConfirm(op), Last(r).(wallet := w, stage := ConfirmingRevocation(0)));
    RecoveryTaken(LEAN, Last(r'), 0, "revoked", fee);
    RevokableRequests(Last(r').mem);
    j := |r'.steps|;
    r' := Push(r', Recover(0, "revoked", fee), Last(r').(mem := WithRecovery(Last(r').mem, 0, "revoked", fee), stage := RecoveredAttempt(0)));
    SaveTaken(LEAN, Last(r'));
    r' := Push(r', Save, Last(r').(disk := Last(r').mem, stage := Over));
  }

  lemma RevokableRequests(m: State)
    requires MayRevoke(LEAN, m, 0)
    ensures m.actions[0].requests != []
  {
  }

  // ----- attempts that end in a recovery -----

  /** At the start of an attempt: its operations are new to the adapter. */
  ghost predicate Attempting(r: Run) {
    && IsRun(LEAN, r) && OneAction(Last(r)) && Last(r).stage == Working(0, false)
    && var a, t := Last(r).mem.actions[0], Last(r).mem.totals;
    && a.requests == [] && a.hashes == [] && t.spend == t.fee && t.protocol == 0
    && forall op | op in Last(r).wallet.store :: op.attempt < a.attempt
  }

  /** One attempt that costs 4 for its approval and `fee` for its revocation. */
  lemma AbandonedAttempt(r: Run, fee: nat) returns (r': Run, j: nat)
    requires Attempting(r) && Last(r).mem.totals.transactions + 2 <= 16 && fee <= 4
    ensures Attempting(r') && Last(r').disk.totals.spend == Last(r).disk.totals.spend + 4 + fee
    ensures Last(r').mem.totals.transactions == Last(r).mem.totals.transactions + 2
    ensures |Last(r').mem.actions[0].recoveries| == |Last(r).mem.actions[0].recoveries| + 1
    ensures |Last(r').wallet.sends| == |Last(r).wallet.sends| + 2
    ensures j + 1 < |r'.steps| && j < |r'.states| && r'.steps[j] == Recover(0, "revoked", fee) && r'.steps[j + 1] == Save
    ensures r'.states[j].mem.totals.spend == Last(r).disk.totals.spend + 4
  {
    hide IsRun;
    var a := Last(r).mem.actions[0];
    r' := ApprovalConfirmed(r);
    r' := AttemptFails(r');
    assert MayRevoke(LEAN, Last(r').mem, 0);
    r' := RevocationSent(r');
    r', j := RecoverySaved(r', fee);
    r' := Stopped(r');
    r' := Reentered(r');
  }

  /** The documented cap on native spend does not hold of runs with recoveries: with a cap of 9, a run with n
      recoveries and 2n transactions leaves 8n on disk as spent, for every n that the transaction cap of 16 allows. */
  lemma {:induction false} SpendPassesCap(n: nat) returns (r: Run)
    requires 2 * n <= LEAN.policy.maximumTransactions
    ensures ValidPolicy(LEAN.policy, 0) && LEAN.policy.maximumSpend == 9
    ensures Attempting(r) && Last(r).disk.totals.spend == 8 * n
    ensures |Last(r).disk.actions[0].recoveries| == n && Last(r).disk.totals.transactions == 2 * n == |Last(r).wallet.sends|
  {
    LeanPolicy();
    hide IsRun;
    if n == 0 {
      r := Started();
    } else {
      r := SpendPassesCap(n - 1);
      var j;
      r, j := AbandonedAttempt(r, 4);
    }
  }

  /** Room for a revocation's whole gas limit is not needed to stay within the cap: here a recovery is recorded and
      written from a spend of 8, with a gas limit of 4 and a cap of 9, and leaves exactly 9. */
  lemma GuardIsNotNecessary() returns (r: Run, j: nat)
    ensures IsRun(LEAN, r) && j + 1 < |r.steps| && j < |r.states| && r.steps[j].Recover? && r.steps[j + 1].Save?
    ensures r.states[j].mem.totals.spend + LEAN.policy.recoveryGas * LEAN.policy.maximumFee > LEAN.policy.maximumSpend
    ensures Last(r).disk.totals.spend <= LEAN.policy.maximumSpend
  {
    hide IsRun;
    r := Started();
    r, j := AbandonedAttempt(r, 0);
    r, j := AbandonedAttempt(r, 1);
  }

  /** The reserve of an unknown outcome is kept by the process that saw it, but not by the next one: that a
      submission was attempted is not remembered, so a failure to prepare releases the reserve although the
      wallet was handed the transaction. */
  lemma UnknownOutcomeReleased() returns (r: Run)
    ensures IsRun(LEAN, r) && ValidPolicy(LEAN.policy, 0)
    ensures var d, sends := Last(r).disk, Last(r).wallet.sends;
            && |d.actions| == 1 && d.actions[0].reserve == None && d.actions[0].requests == []
            && d.totals.maximum == 0 && d.totals.transactions == 0
            && |sends| == 1 && sends[0].operation == NextOperation(d.actions[0])
  {
    LeanPolicy();
    hide IsRun, Next, MaySubmit;
    r := Started();
    r := RowSubmitted(r, false, "", false);
    r := Threw(r, true);
    UnknownTaken(LEAN, Last(r), 0);
    r := Push(r, MarkUnknown(0), Last(r).(mem := WithStatus(Last(r).mem, 0, OutcomeUnknown), stage := Noted(0)));
    SaveTaken(LEAN, Last(r));
    r := Push(r, Save, Last(r).(disk := Last(r).mem, stage := Over));
    r := Stopped(r);
    r := Reentered(r);
    r := ReserveDropped(r);
  }

  /** The next request cannot be prepared, and the reserve is released. */
  lemma ReserveDropped(r: Run) returns (r': Run)
    requires IsRun(LEAN, r) && OneAction(Last(r)) && Last(r).stage == Working(0, false) && Last(r).mem.actions[0].requests == []
    requires Last(r).mem.totals.maximum >= 9
    ensures IsRun(LEAN, r')
    ensures var m := WithoutReserve(Last(r).mem, 0); Last(r') == Last(r).(mem := m, disk := m, stage := Over)
  {
    hide IsRun, Next;
    Unmoved(Last(r).wallet, NextOperation(Last(r).mem.actions[0]), APPROVE);
    r' := RequestPrepared(r, false, Last(r).wallet);
    r' := Threw(r', false);
    ReleaseUnspentTaken(LEAN, Last(r'), 0);
    r' := Push(r', ReleaseUnspent(0), Last(r').(mem := WithoutReserve(Last(r').mem, 0), stage := Noted(0)));
    SaveTaken(LEAN, Last(r'));
    r' := Push(r', Save, Last(r').(disk := Last(r').mem, stage := Over));
  }

  /** The approval is confirmed and written, and the swap refused. */
  lemma SwapAttempted() returns (r: Run)
    ensures IsRun(LEAN, r) && OneAction(Last(r)) && Last(r).stage == Failing(0, true) && MayRevoke(LEAN, Last(r).mem, 0)
    ensures var a, w := Last(r).mem.actions[0], Last(r).wallet;
            && a.attempt == 1 && |a.requests| == 1 && a.requests[0].confirmed && a.status == SubmissionAttempted
            && Last(r).mem.totals.transactions == 1
            && w.store.Keys == {Submission("a", 1, 0), Submission("a", 1, 1)}
            && w.store[Submission("a", 1, 1)] == Record(Prepared, RowTerms(1), "")
            && |w.sends| == 1 && w.sends[0].operation == Submission("a", 1, 0)
  {
    hide IsRun, Next, MayRevoke;
    r := Started();
    r := ApprovalConfirmed(r);
    SaveTaken(LEAN, Last(r));
    r := Push(r, Save, Last(r).(disk := Last(r).mem, stage := Working(0, true)));
    r := SwapRefused(r);
  }

  /** A revocation that a crash keeps from being recorded does not close its attempt: after the approval the swap is
      marked and refused, the approval is revoked, the process stops, and the next one sends the swap of the same
      attempt. */
  lemma UnrecordedRevocationForgotten() returns (r: Run)
    ensures IsRun(LEAN, r) && ValidPolicy(LEAN.policy, 0)
    ensures var sends := Last(r).wallet.sends;
            && |sends| == 3 && sends[0].operation == Submission("a", 1, 0) && sends[1].operation == Revoke("a", 1)
            && sends[2].operation == Submission("a", 1, 1)
  {
    LeanPolicy();
    hide IsRun, MayRevoke;
    r := SwapAttempted();
    r := RevocationSent(r);
    r := Stopped(r);
    r := Reentered(r);
    r := RowSubmitted(r, false, "swapped", true);
  }

  /** The swap is prepared and marked durably, and the adapter refuses to submit it. */
  lemma SwapRefused(r: Run) returns (r': Run)
    requires IsRun(LEAN, r) && OneAction(Last(r)) && Last(r).stage == Working(0, true) && Last(r).mem.totals.transactions + 1 <= 16
    requires var a := Last(r).mem.actions[0]; |a.requests| == 1 && a.requests[0].confirmed && NextOperation(a) !in Last(r).wallet.store
    ensures IsRun(LEAN, r') && MayRevoke(LEAN, Last(r').mem, 0)
    ensures var m, op := WithStatus(Last(r).mem, 0, SubmissionAttempted), NextOperation(Last(r).mem.actions[0]);
            var w := WithPrepared(Last(r).wallet, op, RowTerms(1));
            Last(r') == Last(r).(mem := m, disk := m, wallet := w, stage := Failing(0, true))
  {
    hide IsRun, PrepareStep, SubmitStep;
    var op := NextOperation(Last(r).mem.actions[0]);
    WalletMoves(Last(r).wallet, op, RowTerms(1), "");
    assert MaySubmit(LEAN, Last(r).mem, 0) && MaySubmit(LEAN, WithStatus(Last(r).mem, 0, SubmissionAttempted), 0);
    r' := RequestPrepared(r, true, WithPrepared(Last(r).wallet, op, RowTerms(1)));
    r' := AttemptMarked(r', true);
    Unmoved(Last(r').wallet, op, SWAP);
    r' := RequestSubmitted(r', Last(r').wallet);
    r' := Threw(r', true);
  }
}
