/** When each step of the machine can be taken, and where it leads. */
module RunnerSteps {
  import opened Wrappers
  import opened RunnerState
  import opened Wallet
  import opened RunnerMachine

  lemma Unmoved(w: Wallet, op: Operation, payload: Payload)
    ensures PrepareStep(w, op, payload, w) && SubmitStep(w, op, w) && ConfirmStep(w, op, w)
  {
  }

  lemma SaveTaken(env: Env, s: Sys)
    requires AfterSave(env, s.mem, s.stage).Some?
    ensures Next(env, s, Save, s.(disk := s.mem, stage := AfterSave(env, s.mem, s.stage).value))
  {
    hide AfterSave, KnownId, MaySubmit, MayRevoke, ItemAccepted, MayConfirm, Sized, ReserveOf, Spent, AllConfirmed, HasPending,
      SubmitStep, PrepareStep, ConfirmStep, AnyReleasable, MayPrepare, MayPrepareRevocation, AwaitsConfirmation;
  }

  lemma CrashTaken(env: Env, s: Sys)
    ensures Next(env, s, Crash, s.(mem := s.disk, stage := Loading))
  {
    hide AfterSave, KnownId, MaySubmit, MayRevoke, ItemAccepted, MayConfirm, Sized, ReserveOf, Spent, AllConfirmed, HasPending,
      SubmitStep, PrepareStep, ConfirmStep, AnyReleasable, MayPrepare, MayPrepareRevocation, AwaitsConfirmation;
  }

  lemma FailTaken(env: Env, s: Sys)
    requires AfterFail(s.mem, s.stage).Some?
    ensures Next(env, s, Fail, s.(stage := AfterFail(s.mem, s.stage).value))
  {
    hide AfterSave, AfterFail, KnownId, MaySubmit, MayRevoke, ItemAccepted, MayConfirm, Sized, ReserveOf, Spent, AllConfirmed,
      HasPending, SubmitStep, PrepareStep, ConfirmStep, AnyReleasable, MayPrepare, MayPrepareRevocation, AwaitsConfirmation;
  }

  // ----- starting, observing -----

  lemma ReleaseTaken(env: Env, s: Sys, x: nat)
    requires (s.stage.Loading? || s.stage.Finishing?) && x < |s.mem.actions| && Releasable(s.mem.actions[x])
    requires Spent(s.mem.actions[x].requests) <= s.mem.actions[x].reserve.value <= s.mem.totals.maximum
    ensures Next(env, s, ReleaseConfirmed(x), s.(mem := WithActual(s.mem, x)))
  {
    hide AfterSave, AfterFail, KnownId, MaySubmit, MayRevoke, ItemAccepted, MayConfirm, Sized, ReserveOf, Spent, AllConfirmed,
      HasPending, SubmitStep, PrepareStep, ConfirmStep, AnyReleasable, MayPrepare, MayPrepareRevocation, AwaitsConfirmation;
  }

  lemma OpenTaken(env: Env, s: Sys)
    requires s.stage.Loading? && s.mem == s.disk && !AnyReleasable(s.mem.actions, |s.mem.actions|)
    ensures Next(env, s, Open, s.(stage := Idle))
  {
    hide AfterSave, AfterFail, KnownId, MaySubmit, MayRevoke, ItemAccepted, MayConfirm, Sized, ReserveOf, Spent, AllConfirmed,
      HasPending, SubmitStep, PrepareStep, ConfirmStep, AnyReleasable, MayPrepare, MayPrepareRevocation, AwaitsConfirmation;
  }

  lemma CountTaken(env: Env, s: Sys)
    requires s.stage.Idle?
    ensures Next(env, s, CountOperation, s.(mem := s.mem.(counter := s.mem.counter + 1)))
  {
    hide AfterSave, AfterFail, KnownId, MaySubmit, MayRevoke, ItemAccepted, MayConfirm, Sized, ReserveOf, Spent, AllConfirmed,
      HasPending, SubmitStep, PrepareStep, ConfirmStep, AnyReleasable, MayPrepare, MayPrepareRevocation, AwaitsConfirmation;
  }

  lemma KeyTaken(env: Env, s: Sys, name: Name)
    requires s.stage.Idle? && name !in s.mem.idempotency && s.spent < s.mem.counter == s.disk.counter
    ensures Next(env, s, AssignKey(name), s.(mem := s.mem.(idempotency := s.mem.idempotency[name := s.mem.counter]), spent := s.mem.counter))
  {
    hide AfterSave, AfterFail, KnownId, MaySubmit, MayRevoke, ItemAccepted, MayConfirm, Sized, ReserveOf, Spent, AllConfirmed,
      HasPending, SubmitStep, PrepareStep, ConfirmStep, AnyReleasable, MayPrepare, MayPrepareRevocation, AwaitsConfirmation;
  }

  lemma ObservationTaken(env: Env, s: Sys, x: nat)
    requires s.stage.Idle? && s.mem == s.disk && x < |s.mem.actions| && s.mem.actions[x].hashes != []
    requires Source(s.mem.actions[x].step, s.mem.actions[x].id) in s.disk.idempotency
    ensures Next(env, s, CallObserveSource(x), s.(stage := Observing(x)))
  {
    hide AfterSave, AfterFail, KnownId, MaySubmit, MayRevoke, ItemAccepted, MayConfirm, Sized, ReserveOf, Spent, AllConfirmed, HasPending, SubmitStep,
      PrepareStep, ConfirmStep, AnyReleasable, MayPrepare, MayPrepareRevocation, AwaitsConfirmation;
  }

  lemma AcceptanceTaken(env: Env, s: Sys, x: nat)
    requires s.stage == Observing(x) && x < |s.mem.actions| && s.mem.actions[x].requests != []
    ensures Next(env, s, MarkObserved(x), s.(mem := WithStatus(s.mem, x, Observed), stage := Idle))
  {
    hide AfterSave, AfterFail, KnownId, MaySubmit, MayRevoke, ItemAccepted, MayConfirm, Sized, ReserveOf, Spent, AllConfirmed, HasPending, SubmitStep,
      PrepareStep, ConfirmStep, AnyReleasable, MayPrepare, MayPrepareRevocation, AwaitsConfirmation;
  }

  lemma OutputTaken(env: Env, s: Sys, n: nat)
    requires s.stage.Idle? && s.mem == s.disk && Output(n) in s.disk.idempotency
    ensures Next(env, s, CallObserveOutput(n), s)
  {
    hide AfterSave, AfterFail, KnownId, MaySubmit, MayRevoke, ItemAccepted, MayConfirm, Sized, ReserveOf, Spent, AllConfirmed, HasPending, SubmitStep,
      PrepareStep, ConfirmStep, AnyReleasable, MayPrepare, MayPrepareRevocation, AwaitsConfirmation;
  }

  lemma RefreshTaken(env: Env, s: Sys, n: nat)
    requires s.stage.Idle? && s.mem == s.disk && s.spent < s.disk.counter && !HasPending(s.mem, n)
    ensures Next(env, s, CallRefresh(n), s.(spent := s.disk.counter))
  {
    hide AfterSave, AfterFail, KnownId, MaySubmit, MayRevoke, ItemAccepted, MayConfirm, Sized, ReserveOf, Spent, AllConfirmed, HasPending, SubmitStep,
      PrepareStep, ConfirmStep, AnyReleasable, MayPrepare, MayPrepareRevocation, AwaitsConfirmation;
  }

  lemma CompletionTaken(env: Env, s: Sys, output: nat)
    requires s.stage.Idle? && output >= env.policy.minimumFinal
    ensures Next(env, s, Complete(output), s.(mem := s.mem.(complete := true)))
  {
    hide AfterSave, AfterFail, KnownId, MaySubmit, MayRevoke, ItemAccepted, MayConfirm, Sized, ReserveOf, Spent, AllConfirmed, HasPending, SubmitStep,
      PrepareStep, ConfirmStep, AnyReleasable, MayPrepare, MayPrepareRevocation, AwaitsConfirmation;
  }

  // ----- entering an execution -----

  lemma ExecutionTaken(env: Env, s: Sys, id: ActionId, n: nat, family: Family)
    requires s.stage.Idle? && !HasPending(s.mem, n)
    ensures Next(env, s, BeginExecution(id, n, family), s.(stage := Entered(id, n, family)))
  {
    hide AfterSave, AfterFail, KnownId, MaySubmit, MayRevoke, ItemAccepted, MayConfirm, Sized, ReserveOf, Spent, AllConfirmed,
      HasPending, SubmitStep, PrepareStep, ConfirmStep, AnyReleasable, MayPrepare, MayPrepareRevocation, AwaitsConfirmation;
  }

  lemma AddTaken(env: Env, s: Sys)
    requires s.stage.Entered? && !KnownId(s.mem, s.stage.id)
    ensures var id, n, family := s.stage.id, s.stage.step, s.stage.family;
            Next(env, s, AddAction(id, n, family), s.(mem := s.mem.(actions := s.mem.actions + [Fresh(id, n, family)])))
  {
    hide AfterSave, AfterFail, KnownId, MaySubmit, MayRevoke, ItemAccepted, MayConfirm, Sized, ReserveOf, Spent, AllConfirmed,
      HasPending, SubmitStep, PrepareStep, ConfirmStep, AnyReleasable, MayPrepare, MayPrepareRevocation, AwaitsConfirmation;
  }

  lemma ReserveTaken(env: Env, s: Sys, i: nat)
    requires i < |s.mem.actions| && s.mem.actions[i].family == Evm && s.mem.actions[i].reserve.None? && Sized(env, s.mem.actions[i].id)
    requires s.stage == Entered(s.mem.actions[i].id, s.mem.actions[i].step, Evm)
    requires s.mem.totals.maximum + ReserveOf(env, s.mem.actions[i].id) <= env.policy.maximumSpend
    ensures Next(env, s, Reserve(i), s.(mem := WithReserve(s.mem, i, ReserveOf(env, s.mem.actions[i].id))))
  {
    hide AfterSave, AfterFail, KnownId, MaySubmit, MayRevoke, ItemAccepted, MayConfirm, Sized, ReserveOf, Spent, AllConfirmed,
      HasPending, SubmitStep, PrepareStep, ConfirmStep, AnyReleasable, MayPrepare, MayPrepareRevocation, AwaitsConfirmation;
  }

  lemma EnterTaken(env: Env, s: Sys, i: nat)
    requires s.stage.Entered? && IsAction(s.mem, i, s.stage.id, s.stage.step, s.stage.family)
    requires s.stage.family == Evm ==> s.mem == s.disk && s.mem.actions[i].reserve.Some?
    ensures Next(env, s, Enter(i), s.(stage := Working(i, false)))
  {
    hide AfterSave, AfterFail, KnownId, MaySubmit, MayRevoke, ItemAccepted, MayConfirm, Sized, ReserveOf, Spent, AllConfirmed, HasPending, SubmitStep,
      PrepareStep, ConfirmStep, AnyReleasable, MayPrepare, MayPrepareRevocation, AwaitsConfirmation;
  }

  // ----- one request -----

  lemma PreparationTaken(env: Env, s: Sys, i: nat, flag: bool, w: Wallet)
    requires s.stage == Working(i, flag) && MayPrepare(env, s.mem, i)
    requires var a := s.mem.actions[i]; PrepareStep(s.wallet, NextOperation(a), env.content(a.id).rows[|a.requests|], w)
    ensures var a := s.mem.actions[i];
            Next(env, s, CallPrepare(NextOperation(a), env.content(a.id).rows[|a.requests|]), s.(wallet := w, stage := PreparedRow(i, flag)))
  {
    hide AfterSave, AfterFail, KnownId, MaySubmit, MayRevoke, ItemAccepted, MayConfirm, Sized, ReserveOf, Spent, AllConfirmed,
      HasPending, SubmitStep, PrepareStep, ConfirmStep, AnyReleasable, MayPrepareRevocation, AwaitsConfirmation;
  }

  lemma MarkTaken(env: Env, s: Sys, i: nat, flag: bool)
    requires s.stage == PreparedRow(i, flag) && MaySubmit(env, s.mem, i) && s.mem.actions[i].family == Evm
    ensures Next(env, s, MarkAttempted(i), s.(mem := WithStatus(s.mem, i, SubmissionAttempted), stage := MarkedRow(i)))
  {
    hide AfterSave, AfterFail, KnownId, MayRevoke, ItemAccepted, MayConfirm, Sized, ReserveOf, Spent, AllConfirmed, HasPending,
      SubmitStep, PrepareStep, ConfirmStep, AnyReleasable, MayPrepare, MayPrepareRevocation, AwaitsConfirmation;
  }

  lemma SubmissionTaken(env: Env, s: Sys, i: nat, expires: int, now: int, w: Wallet)
    requires s.mem == s.disk && MaySubmit(env, s.mem, i) && WindowOpen(env.policy, expires, now)
    requires s.stage == MarkedRow(i) || (s.stage.PreparedRow? && s.stage.i == i && s.mem.actions[i].family == Solana)
    requires SubmitStep(s.wallet, NextOperation(s.mem.actions[i]), w)
    ensures Next(env, s, CallSubmit(i, expires, now), s.(wallet := w, stage := SubmittedRow(i)))
  {
    hide AfterSave, AfterFail, KnownId, MayRevoke, ItemAccepted, MayConfirm, Sized, ReserveOf, Spent, AllConfirmed, HasPending,
      SubmitStep, PrepareStep, ConfirmStep, AnyReleasable, MayPrepare, MayPrepareRevocation, AwaitsConfirmation;
  }

  lemma RecordTaken(env: Env, s: Sys, i: nat, item: Item)
    requires s.stage == SubmittedRow(i) && MaySubmit(env, s.mem, i) && ItemAccepted(env, s.mem.actions[i], item)
    ensures Next(env, s, RecordSubmission(i, item), s.(mem := WithSubmission(s.mem, i, item), stage := RecordedRow(i)))
  {
    hide AfterSave, AfterFail, KnownId, MayRevoke, MayConfirm, Sized, ReserveOf, Spent, AllConfirmed, HasPending, SubmitStep,
      PrepareStep, ConfirmStep, AnyReleasable, MayPrepare, MayPrepareRevocation, AwaitsConfirmation;
  }

  lemma QuestionTaken(env: Env, s: Sys, i: nat, flag: bool, w: Wallet)
    requires s.stage == Working(i, flag) && i < |s.mem.actions| && s.mem.actions[i].requests != []
    requires var item := s.mem.actions[i].requests[|s.mem.actions[i].requests| - 1];
             !item.confirmed && ConfirmStep(s.wallet, item.operation, w)
    ensures var item := s.mem.actions[i].requests[|s.mem.actions[i].requests| - 1];
            Next(env, s, CallConfirm(item.operation), s.(wallet := w, stage := ConfirmingRow(i, flag)))
  {
    hide AfterSave, AfterFail, KnownId, MaySubmit, MayRevoke, ItemAccepted, MayConfirm, Sized, ReserveOf, Spent, AllConfirmed,
      HasPending, SubmitStep, PrepareStep, ConfirmStep, AnyReleasable, MayPrepare, MayPrepareRevocation;
  }

  lemma ConfirmationTaken(env: Env, s: Sys, i: nat, flag: bool, fee: nat)
    requires s.stage == ConfirmingRow(i, flag) && MayConfirm(env, s.mem, i, fee)
    ensures i < |s.mem.actions| && s.mem.actions[i].requests != []
    ensures Next(env, s, Step.Confirm(i, fee), s.(mem := WithConfirmation(s.mem, i, fee), stage := ConfirmedRow(i, flag)))
  {
    hide AfterSave, AfterFail, KnownId, MaySubmit, MayRevoke, ItemAccepted, Sized, ReserveOf, Spent, AllConfirmed, HasPending,
      SubmitStep, PrepareStep, ConfirmStep, AnyReleasable, MayPrepare, MayPrepareRevocation, AwaitsConfirmation;
  }

  lemma FinishTaken(env: Env, s: Sys, i: nat)
    requires s.stage.Working? && s.stage.i == i && i < |s.mem.actions| && AllConfirmed(s.mem.actions[i].requests)
    requires |s.mem.actions[i].requests| == (if s.mem.actions[i].family == Evm then |env.content(s.mem.actions[i].id).rows| else 1) > 0
    ensures Next(env, s, FinishAction(i), s.(mem := WithStatus(s.mem, i, Confirmed), stage := Finishing(i)))
  {
    hide AfterSave, AfterFail, KnownId, MaySubmit, MayRevoke, ItemAccepted, MayConfirm, Sized, ReserveOf, Spent, AllConfirmed, HasPending, SubmitStep,
      PrepareStep, ConfirmStep, AnyReleasable, MayPrepare, MayPrepareRevocation, AwaitsConfirmation;
  }

  // ----- the catch block -----

  lemma ReleaseUnspentTaken(env: Env, s: Sys, i: nat)
    requires s.stage == Failing(i, false) && i < |s.mem.actions| && s.mem.actions[i].reserve.Some? && s.mem.actions[i].requests == []
    requires s.mem.totals.maximum >= s.mem.actions[i].reserve.value
    ensures Next(env, s, ReleaseUnspent(i), s.(mem := WithoutReserve(s.mem, i), stage := Noted(i)))
  {
    hide AfterSave, AfterFail, KnownId, MaySubmit, MayRevoke, ItemAccepted, MayConfirm, Sized, ReserveOf, Spent, AllConfirmed,
      HasPending, SubmitStep, PrepareStep, ConfirmStep, AnyReleasable, MayPrepare, MayPrepareRevocation, AwaitsConfirmation;
  }

  lemma UnknownTaken(env: Env, s: Sys, i: nat)
    requires s.stage == Failing(i, true) && i < |s.mem.actions| && s.mem.actions[i].requests == []
    ensures Next(env, s, MarkUnknown(i), s.(mem := WithStatus(s.mem, i, OutcomeUnknown), stage := Noted(i)))
  {
    hide AfterSave, AfterFail, KnownId, MaySubmit, MayRevoke, ItemAccepted, MayConfirm, Sized, ReserveOf, Spent, AllConfirmed,
      HasPending, SubmitStep, PrepareStep, ConfirmStep, AnyReleasable, MayPrepare, MayPrepareRevocation, AwaitsConfirmation;
  }

  lemma RevocationPrepared(env: Env, s: Sys, i: nat, flag: bool, w: Wallet)
    requires s.stage == Failing(i, flag) && MayRevoke(env, s.mem, i)
    requires var a := s.mem.actions[i]; PrepareStep(s.wallet, Revoke(a.id, a.attempt), env.content(a.id).approval.value, w)
    ensures var a := s.mem.actions[i];
            Next(env, s, CallPrepare(Revoke(a.id, a.attempt), env.content(a.id).approval.value), s.(wallet := w, stage := PreparedRevocation(i)))
  {
    hide AfterSave, AfterFail, KnownId, MaySubmit, ItemAccepted, MayConfirm, Sized, ReserveOf, Spent, AllConfirmed, HasPending,
      SubmitStep, PrepareStep, ConfirmStep, AnyReleasable, MayPrepare, AwaitsConfirmation;
  }

  lemma RevocationTaken(env: Env, s: Sys, i: nat, expires: int, now: int, w: Wallet)
    requires s.stage == PreparedRevocation(i) && MayRevoke(env, s.mem, i) && WindowOpen(env.policy, expires, now)
    requires SubmitStep(s.wallet, Revoke(s.mem.actions[i].id, s.mem.actions[i].attempt), w)
    ensures Next(env, s, CallRevoke(i, expires, now), s.(wallet := w, stage := SentRevocation(i)))
  {
    hide AfterSave, AfterFail, KnownId, MaySubmit, ItemAccepted, MayConfirm, Sized, ReserveOf, Spent, AllConfirmed, HasPending,
      SubmitStep, PrepareStep, ConfirmStep, AnyReleasable, MayPrepare, MayPrepareRevocation, AwaitsConfirmation;
  }

  lemma RevocationQuestionTaken(env: Env, s: Sys, i: nat, w: Wallet)
    requires s.stage == SentRevocation(i) && i < |s.mem.actions|
    requires ConfirmStep(s.wallet, Revoke(s.mem.actions[i].id, s.mem.actions[i].attempt), w)
    ensures Next(env, s, CallConfirm(Revoke(s.mem.actions[i].id, s.mem.actions[i].attempt)), s.(wallet := w, stage := ConfirmingRevocation(i)))
  {
    hide AfterSave, AfterFail, KnownId, MaySubmit, MayRevoke, ItemAccepted, MayConfirm, Sized, ReserveOf, Spent, AllConfirmed,
      HasPending, SubmitStep, PrepareStep, ConfirmStep, AnyReleasable, MayPrepare, MayPrepareRevocation, AwaitsConfirmation;
  }

  lemma RecoveryTaken(env: Env, s: Sys, i: nat, hash: Hash, fee: nat)
    requires s.stage == ConfirmingRevocation(i) && MayRevoke(env, s.mem, i) && fee <= env.policy.recoveryGas * env.policy.maximumFee
    ensures Next(env, s, Recover(i, hash, fee), s.(mem := WithRecovery(s.mem, i, hash, fee), stage := RecoveredAttempt(i)))
  {
    hide AfterSave, AfterFail, KnownId, MaySubmit, ItemAccepted, MayConfirm, Sized, ReserveOf, Spent, AllConfirmed, HasPending,
      SubmitStep, PrepareStep, ConfirmStep, AnyReleasable, MayPrepare, MayPrepareRevocation, AwaitsConfirmation;
  }

  /** A handoff and a clock for which the window is open. */
  lemma SomeWindow(p: Policy) returns (expires: int, now: int)
    ensures WindowOpen(p, expires, now)
  {
    now := (if p.authorizationExpires < p.runnerExpires then p.authorizationExpires else p.runnerExpires) - 1;
    expires := now + p.minimumSubmitRemaining * 1000;
  }
}
