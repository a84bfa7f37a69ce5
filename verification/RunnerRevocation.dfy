/** What a revocation ends: the attempt whose approval it revokes, as soon as its recovery is on disk and not before. */
module RunnerRevocation {
  import opened Wrappers
  import opened RunnerState
  import opened Wallet
  import opened RunnerMachine
  import opened RunnerInvariant
  import opened RunnerSafety
  import opened RunnerStages
  import opened RunnerHistory
  import opened RunnerResume
  import opened RunnerRestart

  /** Between two calls about an EVM action the file agrees with memory. */
  ghost predicate AgreesOk(s: Sys) {
    (s.stage.Working? || s.stage.PreparedRow? || s.stage.ConfirmingRow?) && OfFamily(s.mem, s.stage.i, Evm) ==> s.mem == s.disk
  }

  ghost predicate Approved(m: State, i: nat) {
    OfFamily(m, i, Evm) && |m.actions[i].requests| == 1 && m.actions[i].requests[0].confirmed
  }

  /** A confirmed approval was recorded on disk before its confirmation was asked for. */
  ghost predicate ApprovedOk(s: Sys) {
    Engaged(s.stage).Some? && Approved(s.mem, Engaged(s.stage).value) ==>
      var i := Engaged(s.stage).value;
      i < |s.disk.actions| && s.disk.actions[i].attempt == s.mem.actions[i].attempt && |s.disk.actions[i].requests| == 1
  }

  lemma AgreesKeeps(env: Env, s: Sys, step: Step, s': Sys)
    requires Next(env, s, step, s') && AgreesOk(s)
    ensures AgreesOk(s')
  {
    hide MaySubmit, MayRevoke, MayConfirm, ItemAccepted, KnownId, SubmitStep, PrepareStep, ConfirmStep, Sized, ReserveOf, Spent, AllConfirmed,
         MayPrepare, MayPrepareRevocation, AwaitsConfirmation, HasPending, AnyReleasable;
  }

  lemma ApprovedRecorded(env: Env, s: Sys, step: Step, s': Sys)
    requires Next(env, s, step, s') && ApprovedOk(s) && step.RecordSubmission?
    ensures ApprovedOk(s')
  {
    assert s'.mem.actions[step.i].requests == s.mem.actions[step.i].requests + [step.item];
    hide MaySubmit, RowCost, PayloadValue;
  }

  lemma ApprovedConfirmed(env: Env, s: Sys, step: Step, s': Sys)
    requires Next(env, s, step, s') && AgreesOk(s) && step.Confirm?
    ensures ApprovedOk(s')
  {
  }

  lemma ApprovedDropped(env: Env, s: Sys, step: Step, s': Sys)
    requires Next(env, s, step, s') && step.Recover?
    ensures ApprovedOk(s')
  {
  }

  lemma ApprovedChanged(env: Env, s: Sys, step: Step, s': Sys)
    requires Next(env, s, step, s') && AgreesOk(s) && ApprovedOk(s) && ChangesAction(step)
    ensures ApprovedOk(s')
  {
    if step.RecordSubmission? {
      hide Next, ApprovedOk;
      ApprovedRecorded(env, s, step, s');
    } else if step.Confirm? {
      hide Next, ApprovedOk;
      ApprovedConfirmed(env, s, step, s');
    } else if step.Recover? {
      hide Next, ApprovedOk;
      ApprovedDropped(env, s, step, s');
    } else {
      hide MaySubmit, MayRevoke, MayConfirm, ItemAccepted, Sized, ReserveOf, Spent, AllConfirmed, AgreesOk;
    }
  }

  lemma ApprovedKeeps(env: Env, s: Sys, step: Step, s': Sys)
    requires Next(env, s, step, s') && AgreesOk(s) && ApprovedOk(s)
    ensures ApprovedOk(s')
  {
    if ChangesAction(step) {
      ApprovedChanged(env, s, step, s');
    } else if step.Crash? || step.AddAction? {
      hide Effect;
    } else {
      OthersSame(env, s, step, s');
      hide Effect, MaySubmit, MayRevoke, MayPrepare, MayPrepareRevocation, AwaitsConfirmation;
    }
  }

  lemma {:induction false} RunApprovedOk(env: Env, r: Run, k: nat)
    requires IsRun(env, r) && k < |r.states|
    ensures AgreesOk(r.states[k]) && ApprovedOk(r.states[k])
  {
    assert AgreesOk(START) && ApprovedOk(START);
    hide Next, AgreesOk, ApprovedOk;
    if k > 0 {
      RunApprovedOk(env, r, k - 1);
      AgreesKeeps(env, r.states[k - 1], r.steps[k - 1], r.states[k]);
      ApprovedKeeps(env, r.states[k - 1], r.steps[k - 1], r.states[k]);
    }
  }

  lemma DiskAheadStep(env: Env, s: Sys, step: Step, s': Sys, i: nat)
    requires SysOk(env, s) && Next(env, s, step, s') && i < |s.disk.actions|
    ensures i < |s'.disk.actions| && AheadAction(s.disk.actions[i], s'.disk.actions[i])
  {
    hide StateOk, KeysOk, Moves, MemoryStep;
  }

  /** The file never goes back. */
  lemma {:induction false} DiskAhead(env: Env, r: Run, j: nat, k: nat, i: nat)
    requires IsRun(env, r) && j <= k < |r.states| && i < |r.states[j].disk.actions|
    ensures i < |r.states[k].disk.actions| && AheadAction(r.states[j].disk.actions[i], r.states[k].disk.actions[i])
  {
    hide Next, SysOk;
    if j < k {
      DiskAhead(env, r, j, k - 1, i);
      RunOk(env, r, k - 1);
      DiskAheadStep(env, r.states[k - 1], r.steps[k - 1], r.states[k], i);
    }
  }

  /** When a revocation is sent, the approval is on disk under the same attempt. */
  lemma RevokedOnDisk(env: Env, r: Run, j: nat)
    requires IsRun(env, r) && j < |r.steps| && r.steps[j].CallRevoke?
    ensures var i := r.steps[j].i;
            && i < |r.states[j].mem.actions| && r.states[j].mem.actions[i].family == Evm && i < |r.states[j].disk.actions|
            && var a, b := r.states[j].mem.actions[i], r.states[j].disk.actions[i];
            b.id == a.id && b.family == Evm && b.attempt == a.attempt && |b.requests| == 1
  {
    RunStep(env, r, j);
    RunApprovedOk(env, r, j);
    RunStageOk(env, r, j);
    RunOk(env, r, j);
    hide IsRun, StateOk;
    assert EngagedOk(r.states[j]);
    assert AheadAction(r.states[j].disk.actions[r.steps[j].i], r.states[j].mem.actions[r.steps[j].i]);
  }

  /** The process after state k can submit a request of this attempt that comes after its approval. */
  ghost predicate GoesOn(env: Env, r: Run, k: nat, id: ActionId, attempt: nat) {
    exists index: nat :: index >= 1 && Resubmits(env, r, k, Submission(id, attempt, index))
  }

  /** A revocation was sent at step j, and the process stops at any later moment k: the next process can go on with
      the revoked attempt exactly when the recovery is not on disk, so that the attempt there is still the same, and
      there is room left for its next request. */
  lemma RevokedAttemptResumesIff(env: Env, r: Run, j: nat, k: nat)
    requires IsRun(env, r) && j < k < |r.states| && j < |r.steps| && r.steps[j].CallRevoke?
    ensures var i, d := r.steps[j].i, r.states[k].disk;
            && i < |r.states[j].mem.actions| && i < |d.actions| && d.totals.maximum >= Excess(d.actions)
            && var a := r.states[j].mem.actions[i];
            GoesOn(env, r, k, a.id, a.attempt) <==> d.actions[i].attempt == a.attempt && Resumable(env, Loaded(d), i)
  {
    RevokedOnDisk(env, r, j);
    var i, d := r.steps[j].i, r.states[k].disk;
    DiskAhead(env, r, j, k, i);
    RunOk(env, r, k);
    LedgerCoversExcess(env, d);
    var a := r.states[j].mem.actions[i];
    hide IsRun, SysOk, Resubmits, Resumable;
    forall index: nat
      ensures Resubmits(env, r, k, Submission(a.id, a.attempt, index)) <==>
              Submission(a.id, a.attempt, index) == NextOperation(d.actions[i]) && Resumable(env, Loaded(d), i)
    {
      AttemptResumesIff(env, r, k, i, Submission(a.id, a.attempt, index));
    }
    hide Loaded, Excess;
    assert d.actions[i].attempt == a.attempt ==> NextOperation(d.actions[i]) == Submission(a.id, a.attempt, |d.actions[i].requests|);
  }

  /** Once the recovery is on disk, no operation of the revoked attempt is ever submitted again. */
  lemma RevokedAttemptOver(env: Env, r: Run, j: nat, k: nat, l: nat, op: Operation)
    requires IsRun(env, r) && j < k <= l < |r.steps| && r.steps[j].CallRevoke?
    requires r.steps[j].i < |r.states[j].mem.actions| && r.steps[j].i < |r.states[k].disk.actions|
    requires op.action == r.states[j].mem.actions[r.steps[j].i].id && op.attempt == r.states[j].mem.actions[r.steps[j].i].attempt
    requires r.states[k].disk.actions[r.steps[j].i].attempt != op.attempt
    ensures !Submits(r.states[l], r.steps[l], op)
  {
    RevokedOnDisk(env, r, j);
    DiskAhead(env, r, j, k, r.steps[j].i);
    hide IsRun;
    assert PastAction(r.states[k].disk.actions[r.steps[j].i], op);
    SubmittedNoMore(env, r, k, l, op);
  }
}
