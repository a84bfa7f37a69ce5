/** What any continuation can still submit of an attempt that a stopped process left on disk with its reserve: any
    number of processes, executing any actions. */
module RunnerAttempts {
  import opened Wrappers
  import opened RunnerState
  import opened Wallet
  import opened RunnerMachine
  import opened RunnerInvariant
  import opened RunnerSafety
  import opened RunnerStages
  import opened RunnerHistory
  import opened RunnerCap
  import opened RunnerResume
  import opened RunnerRestart
  import opened RunnerRevocation

  /** A request, a transaction, and room in the cap for a value that is still to be confirmed. */
  predicate Left(env: Env, d: State, i: nat) {
    && i < |d.actions|
    && var a := d.actions[i];
    && |a.requests| < |env.content(a.id).rows|
    && d.totals.transactions + 1 <= env.policy.maximumTransactions
    && (Unconfirmed(a) ==> d.totals.spend + LastValue(a) <= env.policy.maximumSpend)
  }

  // ----- transactions only grow -----

  lemma TransactionsGrow(env: Env, m: State, step: Step, m': State)
    requires MemoryStep(env, m, step, m')
    ensures m.totals.transactions <= m'.totals.transactions
  {
    hide MaySubmit, MayConfirm, ItemAccepted, KnownId, Sized, ReserveOf, Spent, AllConfirmed;
  }

  ghost predicate TransactionsFrom(s: Sys, count: nat) {
    count <= s.disk.totals.transactions && count <= s.mem.totals.transactions
  }

  lemma TransactionsKept(env: Env, s: Sys, step: Step, s': Sys, count: nat)
    requires Next(env, s, step, s') && TransactionsFrom(s, count)
    ensures TransactionsFrom(s', count)
  {
    if ChangesMemory(step) {
      MemoryChanged(env, s, step, s');
      TransactionsGrow(env, s.mem, step, s'.mem);
      hide Next, MemoryStep;
    } else if step.Save? || step.Crash? {
      hide Moves;
    } else {
      SpendSame(env, s, step, s');
      hide Next;
    }
  }

  // ----- an unconfirmed value that does not fit -----

  /** A confirmation in memory that is never written. */
  predicate Unsaved(stage: Stage, i: nat) {
    || (stage.ConfirmedRow? && stage.i == i) || (stage.Failing? && stage.i == i) || stage == PreparedRevocation(i)
    || stage == SentRevocation(i) || stage == ConfirmingRevocation(i) || stage.Over?
  }

  /** The attempt is over, or its request x is recorded with this value and not confirmed. */
  predicate Waits(m: State, i: nat, attempt: nat, x: nat, value: nat) {
    && OfFamily(m, i, Evm)
    && var a := m.actions[i];
    a.attempt > attempt || (a.attempt == attempt && |a.requests| > x && !a.requests[x].confirmed && a.requests[x].protocol == value)
  }

  /** From spend `spent` on, with a cap below spent + value: the request is never confirmed durably. */
  ghost predicate Stuck(env: Env, s: Sys, i: nat, attempt: nat, x: nat, value: nat, spent: nat) {
    && Waits(s.disk, i, attempt, x, value) && spent <= s.disk.totals.spend && spent <= s.mem.totals.spend
    && OfFamily(s.mem, i, Evm) && s.mem.actions[i].attempt >= attempt
    && (Waits(s.mem, i, attempt, x, value) || (s.mem.actions[i].requests != [] && Unsaved(s.stage, i)))
    && (s.stage.ConfirmedRow? && s.stage.i == i && !Waits(s.mem, i, attempt, x, value) ==> s.mem.totals.spend > env.policy.maximumSpend)
  }

  lemma StuckSaved(env: Env, s: Sys, s': Sys, i: nat, attempt: nat, x: nat, value: nat, spent: nat)
    requires Next(env, s, Save, s') && Stuck(env, s, i, attempt, x, value, spent)
    ensures Stuck(env, s', i, attempt, x, value, spent)
  {
  }

  lemma StuckStopped(env: Env, s: Sys, s': Sys, i: nat, attempt: nat, x: nat, value: nat, spent: nat)
    requires Next(env, s, Crash, s') && Stuck(env, s, i, attempt, x, value, spent)
    ensures Stuck(env, s', i, attempt, x, value, spent)
  {
    hide Unsaved;
  }

  /** Only the last request of an action can be confirmed. */
  lemma LastUnconfirmed(env: Env, m: State, i: nat, x: nat)
    requires StateOk(env, m) && i < |m.actions| && x < |m.actions[i].requests| && !m.actions[i].requests[x].confirmed
    ensures x == |m.actions[i].requests| - 1
  {
    assert ActionOk(env, m.actions[i]);
    assert ItemOk(env, m.actions[i], x);
  }

  lemma StuckConfirmed(env: Env, s: Sys, step: Step, s': Sys, i: nat, attempt: nat, x: nat, value: nat, spent: nat)
    requires StateOk(env, s.mem) && Next(env, s, step, s') && step.Confirm? && step.i == i
    requires Stuck(env, s, i, attempt, x, value, spent) && spent + value > env.policy.maximumSpend
    ensures Stuck(env, s', i, attempt, x, value, spent)
  {
    if s.mem.actions[i].attempt == attempt {
      LastUnconfirmed(env, s.mem, i, x);
    }
    assert TotalsOk(env, s.mem);
    hide StateOk;
  }

  lemma StuckRecovered(env: Env, s: Sys, step: Step, s': Sys, i: nat, attempt: nat, x: nat, value: nat, spent: nat)
    requires StateOk(env, s.mem) && Next(env, s, step, s') && step.Recover? && step.i == i && Stuck(env, s, i, attempt, x, value, spent)
    ensures Stuck(env, s', i, attempt, x, value, spent)
  {
    SpendMoves(env, s.mem, step, s'.mem);
    hide StateOk;
  }

  lemma StuckRecorded(env: Env, s: Sys, step: Step, s': Sys, i: nat, attempt: nat, x: nat, value: nat, spent: nat)
    requires Next(env, s, step, s') && step.RecordSubmission? && step.i == i && Stuck(env, s, i, attempt, x, value, spent)
    ensures Stuck(env, s', i, attempt, x, value, spent)
  {
    hide ItemAccepted;
  }

  /** The other updates of the action keep its attempt and its requests. */
  lemma RequestsKept(env: Env, m: State, step: Step, m': State)
    requires MemoryStep(env, m, step, m') && ChangesAction(step) && !step.Confirm? && !step.Recover? && !step.RecordSubmission?
    ensures step.i < |m.actions| && step.i < |m'.actions|
    ensures m'.actions[step.i].attempt == m.actions[step.i].attempt && m'.actions[step.i].requests == m.actions[step.i].requests
  {
    hide AllConfirmed, Spent, ReserveOf, Sized;
  }

  /** Where the action is not touched, only the stage moves. */
  lemma StuckMoves(env: Env, s: Sys, step: Step, s': Sys, i: nat)
    requires Next(env, s, step, s') && !step.Save? && !step.Crash? && !step.Recover? && i < |s.mem.actions| && s.mem.actions[i].requests != []
    requires s.mem.actions[i].family == Evm
    ensures Unsaved(s.stage, i) ==> Unsaved(s'.stage, i)
    ensures s'.stage.ConfirmedRow? ==> step.Confirm? && s'.stage.i == step.i
    ensures Unsaved(s.stage, i) ==> !step.Confirm?
  {
    if step.ReleaseUnspent? || step.MarkUnknown? {
      NothingRecorded(env, s, step, s');
    }
    hide Effect, MaySubmit, MayRevoke, MayPrepare, MayPrepareRevocation, AwaitsConfirmation, AnyReleasable;
  }

  lemma NothingRecorded(env: Env, s: Sys, step: Step, s': Sys)
    requires Next(env, s, step, s') && (step.ReleaseUnspent? || step.MarkUnknown?)
    ensures step.i < |s.mem.actions| && s.mem.actions[step.i].requests == []
    ensures s.stage.Failing? && s.stage.i == step.i
  {
  }

  lemma StuckOther(env: Env, s: Sys, step: Step, s': Sys, i: nat, attempt: nat, x: nat, value: nat, spent: nat)
    requires StateOk(env, s.mem) && Next(env, s, step, s') && Stuck(env, s, i, attempt, x, value, spent)
    requires s'.disk == s.disk && s.mem.totals.spend <= s'.mem.totals.spend
    requires |s.mem.actions| <= |s'.mem.actions|
    requires var a, b := s.mem.actions[i], s'.mem.actions[i]; b.attempt == a.attempt && b.family == a.family && b.requests == a.requests
    requires !step.Save? && !step.Crash? && !(step.Recover? && step.i == i) && !(step.Confirm? && step.i == i)
    ensures Stuck(env, s', i, attempt, x, value, spent)
  {
    if s.mem.actions[i].requests != [] {
      if step.Recover? {
        OtherRecovered(env, s, step, s', i);
      } else {
        StuckMoves(env, s, step, s', i);
      }
    }
    hide Next, StateOk;
  }

  lemma OtherRecovered(env: Env, s: Sys, step: Step, s': Sys, i: nat)
    requires Next(env, s, step, s') && step.Recover? && step.i != i
    ensures !Unsaved(s.stage, i) && !s'.stage.ConfirmedRow?
  {
    hide Effect;
  }

  lemma StuckKept(env: Env, s: Sys, step: Step, s': Sys, i: nat, attempt: nat, x: nat, value: nat, spent: nat)
    requires SysOk(env, s) && Next(env, s, step, s') && Stuck(env, s, i, attempt, x, value, spent)
    requires spent + value > env.policy.maximumSpend
    ensures Stuck(env, s', i, attempt, x, value, spent)
  {
    hide Next, Stuck, StateOk, Ahead, KeysOk, SendsAgree, MemoryStep;
    if step.Save? {
      StuckSaved(env, s, s', i, attempt, x, value, spent);
    } else if step.Crash? {
      StuckStopped(env, s, s', i, attempt, x, value, spent);
    } else if step.Confirm? && step.i == i {
      StuckConfirmed(env, s, step, s', i, attempt, x, value, spent);
    } else if step.Recover? && step.i == i {
      StuckRecovered(env, s, step, s', i, attempt, x, value, spent);
    } else if step.RecordSubmission? && step.i == i {
      StuckRecorded(env, s, step, s', i, attempt, x, value, spent);
    } else {
      ActionKept(env, s, step, s', i, attempt, x, value, spent);
      StuckOther(env, s, step, s', i, attempt, x, value, spent);
    }
  }

  lemma ActionKept(env: Env, s: Sys, step: Step, s': Sys, i: nat, attempt: nat, x: nat, value: nat, spent: nat)
    requires StateOk(env, s.mem) && Next(env, s, step, s') && Stuck(env, s, i, attempt, x, value, spent) && !step.Save? && !step.Crash?
    requires !((step.Confirm? || step.Recover? || step.RecordSubmission?) && step.i == i)
    ensures i < |s.mem.actions| <= |s'.mem.actions| && s'.disk == s.disk && s.mem.totals.spend <= s'.mem.totals.spend
    ensures var a, b := s.mem.actions[i], s'.mem.actions[i]; b.attempt == a.attempt && b.family == a.family && b.requests == a.requests
  {
    assert i < |s.mem.actions|;
    hide Stuck, StateOk;
    if ChangesMemory(step) {
      MemoryChanged(env, s, step, s');
      hide Next;
      SpendMoves(env, s.mem, step, s'.mem);
      ActionSame(env, s.mem, step, s'.mem, i);
    } else {
      SpendSame(env, s, step, s');
      OthersSame(env, s, step, s');
      hide Next;
    }
  }

  lemma ActionSame(env: Env, m: State, step: Step, m': State, i: nat)
    requires MemoryStep(env, m, step, m') && i < |m.actions| && ChangesMemory(step)
    requires !((step.Confirm? || step.Recover? || step.RecordSubmission?) && step.i == i)
    ensures |m.actions| <= |m'.actions|
    ensures var a, b := m.actions[i], m'.actions[i]; b.attempt == a.attempt && b.family == a.family && b.requests == a.requests
  {
    if ChangesAction(step) {
      OneChanged(env, m, step, m');
      if step.i == i {
        RequestsKept(env, m, step, m');
      }
      hide MemoryStep;
    }
  }

  // ----- over a whole continuation -----

  /** Run r' agrees with r up to state k; there the process stops, and anything follows. */
  ghost predicate GoesOnFrom(env: Env, r: Run, k: nat, r': Run) {
    && IsRun(env, r') && k < |r'.steps| && k < |r.states| && k <= |r.steps|
    && r'.states[..k + 1] == r.states[..k + 1] && r'.steps[..k] == r.steps[..k] && r'.steps[k].Crash?
  }

  lemma {:induction false} TransactionsUntil(env: Env, r: Run, k: nat, n: nat)
    requires IsRun(env, r) && k < n < |r.states| && r.steps[k].Crash?
    ensures TransactionsFrom(r.states[n], r.states[k].disk.totals.transactions)
  {
    RunStep(env, r, k);
    if n == k + 1 {
    } else {
      hide Next;
      TransactionsUntil(env, r, k, n - 1);
      TransactionsKept(env, r.states[n - 1], r.steps[n - 1], r.states[n], r.states[k].disk.totals.transactions);
    }
  }

  lemma {:induction false} StuckUntil(env: Env, r: Run, k: nat, n: nat, i: nat)
    requires IsRun(env, r) && k < n < |r.states| && r.steps[k].Crash? && OfFamily(r.states[k].disk, i, Evm)
    requires var d := r.states[k].disk; Unconfirmed(d.actions[i]) && d.totals.spend + LastValue(d.actions[i]) > env.policy.maximumSpend
    ensures var d := r.states[k].disk; var a := d.actions[i];
            Stuck(env, r.states[n], i, a.attempt, |a.requests| - 1, LastValue(a), d.totals.spend)
  {
    hide Stuck, SysOk;
    if n == k + 1 {
      StuckAtFirst(env, r.states[k], r.states[n], i);
    } else {
      hide Next;
      StuckUntil(env, r, k, n - 1, i);
      RunOk(env, r, n - 1);
      var d := r.states[k].disk;
      var a := d.actions[i];
      StuckKept(env, r.states[n - 1], r.steps[n - 1], r.states[n], i, a.attempt, |a.requests| - 1, LastValue(a), d.totals.spend);
    }
  }

  lemma StuckAtFirst(env: Env, s: Sys, s': Sys, i: nat)
    requires Next(env, s, Crash, s') && OfFamily(s.disk, i, Evm) && Unconfirmed(s.disk.actions[i])
    ensures var a := s.disk.actions[i]; Stuck(env, s', i, a.attempt, |a.requests| - 1, LastValue(a), s.disk.totals.spend)
  {
  }

  /** A stuck attempt submits nothing. */
  lemma StuckIsNotSubmitted(env: Env, s: Sys, step: Step, s': Sys, i: nat, attempt: nat, x: nat, value: nat, spent: nat)
    requires Next(env, s, step, s') && Stuck(env, s, i, attempt, x, value, spent) && step.CallSubmit? && step.i == i
    ensures s.mem.actions[i].attempt != attempt
  {
    hide SubmitStep;
  }

  /** Whatever follows a stop: a request of the attempt on disk is only submitted if one was left, with a transaction
      and room for the value that was not yet confirmed. */
  lemma SubmissionNeedsLeft(env: Env, r: Run, k: nat, n: nat, i: nat, op: Operation)
    requires IsRun(env, r) && k < n < |r.steps| && r.steps[k].Crash? && OfFamily(r.states[k].disk, i, Evm)
    requires op.action == r.states[k].disk.actions[i].id && op.attempt == r.states[k].disk.actions[i].attempt
    requires r.steps[n].CallSubmit? && Submits(r.states[n], r.steps[n], op)
    ensures Left(env, r.states[k].disk, i)
  {
    var d := r.states[k].disk;
    SubmittedFrom(env, r, k, n, i, op);
    TransactionsUntil(env, r, k, n);
    if Unconfirmed(d.actions[i]) && d.totals.spend + LastValue(d.actions[i]) > env.policy.maximumSpend {
      hide IsRun, Next, MaySubmit;
      NeverSubmitted(env, r, k, n, i);
    }
  }

  lemma NeverSubmitted(env: Env, r: Run, k: nat, n: nat, i: nat)
    requires IsRun(env, r) && k < n < |r.steps| && r.steps[k].Crash? && OfFamily(r.states[k].disk, i, Evm)
    requires var d := r.states[k].disk; Unconfirmed(d.actions[i]) && d.totals.spend + LastValue(d.actions[i]) > env.policy.maximumSpend
    ensures i < |r.states[n].mem.actions|
    ensures r.steps[n].CallSubmit? && r.steps[n].i == i ==> r.states[n].mem.actions[i].attempt != r.states[k].disk.actions[i].attempt
  {
    var d := r.states[k].disk;
    var a := d.actions[i];
    StuckUntil(env, r, k, n, i);
    if r.steps[n].CallSubmit? && r.steps[n].i == i {
      RunStep(env, r, n);
      hide IsRun, Next;
      StuckIsNotSubmitted(env, r.states[n], r.steps[n], r.states[n + 1], i, a.attempt, |a.requests| - 1, LastValue(a), d.totals.spend);
    }
  }

  lemma SubmittedFrom(env: Env, r: Run, k: nat, n: nat, i: nat, op: Operation)
    requires IsRun(env, r) && k < n < |r.steps| && OfFamily(r.states[k].disk, i, Evm)
    requires op.action == r.states[k].disk.actions[i].id && op.attempt == r.states[k].disk.actions[i].attempt
    requires r.steps[n].CallSubmit? && Submits(r.states[n], r.steps[n], op)
    ensures r.steps[n].i == i && Next(env, r.states[n], r.steps[n], r.states[n + 1]) && MaySubmit(env, r.states[n].mem, i)
    ensures r.states[n].mem.actions[i].attempt == op.attempt && r.states[n].mem.actions[i].family == Evm
    ensures |r.states[k].disk.actions[i].requests| < |env.content(op.action).rows|
  {
    RunStep(env, r, n);
    DiskAhead(env, r, k, n, i);
    RunOk(env, r, n);
    hide IsRun, StateOk;
    MaySubmitted(env, r.states[n], r.steps[n], r.states[n + 1]);
    assert AheadAction(r.states[n].disk.actions[i], r.states[n].mem.actions[i]);
    SameIndex(env, r.states[n].mem, r.steps[n].i, i);
    hide Next;
  }

  lemma MaySubmitted(env: Env, s: Sys, step: Step, s': Sys)
    requires Next(env, s, step, s') && step.CallSubmit?
    ensures MaySubmit(env, s.mem, step.i)
  {
    hide Moves, SubmitStep;
  }

  /** Some continuation submits a further request of this attempt. */
  ghost predicate Continues(env: Env, r: Run, k: nat, id: ActionId, attempt: nat, index: nat) {
    exists r': Run, n: nat :: ContinuesAt(env, r, k, r', n, Submission(id, attempt, index))
  }

  ghost predicate ContinuesAt(env: Env, r: Run, k: nat, r': Run, n: nat, op: Operation) {
    GoesOnFrom(env, r, k, r') && k < n < |r'.steps| && r'.steps[n].CallSubmit? && Submits(r'.states[n], r'.steps[n], op)
  }

  lemma ContinuesNeeds(env: Env, r: Run, k: nat, i: nat, index: nat)
    requires k < |r.states| && OfFamily(r.states[k].disk, i, Evm)
    requires Continues(env, r, k, r.states[k].disk.actions[i].id, r.states[k].disk.actions[i].attempt, index)
    ensures Left(env, r.states[k].disk, i)
  {
    hide Next, Left;
    var op := Submission(r.states[k].disk.actions[i].id, r.states[k].disk.actions[i].attempt, index);
    var r': Run, n: nat :| ContinuesAt(env, r, k, r', n, op);
    assert r'.states[k] == r'.states[..k + 1][k] == r.states[k];
    SubmissionNeedsLeft(env, r', k, n, i, op);
  }

  lemma LeftResumable(env: Env, d: State, i: nat)
    requires d.totals.maximum >= Excess(d.actions) && Left(env, d, i) && d.actions[i].reserve.Some? && !Releasable(d.actions[i])
    ensures Resumable(env, Loaded(d), i)
  {
    LoadedAction(d, i);
    hide Excess, Room;
  }

  /** An attempt on disk holds its reserve, and the process stops: some continuation submits a further request of it
      exactly when a request and a transaction are left, and room for a value that is still to be confirmed. */
  lemma AttemptContinuesIff(env: Env, r: Run, k: nat, i: nat)
    requires IsRun(env, r) && k < |r.states| && OfFamily(r.states[k].disk, i, Evm)
    requires r.states[k].disk.actions[i].reserve.Some? && !Releasable(r.states[k].disk.actions[i])
    ensures var a := r.states[k].disk.actions[i];
            (exists index: nat :: Continues(env, r, k, a.id, a.attempt, index)) <==> Left(env, r.states[k].disk, i)
  {
    var d := r.states[k].disk;
    var a := d.actions[i];
    hide Left, Continues;
    if index: nat :| Continues(env, r, k, a.id, a.attempt, index) {
      ContinuesNeeds(env, r, k, i, index);
    }
    if Left(env, d, i) {
      LeftContinues(env, r, k, i);
    }
  }

  lemma LeftContinues(env: Env, r: Run, k: nat, i: nat)
    requires IsRun(env, r) && k < |r.states| && OfFamily(r.states[k].disk, i, Evm) && Left(env, r.states[k].disk, i)
    requires r.states[k].disk.actions[i].reserve.Some? && !Releasable(r.states[k].disk.actions[i])
    ensures var a := r.states[k].disk.actions[i]; Continues(env, r, k, a.id, a.attempt, |a.requests|)
  {
    var d := r.states[k].disk;
    RunOk(env, r, k);
    LedgerCoversExcess(env, d);
    LeftResumable(env, d, i);
    hide Left, Resumable, Excess, SysOk, IsRun;
    var r', n := Resumed(env, r, k, i);
    assert ContinuesAt(env, r, k, r', n, NextOperation(d.actions[i]));
  }

  /** A revocation was sent at step j, and a process stops at a later moment k with the reserve still held: some
      continuation submits a request after the approval of the revoked attempt exactly when the recovery is not on
      disk, and a request and a transaction are left, and room for the approval's value if it is not confirmed there. */
  lemma RevokedAttemptContinuesIff(env: Env, r: Run, j: nat, k: nat)
    requires IsRun(env, r) && j < k < |r.states| && j < |r.steps| && r.steps[j].CallRevoke?
    requires var i := r.steps[j].i; i < |r.states[k].disk.actions| && r.states[k].disk.actions[i].reserve.Some? && !Releasable(r.states[k].disk.actions[i])
    ensures var i, d := r.steps[j].i, r.states[k].disk;
            && i < |r.states[j].mem.actions|
            && var a := r.states[j].mem.actions[i];
            (exists index: nat :: index >= 1 && Continues(env, r, k, a.id, a.attempt, index)) <==>
            d.actions[i].attempt == a.attempt && Left(env, d, i)
  {
    RevokedOnDisk(env, r, j);
    var i, d := r.steps[j].i, r.states[k].disk;
    DiskAhead(env, r, j, k, i);
    var a := r.states[j].mem.actions[i];
    hide IsRun, Left, Continues;
    if index: nat :| index >= 1 && Continues(env, r, k, a.id, a.attempt, index) {
      NotOver(env, r, k, i, a.attempt, index);
      ContinuesNeeds(env, r, k, i, index);
    }
    if d.actions[i].attempt == a.attempt && Left(env, d, i) {
      LeftContinues(env, r, k, i);
    }
  }

  /** A closed attempt submits nothing in any continuation. */
  lemma NotOver(env: Env, r: Run, k: nat, i: nat, attempt: nat, index: nat)
    requires k < |r.states| && OfFamily(r.states[k].disk, i, Evm) && r.states[k].disk.actions[i].attempt >= attempt
    requires Continues(env, r, k, r.states[k].disk.actions[i].id, attempt, index)
    ensures r.states[k].disk.actions[i].attempt == attempt
  {
    hide Next;
    var op := Submission(r.states[k].disk.actions[i].id, attempt, index);
    var r': Run, n: nat :| ContinuesAt(env, r, k, r', n, op);
    assert r'.states[k] == r'.states[..k + 1][k] == r.states[k];
    if r.states[k].disk.actions[i].attempt > attempt {
      assert PastAction(r'.states[k].disk.actions[i], op);
      SubmittedNoMore(env, r', k, n, op);
    }
  }
}
