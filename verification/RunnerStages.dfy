/** What the stages of a process mean: which action it works on, what that action holds in memory and on disk, and
    what the flag of its try block remembers. */
module RunnerStages {
  import opened Wrappers
  import opened RunnerState
  import opened Wallet
  import opened RunnerMachine
  import opened RunnerInvariant
  import opened RunnerSafety

  /** The action that an execution is working on. */
  function Engaged(stage: Stage): Option<nat> {
    match stage
    case Working(i, _) => Some(i)
    case PreparedRow(i, _) => Some(i)
    case MarkedRow(i) => Some(i)
    case SubmittedRow(i) => Some(i)
    case RecordedRow(i) => Some(i)
    case ConfirmingRow(i, _) => Some(i)
    case ConfirmedRow(i, _) => Some(i)
    case Failing(i, _) => Some(i)
    case PreparedRevocation(i) => Some(i)
    case SentRevocation(i) => Some(i)
    case ConfirmingRevocation(i) => Some(i)
    case RecoveredAttempt(i) => Some(i)
    case _ => None
  }

  /** No other action of the same step has hashes that the session has not accepted. */
  ghost predicate Alone(m: State, i: nat)
    requires i < |m.actions|
  {
    forall b | 0 <= b < |m.actions| && b != i && m.actions[b].step == m.actions[i].step :: !Pending(m.actions[b], m.actions[b].step)
  }

  /** An EVM action holds its reserve, in memory and on disk. */
  ghost predicate Holding(s: Sys, i: nat)
    requires i < |s.mem.actions|
  {
    && s.mem.actions[i].reserve.Some?
    && i < |s.disk.actions| && s.disk.actions[i].id == s.mem.actions[i].id && s.disk.actions[i].reserve.Some?
  }

  ghost predicate EnteredOk(s: Sys) {
    s.stage.Entered? ==> !HasPending(s.mem, s.stage.step)
  }

  ghost predicate EngagedOk(s: Sys) {
    Engaged(s.stage).Some? ==>
      var i := Engaged(s.stage).value;
      i < |s.mem.actions| && Alone(s.mem, i) && (s.mem.actions[i].family == Evm ==> Holding(s, i))
  }

  /** Stages that only EVM actions reach. */
  ghost predicate CatchOk(s: Sys) {
    && (s.stage.MarkedRow? ==> OfFamily(s.mem, s.stage.i, Evm) && s.mem.actions[s.stage.i].status == SubmissionAttempted)
    && (s.stage.Failing? ==> OfFamily(s.mem, s.stage.i, Evm))
  }

  /** Memory has dropped a reserve that is on disk, with nothing recorded. */
  predicate Dropped(s: Sys, x: nat) {
    && x < |s.disk.actions| && x < |s.mem.actions| && s.disk.actions[x].reserve.Some?
    && s.mem.actions[x].reserve.None? && s.mem.actions[x].requests == []
  }

  /** Such a reserve is about to be written, or lost with the process. */
  ghost predicate DropOk(s: Sys) {
    forall x: nat | Dropped(s, x) :: s.stage == Noted(x) || s.stage.Over?
  }

  ghost predicate StageOk(s: Sys) {
    EnteredOk(s) && EngagedOk(s) && CatchOk(s) && DropOk(s)
  }

  lemma EnteredKeeps(env: Env, s: Sys, step: Step, s': Sys)
    requires Next(env, s, step, s') && EnteredOk(s)
    ensures EnteredOk(s')
  {
    hide MaySubmit, MayRevoke, MayConfirm, ItemAccepted, KnownId, SubmitStep, PrepareStep, ConfirmStep, Sized, ReserveOf, Spent;
  }

  lemma CatchKeeps(env: Env, s: Sys, step: Step, s': Sys)
    requires Next(env, s, step, s') && CatchOk(s) && EngagedOk(s)
    ensures CatchOk(s')
  {
    hide MayRevoke, MayConfirm, ItemAccepted, KnownId, SubmitStep, PrepareStep, ConfirmStep, Sized, ReserveOf, Spent, Alone, Holding;
  }

  /** Steps that change one action. */
  predicate ChangesAction(step: Step) {
    || step.Reserve? || step.MarkAttempted? || step.RecordSubmission? || step.Confirm? || step.ReleaseUnspent? || step.MarkUnknown?
    || step.Recover? || step.FinishAction? || step.ReleaseConfirmed? || step.MarkObserved?
  }

  lemma OneChanged(env: Env, m: State, step: Step, m': State)
    requires MemoryStep(env, m, step, m') && ChangesAction(step)
    ensures step.i < |m.actions| == |m'.actions| && m'.actions == m.actions[step.i := m'.actions[step.i]]
    ensures m'.actions[step.i].id == m.actions[step.i].id && m'.actions[step.i].step == m.actions[step.i].step
    ensures m'.actions[step.i].family == m.actions[step.i].family
  {
    hide ItemAccepted, ReserveOf, Spent, AllConfirmed;
  }

  lemma OthersSame(env: Env, s: Sys, step: Step, s': Sys)
    requires Next(env, s, step, s') && !ChangesAction(step) && !step.Crash? && !step.AddAction?
    ensures s'.mem.actions == s.mem.actions && (s'.disk == s.disk || step.Save?)
  {
    hide Moves, MaySubmit, MayRevoke, SubmitStep, PrepareStep, ConfirmStep, HasPending;
  }

  /** A change of one action leaves the others as they were, and never makes one pending under an execution of
      another. */
  lemma EngagedChanged(env: Env, s: Sys, step: Step, s': Sys)
    requires Next(env, s, step, s') && EngagedOk(s) && ChangesAction(step)
    ensures EngagedOk(s')
  {
    OneChanged(env, s.mem, step, s'.mem);
    hide MaySubmit, MayConfirm, MayRevoke, ItemAccepted, Sized, ReserveOf, Spent, AllConfirmed, KnownId, Pending;
    assert Engaged(s'.stage).Some? ==> Engaged(s.stage) == Engaged(s'.stage) && Engaged(s'.stage).value == step.i;
  }

  lemma EngagedSame(env: Env, s: Sys, step: Step, s': Sys)
    requires Next(env, s, step, s') && StageOk(s) && !ChangesAction(step)
    ensures EngagedOk(s')
  {
    if step.Crash? || step.AddAction? {
      hide Effect;
    } else {
      OthersSame(env, s, step, s');
      hide Effect, CatchOk, DropOk, MaySubmit, MayRevoke, MayPrepare, MayPrepareRevocation, AwaitsConfirmation;
    }
  }

  lemma EngagedKeeps(env: Env, s: Sys, step: Step, s': Sys)
    requires Next(env, s, step, s') && StageOk(s)
    ensures EngagedOk(s')
  {
    if ChangesAction(step) {
      EngagedChanged(env, s, step, s');
    } else {
      EngagedSame(env, s, step, s');
    }
  }

  lemma ReleasedRecorded(env: Env, s: State, i: nat)
    requires StateOk(env, s) && i < |s.actions| && Releasable(s.actions[i])
    ensures s.actions[i].requests != []
  {
    assert ActionOk(env, s.actions[i]);
  }

  /** Only a release in the catch block drops a reserve with nothing recorded. */
  lemma ChangeDrops(env: Env, s: Sys, step: Step, s': Sys)
    requires SysOk(env, s) && Next(env, s, step, s') && StageOk(s) && ChangesAction(step)
    ensures Dropped(s', step.i) ==> step.ReleaseUnspent?
  {
    if step.ReleaseConfirmed? {
      ConfirmedReleased(env, s, step, s');
    } else {
      ReserveStays(env, s, step, s');
    }
  }

  lemma ConfirmedReleased(env: Env, s: Sys, step: Step, s': Sys)
    requires StateOk(env, s.mem) && Next(env, s, step, s') && step.ReleaseConfirmed?
    ensures !Dropped(s', step.i)
  {
    ReleasedRecorded(env, s.mem, step.i);
    hide StateOk;
  }

  lemma ReserveStays(env: Env, s: Sys, step: Step, s': Sys)
    requires Next(env, s, step, s') && StageOk(s) && ChangesAction(step) && !step.ReleaseConfirmed?
    ensures Dropped(s', step.i) ==> step.ReleaseUnspent?
  {
    hide EnteredOk, CatchOk, MaySubmit, ItemAccepted, Sized, ReserveOf, Spent, AllConfirmed;
  }

  lemma DropSame(env: Env, s: Sys, step: Step, s': Sys)
    requires Next(env, s, step, s') && DropOk(s) && !ChangesAction(step) && !step.Crash? && !step.AddAction? && !step.Save?
    ensures DropOk(s')
  {
    OthersSame(env, s, step, s');
    hide Effect, MaySubmit, MayRevoke, MayPrepare, MayPrepareRevocation, AwaitsConfirmation, AnyReleasable;
  }

  lemma DropKeeps(env: Env, s: Sys, step: Step, s': Sys)
    requires SysOk(env, s) && Next(env, s, step, s') && StageOk(s)
    ensures DropOk(s')
  {
    if ChangesAction(step) {
      DropChanged(env, s, step, s');
    } else if step.Crash? || step.AddAction? || step.Save? {
      hide SysOk, StateOk, Moves, EngagedOk, EnteredOk, CatchOk;
      DropPlain(env, s, step, s');
    } else {
      DropSame(env, s, step, s');
    }
  }

  lemma DropPlain(env: Env, s: Sys, step: Step, s': Sys)
    requires Next(env, s, step, s') && DropOk(s) && (step.Crash? || step.AddAction? || step.Save?)
    requires |s.disk.actions| <= |s.mem.actions|
    ensures DropOk(s')
  {
    hide KnownId;
  }

  lemma Moved(env: Env, s: Sys, step: Step, s': Sys)
    requires Next(env, s, step, s') && ChangesAction(step)
    ensures MemoryStep(env, s.mem, step, s'.mem) && s'.disk == s.disk
    ensures step.ReleaseUnspent? ==> s'.stage == Noted(step.i)
  {
    hide MemoryStep;
  }

  lemma DropChanged(env: Env, s: Sys, step: Step, s': Sys)
    requires SysOk(env, s) && Next(env, s, step, s') && StageOk(s) && ChangesAction(step)
    ensures DropOk(s')
  {
    hide Next, SysOk, MemoryStep;
    Moved(env, s, step, s');
    OneChanged(env, s.mem, step, s'.mem);
    ChangeDrops(env, s, step, s');
    Active(env, s, step, s');
    assert forall x: nat | x != step.i && Dropped(s', x) :: Dropped(s, x);
  }

  /** No action changes once the catch block has noted its outcome, or the process is over. */
  lemma Active(env: Env, s: Sys, step: Step, s': Sys)
    requires Next(env, s, step, s') && ChangesAction(step)
    ensures !s.stage.Noted? && !s.stage.Over?
  {
    hide Effect;
  }

  lemma StageKeeps(env: Env, s: Sys, step: Step, s': Sys)
    requires SysOk(env, s) && Next(env, s, step, s') && StageOk(s)
    ensures StageOk(s')
  {
    hide SysOk, Next, EnteredOk, EngagedOk, CatchOk, DropOk;
    EnteredKeeps(env, s, step, s');
    EngagedKeeps(env, s, step, s');
    CatchKeeps(env, s, step, s');
    DropKeeps(env, s, step, s');
  }

  lemma StartStageOk()
    ensures StageOk(START)
  {
  }

  lemma {:induction false} RunStageOk(env: Env, r: Run, k: nat)
    requires IsRun(env, r) && k < |r.states|
    ensures StageOk(r.states[k])
  {
    hide Next, StageOk, SysOk;
    StartStageOk();
    if k > 0 {
      RunStageOk(env, r, k - 1);
      RunOk(env, r, k - 1);
      StageKeeps(env, r.states[k - 1], r.steps[k - 1], r.states[k]);
    }
  }
}
