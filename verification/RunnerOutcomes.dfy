/** What happens to the reserve of a request that was handed to the adapter and never recorded. The flag that keeps
    it is local to one execution: the reserve is dropped by a later execution that fails before marking a request. */
module RunnerOutcomes {
  import opened Wrappers
  import opened RunnerState
  import opened Wallet
  import opened RunnerMachine
  import opened RunnerInvariant
  import opened RunnerSafety
  import opened RunnerStages

  /** Step m begins an execution, and neither another one begins nor the process restarts up to state k. */
  ghost predicate InExecution(r: Run, m: nat, k: nat) {
    m < k <= |r.steps| && r.steps[m].BeginExecution? && forall l | m < l < k :: !r.steps[l].Crash? && !r.steps[l].BeginExecution?
  }

  /** An attempt is marked between step m and state k. */
  ghost predicate Marked(r: Run, m: nat, k: nat) {
    exists l | m < l < k && l < |r.steps| :: r.steps[l].MarkAttempted?
  }

  /** The value of submissionAttempted at a stage of the try block and at the entry of the catch block. */
  function Flag(stage: Stage): Option<bool> {
    match stage
    case Entered(_, _, _) => Some(false)
    case Working(_, attempted) => Some(attempted)
    case PreparedRow(_, attempted) => Some(attempted)
    case MarkedRow(_) => Some(true)
    case SubmittedRow(_) => Some(true)
    case RecordedRow(_) => Some(true)
    case ConfirmingRow(_, attempted) => Some(attempted)
    case ConfirmedRow(_, attempted) => Some(attempted)
    case Failing(_, attempted) => Some(attempted)
    case _ => None
  }

  /** An execution about an EVM action, or about no action yet. */
  ghost predicate OfEvm(s: Sys) {
    Engaged(s.stage).Some? ==> OfFamily(s.mem, Engaged(s.stage).value, Evm)
  }

  lemma FlagChanged(env: Env, s: Sys, step: Step, s': Sys)
    requires Next(env, s, step, s') && Flag(s'.stage).Some? && OfEvm(s') && ChangesAction(step)
    ensures Flag(s.stage).Some? && OfEvm(s) && (Flag(s'.stage).value <==> Flag(s.stage).value || step.MarkAttempted?)
  {
    OneChanged(env, s.mem, step, s'.mem);
    hide Effect, MaySubmit;
  }

  lemma FlagCarried(env: Env, s: Sys, step: Step, s': Sys)
    requires Next(env, s, step, s') && Flag(s'.stage).Some? && OfEvm(s') && !ChangesAction(step)
    requires !step.BeginExecution? && !step.Crash? && !step.AddAction?
    ensures Flag(s.stage).Some? && OfEvm(s) && (Flag(s'.stage).value <==> Flag(s.stage).value)
  {
    OthersSame(env, s, step, s');
    hide Effect, MayRevoke, MayPrepare, MayPrepareRevocation, AwaitsConfirmation, MaySubmit, AnyReleasable;
  }

  lemma FlagStep(env: Env, s: Sys, step: Step, s': Sys)
    requires Next(env, s, step, s') && Flag(s'.stage).Some? && OfEvm(s') && !step.BeginExecution?
    ensures Flag(s.stage).Some? && OfEvm(s) && !step.Crash?
    ensures Flag(s'.stage).value <==> Flag(s.stage).value || step.MarkAttempted?
  {
    if ChangesAction(step) {
      hide Next, OfEvm;
      FlagChanged(env, s, step, s');
    } else if step.Crash? || step.AddAction? {
      hide Effect;
    } else {
      hide Next, OfEvm;
      FlagCarried(env, s, step, s');
    }
  }

  lemma ExecutionGrows(r: Run, m: nat, k: nat)
    requires m < k < |r.steps|
    ensures InExecution(r, m, k) && !r.steps[k].Crash? && !r.steps[k].BeginExecution? ==> InExecution(r, m, k + 1)
    ensures Marked(r, m, k + 1) <==> Marked(r, m, k) || r.steps[k].MarkAttempted?
  {
  }

  lemma Began(env: Env, s: Sys, step: Step, s': Sys)
    requires Next(env, s, step, s') && step.BeginExecution?
    ensures Flag(s'.stage) == Some(false)
  {
    hide Effect;
  }

  lemma NothingMarked(r: Run, m: nat)
    ensures !Marked(r, m, m + 1)
  {
  }

  /** The flag is false on entry of an execution, and true exactly once an attempt was marked in it. */
  lemma {:induction false} FlagRemembers(env: Env, r: Run, k: nat) returns (m: nat)
    requires IsRun(env, r) && k < |r.states| && Flag(r.states[k].stage).Some? && OfEvm(r.states[k])
    ensures InExecution(r, m, k) && (Flag(r.states[k].stage).value <==> Marked(r, m, k))
  {
    assert START.stage.Loading? && k > 0;
    RunStep(env, r, k - 1);
    hide Next, OfEvm, Marked;
    if r.steps[k - 1].BeginExecution? {
      Began(env, r.states[k - 1], r.steps[k - 1], r.states[k]);
      NothingMarked(r, k - 1);
      m := k - 1;
    } else {
      FlagStep(env, r.states[k - 1], r.steps[k - 1], r.states[k]);
      m := FlagRemembers(env, r, k - 1);
      ExecutionGrows(r, m, k - 1);
    }
  }

  lemma ReserveCharged(env: Env, s: Sys, i: nat, attempted: bool)
    requires StateOk(env, s.mem) && StageOk(s) && s.stage == Failing(i, attempted)
    ensures i < |s.mem.actions| && s.mem.actions[i].reserve.Some? && s.mem.actions[i].reserve.value <= s.mem.totals.maximum
  {
    assert CatchOk(s) && EngagedOk(s);
    ChargeWithin(s.mem.actions, i);
    hide ActionOk;
  }

  lemma ReleaseStepExists(env: Env, s: Sys, i: nat, attempted: bool)
    requires i < |s.mem.actions| && s.mem.actions[i].reserve.Some? && s.mem.actions[i].reserve.value <= s.mem.totals.maximum
    requires s.stage == Failing(i, attempted)
    ensures (exists s' :: Next(env, s, ReleaseUnspent(i), s')) <==> s.mem.actions[i].requests == [] && !attempted
  {
    if s.mem.actions[i].requests == [] && !attempted {
      var s' := s.(mem := WithoutReserve(s.mem, i), stage := Noted(i));
      assert Next(env, s, ReleaseUnspent(i), s');
    }
  }

  /** In the catch block: the reserve can be released exactly when nothing is recorded and no attempt was marked
      since this execution began. */
  lemma ReleasedIff(env: Env, r: Run, k: nat, i: nat, attempted: bool) returns (m: nat)
    requires IsRun(env, r) && k < |r.states| && r.states[k].stage == Failing(i, attempted)
    ensures i < |r.states[k].mem.actions| && InExecution(r, m, k)
    ensures (exists s' :: Next(env, r.states[k], ReleaseUnspent(i), s')) <==>
            r.states[k].mem.actions[i].requests == [] && !Marked(r, m, k)
  {
    RunStageOk(env, r, k);
    RunOk(env, r, k);
    ReserveCharged(env, r.states[k], i, attempted);
    hide SysOk, StageOk, IsRun, Next, InExecution, Marked;
    ReleaseStepExists(env, r.states[k], i, attempted);
    m := FlagRemembers(env, r, k);
  }

  /** Step f fails in the try block of an execution of EVM action i begun at m, with nothing recorded and no attempt
      marked in that execution. */
  ghost predicate FailsUnmarked(r: Run, m: nat, f: nat, i: nat)
    requires f < |r.states|
  {
    && InExecution(r, m, f) && f < |r.steps| && r.steps[f].Fail? && !Marked(r, m, f)
    && Engaged(r.states[f].stage) == Some(i) && OfFamily(r.states[f].mem, i, Evm) && r.states[f].mem.actions[i].requests == []
  }

  lemma SameExecution(r: Run, m: nat, m': nat, j: nat, f: nat)
    requires InExecution(r, m, f) && InExecution(r, m', j) && m < j < f
    ensures m == m'
  {
  }

  /** A submission is only made in an execution that marked it. */
  lemma SubmissionMarked(env: Env, r: Run, j: nat) returns (m: nat)
    requires IsRun(env, r) && j < |r.steps| && r.steps[j].CallSubmit? && OfFamily(r.states[j].mem, r.steps[j].i, Evm)
    ensures InExecution(r, m, j) && Marked(r, m, j)
  {
    RunStep(env, r, j);
    assert r.states[j].stage == MarkedRow(r.steps[j].i);
    hide Next;
    m := FlagRemembers(env, r, j);
  }

  /** The only way to a save that drops a durable reserve with nothing recorded. */
  lemma DropBacktrack(env: Env, r: Run, l: nat, i: nat)
    requires IsRun(env, r) && l < |r.steps| && r.steps[l].Save?
    requires i < |r.states[l].disk.actions| && r.states[l].disk.actions[i].reserve.Some?
    requires i < |r.states[l].mem.actions| && r.states[l].mem.actions[i].reserve.None? && r.states[l].mem.actions[i].requests == []
    ensures l >= 2 && r.steps[l - 1] == ReleaseUnspent(i) && r.states[l - 1].stage == Failing(i, false)
    ensures r.steps[l - 2].Fail? && Engaged(r.states[l - 2].stage) == Some(i) && Flag(r.states[l - 2].stage) == Some(false)
    ensures i < |r.states[l - 2].mem.actions| && r.states[l - 2].mem.actions[i].family == Evm && r.states[l - 2].mem.actions[i].requests == []
  {
    hide Next, StageOk;
    RunStageOk(env, r, l);
    DropSaved(env, r.states[l], r.states[l + 1], i);
    assert START.stage.Loading? && l > 0;
    RunStageOk(env, r, l - 1);
    NotedBy(env, r.states[l - 1], r.steps[l - 1], r.states[l], i);
    assert l - 1 > 0;
    FailingBy(env, r.states[l - 2], r.steps[l - 2], r.states[l - 1], i);
  }

  lemma DropSaved(env: Env, s: Sys, s': Sys, i: nat)
    requires StageOk(s) && Next(env, s, Save, s')
    requires i < |s.disk.actions| && s.disk.actions[i].reserve.Some?
    requires i < |s.mem.actions| && s.mem.actions[i].reserve.None? && s.mem.actions[i].requests == []
    ensures s.stage == Noted(i)
  {
    hide EngagedOk, EnteredOk, CatchOk, Effect;
  }

  lemma NotedBy(env: Env, s: Sys, step: Step, s': Sys, i: nat)
    requires Next(env, s, step, s') && StageOk(s) && s'.stage == Noted(i)
    requires i < |s'.mem.actions| && s'.mem.actions[i].reserve.None? && s'.mem.actions[i].requests == []
    ensures step == ReleaseUnspent(i) && s.stage == Failing(i, false) && i < |s.mem.actions| && s.mem.actions[i].requests == []
  {
    hide DropOk, EnteredOk, Alone;
  }

  lemma FailingBy(env: Env, s: Sys, step: Step, s': Sys, i: nat)
    requires Next(env, s, step, s') && s'.stage == Failing(i, false)
    ensures step.Fail? && Engaged(s.stage) == Some(i) && Flag(s.stage) == Some(false) && s'.mem == s.mem && OfFamily(s.mem, i, Evm)
  {
  }

  /** After a failure that marked and recorded nothing, only the release, its save and the end of the process follow. */
  ghost predicate Releasing(s: Sys, i: nat) {
    && i < |s.mem.actions| && s.mem.actions[i].requests == []
    && (s.stage == Failing(i, false) || s.stage.Over? || (s.stage == Noted(i) && s.mem.actions[i].reserve.None?))
  }

  lemma ReleasingStep(env: Env, s: Sys, step: Step, s': Sys, i: nat)
    requires Next(env, s, step, s') && Releasing(s, i) && !step.Crash?
    ensures Releasing(s', i) && (step.Save? ==> s.mem.actions[i].reserve.None?)
  {
    hide MaySubmit, MayConfirm, ItemAccepted, SubmitStep, PrepareStep, ConfirmStep, Sized, ReserveOf, Spent, AllConfirmed, KnownId;
  }

  lemma {:induction false} ReleasingUntil(env: Env, r: Run, f: nat, l: nat, i: nat)
    requires IsRun(env, r) && f <= l < |r.states| && Releasing(r.states[f], i) && forall n | f <= n < l :: !r.steps[n].Crash?
    ensures Releasing(r.states[l], i)
  {
    hide Next, Releasing;
    if f < l {
      ReleasingUntil(env, r, f, l - 1, i);
      RunStep(env, r, l - 1);
      ReleasingStep(env, r.states[l - 1], r.steps[l - 1], r.states[l], i);
    }
  }

  lemma FailureReleases(env: Env, r: Run, m: nat, f: nat, i: nat)
    requires IsRun(env, r) && f < |r.steps| && FailsUnmarked(r, m, f, i)
    ensures Releasing(r.states[f + 1], i)
  {
    RunStep(env, r, f);
    if Flag(r.states[f].stage).Some? {
      var m' := FlagRemembers(env, r, f);
      assert m' == m;
    }
    hide IsRun;
  }

  /** The reserve of a request that was handed to the adapter (step j) and is not recorded: a save drops it from the
      state file exactly when a later execution of the action failed, in the same process, before it marked an
      attempt and with nothing recorded. */
  lemma SentReserveReleasedIff(env: Env, r: Run, j: nat, l: nat)
    requires IsRun(env, r) && j < l < |r.steps| && r.steps[j].CallSubmit? && r.steps[l].Save?
    requires var i := r.steps[j].i;
             && OfFamily(r.states[j].mem, i, Evm)
             && i < |r.states[l].disk.actions| && r.states[l].disk.actions[i].reserve.Some?
             && i < |r.states[l].mem.actions| && r.states[l].mem.actions[i].family == Evm && r.states[l].mem.actions[i].requests == []
    ensures r.states[l + 1].disk == r.states[l].mem
    ensures r.states[l + 1].disk.actions[r.steps[j].i].reserve.None? <==>
            exists m, f | j < m < f < l :: FailsUnmarked(r, m, f, r.steps[j].i) && forall n | f < n < l :: !r.steps[n].Crash?
  {
    var i := r.steps[j].i;
    RunStep(env, r, l);
    hide Next, StateOk, Marked, InExecution;
    if r.states[l].mem.actions[i].reserve.None? {
      var m := DroppedAfterFailure(env, r, j, l, i);
    }
    if m, f :| j < m < f < l && FailsUnmarked(r, m, f, i) && forall n | f < n < l :: !r.steps[n].Crash? {
      FailureReleases(env, r, m, f, i);
      ReleasingUntil(env, r, f + 1, l, i);
      ReleasingStep(env, r.states[l], Save, r.states[l + 1], i);
    }
  }

  lemma DroppedAfterFailure(env: Env, r: Run, j: nat, l: nat, i: nat) returns (m: nat)
    requires IsRun(env, r) && j < l < |r.steps| && r.steps[l].Save?
    requires r.steps[j].CallSubmit? && r.steps[j].i == i && OfFamily(r.states[j].mem, i, Evm)
    requires i < |r.states[l].disk.actions| && r.states[l].disk.actions[i].reserve.Some?
    requires i < |r.states[l].mem.actions| && r.states[l].mem.actions[i].reserve.None? && r.states[l].mem.actions[i].requests == []
    ensures l >= 2 && j < m < l - 2 && FailsUnmarked(r, m, l - 2, i) && !r.steps[l - 1].Crash?
  {
    DropBacktrack(env, r, l, i);
    NotSubmitting(env, r, j, l);
    hide Next, StateOk;
    m := FlagRemembers(env, r, l - 2);
    var sent := SubmissionMarked(env, r, j);
    hide IsRun;
    LaterExecution(r, sent, j, m, l - 2);
  }

  /** A submission is none of the last two steps before such a save, nor the failure. */
  lemma NotSubmitting(env: Env, r: Run, j: nat, l: nat)
    requires j < l < |r.steps| && l >= 2 && r.steps[j].CallSubmit? && r.steps[l - 1].ReleaseUnspent? && r.steps[l - 2].Fail?
    ensures j < l - 2
  {
  }

  lemma LaterExecution(r: Run, sent: nat, j: nat, m: nat, f: nat)
    requires InExecution(r, sent, j) && Marked(r, sent, j) && InExecution(r, m, f) && !Marked(r, m, f)
    requires j < f && j < |r.steps| && r.steps[j].CallSubmit?
    ensures j < m
  {
    if m < j {
      SameExecution(r, m, sent, j, f);
    }
  }
}
