/** What a new process can still submit for an action that a previous one left on disk. */
module RunnerResume {
  import opened Wrappers
  import opened RunnerState
  import opened Wallet
  import opened RunnerMachine
  import opened RunnerInvariant
  import opened RunnerSafety
  import opened RunnerStages

  predicate Room(env: Env, s: State, id: ActionId) {
    Sized(env, id) && s.totals.maximum + ReserveOf(env, id) <= env.policy.maximumSpend
  }

  predicate Unconfirmed(a: Action) {
    a.requests != [] && !a.requests[|a.requests| - 1].confirmed
  }

  function LastValue(a: Action): nat
    requires a.requests != []
  {
    a.requests[|a.requests| - 1].protocol
  }

  /** What must be left for the next request of action i: a request, a reserve or room for one, a transaction, and
      room in the cap for the value of a request that is still to be confirmed. */
  predicate Resumable(env: Env, l: State, i: nat) {
    && i < |l.actions|
    && var a := l.actions[i];
    && |a.requests| < |env.content(a.id).rows|
    && (a.reserve.Some? || Room(env, l, a.id))
    && l.totals.transactions + 1 <= env.policy.maximumTransactions
    && (Unconfirmed(a) ==> l.totals.spend + LastValue(a) <= env.policy.maximumSpend)
  }

  // ----- while the process releases old reserves -----

  ghost predicate LoadingFrom(d: State, m: State) {
    && |m.actions| == |d.actions|
    && (forall x | 0 <= x < |d.actions| :: m.actions[x] == d.actions[x] || m.actions[x] == AfterRelease(d.actions[x]))
    && m.totals == d.totals.(maximum := m.totals.maximum)
    && m.totals.maximum - Excess(m.actions) == d.totals.maximum - Excess(d.actions)
  }

  lemma {:induction false} ExcessUpdate(actions: seq<Action>, i: nat, a: Action)
    requires i < |actions|
    ensures Excess(actions[i := a]) == Excess(actions) - (if Releasable(actions[i]) then actions[i].reserve.value - Spent(actions[i].requests) else 0)
                                                       + (if Releasable(a) then a.reserve.value - Spent(a.requests) else 0)
  {
    var n := |actions| - 1;
    if i == n {
      assert actions[i := a][..n] == actions[..n];
    } else {
      ExcessUpdate(actions[..n], i, a);
      assert actions[i := a][..n] == actions[..n][i := a];
    }
  }

  lemma {:induction false} NoExcess(actions: seq<Action>)
    requires !AnyReleasable(actions, |actions|)
    ensures Excess(actions) == 0
  {
    if actions != [] {
      var n := |actions| - 1;
      assert !Releasable(actions[n]);
      assert forall i | 0 <= i < n :: actions[..n][i] == actions[i];
      NoExcess(actions[..n]);
    }
  }

  lemma ReleaseKeepsLoading(d: State, m: State, i: nat)
    requires LoadingFrom(d, m) && i < |m.actions| && Releasable(m.actions[i]) && m.totals.maximum >= m.actions[i].reserve.value
    ensures LoadingFrom(d, WithActual(m, i))
  {
    ExcessUpdate(m.actions, i, m.actions[i].(reserve := None));
  }

  /** A process that has released what it could works on the loaded state. */
  lemma OpenedLoaded(d: State, m: State)
    requires LoadingFrom(d, m) && !AnyReleasable(m.actions, |m.actions|)
    ensures d.totals.maximum >= Excess(d.actions) && m.actions == Loaded(d).actions && m.totals == Loaded(d).totals
  {
    NoExcess(m.actions);
    forall x | 0 <= x < |d.actions| ensures m.actions[x] == AfterRelease(d.actions[x]) {
      assert !Releasable(m.actions[x]);
    }
  }

  // ----- until the first submission -----

  /** The catch block and what follows it. */
  predicate Lost(stage: Stage) {
    || stage.Failing? || stage.Noted? || stage.PreparedRevocation? || stage.SentRevocation? || stage.ConfirmingRevocation?
    || stage.RecoveredAttempt? || stage.Over?
  }

  /** The execution is about action i. */
  predicate About(m: State, stage: Stage, i: nat)
    requires i < |m.actions|
  {
    match stage
    case Entered(id, _, _) => id == m.actions[i].id
    case Working(x, _) => x == i
    case PreparedRow(x, _) => x == i
    case MarkedRow(x) => x == i
    case ConfirmingRow(x, _) => x == i
    case ConfirmedRow(x, _) => x == i
    case Finishing(x) => x == i
    case Idle => true
    case Observing(_) => true
    case _ => false
  }

  /** The reserve and the spend of action i, compared with the loaded state. */
  ghost predicate Resourced(env: Env, l: State, i: nat, m: State, stage: Stage)
    requires i < |l.actions| && i < |m.actions| && |m.actions[i].requests| == |l.actions[i].requests|
  {
    var a, b := l.actions[i], m.actions[i];
    && !stage.Finishing?
    && (if b.reserve.None? then a.reserve.None? && m.totals.maximum == l.totals.maximum else a.reserve.Some? || Room(env, l, a.id))
    && (Unconfirmed(a) ==>
          if Unconfirmed(b) then LastValue(b) == LastValue(a) && m.totals.spend == l.totals.spend
          else m.totals.spend >= l.totals.spend + LastValue(a) && (stage.ConfirmedRow? || m.totals.spend <= env.policy.maximumSpend))
  }

  /** A process that started from a state loaded as l, executes only action i, and has submitted nothing. */
  ghost predicate Along(env: Env, l: State, i: nat, m: State, stage: Stage) {
    && i < |l.actions| == |m.actions| && About(m, stage, i)
    && var a, b := l.actions[i], m.actions[i];
    && b.id == a.id && b.family == a.family == Evm && b.attempt == a.attempt && |b.requests| == |a.requests|
    && m.totals.transactions == l.totals.transactions
    && (|a.requests| < |env.content(a.id).rows| ==> Resourced(env, l, i, m, stage))
  }

  ghost predicate Way(env: Env, d: State, i: nat, s: Sys) {
    if s.stage.Loading? then LoadingFrom(d, s.mem)
    else Lost(s.stage) || (d.totals.maximum >= Excess(d.actions) && Along(env, Loaded(d), i, s.mem, s.stage))
  }

  lemma LostStays(env: Env, s: Sys, step: Step, s': Sys)
    requires Next(env, s, step, s') && Lost(s.stage) && !step.Crash?
    ensures Lost(s'.stage) && !step.CallSubmit?
  {
    hide Effect;
  }

  lemma LoadingWay(env: Env, d: State, i: nat, s: Sys, step: Step, s': Sys)
    requires Next(env, s, step, s') && s.stage.Loading? && Way(env, d, i, s) && !step.Crash?
    requires i < |d.actions| && d.actions[i].family == Evm
    ensures Way(env, d, i, s') && !step.CallSubmit?
  {
    if step.ReleaseConfirmed? {
      ReleaseKeepsLoading(d, s.mem, step.i);
      hide Excess, Released;
    } else if step.Open? {
      OpenedLoaded(d, s.mem);
      hide Excess;
    } else {
      hide Excess, Released, MemoryStep;
    }
  }

  lemma AlongOther(env: Env, l: State, i: nat, s: Sys, step: Step, s': Sys)
    requires StateOk(env, s.mem) && Next(env, s, step, s') && Along(env, l, i, s.mem, s.stage)
    requires !step.Crash? && !step.CallSubmit? && !ChangesAction(step) && (step.BeginExecution? ==> step.id == l.actions[i].id)
    ensures Lost(s'.stage) || Along(env, l, i, s'.mem, s'.stage)
  {
    NotAlong(env, l, i, s, step, s');
    OthersSame(env, s, step, s');
    TotalsSame(env, s, step, s');
    hide Effect, Excess, MayPrepareRevocation;
  }

  lemma TotalsSame(env: Env, s: Sys, step: Step, s': Sys)
    requires Next(env, s, step, s') && !step.Crash? && !ChangesAction(step)
    ensures s'.mem.totals == s.mem.totals
  {
    hide Moves, MaySubmit, MayRevoke, SubmitStep, PrepareStep, ConfirmStep, HasPending;
  }

  lemma AlongReserve(env: Env, l: State, i: nat, s: Sys, x: nat, s': Sys)
    requires StateOk(env, s.mem) && Next(env, s, Step.Reserve(x), s') && Along(env, l, i, s.mem, s.stage)
    ensures Along(env, l, i, s'.mem, s'.stage)
  {
    SameIndex(env, s.mem, x, i);
    hide StateOk, Sized, ReserveOf;
  }

  lemma AlongConfirm(env: Env, l: State, i: nat, s: Sys, x: nat, fee: nat, s': Sys)
    requires StateOk(env, s.mem) && Next(env, s, Step.Confirm(x, fee), s') && Along(env, l, i, s.mem, s.stage)
    ensures Along(env, l, i, s'.mem, s'.stage)
  {
    assert TotalsOk(env, s.mem);
    hide StateOk, Sized, ReserveOf;
  }

  lemma AlongStatus(env: Env, l: State, i: nat, s: Sys, step: Step, s': Sys)
    requires Next(env, s, step, s') && Along(env, l, i, s.mem, s.stage)
    requires step.MarkAttempted? || step.MarkObserved? || step.FinishAction?
    ensures Along(env, l, i, s'.mem, s'.stage)
  {
    hide Sized, ReserveOf, MaySubmit;
  }

  lemma AlongFinishing(env: Env, l: State, i: nat, s: Sys, x: nat, s': Sys)
    requires Next(env, s, ReleaseConfirmed(x), s') && Along(env, l, i, s.mem, s.stage) && !s.stage.Loading?
    ensures Along(env, l, i, s'.mem, s'.stage)
  {
    hide Sized, ReserveOf;
  }

  lemma AlongStep(env: Env, l: State, i: nat, s: Sys, step: Step, s': Sys)
    requires StateOk(env, s.mem) && Next(env, s, step, s') && Along(env, l, i, s.mem, s.stage) && !s.stage.Loading?
    requires !step.Crash? && !step.CallSubmit? && (step.BeginExecution? ==> step.id == l.actions[i].id)
    ensures Lost(s'.stage) || Along(env, l, i, s'.mem, s'.stage)
  {
    hide Along, StateOk, Next;
    NotAlong(env, l, i, s, step, s');
    match step
    case Reserve(x) => AlongReserve(env, l, i, s, x, s');
    case Confirm(x, fee) => AlongConfirm(env, l, i, s, x, fee, s');
    case ReleaseConfirmed(x) => AlongFinishing(env, l, i, s, x, s');
    case MarkAttempted(_) => AlongStatus(env, l, i, s, step, s');
    case MarkObserved(_) => AlongStatus(env, l, i, s, step, s');
    case FinishAction(_) => AlongStatus(env, l, i, s, step, s');
    case _ => AlongOther(env, l, i, s, step, s');
  }

  lemma NotAlong(env: Env, l: State, i: nat, s: Sys, step: Step, s': Sys)
    requires Next(env, s, step, s') && Along(env, l, i, s.mem, s.stage)
    ensures !step.AddAction? && !step.RecordSubmission? && !step.ReleaseUnspent? && !step.MarkUnknown? && !step.Recover?
  {
    hide Resourced, MaySubmit, ItemAccepted;
  }

  /** The first submission of such a process is the action's next request, and there was room for it. */
  lemma FirstSubmission(env: Env, l: State, i: nat, s: Sys, step: Step, s': Sys)
    requires Next(env, s, step, s') && Along(env, l, i, s.mem, s.stage) && step.CallSubmit?
    ensures step.i == i && Resumable(env, l, i)
  {
    hide Sized, ReserveOf;
  }

  // ----- the next process -----

  /** A step of a process that has submitted nothing yet and executes one action only. */
  predicate Quiet(step: Step, id: ActionId) {
    !step.Crash? && !step.CallSubmit? && (step.BeginExecution? ==> step.id == id)
  }

  /** Run r' agrees with r up to state k; there the process stops, and the next one has come to state n. */
  ghost predicate NextProcess(env: Env, r: Run, k: nat, r': Run, n: nat, id: ActionId) {
    && IsRun(env, r') && k < n < |r'.states| && k < |r.states| && k <= |r.steps|
    && r'.states[..k + 1] == r.states[..k + 1] && r'.steps[..k] == r.steps[..k]
    && r'.steps[k].Crash? && forall x | k < x < n :: Quiet(r'.steps[x], id)
  }

  lemma WayStep(env: Env, d: State, i: nat, s: Sys, step: Step, s': Sys)
    requires i < |d.actions| && d.actions[i].family == Evm
    requires StateOk(env, s.mem) && Next(env, s, step, s') && Way(env, d, i, s) && Quiet(step, d.actions[i].id)
    ensures Way(env, d, i, s')
  {
    if s.stage.Loading? {
      LoadingWay(env, d, i, s, step, s');
    } else if Lost(s.stage) {
      LostStays(env, s, step, s');
    } else {
      hide StateOk, Along, Excess;
      AlongStep(env, Loaded(d), i, s, step, s');
      NotLoadingAgain(env, s, step, s');
    }
  }

  lemma NotLoadingAgain(env: Env, s: Sys, step: Step, s': Sys)
    requires Next(env, s, step, s') && !s.stage.Loading? && !step.Crash?
    ensures !s'.stage.Loading?
  {
    hide Effect;
  }

  lemma Restarted(env: Env, i: nat, s: Sys, s': Sys)
    requires Next(env, s, Crash, s') && i < |s.disk.actions|
    ensures Way(env, s.disk, i, s') && s'.mem == s'.disk == s.disk && s'.stage.Loading?
  {
    hide Excess;
  }

  lemma {:induction false} WayUntil(env: Env, r: Run, k: nat, r': Run, n: nat, i: nat)
    requires k < |r.states| && i < |r.states[k].disk.actions| && r.states[k].disk.actions[i].family == Evm
    requires NextProcess(env, r, k, r', n, r.states[k].disk.actions[i].id)
    ensures Way(env, r.states[k].disk, i, r'.states[n])
  {
    hide Next, Way, StateOk;
    RunStep(env, r', n - 1);
    if n == k + 1 {
      assert r'.states[k] == r'.states[..k + 1][k] == r.states[k];
      Restarted(env, i, r'.states[k], r'.states[n]);
    } else {
      WayUntil(env, r, k, r', n - 1, i);
      RunOk(env, r', n - 1);
      WayStep(env, r.states[k].disk, i, r'.states[n - 1], r'.steps[n - 1], r'.states[n]);
    }
  }

  lemma {:induction false} ExcessWithin(env: Env, actions: seq<Action>)
    requires forall x | 0 <= x < |actions| :: ActionOk(env, actions[x])
    ensures Excess(actions) <= Sum(actions).charge
  {
    if actions != [] {
      var n := |actions| - 1;
      ExcessWithin(env, actions[..n]);
      assert ActionOk(env, actions[n]);
      ChargesNonNegative([actions[n]]);
      assert [actions[n]][..0] == [];
    }
  }

  /** What can be released never exceeds the ledger. */
  lemma LedgerCoversExcess(env: Env, d: State)
    requires StateOk(env, d)
    ensures d.totals.maximum >= Excess(d.actions)
  {
    ExcessWithin(env, d.actions);
  }

  /** What the next process submits first is the action's next request, and then there was room for it. */
  lemma SubmissionNeedsRoom(env: Env, r: Run, k: nat, r': Run, n: nat, i: nat)
    requires k < |r.states| && i < |r.states[k].disk.actions| && r.states[k].disk.actions[i].family == Evm
    requires NextProcess(env, r, k, r', n, r.states[k].disk.actions[i].id) && n < |r'.steps| && r'.steps[n].CallSubmit?
    ensures r.states[k].disk.totals.maximum >= Excess(r.states[k].disk.actions) && Resumable(env, Loaded(r.states[k].disk), i)
    ensures r'.steps[n].i == i < |r'.states[n].mem.actions|
    ensures NextOperation(r'.states[n].mem.actions[i]) == NextOperation(r.states[k].disk.actions[i])
  {
    WayUntil(env, r, k, r', n, i);
    RunStep(env, r', n);
    hide IsRun;
    SubmittingWay(env, r.states[k].disk, i, r'.states[n], r'.steps[n], r'.states[n + 1]);
  }

  lemma SubmittingWay(env: Env, d: State, i: nat, s: Sys, step: Step, s': Sys)
    requires i < |d.actions| && d.actions[i].family == Evm
    requires Next(env, s, step, s') && Way(env, d, i, s) && step.CallSubmit?
    ensures d.totals.maximum >= Excess(d.actions) && Resumable(env, Loaded(d), i) && step.i == i < |s.mem.actions|
    ensures NextOperation(s.mem.actions[i]) == NextOperation(d.actions[i])
  {
    if s.stage.Loading? {
      LoadingWay(env, d, i, s, step, s');
    } else if Lost(s.stage) {
      LostStays(env, s, step, s');
    } else {
      FirstSubmission(env, Loaded(d), i, s, step, s');
      hide Next, Excess, Resumable;
    }
  }
}
