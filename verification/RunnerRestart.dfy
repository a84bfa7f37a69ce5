/** A process that goes on with an action: built step by step, it shows that SubmissionNeedsRoom leaves nothing out. */
module RunnerRestart {
  import opened Wrappers
  import opened RunnerState
  import opened Wallet
  import opened RunnerMachine
  import opened RunnerInvariant
  import opened RunnerSafety
  import opened RunnerHistory
  import opened RunnerSteps
  import opened RunnerResume
  import opened RunnerCap

  /** Run r' ends in a process that started after state k of r and has submitted nothing. */
  ghost predicate Going(env: Env, r: Run, k: nat, r': Run, id: ActionId) {
    NextProcess(env, r, k, r', |r'.steps|, id)
  }

  lemma Grow(env: Env, r: Run, k: nat, r': Run, id: ActionId, step: Step, s: Sys) returns (r'': Run)
    requires Going(env, r, k, r', id) && Next(env, Last(r'), step, s) && Quiet(step, id)
    ensures Going(env, r, k, r'', id) && Last(r'') == s
  {
    hide Next;
    ExtendRun(env, r', step, s);
    r'' := Extend(r', step, s);
    assert r''.states[..k + 1] == r'.states[..k + 1] && r''.steps[..k] == r'.steps[..k];
  }

  lemma Restart(env: Env, r: Run, k: nat, id: ActionId) returns (r': Run)
    requires IsRun(env, r) && k < |r.states|
    ensures Going(env, r, k, r', id) && Last(r') == r.states[k].(mem := r.states[k].disk, stage := Loading)
  {
    PrefixIsRun(env, r, k);
    var p, s := Run(r.states[..k + 1], r.steps[..k]), r.states[k].(mem := r.states[k].disk, stage := Loading);
    CrashTaken(env, Last(p));
    hide Next;
    ExtendRun(env, p, Crash, s);
    r' := Extend(p, Crash, s);
    assert r'.states[..k + 1] == r.states[..k + 1] && r'.steps[..k] == r.steps[..k];
  }

  lemma SavedIn(env: Env, r: Run, k: nat, r': Run, id: ActionId) returns (r'': Run)
    requires Going(env, r, k, r', id) && AfterSave(env, Last(r').mem, Last(r').stage).Some?
    ensures Going(env, r, k, r'', id)
    ensures Last(r'') == Last(r').(disk := Last(r').mem, stage := AfterSave(env, Last(r').mem, Last(r').stage).value)
  {
    var s := Last(r').(disk := Last(r').mem, stage := AfterSave(env, Last(r').mem, Last(r').stage).value);
    SaveTaken(env, Last(r'));
    hide Next;
    r'' := Grow(env, r, k, r', id, Save, s);
  }

  // ----- from the start to the session loop -----

  function Partly(d: State, x: nat): State
    requires x <= |d.actions| && d.totals.maximum >= Excess(d.actions[..x])
  {
    d.(actions := Released(d.actions, x), totals := d.totals.(maximum := d.totals.maximum - Excess(d.actions[..x])))
  }

  lemma ReleaseNext(env: Env, r: Run, k: nat, r': Run, id: ActionId, d: State, x: nat) returns (r'': Run)
    requires Going(env, r, k, r', id) && x < |d.actions| && d.totals.maximum >= Excess(d.actions[..x])
    requires Last(r').mem == Partly(d, x) && Last(r').stage.Loading?
    ensures d.totals.maximum >= Excess(d.actions[..x + 1])
    ensures Going(env, r, k, r'', id) && Last(r'') == Last(r').(mem := Partly(d, x + 1))
  {
    hide Next, NextProcess, Excess, Spent, Released;
    ReleaseStep(d.actions, x);
    var s := Last(r');
    if Releasable(d.actions[x]) {
      GoingOk(env, r, k, r', id);
      ReleaseNeverThrows(env, s.mem, x);
      ReleaseTaken(env, s, x);
      r'' := Grow(env, r, k, r', id, ReleaseConfirmed(x), s.(mem := WithActual(s.mem, x)));
    } else {
      assert Released(d.actions, x)[x := d.actions[x]] == Released(d.actions, x);
      r'' := r';
    }
  }

  lemma GoingOk(env: Env, r: Run, k: nat, r': Run, id: ActionId)
    requires Going(env, r, k, r', id)
    ensures SysOk(env, Last(r'))
  {
    RunOk(env, r', |r'.steps|);
  }

  /** Old reserves are released, and the file is written if there were any. */
  lemma Opened(env: Env, r: Run, k: nat, id: ActionId) returns (r': Run)
    requires IsRun(env, r) && k < |r.states|
    ensures r.states[k].disk.totals.maximum >= Excess(r.states[k].disk.actions)
    ensures Going(env, r, k, r', id)
    ensures var l := Loaded(r.states[k].disk); Last(r') == r.states[k].(mem := l, disk := l, stage := Idle)
  {
    hide IsRun, Next, NextProcess, Excess, Released, AnyReleasable;
    var d := r.states[k].disk;
    r' := Restart(env, r, k, id);
    ReleaseStart(d.actions);
    for x := 0 to |d.actions|
      invariant d.totals.maximum >= Excess(d.actions[..x]) && Going(env, r, k, r', id)
      invariant Last(r') == r.states[k].(mem := Partly(d, x), stage := Loading)
    {
      r' := ReleaseNext(env, r, k, r', id, d, x);
    }
    assert d.actions[..|d.actions|] == d.actions;
    if Last(r').mem != d {
      r' := SavedIn(env, r, k, r', id);
    }
    NothingLeft(d.actions);
    OpenTaken(env, Last(r'));
    r' := Grow(env, r, k, r', id, Open, Last(r').(stage := Idle));
  }

  // ----- observing what is pending -----

  /** In the session loop, with the loaded actions up to their status. */
  ghost predicate Ready(l: State, s: Sys) {
    && s.stage.Idle? && s.mem == s.disk && s.mem.totals == l.totals && |s.mem.actions| == |l.actions|
    && forall x | 0 <= x < |l.actions| :: s.mem.actions[x] == l.actions[x].(status := s.mem.actions[x].status)
  }

  lemma KeyMade(env: Env, r: Run, k: nat, r': Run, id: ActionId, l: State, name: Name) returns (r'': Run)
    requires Going(env, r, k, r', id) && Ready(l, Last(r'))
    ensures Going(env, r, k, r'', id) && Ready(l, Last(r'')) && Last(r'').mem.actions == Last(r').mem.actions
    ensures name in Last(r'').disk.idempotency
  {
    GoingOk(env, r, k, r', id);
    var s := Last(r');
    r'' := r';
    if name !in s.mem.idempotency {
      CountTaken(env, s);
      r'' := Grow(env, r, k, r', id, CountOperation, s.(mem := s.mem.(counter := s.mem.counter + 1)));
      r'' := SavedIn(env, r, k, r'', id);
      s := Last(r'');
      KeyTaken(env, s, name);
      r'' := Grow(env, r, k, r'', id, AssignKey(name),
                  s.(mem := s.mem.(idempotency := s.mem.idempotency[name := s.mem.counter]), spent := s.mem.counter));
      r'' := SavedIn(env, r, k, r'', id);
    }
  }

  lemma ObservedAction(env: Env, r: Run, k: nat, r': Run, id: ActionId, l: State, x: nat) returns (r'': Run)
    requires Going(env, r, k, r', id) && Ready(l, Last(r')) && x < |l.actions| && l.actions[x].hashes != [] && l.actions[x].requests != []
    ensures Going(env, r, k, r'', id) && Ready(l, Last(r''))
    ensures Last(r'').mem.actions == Last(r').mem.actions[x := Last(r').mem.actions[x].(status := Observed)]
  {
    r'' := KeyMade(env, r, k, r', id, l, Source(l.actions[x].step, l.actions[x].id));
    var s := Last(r'');
    ObservationTaken(env, s, x);
    AcceptanceTaken(env, s.(stage := Observing(x)), x);
    r'' := Grow(env, r, k, r'', id, CallObserveSource(x), s.(stage := Observing(x)));
    r'' := Grow(env, r, k, r'', id, MarkObserved(x), s.(mem := WithStatus(s.mem, x, Observed)));
    r'' := SavedIn(env, r, k, r'', id);
  }

  /** The session accepts every pending hash of a step. */
  lemma AllObserved(env: Env, r: Run, k: nat, r': Run, id: ActionId, l: State, step: nat) returns (r'': Run)
    requires Going(env, r, k, r', id) && Ready(l, Last(r'))
    ensures Going(env, r, k, r'', id) && Ready(l, Last(r'')) && !HasPending(Last(r'').mem, step)
  {
    hide NextProcess;
    r'' := r';
    for x := 0 to |l.actions|
      invariant Going(env, r, k, r'', id) && Ready(l, Last(r''))
      invariant forall y | 0 <= y < x :: !Pending(Last(r'').mem.actions[y], step)
    {
      if Pending(Last(r'').mem.actions[x], step) {
        HashedRecorded(env, r, k, r'', id, x);
        r'' := ObservedAction(env, r, k, r'', id, l, x);
      }
    }
  }

  lemma HashedRecorded(env: Env, r: Run, k: nat, r': Run, id: ActionId, x: nat)
    requires Going(env, r, k, r', id) && x < |Last(r').mem.actions| && Last(r').mem.actions[x].hashes != []
    ensures Last(r').mem.actions[x].requests != []
  {
    GoingOk(env, r, k, r', id);
    hide NextProcess;
    assert ActionOk(env, Last(r').mem.actions[x]);
  }

  // ----- executing the action -----

  /** In the execution of action i, with its reserve on disk and `missing` still to come of the loaded requests. */
  ghost predicate Executing(l: State, i: nat, s: Sys) {
    && s.stage == Working(i, false) && s.mem == s.disk && i < |l.actions| == |s.mem.actions|
    && var a, b := l.actions[i], s.mem.actions[i];
    && b.id == a.id && b.family == a.family && b.attempt == a.attempt && |b.requests| == |a.requests| && b.reserve.Some?
    && s.mem.totals.transactions == l.totals.transactions
  }

  /** The execution begins: the reserve is on disk. */
  lemma Began(env: Env, r: Run, k: nat, r': Run, l: State, i: nat) returns (r'': Run)
    requires i < |l.actions| && Going(env, r, k, r', l.actions[i].id) && Ready(l, Last(r'))
    requires l.actions[i].family == Evm && !HasPending(Last(r').mem, l.actions[i].step)
    requires l.actions[i].reserve.Some? || Room(env, l, l.actions[i].id)
    ensures Going(env, r, k, r'', l.actions[i].id) && Executing(l, i, Last(r''))
    ensures Last(r'').mem.actions[i].requests == l.actions[i].requests && Last(r'').mem.totals.spend == l.totals.spend
  {
    var s, id, step := Last(r'), l.actions[i].id, l.actions[i].step;
    ExecutionTaken(env, s, id, step, Evm);
    r'' := Grow(env, r, k, r', id, BeginExecution(id, step, Evm), s.(stage := Entered(id, step, Evm)));
    s := Last(r'');
    if s.mem.actions[i].reserve.None? {
      ReserveTaken(env, s, i);
      r'' := Grow(env, r, k, r'', id, Reserve(i), s.(mem := WithReserve(s.mem, i, ReserveOf(env, id))));
      r'' := SavedIn(env, r, k, r'', id);
      s := Last(r'');
    }
    EnterTaken(env, s, i);
    r'' := Grow(env, r, k, r'', id, Enter(i), s.(stage := Working(i, false)));
  }

  lemma LastConfirmable(env: Env, m: State, i: nat)
    requires StateOk(env, m) && i < |m.actions| && m.actions[i].family == Evm && m.actions[i].reserve.Some?
    ensures Unconfirmed(m.actions[i]) ==>
              MayConfirm(env, m, i, 0) && WithConfirmation(m, i, 0).totals.spend == m.totals.spend + LastValue(m.actions[i])
    ensures AllConfirmed(if Unconfirmed(m.actions[i]) then WithConfirmation(m, i, 0).actions[i].requests else m.actions[i].requests)
  {
    var a := m.actions[i];
    assert ActionOk(env, a);
    forall x | 0 <= x < |a.requests| ensures x == |a.requests| - 1 || a.requests[x].confirmed {
      assert ItemOk(env, a, x);
    }
    assert a.requests != [] ==> ItemOk(env, a, |a.requests| - 1);
  }

  /** A request that is recorded but not confirmed is confirmed first. */
  lemma LastConfirmed(env: Env, r: Run, k: nat, r': Run, l: State, i: nat) returns (r'': Run)
    requires i < |l.actions| && Going(env, r, k, r', l.actions[i].id) && l.actions[i].family == Evm && Executing(l, i, Last(r'))
    requires Last(r').mem.actions[i].requests == l.actions[i].requests && Last(r').mem.totals.spend == l.totals.spend
    requires Unconfirmed(l.actions[i]) ==> l.totals.spend + LastValue(l.actions[i]) <= env.policy.maximumSpend
    ensures Going(env, r, k, r'', l.actions[i].id) && Executing(l, i, Last(r'')) && AllConfirmed(Last(r'').mem.actions[i].requests)
  {
    hide Next, NextProcess, AllConfirmed, MayConfirm;
    GoingOk(env, r, k, r', l.actions[i].id);
    var s, id := Last(r'), l.actions[i].id;
    LastConfirmable(env, s.mem, i);
    r'' := r';
    if Unconfirmed(s.mem.actions[i]) {
      hide SysOk;
      var op := s.mem.actions[i].requests[|s.mem.actions[i].requests| - 1].operation;
      Unmoved(s.wallet, op, Construction(""));
      QuestionTaken(env, s, i, false, s.wallet);
      ConfirmationTaken(env, s.(stage := ConfirmingRow(i, false)), i, false, 0);
      r'' := Grow(env, r, k, r'', id, CallConfirm(op), s.(stage := ConfirmingRow(i, false)));
      r'' := Grow(env, r, k, r'', id, Step.Confirm(i, 0), s.(mem := WithConfirmation(s.mem, i, 0), stage := ConfirmedRow(i, false)));
      r'' := SavedIn(env, r, k, r'', id);
    }
  }

  /** The next request is prepared, its attempt marked durably, and it is submitted. */
  lemma SubmittedNext(env: Env, r: Run, k: nat, r': Run, l: State, i: nat) returns (r'': Run, n: nat)
    requires i < |l.actions| && Going(env, r, k, r', l.actions[i].id) && l.actions[i].family == Evm && Executing(l, i, Last(r'))
    requires MaySubmit(env, Last(r').mem, i)
    ensures NextProcess(env, r, k, r'', n, l.actions[i].id) && n < |r''.steps| && r''.steps[n].CallSubmit?
    ensures Submits(r''.states[n], r''.steps[n], NextOperation(l.actions[i]))
  {
    hide Next, NextProcess, MaySubmit, MayPrepare, SubmitStep, PrepareStep;
    var s, id := Last(r'), l.actions[i].id;
    var a := s.mem.actions[i];
    Preparable(env, s.mem, i);
    Unmoved(s.wallet, NextOperation(a), env.content(a.id).rows[|a.requests|]);
    PreparationTaken(env, s, i, false, s.wallet);
    MarkTaken(env, s.(stage := PreparedRow(i, false)), i, false);
    r'' := Grow(env, r, k, r', id, CallPrepare(NextOperation(a), env.content(a.id).rows[|a.requests|]), s.(stage := PreparedRow(i, false)));
    r'' := Grow(env, r, k, r'', id, MarkAttempted(i), s.(mem := WithStatus(s.mem, i, SubmissionAttempted), stage := MarkedRow(i)));
    r'' := SavedIn(env, r, k, r'', id);
    MarkedMaySubmit(env, s.mem, i);
    var expires, now := SomeWindow(env.policy);
    Unmoved(s.wallet, NextOperation(Last(r'').mem.actions[i]), Construction(""));
    SubmissionTaken(env, Last(r''), i, expires, now, Last(r'').wallet);
    r'', n := EndsWith(env, r, k, r'', id, CallSubmit(i, expires, now), Last(r'').(stage := SubmittedRow(i)));
  }

  lemma Preparable(env: Env, m: State, i: nat)
    requires MaySubmit(env, m, i) && m.actions[i].family == Evm
    ensures MayPrepare(env, m, i)
  {
  }

  lemma MarkedMaySubmit(env: Env, m: State, i: nat)
    requires MaySubmit(env, m, i)
    ensures MaySubmit(env, WithStatus(m, i, SubmissionAttempted), i)
  {
  }

  lemma EndsWith(env: Env, r: Run, k: nat, r': Run, id: ActionId, step: Step, s: Sys) returns (r'': Run, n: nat)
    requires Going(env, r, k, r', id) && Next(env, Last(r'), step, s)
    ensures NextProcess(env, r, k, r'', n, id) && n < |r''.steps| && r''.steps[n] == step && r''.states[n] == Last(r')
  {
    hide Next;
    ExtendRun(env, r', step, s);
    r'', n := Extend(r', step, s), |r'.steps|;
    assert r''.states[..k + 1] == r'.states[..k + 1] && r''.steps[..k] == r'.steps[..k];
  }

  // ----- when an attempt can go on -----

  /** The process after state k can submit this operation before any other, executing only its action. */
  ghost predicate Resubmits(env: Env, r: Run, k: nat, op: Operation) {
    exists r': Run, n: nat :: Submitting(env, r, k, r', n, op)
  }

  ghost predicate Submitting(env: Env, r: Run, k: nat, r': Run, n: nat, op: Operation) {
    NextProcess(env, r, k, r', n, op.action) && n < |r'.steps| && r'.steps[n].CallSubmit? && Submits(r'.states[n], r'.steps[n], op)
  }

  lemma Resumed(env: Env, r: Run, k: nat, i: nat) returns (r': Run, n: nat)
    requires IsRun(env, r) && k < |r.states| && i < |r.states[k].disk.actions| && r.states[k].disk.actions[i].family == Evm
    requires r.states[k].disk.totals.maximum >= Excess(r.states[k].disk.actions) && Resumable(env, Loaded(r.states[k].disk), i)
    ensures Submitting(env, r, k, r', n, NextOperation(r.states[k].disk.actions[i]))
  {
    hide IsRun, NextProcess, Excess, HasPending, Resumable;
    var l, id := Loaded(r.states[k].disk), r.states[k].disk.actions[i].id;
    LoadedAction(r.states[k].disk, i);
    ResumableParts(env, l, i);
    hide Loaded, Room, AllConfirmed;
    r' := Opened(env, r, k, id);
    r' := AllObserved(env, r, k, r', id, l, l.actions[i].step);
    r' := Began(env, r, k, r', l, i);
    r' := LastConfirmed(env, r, k, r', l, i);
    r', n := SubmittedNext(env, r, k, r', l, i);
  }

  lemma LoadedAction(d: State, i: nat)
    requires d.totals.maximum >= Excess(d.actions) && i < |d.actions|
    ensures |Loaded(d).actions| == |d.actions| && Loaded(d).actions[i] == AfterRelease(d.actions[i])
  {
    hide Excess;
  }

  lemma ResumableParts(env: Env, l: State, i: nat)
    requires Resumable(env, l, i)
    ensures i < |l.actions| && |l.actions[i].requests| < |env.content(l.actions[i].id).rows|
    ensures l.actions[i].reserve.Some? || Room(env, l, l.actions[i].id)
    ensures l.totals.transactions + 1 <= env.policy.maximumTransactions
    ensures Unconfirmed(l.actions[i]) ==> l.totals.spend + LastValue(l.actions[i]) <= env.policy.maximumSpend
  {
  }

  /** After a crash at any moment: the next process can submit an operation of an action on disk, before anything
      else, exactly when it is the next one of the attempt on disk and there is room left for it. */
  lemma AttemptResumesIff(env: Env, r: Run, k: nat, i: nat, op: Operation)
    requires IsRun(env, r) && k < |r.states| && i < |r.states[k].disk.actions|
    requires r.states[k].disk.actions[i].family == Evm && op.action == r.states[k].disk.actions[i].id
    ensures r.states[k].disk.totals.maximum >= Excess(r.states[k].disk.actions)
    ensures Resubmits(env, r, k, op) <==>
            op == NextOperation(r.states[k].disk.actions[i]) && Resumable(env, Loaded(r.states[k].disk), i)
  {
    RunOk(env, r, k);
    LedgerCoversExcess(env, r.states[k].disk);
    hide IsRun, SysOk, NextProcess, Resumable, Excess;
    if op == NextOperation(r.states[k].disk.actions[i]) && Resumable(env, Loaded(r.states[k].disk), i) {
      var r', n := Resumed(env, r, k, i);
    }
    if Resubmits(env, r, k, op) {
      var r': Run, n: nat :| Submitting(env, r, k, r', n, op);
      SubmissionNeedsRoom(env, r, k, r', n, i);
    }
  }
}
