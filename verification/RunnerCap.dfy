/** When the native spend on record stays within the policy's cap. The check that follows a
    confirmation (src/caller-runner.js:147) keeps confirmations over the cap out of the state file; recoveries are
    written without one. */
module RunnerCap {
  import opened Wrappers
  import opened RunnerState
  import opened Wallet
  import opened RunnerMachine
  import opened RunnerInvariant
  import opened RunnerSafety
  import opened RunnerStages
  import opened RunnerSteps

  /** Memory may be over the cap where nothing but a recovery is still written. */
  predicate Unwritten(m: State, stage: Stage) {
    match stage
    case ConfirmedRow(i, _) => OfFamily(m, i, Evm) && m.actions[i].requests != []
    case Failing(i, _) => i < |m.actions| && m.actions[i].requests != []
    case PreparedRevocation(_) => true
    case SentRevocation(_) => true
    case ConfirmingRevocation(_) => true
    case RecoveredAttempt(_) => true
    case Over => true
    case _ => false
  }

  ghost predicate CapOk(env: Env, s: Sys) {
    && s.disk.totals.spend <= s.mem.totals.spend
    && (s.disk.totals.spend <= env.policy.maximumSpend < s.mem.totals.spend ==> Unwritten(s.mem, s.stage))
  }

  /** A memory step changes the recorded spend only by confirming an EVM request or recording a recovery. */
  lemma SpendMoves(env: Env, m: State, step: Step, m': State)
    requires StateOk(env, m) && MemoryStep(env, m, step, m')
    ensures m'.totals.spend >= m.totals.spend
    ensures m'.totals.spend != m.totals.spend ==> step.Recover? || (step.Confirm? && OfFamily(m', step.i, Evm))
    ensures step.Recover? ==> m'.totals.spend == m.totals.spend + step.fee
    ensures m'.totals.spend != m.totals.spend || step.Confirm? ==> |m'.actions| == |m.actions|
  {
    hide ActionOk, MaySubmit, ItemAccepted, KnownId, Sized, ReserveOf, Spent, AllConfirmed;
  }

  /** The step writes a recovery that went over the cap. */
  ghost predicate WritesOverCap(env: Env, s: Sys, step: Step) {
    step.Save? && s.stage.RecoveredAttempt? && s.mem.totals.spend > env.policy.maximumSpend
  }

  lemma CapMemory(env: Env, s: Sys, step: Step, s': Sys)
    requires StateOk(env, s.mem) && Next(env, s, step, s') && CapOk(env, s) && s'.disk == s.disk && MemoryStep(env, s.mem, step, s'.mem)
    ensures CapOk(env, s')
  {
    SpendMoves(env, s.mem, step, s'.mem);
    if step.Recover? {
      hide MemoryStep, StateOk;
    } else if step.Confirm? {
      hide StateOk, MayConfirm;
    } else if Unwritten(s.mem, s.stage) {
      UnwrittenKept(env, s, step, s');
    }
  }

  lemma UnwrittenKept(env: Env, s: Sys, step: Step, s': Sys)
    requires Next(env, s, step, s') && Unwritten(s.mem, s.stage) && !step.Save? && !step.Crash?
    ensures Unwritten(s'.mem, s'.stage)
  {
    hide MaySubmit, MayConfirm, ItemAccepted, KnownId, SubmitStep, PrepareStep, ConfirmStep, Sized, ReserveOf, Spent, AllConfirmed;
  }

  lemma CapKeeps(env: Env, s: Sys, step: Step, s': Sys)
    requires StateOk(env, s.mem) && Next(env, s, step, s') && CapOk(env, s)
    ensures CapOk(env, s')
    ensures s.disk.totals.spend <= s'.disk.totals.spend
    ensures s.disk.totals.spend <= env.policy.maximumSpend ==>
              (s'.disk.totals.spend > env.policy.maximumSpend <==> WritesOverCap(env, s, step))
    ensures WritesOverCap(env, s, step) ==> s'.disk.totals.spend > env.policy.maximumSpend
  {
    if step.Save? {
      CapSaved(env, s, s');
    } else if step.Crash? {
      hide StateOk, Moves;
    } else if ChangesMemory(step) {
      MemoryChanged(env, s, step, s');
      hide Next, StateOk;
      CapMemory(env, s, step, s');
    } else {
      SpendSame(env, s, step, s');
      if Unwritten(s.mem, s.stage) {
        UnwrittenKept(env, s, step, s');
      }
      hide Next, StateOk;
    }
  }

  lemma CapSaved(env: Env, s: Sys, s': Sys)
    requires Next(env, s, Save, s') && CapOk(env, s)
    ensures CapOk(env, s') && s.disk.totals.spend <= s'.disk.totals.spend
    ensures s.disk.totals.spend <= env.policy.maximumSpend ==>
              (s'.disk.totals.spend > env.policy.maximumSpend <==> WritesOverCap(env, s, Save))
    ensures WritesOverCap(env, s, Save) ==> s'.disk.totals.spend > env.policy.maximumSpend
  {
  }

  lemma MemoryChanged(env: Env, s: Sys, step: Step, s': Sys)
    requires Next(env, s, step, s') && ChangesMemory(step)
    ensures MemoryStep(env, s.mem, step, s'.mem) && s'.disk == s.disk
  {
    hide Moves, MemoryStep;
  }

  predicate ChangesMemory(step: Step) {
    ChangesAction(step) || step.AddAction? || step.CountOperation? || step.Complete?
  }

  lemma SpendSame(env: Env, s: Sys, step: Step, s': Sys)
    requires Next(env, s, step, s') && !step.Save? && !step.Crash? && !ChangesMemory(step)
    ensures s'.mem.totals == s.mem.totals && s'.disk == s.disk
  {
    hide Moves, MaySubmit, MayRevoke, SubmitStep, PrepareStep, ConfirmStep, HasPending;
  }

  lemma {:induction false} RunCapOk(env: Env, r: Run, k: nat)
    requires IsRun(env, r) && k < |r.states|
    ensures CapOk(env, r.states[k])
  {
    assert CapOk(env, START);
    hide Next, CapOk, StateOk;
    if k > 0 {
      RunCapOk(env, r, k - 1);
      RunOk(env, r, k - 1);
      CapKeeps(env, r.states[k - 1], r.steps[k - 1], r.states[k]);
    }
  }

  /** Recovery n went over the cap, from what was spent before and what the revocation cost, and was written. */
  ghost predicate RecoveredOverCap(env: Env, r: Run, n: nat) {
    && n + 1 < |r.steps| && n < |r.states| && r.steps[n].Recover? && r.steps[n + 1].Save?
    && r.states[n].mem.totals.spend + r.steps[n].fee > env.policy.maximumSpend
  }

  /** A write over the cap comes right after its recovery. */
  lemma OverCapWritten(env: Env, r: Run, l: nat)
    requires IsRun(env, r) && l < |r.steps|
    ensures WritesOverCap(env, r.states[l], r.steps[l]) <==> l > 0 && RecoveredOverCap(env, r, l - 1)
  {
    assert r.states[0] == START && START.stage.Loading?;
    RunStep(env, r, l);
    if l > 0 {
      RunOk(env, r, l - 1);
      RunStep(env, r, l - 1);
      hide IsRun, SysOk;
      RecoveredBy(env, r.states[l - 1], r.steps[l - 1], r.states[l]);
    }
  }

  lemma RecoveredBy(env: Env, s: Sys, step: Step, s': Sys)
    requires StateOk(env, s.mem) && Next(env, s, step, s')
    ensures s'.stage.RecoveredAttempt? <==> step.Recover?
    ensures step.Recover? ==> s'.mem.totals.spend == s.mem.totals.spend + step.fee
  {
    if step.Recover? {
      SpendMoves(env, s.mem, step, s'.mem);
    }
    hide Effect, StateOk;
  }

  /** The native spend in the state file is within the policy's cap exactly as long as no recovery that went over
      the cap was written. */
  lemma {:induction false} SpendWithinCapIff(env: Env, r: Run, k: nat)
    requires IsRun(env, r) && k < |r.states|
    ensures r.states[k].disk.totals.spend <= env.policy.maximumSpend <==>
            !exists n: nat | n + 1 < k :: RecoveredOverCap(env, r, n)
  {
    hide StateOk, Next, CapOk, WritesOverCap, RecoveredOverCap;
    assert r.states[0] == START;
    if k > 0 {
      SpendWithinCapIff(env, r, k - 1);
      RunOk(env, r, k - 1);
      RunCapOk(env, r, k - 1);
      CapKeeps(env, r.states[k - 1], r.steps[k - 1], r.states[k]);
      OverCapWritten(env, r, k - 1);
      OneMoreRecovery(env, r, k);
    }
  }

  lemma OneMoreRecovery(env: Env, r: Run, k: nat)
    requires 0 < k
    ensures (exists n: nat | n + 1 < k :: RecoveredOverCap(env, r, n)) <==>
            (exists n: nat | n + 1 < k - 1 :: RecoveredOverCap(env, r, n)) || (k >= 2 && RecoveredOverCap(env, r, k - 2))
  {
    hide RecoveredOverCap;
  }

  // ----- what a caller can check before a revocation is sent -----

  predicate Revoking(stage: Stage) {
    stage.PreparedRevocation? || stage.SentRevocation? || stage.ConfirmingRevocation?
  }

  lemma MayRevokeKept(env: Env, s: Sys, step: Step, s': Sys)
    requires Next(env, s, step, s') && (Revoking(s.stage) ==> MayRevoke(env, s.mem, s.stage.i)) && Revoking(s'.stage)
    ensures MayRevoke(env, s'.mem, s'.stage.i)
  {
  }

  lemma {:induction false} RunMayRevoke(env: Env, r: Run, k: nat)
    requires IsRun(env, r) && k < |r.states| && Revoking(r.states[k].stage)
    ensures MayRevoke(env, r.states[k].mem, r.states[k].stage.i)
  {
    assert r.states[0] == START;
    assert k > 0 && Next(env, r.states[k - 1], r.steps[k - 1], r.states[k]);
    hide Next, MayRevoke;
    if Revoking(r.states[k - 1].stage) {
      RunMayRevoke(env, r, k - 1);
    }
    MayRevokeKept(env, r.states[k - 1], r.steps[k - 1], r.states[k]);
  }

  /** Run r' goes on from state k of r, in the same process, to state l. */
  ghost predicate Onward(env: Env, r: Run, k: nat, r': Run, l: nat) {
    && IsRun(env, r') && k <= l < |r'.states| && k < |r.states| && k <= |r.steps|
    && r'.states[..k + 1] == r.states[..k + 1] && r'.steps[..k] == r.steps[..k]
    && forall n | k <= n < l :: !r'.steps[n].Crash?
  }

  /** What the rest of the process can write, from spend x and a revocation that costs at most `most`. */
  ghost predicate Within(s: Sys, x: nat, most: nat) {
    if Revoking(s.stage) then s.disk.totals.spend <= s.mem.totals.spend == x
    else if s.stage.RecoveredAttempt? then s.disk.totals.spend <= x && s.mem.totals.spend <= x + most
    else s.stage.Over? && s.disk.totals.spend <= x + most
  }

  /** The steps that follow a prepared revocation. */
  lemma RevokingSteps(env: Env, s: Sys, step: Step, s': Sys)
    requires Next(env, s, step, s') && !step.Crash? && (Revoking(s.stage) || s.stage.RecoveredAttempt? || s.stage.Over?)
    ensures step.Save? || step.Fail? || step.CallRevoke? || step.CallConfirm? || step.Recover?
    ensures Revoking(s'.stage) ==> Revoking(s.stage) && !step.Save? && !step.Recover?
    ensures s'.stage.RecoveredAttempt? ==> Revoking(s.stage) && step.Recover?
    ensures Revoking(s'.stage) || s'.stage.RecoveredAttempt? || s'.stage.Over?
    ensures step.Save? ==> s.stage.RecoveredAttempt?
    ensures step.Recover? ==> s'.stage.RecoveredAttempt?
  {
    hide Effect, MayRevoke, MayPrepare, MayPrepareRevocation, AwaitsConfirmation;
  }

  lemma WithinKept(env: Env, s: Sys, step: Step, s': Sys, x: nat)
    requires StateOk(env, s.mem) && Next(env, s, step, s') && !step.Crash? && Within(s, x, env.policy.recoveryGas * env.policy.maximumFee)
    ensures Within(s', x, env.policy.recoveryGas * env.policy.maximumFee)
  {
    RevokingSteps(env, s, step, s');
    if step.Recover? {
      SpendMoves(env, s.mem, step, s'.mem);
      hide StateOk, Moves, WithRecovery;
    } else if step.Save? {
      hide StateOk, Moves;
    } else {
      SpendSame(env, s, step, s');
      hide StateOk, Next;
    }
  }

  lemma {:induction false} WithinUntil(env: Env, r: Run, k: nat, l: nat, x: nat)
    requires IsRun(env, r) && k <= l < |r.states| && forall n | k <= n < l :: !r.steps[n].Crash?
    requires Within(r.states[k], x, env.policy.recoveryGas * env.policy.maximumFee)
    ensures Within(r.states[l], x, env.policy.recoveryGas * env.policy.maximumFee)
  {
    hide Next, StateOk, Within, Ahead, KeysOk, SendsAgree;
    if k < l {
      WithinUntil(env, r, k, l - 1, x);
      RunOk(env, r, l - 1);
      WithinKept(env, r.states[l - 1], r.steps[l - 1], r.states[l], x);
    }
  }

  /** The dearest revocation: sent, confirmed at its whole gas limit, recorded and written. */
  lemma DearestRecovery(env: Env, r: Run, k: nat, i: nat) returns (r': Run)
    requires IsRun(env, r) && k < |r.states| && r.states[k].stage == PreparedRevocation(i)
    ensures Onward(env, r, k, r', k + 4)
    ensures r'.states[k + 4].disk.totals.spend == r.states[k].mem.totals.spend + env.policy.recoveryGas * env.policy.maximumFee
  {
    hide IsRun, Next, MayRevoke, SubmitStep, ConfirmStep, StateOk, Ahead, KeysOk, SendsAgree, Onward;
    RunMayRevoke(env, r, k);
    RunOk(env, r, k);
    var s, most := r.states[k], env.policy.recoveryGas * env.policy.maximumFee;
    RecoverySpend(env, s.mem, i, most);
    var expires, now := SomeWindow(env.policy);
    var op, m := Revoke(s.mem.actions[i].id, s.mem.actions[i].attempt), WithRecovery(s.mem, i, "", most);
    Unmoved(s.wallet, op, Construction(""));
    RevocationTaken(env, s, i, expires, now, s.wallet);
    RevocationQuestionTaken(env, s.(stage := SentRevocation(i)), i, s.wallet);
    RecoveryTaken(env, s.(stage := ConfirmingRevocation(i)), i, "", most);
    SaveTaken(env, s.(mem := m, stage := RecoveredAttempt(i)));
    r' := FourSteps(env, r, k, CallRevoke(i, expires, now), CallConfirm(op), Recover(i, "", most), Save,
                    s.(stage := SentRevocation(i)), s.(stage := ConfirmingRevocation(i)),
                    s.(mem := m, stage := RecoveredAttempt(i)), s.(mem := m, disk := m, stage := Over));
  }

  lemma FourSteps(env: Env, r: Run, k: nat, s1: Step, s2: Step, s3: Step, s4: Step, t1: Sys, t2: Sys, t3: Sys, t4: Sys) returns (r': Run)
    requires IsRun(env, r) && k < |r.states|
    requires Next(env, r.states[k], s1, t1) && Next(env, t1, s2, t2) && Next(env, t2, s3, t3) && Next(env, t3, s4, t4)
    requires !s1.Crash? && !s2.Crash? && !s3.Crash? && !s4.Crash?
    ensures Onward(env, r, k, r', k + 4) && r'.states[k + 4] == t4
  {
    hide Next;
    PrefixIsRun(env, r, k);
    r' := Run(r.states[..k + 1] + [t1, t2, t3, t4], r.steps[..k] + [s1, s2, s3, s4]);
    var p := Run(r.states[..k + 1], r.steps[..k]);
    forall n | 0 <= n < |r'.steps| ensures Next(env, r'.states[n], r'.steps[n], r'.states[n + 1]) {
      if n < k {
        assert Next(env, p.states[n], p.steps[n], p.states[n + 1]);
      }
    }
  }

  lemma RecoverySpend(env: Env, m: State, i: nat, fee: nat)
    requires StateOk(env, m) && MayRevoke(env, m, i)
    ensures i < |m.actions| && m.actions[i].requests != []
    ensures WithRecovery(m, i, "", fee).totals.spend == m.totals.spend + fee
  {
  }

  lemma PrefixIsRun(env: Env, r: Run, k: nat)
    requires IsRun(env, r) && k < |r.states|
    ensures IsRun(env, Run(r.states[..k + 1], r.steps[..k]))
  {
    var p := Run(r.states[..k + 1], r.steps[..k]);
    hide Next;
    forall n | 0 <= n < |p.steps| ensures Next(env, p.states[n], p.steps[n], p.states[n + 1]) {
      RunStep(env, r, n);
    }
  }

  /** Before a prepared revocation is sent: whatever the rest of the process does, the state file stays within the
      cap exactly when the cap has room for the revocation's whole gas limit. */
  lemma RecoveryKeepsCapIff(env: Env, r: Run, k: nat, i: nat)
    requires IsRun(env, r) && k < |r.states| && r.states[k].stage == PreparedRevocation(i)
    ensures (forall r': Run, l: nat | Onward(env, r, k, r', l) :: r'.states[l].disk.totals.spend <= env.policy.maximumSpend)
       <==> r.states[k].mem.totals.spend + env.policy.recoveryGas * env.policy.maximumFee <= env.policy.maximumSpend
  {
    var x, most := r.states[k].mem.totals.spend, env.policy.recoveryGas * env.policy.maximumFee;
    if x + most <= env.policy.maximumSpend {
      RunCapOk(env, r, k);
      assert CapOk(env, r.states[k]);
      forall r': Run, l: nat | Onward(env, r, k, r', l) ensures r'.states[l].disk.totals.spend <= env.policy.maximumSpend {
        assert r'.states[k] == r'.states[..k + 1][k] == r.states[k];
        WithinUntil(env, r', k, l, x);
      }
    } else {
      var r' := DearestRecovery(env, r, k, i);
      assert Onward(env, r, k, r', k + 4);
    }
  }
}
