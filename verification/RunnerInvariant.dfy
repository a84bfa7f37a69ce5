/** Every step keeps the runner's invariant. */
module RunnerInvariant {
  import opened Wrappers
  import opened RunnerState
  import opened Wallet
  import opened RunnerMachine

  // ----- one action -----

  lemma AppendSums(items: seq<Item>, item: Item)
    ensures Spent(items + [item]) == Spent(items) + item.fee + item.protocol
    ensures Fees(items + [item]) == Fees(items) + item.fee
    ensures Value(items + [item]) == Value(items) + if item.confirmed then item.protocol else 0
  {
    assert (items + [item])[..|items|] == items;
  }

  lemma AppendRecovery(rs: seq<Recovery>, r: Recovery)
    ensures RecoveryFees(rs + [r]) == RecoveryFees(rs) + r.fee + r.abandoned.fee
    ensures AbandonedValue(rs + [r]) == AbandonedValue(rs) + r.abandoned.protocol
  {
    assert (rs + [r])[..|rs|] == rs;
  }

  /** What an action recorded is covered by the reserve for its request list. */
  lemma {:induction false} SpentWithinCost(env: Env, a: Action, n: nat)
    requires a.family == Evm && n <= |a.requests|
    requires forall k | 0 <= k < |a.requests| :: ItemOk(env, a, k)
    requires n <= |env.content(a.id).rows| && n <= |env.policy.gasCaps|
    ensures Spent(a.requests[..n]) + env.policy.recoveryGas * env.policy.maximumFee <= Cost(env, a.id, n)
  {
    if n > 0 {
      SpentWithinCost(env, a, n - 1);
      assert ItemOk(env, a, n - 1);
      assert a.requests[..n][..n - 1] == a.requests[..n - 1];
    }
  }

  lemma {:induction false} CostMonotone(env: Env, id: ActionId, m: nat, n: nat)
    requires m <= n <= |env.content(id).rows| && n <= |env.policy.gasCaps|
    ensures Cost(env, id, m) <= Cost(env, id, n)
  {
    if m < n {
      CostMonotone(env, id, m, n - 1);
    }
  }

  lemma SpentWithinReserve(env: Env, a: Action)
    requires ActionOk(env, a) && a.reserve.Some?
    ensures Spent(a.requests) <= a.reserve.value
  {
    var n := |a.requests|;
    var revocation: nat := env.policy.recoveryGas * env.policy.maximumFee;
    assert n > 0 ==> ItemOk(env, a, n - 1);
    hide Spent, Cost, ItemOk, RecoveryOk;
    SpentWithinCost(env, a, n);
    assert a.requests[..n] == a.requests;
    CostMonotone(env, a.id, n, |env.content(a.id).rows|);
    assert Spent(a.requests) + revocation <= Cost(env, a.id, |env.content(a.id).rows|);
  }

  // ----- one update -----

  ghost predicate TotalsMatch(env: Env, sum: Tally, t: Totals) {
    && sum.charge <= t.maximum <= env.policy.maximumSpend
    && t.fee == sum.fee && t.protocol == sum.protocol
    && t.spend == t.fee + t.protocol
    && t.transactions == sum.transactions <= env.policy.maximumTransactions
    && t.solanaFee == sum.solanaFee <= env.policy.solanaCap
    && t.solanaTransactions == sum.solanaTransactions <= env.policy.solanaTransactions
  }

  lemma UpdateKeeps(env: Env, s: State, i: nat, a: Action, t: Totals)
    requires StateOk(env, s) && i < |s.actions|
    requires a.id == s.actions[i].id && ActionOk(env, a)
    requires TotalsMatch(env, Sum(s.actions).Minus(Share(s.actions[i])).Plus(Share(a)), t)
    ensures StateOk(env, s.(actions := s.actions[i := a], totals := t))
  {
    SumUpdate(s.actions, i, a);
  }

  lemma {:induction false} ChargesNonNegative(actions: seq<Action>)
    ensures Sum(actions).charge >= 0
  {
    if actions != [] {
      ChargesNonNegative(actions[..|actions| - 1]);
    }
  }

  lemma {:induction false} ChargeWithin(actions: seq<Action>, i: nat)
    requires i < |actions|
    ensures Share(actions[i]).charge <= Sum(actions).charge
  {
    var n := |actions| - 1;
    ChargesNonNegative(actions[..n]);
    if i < n {
      ChargeWithin(actions[..n], i);
    }
  }

  /** An id names one action. */
  lemma SameIndex(env: Env, m: State, x: nat, i: nat)
    requires StateOk(env, m) && x < |m.actions| && i < |m.actions| && m.actions[x].id == m.actions[i].id
    ensures x == i
  {
    hide ActionOk, TotalsOk;
  }

  // ----- memory steps -----

  lemma AddKeeps(env: Env, m: State, id: ActionId, n: nat, family: Family)
    requires StateOk(env, m) && !KnownId(m, id)
    ensures StateOk(env, m.(actions := m.actions + [Fresh(id, n, family)]))
  {
    var actions := m.actions + [Fresh(id, n, family)];
    assert actions[..|m.actions|] == m.actions;
    assert Share(Fresh(id, n, family)) == Tally(0, 0, 0, 0, 0, 0, 0);
  }

  lemma RecordedActionOk(env: Env, m: State, i: nat, item: Item)
    requires StateOk(env, m) && MaySubmit(env, m, i) && ItemAccepted(env, m.actions[i], item)
    ensures ActionOk(env, WithSubmission(m, i, item).actions[i])
  {
    var a, a' := m.actions[i], WithSubmission(m, i, item).actions[i];
    forall k | 0 <= k < |a'.requests| ensures ItemOk(env, a', k) {
      if k < |a.requests| {
        assert ItemOk(env, a, k);
      }
    }
    forall k | 0 <= k < |a'.recoveries| ensures RecoveryOk(env, a', a'.recoveries[k]) {
      assert RecoveryOk(env, a, a.recoveries[k]);
    }
  }

  lemma RecordKeeps(env: Env, m: State, i: nat, item: Item)
    requires StateOk(env, m) && MaySubmit(env, m, i) && ItemAccepted(env, m.actions[i], item)
    ensures StateOk(env, WithSubmission(m, i, item))
  {
    var m' := WithSubmission(m, i, item);
    RecordedActionOk(env, m, i, item);
    AppendSums(m.actions[i].requests, item);
    hide ActionOk;
    UpdateKeeps(env, m, i, m'.actions[i], m'.totals);
  }

  lemma ConfirmedActionOk(env: Env, m: State, i: nat, fee: nat)
    requires StateOk(env, m) && MayConfirm(env, m, i, fee)
    ensures ActionOk(env, WithConfirmation(m, i, fee).actions[i])
  {
    var a, a' := m.actions[i], WithConfirmation(m, i, fee).actions[i];
    forall j | 0 <= j < |a'.requests| ensures ItemOk(env, a', j) {
      assert ItemOk(env, a, j);
    }
    forall j | 0 <= j < |a'.recoveries| ensures RecoveryOk(env, a', a'.recoveries[j]) {
      assert RecoveryOk(env, a, a.recoveries[j]);
    }
  }

  lemma LastReplaced(items: seq<Item>, item: Item)
    requires items != [] && items[|items| - 1].fee == 0 && !items[|items| - 1].confirmed && item.confirmed
    requires item.protocol == items[|items| - 1].protocol
    ensures var items' := items[|items| - 1 := item];
            && Spent(items') == Spent(items) + item.fee
            && Fees(items') == Fees(items) + item.fee
            && Value(items') == Value(items) + item.protocol
  {
    var k := |items| - 1;
    assert items == items[..k] + [items[k]] && items[k := item] == items[..k] + [item];
    AppendSums(items[..k], items[k]);
    AppendSums(items[..k], item);
  }

  lemma ConfirmedShare(m: State, i: nat, fee: nat)
    requires i < |m.actions| && m.actions[i].requests != []
    requires var items := m.actions[i].requests; !items[|items| - 1].confirmed && items[|items| - 1].fee == 0
    ensures var a, a' := m.actions[i], WithConfirmation(m, i, fee).actions[i];
            var protocol := a.requests[|a.requests| - 1].protocol;
            Share(a') == match a.family
              case Evm => Share(a).Plus(Tally(if a.reserve.Some? then 0 else fee, fee, protocol, 0, 0, 0, 0))
              case Solana => Share(a).Plus(Tally(0, 0, 0, 0, fee, 0, 0))
  {
    var items := m.actions[i].requests;
    LastReplaced(items, items[|items| - 1].(confirmed := true, fee := fee));
    hide Spent, Fees, Value, RecoveryFees, AbandonedValue;
  }

  lemma ConfirmKeeps(env: Env, m: State, i: nat, fee: nat)
    requires StateOk(env, m) && MayConfirm(env, m, i, fee)
    ensures StateOk(env, WithConfirmation(m, i, fee))
  {
    var a, m' := m.actions[i], WithConfirmation(m, i, fee);
    assert ItemOk(env, a, |a.requests| - 1);
    ConfirmedActionOk(env, m, i, fee);
    ConfirmedShare(m, i, fee);
    hide ActionOk, Share;
    UpdateKeeps(env, m, i, m'.actions[i], m'.totals);
  }

  lemma RecoverKeeps(env: Env, m: State, i: nat, hash: Hash, fee: nat)
    requires StateOk(env, m) && MayRevoke(env, m, i)
    requires fee <= env.policy.recoveryGas * env.policy.maximumFee
    ensures StateOk(env, WithRecovery(m, i, hash, fee))
  {
    var a, m' := m.actions[i], WithRecovery(m, i, hash, fee);
    var a' := m'.actions[i];
    var r := Recovery(hash, fee, a.requests[0]);
    AppendRecovery(a.recoveries, r);
    assert a.requests == [] + [a.requests[0]];
    AppendSums([], a.requests[0]);
    assert ItemOk(env, a, 0);
    forall k | 0 <= k < |a'.recoveries| ensures RecoveryOk(env, a', a'.recoveries[k]) {
      if k < |a.recoveries| {
        assert RecoveryOk(env, a, a.recoveries[k]);
      }
    }
    SpentWithinReserveOrNone(env, a);
    UpdateKeeps(env, m, i, a', m'.totals);
  }

  lemma SpentWithinReserveOrNone(env: Env, a: Action)
    requires ActionOk(env, a)
    ensures a.reserve.Some? ==> Spent(a.requests) <= a.reserve.value
  {
    if a.reserve.Some? {
      SpentWithinReserve(env, a);
    }
  }

  /** Steps that change one action's reserve or status. */
  lemma LedgerKeeps(env: Env, m: State, step: Step, m': State)
    requires StateOk(env, m) && MemoryStep(env, m, step, m')
    requires step.Reserve? || step.ReleaseUnspent? || step.ReleaseConfirmed?
    ensures StateOk(env, m')
  {
    hide ItemOk, RecoveryOk, ReserveOf;
    var i := step.i;
    ActionShapeKept(env, m.actions[i], m'.actions[i]);
    UpdateKeeps(env, m, i, m'.actions[i], m'.totals);
  }

  lemma StatusKeeps(env: Env, m: State, i: nat, status: Status)
    requires StateOk(env, m) && i < |m.actions|
    requires m.actions[i].requests != [] ==>
               status == SubmissionAttempted || status == Submitted || status == Confirmed || status == Observed
    requires status == Confirmed || status == Observed ==> m.actions[i].requests != []
    ensures StateOk(env, WithStatus(m, i, status))
  {
    ActionShapeKept(env, m.actions[i], m.actions[i].(status := status));
    UpdateKeeps(env, m, i, m.actions[i].(status := status), m.totals);
  }

  lemma ActionShapeKept(env: Env, a: Action, b: Action)
    requires ActionOk(env, a) && b == a.(status := b.status, reserve := b.reserve)
    requires b.reserve.Some? ==> a.family == Evm && Sized(env, a.id) && b.reserve.value == ReserveOf(env, a.id)
    requires a.requests != [] ==>
               b.status == SubmissionAttempted || b.status == Submitted || b.status == Confirmed || b.status == Observed
    requires b.status == Confirmed || b.status == Observed ==> a.requests != []
    ensures ActionOk(env, b)
  {
    forall k | 0 <= k < |b.requests| ensures ItemOk(env, b, k) {
      assert ItemOk(env, a, k);
    }
    forall k | 0 <= k < |b.recoveries| ensures RecoveryOk(env, b, b.recoveries[k]) {
      assert RecoveryOk(env, a, a.recoveries[k]);
    }
  }

  /** Every memory step keeps the accounts. */
  lemma MemoryStepKeeps(env: Env, m: State, step: Step, m': State)
    requires StateOk(env, m) && MemoryStep(env, m, step, m')
    ensures StateOk(env, m')
  {
    match step
    case AddAction(id, n, family) => AddKeeps(env, m, id, n, family);
    case RecordSubmission(i, item) => RecordKeeps(env, m, i, item);
    case Confirm(i, fee) => ConfirmKeeps(env, m, i, fee);
    case Recover(i, hash, fee) => RecoverKeeps(env, m, i, hash, fee);
    case Reserve(i) => LedgerKeeps(env, m, step, m');
    case ReleaseUnspent(i) => LedgerKeeps(env, m, step, m');
    case ReleaseConfirmed(i) => LedgerKeeps(env, m, step, m');
    case MarkAttempted(i) => StatusKeeps(env, m, i, SubmissionAttempted);
    case MarkUnknown(i) => StatusKeeps(env, m, i, OutcomeUnknown);
    case FinishAction(i) => StatusKeeps(env, m, i, Confirmed);
    case MarkObserved(i) => StatusKeeps(env, m, i, Observed);
    case _ =>
  }

  // ----- steps of the whole system -----

  lemma SetStaysAhead(d: State, m: State, i: nat, m': State)
    requires Ahead(d, m) && i < |m.actions|
    requires m' == m.(actions := m'.actions, totals := m'.totals) && |m'.actions| == |m.actions|
    requires m'.actions == m.actions[i := m'.actions[i]] && AheadAction(m.actions[i], m'.actions[i])
    ensures Ahead(d, m') && m'.idempotency == m.idempotency
  {
    forall k | 0 <= k < |d.actions| ensures AheadAction(d.actions[k], m'.actions[k]) {
      assert AheadAction(d.actions[k], m.actions[k]);
    }
  }

  lemma MemoryStepStaysAhead(env: Env, d: State, m: State, step: Step, m': State)
    requires Ahead(d, m) && MemoryStep(env, m, step, m')
    ensures Ahead(d, m') && m'.idempotency == m.idempotency
  {
    hide ItemAccepted, Sized, ReserveOf, KnownId, Spent, AllConfirmed;
    if step.AddAction? || step.CountOperation? || step.Complete? {
      forall k | 0 <= k < |d.actions| ensures AheadAction(d.actions[k], m'.actions[k]) {
        assert AheadAction(d.actions[k], m.actions[k]);
      }
    } else {
      hide Ahead;
      SetStaysAhead(d, m, step.i, m');
    }
  }

  lemma SameAccounts(env: Env, m: State, m': State)
    requires StateOk(env, m) && m'.actions == m.actions && m'.totals == m.totals
    ensures StateOk(env, m')
  {
  }

  lemma WalletStepsAgree(w: Wallet, w': Wallet, op: Operation, payload: Payload)
    requires SendsAgree(w)
    requires PrepareStep(w, op, payload, w') || SubmitStep(w, op, w') || ConfirmStep(w, op, w')
    ensures SendsAgree(w')
  {
    forall i | 0 <= i < |w'.sends|
      ensures w'.sends[i].operation in w'.store && w'.sends[i].terms == w'.store[w'.sends[i].operation].terms
    {
      if i < |w.sends| {
        assert w'.sends[i] == w.sends[i];
      }
    }
  }

  /** Steps that leave memory and the state file alone. */
  predicate CallOnly(step: Step) {
    step.Fail? || step.Open? || step.Enter? || step.BeginExecution? || step.CallPrepare? || step.CallSubmit? || step.CallConfirm? || step.CallRevoke? ||
    step.CallObserveSource? || step.CallObserveOutput? || step.CallRefresh?
  }

  lemma CallKeeps(env: Env, s: Sys, step: Step, s': Sys)
    requires SysOk(env, s) && CallOnly(step) && Next(env, s, step, s')
    ensures SysOk(env, s')
  {
    hide Moves, StateOk, Ahead, SendsAgree, PrepareStep, SubmitStep, ConfirmStep, HasPending;
    var none := Construction("");
    match step
    case CallPrepare(op, payload) => WalletStepsAgree(s.wallet, s'.wallet, op, payload);
    case CallSubmit(i, _, _) => WalletStepsAgree(s.wallet, s'.wallet, NextOperation(s.mem.actions[i]), none);
    case CallConfirm(op) => WalletStepsAgree(s.wallet, s'.wallet, op, none);
    case CallRevoke(i, _, _) =>
      WalletStepsAgree(s.wallet, s'.wallet, Revoke(s.mem.actions[i].id, s.mem.actions[i].attempt), none);
    case _ =>
  }

  lemma MemoryOnlyKeeps(env: Env, s: Sys, step: Step, m': State, stage': Stage)
    requires SysOk(env, s) && MemoryStep(env, s.mem, step, m')
    ensures SysOk(env, s.(mem := m', stage := stage'))
  {
    MemoryStepKeeps(env, s.mem, step, m');
    MemoryStepStaysAhead(env, s.disk, s.mem, step, m');
    hide StateOk, Ahead, SendsAgree, MemoryStep;
  }

  lemma NextKeeps(env: Env, s: Sys, step: Step, s': Sys)
    requires SysOk(env, s) && Next(env, s, step, s')
    ensures SysOk(env, s')
  {
    hide Moves, StateOk, SendsAgree, MemoryStep;
    if CallOnly(step) {
      CallKeeps(env, s, step, s');
    } else if step.AssignKey? {
      SameAccounts(env, s.mem, s'.mem);
    } else if !step.Save? && !step.Crash? {
      MemoryOnlyKeeps(env, s, step, s'.mem, s'.stage);
    }
  }
}
