/** What holds at every moment of every run of the runner: any replies, any number of crashes, failed
    writes and restarts. */
module RunnerSafety {
  import opened Wrappers
  import opened RunnerState
  import opened Wallet
  import opened RunnerMachine
  import opened RunnerInvariant

  /** states[k] --steps[k]--> states[k + 1]. */
  datatype Run = Run(states: seq<Sys>, steps: seq<Step>)

  ghost predicate IsRun(env: Env, r: Run) {
    && |r.states| == |r.steps| + 1
    && r.states[0] == START
    && forall k | 0 <= k < |r.steps| :: Next(env, r.states[k], r.steps[k], r.states[k + 1])
  }

  lemma StartOk(env: Env)
    ensures SysOk(env, START)
  {
  }

  lemma {:induction false} RunOk(env: Env, r: Run, k: nat)
    requires IsRun(env, r) && k < |r.states|
    ensures SysOk(env, r.states[k])
  {
    hide Next, SysOk;
    StartOk(env);
    if k > 0 {
      RunOk(env, r, k - 1);
      NextKeeps(env, r.states[k - 1], r.steps[k - 1], r.states[k]);
    }
  }

  lemma RunStep(env: Env, r: Run, k: nat)
    requires IsRun(env, r) && k < |r.steps|
    ensures Next(env, r.states[k], r.steps[k], r.states[k + 1])
  {
    hide Next;
  }

  function Last(r: Run): Sys {
    if r.states == [] then START else r.states[|r.states| - 1]
  }

  function Extend(r: Run, step: Step, s: Sys): Run {
    Run(r.states + [s], r.steps + [step])
  }

  lemma ExtendRun(env: Env, r: Run, step: Step, s: Sys)
    requires IsRun(env, r) && Next(env, Last(r), step, s)
    ensures IsRun(env, Extend(r, step, s))
  {
    hide Next;
    var r' := Extend(r, step, s);
    forall k | 0 <= k < |r'.steps| ensures Next(env, r'.states[k], r'.steps[k], r'.states[k + 1]) {
      if k < |r.steps| {
        RunStep(env, r, k);
      }
    }
  }

  // ----- the spend ledger -----

  /** The reserves that actions still hold. */
  function Outstanding(actions: seq<Action>): nat {
    if actions == [] then 0
    else Outstanding(actions[..|actions| - 1]) +
         match actions[|actions| - 1].reserve
         case None => 0
         case Some(amount) => amount
  }

  lemma {:induction false} OutstandingCharged(env: Env, actions: seq<Action>)
    requires forall i | 0 <= i < |actions| :: ActionOk(env, actions[i])
    ensures Outstanding(actions) <= Sum(actions).charge
  {
    if actions != [] {
      OutstandingCharged(env, actions[..|actions| - 1]);
      assert ActionOk(env, actions[|actions| - 1]);
    }
  }

  /** Outstanding reserves never exceed the ledger, nor the ledger the policy's cap, in memory or on disk. */
  lemma LedgerSafety(env: Env, r: Run, k: nat)
    requires IsRun(env, r) && k < |r.states|
    ensures Outstanding(r.states[k].mem.actions) <= r.states[k].mem.totals.maximum <= env.policy.maximumSpend
    ensures Outstanding(r.states[k].disk.actions) <= r.states[k].disk.totals.maximum <= env.policy.maximumSpend
  {
    RunOk(env, r, k);
    OutstandingCharged(env, r.states[k].mem.actions);
    OutstandingCharged(env, r.states[k].disk.actions);
  }

  /** `releaseConfirmedEvmReserves` finds each reserve within the ledger and each actual cost within its
      reserve: neither of its two checks can fail. */
  lemma ReleaseNeverThrows(env: Env, m: State, i: nat)
    requires StateOk(env, m) && i < |m.actions| && Releasable(m.actions[i])
    ensures Spent(m.actions[i].requests) <= m.actions[i].reserve.value <= m.totals.maximum
  {
    SpentWithinReserve(env, m.actions[i]);
    ChargeWithin(m.actions, i);
  }

  // ----- recorded spend -----

  lemma {:induction false} FeesAndValueSpent(env: Env, a: Action, n: nat)
    requires a.family == Evm && n <= |a.requests| && forall k | 0 <= k < |a.requests| :: ItemOk(env, a, k)
    ensures Fees(a.requests[..n]) + Value(a.requests[..n]) <= Spent(a.requests[..n])
  {
    if n > 0 {
      FeesAndValueSpent(env, a, n - 1);
      assert a.requests[..n][..n - 1] == a.requests[..n - 1];
    }
  }

  lemma {:induction false} RecoveriesWithin(env: Env, a: Action, n: nat, most: nat)
    requires n <= |a.recoveries| && forall k | 0 <= k < |a.recoveries| :: RecoveryOk(env, a, a.recoveries[k])
    requires Sized(env, a.id) ==> RecoveryCost(env, a.id) <= most
    ensures RecoveryFees(a.recoveries[..n]) + AbandonedValue(a.recoveries[..n]) <= n * most
  {
    if n > 0 {
      hide RecoveryCost, Sized;
      RecoveriesWithin(env, a, n - 1, most);
      assert a.recoveries[..n][..n - 1] == a.recoveries[..n - 1];
      assert RecoveryOk(env, a, a.recoveries[n - 1]);
      assert n * most == (n - 1) * most + most;
    }
  }

  /** A bound on the cost of one recovery of any action in the state. */
  ghost predicate RecoveriesCostAtMost(env: Env, actions: seq<Action>, most: nat) {
    forall i | 0 <= i < |actions| && Sized(env, actions[i].id) :: RecoveryCost(env, actions[i].id) <= most
  }

  lemma ShareWithin(env: Env, a: Action, most: nat)
    requires ActionOk(env, a) && (Sized(env, a.id) ==> RecoveryCost(env, a.id) <= most)
    ensures Covered(Share(a), most)
  {
    if a.family == Evm {
      FeesAndValueSpent(env, a, |a.requests|);
      assert a.requests[..|a.requests|] == a.requests;
      RecoveriesWithin(env, a, |a.recoveries|, most);
      assert a.recoveries[..|a.recoveries|] == a.recoveries;
      SpentWithinReserveOrNone(env, a);
    }
  }

  /** Recorded spend exceeds the ledger's charge by at most the cost of the recoveries. */
  ghost predicate Covered(t: Tally, most: nat) {
    t.fee + t.protocol <= t.charge + t.recoveries * most
  }

  lemma CoveredTogether(t: Tally, u: Tally, most: nat)
    requires Covered(t, most) && Covered(u, most)
    ensures Covered(t.Plus(u), most)
  {
    assert (t.recoveries + u.recoveries) * most == t.recoveries * most + u.recoveries * most;
  }

  lemma {:induction false} SpendWithin(env: Env, actions: seq<Action>, most: nat)
    requires forall i | 0 <= i < |actions| :: ActionOk(env, actions[i])
    requires RecoveriesCostAtMost(env, actions, most)
    ensures Covered(Sum(actions), most)
  {
    if actions != [] {
      hide RecoveryCost, Sized, ActionOk, Share, Covered;
      var n := |actions| - 1;
      SpendWithin(env, actions[..n], most);
      LastWithin(env, actions, most);
      CoveredTogether(Sum(actions[..n]), Share(actions[n]), most);
    }
  }

  lemma LastWithin(env: Env, actions: seq<Action>, most: nat)
    requires actions != [] && ActionOk(env, actions[|actions| - 1]) && RecoveriesCostAtMost(env, actions, most)
    ensures Covered(Share(actions[|actions| - 1]), most)
  {
    hide RecoveryCost, Sized, ActionOk, Share;
    ShareWithin(env, actions[|actions| - 1], most);
  }

  lemma {:induction false} TwoTransactionsEach(actions: seq<Action>)
    ensures 0 <= 2 * Sum(actions).recoveries <= Sum(actions).transactions
  {
    if actions != [] {
      TwoTransactionsEach(actions[..|actions| - 1]);
    }
  }

  function Recoveries(s: State): int {
    Sum(s.actions).recoveries
  }

  /** Recorded native spend exceeds the ledger by at most the cost of the recoveries, of which the
      transaction cap allows one for every two transactions. */
  lemma SpendBound(env: Env, s: State, most: nat)
    requires StateOk(env, s) && RecoveriesCostAtMost(env, s.actions, most)
    ensures s.totals.spend <= s.totals.maximum + Recoveries(s) * most
    ensures s.totals.spend <= env.policy.maximumSpend + Recoveries(s) * most
    ensures 0 <= 2 * Recoveries(s) <= env.policy.maximumTransactions
  {
    SpendWithin(env, s.actions, most);
    TwoTransactionsEach(s.actions);
  }

  lemma SpendBoundOverRuns(env: Env, r: Run, k: nat, most: nat)
    requires IsRun(env, r) && k < |r.states|
    requires forall id | Sized(env, id) :: RecoveryCost(env, id) <= most
    ensures var d := r.states[k].disk;
            && d.totals.spend <= env.policy.maximumSpend + Recoveries(d) * most
            && 2 * Recoveries(d) <= env.policy.maximumTransactions
  {
    RunOk(env, r, k);
    SpendBound(env, r.states[k].disk, most);
  }

  lemma {:induction false} SpendWithoutRecovery(env: Env, actions: seq<Action>)
    requires forall i | 0 <= i < |actions| :: ActionOk(env, actions[i])
    requires Sum(actions).recoveries == 0
    ensures Sum(actions).fee + Sum(actions).protocol <= Sum(actions).charge
  {
    if actions != [] {
      var n := |actions| - 1;
      TwoTransactionsEach(actions[..n]);
      SpendWithoutRecovery(env, actions[..n]);
      hide RecoveryCost, Sized, ActionOk;
      ShareWithin(env, actions[n], if Sized(env, actions[n].id) then RecoveryCost(env, actions[n].id) else 0);
    }
  }

  /** Without a recovery the recorded spend stays within the ledger, so the check on the actual total
      that follows each confirmation never fires. */
  lemma ActualTotalCheckNeverFires(env: Env, r: Run, k: nat)
    requires IsRun(env, r) && k < |r.states| && Recoveries(r.states[k].mem) == 0
    ensures r.states[k].mem.totals.spend <= r.states[k].mem.totals.maximum <= env.policy.maximumSpend
  {
    RunOk(env, r, k);
    SpendWithoutRecovery(env, r.states[k].mem.actions);
  }

  /** Fees, values, spend and transaction counts on disk are exactly those of the recorded requests,
      recoveries and abandoned approvals. */
  lemma Conservation(env: Env, r: Run, k: nat)
    requires IsRun(env, r) && k < |r.states|
    ensures var d, sum := r.states[k].disk, Sum(r.states[k].disk.actions);
            && d.totals.fee == sum.fee && d.totals.protocol == sum.protocol
            && d.totals.spend == sum.fee + sum.protocol
            && d.totals.transactions == sum.transactions <= env.policy.maximumTransactions
  {
    RunOk(env, r, k);
  }

  lemma FirstOnly(env: Env, a: Action, k: nat)
    requires ActionOk(env, a) && a.family == Solana && k < |a.requests|
    ensures k == 0
  {
    assert ItemOk(env, a, k);
  }

  /** Solana fees on disk are exactly the confirmed ones, within the cap; each is within its recorded
      maximum, and no more transactions are recorded than the policy allows. */
  lemma SolanaAccounts(env: Env, r: Run, k: nat)
    requires IsRun(env, r) && k < |r.states|
    ensures var d := r.states[k].disk;
            && d.totals.solanaFee == Sum(d.actions).solanaFee <= env.policy.solanaCap
            && d.totals.solanaTransactions == Sum(d.actions).solanaTransactions <= env.policy.solanaTransactions
    ensures forall a | a in r.states[k].disk.actions && a.family == Solana ::
              |a.requests| <= 1 && forall item | item in a.requests && item.confirmed :: item.fee <= item.maximum
  {
    RunOk(env, r, k);
    var d := r.states[k].disk;
    forall a | a in d.actions && a.family == Solana
      ensures |a.requests| <= 1 && forall item | item in a.requests && item.confirmed :: item.fee <= item.maximum
    {
      assert ActionOk(env, a);
      if a.requests != [] {
        FirstOnly(env, a, |a.requests| - 1);
      }
      forall item | item in a.requests && item.confirmed ensures item.fee <= item.maximum {
        var n :| 0 <= n < |a.requests| && a.requests[n] == item;
        assert ItemOk(env, a, n);
      }
    }
  }
}
