/** The caller-owned session runner's state (src/caller-runner.js): what it keeps in memory,
    writes to its state file, and how each of its updates changes it. */
module RunnerState {
  import opened Wrappers

  type ActionId = string
  type Hash = string

  datatype Family = Evm | Solana

  /** What an adapter is asked to sign. A digest is modelled by the value it digests, so two
      bindings are equal exactly when the payloads are. */
  datatype Payload =
    | Transaction(to: string, data: string, value: nat)
    | Construction(instructions: string)
    | Revocation(token: string, target: string)

  /** What an action id stands for: its ordered requests, and the token approval that the first one
      grants when the action needs one. */
  datatype Content = Content(rows: seq<Payload>, approval: Option<Payload>)

  datatype Policy = Policy(
    authorization: string,
    maximumSpend: nat,
    maximumFee: nat,
    gasCaps: seq<nat>,
    recoveryGas: nat,
    maximumTransactions: nat,
    solanaCap: nat,
    solanaTransactions: nat,
    minimumFinal: nat,
    authorizationExpires: int,
    runnerExpires: int,
    minimumActionRemaining: nat,
    minimumSubmitRemaining: nat)

  /** The caller's policy, and the assumption that an action id names one fixed request list. */
  datatype Env = Env(policy: Policy, content: ActionId -> Content)

  /** Operation ids: one for each request of each attempt of an action, and one for the
      revocation that ends an attempt. Their texts are in module OperationIds. */
  datatype Operation =
    | Submission(action: ActionId, attempt: nat, index: nat)
    | Revoke(action: ActionId, attempt: nat)

  datatype Item = Item(
    operation: Operation,
    binding: Payload,
    window: int,
    hash: Hash,
    confirmed: bool,
    maximum: nat,
    protocol: nat,
    fee: nat)

  /** A recorded recovery; `abandoned` is the approval whose record it drops (a history variable:
      the program keeps only its fee and value, in the totals). */
  datatype Recovery = Recovery(hash: Hash, fee: nat, abandoned: Item)

  datatype Status =
    | Ready
    | SubmissionAttempted
    | Submitted
    | OutcomeUnknown
    | ReservationReleased
    | RetryableAfterRecovery
    | Confirmed
    | Observed

  datatype Action = Action(
    id: ActionId,
    step: nat,
    family: Family,
    attempt: nat,
    status: Status,
    requests: seq<Item>,
    hashes: seq<Hash>,
    reserve: Option<nat>,
    recoveries: seq<Recovery>)

  datatype Totals = Totals(
    maximum: nat,
    protocol: nat,
    fee: nat,
    spend: nat,
    transactions: nat,
    solanaFee: nat,
    solanaTransactions: nat)

  /** Names under which retry keys are kept. */
  datatype Name = Source(step: nat, action: ActionId) | Output(step: nat)

  /** `idempotency` maps a name to the operation number that makes its key. */
  datatype State = State(
    complete: bool,
    counter: nat,
    actions: seq<Action>,
    totals: Totals,
    idempotency: map<Name, nat>)

  const INITIAL := State(false, 0, [], Totals(0, 0, 0, 0, 0, 0, 0), map[])

  // ----- sums over requests, recoveries and actions -----

  /** What `releaseConfirmedEvmReserves` adds up: actual fee (absent counts 0) plus protocol value. */
  function Spent(items: seq<Item>): nat {
    if items == [] then 0
    else Spent(items[..|items| - 1]) + items[|items| - 1].fee + items[|items| - 1].protocol
  }

  function Fees(items: seq<Item>): nat {
    if items == [] then 0 else Fees(items[..|items| - 1]) + items[|items| - 1].fee
  }

  /** Protocol value of the confirmed requests. */
  function Value(items: seq<Item>): nat {
    if items == [] then 0
    else Value(items[..|items| - 1]) + if items[|items| - 1].confirmed then items[|items| - 1].protocol else 0
  }

  function RecoveryFees(rs: seq<Recovery>): nat {
    if rs == [] then 0
    else RecoveryFees(rs[..|rs| - 1]) + rs[|rs| - 1].fee + rs[|rs| - 1].abandoned.fee
  }

  function AbandonedValue(rs: seq<Recovery>): nat {
    if rs == [] then 0 else AbandonedValue(rs[..|rs| - 1]) + rs[|rs| - 1].abandoned.protocol
  }

  /** An action's share of each total. */
  datatype Tally = Tally(
    charge: int,
    fee: int,
    protocol: int,
    transactions: int,
    solanaFee: int,
    solanaTransactions: int,
    recoveries: int)
  {
    function Plus(t: Tally): Tally {
      Tally(charge + t.charge, fee + t.fee, protocol + t.protocol, transactions + t.transactions,
            solanaFee + t.solanaFee, solanaTransactions + t.solanaTransactions, recoveries + t.recoveries)
    }

    function Minus(t: Tally): Tally {
      Tally(charge - t.charge, fee - t.fee, protocol - t.protocol, transactions - t.transactions,
            solanaFee - t.solanaFee, solanaTransactions - t.solanaTransactions, recoveries - t.recoveries)
    }
  }

  /** An EVM action is charged its reserve while it holds one, and what it recorded once it does not. */
  function Share(a: Action): Tally {
    match a.family
    case Evm =>
      Tally(if a.reserve.Some? then a.reserve.value else Spent(a.requests),
            Fees(a.requests) + RecoveryFees(a.recoveries),
            Value(a.requests) + AbandonedValue(a.recoveries),
            |a.requests| + 2 * |a.recoveries|, 0, 0, |a.recoveries|)
    case Solana => Tally(0, 0, 0, 0, Fees(a.requests), |a.requests|, 0)
  }

  function Sum(actions: seq<Action>): Tally {
    if actions == [] then Tally(0, 0, 0, 0, 0, 0, 0)
    else Sum(actions[..|actions| - 1]).Plus(Share(actions[|actions| - 1]))
  }

  lemma {:induction false} SumUpdate(actions: seq<Action>, i: nat, a: Action)
    requires i < |actions|
    ensures Sum(actions[i := a]) == Sum(actions).Minus(Share(actions[i])).Plus(Share(a))
  {
    var n := |actions| - 1;
    if i == n {
      assert actions[i := a][..n] == actions[..n];
    } else {
      SumUpdate(actions[..n], i, a);
      assert actions[i := a][..n] == actions[..n][i := a];
    }
  }

  /** The worst case that a reserve must cover: recovery gas, and value and capped gas of each request. */
  function Cost(env: Env, id: ActionId, n: nat): nat
    requires n <= |env.content(id).rows| && n <= |env.policy.gasCaps|
  {
    if n == 0 then env.policy.recoveryGas * env.policy.maximumFee
    else Cost(env, id, n - 1) + RowCost(env, id, n - 1)
  }

  function PayloadValue(p: Payload): nat {
    if p.Transaction? then p.value else 0
  }

  function RowCost(env: Env, id: ActionId, k: nat): nat
    requires k < |env.content(id).rows| && k < |env.policy.gasCaps|
  {
    PayloadValue(env.content(id).rows[k]) + env.policy.gasCaps[k] * env.policy.maximumFee
  }

  /** The request count that the runner accepts. */
  predicate Sized(env: Env, id: ActionId) {
    0 < |env.content(id).rows| <= |env.policy.gasCaps|
  }

  function ReserveOf(env: Env, id: ActionId): nat
    requires Sized(env, id)
  {
    Cost(env, id, |env.content(id).rows|)
  }

  // ----- updates -----

  function SetAction(s: State, i: nat, a: Action): State
    requires i < |s.actions|
  {
    s.(actions := s.actions[i := a])
  }

  function Fresh(id: ActionId, step: nat, family: Family): Action {
    Action(id, step, family, 1, Ready, [], [], None, [])
  }

  function WithReserve(s: State, i: nat, amount: nat): State
    requires i < |s.actions|
  {
    SetAction(s, i, s.actions[i].(reserve := Some(amount)))
      .(totals := s.totals.(maximum := s.totals.maximum + amount))
  }

  function WithStatus(s: State, i: nat, status: Status): State
    requires i < |s.actions|
  {
    SetAction(s, i, s.actions[i].(status := status))
  }

  function WithSubmission(s: State, i: nat, item: Item): State
    requires i < |s.actions|
  {
    var a := s.actions[i];
    var s' := SetAction(s, i, a.(requests := a.requests + [item], hashes := a.hashes + [item.hash], status := Submitted));
    match a.family
    case Evm => s'.(totals := s.totals.(transactions := s.totals.transactions + 1))
    case Solana => s'.(totals := s.totals.(solanaTransactions := s.totals.solanaTransactions + 1))
  }

  /** The last recorded request becomes confirmed at its actual fee. */
  function WithConfirmation(s: State, i: nat, fee: nat): State
    requires i < |s.actions| && s.actions[i].requests != []
  {
    var a := s.actions[i];
    var k := |a.requests| - 1;
    var item := a.requests[k].(confirmed := true, fee := fee);
    var s' := SetAction(s, i, a.(requests := a.requests[k := item]));
    var t := s.totals;
    match a.family
    case Evm =>
      s'.(totals := t.(fee := t.fee + fee, protocol := t.protocol + item.protocol,
                       spend := t.fee + fee + (t.protocol + item.protocol)))
    case Solana => s'.(totals := t.(solanaFee := t.solanaFee + fee))
  }

  function WithoutReserve(s: State, i: nat): State
    requires i < |s.actions| && s.actions[i].reserve.Some?
    requires s.totals.maximum >= s.actions[i].reserve.value
  {
    SetAction(s, i, s.actions[i].(reserve := None, status := ReservationReleased))
      .(totals := s.totals.(maximum := s.totals.maximum - s.actions[i].reserve.value))
  }

  function WithRecovery(s: State, i: nat, hash: Hash, fee: nat): State
    requires i < |s.actions| && s.actions[i].requests != []
  {
    var a := s.actions[i];
    var t := s.totals;
    SetAction(s, i, a.(recoveries := a.recoveries + [Recovery(hash, fee, a.requests[0])],
                       attempt := a.attempt + 1, requests := [], hashes := [], status := RetryableAfterRecovery))
      .(totals := t.(transactions := t.transactions + 1, fee := t.fee + fee, spend := t.fee + fee + t.protocol))
  }

  /** The loop body of `releaseConfirmedEvmReserves` for one action: the reserve becomes what was spent. */
  predicate Releasable(a: Action) {
    a.family == Evm && (a.status == Confirmed || a.status == Observed) && a.reserve.Some?
  }

  function WithActual(s: State, i: nat): State
    requires i < |s.actions| && Releasable(s.actions[i])
    requires s.totals.maximum >= s.actions[i].reserve.value
  {
    SetAction(s, i, s.actions[i].(reserve := None))
      .(totals := s.totals.(maximum := s.totals.maximum - s.actions[i].reserve.value + Spent(s.actions[i].requests)))
  }

  /** A step has recorded hashes that the session has not yet accepted. */
  predicate Pending(a: Action, step: nat) {
    a.step == step && (a.status == Submitted || a.status == Confirmed) && a.hashes != []
  }

  predicate HasPending(s: State, step: nat) {
    exists i | 0 <= i < |s.actions| :: Pending(s.actions[i], step)
  }

  // ----- what a starting process does to its actions -----

  /** The reserves that a release frees, less what was spent. */
  function Excess(actions: seq<Action>): int {
    if actions == [] then 0
    else
      var a := actions[|actions| - 1];
      Excess(actions[..|actions| - 1]) + if Releasable(a) then a.reserve.value - Spent(a.requests) else 0
  }

  function AfterRelease(a: Action): Action {
    if Releasable(a) then a.(reserve := None) else a
  }

  /** The actions after the first n were looked at. */
  function Released(actions: seq<Action>, n: nat): (r: seq<Action>)
    ensures |r| == |actions|
  {
    seq(|actions|, i requires 0 <= i < |actions| => if i < n then AfterRelease(actions[i]) else actions[i])
  }

  predicate AnyReleasable(actions: seq<Action>, n: nat)
    requires n <= |actions|
  {
    exists i | 0 <= i < n :: Releasable(actions[i])
  }

  /** The state that a process works on once it has released what it could. */
  function Loaded(d: State): State
    requires d.totals.maximum >= Excess(d.actions)
  {
    d.(actions := Released(d.actions, |d.actions|), totals := d.totals.(maximum := d.totals.maximum - Excess(d.actions)))
  }

  lemma ReleaseStart(actions: seq<Action>)
    ensures Released(actions, 0) == actions && Excess(actions[..0]) == 0 && !AnyReleasable(actions, 0)
    ensures actions[..|actions|] == actions
  {
  }

  lemma ReleaseStep(actions: seq<Action>, k: nat)
    requires k < |actions|
    ensures Released(actions, k)[k] == actions[k]
    ensures Released(actions, k + 1) == Released(actions, k)[k := AfterRelease(actions[k])]
    ensures Excess(actions[..k + 1]) == Excess(actions[..k]) +
            if Releasable(actions[k]) then actions[k].reserve.value - Spent(actions[k].requests) else 0
    ensures AnyReleasable(actions, k + 1) <==> AnyReleasable(actions, k) || Releasable(actions[k])
  {
    assert actions[..k + 1][..k] == actions[..k];
  }

  lemma NothingLeft(actions: seq<Action>)
    ensures !AnyReleasable(Released(actions, |actions|), |actions|)
    ensures !AnyReleasable(actions, |actions|) ==> Released(actions, |actions|) == actions
  {
  }
}
