/** Every effect of the runner as a labelled step over memory, the state file, the wallet and the point of the
    program that the process has reached, and the invariant that all of them keep. A crash may come between any
    two steps, a failed write or call at every point where one can fail. */
module RunnerMachine {
  import opened Wrappers
  import opened RunnerState
  import opened Wallet

  /** Where a process is. An execution is about one action i; `attempted` is executeEvm's submissionAttempted. */
  datatype Stage =
    | Loading                                     // started, old reserves not yet released
    | Idle                                        // in the session loop
    | Observing(i: nat)                           // observe-source was called
    | Entered(id: ActionId, step: nat, family: Family)  // executing, the action's reserve not yet durable
    | Working(i: nat, attempted: bool)            // between two calls about requests
    | PreparedRow(i: nat, attempted: bool)        // the next request is prepared
    | MarkedRow(i: nat)                           // its attempt is marked
    | SubmittedRow(i: nat)                        // it was handed to the adapter
    | RecordedRow(i: nat)                         // its hash is in memory
    | ConfirmingRow(i: nat, attempted: bool)      // its confirmation was asked for
    | ConfirmedRow(i: nat, attempted: bool)       // its confirmation is in memory
    | Finishing(i: nat)                           // all requests are confirmed
    | Failing(i: nat, attempted: bool)            // in the catch block
    | Noted(i: nat)                               // there, the reserve is released or the outcome unknown, in memory
    | PreparedRevocation(i: nat)
    | SentRevocation(i: nat)
    | ConfirmingRevocation(i: nat)
    | RecoveredAttempt(i: nat)                    // the recovery is in memory
    | Over                                        // an error ends the process

  /** `spent` is a history variable: the highest operation number ever given to an operation. */
  datatype Sys = Sys(mem: State, disk: State, wallet: Wallet, spent: nat, stage: Stage)

  datatype Step =
    | Save
    | Crash
    | Fail
    | Open
    | AddAction(id: ActionId, step: nat, family: Family)
    | BeginExecution(id: ActionId, step: nat, family: Family)
    | Enter(i: nat)
    | Reserve(i: nat)
    | CallPrepare(operation: Operation, payload: Payload)
    | MarkAttempted(i: nat)
    | CallSubmit(i: nat, handoffExpires: int, now: int)
    | RecordSubmission(i: nat, item: Item)
    | CallConfirm(operation: Operation)
    | Confirm(i: nat, fee: nat)
    | ReleaseUnspent(i: nat)
    | MarkUnknown(i: nat)
    | CallRevoke(i: nat, handoffExpires: int, now: int)
    | Recover(i: nat, hash: Hash, fee: nat)
    | FinishAction(i: nat)
    | ReleaseConfirmed(i: nat)
    | CountOperation
    | AssignKey(name: Name)
    | CallObserveSource(i: nat)
    | MarkObserved(i: nat)
    | CallObserveOutput(step: nat)
    | CallRefresh(step: nat)
    | Complete(output: nat)

  const START := Sys(INITIAL, INITIAL, Wallet(map[], []), 0, Loading)

  // ----- guards -----

  predicate WindowOpen(p: Policy, handoffExpires: int, now: int) {
    && now < p.authorizationExpires
    && now < p.runnerExpires
    && handoffExpires - now >= p.minimumSubmitRemaining * 1000
  }

  predicate AllConfirmed(items: seq<Item>) {
    forall k | 0 <= k < |items| :: items[k].confirmed
  }

  /** The operation that an action would submit next. */
  function NextOperation(a: Action): Operation {
    Submission(a.id, a.attempt, |a.requests|)
  }

  /** Action i can submit its next request. */
  predicate MaySubmit(env: Env, s: State, i: nat) {
    && i < |s.actions|
    && var a := s.actions[i];
    && |a.requests| < |env.content(a.id).rows| && AllConfirmed(a.requests)
    && match a.family
       case Evm => a.reserve.Some? && s.totals.transactions + 1 <= env.policy.maximumTransactions
       case Solana => a.requests == [] && s.totals.solanaTransactions + 1 <= env.policy.solanaTransactions
  }

  predicate ItemAccepted(env: Env, a: Action, item: Item)
    requires |a.requests| < |env.content(a.id).rows|
  {
    && item.operation == NextOperation(a) && item.binding == env.content(a.id).rows[|a.requests|]
    && !item.confirmed && item.fee == 0
    && match a.family
       case Evm =>
         && |a.requests| < |env.policy.gasCaps|
         && item.protocol == PayloadValue(item.binding)
         && item.protocol <= item.maximum <= RowCost(env, a.id, |a.requests|)
       case Solana => item.protocol == 0
  }

  predicate MayConfirm(env: Env, s: State, i: nat, fee: nat) {
    && i < |s.actions|
    && var a := s.actions[i];
    && a.requests != []
    && var item := a.requests[|a.requests| - 1];
    && !item.confirmed && fee + item.protocol <= item.maximum
    && match a.family
       case Evm => a.reserve.Some?
       case Solana => s.totals.solanaFee + fee <= env.policy.solanaCap
  }

  /** A confirmed approval with no request recorded after it. */
  predicate MayRevoke(env: Env, s: State, i: nat) {
    && i < |s.actions|
    && var a := s.actions[i];
    && a.family == Evm && |a.requests| == 1 && a.requests[0].confirmed && env.content(a.id).approval.Some?
    && s.totals.transactions + 1 <= env.policy.maximumTransactions
  }

  predicate KnownId(s: State, id: ActionId) {
    exists i | 0 <= i < |s.actions| :: s.actions[i].id == id
  }

  // ----- steps -----

  /** The memory after a step that changes only memory. */
  ghost predicate MemoryStep(env: Env, m: State, step: Step, m': State) {
    var allowed := match step
    case AddAction(id, n, family) => !KnownId(m, id) && m' == m.(actions := m.actions + [Fresh(id, n, family)])
    case Reserve(i) =>
      && i < |m.actions| && m.actions[i].family == Evm && m.actions[i].reserve.None? && Sized(env, m.actions[i].id)
      && m.totals.maximum + ReserveOf(env, m.actions[i].id) <= env.policy.maximumSpend
      && m' == WithReserve(m, i, ReserveOf(env, m.actions[i].id))
    case MarkAttempted(i) => i < |m.actions| && m' == WithStatus(m, i, SubmissionAttempted)
    case RecordSubmission(i, item) => MaySubmit(env, m, i) && ItemAccepted(env, m.actions[i], item) && m' == WithSubmission(m, i, item)
    case Confirm(i, fee) => MayConfirm(env, m, i, fee) && m' == WithConfirmation(m, i, fee)
    case ReleaseUnspent(i) =>
      && i < |m.actions| && m.actions[i].reserve.Some? && m.actions[i].requests == []
      && m.totals.maximum >= m.actions[i].reserve.value
      && m' == WithoutReserve(m, i)
    case MarkUnknown(i) => i < |m.actions| && m.actions[i].requests == [] && m' == WithStatus(m, i, OutcomeUnknown)
    case Recover(i, hash, fee) =>
      && MayRevoke(env, m, i) && fee <= env.policy.recoveryGas * env.policy.maximumFee
      && m' == WithRecovery(m, i, hash, fee)
    case FinishAction(i) =>
      && i < |m.actions| && AllConfirmed(m.actions[i].requests)
      && |m.actions[i].requests| == (if m.actions[i].family == Evm then |env.content(m.actions[i].id).rows| else 1) > 0
      && m' == WithStatus(m, i, Confirmed)
    case ReleaseConfirmed(i) =>
      && i < |m.actions| && Releasable(m.actions[i])
      && Spent(m.actions[i].requests) <= m.actions[i].reserve.value <= m.totals.maximum
      && m' == WithActual(m, i)
    case CountOperation => m' == m.(counter := m.counter + 1)
    case MarkObserved(i) => i < |m.actions| && m.actions[i].requests != [] && m' == WithStatus(m, i, Observed)
    case Complete(output) => output >= env.policy.minimumFinal && m' == m.(complete := true)
    case _ => false;
    allowed
  }

  // ----- the flow of a process -----

  predicate IsAction(m: State, i: nat, id: ActionId, n: nat, family: Family) {
    i < |m.actions| && m.actions[i].id == id && m.actions[i].step == n && m.actions[i].family == family
  }

  predicate OfFamily(m: State, i: nat, family: Family) {
    i < |m.actions| && m.actions[i].family == family
  }

  /** Where a write of the state file leads; None where the program writes nothing. After a confirmation of an
      EVM request the actual total is checked before the write (src/caller-runner.js:147). */
  function AfterSave(env: Env, m: State, stage: Stage): Option<Stage> {
    match stage
    case Loading => Some(stage)
    case Idle => Some(stage)
    case Entered(_, _, _) => Some(stage)
    case PreparedRow(i, _) => if OfFamily(m, i, Solana) then Some(stage) else None
    case MarkedRow(_) => Some(stage)
    case RecordedRow(i) => Some(Working(i, true))
    case ConfirmedRow(i, attempted) =>
      if OfFamily(m, i, Evm) && m.totals.spend > env.policy.maximumSpend then None else Some(Working(i, attempted))
    case Finishing(i) => if OfFamily(m, i, Evm) && AnyReleasable(m.actions, |m.actions|) then None else Some(Idle)
    case Noted(_) => Some(Over)
    case RecoveredAttempt(_) => Some(Over)
    case _ => None
  }

  /** Where a failed call, a failed write or a thrown error leads: inside the try block of executeEvm to its
      catch block, from a refused observation back to the loop, from anywhere else out of the process. */
  function AfterFail(m: State, stage: Stage): Option<Stage> {
    match stage
    case Loading => None
    case Idle => None
    case Observing(_) => Some(Idle)
    case Working(i, attempted) => Some(Thrown(m, i, attempted))
    case PreparedRow(i, attempted) => Some(Thrown(m, i, attempted))
    case MarkedRow(i) => Some(Thrown(m, i, true))
    case SubmittedRow(i) => Some(Thrown(m, i, true))
    case RecordedRow(i) => Some(Thrown(m, i, true))
    case ConfirmingRow(i, attempted) => Some(Thrown(m, i, attempted))
    case ConfirmedRow(i, attempted) => Some(Thrown(m, i, attempted))
    case Failing(i, _) => if i < |m.actions| && m.actions[i].requests == [] then None else Some(Over)
    case Over => None
    case _ => Some(Over)
  }

  function Thrown(m: State, i: nat, attempted: bool): Stage {
    if OfFamily(m, i, Evm) then Failing(i, attempted) else Over
  }

  /** The next request of action i can be prepared. */
  predicate MayPrepare(env: Env, m: State, i: nat) {
    && i < |m.actions| && AllConfirmed(m.actions[i].requests)
    && |m.actions[i].requests| < |env.content(m.actions[i].id).rows|
    && (m.actions[i].family == Solana ==> m.actions[i].requests == [])
  }

  predicate MayPrepareRevocation(env: Env, m: State, i: nat, op: Operation, payload: Payload) {
    MayRevoke(env, m, i) && op == Revoke(m.actions[i].id, m.actions[i].attempt) && payload == env.content(m.actions[i].id).approval.value
  }

  predicate AwaitsConfirmation(m: State, i: nat, op: Operation) {
    && i < |m.actions| && m.actions[i].requests != []
    && var item := m.actions[i].requests[|m.actions[i].requests| - 1];
    !item.confirmed && op == item.operation
  }

  /** The step may be taken at this point of the program, and leads to that one. */
  predicate Moves(env: Env, s: Sys, step: Step, stage': Stage) {
    var m, stage := s.mem, s.stage;
    var allowed := match step
    case Save => AfterSave(env, m, stage) == Some(stage')
    case Crash => stage' == Loading
    case Fail => AfterFail(m, stage) == Some(stage')
    case Open => stage.Loading? && stage'.Idle? && m == s.disk && !AnyReleasable(m.actions, |m.actions|)
    case BeginExecution(id, n, family) => stage.Idle? && stage' == Entered(id, n, family)
    case AddAction(id, n, family) => stage == stage' == Entered(id, n, family)
    case Reserve(i) => stage.Entered? && IsAction(m, i, stage.id, stage.step, stage.family) && stage' == stage
    case Enter(i) =>
      && stage.Entered? && IsAction(m, i, stage.id, stage.step, stage.family) && stage' == Working(i, false)
      && (stage.family == Evm ==> m == s.disk && m.actions[i].reserve.Some?)
    case CallPrepare(op, payload) =>
      || (&& stage.Working? && MayPrepare(env, m, stage.i) && op == NextOperation(m.actions[stage.i])
          && payload == env.content(m.actions[stage.i].id).rows[|m.actions[stage.i].requests|]
          && stage' == PreparedRow(stage.i, stage.attempted))
      || (stage.Failing? && MayPrepareRevocation(env, m, stage.i, op, payload) && stage' == PreparedRevocation(stage.i))
    case MarkAttempted(i) => stage.PreparedRow? && stage.i == i && OfFamily(m, i, Evm) && MaySubmit(env, m, i) && stage' == MarkedRow(i)
    case CallSubmit(i, _, _) =>
      (stage == MarkedRow(i) || (stage.PreparedRow? && stage.i == i && OfFamily(m, i, Solana))) && stage' == SubmittedRow(i)
    case RecordSubmission(i, _) => stage == SubmittedRow(i) && stage' == RecordedRow(i)
    case CallConfirm(op) =>
      || (stage.Working? && AwaitsConfirmation(m, stage.i, op) && stage' == ConfirmingRow(stage.i, stage.attempted))
      || (&& stage.SentRevocation? && stage.i < |m.actions| && op == Revoke(m.actions[stage.i].id, m.actions[stage.i].attempt)
          && stage' == ConfirmingRevocation(stage.i))
    case Confirm(i, _) => stage.ConfirmingRow? && stage.i == i && stage' == ConfirmedRow(i, stage.attempted)
    case ReleaseUnspent(i) => stage == Failing(i, false) && stage' == Noted(i)
    case MarkUnknown(i) => stage == Failing(i, true) && stage' == Noted(i)
    case CallRevoke(i, _, _) => stage == PreparedRevocation(i) && stage' == SentRevocation(i)
    case Recover(i, _, _) => stage == ConfirmingRevocation(i) && stage' == RecoveredAttempt(i)
    case FinishAction(i) => stage.Working? && stage.i == i && stage' == Finishing(i)
    case ReleaseConfirmed(_) => (stage.Loading? || stage.Finishing?) && stage' == stage
    case CallObserveSource(i) => stage.Idle? && stage' == Observing(i)
    case MarkObserved(i) => stage == Observing(i) && stage'.Idle?
    case _ => stage.Idle? && stage'.Idle?;
    allowed
  }

  /** What the step does, wherever it is taken. */
  ghost predicate Effect(env: Env, s: Sys, step: Step, s': Sys) {
    var allowed := match step
    case Save => s' == s.(disk := s.mem, stage := s'.stage)
    case Crash => s' == s.(mem := s.disk, stage := s'.stage)
    case Fail => s' == s.(stage := s'.stage)
    case Open => s' == s.(stage := s'.stage)
    case Enter(_) => s' == s.(stage := s'.stage)
    case BeginExecution(_, current, _) => !HasPending(s.mem, current) && s' == s.(stage := s'.stage)
    case CallPrepare(op, payload) => PrepareStep(s.wallet, op, payload, s'.wallet) && s' == s.(wallet := s'.wallet, stage := s'.stage)
    case CallSubmit(i, expires, now) =>
      && MaySubmit(env, s.mem, i) && s.mem == s.disk && WindowOpen(env.policy, expires, now)
      && SubmitStep(s.wallet, NextOperation(s.mem.actions[i]), s'.wallet) && s' == s.(wallet := s'.wallet, stage := s'.stage)
    case CallConfirm(op) => ConfirmStep(s.wallet, op, s'.wallet) && s' == s.(wallet := s'.wallet, stage := s'.stage)
    case CallRevoke(i, expires, now) =>
      && MayRevoke(env, s.mem, i) && WindowOpen(env.policy, expires, now)
      && SubmitStep(s.wallet, Revoke(s.mem.actions[i].id, s.mem.actions[i].attempt), s'.wallet)
      && s' == s.(wallet := s'.wallet, stage := s'.stage)
    case AssignKey(name) =>
      && name !in s.mem.idempotency && s.spent < s.mem.counter == s.disk.counter
      && s' == s.(mem := s.mem.(idempotency := s.mem.idempotency[name := s.mem.counter]), spent := s.mem.counter, stage := s'.stage)
    case CallObserveSource(i) =>
      && s.mem == s.disk && i < |s.mem.actions| && s.mem.actions[i].hashes != []
      && Source(s.mem.actions[i].step, s.mem.actions[i].id) in s.disk.idempotency
      && s' == s.(stage := s'.stage)
    case CallObserveOutput(n) => s.mem == s.disk && Output(n) in s.disk.idempotency && s' == s.(stage := s'.stage)
    case CallRefresh(n) =>
      && s.mem == s.disk && s.spent < s.disk.counter && !HasPending(s.mem, n)
      && s' == s.(spent := s.disk.counter, stage := s'.stage)
    case _ => MemoryStep(env, s.mem, step, s'.mem) && s' == s.(mem := s'.mem, stage := s'.stage);
    allowed
  }

  ghost predicate Next(env: Env, s: Sys, step: Step, s': Sys) {
    Moves(env, s, step, s'.stage) && Effect(env, s, step, s')
  }

  // ----- the invariant -----

  ghost predicate ItemOk(env: Env, a: Action, k: nat)
    requires k < |a.requests|
  {
    var item := a.requests[k];
    && item.operation == Submission(a.id, a.attempt, k)
    && k < |env.content(a.id).rows| && item.binding == env.content(a.id).rows[k]
    && (item.confirmed || (k == |a.requests| - 1 && item.fee == 0))
    && match a.family
       case Evm =>
         && k < |env.policy.gasCaps|
         && item.protocol == PayloadValue(item.binding)
         && item.fee + item.protocol <= item.maximum <= RowCost(env, a.id, k)
       case Solana => k == 0 && item.protocol == 0 && (item.confirmed ==> item.fee <= item.maximum)
  }

  /** The most that one recovery can add to what was spent: the approval and its revocation. */
  function RecoveryCost(env: Env, id: ActionId): nat
    requires Sized(env, id)
  {
    RowCost(env, id, 0) + env.policy.recoveryGas * env.policy.maximumFee
  }

  ghost predicate RecoveryOk(env: Env, a: Action, r: Recovery) {
    && a.family == Evm && Sized(env, a.id)
    && r.fee + r.abandoned.fee + r.abandoned.protocol <= RecoveryCost(env, a.id)
  }

  ghost predicate ActionOk(env: Env, a: Action) {
    && (forall k | 0 <= k < |a.requests| :: ItemOk(env, a, k))
    && |a.hashes| == |a.requests|
    && (forall k | 0 <= k < |a.requests| :: a.hashes[k] == a.requests[k].hash)
    && (a.reserve.Some? ==> a.family == Evm && Sized(env, a.id) && a.reserve.value == ReserveOf(env, a.id))
    && a.attempt == 1 + |a.recoveries|
    && (forall k | 0 <= k < |a.recoveries| :: RecoveryOk(env, a, a.recoveries[k]))
    && (a.requests != [] ==> a.status == SubmissionAttempted || a.status == Submitted || a.status == Confirmed || a.status == Observed)
    && (a.requests != [] && a.family == Evm ==> Sized(env, a.id))
    && (a.status == Confirmed || a.status == Observed ==> a.requests != [])
  }

  ghost predicate UniqueIds(actions: seq<Action>) {
    forall i, j | 0 <= i < j < |actions| :: actions[i].id != actions[j].id
  }

  ghost predicate TotalsOk(env: Env, s: State) {
    var sum := Sum(s.actions);
    && sum.charge <= s.totals.maximum <= env.policy.maximumSpend
    && s.totals.fee == sum.fee && s.totals.protocol == sum.protocol
    && s.totals.spend == s.totals.fee + s.totals.protocol
    && s.totals.transactions == sum.transactions <= env.policy.maximumTransactions
    && s.totals.solanaFee == sum.solanaFee <= env.policy.solanaCap
    && s.totals.solanaTransactions == sum.solanaTransactions <= env.policy.solanaTransactions
  }

  ghost predicate StateOk(env: Env, s: State) {
    && (forall i | 0 <= i < |s.actions| :: ActionOk(env, s.actions[i]))
    && UniqueIds(s.actions)
    && TotalsOk(env, s)
  }

  /** Names have their own operation numbers, all of them given out already. */
  ghost predicate KeysOk(s: State, spent: nat) {
    && (forall n | n in s.idempotency :: 0 < s.idempotency[n] <= spent)
    && (forall n, m | n in s.idempotency && m in s.idempotency && n != m :: s.idempotency[n] != s.idempotency[m])
  }

  /** Memory is never behind the state file. */
  ghost predicate AheadAction(a: Action, b: Action) {
    && a.id == b.id && a.step == b.step && a.family == b.family
    && (a.attempt < b.attempt || (a.attempt == b.attempt && |a.requests| <= |b.requests|))
  }

  ghost predicate Ahead(d: State, m: State) {
    && |d.actions| <= |m.actions|
    && (forall i | 0 <= i < |d.actions| :: AheadAction(d.actions[i], m.actions[i]))
    && (forall n | n in d.idempotency :: n in m.idempotency && m.idempotency[n] == d.idempotency[n])
    && d.counter <= m.counter
  }

  ghost predicate SysOk(env: Env, s: Sys) {
    && StateOk(env, s.mem) && StateOk(env, s.disk)
    && Ahead(s.disk, s.mem)
    && KeysOk(s.mem, s.spent) && KeysOk(s.disk, s.spent)
    && s.spent <= s.disk.counter
    && SendsAgree(s.wallet)
  }
}
