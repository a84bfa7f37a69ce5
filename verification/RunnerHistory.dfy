/** What holds between two moments of one run: operations are never submitted again once their record is
    durable, and retry keys follow the logical operation. */
module RunnerHistory {
  import opened Wrappers
  import opened RunnerState
  import opened Wallet
  import opened RunnerMachine
  import opened RunnerInvariant
  import opened RunnerSafety
  import opened RunnerStages
  import opened OperationIds

  // ----- submission idempotence -----

  ghost predicate PastAction(a: Action, op: Operation) {
    && a.id == op.action
    && (a.attempt > op.attempt || (op.Submission? && a.attempt == op.attempt && |a.requests| > op.index))
  }

  /** The state holds the record of this operation, or has closed its attempt. */
  ghost predicate Past(s: State, op: Operation) {
    exists i | 0 <= i < |s.actions| :: PastAction(s.actions[i], op)
  }

  lemma RecordedIsPast(env: Env, s: State, i: nat, k: nat)
    requires StateOk(env, s) && i < |s.actions| && k < |s.actions[i].requests|
    ensures Past(s, s.actions[i].requests[k].operation)
  {
    assert ItemOk(env, s.actions[i], k);
    assert PastAction(s.actions[i], s.actions[i].requests[k].operation);
  }

  lemma PastCarries(d: State, m: State, op: Operation)
    requires Ahead(d, m) && Past(d, op)
    ensures Past(m, op)
  {
    var i :| 0 <= i < |d.actions| && PastAction(d.actions[i], op);
    assert AheadAction(d.actions[i], m.actions[i]);
    assert PastAction(m.actions[i], op);
  }

  lemma PastStays(env: Env, s: Sys, step: Step, s': Sys, op: Operation)
    requires SysOk(env, s) && Next(env, s, step, s') && Past(s.disk, op)
    ensures Past(s'.disk, op)
  {
    PastCarries(s.disk, s.mem, op);
  }

  lemma {:induction false} PastForever(env: Env, r: Run, j: nat, k: nat, op: Operation)
    requires IsRun(env, r) && j <= k < |r.states| && Past(r.states[j].disk, op)
    ensures Past(r.states[k].disk, op)
  {
    hide Next, SysOk, Past;
    if j < k {
      PastForever(env, r, j, k - 1, op);
      RunOk(env, r, k - 1);
      PastStays(env, r.states[k - 1], r.steps[k - 1], r.states[k], op);
    }
  }

  /** The step asks the adapter to submit this operation. */
  ghost predicate Submits(s: Sys, step: Step, op: Operation) {
    match step
    case CallSubmit(i, _, _) => i < |s.mem.actions| && NextOperation(s.mem.actions[i]) == op
    case CallRevoke(i, _, _) => i < |s.mem.actions| && Revoke(s.mem.actions[i].id, s.mem.actions[i].attempt) == op
    case _ => false
  }

  lemma PastIsNotSubmitted(env: Env, s: Sys, step: Step, op: Operation)
    requires SysOk(env, s) && Past(s.disk, op)
    ensures !Submits(s, step, op)
  {
    PastCarries(s.disk, s.mem, op);
    hide ActionOk, TotalsOk, Ahead, KeysOk, SendsAgree;
    var n: nat :| n < |s.mem.actions| && PastAction(s.mem.actions[n], op);
    if (step.CallSubmit? || step.CallRevoke?) && step.i < |s.mem.actions| {
      hide SysOk;
      if s.mem.actions[n].id == s.mem.actions[step.i].id {
        SameIndex(env, s.mem, n, step.i);
      }
    }
  }

  /** Once an operation's hash is durable, or its attempt is over, no later step of the run submits it. */
  lemma SubmittedNoMore(env: Env, r: Run, j: nat, k: nat, op: Operation)
    requires IsRun(env, r) && j <= k < |r.steps| && Past(r.states[j].disk, op)
    ensures !Submits(r.states[k], r.steps[k], op)
  {
    PastForever(env, r, j, k, op);
    RunOk(env, r, k);
    PastIsNotSubmitted(env, r.states[k], r.steps[k], op);
  }

  /** Once the file holds the record of a request, its operation is never submitted again. */
  lemma RecordedNoMore(env: Env, r: Run, j: nat, k: nat, i: nat, n: nat)
    requires IsRun(env, r) && j <= k < |r.steps|
    requires i < |r.states[j].disk.actions| && n < |r.states[j].disk.actions[i].requests|
    ensures !Submits(r.states[k], r.steps[k], r.states[j].disk.actions[i].requests[n].operation)
  {
    RunOk(env, r, j);
    RecordedIsPast(env, r.states[j].disk, i, n);
    hide IsRun, SysOk, Past;
    SubmittedNoMore(env, r, j, k, r.states[j].disk.actions[i].requests[n].operation);
  }

  /** Sends only ever grow, and grow only by the operation that the step submits. */
  lemma SendsGrow(env: Env, s: Sys, step: Step, s': Sys)
    requires Next(env, s, step, s')
    ensures s.wallet.sends <= s'.wallet.sends
    ensures forall i | |s.wallet.sends| <= i < |s'.wallet.sends| :: Submits(s, step, s'.wallet.sends[i].operation)
  {
    hide MemoryStep;
  }

  /** With the packaged adapter: after an operation's hash is durable in the runner's state file, the
      wallet is never handed another transaction for it. */
  lemma {:induction false} SentNoMore(env: Env, r: Run, j: nat, k: nat, op: Operation)
    requires IsRun(env, r) && j <= k < |r.states| && Past(r.states[j].disk, op)
    ensures r.states[j].wallet.sends <= r.states[k].wallet.sends
    ensures forall i | |r.states[j].wallet.sends| <= i < |r.states[k].wallet.sends| :: r.states[k].wallet.sends[i].operation != op
  {
    hide Next, Past, Submits;
    if j < k {
      SentNoMore(env, r, j, k - 1, op);
      SendsGrow(env, r.states[k - 1], r.steps[k - 1], r.states[k]);
      SubmittedNoMore(env, r, j, k - 1, op);
      var before, after := r.states[k - 1].wallet.sends, r.states[k].wallet.sends;
      forall i | |r.states[j].wallet.sends| <= i < |after| ensures after[i].operation != op {
        if i < |before| {
          assert after[i] == before[i];
        }
      }
    }
  }

  /** Every transaction sent for one operation carries the same payload, nonce, gas and gas price. */
  lemma SendsIdentical(env: Env, r: Run, k: nat, i: nat, j: nat)
    requires IsRun(env, r) && k < |r.states|
    requires i < |r.states[k].wallet.sends| && j < |r.states[k].wallet.sends|
    requires r.states[k].wallet.sends[i].operation == r.states[k].wallet.sends[j].operation
    ensures r.states[k].wallet.sends[i] == r.states[k].wallet.sends[j]
  {
    RunOk(env, r, k);
  }

  /** How one step moves the adapter's records. */
  lemma StoreStep(env: Env, s: Sys, step: Step, s': Sys, op: Operation)
    requires Next(env, s, step, s') && op in s.wallet.store
    ensures op in s'.wallet.store && s'.wallet.store[op].terms == s.wallet.store[op].terms
    ensures s.wallet.store[op].status != Prepared ==> s'.wallet.store[op].status != Prepared
    ensures s.wallet.store[op].status != Prepared ==>
              forall i | |s.wallet.sends| <= i < |s'.wallet.sends| :: s'.wallet.sends[i].operation != op
    ensures s.wallet.sends <= s'.wallet.sends
  {
    hide MemoryStep, MaySubmit, MayRevoke, WindowOpen, HasPending;
  }

  /** Once the adapter has recorded a hash for an operation, the wallet is never handed it again, whatever the
      runner asks for; and the terms of a prepared operation never change. */
  lemma {:induction false} HashedSendsNoMore(env: Env, r: Run, j: nat, k: nat, op: Operation)
    requires IsRun(env, r) && j <= k < |r.states| && op in r.states[j].wallet.store
    ensures op in r.states[k].wallet.store && r.states[k].wallet.store[op].terms == r.states[j].wallet.store[op].terms
    ensures r.states[j].wallet.sends <= r.states[k].wallet.sends
    ensures r.states[j].wallet.store[op].status != Prepared ==>
              && r.states[k].wallet.store[op].status != Prepared
              && forall i | |r.states[j].wallet.sends| <= i < |r.states[k].wallet.sends| :: r.states[k].wallet.sends[i].operation != op
  {
    hide Next;
    if j < k {
      HashedSendsNoMore(env, r, j, k - 1, op);
      StoreStep(env, r.states[k - 1], r.steps[k - 1], r.states[k], op);
      var before, after := r.states[k - 1].wallet.sends, r.states[k].wallet.sends;
      forall i | |r.states[j].wallet.sends| <= i < |after| && r.states[j].wallet.store[op].status != Prepared
        ensures after[i].operation != op
      {
        if i < |before| {
          assert after[i] == before[i];
        }
      }
    }
  }

  /** Each send was made while the whole reserve of its action was durable. */
  lemma SentUnderReserve(env: Env, r: Run, k: nat)
    requires IsRun(env, r) && k < |r.steps| && r.steps[k].CallSubmit?
    ensures r.steps[k].i < |r.states[k].disk.actions|
    ensures var a := r.states[k].disk.actions[r.steps[k].i];
            a.family == Evm ==>
              Sized(env, a.id) && a.reserve == Some(ReserveOf(env, a.id)) && r.states[k].disk.totals.maximum >= a.reserve.value
  {
    RunStep(env, r, k);
    RunOk(env, r, k);
    ChargeWithin(r.states[k].disk.actions, r.steps[k].i);
    assert ActionOk(env, r.states[k].disk.actions[r.steps[k].i]);
  }

  // ----- hashes that the session has not accepted -----

  /** The session step that a refresh, an execution or a submission is for. */
  function StepOf(s: Sys, step: Step): Option<nat> {
    match step
    case CallRefresh(n) => Some(n)
    case BeginExecution(_, n, _) => Some(n)
    case CallSubmit(i, _, _) => if i < |s.mem.actions| then Some(s.mem.actions[i].step) else None
    case _ => None
  }

  lemma NothingPending(env: Env, s: Sys, step: Step, s': Sys)
    requires Next(env, s, step, s') && (step.CallRefresh? || step.BeginExecution?)
    ensures !HasPending(s.mem, step.step)
  {
    hide Moves;
  }

  lemma RecordedStatus(env: Env, s: State, a: Action)
    requires StateOk(env, s) && a in s.actions && a.hashes != []
    ensures a.status == SubmissionAttempted || a.status == Submitted || a.status == Confirmed || a.status == Observed
  {
    assert ActionOk(env, a);
  }

  /** At a submission no other action of its step is pending, and its own last request is marked. */
  lemma SubmittedAlone(env: Env, s: Sys, step: Step, s': Sys, x: nat)
    requires Next(env, s, step, s') && step.CallSubmit? && StageOk(s) && StateOk(env, s.mem)
    requires x < |s.mem.actions| && StepOf(s, step) == Some(s.mem.actions[x].step) && s.mem.actions[x].hashes != []
    ensures !Pending(s.mem.actions[x], s.mem.actions[x].step)
  {
    assert ActionOk(env, s.mem.actions[x]);
    hide ItemOk, RecoveryOk, TotalsOk, DropOk, EnteredOk;
  }

  /** When the runner refreshes a step, enters an execution or submits a request, every action of that step with
      recorded hashes was observed by the session, or has a further request in submission. */
  lemma PendingNotBypassed(env: Env, r: Run, k: nat, x: nat)
    requires IsRun(env, r) && k < |r.steps| && x < |r.states[k].mem.actions|
    requires StepOf(r.states[k], r.steps[k]) == Some(r.states[k].mem.actions[x].step) && r.states[k].mem.actions[x].hashes != []
    ensures r.states[k].mem.actions[x].status == Observed || r.states[k].mem.actions[x].status == SubmissionAttempted
  {
    RunStep(env, r, k);
    RunStageOk(env, r, k);
    RunOk(env, r, k);
    hide IsRun, Next, StageOk, StateOk, Ahead, KeysOk, SendsAgree;
    RecordedStatus(env, r.states[k].mem, r.states[k].mem.actions[x]);
    if r.steps[k].CallSubmit? {
      SubmittedAlone(env, r.states[k], r.steps[k], r.states[k + 1], x);
    } else {
      NothingPending(env, r.states[k], r.steps[k], r.states[k + 1]);
      assert !Pending(r.states[k].mem.actions[x], r.states[k].mem.actions[x].step);
    }
  }

  /** A revocation is sent only after a confirmed approval and before any later request of the attempt. */
  lemma RevokeFollowsApproval(env: Env, r: Run, k: nat)
    requires IsRun(env, r) && k < |r.steps| && r.steps[k].CallRevoke?
    ensures r.steps[k].i < |r.states[k].mem.actions|
    ensures var a := r.states[k].mem.actions[r.steps[k].i];
            && env.content(a.id).approval.Some?
            && |a.requests| == 1 && a.requests[0].confirmed
            && a.requests[0].operation == Submission(a.id, a.attempt, 0)
            && [a.requests[0].binding] <= env.content(a.id).rows
  {
    hide Next, Ahead, KeysOk, SendsAgree, TotalsOk;
    RunOk(env, r, k);
    Revocable(env, r.states[k], r.steps[k], r.states[k + 1]);
    assert ItemOk(env, r.states[k].mem.actions[r.steps[k].i], 0);
  }

  lemma Revocable(env: Env, s: Sys, step: Step, s': Sys)
    requires Next(env, s, step, s') && step.CallRevoke?
    ensures MayRevoke(env, s.mem, step.i)
  {
    hide Moves, SubmitStep;
  }

  // ----- retry keys -----

  /** The operation number whose key a call carries, read from the state file before the call. */
  ghost function KeyOf(s: Sys, step: Step): Option<nat> {
    match step
    case CallObserveSource(i) =>
      if i < |s.mem.actions| && Source(s.mem.actions[i].step, s.mem.actions[i].id) in s.disk.idempotency
      then Some(s.disk.idempotency[Source(s.mem.actions[i].step, s.mem.actions[i].id)]) else None
    case CallObserveOutput(n) => if Output(n) in s.disk.idempotency then Some(s.disk.idempotency[Output(n)]) else None
    case CallRefresh(_) => Some(s.disk.counter)
    case _ => None
  }

  ghost function NameOf(s: Sys, step: Step): Option<Name> {
    match step
    case CallObserveSource(i) => if i < |s.mem.actions| then Some(Source(s.mem.actions[i].step, s.mem.actions[i].id)) else None
    case CallObserveOutput(n) => Some(Output(n))
    case _ => None
  }

  /** How one step moves the table of keys. */
  lemma TableStep(env: Env, s: Sys, step: Step, s': Sys)
    requires Next(env, s, step, s')
    ensures s'.spent >= s.spent
    ensures s'.disk.idempotency == s.disk.idempotency || s'.disk.idempotency == s.mem.idempotency
    ensures || s'.mem.idempotency == s.mem.idempotency
            || s'.mem.idempotency == s.disk.idempotency
            || (step.AssignKey? && s'.mem.idempotency == s.mem.idempotency[step.name := s'.spent] && s'.spent > s.spent)
  {
    hide MaySubmit, MayRevoke, MayConfirm, ItemAccepted, KnownId, HasPending, SubmitStep, PrepareStep, ConfirmStep, Sized, ReserveOf;
  }

  lemma NameStays(env: Env, s: Sys, step: Step, s': Sys, name: Name)
    requires SysOk(env, s) && Next(env, s, step, s') && name in s.disk.idempotency
    ensures name in s'.disk.idempotency && s'.disk.idempotency[name] == s.disk.idempotency[name]
  {
    TableStep(env, s, step, s');
    hide Next, StateOk, KeysOk, SendsAgree;
  }

  lemma {:induction false} NamesStay(env: Env, r: Run, j: nat, k: nat, name: Name)
    requires IsRun(env, r) && j <= k < |r.states| && name in r.states[j].disk.idempotency
    ensures name in r.states[k].disk.idempotency
    ensures r.states[k].disk.idempotency[name] == r.states[j].disk.idempotency[name]
  {
    hide Next, SysOk;
    if j < k {
      NamesStay(env, r, j, k - 1, name);
      RunOk(env, r, k - 1);
      NameStays(env, r.states[k - 1], r.steps[k - 1], r.states[k], name);
    }
  }

  /** Every call carries a key whose operation number is already durable. */
  lemma KeysAreDurable(env: Env, r: Run, k: nat)
    requires IsRun(env, r) && k < |r.steps|
    requires r.steps[k].CallObserveSource? || r.steps[k].CallObserveOutput? || r.steps[k].CallRefresh?
    ensures KeyOf(r.states[k], r.steps[k]).Some?
    ensures 0 < KeyOf(r.states[k], r.steps[k]).value <= r.states[k].disk.counter
  {
    hide Next, KeyOf, NameOf, StateOk, Ahead, SendsAgree;
    RunStep(env, r, k);
    RunOk(env, r, k);
    CallKeyed(env, r.states[k], r.steps[k], r.states[k + 1]);
  }

  /** What a session call's key is. */
  lemma CallKeyed(env: Env, s: Sys, step: Step, s': Sys)
    requires Next(env, s, step, s')
    ensures step.CallRefresh? ==> KeyOf(s, step) == Some(s.disk.counter) && s.spent < s'.spent == s.disk.counter
    ensures step.CallObserveSource? || step.CallObserveOutput? ==>
              && NameOf(s, step).Some? && NameOf(s, step).value in s.disk.idempotency
              && KeyOf(s, step) == Some(s.disk.idempotency[NameOf(s, step).value]) && s.mem == s.disk
    ensures s.spent <= s'.spent
  {
    TableStep(env, s, step, s');
    hide Moves, MemoryStep, HasPending;
  }

  /** Two observations carry the same key exactly when they observe the same thing, however many crashes
      lie between them. */
  lemma ObservationKeys(env: Env, r: Run, j: nat, k: nat)
    requires IsRun(env, r) && j <= k < |r.steps|
    requires r.steps[j].CallObserveSource? || r.steps[j].CallObserveOutput?
    requires r.steps[k].CallObserveSource? || r.steps[k].CallObserveOutput?
    ensures KeyOf(r.states[j], r.steps[j]) == KeyOf(r.states[k], r.steps[k])
       <==> NameOf(r.states[j], r.steps[j]) == NameOf(r.states[k], r.steps[k])
  {
    hide Next, KeyOf, NameOf, StateOk, Ahead, SendsAgree;
    RunStep(env, r, j);
    RunStep(env, r, k);
    CallKeyed(env, r.states[j], r.steps[j], r.states[j + 1]);
    CallKeyed(env, r.states[k], r.steps[k], r.states[k + 1]);
    NamesStay(env, r, j, k, NameOf(r.states[j], r.steps[j]).value);
    RunOk(env, r, k);
  }

  /** No name has an operation number above lo and up to hi. */
  ghost predicate Gap(s: State, lo: nat, hi: nat) {
    forall n | n in s.idempotency :: s.idempotency[n] <= lo || s.idempotency[n] > hi
  }

  lemma GapStep(env: Env, s: Sys, step: Step, s': Sys, lo: nat, hi: nat)
    requires Next(env, s, step, s') && hi <= s.spent
    ensures s.spent <= s'.spent
    ensures Gap(s.mem, lo, hi) && Gap(s.disk, lo, hi) ==> Gap(s'.mem, lo, hi) && Gap(s'.disk, lo, hi)
  {
    TableStep(env, s, step, s');
    hide Next;
  }

  lemma GapOpens(env: Env, s: Sys, step: Step, s': Sys)
    requires Next(env, s, step, s') && SysOk(env, s)
    ensures s.spent <= s'.spent
    ensures step.CallRefresh? ==> Gap(s'.mem, s.spent, s'.spent) && Gap(s'.disk, s.spent, s'.spent)
  {
    TableStep(env, s, step, s');
    hide Moves, MemoryStep, StateOk, Ahead, SendsAgree, HasPending;
  }

  lemma {:induction false} GapStays(env: Env, r: Run, j: nat, k: nat)
    requires IsRun(env, r) && j < k < |r.states|
    ensures r.states[j + 1].spent <= r.states[k].spent
    ensures r.steps[j].CallRefresh? ==> Gap(r.states[k].mem, r.states[j].spent, r.states[j + 1].spent)
    ensures r.steps[j].CallRefresh? ==> Gap(r.states[k].disk, r.states[j].spent, r.states[j + 1].spent)
  {
    hide Next, Gap, SysOk;
    if j + 1 == k {
      RunOk(env, r, j);
      GapOpens(env, r.states[j], r.steps[j], r.states[j + 1]);
    } else {
      GapStays(env, r, j, k - 1);
      GapStep(env, r.states[k - 1], r.steps[k - 1], r.states[k], r.states[j].spent, r.states[j + 1].spent);
    }
  }

  /** A refresh never shares its key with another refresh or with an observation, before or after it. */
  lemma RefreshKeysUnique(env: Env, r: Run, j: nat, k: nat)
    requires IsRun(env, r) && j < |r.steps| && k < |r.steps| && j != k
    requires r.steps[j].CallRefresh?
    requires r.steps[k].CallRefresh? || r.steps[k].CallObserveSource? || r.steps[k].CallObserveOutput?
    ensures KeyOf(r.states[j], r.steps[j]) != KeyOf(r.states[k], r.steps[k])
  {
    hide Next, KeyOf, NameOf, StateOk, Ahead, SendsAgree;
    RunStep(env, r, j);
    RunStep(env, r, k);
    CallKeyed(env, r.states[j], r.steps[j], r.states[j + 1]);
    CallKeyed(env, r.states[k], r.steps[k], r.states[k + 1]);
    RunOk(env, r, k);
    if j < k {
      GapStays(env, r, j, k);
    } else {
      GapStays(env, r, k, j);
    }
  }

  // ----- the texts of retry keys -----

  predicate Observes(step: Step) {
    step.CallObserveSource? || step.CallObserveOutput?
  }

  /** The key that a session call carries: made of the authorization, what it was made for, and its number. */
  ghost function CallText(env: Env, s: Sys, step: Step): Option<string> {
    if KeyOf(s, step).None? then None
    else
      match step
      case CallRefresh(n) => Some(KeyText(env.policy.authorization, RefreshKind(n), KeyOf(s, step).value))
      case _ =>
        if NameOf(s, step).None? then None
        else Some(KeyText(env.policy.authorization, NameText(NameOf(s, step).value), KeyOf(s, step).value))
  }

  lemma TextDeterminesNumber(env: Env, s: Sys, step: Step, t: Sys, other: Step)
    requires CallText(env, s, step).Some? && CallText(env, s, step) == CallText(env, t, other)
    ensures KeyOf(s, step) == KeyOf(t, other)
  {
    var a, b := KindOf(s, step), KindOf(t, other);
    KeyTextDetermines(env.policy.authorization, a, b, KeyOf(s, step).value, KeyOf(t, other).value);
  }

  ghost function KindOf(s: Sys, step: Step): string {
    match step
    case CallRefresh(n) => RefreshKind(n)
    case _ => if NameOf(s, step).Some? then NameText(NameOf(s, step).value) else ""
  }

  /** Over a whole run with crashes, two session calls carry the same key text exactly when they are the same
      refresh, or observations of the same action or of the same step's output. */
  lemma KeyTexts(env: Env, r: Run, j: nat, k: nat)
    requires IsRun(env, r) && j < |r.steps| && k < |r.steps|
    requires Observes(r.steps[j]) || r.steps[j].CallRefresh?
    requires Observes(r.steps[k]) || r.steps[k].CallRefresh?
    ensures CallText(env, r.states[j], r.steps[j]).Some?
    ensures CallText(env, r.states[j], r.steps[j]) == CallText(env, r.states[k], r.steps[k]) <==>
            || j == k
            || (Observes(r.steps[j]) && Observes(r.steps[k]) && NameOf(r.states[j], r.steps[j]) == NameOf(r.states[k], r.steps[k]))
  {
    KeysAreDurable(env, r, j);
    KeysAreDurable(env, r, k);
    hide IsRun, KeyText, NameText, RefreshKind;
    if CallText(env, r.states[j], r.steps[j]) == CallText(env, r.states[k], r.steps[k]) {
      TextDeterminesNumber(env, r.states[j], r.steps[j], r.states[k], r.steps[k]);
    }
    hide KeyOf, NameOf;
    if j != k {
      SameKeys(env, r, j, k);
    }
  }

  lemma SameKeys(env: Env, r: Run, j: nat, k: nat)
    requires IsRun(env, r) && j < |r.steps| && k < |r.steps| && j != k
    requires Observes(r.steps[j]) || r.steps[j].CallRefresh?
    requires Observes(r.steps[k]) || r.steps[k].CallRefresh?
    ensures KeyOf(r.states[j], r.steps[j]) == KeyOf(r.states[k], r.steps[k]) <==>
            Observes(r.steps[j]) && Observes(r.steps[k]) && NameOf(r.states[j], r.steps[j]) == NameOf(r.states[k], r.steps[k])
  {
    hide IsRun, KeyOf, NameOf;
    if r.steps[j].CallRefresh? {
      RefreshKeysUnique(env, r, j, k);
    } else if r.steps[k].CallRefresh? {
      RefreshKeysUnique(env, r, k, j);
    } else if j < k {
      ObservationKeys(env, r, j, k);
    } else {
      ObservationKeys(env, r, k, j);
    }
  }
}
