/** The runner itself (src/caller-runner.js): loops, saves, adapter and session calls, and the recovery in
    executeEvm's catch block. Every reply is arbitrary, every write may fail; whatever happens, the states and
    the stages it goes through form a run of the machine, so what is proved of runs holds of it. */
module Runner {
  import opened Wrappers
  import opened RunnerState
  import opened Wallet
  import opened RunnerMachine
  import opened RunnerInvariant
  import opened RunnerSafety
  import opened RunnerSteps
  import opened RunnerEvents
  import opened OperationIds

  datatype Turn = Again | Completed | Stopped

  datatype Outcome = Done(hashes: seq<Hash>) | Threw

  lemma GasWithinCap(gas: nat, fee: nat, cap: nat, most: nat)
    requires gas <= cap && fee <= most
    ensures gas * fee <= cap * most
  {
    assert gas * fee <= cap * fee;
    assert cap * fee <= cap * most;
  }

  /** Only the last recorded request of an action can be unconfirmed. */
  lemma RequestsShape(env: Env, r: Run, i: nat)
    requires IsRun(env, r) && i < |Last(r).mem.actions|
    ensures var a := Last(r).mem.actions[i];
            && |a.requests| <= |env.content(a.id).rows|
            && (forall k | 0 <= k < |a.requests| - 1 :: a.requests[k].confirmed)
            && (forall k | 0 <= k < |a.requests| :: a.requests[k].binding == env.content(a.id).rows[k])
            && |a.hashes| == |a.requests|
            && (a.family == Solana ==> |a.requests| <= 1 && a.reserve.None?)
  {
    RunOk(env, r, |r.states| - 1);
    var a := Last(r).mem.actions[i];
    assert ActionOk(env, a);
    forall k | 0 <= k < |a.requests| ensures k < |env.content(a.id).rows| && (k < |a.requests| - 1 ==> a.requests[k].confirmed)
      ensures k < |env.content(a.id).rows| ==> a.requests[k].binding == env.content(a.id).rows[k]
    {
      assert ItemOk(env, a, k);
    }
    assert |a.requests| > 0 ==> ItemOk(env, a, |a.requests| - 1);
    assert |a.requests| > 1 ==> ItemOk(env, a, 1);
  }

  lemma ReserveInLedger(env: Env, r: Run, i: nat)
    requires IsRun(env, r) && i < |Last(r).mem.actions| && Last(r).mem.actions[i].reserve.Some?
    ensures Last(r).mem.totals.maximum >= Last(r).mem.actions[i].reserve.value
  {
    RunOk(env, r, |r.states| - 1);
    ChargeWithin(Last(r).mem.actions, i);
    assert ActionOk(env, Last(r).mem.actions[i]);
  }

  lemma SolanaProtocolFree(env: Env, r: Run, i: nat)
    requires IsRun(env, r) && i < |Last(r).mem.actions| && Last(r).mem.actions[i].family == Solana
    ensures forall item | item in Last(r).mem.actions[i].requests :: item.protocol == 0
  {
    RunOk(env, r, |r.states| - 1);
    var a := Last(r).mem.actions[i];
    assert ActionOk(env, a);
    forall item | item in a.requests ensures item.protocol == 0 {
      var k :| 0 <= k < |a.requests| && a.requests[k] == item;
      assert ItemOk(env, a, k);
    }
  }

  /** Two lists of actions differ at most at i. */
  ghost predicate DifferAt(a: seq<Action>, b: seq<Action>, i: nat) {
    |a| == |b| && forall j | 0 <= j < |a| && j != i :: a[j] == b[j]
  }

  // ----- what one operation of the runner does to its memory -----

  /** The state with the action of a handoff in it. */
  function WithAction(m: State, h: Handoff): State {
    if KnownId(m, h.id) then m else m.(actions := m.actions + [Fresh(h.id, h.step, h.family)])
  }

  /** Action i, already marked as attempted if it is an EVM action, got one more request on record. */
  ghost predicate Recorded(env: Env, m: State, i: nat, m': State) {
    exists item :: MemoryStep(env, m, RecordSubmission(i, item), m')
  }

  ghost predicate NowConfirmed(env: Env, m: State, i: nat, m': State) {
    exists fee :: MemoryStep(env, m, Step.Confirm(i, fee), m')
  }

  ghost predicate Recovered(env: Env, m: State, i: nat, m': State) {
    exists hash, fee :: MemoryStep(env, m, Recover(i, hash, fee), m')
  }

  /** What the catch block does before it looks at the approval. */
  function AfterFailure(m: State, i: nat, attempted: bool): State
    requires i < |m.actions| && m.actions[i].reserve.Some? && m.totals.maximum >= m.actions[i].reserve.value
  {
    if m.actions[i].requests != [] then m
    else if attempted then WithStatus(m, i, OutcomeUnknown)
    else WithoutReserve(m, i)
  }

  /** A point of the try block, with this value of submissionAttempted. */
  predicate InTry(stage: Stage, i: nat, flag: bool) {
    || stage == Working(i, flag) || stage == PreparedRow(i, flag) || stage == ConfirmingRow(i, flag) || stage == ConfirmedRow(i, flag)
    || (flag && (stage == MarkedRow(i) || stage == SubmittedRow(i) || stage == RecordedRow(i)))
  }

  class Runner {
    const env: Env
    var mem: State
    var disk: State
    ghost var run: Run
    ghost var log: seq<Event>

    ghost predicate Valid()
      reads this`mem, this`disk, this`run
    {
      IsRun(env, run) && Last(run).mem == mem && Last(run).disk == disk
    }

    /** The point of the program that the history has reached. */
    ghost function At(): Stage
      reads this`run
    {
      Last(run).stage
    }

    /** The history so far is kept. */
    ghost predicate Continues(r: Run)
      reads this`run
    {
      r.states <= run.states && r.steps <= run.steps
    }

    constructor (e: Env)
      ensures Valid() && env == e && mem == disk == INITIAL
    {
      env := e;
      mem, disk := INITIAL, INITIAL;
      run := Run([START], []);
      log := [];
    }

    /** Everything asked since then was answered as it should be. */
    ghost predicate WentWell(since: seq<Event>)
      reads this`log
    {
      AllRight(env.policy, since, log)
    }

    /** Since then the runner asked these questions, up to the first wrong answer. */
    ghost predicate Asked(since: seq<Event>, script: seq<Event>)
      reads this`log
    {
      Follows(env.policy, since, log, script)
    }

    ghost method Note(e: Event)
      modifies this`log
      ensures log == old(log) + [e] && Asked(old(log), [Question(e)]) && (WentWell(old(log)) <==> Right(env.policy, e))
    {
      FollowsOne(env.policy, log, e);
      log := log + [e];
    }

    /** Records that the step just taken led to s. */
    ghost method Took(step: Step, s: Sys)
      requires IsRun(env, run) && Next(env, Last(run), step, s)
      modifies this`run
      ensures run == Extend(old(run), step, s) && IsRun(env, run) && Last(run) == s && Continues(old(run))
    {
      hide Next;
      ExtendRun(env, run, step, s);
      run := Extend(run, step, s);
    }

    /** An update of memory alone. */
    method Update(ghost step: Step, m: State, ghost stage: Stage)
      requires Valid() && Next(env, Last(run), step, Last(run).(mem := m, stage := stage))
      modifies this`mem, this`run
      ensures Valid() && Continues(old(run)) && mem == m && At() == stage
      ensures Last(run).spent == Last(old(run)).spent
    {
      hide IsRun, Next;
      mem := m;
      Took(step, Last(run).(mem := mem, stage := stage));
    }

    /** An error is thrown: to the catch block, or out of the process. */
    ghost method Throw(stage: Stage)
      requires Valid() && AfterFail(mem, At()) == Some(stage)
      modifies this`run
      ensures Valid() && Continues(old(run)) && At() == stage
    {
      hide IsRun, Next, AfterFail;
      FailTaken(env, Last(run));
      Took(Fail, Last(run).(stage := stage));
    }

    // ----- the state file -----

    /** A process starts from what is on disk. */
    method LoadState()
      requires Valid()
      modifies this
      ensures Valid() && Continues(old(run)) && disk == old(disk) && mem == disk && At().Loading? && log == old(log)
    {
      hide IsRun, Next;
      CrashTaken(env, Last(run));
      mem := disk;
      Took(Crash, Last(run).(mem := mem, stage := Loading));
    }

    method SaveState() returns (ok: bool)
      requires Valid() && AfterSave(env, mem, At()).Some?
      modifies this`disk, this`run, this`log
      ensures Valid() && Continues(old(run))
      ensures log == old(log) + [AskedWrite(ok)] && Asked(old(log), [AskedWrite(true)]) && (WentWell(old(log)) <==> ok)
      ensures disk == if ok then mem else old(disk)
      ensures At() == if ok then AfterSave(env, mem, old(At())).value else old(At())
      ensures Last(run).spent == Last(old(run)).spent
    {
      hide IsRun, Next, AfterSave;
      SaveTaken(env, Last(run));
      ok := *;
      Note(AskedWrite(ok));
      if ok {
        disk := mem;
        Took(Save, Last(run).(disk := disk, stage := AfterSave(env, mem, At()).value));
      }
    }

    ghost method TookRelease(k: nat)
      requires IsRun(env, run) && k < |Last(run).mem.actions| && Releasable(Last(run).mem.actions[k])
      requires At().Loading? || At().Finishing?
      modifies this`run
      ensures IsRun(env, run) && Continues(old(run))
      ensures var m, a := Last(old(run)).mem, Last(old(run)).mem.actions[k];
              && Spent(a.requests) <= a.reserve.value <= m.totals.maximum
              && Last(run) == Last(old(run)).(mem := WithActual(m, k))
    {
      var now := Last(run);
      RunOk(env, run, |run.states| - 1);
      hide IsRun, Next, StateOk, Ahead, KeysOk, SendsAgree;
      ReleaseNeverThrows(env, now.mem, k);
      ReleaseTaken(env, now, k);
      Took(ReleaseConfirmed(k), now.(mem := WithActual(now.mem, k)));
    }

    /** Every reserve of a confirmed or observed action becomes what the action spent. Its two checks never fail. */
    method ReleaseConfirmedEvmReserves() returns (threw: bool, changed: bool)
      requires Valid() && (At().Loading? || At().Finishing?)
      modifies this`mem, this`run
      ensures Valid() && Continues(old(run)) && !threw && At() == old(At())
      ensures mem.actions == Released(old(mem).actions, |old(mem).actions|)
      ensures mem.totals == old(mem).totals.(maximum := mem.totals.maximum)
      ensures mem.totals.maximum == old(mem).totals.maximum - Excess(old(mem).actions)
      ensures mem == old(mem).(actions := mem.actions, totals := mem.totals)
      ensures changed <==> AnyReleasable(old(mem).actions, |old(mem).actions|)
      ensures !changed ==> mem == old(mem)
    {
      changed := false;
      var actions, total := mem.actions, mem.totals.maximum;
      ReleaseStart(actions);
      hide IsRun, Spent, Excess, Released, AnyReleasable;
      for k := 0 to |actions|
        invariant IsRun(env, run) && Continues(old(run)) && Last(run).disk == disk && mem == old(mem) && At() == old(At())
        invariant Last(run).mem == mem.(actions := actions, totals := mem.totals.(maximum := total))
        invariant |actions| == |mem.actions| && actions == Released(mem.actions, k)
        invariant total == mem.totals.maximum - Excess(mem.actions[..k])
        invariant changed <==> AnyReleasable(mem.actions, k)
        invariant !changed ==> actions == mem.actions && total == mem.totals.maximum
      {
        ReleaseStep(mem.actions, k);
        var action := actions[k];
        if action.family == Evm && (action.status == Confirmed || action.status == Observed) && action.reserve.Some? {
          TookRelease(k);
          var reserved, actual := action.reserve.value, Spent(action.requests);
          assert actual <= reserved <= total;
          total := total - reserved + actual;
          actions := actions[k := action.(reserve := None)];
          changed := true;
        } else {
          assert actions == actions[k := action];
        }
      }
      mem := mem.(actions := actions, totals := mem.totals.(maximum := total));
      threw := false;
    }

    // ----- adapter calls: any reply; the wallet takes any step that the packaged adapter can take -----

    /** The adapter is asked to prepare an operation. */
    method PrepareCall(op: Operation, payload: Payload, ghost stage: Stage) returns (p: Preparation)
      requires Valid() && Moves(env, Last(run), CallPrepare(op, payload), stage)
      modifies this`run
      ensures Valid() && Continues(old(run)) && At() == stage
    {
      hide IsRun, Moves;
      p := *;
      ghost var w := Last(run).wallet;
      assert PrepareStep(w, op, payload, w);
      ghost var after :| PrepareStep(w, op, payload, after);
      Took(CallPrepare(op, payload), Last(run).(wallet := after, stage := stage));
    }

    method PrepareRequestCall(i: nat, ghost flag: bool) returns (p: Preparation)
      requires Valid() && At() == Working(i, flag) && MayPrepare(env, mem, i)
      modifies this`run
      ensures Valid() && Continues(old(run)) && At() == PreparedRow(i, flag)
    {
      var a := mem.actions[i];
      p := PrepareCall(NextOperation(a), env.content(a.id).rows[|a.requests|], PreparedRow(i, flag));
    }

    method SubmitCall(i: nat, expires: int, now: int) returns (r: Reply)
      requires Valid() && MaySubmit(env, mem, i) && mem == disk && WindowOpen(env.policy, expires, now)
      requires At() == MarkedRow(i) || (At().PreparedRow? && At().i == i && mem.actions[i].family == Solana)
      modifies this`run
      ensures Valid() && Continues(old(run)) && At() == SubmittedRow(i)
    {
      r := *;
      hide IsRun, Next;
      ghost var w, op := Last(run).wallet, NextOperation(mem.actions[i]);
      assert SubmitStep(w, op, w);
      ghost var after :| SubmitStep(w, op, after);
      SubmissionTaken(env, Last(run), i, expires, now, after);
      Took(CallSubmit(i, expires, now), Last(run).(wallet := after, stage := SubmittedRow(i)));
    }

    method RevokeCall(i: nat, expires: int, now: int) returns (r: Reply)
      requires Valid() && MayRevoke(env, mem, i) && WindowOpen(env.policy, expires, now) && At() == PreparedRevocation(i)
      modifies this`run
      ensures Valid() && Continues(old(run)) && At() == SentRevocation(i)
    {
      r := *;
      hide IsRun, Next;
      ghost var w, op := Last(run).wallet, Revoke(mem.actions[i].id, mem.actions[i].attempt);
      assert SubmitStep(w, op, w);
      ghost var after :| SubmitStep(w, op, after);
      RevocationTaken(env, Last(run), i, expires, now, after);
      Took(CallRevoke(i, expires, now), Last(run).(wallet := after, stage := SentRevocation(i)));
    }

    method ConfirmCall(op: Operation, ghost stage: Stage) returns (r: Reply)
      requires Valid() && Moves(env, Last(run), CallConfirm(op), stage)
      modifies this`run
      ensures Valid() && Continues(old(run)) && At() == stage
    {
      hide IsRun, Moves;
      r := *;
      ghost var w := Last(run).wallet;
      assert ConfirmStep(w, op, w);
      ghost var after :| ConfirmStep(w, op, after);
      Took(CallConfirm(op), Last(run).(wallet := after, stage := stage));
    }

    method ConfirmRequestCall(i: nat, op: Operation, ghost flag: bool) returns (r: Reply)
      requires Valid() && At() == Working(i, flag) && AwaitsConfirmation(mem, i, op)
      modifies this`run
      ensures Valid() && Continues(old(run)) && At() == ConfirmingRow(i, flag)
    {
      r := ConfirmCall(op, ConfirmingRow(i, flag));
    }

    method ConfirmRevocationCall(i: nat) returns (r: Reply)
      requires Valid() && At() == SentRevocation(i) && i < |mem.actions|
      modifies this`run
      ensures Valid() && Continues(old(run)) && At() == ConfirmingRevocation(i)
    {
      r := ConfirmCall(Revoke(mem.actions[i].id, mem.actions[i].attempt), ConfirmingRevocation(i));
    }

    // ----- updates of an action -----

    method MarkAttempt(i: nat, ghost flag: bool)
      requires Valid() && At() == PreparedRow(i, flag) && MaySubmit(env, mem, i) && mem.actions[i].family == Evm
      modifies this`mem, this`run
      ensures Valid() && Continues(old(run)) && mem == WithStatus(old(mem), i, SubmissionAttempted) && At() == MarkedRow(i)
    {
      hide IsRun, Next;
      MarkTaken(env, Last(run), i, flag);
      Update(MarkAttempted(i), WithStatus(mem, i, SubmissionAttempted), MarkedRow(i));
    }

    method RecordHash(i: nat, item: Item)
      requires Valid() && At() == SubmittedRow(i) && MaySubmit(env, mem, i) && ItemAccepted(env, mem.actions[i], item)
      modifies this`mem, this`run
      ensures Valid() && Continues(old(run)) && mem == WithSubmission(old(mem), i, item) && At() == RecordedRow(i)
      ensures Recorded(env, old(mem), i, mem) && mem.actions[i].status == Submitted
    {
      hide IsRun, Next;
      assert MemoryStep(env, mem, RecordSubmission(i, item), WithSubmission(mem, i, item));
      RecordTaken(env, Last(run), i, item);
      Update(RecordSubmission(i, item), WithSubmission(mem, i, item), RecordedRow(i));
    }

    method RecordConfirmation(i: nat, fee: nat, ghost flag: bool)
      requires Valid() && At() == ConfirmingRow(i, flag) && MayConfirm(env, mem, i, fee)
      modifies this`mem, this`run
      ensures Valid() && Continues(old(run)) && old(mem).actions[i].requests != [] && mem == WithConfirmation(old(mem), i, fee)
      ensures NowConfirmed(env, old(mem), i, mem) && At() == ConfirmedRow(i, flag)
    {
      hide IsRun, Next;
      assert MemoryStep(env, mem, Confirm(i, fee), WithConfirmation(mem, i, fee));
      ConfirmationTaken(env, Last(run), i, flag, fee);
      Update(Confirm(i, fee), WithConfirmation(mem, i, fee), ConfirmedRow(i, flag));
    }

    method RecordRecovery(i: nat, hash: Hash, fee: nat)
      requires Valid() && At() == ConfirmingRevocation(i) && MayRevoke(env, mem, i) && fee <= env.policy.recoveryGas * env.policy.maximumFee
      modifies this`mem, this`run
      ensures Valid() && Continues(old(run)) && old(mem).actions[i].requests != [] && mem == WithRecovery(old(mem), i, hash, fee)
      ensures Recovered(env, old(mem), i, mem) && At() == RecoveredAttempt(i)
      ensures var a := old(mem).actions[i];
              mem.actions[i] == Action(a.id, a.step, a.family, a.attempt + 1, RetryableAfterRecovery, [], [], a.reserve,
                                       a.recoveries + [Recovery(hash, fee, a.requests[0])])
    {
      hide IsRun, Next;
      assert MemoryStep(env, mem, Recover(i, hash, fee), WithRecovery(mem, i, hash, fee));
      RecoveryTaken(env, Last(run), i, hash, fee);
      Update(Recover(i, hash, fee), WithRecovery(mem, i, hash, fee), RecoveredAttempt(i));
    }

    method MarkFinished(i: nat)
      requires Valid() && At().Working? && At().i == i && i < |mem.actions| && AllConfirmed(mem.actions[i].requests)
      requires |mem.actions[i].requests| == (if mem.actions[i].family == Evm then |env.content(mem.actions[i].id).rows| else 1) > 0
      modifies this`mem, this`run
      ensures Valid() && Continues(old(run)) && mem == WithStatus(old(mem), i, Confirmed) && At() == Finishing(i)
    {
      hide IsRun, Next, AllConfirmed;
      FinishTaken(env, Last(run), i);
      Update(FinishAction(i), WithStatus(mem, i, Confirmed), Finishing(i));
    }

    // ----- executeEvm -----

    /** The action of a handoff, added when it is new; a mismatch with the recorded one throws. */
    method ActionState(h: Handoff) returns (ok: bool, i: nat)
      requires Valid() && (At() == Entered(h.id, h.step, h.family) || KnownId(mem, h.id))
      modifies this`mem, this`run
      ensures Valid() && Continues(old(run)) && At() == old(At())
      ensures i < |mem.actions| && mem.actions[i].id == h.id
      ensures ok <==> mem.actions[i].step == h.step && mem.actions[i].family == h.family
      ensures mem == WithAction(old(mem), h)
    {
      i := 0;
      while i < |mem.actions| && mem.actions[i].id != h.id
        invariant i <= |mem.actions|
        invariant forall j | 0 <= j < i :: mem.actions[j].id != h.id
      {
        i := i + 1;
      }
      hide Next;
      if i == |mem.actions| {
        AddTaken(env, Last(run));
        Update(AddAction(h.id, h.step, h.family), mem.(actions := mem.actions + [Fresh(h.id, h.step, h.family)]), At());
      }
      ok := mem.actions[i].step == h.step && mem.actions[i].family == h.family;
    }

    /** assertExecutionWindow. */
    method AssertExecutionWindow(h: Handoff) returns (ok: bool, now: int)
      modifies this`log
      ensures log == old(log) + [AskedClock(h.expires, now)] && Asked(old(log), [AskedClock(h.expires, 0)])
      ensures ok <==> WindowOpen(env.policy, h.expires, now)
      ensures WentWell(old(log)) <==> ok
    {
      now := *;
      Note(AskedClock(h.expires, now));
      ok := now < env.policy.authorizationExpires && now < env.policy.runnerExpires
            && h.expires - now >= env.policy.minimumSubmitRemaining * 1000;
    }

    /** What is asked to prepare the next request of an EVM action. */
    ghost function Preparing(h: Handoff, i: nat): (script: seq<Event>)
      requires i < |mem.actions| && |mem.actions[i].requests| < |env.content(h.id).rows| <= |env.policy.gasCaps|
      reads this`mem
      ensures |script| == 3
    {
      var index := |mem.actions[i].requests|;
      [AskedClock(h.expires, 0),
       AskedPreparation(NextOperation(mem.actions[i]), env.content(h.id).rows[index], h.expires, env.policy.gasCaps[index], env.policy.maximumFee, PrepareFailed),
       AskedClock(h.expires, 0)]
    }

    /** Lines 136-141: prepare the next request and check what the adapter reports against the caps. */
    method PrepareRequest(h: Handoff, i: nat, ghost flag: bool) returns (ok: bool, maximum: nat, now: int)
      requires Valid() && At() == Working(i, flag) && i < |mem.actions| && mem.actions[i].id == h.id && mem.actions[i].family == Evm
      requires AllConfirmed(mem.actions[i].requests) && Sized(env, h.id) && |mem.actions[i].requests| < |env.content(h.id).rows|
      modifies this`run, this`log
      ensures Valid() && Continues(old(run))
      ensures At() == PreparedRow(i, flag) || (!ok && At() == Working(i, flag))
      ensures var index := |mem.actions[i].requests|;
              ok ==>
                && WindowOpen(env.policy, h.expires, now)
                && mem.totals.transactions + 1 <= env.policy.maximumTransactions
                && PayloadValue(env.content(h.id).rows[index]) <= maximum <= RowCost(env, h.id, index)
      ensures old(log) <= log && (ok <==> WentWell(old(log)) && mem.totals.transactions + 1 <= env.policy.maximumTransactions)
      ensures var full := Preparing(h, i);
              Asked(old(log), if mem.totals.transactions + 1 <= env.policy.maximumTransactions then full else full[..2])
      ensures |log| <= |old(log)| + 3
      ensures ok ==> |log| == |old(log)| + 3 && Right(env.policy, log[|old(log)| + 1]) && log[|old(log)| + 1].AskedPreparation?
                     && log[|old(log)| + 1].preparation.PrepareOk? && maximum == log[|old(log)| + 1].preparation.maximum
    {
      hide IsRun, Next;
      var action := mem.actions[i];
      var index := |action.requests|;
      var request, operation := env.content(h.id).rows[index], NextOperation(action);
      ok, maximum := false, 0;
      var open;
      open, now := AssertExecutionWindow(h);
      if !open { return; }
      var p := PrepareRequestCall(i, flag);
      Note(AskedPreparation(operation, request, h.expires, env.policy.gasCaps[index], env.policy.maximumFee, p));
      if p.PrepareFailed? || p.operation != operation || p.binding != request || p.window != h.expires || !p.simulated { return; }
      if p.gas > env.policy.gasCaps[index] || p.fee > env.policy.maximumFee || p.maximum != PayloadValue(request) + p.gas * p.fee { return; }
      if mem.totals.transactions + 1 > env.policy.maximumTransactions { return; }
      GasWithinCap(p.gas, p.fee, env.policy.gasCaps[index], env.policy.maximumFee);
      open, now := AssertExecutionWindow(h);
      ok, maximum := open, p.maximum;
    }

    /** What is asked to send it: the mark is written before, the hash after. */
    ghost function Sending(h: Handoff, i: nat): (script: seq<Event>)
      requires i < |mem.actions| && |mem.actions[i].requests| < |env.content(h.id).rows|
      reads this`mem
      ensures |script| == 3
    {
      [AskedWrite(true), AskedSubmission(NextOperation(mem.actions[i]), Row(h, |mem.actions[i].requests|), h.expires, CallFailed), AskedWrite(true)]
    }

    /** Lines 136-144: prepare, mark the attempt durably, submit, record the hash. */
    method SubmitRequest(h: Handoff, i: nat, ghost flag: bool) returns (threw: bool, attempted: bool)
      requires Valid() && At() == Working(i, flag) && i < |mem.actions| && mem.actions[i].id == h.id && mem.actions[i].family == Evm
      requires mem.actions[i].reserve.Some? && AllConfirmed(mem.actions[i].requests)
      requires Sized(env, h.id) && |mem.actions[i].requests| < |env.content(h.id).rows|
      modifies this
      ensures Valid() && Continues(old(run)) && DifferAt(old(mem).actions, mem.actions, i)
      ensures mem.actions[i] == old(mem).actions[i].(status := mem.actions[i].status, requests := mem.actions[i].requests, hashes := mem.actions[i].hashes)
      ensures mem.idempotency == old(mem).idempotency
      ensures mem.actions[i].requests == old(mem).actions[i].requests ||
              exists item :: mem.actions[i].requests == old(mem).actions[i].requests + [item] && !item.confirmed
      ensures mem.actions[i].requests != old(mem).actions[i].requests ==> attempted
      ensures !threw ==> mem.actions[i].requests != old(mem).actions[i].requests && disk == mem
      ensures if !attempted then mem == old(mem)
              else mem == WithStatus(old(mem), i, SubmissionAttempted) || Recorded(env, WithStatus(old(mem), i, SubmissionAttempted), i, mem)
      ensures if threw then InTry(At(), i, flag || attempted) else At() == Working(i, true)
      ensures old(log) <= log
      ensures threw <==> !WentWell(old(log)) || old(mem).totals.transactions + 1 > env.policy.maximumTransactions
      ensures var full, sending := old(Preparing(h, i)), old(Sending(h, i));
              Asked(old(log), if old(mem).totals.transactions + 1 <= env.policy.maximumTransactions then full + sending else full[..2])
      ensures attempted <==> |log| > |old(log)| + 3
      ensures var sent := WithStatus(old(mem), i, SubmissionAttempted);
              mem == if !attempted then old(mem)
                     else if |log| == |old(log)| + 4 || !Right(env.policy, log[|old(log)| + 4]) then sent
                     else
                       var answer := log[|old(log)| + 4];
                       WithSubmission(sent, i, RecordOf(h, log[|old(log)| + 1].preparation.maximum, PayloadValue(answer.binding), answer))
    {
      hide IsRun, Next, Moves, MemoryStep, RowCost, WindowOpen, MayRevoke, Recorded, AnyReleasable, Follows, AllRight, Question, Right, WithSubmission,
           Preparing, Sending;
      threw, attempted := true, false;
      ghost var preparing, sending := Preparing(h, i), Sending(h, i);
      var ready, maximum, now := PrepareRequest(h, i, flag);
      if !ready {
        if mem.totals.transactions + 1 <= env.policy.maximumTransactions {
          FollowsShort(env.policy, old(log), log, preparing, sending);
        }
        return;
      }
      ghost var prepared := log;
      attempted := true;
      threw := SendPrepared(h, i, maximum, now, flag);
      FollowsOn(env.policy, old(log), prepared, log, preparing, sending);
      assert log[|old(log)| + 1] == prepared[|old(log)| + 1];
    }

    /** Lines 142-144: mark the attempt durably, submit, record the hash. */
    method SendPrepared(h: Handoff, i: nat, maximum: nat, now: int, ghost flag: bool) returns (threw: bool)
      requires Valid() && At() == PreparedRow(i, flag) && i < |mem.actions| && mem.actions[i].id == h.id && mem.actions[i].family == Evm
      requires MaySubmit(env, mem, i) && Sized(env, h.id) && WindowOpen(env.policy, h.expires, now)
      requires var index := |mem.actions[i].requests|; PayloadValue(env.content(h.id).rows[index]) <= maximum <= RowCost(env, h.id, index)
      modifies this
      ensures Valid() && Continues(old(run)) && DifferAt(old(mem).actions, mem.actions, i)
      ensures mem.actions[i] == old(mem).actions[i].(status := mem.actions[i].status, requests := mem.actions[i].requests, hashes := mem.actions[i].hashes)
      ensures mem.idempotency == old(mem).idempotency
      ensures mem.actions[i].requests == old(mem).actions[i].requests ||
              exists item :: mem.actions[i].requests == old(mem).actions[i].requests + [item] && !item.confirmed
      ensures !threw ==> mem.actions[i].requests != old(mem).actions[i].requests && disk == mem
      ensures var sent := WithStatus(old(mem), i, SubmissionAttempted); mem == sent || Recorded(env, sent, i, mem)
      ensures if threw then InTry(At(), i, true) else At() == Working(i, true)
      ensures old(log) < log && Asked(old(log), old(Sending(h, i))) && (threw <==> !WentWell(old(log)))
      ensures var sent := WithStatus(old(mem), i, SubmissionAttempted);
              if |log| == |old(log)| + 1 || !Right(env.policy, log[|old(log)| + 1]) then mem == sent
              else mem == WithSubmission(sent, i, RecordOf(h, maximum, PayloadValue(log[|old(log)| + 1].binding), log[|old(log)| + 1]))
    {
      hide IsRun, Next, Moves, MemoryStep, RowCost, WindowOpen, MayRevoke, Recorded, AnyReleasable, Follows, AllRight, Question, Right, WithSubmission;
      threw := true;
      ghost var sending := Sending(h, i);
      assert sending[..1] == [AskedWrite(true)] && sending[..1] + sending[1..] == sending;
      MarkAttempt(i, flag);
      var saved := SaveState();
      if !saved {
        FollowsShort(env.policy, old(log), log, sending[..1], sending[1..]);
        return;
      }
      ghost var marked := log;
      threw := SubmitMarked(h, i, maximum, now);
      FollowsOn(env.policy, old(log), marked, log, sending[..1], sending[1..]);
    }

    /** What is recorded of a request that was prepared and submitted. */
    ghost function RecordOf(h: Handoff, maximum: nat, protocol: nat, submission: Event): Item
      requires Right(env.policy, submission) && submission.AskedSubmission?
    {
      Item(submission.operation, submission.binding, h.expires, submission.reply.hash, false, maximum, protocol, 0)
    }

    function Row(h: Handoff, index: nat): Payload
      requires index < |env.content(h.id).rows|
    {
      env.content(h.id).rows[index]
    }

    /** Lines 143-144: the marked request is submitted and its hash recorded. */
    method SubmitMarked(h: Handoff, i: nat, maximum: nat, now: int) returns (threw: bool)
      requires Valid() && At() == MarkedRow(i) && mem == disk && i < |mem.actions| && mem.actions[i].id == h.id && mem.actions[i].family == Evm
      requires MaySubmit(env, mem, i) && Sized(env, h.id) && WindowOpen(env.policy, h.expires, now)
      requires var index := |mem.actions[i].requests|; PayloadValue(env.content(h.id).rows[index]) <= maximum <= RowCost(env, h.id, index)
      modifies this
      ensures Valid() && Continues(old(run)) && DifferAt(old(mem).actions, mem.actions, i)
      ensures mem == old(mem) || Recorded(env, old(mem), i, mem)
      ensures mem.actions[i] == old(mem).actions[i].(status := mem.actions[i].status, requests := mem.actions[i].requests, hashes := mem.actions[i].hashes)
      ensures mem.idempotency == old(mem).idempotency
      ensures mem.actions[i].requests == old(mem).actions[i].requests ||
              exists item :: mem.actions[i].requests == old(mem).actions[i].requests + [item] && !item.confirmed
      ensures !threw ==> mem.actions[i].requests != old(mem).actions[i].requests && disk == mem
      ensures if threw then InTry(At(), i, true) else At() == Working(i, true)
      ensures old(log) < log && (threw <==> !WentWell(old(log)))
      ensures Asked(old(log), [AskedSubmission(old(NextOperation(mem.actions[i])), Row(h, old(|mem.actions[i].requests|)), h.expires, CallFailed), AskedWrite(true)])
      ensures var answer := log[|old(log)|];
              if Right(env.policy, answer)
              then answer.AskedSubmission? && mem == WithSubmission(old(mem), i, RecordOf(h, maximum, PayloadValue(answer.binding), answer))
              else mem == old(mem)
    {
      hide IsRun, Next, Moves, MemoryStep, RowCost, WindowOpen, MayRevoke, Recorded, AnyReleasable, Follows, AllRight, Question, Right;
      threw := true;
      var request, operation := env.content(h.id).rows[|mem.actions[i].requests|], NextOperation(mem.actions[i]);
      ghost var ask: Event := AskedSubmission(operation, request, h.expires, CallFailed);
      assert [ask] + [AskedWrite(true)] == [ask, AskedWrite(true)];
      var ok, hash := AskSubmission(h, i, now, operation, request);
      if !ok {
        FollowsShort(env.policy, old(log), log, [ask], [AskedWrite(true)]);
        return;
      }
      ghost var submitted := log;
      var item := Item(operation, request, h.expires, hash, false, maximum, PayloadValue(request), 0);
      RecordHash(i, item);
      var saved := SaveState();
      FollowsOn(env.policy, old(log), submitted, log, [ask], [AskedWrite(true)]);
      threw := !saved;
    }

    /** The adapter is asked to submit a request, and its answer is checked. */
    method AskSubmission(h: Handoff, i: nat, now: int, operation: Operation, request: Payload) returns (ok: bool, hash: Hash)
      requires Valid() && MaySubmit(env, mem, i) && mem == disk && WindowOpen(env.policy, h.expires, now)
      requires At() == MarkedRow(i) || (At().PreparedRow? && At().i == i && mem.actions[i].family == Solana)
      modifies this`run, this`log
      ensures Valid() && Continues(old(run)) && At() == SubmittedRow(i)
      ensures |log| == |old(log)| + 1 && old(log) <= log && Asked(old(log), [AskedSubmission(operation, request, h.expires, CallFailed)])
      ensures (ok <==> WentWell(old(log))) && (ok <==> Right(env.policy, log[|old(log)|]))
      ensures ok ==> log[|old(log)|] == AskedSubmission(operation, request, h.expires, SubmitOk(operation, request, h.expires, hash))
    {
      hide IsRun, Next, Moves, MaySubmit, WindowOpen;
      ok, hash := false, "";
      var r := SubmitCall(i, h.expires, now);
      Note(AskedSubmission(operation, request, h.expires, r));
      if !r.SubmitOk? || r.operation != operation || r.binding != request || r.window != h.expires { return; }
      ok, hash := true, r.hash;
    }

    /** Lines 146-147: confirm the last recorded request and move its cost into the totals. The check on the
        actual total comes after memory has changed and before it is saved. */
    method ConfirmRequest(h: Handoff, i: nat, ghost flag: bool) returns (threw: bool)
      requires Valid() && At() == Working(i, flag) && i < |mem.actions| && mem.actions[i].id == h.id && mem.actions[i].family == Evm
      requires mem.actions[i].reserve.Some? && mem.actions[i].requests != []
      requires !mem.actions[i].requests[|mem.actions[i].requests| - 1].confirmed
      modifies this
      ensures Valid() && Continues(old(run)) && DifferAt(old(mem).actions, mem.actions, i)
      ensures mem.actions[i] == old(mem).actions[i].(requests := mem.actions[i].requests)
      ensures mem.idempotency == old(mem).idempotency
      ensures |mem.actions[i].requests| == |old(mem).actions[i].requests|
      ensures var k := |mem.actions[i].requests| - 1;
              && mem.actions[i].requests[..k] == old(mem).actions[i].requests[..k]
              && (!threw ==> mem.actions[i].requests[k].confirmed)
      ensures mem == old(mem) || NowConfirmed(env, old(mem), i, mem)
      ensures mem.totals.spend > env.policy.maximumSpend && mem != old(mem) ==> threw
      ensures if threw then disk == old(disk) else disk == mem && mem.totals.spend <= env.policy.maximumSpend
      ensures if threw then InTry(At(), i, flag) else At() == Working(i, flag)
      ensures old(log) <= log && (threw <==> !WentWell(old(log)) || mem.totals.spend > env.policy.maximumSpend)
      ensures var ask := old(Confirming(i));
              Asked(old(log), if mem.totals.spend <= env.policy.maximumSpend then [ask, AskedWrite(true)] else [ask])
      ensures mem == if Right(env.policy, log[|old(log)|]) then WithConfirmation(old(mem), i, log[|old(log)|].reply.fee) else old(mem)
    {
      hide IsRun, Next, Moves, MemoryStep, NowConfirmed, AnyReleasable, Follows, AllRight, Right, Question;
      threw := true;
      ghost var ask := Confirming(i);
      assert [ask] + [AskedWrite(true)] == [ask, AskedWrite(true)];
      var ok, fee := AskConfirmation(i, flag);
      if !ok {
        FollowsShort(env.policy, old(log), log, [ask], [AskedWrite(true)]);
        return;
      }
      ghost var asked := log;
      RecordConfirmation(i, fee, flag);
      if mem.totals.spend > env.policy.maximumSpend { return; }
      var saved := SaveState();
      FollowsOn(env.policy, old(log), asked, log, [ask], [AskedWrite(true)]);
      threw := !saved;
    }

    ghost function Confirming(i: nat): Event
      requires i < |mem.actions| && mem.actions[i].requests != []
      reads this`mem
    {
      var item := mem.actions[i].requests[|mem.actions[i].requests| - 1];
      AskedConfirmation(item.operation, item.binding, item.window, item.hash, item.maximum - item.protocol, CallFailed)
    }

    /** Line 146: ask for the confirmation of the last recorded request, and check it against the record. */
    method AskConfirmation(i: nat, ghost flag: bool) returns (ok: bool, fee: nat)
      requires Valid() && At() == Working(i, flag) && i < |mem.actions| && mem.actions[i].requests != []
      requires !mem.actions[i].requests[|mem.actions[i].requests| - 1].confirmed
      modifies this`run, this`log
      ensures Valid() && Continues(old(run)) && At() == ConfirmingRow(i, flag)
      ensures |log| == |old(log)| + 1 && old(log) <= log && Asked(old(log), [Confirming(i)])
      ensures (ok <==> Right(env.policy, log[|old(log)|])) && (ok <==> WentWell(old(log)))
      ensures ok ==> log[|old(log)|].AskedConfirmation? && log[|old(log)|].reply.ConfirmOk? && fee == log[|old(log)|].reply.fee
      ensures var item := mem.actions[i].requests[|mem.actions[i].requests| - 1]; ok ==> fee + item.protocol <= item.maximum
    {
      hide IsRun, Next, Moves, MemoryStep;
      ok, fee := false, 0;
      var item := mem.actions[i].requests[|mem.actions[i].requests| - 1];
      var r := ConfirmRequestCall(i, item.operation, flag);
      Note(AskedConfirmation(item.operation, item.binding, item.window, item.hash, item.maximum - item.protocol, r));
      if !r.ConfirmOk? || r.operation != item.operation || r.binding != item.binding || r.window != item.window || r.hash != item.hash { return; }
      if r.fee + item.protocol > item.maximum { return; }
      ok, fee := true, r.fee;
    }

    /** One turn of the loop: a request that is not recorded is submitted, and then the last recorded one is confirmed. */
    method SendRequest(h: Handoff, i: nat, index: nat, ghost flag: bool) returns (threw: bool, tried: bool)
      requires Valid() && At() == Working(i, flag) && i < |mem.actions| && mem.actions[i].id == h.id && mem.actions[i].family == Evm
      requires mem.actions[i].reserve.Some? && Sized(env, h.id)
      requires index <= |mem.actions[i].requests| && index < |env.content(h.id).rows|
      requires forall k | 0 <= k < index :: mem.actions[i].requests[k].confirmed
      requires index < |mem.actions[i].requests| ==> !mem.actions[i].requests[index].confirmed
      modifies this
      ensures Valid() && Continues(old(run)) && DifferAt(old(mem).actions, mem.actions, i)
      ensures mem.actions[i] == old(mem).actions[i].(status := mem.actions[i].status, requests := mem.actions[i].requests, hashes := mem.actions[i].hashes)
      ensures mem.idempotency == old(mem).idempotency
      ensures |old(mem).actions[i].requests| <= |mem.actions[i].requests|
      ensures |mem.actions[i].requests| > |old(mem).actions[i].requests| ==> tried
      ensures !threw ==> AllConfirmed(mem.actions[i].requests) && disk == mem
      ensures !threw ==> |mem.actions[i].requests| == index + 1
      ensures if threw then InTry(At(), i, flag || tried) else At() == Working(i, flag || tried)
      ensures old(log) <= log && (!threw ==> WentWell(old(log)))
      ensures threw && WentWell(old(log)) ==> CapReached(mem.totals)
    {
      hide IsRun, Next, Sized, Recorded, NowConfirmed, Moves, MayRevoke, AfterSave, Right, Question, Follows, AllRight;
      tried := false;
      RequestsShape(env, run, i);
      if index == |mem.actions[i].requests| {
        threw, tried := SubmitRequest(h, i, flag);
        if threw { return; }
      }
      ghost var before := log;
      threw := ConfirmRequest(h, i, flag || tried);
      AllRightJoins(env.policy, old(log), before, log);
    }

    /** No room for one more transaction, or more spent than the policy allows: nothing undoes either. */
    ghost predicate CapReached(t: Totals) {
      t.transactions + 1 > env.policy.maximumTransactions || t.spend > env.policy.maximumSpend
    }

    /** The try block: each request in order, skipping confirmed ones and resuming recorded ones. */
    method SendRequests(h: Handoff, i: nat) returns (threw: bool, attempted: bool)
      requires Valid() && At() == Working(i, false) && i < |mem.actions| && mem.actions[i].id == h.id && mem.actions[i].family == Evm
      requires mem.actions[i].reserve.Some? && Sized(env, h.id)
      modifies this
      ensures Valid() && Continues(old(run)) && DifferAt(old(mem).actions, mem.actions, i)
      ensures mem.actions[i] == old(mem).actions[i].(status := mem.actions[i].status, requests := mem.actions[i].requests, hashes := mem.actions[i].hashes)
      ensures mem.idempotency == old(mem).idempotency
      ensures |old(mem).actions[i].requests| <= |mem.actions[i].requests|
      ensures |mem.actions[i].requests| > |old(mem).actions[i].requests| ==> attempted
      ensures !threw ==> AllConfirmed(mem.actions[i].requests) && |mem.actions[i].requests| == |env.content(h.id).rows|
      ensures !threw && old(mem) == old(disk) ==> mem == disk
      ensures if threw then InTry(At(), i, attempted) else At() == Working(i, attempted)
      ensures old(log) <= log && (!threw ==> WentWell(old(log)))
      ensures threw && WentWell(old(log)) ==> CapReached(mem.totals)
    {
      hide IsRun, Next, Sized, Recorded, NowConfirmed, Moves, MayRevoke, AfterSave, Right, Question, Follows, AllRight;
      AllRightNow(env.policy, log);
      var rows := env.content(h.id).rows;
      threw, attempted := false, false;
      for index := 0 to |rows|
        invariant Valid() && Continues(old(run)) && DifferAt(old(mem).actions, mem.actions, i) && !threw
        invariant mem.actions[i] == old(mem).actions[i].(status := mem.actions[i].status, requests := mem.actions[i].requests, hashes := mem.actions[i].hashes)
        invariant mem.idempotency == old(mem).idempotency
        invariant |old(mem).actions[i].requests| <= |mem.actions[i].requests|
        invariant |mem.actions[i].requests| > |old(mem).actions[i].requests| ==> attempted
        invariant old(mem) == old(disk) ==> mem == disk
        invariant index <= |mem.actions[i].requests| && forall k | 0 <= k < index :: mem.actions[i].requests[k].confirmed
        invariant At() == Working(i, attempted)
        invariant old(log) <= log && WentWell(old(log))
      {
        RequestsShape(env, run, i);
        var action := mem.actions[i];
        if index < |action.requests| && action.requests[index].confirmed {
          if action.requests[index].binding != rows[index] { return true, attempted; }
        } else {
          ghost var before := log;
          var tried;
          threw, tried := SendRequest(h, i, index, attempted);
          attempted := attempted || tried;
          AllRightJoins(env.policy, old(log), before, log);
          if threw { return; }
        }
      }
      RequestsShape(env, run, i);
    }

    /** What is asked to prepare the revocation of an approval. */
    ghost function PreparingRevocation(h: Handoff, operation: Operation, binding: Payload): (script: seq<Event>)
      ensures |script| == 3
    {
      [AskedClock(h.expires, 0),
       AskedRevocation(operation, binding, h.expires, env.policy.recoveryGas, env.policy.maximumFee, PrepareFailed),
       AskedClock(h.expires, 0)]
    }

    /** What is asked to send it and to have it confirmed: the hash is the one of the submission, the allowance must
        be gone, and the cost is within what was prepared. */
    ghost function Revoking(h: Handoff, operation: Operation, binding: Payload, hash: Hash, most: int): (script: seq<Event>)
      ensures |script| == 3
    {
      [AskedSubmission(operation, binding, h.expires, CallFailed), AskedRecovery(operation, binding, h.expires, hash, most, CallFailed), AskedWrite(true)]
    }

    /** The hash that the adapter returned. */
    function HashIn(e: Event): Hash {
      if e.AskedSubmission? && e.reply.SubmitOk? then e.reply.hash else ""
    }

    /** Lines 156-159: prepare the revocation and check what the adapter reports against the caps. */
    method PrepareRevocation(h: Handoff, i: nat, operation: Operation, binding: Payload) returns (ok: bool, gas: nat, fee: nat, now: int)
      requires Valid() && At().Failing? && At().i == i && MayPrepareRevocation(env, mem, i, operation, binding)
      modifies this`run, this`log
      ensures Valid() && Continues(old(run))
      ensures At() == PreparedRevocation(i) || (!ok && At() == old(At()))
      ensures ok ==> WindowOpen(env.policy, h.expires, now) && gas <= env.policy.recoveryGas && fee <= env.policy.maximumFee
      ensures old(log) < log && (ok <==> WentWell(old(log))) && Asked(old(log), PreparingRevocation(h, operation, binding))
      ensures ok ==> |log| == |old(log)| + 3 && log[|old(log)| + 1].AskedRevocation? && log[|old(log)| + 1].preparation.PrepareOk?
                     && log[|old(log)| + 1].preparation.gas == gas && log[|old(log)| + 1].preparation.fee == fee
      ensures |log| <= |old(log)| + 3
    {
      hide IsRun, Next, WindowOpen, MayPrepareRevocation, Follows, AllRight, Right, Question;
      ok, gas, fee := false, 0, 0;
      ghost var script := PreparingRevocation(h, operation, binding);
      assert script[..1] == [AskedClock(h.expires, 0)] && script[1..2] == [script[1]] && script[2..] == [AskedClock(h.expires, 0)];
      assert script[..1] + script[1..2] == script[..2] && script[..1] + script[1..] == script && script[..2] + script[2..] == script;
      var open;
      open, now := AssertExecutionWindow(h);
      if !open {
        FollowsShort(env.policy, old(log), log, script[..1], script[1..]);
        return;
      }
      ghost var clocked := log;
      var answered;
      answered, gas, fee := AskRevocation(h, i, operation, binding);
      FollowsOn(env.policy, old(log), clocked, log, script[..1], script[1..2]);
      if !answered {
        FollowsShort(env.policy, old(log), log, script[..2], script[2..]);
        return;
      }
      ghost var prepared := log;
      open, now := AssertExecutionWindow(h);
      FollowsOn(env.policy, old(log), prepared, log, script[..2], script[2..]);
      ok := open;
    }

    method AskRevocation(h: Handoff, i: nat, operation: Operation, binding: Payload) returns (ok: bool, gas: nat, fee: nat)
      requires Valid() && At().Failing? && At().i == i && MayPrepareRevocation(env, mem, i, operation, binding)
      modifies this`run, this`log
      ensures Valid() && Continues(old(run)) && At() == PreparedRevocation(i)
      ensures |log| == |old(log)| + 1 && old(log) <= log && (ok <==> WentWell(old(log)))
      ensures Asked(old(log), [PreparingRevocation(h, operation, binding)[1]])
      ensures ok ==> gas <= env.policy.recoveryGas && fee <= env.policy.maximumFee
      ensures ok ==> log[|old(log)|].AskedRevocation? && log[|old(log)|].preparation.PrepareOk?
                     && log[|old(log)|].preparation.gas == gas && log[|old(log)|].preparation.fee == fee
    {
      hide IsRun, Next, WindowOpen, MayPrepareRevocation;
      ok, gas, fee := false, 0, 0;
      var p := PrepareCall(operation, binding, PreparedRevocation(i));
      Note(AskedRevocation(operation, binding, h.expires, env.policy.recoveryGas, env.policy.maximumFee, p));
      if p.PrepareFailed? || p.operation != operation || p.binding != binding || p.window != h.expires || !p.simulated { return; }
      if p.gas > env.policy.recoveryGas || p.fee > env.policy.maximumFee { return; }
      ok, gas, fee := true, p.gas, p.fee;
    }

    ghost function HashAt(k: nat): Hash
      reads this`log
    {
      if k < |log| then HashIn(log[k]) else ""
    }

    /** The most that a prepared revocation can cost. */
    ghost function CostAt(k: nat): nat
      reads this`log
    {
      if k < |log| && log[k].AskedRevocation? && log[k].preparation.PrepareOk? then log[k].preparation.gas * log[k].preparation.fee else 0
    }

    /** A revocation was asked for in full, up to the first wrong answer, and the recovery recorded when none of the
        answers before it was wrong; without room for its transaction nothing happened. */
    ghost predicate Revocation(h: Handoff, i: nat, before: State, since: seq<Event>)
      requires i < |before.actions| && before.actions[i].requests != [] && env.content(h.id).approval.Some?
      reads this`mem, this`log
    {
      if before.totals.transactions + 1 > env.policy.maximumTransactions then log == since && mem == before
      else
        var n, a, binding := |since|, before.actions[i], env.content(h.id).approval.value;
        var operation := Revoke(a.id, a.attempt);
        && since < log
        && Asked(since, PreparingRevocation(h, operation, binding) + Revoking(h, operation, binding, HashAt(n + 3), CostAt(n + 1)))
        && mem == if |log| == n + 6 && log[n + 4].AskedRecovery? && log[n + 4].reply.ConfirmOk?
                  then WithRecovery(before, i, HashAt(n + 3), log[n + 4].reply.fee) else before
    }

    /** Lines 153-162: end an attempt whose approval is confirmed by revoking it. */
    method RevokeApproval(h: Handoff, i: nat) returns (saved: bool)
      requires Valid() && At().Failing? && At().i == i && i < |mem.actions| && mem.actions[i].id == h.id && mem.actions[i].family == Evm
      requires env.content(h.id).approval.Some? && |mem.actions[i].requests| == 1 && mem.actions[i].requests[0].confirmed
      modifies this
      ensures Valid() && Continues(old(run)) && DifferAt(old(mem).actions, mem.actions, i)
      ensures mem.idempotency == old(mem).idempotency
      ensures mem.actions[i].id == h.id && mem.actions[i].reserve == old(mem).actions[i].reserve
      ensures mem == old(mem) || (Recovered(env, old(mem), i, mem) && (saved ==> disk == mem))
      ensures Revocation(h, i, old(mem), old(log))
    {
      hide IsRun, Next, Moves, MemoryStep, Recovered, WindowOpen, AnyReleasable, Follows, AllRight, Right, Question, PreparingRevocation, Revoking,
           WithRecovery;
      saved := true;
      var operation, binding := Revoke(h.id, mem.actions[i].attempt), env.content(h.id).approval.value;
      if mem.totals.transactions + 1 > env.policy.maximumTransactions { return; }
      ghost var n, preparing := |log|, PreparingRevocation(h, operation, binding);
      var ready, gas, fee, now := PrepareRevocation(h, i, operation, binding);
      if !ready {
        FollowsShort(env.policy, old(log), log, preparing, Revoking(h, operation, binding, "", CostAt(n + 1)));
        return;
      }
      ghost var prepared := log;
      saved := SendRevocation(h, i, gas, fee, now);
      assert log[n + 1] == prepared[n + 1] && |prepared| == n + 3;
      FollowsOn(env.policy, old(log), prepared, log, preparing, Revoking(h, operation, binding, HashAt(n + 3), gas * fee));
    }

    /** Lines 160-162: send the prepared revocation, confirm it, and record the recovery. */
    method SendRevocation(h: Handoff, i: nat, gas: nat, fee: nat, now: int) returns (saved: bool)
      requires Valid() && At() == PreparedRevocation(i) && MayRevoke(env, mem, i) && mem.actions[i].id == h.id
      requires WindowOpen(env.policy, h.expires, now) && gas <= env.policy.recoveryGas && fee <= env.policy.maximumFee
      modifies this
      ensures Valid() && Continues(old(run)) && DifferAt(old(mem).actions, mem.actions, i)
      ensures mem.idempotency == old(mem).idempotency
      ensures mem.actions[i].id == h.id && mem.actions[i].reserve == old(mem).actions[i].reserve
      ensures mem == old(mem) || (Recovered(env, old(mem), i, mem) && (saved ==> disk == mem))
      ensures old(log) < log && (saved && mem != old(mem) <==> WentWell(old(log)))
      ensures var n := |old(log)|; var hash := HashIn(log[n]);
              var operation, binding := old(Revoke(mem.actions[i].id, mem.actions[i].attempt)), env.content(h.id).approval.value;
              && Asked(old(log), Revoking(h, operation, binding, hash, gas * fee))
              && mem == if |log| == n + 3 && log[n + 1].AskedRecovery? && log[n + 1].reply.ConfirmOk?
                        then WithRecovery(old(mem), i, hash, log[n + 1].reply.fee) else old(mem)
    {
      hide IsRun, Next, Moves, MemoryStep, Recovered, WindowOpen, AnyReleasable, Follows, AllRight, Right, Question;
      saved := true;
      var operation, binding := Revoke(h.id, mem.actions[i].attempt), env.content(h.id).approval.value;
      var sent, hash := SubmitRevocation(h, i, now, operation, binding);
      ghost var script := Revoking(h, operation, binding, HashIn(log[|old(log)|]), gas * fee);
      assert script[..1] == [AskedSubmission(operation, binding, h.expires, CallFailed)] && script[2..] == [AskedWrite(true)];
      assert script[1..2] == [AskedRecovery(operation, binding, h.expires, HashIn(log[|old(log)|]), gas * fee, CallFailed)];
      assert script[..1] + script[1..2] == script[..2] && script[..1] + script[1..] == script && script[..2] + script[2..] == script;
      if !sent {
        FollowsShort(env.policy, old(log), log, script[..1], script[1..]);
        return;
      }
      ghost var submitted := log;
      var confirmed, cost := ConfirmRecovery(h, i, operation, binding, hash, gas * fee);
      FollowsOn(env.policy, old(log), submitted, log, script[..1], script[1..2]);
      if !confirmed {
        FollowsShort(env.policy, old(log), log, script[..2], script[2..]);
        return;
      }
      ghost var answered := log;
      GasWithinCap(gas, fee, env.policy.recoveryGas, env.policy.maximumFee);
      RecordRecovery(i, hash, cost);
      saved := SaveState();
      FollowsOn(env.policy, old(log), answered, log, script[..2], script[2..]);
    }

    method SubmitRevocation(h: Handoff, i: nat, now: int, operation: Operation, binding: Payload) returns (ok: bool, hash: Hash)
      requires Valid() && At() == PreparedRevocation(i) && MayRevoke(env, mem, i) && WindowOpen(env.policy, h.expires, now)
      modifies this`run, this`log
      ensures Valid() && Continues(old(run)) && At() == SentRevocation(i)
      ensures |log| == |old(log)| + 1 && old(log) <= log && Asked(old(log), [AskedSubmission(operation, binding, h.expires, CallFailed)])
      ensures (ok <==> WentWell(old(log))) && (ok ==> hash == HashIn(log[|old(log)|]))
    {
      hide IsRun, Next, Moves, MayRevoke, WindowOpen;
      ok, hash := false, "";
      var r := RevokeCall(i, h.expires, now);
      Note(AskedSubmission(operation, binding, h.expires, r));
      if !r.SubmitOk? || r.operation != operation || r.binding != binding || r.window != h.expires { return; }
      ok, hash := true, r.hash;
    }

    method ConfirmRecovery(h: Handoff, i: nat, operation: Operation, binding: Payload, hash: Hash, most: nat) returns (ok: bool, cost: nat)
      requires Valid() && At() == SentRevocation(i) && i < |mem.actions|
      modifies this`run, this`log
      ensures Valid() && Continues(old(run)) && At() == ConfirmingRevocation(i)
      ensures |log| == |old(log)| + 1 && old(log) <= log && Asked(old(log), [AskedRecovery(operation, binding, h.expires, hash, most, CallFailed)])
      ensures ok <==> WentWell(old(log))
      ensures ok ==> cost <= most && log[|old(log)|].AskedRecovery? && log[|old(log)|].reply.ConfirmOk? && log[|old(log)|].reply.fee == cost
    {
      hide IsRun, Next, Moves;
      ok, cost := false, 0;
      var c := ConfirmRevocationCall(i);
      Note(AskedRecovery(operation, binding, h.expires, hash, most, c));
      if !c.ConfirmOk? || c.operation != operation || c.binding != binding || c.window != h.expires || c.hash != hash { return; }
      if c.allowance != Some(0) { return; }
      if c.fee > most { return; }
      ok, cost := true, c.fee;
    }

    /** The first half of the catch block: nothing was recorded, so the reserve is released or the outcome unknown. */
    method NoteFailure(i: nat, attempted: bool) returns (saved: bool)
      requires Valid() && At() == Failing(i, attempted) && i < |mem.actions| && mem.actions[i].reserve.Some? && mem.actions[i].requests == []
      modifies this
      ensures Valid() && Continues(old(run))
      ensures old(mem).totals.maximum >= old(mem).actions[i].reserve.value && mem == AfterFailure(old(mem), i, attempted)
      ensures old(log) <= log && Asked(old(log), [AskedWrite(true)]) && (saved <==> WentWell(old(log)))
      ensures mem.actions[i] == if attempted then old(mem).actions[i].(status := OutcomeUnknown)
                                else old(mem).actions[i].(status := ReservationReleased, reserve := None)
      ensures disk == if saved then mem else old(disk)
    {
      ReserveInLedger(env, run, i);
      hide IsRun, Next, MayRevoke;
      if attempted {
        UnknownTaken(env, Last(run), i);
        Update(MarkUnknown(i), WithStatus(mem, i, OutcomeUnknown), Noted(i));
      } else {
        ReleaseUnspentTaken(env, Last(run), i);
        Update(ReleaseUnspent(i), WithoutReserve(mem, i), Noted(i));
      }
      saved := SaveState();
    }

    /** The catch block. The reserve is released exactly when this call attempted no submission and nothing
        is recorded; it is kept when the outcome of a submission is unknown. */
    method HandleFailure(h: Handoff, i: nat, attempted: bool) returns (saved: bool)
      requires Valid() && At() == Failing(i, attempted) && i < |mem.actions| && mem.actions[i].id == h.id && mem.actions[i].family == Evm
      requires mem.actions[i].reserve.Some?
      modifies this
      ensures Valid() && Continues(old(run))
      ensures old(mem).totals.maximum >= old(mem).actions[i].reserve.value
      ensures var failed := AfterFailure(old(mem), i, attempted);
              || mem == failed
              || (Recovered(env, failed, i, mem) && env.content(h.id).approval.Some? && failed == old(mem))
      ensures saved ==> mem == old(mem) || disk == mem
      ensures old(log) <= log
      ensures var a := old(mem).actions[i];
              if a.requests == [] then mem == AfterFailure(old(mem), i, attempted) && Asked(old(log), [AskedWrite(true)])
              else if |a.requests| == 1 && a.requests[0].confirmed && env.content(h.id).approval.Some? then Revocation(h, i, old(mem), old(log))
              else mem == old(mem) && log == old(log)
      ensures i < |mem.actions| && (mem.actions[i].reserve.None? <==> !attempted && old(mem).actions[i].requests == [])
    {
      ReserveInLedger(env, run, i);
      hide IsRun, Next, MayRevoke, Follows, AllRight, Right, PreparingRevocation, Revoking, HashAt, CostAt;
      var action := mem.actions[i];
      var approvalDone := action.requests != [] && action.requests[0].confirmed;
      var downstreamSubmitted, anySubmitted := |action.requests| > 1, action.requests != [];
      saved := true;
      if !anySubmitted {
        saved := NoteFailure(i, attempted);
      } else if env.content(h.id).approval.Some? && approvalDone && !downstreamSubmitted {
        saved := RevokeApproval(h, i);
      }
    }

    /** The worst case of the action fits the policy, alone and with what is reserved already, and the action is the
        recorded one if its id is known. */
    ghost predicate Reservable(h: Handoff, m: State) {
      && Sized(env, h.id) && ReserveOf(env, h.id) <= env.policy.maximumSpend
      && forall a | a in WithAction(m, h).actions && a.id == h.id ::
           && a.step == h.step && a.family == h.family
           && (a.reserve.Some? || m.totals.maximum + ReserveOf(env, h.id) <= env.policy.maximumSpend)
    }

    /** Lines 126-130: reserve the worst case of the whole action before anything is prepared. */
    method ReserveAction(h: Handoff) returns (ok: bool, i: nat)
      requires Valid() && h.family == Evm && At() == Entered(h.id, h.step, h.family)
      modifies this
      ensures Valid() && Continues(old(run))
      ensures At() == if ok then Working(i, false) else old(At())
      ensures ok ==> Sized(env, h.id) && disk == mem && i < |mem.actions|
      ensures ok ==> mem.actions[i].id == h.id && mem.actions[i].step == h.step && mem.actions[i].family == Evm && mem.actions[i].reserve.Some?
      ensures var found := WithAction(old(mem), h);
              || mem == old(mem) || mem == found
              || (i < |found.actions| && found.actions[i].reserve.None? && Sized(env, h.id) && mem == WithReserve(found, i, ReserveOf(env, h.id)))
      ensures old(log) <= log && (ok <==> Reservable(h, old(mem)) && WentWell(old(log)))
      ensures if Reservable(h, old(mem)) then Asked(old(log), [AskedWrite(true)]) else log == old(log)
      ensures Reservable(h, old(mem)) ==>
                var found := WithAction(old(mem), h);
                && i < |found.actions| && found.actions[i].id == h.id
                && mem == if found.actions[i].reserve.Some? then found else WithReserve(found, i, ReserveOf(env, h.id))
    {
      hide IsRun, Next, Moves, MemoryStep, Follows, AllRight, Right;
      ok, i := false, 0;
      var rows := env.content(h.id).rows;
      if |rows| == 0 || |rows| > |env.policy.gasCaps| { return; }
      var reserve := env.policy.recoveryGas * env.policy.maximumFee;
      for k := 0 to |rows|
        invariant reserve == Cost(env, h.id, k) && Valid() && run == old(run) && log == old(log)
      {
        reserve := reserve + PayloadValue(rows[k]) + env.policy.gasCaps[k] * env.policy.maximumFee;
      }
      if reserve > env.policy.maximumSpend { return; }
      var found;
      found, i := ActionState(h);
      ReservableAt(h, old(mem), i);
      if !found { return; }
      ok := HoldReserve(h, i, reserve);
    }

    lemma ReservableAt(h: Handoff, m: State, i: nat)
      requires Valid() && mem == WithAction(m, h) && i < |mem.actions| && mem.actions[i].id == h.id
      ensures Reservable(h, m) <==>
                && Sized(env, h.id) && ReserveOf(env, h.id) <= env.policy.maximumSpend
                && mem.actions[i].step == h.step && mem.actions[i].family == h.family
                && (mem.actions[i].reserve.Some? || m.totals.maximum + ReserveOf(env, h.id) <= env.policy.maximumSpend)
    {
      RunOk(env, run, |run.states| - 1);
      hide IsRun, StateOk, Ahead, KeysOk, SendsAgree;
      forall x | 0 <= x < |mem.actions| && mem.actions[x].id == h.id ensures x == i {
        SameIndex(env, mem, x, i);
      }
    }

    /** Line 130: charge the reserve unless the action has one already, save, and enter the try block. */
    method HoldReserve(h: Handoff, i: nat, reserve: nat) returns (ok: bool)
      requires Valid() && h.family == Evm && At() == Entered(h.id, h.step, h.family) && IsAction(mem, i, h.id, h.step, h.family)
      requires Sized(env, h.id) && reserve == ReserveOf(env, h.id)
      modifies this
      ensures Valid() && Continues(old(run)) && At() == if ok then Working(i, false) else old(At())
      ensures ok ==> disk == mem && i < |mem.actions| && mem.actions[i].reserve.Some? && IsAction(mem, i, h.id, h.step, h.family)
      ensures var held := old(mem).actions[i].reserve.Some?; var room := old(mem).totals.maximum + reserve <= env.policy.maximumSpend;
              && mem == (if held || !room then old(mem) else WithReserve(old(mem), i, reserve))
              && old(log) <= log && (ok <==> (held || room) && WentWell(old(log)))
              && (if held || room then Asked(old(log), [AskedWrite(true)]) else log == old(log))
    {
      hide IsRun, Next, Moves, MemoryStep, Follows, AllRight, Right;
      ok := false;
      if mem.actions[i].reserve.None? {
        var aggregate := mem.totals.maximum + reserve;
        if aggregate > env.policy.maximumSpend { return; }
        Charge(i, reserve);
      }
      ok := SaveState();
      if ok { EnterAction(h, i); }
    }

    method Charge(i: nat, reserve: nat)
      requires Valid() && At().Entered? && IsAction(mem, i, At().id, At().step, At().family) && mem.actions[i].family == Evm
      requires mem.actions[i].reserve.None? && Sized(env, mem.actions[i].id) && reserve == ReserveOf(env, mem.actions[i].id)
      requires mem.totals.maximum + reserve <= env.policy.maximumSpend
      modifies this`mem, this`run
      ensures Valid() && Continues(old(run)) && mem == WithReserve(old(mem), i, reserve) && At() == old(At())
    {
      hide IsRun, Next, Sized, ReserveOf;
      ReserveTaken(env, Last(run), i);
      Update(Reserve(i), WithReserve(mem, i, reserve), At());
    }

    /** The try block begins. */
    ghost method EnterAction(h: Handoff, i: nat)
      requires Valid() && At() == Entered(h.id, h.step, h.family) && IsAction(mem, i, h.id, h.step, h.family)
      requires h.family == Evm ==> mem == disk && mem.actions[i].reserve.Some?
      modifies this`run
      ensures Valid() && Continues(old(run)) && At() == Working(i, false)
    {
      hide Next;
      EnterTaken(env, Last(run), i);
      Took(Enter(i), Last(run).(stage := Working(i, false)));
    }

    method ExecuteEvm(h: Handoff) returns (r: Outcome)
      requires Valid() && h.family == Evm && At() == Entered(h.id, h.step, h.family)
      modifies this
      ensures Valid() && Continues(old(run))
      ensures r.Done? ==> disk == mem && Executed(h, r.hashes) && At().Idle?
      ensures old(log) <= log && (r.Done? ==> WentWell(old(log)))
      ensures r.Threw? && WentWell(old(log)) ==> !Reservable(h, old(mem)) || CapReached(mem.totals)
    {
      hide IsRun, Next, Moves, MemoryStep, AnyReleasable, Executed, Recovered, Follows, AllRight, Right, Reservable;
      r := Threw;
      var ok, i := ReserveAction(h);
      if !ok { return; }
      ghost var before := log;
      r := TryEvm(h, i);
      AllRightJoins(env.policy, old(log), before, log);
    }

    /** Lines 132-166: the try block, its catch block, and what comes after. */
    method TryEvm(h: Handoff, i: nat) returns (r: Outcome)
      requires Valid() && At() == Working(i, false) && IsAction(mem, i, h.id, h.step, h.family) && h.family == Evm
      requires mem.actions[i].reserve.Some? && Sized(env, h.id)
      modifies this
      ensures Valid() && Continues(old(run))
      ensures r.Done? ==> disk == mem && Executed(h, r.hashes) && At().Idle?
      ensures old(log) <= log && (r.Done? ==> WentWell(old(log)))
      ensures r.Threw? && WentWell(old(log)) ==> CapReached(mem.totals)
    {
      hide IsRun, Next, Moves, MemoryStep, AnyReleasable, Executed, Recovered, Follows, AllRight, Right, Revocation, AfterFailure;
      r := Threw;
      var threw, attempted := SendRequests(h, i);
      ghost var sent, m := log, mem;
      SpendIsSum();
      if threw {
        Throw(Failing(i, attempted));
        var saved := HandleFailure(h, i, attempted);
        AllRightJoins(env.policy, old(log), sent, log);
        FailureKeepsCaps(h, i, attempted, m, sent);
        return;
      }
      r := FinishEvm(h, i, attempted);
      AllRightJoins(env.policy, old(log), sent, log);
    }

    lemma SpendIsSum()
      requires Valid()
      ensures mem.totals.spend == mem.totals.fee + mem.totals.protocol
    {
      RunOk(env, run, |run.states| - 1);
      hide IsRun;
    }

    /** The catch block neither makes room for a transaction nor takes back what was spent. */
    lemma FailureKeepsCaps(h: Handoff, i: nat, attempted: bool, before: State, since: seq<Event>)
      requires i < |before.actions| && before.actions[i].reserve.Some? && before.totals.maximum >= before.actions[i].reserve.value
      requires var a := before.actions[i];
               if a.requests == [] then mem == AfterFailure(before, i, attempted)
               else if |a.requests| == 1 && a.requests[0].confirmed && env.content(h.id).approval.Some? then Revocation(h, i, before, since)
               else mem == before
      requires before.totals.spend == before.totals.fee + before.totals.protocol
      ensures CapReached(before.totals) ==> CapReached(mem.totals)
    {
      hide Follows, AllRight, Right, PreparingRevocation, Revoking, HashAt, CostAt, Question;
    }

    /** Line 166: the action is confirmed and its reserve becomes what it spent. */
    method FinishEvm(h: Handoff, i: nat, ghost flag: bool) returns (r: Outcome)
      requires Valid() && At() == Working(i, flag) && IsAction(mem, i, h.id, h.step, h.family) && h.family == Evm
      requires AllConfirmed(mem.actions[i].requests) && |mem.actions[i].requests| == |env.content(h.id).rows| > 0
      modifies this
      ensures Valid() && Continues(old(run))
      ensures r.Done? ==> disk == mem && Executed(h, r.hashes) && At().Idle?
      ensures old(log) <= log && Asked(old(log), [AskedWrite(true)]) && (r.Done? <==> WentWell(old(log)))
    {
      hide IsRun, Next, Moves, MemoryStep, AnyReleasable, Follows, AllRight, Right, Question;
      r := Threw;
      MarkFinished(i);
      ghost var finished := mem.actions;
      var failed, changed := ReleaseConfirmedEvmReserves();
      assert mem.actions[i] == AfterRelease(finished[i]);
      NothingLeft(finished);
      var saved := SaveState();
      if !saved { return; }
      RequestsShape(env, run, i);
      r := Done(mem.actions[i].hashes);
    }

    /** An action was executed: each of its requests is recorded and confirmed, its reserve is settled, and
        these are their hashes. */
    ghost predicate Executed(h: Handoff, hashes: seq<Hash>)
      reads this`mem
    {
      exists i | 0 <= i < |mem.actions| ::
        var a := mem.actions[i];
        && a.id == h.id && a.step == h.step && a.family == h.family && a.status == Confirmed && a.reserve.None?
        && AllConfirmed(a.requests) && a.hashes == hashes && |hashes| == |a.requests| > 0
        && |a.requests| == if h.family == Evm then |env.content(h.id).rows| else 1
    }

    // ----- executeSolana -----

    /** The action of the handoff is the recorded one, if its id is known. */
    ghost predicate Matches(h: Handoff, m: State) {
      forall a | a in WithAction(m, h).actions && a.id == h.id :: a.step == h.step && a.family == h.family
    }

    lemma MatchesAt(h: Handoff, m: State, i: nat)
      requires Valid() && mem == WithAction(m, h) && i < |mem.actions| && mem.actions[i].id == h.id
      ensures Matches(h, m) <==> mem.actions[i].step == h.step && mem.actions[i].family == h.family
    {
      RunOk(env, run, |run.states| - 1);
      hide IsRun, StateOk, Ahead, KeysOk, SendsAgree;
      forall x | 0 <= x < |mem.actions| && mem.actions[x].id == h.id ensures x == i {
        SameIndex(env, mem, x, i);
      }
    }

    /** No room for one more Solana transaction. */
    ghost predicate SolanaFull(t: Totals) {
      t.solanaTransactions + 1 > env.policy.solanaTransactions
    }

    method ExecuteSolana(h: Handoff) returns (r: Outcome)
      requires Valid() && h.family == Solana && At() == Entered(h.id, h.step, h.family)
      modifies this
      ensures Valid() && Continues(old(run))
      ensures r.Done? ==> disk == mem && Executed(h, r.hashes) && At().Idle?
      ensures old(log) <= log && (r.Done? ==> WentWell(old(log)))
      ensures r.Threw? && WentWell(old(log)) ==> env.content(h.id).rows == [] || !Matches(h, old(mem)) || SolanaFull(mem.totals)
    {
      hide IsRun, Next, Moves, MemoryStep, Executed, AnyReleasable, Follows, AllRight, Right, Matches;
      r := Threw;
      if env.content(h.id).rows == [] { return; }
      var ok, i := ActionState(h);
      MatchesAt(h, old(mem), i);
      if !ok { return; }
      EnterAction(h, i);
      r := SendTransaction(h, i);
    }

    /** Lines 172-182: submit the transaction unless it is recorded, confirm it unless it is confirmed. */
    method SendTransaction(h: Handoff, i: nat) returns (r: Outcome)
      requires Valid() && At() == Working(i, false) && IsAction(mem, i, h.id, h.step, h.family) && h.family == Solana
      requires env.content(h.id).rows != []
      modifies this
      ensures Valid() && Continues(old(run))
      ensures r.Done? ==> disk == mem && Executed(h, r.hashes) && At().Idle?
      ensures old(log) <= log && (r.Done? ==> WentWell(old(log)))
      ensures r.Threw? && WentWell(old(log)) ==> SolanaFull(mem.totals)
    {
      hide IsRun, Next, Moves, MemoryStep, Executed, Recorded, NowConfirmed, AnyReleasable, AfterSave, AfterFail, Follows, AllRight, Right;
      r := Threw;
      RequestsShape(env, run, i);
      AllRightNow(env.policy, log);
      if mem.actions[i].requests == [] {
        var ok := SubmitSolana(h, i);
        if !ok { return; }
      }
      ghost var before := log;
      RequestsShape(env, run, i);
      if !mem.actions[i].requests[0].confirmed {
        var ok := ConfirmSolana(h, i);
        AllRightJoins(env.policy, old(log), before, log);
        if !ok { return; }
      }
      before := log;
      r := FinishSolana(h, i);
      AllRightJoins(env.policy, old(log), before, log);
    }

    method FinishSolana(h: Handoff, i: nat) returns (r: Outcome)
      requires Valid() && At().Working? && At().i == i && i < |mem.actions|
      requires mem.actions[i].id == h.id && mem.actions[i].step == h.step && mem.actions[i].family == h.family == Solana
      requires |mem.actions[i].requests| == 1 && mem.actions[i].requests[0].confirmed
      modifies this
      ensures Valid() && Continues(old(run))
      ensures r.Done? ==> disk == mem && Executed(h, r.hashes) && At().Idle?
      ensures old(log) <= log && Asked(old(log), [AskedWrite(true)]) && (r.Done? <==> WentWell(old(log)))
    {
      hide IsRun, Next, Moves, MemoryStep, Follows, AllRight, Right;
      r := Threw;
      MarkFinished(i);
      var ok := SaveState();
      if !ok { return; }
      RequestsShape(env, run, i);
      r := Done(mem.actions[i].hashes);
    }

    /** What is asked to prepare the transaction: its maximum must fit what the policy leaves for Solana. */
    ghost function PreparingSolana(h: Handoff, i: nat): (script: seq<Event>)
      requires i < |mem.actions| && env.content(h.id).rows != []
      reads this`mem
      ensures |script| == 3
    {
      [AskedClock(h.expires, 0),
       AskedSolana(NextOperation(mem.actions[i]), env.content(h.id).rows[0], h.expires, env.policy.solanaCap - mem.totals.solanaFee, PrepareFailed),
       AskedClock(h.expires, 0)]
    }

    method SubmitSolana(h: Handoff, i: nat) returns (ok: bool)
      requires Valid() && At() == Working(i, false) && i < |mem.actions| && mem.actions[i].id == h.id && mem.actions[i].family == Solana
      requires mem.actions[i].requests == [] && env.content(h.id).rows != []
      modifies this
      ensures Valid() && Continues(old(run)) && DifferAt(old(mem).actions, mem.actions, i)
      ensures mem.actions[i].id == h.id && mem.actions[i].step == old(mem).actions[i].step && mem.actions[i].family == Solana
      ensures ok ==> mem.actions[i].requests != [] && disk == mem
      ensures mem == old(mem) || Recorded(env, old(mem), i, mem)
      ensures ok ==> At() == Working(i, true)
      ensures old(log) <= log && (ok <==> WentWell(old(log)) && !SolanaFull(old(mem).totals))
      ensures Asked(old(log), if SolanaFull(old(mem).totals) then old(PreparingSolana(h, i))[..2] else old(PreparingSolana(h, i)) + old(Sending(h, i)))
      ensures mem == if |log| > |old(log)| + 4 && Right(env.policy, log[|old(log)| + 4])
                     then WithSubmission(old(mem), i, RecordOf(h, MaximumAt(|old(log)| + 1), 0, log[|old(log)| + 4])) else old(mem)
    {
      hide IsRun, Next, Moves, MemoryStep, Recorded, Sized, MayRevoke, AnyReleasable, Follows, AllRight, Right, Question, PreparingSolana, Sending,
           WithSubmission;
      ghost var preparing, sending := PreparingSolana(h, i), Sending(h, i);
      var maximum, now;
      ok, maximum, now := PrepareSolana(h, i);
      if !ok {
        if !SolanaFull(mem.totals) {
          FollowsShort(env.policy, old(log), log, preparing, sending);
        }
        return;
      }
      ghost var prepared := log;
      ok := SendSolana(h, i, maximum, now);
      FollowsOn(env.policy, old(log), prepared, log, preparing, sending);
      assert log[|old(log)| + 1] == prepared[|old(log)| + 1];
    }

    /** What a prepared transaction may cost at most. */
    ghost function MaximumAt(k: nat): nat
      reads this`log
    {
      if k < |log| && log[k].AskedSolana? && log[k].preparation.PrepareOk? then log[k].preparation.maximum else 0
    }

    /** Lines 173-176: prepare the transaction and check what the adapter reports against the caps. */
    method PrepareSolana(h: Handoff, i: nat) returns (ok: bool, maximum: nat, now: int)
      requires Valid() && At() == Working(i, false) && i < |mem.actions| && mem.actions[i].id == h.id && mem.actions[i].family == Solana
      requires mem.actions[i].requests == [] && env.content(h.id).rows != []
      modifies this`run, this`log
      ensures Valid() && Continues(old(run)) && (ok ==> At() == PreparedRow(i, false))
      ensures ok ==> WindowOpen(env.policy, h.expires, now) && MaySubmit(env, mem, i)
      ensures old(log) <= log && (ok <==> WentWell(old(log)) && !SolanaFull(mem.totals))
      ensures Asked(old(log), if SolanaFull(mem.totals) then PreparingSolana(h, i)[..2] else PreparingSolana(h, i))
      ensures ok ==> |log| == |old(log)| + 3 && maximum == MaximumAt(|old(log)| + 1)
      ensures |log| <= |old(log)| + 3
    {
      hide IsRun, Next, Moves, MemoryStep, Sized, MayRevoke, AnyReleasable, Follows, AllRight, Right, Question;
      ok, maximum := false, 0;
      ghost var script := PreparingSolana(h, i);
      assert script[..1] == [AskedClock(h.expires, 0)] && script[1..2] == [script[1]] && script[2..] == [AskedClock(h.expires, 0)];
      assert script[..1] + script[1..2] == script[..2] && script[..1] + script[1..] == script && script[..2] + script[2..] == script;
      var open;
      open, now := AssertExecutionWindow(h);
      if !open {
        FollowsShort(env.policy, old(log), log, script[..1], script[1..]);
        FollowsShort(env.policy, old(log), log, script[..1], script[1..2]);
        return;
      }
      ghost var clocked := log;
      ok, maximum := AskSolana(h, i);
      FollowsOn(env.policy, old(log), clocked, log, script[..1], script[1..2]);
      if !ok {
        FollowsShort(env.policy, old(log), log, script[..2], script[2..]);
        return;
      }
      if mem.totals.solanaTransactions + 1 > env.policy.solanaTransactions { return false, maximum, now; }
      ghost var prepared := log;
      open, now := AssertExecutionWindow(h);
      FollowsOn(env.policy, old(log), prepared, log, script[..2], script[2..]);
      ok := open;
    }

    method AskSolana(h: Handoff, i: nat) returns (ok: bool, maximum: nat)
      requires Valid() && At() == Working(i, false) && i < |mem.actions| && mem.actions[i].id == h.id && mem.actions[i].family == Solana
      requires mem.actions[i].requests == [] && env.content(h.id).rows != []
      modifies this`run, this`log
      ensures Valid() && Continues(old(run)) && At() == PreparedRow(i, false)
      ensures |log| == |old(log)| + 1 && old(log) <= log && (ok <==> WentWell(old(log))) && Asked(old(log), [PreparingSolana(h, i)[1]])
      ensures ok ==> maximum == MaximumAt(|old(log)|)
    {
      hide IsRun, Next, Moves, MemoryStep, Sized;
      ok, maximum := false, 0;
      var construction, operation := env.content(h.id).rows[0], NextOperation(mem.actions[i]);
      var p := PrepareRequestCall(i, false);
      Note(AskedSolana(operation, construction, h.expires, env.policy.solanaCap - mem.totals.solanaFee, p));
      if p.PrepareFailed? || p.operation != operation || p.binding != construction || p.window != h.expires || !p.simulated { return; }
      if mem.totals.solanaFee + p.maximum > env.policy.solanaCap { return; }
      ok, maximum := true, p.maximum;
    }

    /** Lines 177-179: save, submit, record the hash. */
    method SendSolana(h: Handoff, i: nat, maximum: nat, now: int) returns (ok: bool)
      requires Valid() && At() == PreparedRow(i, false) && MaySubmit(env, mem, i) && WindowOpen(env.policy, h.expires, now)
      requires mem.actions[i].id == h.id && mem.actions[i].family == Solana
      modifies this
      ensures Valid() && Continues(old(run)) && DifferAt(old(mem).actions, mem.actions, i)
      ensures mem.actions[i].id == h.id && mem.actions[i].step == old(mem).actions[i].step && mem.actions[i].family == Solana
      ensures ok ==> mem.actions[i].requests != [] && disk == mem
      ensures mem == old(mem) || Recorded(env, old(mem), i, mem)
      ensures ok ==> At() == Working(i, true)
      ensures old(log) < log && Asked(old(log), old(Sending(h, i))) && (ok <==> WentWell(old(log)))
      ensures mem == if |log| > |old(log)| + 1 && Right(env.policy, log[|old(log)| + 1])
                     then WithSubmission(old(mem), i, RecordOf(h, maximum, 0, log[|old(log)| + 1])) else old(mem)
    {
      hide IsRun, Next, Moves, MemoryStep, Recorded, MayRevoke, AnyReleasable, Follows, AllRight, Right, Question, WindowOpen, WithSubmission;
      ghost var sending := Sending(h, i);
      assert sending[..1] == [AskedWrite(true)] && sending[..1] + sending[1..] == sending;
      ok := SaveState();
      if !ok {
        FollowsShort(env.policy, old(log), log, sending[..1], sending[1..]);
        return;
      }
      ghost var saved := log;
      ok := SubmitPrepared(h, i, maximum, now);
      FollowsOn(env.policy, old(log), saved, log, sending[..1], sending[1..]);
    }

    /** Lines 178-179: the prepared transaction is submitted and its hash recorded. */
    method SubmitPrepared(h: Handoff, i: nat, maximum: nat, now: int) returns (ok: bool)
      requires Valid() && At() == PreparedRow(i, false) && mem == disk && MaySubmit(env, mem, i) && WindowOpen(env.policy, h.expires, now)
      requires mem.actions[i].id == h.id && mem.actions[i].family == Solana
      modifies this
      ensures Valid() && Continues(old(run)) && DifferAt(old(mem).actions, mem.actions, i)
      ensures mem.actions[i].id == h.id && mem.actions[i].step == old(mem).actions[i].step && mem.actions[i].family == Solana
      ensures ok ==> mem.actions[i].requests != [] && disk == mem
      ensures mem == old(mem) || Recorded(env, old(mem), i, mem)
      ensures ok ==> At() == Working(i, true)
      ensures old(log) < log && (ok <==> WentWell(old(log)))
      ensures Asked(old(log), [AskedSubmission(old(NextOperation(mem.actions[i])), Row(h, old(|mem.actions[i].requests|)), h.expires, CallFailed), AskedWrite(true)])
      ensures var answer := log[|old(log)|];
              if Right(env.policy, answer) then answer.AskedSubmission? && mem == WithSubmission(old(mem), i, RecordOf(h, maximum, 0, answer)) else mem == old(mem)
    {
      hide IsRun, Next, Moves, MemoryStep, Recorded, MayRevoke, AnyReleasable, Follows, AllRight, Question, Right, WindowOpen;
      var construction, operation := env.content(h.id).rows[0], NextOperation(mem.actions[i]);
      ghost var ask: Event := AskedSubmission(operation, construction, h.expires, CallFailed);
      assert [ask] + [AskedWrite(true)] == [ask, AskedWrite(true)];
      var hash;
      ok, hash := AskSubmission(h, i, now, operation, construction);
      if !ok {
        FollowsShort(env.policy, old(log), log, [ask], [AskedWrite(true)]);
        return;
      }
      ghost var submitted := log;
      RecordHash(i, Item(operation, construction, h.expires, hash, false, maximum, 0, 0));
      ok := SaveState();
      FollowsOn(env.policy, old(log), submitted, log, [ask], [AskedWrite(true)]);
    }

    method ConfirmSolana(h: Handoff, i: nat) returns (ok: bool)
      requires Valid() && At().Working? && At().i == i && i < |mem.actions| && mem.actions[i].id == h.id && mem.actions[i].family == Solana
      requires |mem.actions[i].requests| == 1 && !mem.actions[i].requests[0].confirmed
      modifies this
      ensures Valid() && Continues(old(run)) && DifferAt(old(mem).actions, mem.actions, i)
      ensures mem.actions[i].id == h.id && mem.actions[i].step == old(mem).actions[i].step && mem.actions[i].family == Solana
      ensures ok ==> |mem.actions[i].requests| == 1 && mem.actions[i].requests[0].confirmed && disk == mem
      ensures mem == old(mem) || NowConfirmed(env, old(mem), i, mem)
      ensures ok ==> At() == old(At())
      ensures old(log) < log && (ok <==> WentWell(old(log))) && Asked(old(log), [old(ConfirmingSolana(i)), AskedWrite(true)])
      ensures mem == if Right(env.policy, log[|old(log)|]) then WithConfirmation(old(mem), i, log[|old(log)|].reply.fee) else old(mem)
    {
      hide IsRun, Next, Moves, MemoryStep, NowConfirmed, MayRevoke, AnyReleasable, Follows, AllRight, Right, Question;
      ghost var ask, flag := ConfirmingSolana(i), At().attempted;
      assert [ask] + [AskedWrite(true)] == [ask, AskedWrite(true)];
      var fee;
      ok, fee := AskSolanaConfirmation(i, flag);
      if !ok {
        FollowsShort(env.policy, old(log), log, [ask], [AskedWrite(true)]);
        return;
      }
      ghost var asked := log;
      SolanaProtocolFree(env, run, i);
      RecordConfirmation(i, fee, flag);
      ok := SaveState();
      FollowsOn(env.policy, old(log), asked, log, [ask], [AskedWrite(true)]);
    }

    /** What is asked to confirm the transaction: its fee must be within its maximum and what the policy leaves. */
    ghost function ConfirmingSolana(i: nat): Event
      requires i < |mem.actions| && |mem.actions[i].requests| == 1
      reads this`mem
    {
      var item, room := mem.actions[i].requests[0], env.policy.solanaCap - mem.totals.solanaFee;
      AskedConfirmation(item.operation, item.binding, item.window, item.hash, if item.maximum <= room then item.maximum else room, CallFailed)
    }

    method AskSolanaConfirmation(i: nat, ghost flag: bool) returns (ok: bool, fee: nat)
      requires Valid() && At() == Working(i, flag) && i < |mem.actions| && mem.actions[i].family == Solana
      requires |mem.actions[i].requests| == 1 && !mem.actions[i].requests[0].confirmed
      modifies this`run, this`log
      ensures Valid() && Continues(old(run)) && At() == ConfirmingRow(i, flag)
      ensures |log| == |old(log)| + 1 && old(log) <= log && Asked(old(log), [ConfirmingSolana(i)])
      ensures (ok <==> Right(env.policy, log[|old(log)|])) && (ok <==> WentWell(old(log)))
      ensures ok ==> log[|old(log)|].AskedConfirmation? && log[|old(log)|].reply.ConfirmOk? && fee == log[|old(log)|].reply.fee
      ensures ok ==> fee <= mem.actions[i].requests[0].maximum && mem.totals.solanaFee + fee <= env.policy.solanaCap
    {
      hide IsRun, Next, Moves, MemoryStep;
      ok, fee := false, 0;
      var item := mem.actions[i].requests[0];
      var r := ConfirmRequestCall(i, item.operation, flag);
      ghost var room := env.policy.solanaCap - mem.totals.solanaFee;
      Note(AskedConfirmation(item.operation, item.binding, item.window, item.hash, if item.maximum <= room then item.maximum else room, r));
      if !r.ConfirmOk? || r.operation != item.operation || r.binding != item.binding || r.window != item.window || r.hash != item.hash { return; }
      if r.fee > item.maximum { return; }
      if mem.totals.solanaFee + r.fee > env.policy.solanaCap { return; }
      ok, fee := true, r.fee;
    }

    // ----- retry keys -----

    /** There is a key under the name, or the number makes one. */
    ghost predicate KeyMade(name: Name, known: map<Name, nat>, number: nat) {
      name in known || ValidId(KeyText(env.policy.authorization, NameText(name), number))
    }

    /** nextOperation: the counter is durable before its number is used. */
    method NextNumber(kind: string) returns (ok: bool)
      requires Valid() && At().Idle?
      modifies this
      ensures Valid() && Continues(old(run)) && At().Idle? && mem == old(mem).(counter := old(mem).counter + 1)
      ensures ok ==> mem == disk && Last(run).spent < disk.counter && ValidId(KeyText(env.policy.authorization, kind, disk.counter))
      ensures old(log) <= log && |log| == |old(log)| + 1 && log[|old(log)|].AskedWrite? && Asked(old(log), [AskedWrite(true)])
      ensures ok <==> WentWell(old(log)) && ValidId(KeyText(env.policy.authorization, kind, mem.counter))
    {
      SpentBehind();
      hide IsRun, Next, KeyText, ValidId, Follows, AllRight, Right, Question;
      CountTaken(env, Last(run));
      Update(CountOperation, mem.(counter := mem.counter + 1), Idle);
      var saved := SaveState();
      ok := saved && ValidId(KeyText(env.policy.authorization, kind, mem.counter));
    }

    lemma SpentBehind()
      requires Valid()
      ensures Last(run).spent <= mem.counter
    {
      RunOk(env, run, |run.states| - 1);
      hide IsRun, StateOk, KeysOk, SendsAgree;
    }

    /** The key kept under a name, made when there is none, and saved in either case. */
    method KeyFor(name: Name) returns (ok: bool)
      requires Valid() && At().Idle?
      modifies this
      ensures Valid() && Continues(old(run)) && At().Idle?
      ensures ok ==> mem == disk && name in disk.idempotency
      ensures var numbered := old(mem).(counter := old(mem).counter + 1);
              if name in old(mem).idempotency then mem == old(mem)
              else mem == numbered || mem == numbered.(idempotency := numbered.idempotency[name := numbered.counter])
      ensures old(log) <= log && (ok <==> WentWell(old(log)) && KeyMade(name, old(mem).idempotency, old(mem).counter + 1))
      ensures WentWell(old(log)) && !ok ==> !KeyMade(name, mem.idempotency, mem.counter)
      ensures ok ==> name in mem.idempotency && mem.idempotency[name] == if name in old(mem).idempotency then old(mem).idempotency[name] else old(mem).counter + 1
      ensures |old(log)| < |log| <= |old(log)| + 2 && log[|log| - 1].AskedWrite? && (|log| == |old(log)| + 2 ==> log[|old(log)|].AskedWrite?)
      ensures Asked(old(log), if name in old(mem).idempotency || !KeyMade(name, map[], old(mem).counter + 1) then [AskedWrite(true)]
                              else [AskedWrite(true), AskedWrite(true)])
    {
      hide IsRun, Next, Follows, AllRight, Right, KeyText, ValidId;
      ok := true;
      ghost var write: seq<Event> := [AskedWrite(true)];
      assert write + write == [AskedWrite(true), AskedWrite(true)];
      if name !in mem.idempotency {
        ok := NextNumber(NameText(name));
        if !ok {
          if KeyMade(name, map[], mem.counter) {
            FollowsShort(env.policy, old(log), log, write, write);
          }
          return;
        }
        KeyTaken(env, Last(run), name);
        mem := mem.(idempotency := mem.idempotency[name := mem.counter]);
        Took(AssignKey(name), Last(run).(mem := mem, spent := mem.counter));
      }
      ghost var numbered := log;
      ok := SaveState();
      if name !in old(mem).idempotency {
        FollowsOn(env.policy, old(log), numbered, log, write, write);
      }
    }

    // ----- the session loop -----

    /** The session did not accept the hashes, but may do so later. */
    ghost predicate Tolerated(since: seq<Event>)
      reads this`log
    {
      |log| > |since| && log[|log| - 1] == AskedSource(SessionFailed(true)) && AllRight(env.policy, since, log[..|log| - 1])
    }

    /** The session accepted the hashes; the write of that is the last event. */
    ghost predicate Accepted(since: seq<Event>)
      reads this`log
    {
      |log| >= |since| + 2 && log[|log| - 2].AskedSource? && log[|log| - 2].view.View?
    }

    /** observe-source with an action's recorded hashes; the action becomes observed when the session accepts them. */
    method ObserveAction(i: nat) returns (threw: bool)
      requires Valid() && At().Idle? && i < |mem.actions| && mem.actions[i].hashes != []
      modifies this
      ensures Valid() && Continues(old(run)) && (!threw ==> At().Idle?)
      ensures mem.actions == old(mem).actions || mem.actions == old(mem).actions[i := old(mem).actions[i].(status := Observed)]
      ensures mem.totals == old(mem).totals
      ensures var name := old(Source(mem.actions[i].step, mem.actions[i].id));
              var made := KeyMade(name, old(mem).idempotency, old(mem).counter + 1);
              && old(log) < log && (!threw ==> made && (WentWell(old(log)) || Tolerated(old(log))))
              && (made && (WentWell(old(log)) || Tolerated(old(log))) ==> !threw)
      ensures threw && WentWell(old(log)) ==> !KeyMade(old(Source(mem.actions[i].step, mem.actions[i].id)), mem.idempotency, mem.counter)
      ensures mem.actions == (if Accepted(old(log)) then WithStatus(old(mem), i, Observed) else old(mem)).actions
      ensures !threw && Accepted(old(log)) ==> disk == mem
      ensures !threw && WentWell(old(log)) ==> Accepted(old(log))
    {
      hide IsRun, Next, AllRight, Right, Follows, Tolerated, Accepted, KeyMade;
      threw := true;
      var ok := KeyFor(Source(mem.actions[i].step, mem.actions[i].id));
      OnlyWrites(old(log));
      if !ok { return; }
      ObservationTaken(env, Last(run), i);
      Took(CallObserveSource(i), Last(run).(stage := Observing(i)));
      ghost var keyed := log;
      threw := RecordObservation(i);
      AfterKey(old(log), keyed);
    }

    /** The events before the session's answer were right writes. */
    lemma AfterKey(since: seq<Event>, keyed: seq<Event>)
      requires since < keyed < log && keyed[|keyed| - 1].AskedWrite? && AllRight(env.policy, since, keyed)
      ensures (WentWell(since) <==> WentWell(keyed)) && (Tolerated(since) <==> Tolerated(keyed)) && (Accepted(since) <==> Accepted(keyed))
    {
      AllRightJoins(env.policy, since, keyed, log);
      AllRightJoins(env.policy, since, keyed, log[..|log| - 1]);
      hide AllRight, Right;
    }

    lemma OnlyWrites(since: seq<Event>)
      requires since <= log && forall k | |since| <= k < |log| :: log[k].AskedWrite?
      ensures !Tolerated(since) && !Accepted(since)
    {
    }

    /** The session's answer to observe-source. */
    method RecordObservation(i: nat) returns (threw: bool)
      requires Valid() && At() == Observing(i) && i < |mem.actions| && mem.actions[i].hashes != []
      modifies this
      ensures Valid() && Continues(old(run)) && (!threw ==> At().Idle?)
      ensures mem == old(mem) || (mem == WithStatus(old(mem), i, Observed) && (threw || disk == mem))
      ensures old(log) < log && (threw <==> !WentWell(old(log)) && !Tolerated(old(log)))
      ensures mem == if Accepted(old(log)) then WithStatus(old(mem), i, Observed) else old(mem)
      ensures !threw && Accepted(old(log)) ==> disk == mem
      ensures !threw && WentWell(old(log)) ==> Accepted(old(log))
    {
      RequestsShape(env, run, i);
      hide IsRun, Next;
      var reply: SessionReply := *;
      Note(AskedSource(reply));
      if reply.SessionFailed? {
        threw := !reply.retryable;
        if !threw { Throw(Idle); }
      } else {
        AcceptanceTaken(env, Last(run), i);
        Update(MarkObserved(i), WithStatus(mem, i, Observed), Idle);
        var saved := SaveState();
        threw := !saved;
      }
    }

    /** observe-output failed, but the session no longer waits, or may accept later. */
    ghost predicate GoesOn(since: seq<Event>)
      reads this`log
    {
      && |log| >= |since| + 2 && log[|log| - 1].AskedStill? && log[|log| - 1].view.View? && log[|log| - 2].AskedOutput?
      && log[|log| - 2].view.SessionFailed? && AllRight(env.policy, since, log[..|log| - 2])
      && (log[|log| - 2].view.retryable || (log[|log| - 1].view.status != BridgeInFlight && log[|log| - 1].view.status != AwaitingOutput))
    }

    /** observe-output for a step; after a failure the session is asked again whether it still waits. */
    method ObserveOutput(step: nat) returns (threw: bool)
      requires Valid() && At().Idle?
      modifies this
      ensures Valid() && Continues(old(run)) && At().Idle? && mem.actions == old(mem).actions && mem.totals == old(mem).totals
      ensures old(log) < log
      ensures !threw <==> KeyMade(Output(step), old(mem).idempotency, old(mem).counter + 1) && (WentWell(old(log)) || GoesOn(old(log)))
      ensures threw && WentWell(old(log)) ==> !KeyMade(Output(step), mem.idempotency, mem.counter)
      ensures !threw && WentWell(old(log)) ==> log[|log| - 1].AskedOutput?
    {
      hide IsRun, Next, AllRight, Right, Follows, GoesOn, KeyMade;
      threw := true;
      var ok := KeyFor(Output(step));
      NoAnswer(old(log));
      if !ok { return; }
      OutputTaken(env, Last(run), step);
      Took(CallObserveOutput(step), Last(run));
      ghost var keyed := log;
      threw := AskOutput();
      AllRightJoins(env.policy, old(log), keyed, log);
      GoesOnAfterKey(old(log), keyed);
    }

    /** observe-output, and after a failure whether the session still waits. */
    method AskOutput() returns (threw: bool)
      modifies this`log
      ensures old(log) < log && (!threw <==> WentWell(old(log)) || GoesOn(old(log)))
      ensures WentWell(old(log)) ==> log[|log| - 1].AskedOutput?
    {
      var reply: SessionReply := *;
      Note(AskedOutput(reply));
      threw := false;
      if reply.SessionFailed? {
        var live: SessionReply := *;
        Note(AskedStill(live));
        threw := !live.View? || ((live.status == BridgeInFlight || live.status == AwaitingOutput) && !reply.retryable);
      }
    }

    lemma NoAnswer(since: seq<Event>)
      requires since <= log && forall k | |since| <= k < |log| :: log[k].AskedWrite?
      ensures !GoesOn(since)
    {
    }

    lemma GoesOnAfterKey(since: seq<Event>, keyed: seq<Event>)
      requires since < keyed < log && keyed[|keyed| - 1].AskedWrite? && AllRight(env.policy, since, keyed)
      ensures GoesOn(since) <==> GoesOn(keyed)
    {
      if |log| >= |keyed| + 2 {
        AllRightJoins(env.policy, since, keyed, log[..|log| - 2]);
      }
      hide AllRight, Right;
    }

    /** refresh with a key of its own. */
    method Refresh(step: nat) returns (threw: bool, handoff: Option<Handoff>)
      requires Valid() && At().Idle? && !HasPending(mem, step)
      modifies this
      ensures Valid() && Continues(old(run)) && At().Idle? && mem == old(mem).(counter := old(mem).counter + 1)
      ensures old(log) < log && log[|old(log)|].AskedWrite?
      ensures !threw <==> WentWell(old(log)) && ValidId(KeyText(env.policy.authorization, RefreshKind(step), mem.counter))
      ensures Asked(old(log), if ValidId(KeyText(env.policy.authorization, RefreshKind(step), mem.counter)) then [AskedWrite(true), AskedRefresh(NOTHING)]
                              else [AskedWrite(true)])
      ensures !threw ==> |log| == |old(log)| + 2 && log[|old(log)| + 1] == AskedRefresh(log[|old(log)| + 1].view)
                         && log[|old(log)| + 1].view.View? && handoff == log[|old(log)| + 1].view.handoff
    {
      hide IsRun, Next, AllRight, Follows, KeyText, ValidId, RefreshKind;
      ghost var write, ask: seq<Event> := [AskedWrite(true)], [AskedRefresh(NOTHING)];
      assert write + ask == [AskedWrite(true), AskedRefresh(NOTHING)];
      threw, handoff := true, None;
      var ok := NextNumber(RefreshKind(step));
      if !ok {
        if ValidId(KeyText(env.policy.authorization, RefreshKind(step), mem.counter)) {
          FollowsShort(env.policy, old(log), log, write, ask);
        }
        return;
      }
      ghost var keyed := log;
      RefreshTaken(env, Last(run), step);
      Took(CallRefresh(step), Last(run).(spent := disk.counter));
      var reply: SessionReply := *;
      Note(AskedRefresh(reply));
      FollowsOn(env.policy, old(log), keyed, log, write, ask);
      if reply.View? {
        threw, handoff := false, reply.handoff;
      }
    }

    method FindPending(step: nat) returns (i: nat)
      ensures i <= |mem.actions|
      ensures i < |mem.actions| ==> Pending(mem.actions[i], step)
      ensures i == |mem.actions| ==> !HasPending(mem, step)
    {
      i := 0;
      while i < |mem.actions| && !Pending(mem.actions[i], step)
        invariant i <= |mem.actions|
        invariant forall j | 0 <= j < i :: !Pending(mem.actions[j], step)
      {
        i := i + 1;
      }
    }

    ghost method Begin(h: Handoff)
      requires Valid() && At().Idle? && !HasPending(mem, h.step)
      modifies this`run
      ensures Valid() && Continues(old(run)) && At() == Entered(h.id, h.step, h.family)
    {
      hide Next, HasPending;
      ExecutionTaken(env, Last(run), h.id, h.step, h.family);
      Took(BeginExecution(h.id, h.step, h.family), Last(run).(stage := Entered(h.id, h.step, h.family)));
    }

    /** Why an execution ends although every answer was right: the policy has no room for the action, or the state
        file knows its id as something else. */
    ghost predicate Blocked(h: Handoff, before: State, after: State) {
      match h.family
      case Evm => !Reservable(h, before) || CapReached(after.totals)
      case Solana => env.content(h.id).rows == [] || !Matches(h, before) || SolanaFull(after.totals)
    }

    /** Validate a handoff, execute it, and report its hashes. */
    method ExecuteHandoff(h: Handoff, step: nat) returns (threw: bool)
      requires Valid() && At().Idle? && !HasPending(mem, step)
      modifies this
      ensures Valid() && Continues(old(run)) && (!threw ==> At().Idle?)
      ensures old(log) < log && (!threw ==> WentWell(old(log)) || Tolerated(old(log)))
      ensures Question(log[|old(log)|]) == AskedHandoff(true, 0, step, 0, 0) && log[|old(log)|].step == h.step && log[|old(log)|].expires == h.expires
      ensures threw && WentWell(old(log)) ==> Blocked(h, old(mem), mem) || !KeyMade(Source(h.step, h.id), mem.idempotency, mem.counter)
    {
      hide IsRun, Next, HasPending, KnownId, Executed, AllRight, Tolerated, Blocked, KeyMade, Follows;
      threw := true;
      var valid: bool, now: int := *, *;
      Note(AskedHandoff(valid, h.step, step, h.expires, now));
      if !valid || h.step != step || h.expires - now < env.policy.minimumActionRemaining * 1000 { return; }
      ghost var handed := log;
      Begin(h);
      var r := Execute(h);
      AllRightJoins(env.policy, old(log), handed, log);
      if r.Threw? { return; }
      ghost var executed := log;
      threw := ReportHashes(h, r.hashes);
      AllRightJoins(env.policy, old(log), executed, log);
      StillTolerated(old(log), executed);
    }

    method Execute(h: Handoff) returns (r: Outcome)
      requires Valid() && At() == Entered(h.id, h.step, h.family)
      modifies this
      ensures Valid() && Continues(old(run))
      ensures r.Done? ==> disk == mem && Executed(h, r.hashes) && At().Idle?
      ensures old(log) <= log && (r.Done? ==> WentWell(old(log)))
      ensures r.Threw? && WentWell(old(log)) ==> Blocked(h, old(mem), mem)
    {
      hide IsRun, Next, Executed, AllRight, Right, Reservable, Matches, CapReached, SolanaFull;
      match h.family {
        case Evm => r := ExecuteEvm(h);
        case Solana => r := ExecuteSolana(h);
      }
    }

    /** The session is told the hashes of an executed action. */
    method ReportHashes(h: Handoff, hashes: seq<Hash>) returns (threw: bool)
      requires Valid() && At().Idle? && Executed(h, hashes)
      modifies this
      ensures Valid() && Continues(old(run)) && (!threw ==> At().Idle?)
      ensures mem.totals == old(mem).totals
      ensures old(log) < log
      ensures !threw <==> KeyMade(Source(h.step, h.id), old(mem).idempotency, old(mem).counter + 1) && (WentWell(old(log)) || Tolerated(old(log)))
      ensures threw && WentWell(old(log)) ==> !KeyMade(Source(h.step, h.id), mem.idempotency, mem.counter)
    {
      hide IsRun, Next, Executed, AllRight, Right, Tolerated, KeyMade, Accepted, WithAction;
      ExecutedKnown(h, hashes);
      var ok, i := ActionState(h);
      KnownUnchanged(h, old(mem));
      ExecutedAt(h, hashes, i);
      threw := ObserveAction(i);
    }

    lemma KnownUnchanged(h: Handoff, m: State)
      requires KnownId(m, h.id)
      ensures WithAction(m, h) == m
    {
    }

    lemma StillTolerated(since: seq<Event>, middle: seq<Event>)
      requires since <= middle < log && AllRight(env.policy, since, middle)
      ensures Tolerated(since) <==> Tolerated(middle)
    {
      AllRightJoins(env.policy, since, middle, log[..|log| - 1]);
      hide AllRight, Right;
    }

    lemma ExecutedKnown(h: Handoff, hashes: seq<Hash>)
      requires Executed(h, hashes)
      ensures KnownId(mem, h.id)
    {
    }

    lemma ExecutedAt(h: Handoff, hashes: seq<Hash>, i: nat)
      requires Valid() && Executed(h, hashes) && i < |mem.actions| && mem.actions[i].id == h.id
      ensures mem.actions[i].hashes == hashes != [] && mem.actions[i].step == h.step && mem.actions[i].family == h.family
    {
      RunOk(env, run, |run.states| - 1);
      hide IsRun, StateOk, Ahead, KeysOk, SendsAgree;
      forall x | 0 <= x < |mem.actions| && mem.actions[x].id == h.id ensures x == i {
        SameIndex(env, mem, x, i);
      }
    }

    /** The session handed this out, in its state or in answer to a refresh. */
    ghost predicate Handed(since: nat, h: Handoff)
      reads this`log
    {
      exists k | since <= k < |log| ::
        match log[k]
        case AskedState(_, View(_, _, _, Some(g), _)) => g == h
        case AskedRefresh(View(_, _, _, Some(g), _)) => g == h
        case _ => false
    }

    /** An action that is ready and has time left is handed over, one without enough time is waited for until it has
        expired, and a new one is asked for otherwise. */
    ghost predicate StepBegun(current: SessionReply, now: int, next: Turn, since: nat)
      requires current.View?
      reads this`log
    {
      var left := if current.expires.Some? then current.expires.value - now else 0;
      if current.status == ActionReady && current.handoff.Some? && current.expires.Some? && left >= 1000 * env.policy.minimumActionRemaining
      then |log| > since && log[since].AskedHandoff? && log[since].step == current.handoff.value.step
      else if current.status == ActionReady && left > 0 then next.Again? && |log| == since
      else |log| > since && log[since].AskedWrite?
    }

    /** What a turn does about what the session says: pending hashes are reported first; then an output is reported,
        or the step goes on. */
    ghost predicate TurnTaken(state: Event, next: Turn, since: seq<Event>, before: State)
      requires state.AskedState? && state.view.View? && state.view.status != SessionComplete
      reads this`log, this`mem
    {
      var view, well := state.view, next.Again? && AllRight(env.policy, since, log);
      if HasPending(before, view.step) then
        well ==> exists i | 0 <= i < |before.actions| && Pending(before.actions[i], view.step) :: mem.actions == WithStatus(before, i, Observed).actions
      else if view.status == BridgeInFlight || view.status == AwaitingOutput then well ==> log != [] && log[|log| - 1].AskedOutput?
      else if view.status == OtherStatus then next.Stopped?
      else StepBegun(view, state.now, next, |since| + 1)
    }

    /** Why executing a step ends the process although every answer was right. */
    ghost predicate StepStopped(step: nat, since: nat, before: State)
      reads this`mem, this`log
    {
      || !ValidId(KeyText(env.policy.authorization, RefreshKind(step), mem.counter))
      || exists h :: Handed(since, h) && (Blocked(h, before, mem) || !KeyMade(Source(h.step, h.id), mem.idempotency, mem.counter))
    }

    /** Why a turn ends the process although every answer was right: a state that is not known, a key that cannot be
        made, or a step that ends it. */
    ghost predicate TurnStopped(view: SessionReply, since: nat, before: State)
      requires view.View?
      reads this`mem, this`log
    {
      || view.status == OtherStatus
      || !KeyMade(Output(view.step), mem.idempotency, mem.counter)
      || (exists a | a in before.actions && Pending(a, view.step) :: !KeyMade(Source(a.step, a.id), mem.idempotency, mem.counter))
      || StepStopped(view.step, since, before)
    }

    /** One turn of the session loop. */
    method Cycle() returns (next: Turn)
      requires Valid() && At().Idle?
      modifies this
      ensures Valid() && Continues(old(run)) && (next.Again? ==> At().Idle?)
      ensures next.Completed? ==> mem.complete && disk.complete
      ensures old(log) < log && log[|old(log)|].AskedState?
      ensures next.Completed? <==> WentWell(old(log)) && log[|old(log)|].view.View? && log[|old(log)|].view.status == SessionComplete
      ensures next.Again? ==> WentWell(old(log)) || Tolerated(old(log)) || GoesOn(old(log))
      ensures next.Stopped? && WentWell(old(log)) ==>
                log[|old(log)|].view.View? && TurnStopped(log[|old(log)|].view, |old(log)|, old(mem))
      ensures var state := log[|old(log)|];
              Right(env.policy, state) && state.view.status != SessionComplete ==> TurnTaken(state, next, old(log), old(mem))
    {
      hide IsRun, Next, AllRight, Tolerated, GoesOn, StepStopped, KeyMade, HasPending, Handed, Follows, Question, Accepted, StepBegun;
      next := Stopped;
      var now: int, current: SessionReply := *, *;
      Note(AskedState(now, current));
      ghost var asked := log;
      if now > env.policy.runnerExpires || current.SessionFailed? { return; }
      if current.status == SessionComplete {
        if current.output < env.policy.minimumFinal { return; }
        var saved := CompleteSession(current.output);
        AllRightJoins(env.policy, old(log), asked, log);
        return if saved then Completed else Stopped;
      }
      var threw: bool;
      var i := FindPending(current.step);
      if i < |mem.actions| { PendingFound(i, current.step); }
      if i < |mem.actions| {
        threw := ObserveAction(i);
        AllRightJoins(env.policy, old(log), asked, log);
        StillTolerated(old(log), asked);
        return if threw then Stopped else Again;
      }
      if current.status == BridgeInFlight || current.status == AwaitingOutput {
        threw := ObserveOutput(current.step);
        AllRightJoins(env.policy, old(log), asked, log);
        StillGoesOn(old(log), asked);
        return if threw then Stopped else Again;
      }
      if current.status == OtherStatus { return; }
      next := ExecuteStep(current, now, |asked| - 1);
      AllRightJoins(env.policy, old(log), asked, log);
      if asked < log { StillTolerated(old(log), asked); }
    }

    /** Lines 203-205: the session is complete. */
    method CompleteSession(output: nat) returns (saved: bool)
      requires Valid() && At().Idle? && output >= env.policy.minimumFinal
      modifies this
      ensures Valid() && Continues(old(run)) && mem == old(mem).(complete := true)
      ensures disk == if saved then mem else old(disk)
      ensures log == old(log) + [AskedWrite(saved)] && (WentWell(old(log)) <==> saved)
    {
      hide IsRun, Next, AllRight, Follows, Right;
      CompletionTaken(env, Last(run), output);
      Update(Complete(output), mem.(complete := true), Idle);
      saved := SaveState();
    }

    lemma PendingFound(i: nat, step: nat)
      requires i < |mem.actions| && Pending(mem.actions[i], step)
      ensures HasPending(mem, step)
    {
    }

    lemma StillGoesOn(since: seq<Event>, middle: seq<Event>)
      requires since <= middle < log && AllRight(env.policy, since, middle)
      ensures GoesOn(middle) ==> GoesOn(since)
    {
      if |log| >= |middle| + 2 {
        AllRightJoins(env.policy, since, middle, log[..|log| - 2]);
      }
      hide AllRight, Right;
    }

    lemma PendingUnchanged(m: State, step: nat)
      requires mem == m.(counter := m.counter + 1)
      ensures HasPending(mem, step) <==> HasPending(m, step)
    {
    }

    /** Counting does not unblock a handoff. */
    lemma BlockedAlike(h: Handoff, m: State, counted: State)
      requires counted == m || counted == m.(counter := m.counter + 1)
      ensures Blocked(h, counted, mem) <==> Blocked(h, m, mem)
    {
      assert WithAction(counted, h).actions == WithAction(m, h).actions;
    }

    /** The rest of a turn: wait for an expiring action, refresh it, or execute it. */
    method ExecuteStep(current: SessionReply, now: int, ghost asked: nat) returns (next: Turn)
      requires Valid() && At().Idle? && current.View? && !HasPending(mem, current.step)
      requires asked < |log| && log[asked] == AskedState(now, current)
      modifies this
      ensures Valid() && Continues(old(run)) && !next.Completed? && (next.Again? ==> At().Idle?)
      ensures old(log) <= log && (next.Again? ==> WentWell(old(log)) || (old(log) < log && Tolerated(old(log))))
      ensures next.Stopped? && WentWell(old(log)) ==> StepStopped(current.step, asked, old(mem))
      ensures StepBegun(current, now, next, |old(log)|)
    {
      hide IsRun, Next, AllRight, Right, Tolerated, HasPending, KeyText, ValidId, RefreshKind, Blocked, Follows, KeyMade;
      AllRightNow(env.policy, log);
      var threw: bool;
      var handoff := current.handoff;
      if current.status != ActionReady || handoff.None? || current.expires.None? ||
         current.expires.value - now < env.policy.minimumActionRemaining * 1000 {
        if current.status == ActionReady && current.expires.Some? && current.expires.value - now > 0 { return Again; }
        threw, handoff := Refresh(current.step);
        PendingUnchanged(old(mem), current.step);
        if threw { return Stopped; }
        if handoff.None? { return Again; }
      }
      ghost var ready, m := log, mem;
      threw := ExecuteHandoff(handoff.value, current.step);
      AllRightJoins(env.policy, old(log), ready, log);
      if WentWell(old(log)) || AllRight(env.policy, old(log), ready) { StillTolerated(old(log), ready); }
      BlockedAlike(handoff.value, old(mem), m);
      assert log[asked] == ready[asked] && log[|ready| - 1] == ready[|ready| - 1];
      assert Handed(asked, handoff.value);
      next := if threw then Stopped else Again;
    }

    /** One process, from loading the state to its end: completion (true) or any error (false). */
    method RunCallerOwnedSession() returns (complete: bool)
      requires Valid()
      modifies this
      ensures Valid() && Continues(old(run))
      ensures complete ==> mem.complete && disk.complete
      ensures old(log) <= log && (old(disk).complete && WentWell(old(log)) ==> complete)
      ensures old(disk).complete ==> |log| <= |old(log)| + 1 && mem == old(disk).(actions := mem.actions, totals := mem.totals)
    {
      hide AllRight, Right, Follows;
      complete := false;
      LoadState();
      var failed, changed := ReleaseConfirmedEvmReserves();
      if changed {
        var saved := SaveState();
        if !saved { return; }
      }
      NothingLeft(disk.actions);
      OpenLoop();
      hide IsRun, Next;
      if mem.complete { return disk.complete; }
      for cycle := 0 to 256
        invariant Valid() && Continues(old(run)) && At().Idle? && old(log) <= log
      {
        var next := Cycle();
        if !next.Again? { return next.Completed?; }
      }
    }

    /** The session loop begins once no old reserve can be released. */
    ghost method OpenLoop()
      requires Valid() && At().Loading? && mem == disk && !AnyReleasable(mem.actions, |mem.actions|)
      modifies this`run
      ensures Valid() && Continues(old(run)) && At().Idle?
    {
      hide Next, AnyReleasable;
      OpenTaken(env, Last(run));
      Took(Open, Last(run).(stage := Idle));
    }

    /** Any number of processes, each of which may also have stopped anywhere. */
    method Lifetimes(count: nat)
      requires Valid()
      modifies this
      ensures Valid() && Continues(old(run)) && old(log) <= log
    {
      for k := 0 to count
        invariant Valid() && Continues(old(run)) && old(log) <= log
      {
        var complete := RunCallerOwnedSession();
      }
    }
  }
}
