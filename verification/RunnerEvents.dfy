/** What the runner asks of the clock, the disk, the wallet adapter and the session, and what it is answered. */
module RunnerEvents {
  import opened Wrappers
  import opened RunnerState

  /** A handoff that passed validateHandoff; its requests are those its action id stands for. */
  datatype Handoff = Handoff(id: ActionId, step: nat, family: Family, expires: int)

  datatype Preparation =
    | PrepareFailed
    | PrepareOk(operation: Operation, binding: Payload, window: int, simulated: bool, gas: nat, fee: nat, maximum: nat)

  datatype Reply =
    | CallFailed
    | SubmitOk(operation: Operation, binding: Payload, window: int, hash: Hash)
    | ConfirmOk(operation: Operation, binding: Payload, window: int, hash: Hash, fee: nat, allowance: Option<nat>)

  datatype SessionStatus = SessionComplete | BridgeInFlight | AwaitingOutput | ActionReady | ActionExpired | AwaitingBuild | OtherStatus

  datatype SessionReply =
    | SessionFailed(retryable: bool)
    | View(status: SessionStatus, step: nat, expires: Option<int>, handoff: Option<Handoff>, output: nat)

  /** A question and its answer: the time before a window closes; a write of the state file; preparations within
      caps on gas and fee or within what is left of the Solana cap; a submission; the confirmation of a hash at
      a cost of at most `most`, for a recovery with the allowance gone; and calls of the session. */
  datatype Event =
    | AskedClock(expires: int, now: int)
    | AskedWrite(ok: bool)
    | AskedPreparation(operation: Operation, binding: Payload, window: int, gasCap: nat, feeCap: nat, preparation: Preparation)
    | AskedSolana(operation: Operation, binding: Payload, window: int, room: int, preparation: Preparation)
    | AskedRevocation(operation: Operation, binding: Payload, window: int, gasCap: nat, feeCap: nat, preparation: Preparation)
    | AskedSubmission(operation: Operation, binding: Payload, window: int, reply: Reply)
    | AskedConfirmation(operation: Operation, binding: Payload, window: int, hash: Hash, most: int, reply: Reply)
    | AskedRecovery(operation: Operation, binding: Payload, window: int, hash: Hash, most: int, reply: Reply)
    | AskedState(now: int, view: SessionReply)
    | AskedSource(view: SessionReply)
    | AskedOutput(view: SessionReply)
    | AskedStill(view: SessionReply)
    | AskedRefresh(view: SessionReply)
    | AskedHandoff(valid: bool, step: nat, expected: nat, expires: int, now: int)

  /** The answer lets the runner go on: it names what was asked for, and keeps the policy. */
  predicate Right(p: Policy, e: Event) {
    match e
    case AskedClock(expires, now) =>
      now < p.authorizationExpires && now < p.runnerExpires && now + 1000 * p.minimumSubmitRemaining <= expires
    case AskedWrite(ok) => ok
    case AskedPreparation(operation, binding, window, gasCap, feeCap, a) =>
      && a.PrepareOk? && a == PrepareOk(operation, binding, window, true, a.gas, a.fee, a.gas * a.fee + PayloadValue(binding))
      && a.gas <= gasCap && a.fee <= feeCap
    case AskedSolana(operation, binding, window, room, a) =>
      a.PrepareOk? && a == PrepareOk(operation, binding, window, true, a.gas, a.fee, a.maximum) && a.maximum <= room
    case AskedRevocation(operation, binding, window, gasCap, feeCap, a) =>
      && a.PrepareOk? && a == PrepareOk(operation, binding, window, true, a.gas, a.fee, a.maximum)
      && a.gas <= gasCap && a.fee <= feeCap
    case AskedSubmission(operation, binding, window, a) => a.SubmitOk? && a == SubmitOk(operation, binding, window, a.hash)
    case AskedConfirmation(operation, binding, window, hash, most, a) =>
      a.ConfirmOk? && a == ConfirmOk(operation, binding, window, hash, a.fee, a.allowance) && a.fee <= most
    case AskedRecovery(operation, binding, window, hash, most, a) =>
      a.ConfirmOk? && a == ConfirmOk(operation, binding, window, hash, a.fee, Some(0)) && a.fee <= most
    case AskedState(now, view) =>
      && now <= p.runnerExpires && view.View?
      && (view.status == SessionComplete ==> view.output >= p.minimumFinal)
    case AskedSource(view) => view.View?
    case AskedOutput(view) => view.View?
    case AskedStill(view) => view.View? && view.status != BridgeInFlight && view.status != AwaitingOutput
    case AskedRefresh(view) => view.View?
    case AskedHandoff(valid, step, expected, expires, now) =>
      valid && step == expected && now + 1000 * p.minimumActionRemaining <= expires
  }

  const NOTHING := SessionFailed(false)

  /** The event without its answer. */
  function Question(e: Event): Event {
    match e
    case AskedClock(expires, _) => AskedClock(expires, 0)
    case AskedWrite(_) => AskedWrite(true)
    case AskedPreparation(operation, binding, window, gasCap, feeCap, _) =>
      AskedPreparation(operation, binding, window, gasCap, feeCap, PrepareFailed)
    case AskedSolana(operation, binding, window, room, _) => AskedSolana(operation, binding, window, room, PrepareFailed)
    case AskedRevocation(operation, binding, window, gasCap, feeCap, _) =>
      AskedRevocation(operation, binding, window, gasCap, feeCap, PrepareFailed)
    case AskedSubmission(operation, binding, window, _) => AskedSubmission(operation, binding, window, CallFailed)
    case AskedConfirmation(operation, binding, window, hash, most, _) =>
      AskedConfirmation(operation, binding, window, hash, most, CallFailed)
    case AskedRecovery(operation, binding, window, hash, most, _) => AskedRecovery(operation, binding, window, hash, most, CallFailed)
    case AskedState(_, _) => AskedState(0, NOTHING)
    case AskedSource(_) => AskedSource(NOTHING)
    case AskedOutput(_) => AskedOutput(NOTHING)
    case AskedStill(_) => AskedStill(NOTHING)
    case AskedRefresh(_) => AskedRefresh(NOTHING)
    case AskedHandoff(_, _, expected, _, _) => AskedHandoff(true, 0, expected, 0, 0)
  }

  /** Everything that was asked since then was answered rightly. */
  ghost predicate AllRight(p: Policy, since: seq<Event>, log: seq<Event>) {
    since <= log && forall k | |since| <= k < |log| :: Right(p, log[k])
  }

  /** Since then these questions were asked in this order, up to the first that was not answered rightly. */
  ghost predicate Follows(p: Policy, since: seq<Event>, log: seq<Event>, script: seq<Event>) {
    && since <= log && |since| < |log| <= |since| + |script|
    && (forall k | |since| <= k < |log| :: Question(log[k]) == script[k - |since|])
    && (forall k | |since| <= k < |log| - 1 :: Right(p, log[k]))
    && (|log| < |since| + |script| ==> !Right(p, log[|log| - 1]))
  }

  lemma FollowsOne(p: Policy, since: seq<Event>, e: Event)
    ensures Follows(p, since, since + [e], [Question(e)]) && (AllRight(p, since, since + [e]) <==> Right(p, e))
  {
    assert (since + [e])[|since|] == e;
  }

  /** After an answer that was not right nothing more of a longer script is asked. */
  lemma FollowsShort(p: Policy, since: seq<Event>, log: seq<Event>, script: seq<Event>, more: seq<Event>)
    requires Follows(p, since, log, script) && !AllRight(p, since, log)
    ensures Follows(p, since, log, script + more)
  {
    hide Right, Question;
    assert forall k | 0 <= k < |script| :: (script + more)[k] == script[k];
  }

  lemma FollowsOn(p: Policy, since: seq<Event>, middle: seq<Event>, log: seq<Event>, script: seq<Event>, more: seq<Event>)
    requires Follows(p, since, middle, script) && AllRight(p, since, middle) && Follows(p, middle, log, more)
    ensures |middle| == |since| + |script| && Follows(p, since, log, script + more)
    ensures AllRight(p, since, log) <==> AllRight(p, middle, log)
  {
    hide Right, Question;
    assert |middle| == |since| + |script|;
    forall k | |since| <= k < |log| ensures Question(log[k]) == (script + more)[k - |since|] {
      if k < |middle| {
        assert log[k] == middle[k] && (script + more)[k - |since|] == script[k - |since|];
      } else {
        assert (script + more)[k - |since|] == more[k - |middle|];
      }
    }
    forall k | |since| <= k < |middle| ensures Right(p, log[k]) {
      assert log[k] == middle[k];
    }
  }

  lemma AllRightJoins(p: Policy, since: seq<Event>, middle: seq<Event>, log: seq<Event>)
    requires since <= middle <= log
    ensures AllRight(p, since, log) <==> AllRight(p, since, middle) && AllRight(p, middle, log)
  {
    hide Right;
    assert forall k | 0 <= k < |middle| :: log[k] == middle[k];
  }

  lemma AllRightNow(p: Policy, log: seq<Event>)
    ensures AllRight(p, log, log)
  {
  }
}
