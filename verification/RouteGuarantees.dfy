/** What an accepted quote guarantees. */
module RouteGuarantees {
  import opened Wrappers
  import opened Numerals
  import opened Routes
  import opened RouteSummary

  /** BigInt arithmetic gives the ceiling of expected * (1 - guard / 10000), for guards up to the whole. */
  lemma CeilGuardIsCeiling(expected: nat, guard: nat)
    requires guard <= 10000
    ensures var c := CeilGuardFloor(expected, guard);
            (c - 1) * 10000 < expected * (10000 - guard) <= c * 10000
  {
    var n := expected * (10000 - guard);
    assert n >= 0;
    assert CeilGuardFloor(expected, guard) == (n + 9999) / 10000;
  }

  lemma Weakened(expected: nat, guard: nat)
    ensures expected * (10000 - guard) <= expected * 10000
  {
    assert expected * (10000 - guard) == expected * 10000 - expected * guard;
  }

  lemma RoundedUp(n: int, whole: nat)
    requires n <= whole * 10000
    ensures TruncatedQuotient(n + 9999, 10000) <= whole
  {
  }

  lemma CeilGuardAtMost(expected: nat, guard: nat)
    ensures CeilGuardFloor(expected, guard) <= expected
  {
    Weakened(expected, guard);
    RoundedUp(expected * (10000 - guard), expected);
  }

  /** Minimum amounts never exceed expected ones, at the input and the output of every step. */
  lemma MinimumWithinExpected(ctx: Context, def: RouteDef, q: Quote, i: nat)
    requires ValidQuote(ctx, def, q) && i < |q.summary.steps|
    ensures var s := q.summary.steps[i];
            && 0 < BaseUnits(s.minimumInput) <= BaseUnits(s.expectedInput)
            && 0 < BaseUnits(s.minimumOutput) <= BaseUnits(s.expectedOutput)
  {
    var defs, steps := StepsFor(def, q), q.summary.steps;
    assert StepOk(ctx, defs, steps, q.route.steps, q.intent.from.chain, i);
    if i > 0 {
      assert StepOk(ctx, defs, steps, q.route.steps, q.intent.from.chain, i - 1);
    }
    PositiveAmount(steps[i].minimumInput);
    PositiveAmount(steps[i].minimumOutput);
  }

  lemma PositiveAmount(a: Amount)
    requires AmountOk(a)
    ensures BaseUnits(a) > 0
  {
    FirstDigitCounts(a.text);
  }

  lemma {:induction false} FirstDigitCounts(text: string)
    requires text != [] && AllDigits(text) && text[0] != '0'
    ensures NatOf(text) > 0
  {
    if |text| > 1 {
      FirstDigitCounts(text[..|text| - 1]);
    }
  }

  lemma GuardBounds(minimum: nat, expected: nat, guard: nat)
    requires minimum >= CeilGuardFloor(expected, guard)
    ensures minimum * 10000 >= expected * (10000 - guard)
  {
    if guard <= 10000 {
      CeilGuardIsCeiling(expected, guard);
    } else {
      assert expected * (guard - 10000) >= 0;
      assert expected * (10000 - guard) == -(expected * (guard - 10000));
    }
  }

  /** Each guarded step keeps its output within the guards accumulated so far. */
  lemma GuardedOutput(ctx: Context, def: RouteDef, q: Quote, i: nat)
    requires ValidQuote(ctx, def, q) && i < |q.summary.steps|
    requires StepsFor(def, q)[i].guard.Some?
    ensures var s := q.summary.steps[i];
            BaseUnits(s.minimumOutput) * 10000 >= BaseUnits(s.expectedOutput) * (10000 - Guard(StepsFor(def, q), i + 1))
  {
    assert StepOk(ctx, StepsFor(def, q), q.summary.steps, q.route.steps, q.intent.from.chain, i);
    hide CeilGuardFloor, StepPlanOk, AmountsBound;
    GuardBounds(BaseUnits(q.summary.steps[i].minimumOutput), BaseUnits(q.summary.steps[i].expectedOutput), Guard(StepsFor(def, q), i + 1));
  }

  lemma {:induction false} FeesAgree(defs: seq<StepDef>, steps: seq<SummaryStep>)
    requires |defs| == |steps| && forall i | 0 <= i < |defs| :: steps[i].fee == defs[i].fee
    ensures FeeTotal(steps) == FeeSum(defs)
  {
    if defs != [] {
      FeesAgree(defs[..|defs| - 1], steps[..|steps| - 1]);
    }
  }

  lemma {:induction false} OneFee(steps: seq<SummaryStep>)
    requires FeeTotal(steps) <= 1
    ensures FeeTotal(steps) == 0 ==> FeeIndex(steps) == -1 && forall i | 0 <= i < |steps| :: steps[i].fee == 0
    ensures FeeTotal(steps) == 1 ==>
              && 0 <= FeeIndex(steps) < |steps| && steps[FeeIndex(steps)].fee == 1
              && forall i | 0 <= i < |steps| && i != FeeIndex(steps) :: steps[i].fee == 0
  {
    if steps != [] {
      OneFee(steps[..|steps| - 1]);
      assert forall i | 0 <= i < |steps| - 1 :: steps[i] == steps[..|steps| - 1][i];
    }
  }

  /** Exactly one step of an accepted quote carries the fee: the one at the returned index. */
  lemma FeeCarriedOnce(ctx: Context, def: RouteDef, q: Quote)
    requires ValidQuote(ctx, def, q)
    ensures 0 <= q.summary.feeIndex < |q.summary.steps| && q.summary.steps[q.summary.feeIndex].fee == 1
    ensures forall i | 0 <= i < |q.summary.steps| && i != q.summary.feeIndex :: q.summary.steps[i].fee == 0
    ensures q.offer.collectionSteps == [q.summary.feeIndex]
  {
    OneFee(q.summary.steps);
  }

  /** The steps of an accepted quote lead where its definition leads. */
  lemma PathIsDefined(ctx: Context, def: RouteDef, q: Quote)
    requires ValidQuote(ctx, def, q) && StepsFor(def, q) == def.steps
    requires Chained(def.steps, q.intent.from, q.intent.to)
    ensures q.summary.steps[0].from == q.summary.from && q.summary.steps[|q.summary.steps| - 1].to == q.summary.to
    ensures forall i | 0 < i < |q.summary.steps| ::
              && q.summary.steps[i].from == q.summary.steps[i - 1].to
              && q.summary.steps[i].expectedInput == q.summary.steps[i - 1].expectedOutput
              && q.summary.steps[i].minimumInput == q.summary.steps[i - 1].minimumOutput
  {
    hide AmountsOk, AmountsBound, CeilGuardFloor, Guard, RootOk;
    var steps := q.summary.steps;
    forall i | 0 <= i < |steps|
      ensures steps[i].from == Render(def.steps[i].from) && steps[i].to == Render(def.steps[i].to)
      ensures i > 0 ==> steps[i].expectedInput == steps[i - 1].expectedOutput && steps[i].minimumInput == steps[i - 1].minimumOutput
    {
      assert StepOk(ctx, def.steps, steps, q.route.steps, q.intent.from.chain, i);
    }
  }

  /** Where Number() is exact, accepted raw numbers are the exact amounts they duplicate. */
  lemma NumericValueKept(ctx: Context, def: RouteDef, q: Quote, i: nat)
    requires forall n: nat | n < 0x20_0000_0000_0000 :: ctx.toNumber(n) == n
    requires ValidQuote(ctx, def, q) && i < |q.summary.steps|
    ensures var s, raw := q.summary.steps[i], q.route.steps[i];
            && (BaseUnits(s.expectedInput) < 0x20_0000_0000_0000 ==> raw.expectedInput == Whole(BaseUnits(s.expectedInput)))
            && (BaseUnits(s.minimumInput) < 0x20_0000_0000_0000 ==> raw.floorInput == Whole(BaseUnits(s.minimumInput)))
            && (BaseUnits(s.expectedOutput) < 0x20_0000_0000_0000 ==> raw.expectedOutput == Whole(BaseUnits(s.expectedOutput)))
            && (BaseUnits(s.minimumOutput) < 0x20_0000_0000_0000 ==> raw.minimumOutput == Whole(BaseUnits(s.minimumOutput)))
  {
    assert StepOk(ctx, StepsFor(def, q), q.summary.steps, q.route.steps, q.intent.from.chain, i);
  }

  // ----- is the final guard check needed? -----

  /** Positive output amounts of n steps, minimum within expected. */
  ghost predicate Outputs(minimum: seq<nat>, expected: seq<nat>, n: nat) {
    |minimum| == |expected| == n && forall i | 0 <= i < n :: 0 < minimum[i] <= expected[i]
  }

  /** The check that the loop makes on every guarded step. */
  ghost predicate ComponentGuards(defs: seq<StepDef>, minimum: seq<nat>, expected: seq<nat>)
    requires |minimum| == |expected| == |defs|
  {
    forall i | 0 <= i < |defs| && defs[i].guard.Some? :: minimum[i] >= CeilGuardFloor(expected[i], Guard(defs, i + 1))
  }

  predicate AnyGuard(defs: seq<StepDef>) {
    exists i | 0 <= i < |defs| :: defs[i].guard.Some?
  }

  /** The check after the loop. */
  ghost predicate FinalGuardHolds(defs: seq<StepDef>, minimum: seq<nat>, expected: seq<nat>)
    requires |minimum| == |expected| == |defs| && defs != []
  {
    AnyGuard(defs) ==> minimum[|defs| - 1] >= CeilGuardFloor(expected[|defs| - 1], Guard(defs, |defs|))
  }

  /** The component checks imply the final one. */
  ghost predicate FinalGuardImplied(defs: seq<StepDef>)
    requires defs != []
  {
    forall minimum, expected | Outputs(minimum, expected, |defs|) && ComponentGuards(defs, minimum, expected) ::
      FinalGuardHolds(defs, minimum, expected)
  }

  /** The final guard check is redundant exactly for definitions without guards, with a guarded last step, or
      whose guards give everything away; so it is when every step is guarded. */
  lemma FinalGuardImpliedIff(defs: seq<StepDef>)
    requires defs != []
    ensures FinalGuardImplied(defs) <==> !AnyGuard(defs) || defs[|defs| - 1].guard.Some? || Guard(defs, |defs|) >= 10000
  {
    var n, g := |defs|, Guard(defs, |defs|);
    if AnyGuard(defs) && defs[n - 1].guard.None? && g < 10000 {
      var minimum: seq<nat> := seq(n, _ => 1);
      var expected: seq<nat> := seq(n, i => if i == n - 1 then 20000 else 1);
      forall i | 0 <= i < n && defs[i].guard.Some? ensures minimum[i] >= CeilGuardFloor(expected[i], Guard(defs, i + 1)) {
        CeilGuardAtMost(expected[i], Guard(defs, i + 1));
      }
      CeilGuardIsCeiling(20000, g);
      assert Outputs(minimum, expected, n) && ComponentGuards(defs, minimum, expected);
      assert !FinalGuardHolds(defs, minimum, expected);
    } else if g >= 10000 {
      forall minimum, expected | Outputs(minimum, expected, n) && ComponentGuards(defs, minimum, expected)
        ensures FinalGuardHolds(defs, minimum, expected)
      {
        NothingLeft(expected[n - 1], g);
      }
    }
  }

  lemma NothingLeft(expected: nat, guard: nat)
    requires guard >= 10000
    ensures CeilGuardFloor(expected, guard) <= 0
  {
    assert expected * (10000 - guard) <= 0;
  }

  /** In an accepted quote the component checks are the loop's, so the theorem applies to it. */
  lemma AcceptedGuards(ctx: Context, def: RouteDef, q: Quote)
    requires ValidQuote(ctx, def, q) && StepsFor(def, q) == def.steps
    ensures var minimum: seq<nat> := seq(|def.steps|, i requires 0 <= i < |def.steps| => BaseUnits(q.summary.steps[i].minimumOutput));
            var expected: seq<nat> := seq(|def.steps|, i requires 0 <= i < |def.steps| => BaseUnits(q.summary.steps[i].expectedOutput));
            Outputs(minimum, expected, |def.steps|) && ComponentGuards(def.steps, minimum, expected)
  {
    var steps := q.summary.steps;
    forall i | 0 <= i < |def.steps|
      ensures 0 < BaseUnits(steps[i].minimumOutput) <= BaseUnits(steps[i].expectedOutput)
      ensures def.steps[i].guard.Some? ==>
                BaseUnits(steps[i].minimumOutput) >= CeilGuardFloor(BaseUnits(steps[i].expectedOutput), Guard(def.steps, i + 1))
    {
      MinimumWithinExpected(ctx, def, q, i);
      assert StepOk(ctx, def.steps, steps, q.route.steps, q.intent.from.chain, i);
    }
  }
}
