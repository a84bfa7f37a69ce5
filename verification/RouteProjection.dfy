/** The validator and the hash projection on one quote: the texts that the projection writes over the raw numbers of
    an accepted quote denote those numbers. */
module RouteProjection {
  import opened Wrappers
  import opened Numerals
  import opened Unicode
  import opened Json
  import opened Members
  import Projection
  import opened Routes
  import opened RouteSummary
  import opened RouteGuarantees

  // ----- the quote as JSON -----

  /** The places where the projection writes. */
  datatype Place =
    | EstimatedInput | RouteInput | RouteExpected | RouteMinimum
    | StepInput(i: nat) | StepFloor(i: nat) | StepExpected(i: nat) | StepMinimum(i: nat)

  function Under(v: Value, part: Text, key: Text): Option<Value> {
    match Get(v, part)
    case None => None
    case Some(p) => Get(p, key)
  }

  function UnderStep(v: Value, part: Text, i: nat, key: Text): Option<Value> {
    match Projection.StepsUnder(v, part)
    case None => None
    case Some(steps) => if i < |steps| then Get(steps[i], key) else None
  }

  function At(v: Value, place: Place): Option<Value> {
    match place
    case EstimatedInput => Under(v, Projection.INTENT, Projection.ESTIMATED_INPUT)
    case RouteInput => Under(v, Projection.ROUTE, Projection.INPUT)
    case RouteExpected => Under(v, Projection.ROUTE, Projection.EXPECTED_OUTPUT)
    case RouteMinimum => Under(v, Projection.ROUTE, Projection.MINIMUM_OUTPUT)
    case StepInput(i) => UnderStep(v, Projection.ROUTE, i, Projection.EXPECTED_INPUT)
    case StepFloor(i) => UnderStep(v, Projection.ROUTE, i, Projection.FLOOR_INPUT)
    case StepExpected(i) => UnderStep(v, Projection.ROUTE, i, Projection.EXPECTED_OUTPUT)
    case StepMinimum(i) => UnderStep(v, Projection.ROUTE, i, Projection.MINIMUM_OUTPUT)
  }

  predicate InQuote(place: Place, n: nat) {
    match place
    case StepInput(i) => i < n
    case StepFloor(i) => i < n
    case StepExpected(i) => i < n
    case StepMinimum(i) => i < n
    case _ => n > 0
  }

  /** The member of the summary that is written to a place. */
  function Exact(v: Value, place: Place, n: nat): Option<Value>
    requires InQuote(place, n)
  {
    match place
    case EstimatedInput => UnderStep(v, Projection.SUMMARY, 0, Projection.EXPECTED_INPUT)
    case RouteInput => UnderStep(v, Projection.SUMMARY, 0, Projection.EXPECTED_INPUT)
    case RouteExpected => UnderStep(v, Projection.SUMMARY, n - 1, Projection.EXPECTED_OUTPUT)
    case RouteMinimum => UnderStep(v, Projection.SUMMARY, n - 1, Projection.MINIMUM_OUTPUT)
    case StepInput(i) => UnderStep(v, Projection.SUMMARY, i, Projection.EXPECTED_INPUT)
    case StepFloor(i) => UnderStep(v, Projection.SUMMARY, i, Projection.MINIMUM_INPUT)
    case StepExpected(i) => UnderStep(v, Projection.SUMMARY, i, Projection.EXPECTED_OUTPUT)
    case StepMinimum(i) => UnderStep(v, Projection.SUMMARY, i, Projection.MINIMUM_OUTPUT)
  }

  // ----- what the validator's records stand for -----

  predicate TextIs(s: string, text: Text) {
    |text| == |s| && forall i | 0 <= i < |s| :: text[i] == s[i] as int
  }

  /** An amount text is the member's string; nothing is asked of other values. */
  predicate AmountIs(a: Amount, v: Option<Value>) {
    a.Exact? ==> v.Some? && v.value.Str? && TextIs(a.text, v.value.text)
  }

  /** typeof raw === "number" && Number.isInteger(raw), with its value. */
  function RawOf(v: Option<Value>): RawNumber {
    if v.Some? && v.value.Num? && Finite(v.value.bits) && IsInteger(v.value.bits)
    then Whole(if v.value.bits < 0x8000_0000_0000_0000 then Magnitude(v.value.bits) as int else -(Magnitude(v.value.bits) as int))
    else NotWhole
  }

  predicate StepIs(v: Value, i: nat, step: SummaryStep, raw: RawStep) {
    && AmountIs(step.expectedInput, UnderStep(v, Projection.SUMMARY, i, Projection.EXPECTED_INPUT))
    && AmountIs(step.minimumInput, UnderStep(v, Projection.SUMMARY, i, Projection.MINIMUM_INPUT))
    && AmountIs(step.expectedOutput, UnderStep(v, Projection.SUMMARY, i, Projection.EXPECTED_OUTPUT))
    && AmountIs(step.minimumOutput, UnderStep(v, Projection.SUMMARY, i, Projection.MINIMUM_OUTPUT))
    && raw.expectedInput == RawOf(At(v, StepInput(i))) && raw.floorInput == RawOf(At(v, StepFloor(i)))
    && raw.expectedOutput == RawOf(At(v, StepExpected(i))) && raw.minimumOutput == RawOf(At(v, StepMinimum(i)))
  }

  /** The records of q hold the amounts of the JSON quote v, step by step. */
  predicate Stands(q: Quote, v: Value) {
    && Get(v, Projection.INTENT).Some? && Get(v, Projection.INTENT).value.Obj?
    && Projection.StepsUnder(v, Projection.SUMMARY).Some? && |Projection.StepsUnder(v, Projection.SUMMARY).value| == |q.summary.steps|
    && Projection.StepsUnder(v, Projection.ROUTE).Some? && |Projection.StepsUnder(v, Projection.ROUTE).value| == |q.route.steps|
    && (forall i | 0 <= i < |q.route.steps| :: Projection.StepsUnder(v, Projection.ROUTE).value[i].Obj?)
    && (forall i | 0 <= i < |q.summary.steps| && i < |q.route.steps| :: StepIs(v, i, q.summary.steps[i], q.route.steps[i]))
    && q.intent.estimatedInput == RawOf(At(v, EstimatedInput)) && q.route.input == RawOf(At(v, RouteInput))
    && q.route.expectedOutput == RawOf(At(v, RouteExpected)) && q.route.minimumOutput == RawOf(At(v, RouteMinimum))
  }

  // ----- decimal texts -----

  function Decimal(text: Text): int {
    if text == [] then 0 else Decimal(text[..|text| - 1]) * 10 + (text[|text| - 1] as int - 48)
  }

  lemma {:induction false} DecimalIs(s: string, text: Text)
    requires TextIs(s, text) && AllDigits(s)
    ensures Decimal(text) == NatOf(s)
  {
    if s != [] {
      DecimalIs(s[..|s| - 1], text[..|text| - 1]);
    }
  }

  lemma AmountText(a: Amount, v: Option<Value>)
    requires AmountOk(a) && AmountIs(a, v)
    ensures v.Some? && Projection.BaseUnits(v.value) && Decimal(v.value.text) == BaseUnits(a)
  {
    DecimalIs(a.text, v.value.text);
  }

  // ----- what is written where -----

  lemma Written(fields: seq<Field>, updates: seq<Field>, n: nat)
    requires DistinctKeys(updates) && n < |updates|
    ensures Lookup(PutAll(fields, updates), updates[n].key) == Some(updates[n].value)
  {
    LookupPutAll(fields, updates, updates[n].key);
    LookupAt(updates, n);
  }

  lemma Wrote(fields: seq<Field>, updates: seq<Field>, n: nat, step: Value, key: Text)
    requires DistinctKeys(updates) && n < |updates| && Get(step, key).Some? && updates[n].value == Get(step, key).value
    ensures Get(Obj(PutAll(fields, updates)), updates[n].key) == Get(step, key)
  {
    Written(fields, updates, n);
  }

  lemma IntentMember(v: Value)
    requires Projection.Projectable(v)
    ensures Get(Projection.ProjectedIntent(v), Projection.ESTIMATED_INPUT) == Get(Projection.Exact(v)[0], Projection.EXPECTED_INPUT)
  {
    hide Projection.INTENT, Projection.ROUTE, Projection.SUMMARY, Projection.STEPS, Projection.CONTINUATION,
      Projection.ESTIMATED_INPUT, Projection.INPUT, Projection.EXPECTED_INPUT, Projection.MINIMUM_INPUT,
      Projection.FLOOR_INPUT, Projection.EXPECTED_OUTPUT, Projection.MINIMUM_OUTPUT, Keys, PutAll, Drop,
      DistinctKeys, Lookup;
    var exact := Projection.Exact(v);
    assert Projection.ExactStep(exact[0]);
    Projection.IntentUpdatesKeys(exact);
    Wrote(Projection.IntentFields(v), Projection.IntentUpdates(exact), 0, exact[0], Projection.EXPECTED_INPUT);
  }

  lemma RouteMembers(fields: seq<Field>, exact: seq<Value>, steps: seq<Value>)
    requires exact != [] && Projection.ExactStep(exact[0]) && Projection.ExactStep(exact[|exact| - 1])
    ensures var route := Obj(PutAll(fields, Projection.RouteUpdates(exact, steps)));
            && Get(route, Projection.INPUT) == Get(exact[0], Projection.EXPECTED_INPUT)
            && Get(route, Projection.EXPECTED_OUTPUT) == Get(exact[|exact| - 1], Projection.EXPECTED_OUTPUT)
            && Get(route, Projection.MINIMUM_OUTPUT) == Get(exact[|exact| - 1], Projection.MINIMUM_OUTPUT)
  {
    hide Projection.INTENT, Projection.ROUTE, Projection.SUMMARY, Projection.STEPS, Projection.CONTINUATION,
      Projection.ESTIMATED_INPUT, Projection.INPUT, Projection.EXPECTED_INPUT, Projection.MINIMUM_INPUT,
      Projection.FLOOR_INPUT, Projection.EXPECTED_OUTPUT, Projection.MINIMUM_OUTPUT, Keys, PutAll, Drop,
      DistinctKeys, Lookup;
    var u, last := Projection.RouteUpdates(exact, steps), exact[|exact| - 1];
    Projection.RouteUpdatesKeys(exact, steps);
    Wrote(fields, u, 0, exact[0], Projection.EXPECTED_INPUT);
    Wrote(fields, u, 1, last, Projection.EXPECTED_OUTPUT);
    Wrote(fields, u, 2, last, Projection.MINIMUM_OUTPUT);
  }

  lemma StepMembers(exact: Value, raw: Value)
    requires Projection.ExactStep(exact) && raw.Obj?
    ensures var step := Projection.ProjectedStep(exact, raw);
            && Get(step, Projection.EXPECTED_INPUT) == Get(exact, Projection.EXPECTED_INPUT)
            && Get(step, Projection.FLOOR_INPUT) == Get(exact, Projection.MINIMUM_INPUT)
            && Get(step, Projection.EXPECTED_OUTPUT) == Get(exact, Projection.EXPECTED_OUTPUT)
            && Get(step, Projection.MINIMUM_OUTPUT) == Get(exact, Projection.MINIMUM_OUTPUT)
  {
    hide Projection.INTENT, Projection.ROUTE, Projection.SUMMARY, Projection.STEPS, Projection.CONTINUATION,
      Projection.ESTIMATED_INPUT, Projection.INPUT, Projection.EXPECTED_INPUT, Projection.MINIMUM_INPUT,
      Projection.FLOOR_INPUT, Projection.EXPECTED_OUTPUT, Projection.MINIMUM_OUTPUT, Keys, PutAll, Drop,
      DistinctKeys, Lookup;
    var u := Projection.StepUpdates(exact);
    Projection.StepUpdatesKeys(exact);
    Wrote(raw.fields, u, 0, exact, Projection.EXPECTED_INPUT);
    Wrote(raw.fields, u, 1, exact, Projection.MINIMUM_INPUT);
    Wrote(raw.fields, u, 2, exact, Projection.EXPECTED_OUTPUT);
    Wrote(raw.fields, u, 3, exact, Projection.MINIMUM_OUTPUT);
  }

  lemma HeadWritten(v: Value, place: Place)
    requires Projection.Projectable(v) && !place.StepInput? && !place.StepFloor? && !place.StepExpected? && !place.StepMinimum?
    ensures At(Projection.Projected(v), place) == Exact(v, place, |Projection.Exact(v)|)
  {
    hide Projection.INTENT, Projection.ROUTE, Projection.SUMMARY, Projection.STEPS, Projection.CONTINUATION,
      Projection.ESTIMATED_INPUT, Projection.INPUT, Projection.EXPECTED_INPUT, Projection.MINIMUM_INPUT,
      Projection.FLOOR_INPUT, Projection.EXPECTED_OUTPUT, Projection.MINIMUM_OUTPUT, Keys, PutAll, Drop,
      DistinctKeys, Lookup, Get, Projection.Projectable, Projection.Projected, Projection.ProjectedIntent;
    Projection.ProjectedParts(v);
    IntentMember(v);
    var exact := Projection.Exact(v);
    assert Projection.ExactStep(exact[0]) && Projection.ExactStep(exact[|exact| - 1]);
    RouteMembers(Projection.RouteFields(v), exact, Projection.ProjectedSteps(v));
  }

  lemma StepAt(v: Value, i: nat)
    requires Projection.Projectable(v) && i < |Projection.Exact(v)|
    ensures i < |Projection.ProjectedSteps(v)|
    ensures Projection.ProjectedSteps(v)[i] == Projection.ProjectedStep(Projection.Exact(v)[i], Projection.Raw(v)[i])
  {
    hide Projection.Projectable, Projection.ProjectedStep;
  }

  lemma StepWritten(v: Value, place: Place)
    requires Projection.Projectable(v) && InQuote(place, |Projection.Exact(v)|)
    requires place.StepInput? || place.StepFloor? || place.StepExpected? || place.StepMinimum?
    ensures At(Projection.Projected(v), place) == Exact(v, place, |Projection.Exact(v)|)
  {
    hide Projection.INTENT, Projection.ROUTE, Projection.SUMMARY, Projection.STEPS, Projection.CONTINUATION,
      Projection.ESTIMATED_INPUT, Projection.INPUT, Projection.EXPECTED_INPUT, Projection.MINIMUM_INPUT,
      Projection.FLOOR_INPUT, Projection.EXPECTED_OUTPUT, Projection.MINIMUM_OUTPUT, Keys, PutAll, Drop,
      DistinctKeys, Lookup, Get, Projection.Projectable, Projection.Projected, Projection.ProjectedStep,
      Projection.ProjectedSteps, Projection.StepsUnder, Projection.ExactStep;
    Projection.ProjectedProjectable(v);
    StepAt(v, place.i);
    StepMembers(Projection.Exact(v)[place.i], Projection.Raw(v)[place.i]);
  }

  lemma ProjectedAt(v: Value, place: Place)
    requires Projection.Projectable(v) && InQuote(place, |Projection.Exact(v)|)
    ensures At(Projection.Projected(v), place) == Exact(v, place, |Projection.Exact(v)|)
  {
    hide Projection.Projectable, Projection.Projected, At, Exact;
    match place
    case EstimatedInput => HeadWritten(v, place);
    case RouteInput => HeadWritten(v, place);
    case RouteExpected => HeadWritten(v, place);
    case RouteMinimum => HeadWritten(v, place);
    case _ => StepWritten(v, place);
  }

  // ----- accepted quotes -----

  /** An amount and its raw number at one place. */
  lemma PlaceBound(ctx: Context, def: RouteDef, q: Quote, v: Value, place: Place) returns (a: Amount)
    requires ValidQuote(ctx, def, q) && Stands(q, v) && InQuote(place, |q.summary.steps|)
    ensures AmountOk(a) && AmountIs(a, Exact(v, place, |q.summary.steps|)) && RawNumberMatches(ctx, RawOf(At(v, place)), a)
  {
    var steps, n := q.summary.steps, |q.summary.steps|;
    var i := if place.StepInput? || place.StepFloor? || place.StepExpected? || place.StepMinimum? then place.i
             else if place.EstimatedInput? || place.RouteInput? then 0 else n - 1;
    assert StepOk(ctx, StepsFor(def, q), steps, q.route.steps, q.intent.from.chain, i);
    assert StepIs(v, i, steps[i], q.route.steps[i]);
    hide StepPlanOk, AmountOk, AmountIs, RawNumberMatches, RawOf, UnderStep, Under, CeilGuardFloor, Scanner.Safe;
    a := match place
         case EstimatedInput => steps[0].expectedInput
         case RouteInput => steps[0].expectedInput
         case RouteExpected => steps[n - 1].expectedOutput
         case RouteMinimum => steps[n - 1].minimumOutput
         case StepInput(_) => steps[i].expectedInput
         case StepFloor(_) => steps[i].minimumInput
         case StepExpected(_) => steps[i].expectedOutput
         case StepMinimum(_) => steps[i].minimumOutput;
  }

  /** A quote that the validator accepts can be projected. */
  lemma AcceptedProjectable(ctx: Context, def: RouteDef, q: Quote, v: Value)
    requires ValidQuote(ctx, def, q) && Stands(q, v)
    ensures Projection.Projectable(v) && |Projection.Exact(v)| == |q.summary.steps|
  {
    var n := |q.summary.steps|;
    forall i | 0 <= i < n ensures Projection.ExactStep(Projection.StepsUnder(v, Projection.SUMMARY).value[i]) {
      assert StepOk(ctx, StepsFor(def, q), q.summary.steps, q.route.steps, q.intent.from.chain, i);
      assert StepIs(v, i, q.summary.steps[i], q.route.steps[i]);
      AmountText(q.summary.steps[i].expectedInput, UnderStep(v, Projection.SUMMARY, i, Projection.EXPECTED_INPUT));
      AmountText(q.summary.steps[i].minimumInput, UnderStep(v, Projection.SUMMARY, i, Projection.MINIMUM_INPUT));
      AmountText(q.summary.steps[i].expectedOutput, UnderStep(v, Projection.SUMMARY, i, Projection.EXPECTED_OUTPUT));
      AmountText(q.summary.steps[i].minimumOutput, UnderStep(v, Projection.SUMMARY, i, Projection.MINIMUM_OUTPUT));
    }
  }

  /** At every place, the projection of an accepted quote holds a positive decimal text, and the number that it
      replaces is Number() of that text. */
  lemma ProjectionKeepsNumbers(ctx: Context, def: RouteDef, q: Quote, v: Value, place: Place)
    requires ValidQuote(ctx, def, q) && Stands(q, v) && InQuote(place, |q.summary.steps|)
    ensures Projection.Projectable(v)
    ensures At(Projection.Projected(v), place).Some? && Projection.BaseUnits(At(Projection.Projected(v), place).value)
    ensures var n := Decimal(At(Projection.Projected(v), place).value.text);
            n > 0 && RawOf(At(v, place)) == Whole(ctx.toNumber(n))
  {
    AcceptedProjectable(ctx, def, q, v);
    ProjectedAt(v, place);
    var a := PlaceBound(ctx, def, q, v, place);
    hide ValidQuote, Stands, Projection.Projectable, Projection.Projected, At;
    AmountText(a, Exact(v, place, |q.summary.steps|));
    PositiveAmount(a);
  }

  /** Where Number() is exact, below 2^53, the text denotes the very number that it replaces. */
  lemma ProjectionKeepsValue(ctx: Context, def: RouteDef, q: Quote, v: Value, place: Place)
    requires forall n: nat | n < 0x20_0000_0000_0000 :: ctx.toNumber(n) == n
    requires ValidQuote(ctx, def, q) && Stands(q, v) && InQuote(place, |q.summary.steps|)
    ensures Projection.Projectable(v) && At(Projection.Projected(v), place).Some? && At(Projection.Projected(v), place).value.Str?
    ensures var n := Decimal(At(Projection.Projected(v), place).value.text);
            n < 0x20_0000_0000_0000 ==> RawOf(At(v, place)) == Whole(n)
  {
    ProjectionKeepsNumbers(ctx, def, q, v, place);
    hide ValidQuote, Stands, Projection.Projectable, Projection.Projected, At, RawOf, Decimal;
  }
}
