/** quotePayloadV3Projection (src/continuation-v3.js): the quote whose typed encoding is hashed. The exact decimal
    texts of the route summary replace the raw numbers that duplicate them, and the continuation is taken out. */
module Projection {
  import opened Wrappers
  import opened Unicode
  import opened Json
  import opened Members
  import opened TypedCanonical
  import opened TypedDecoding

  /** The code units of an ASCII name. */
  function Name(s: string): (t: Text)
    ensures |t| == |s|
  {
    seq(|s|, i requires 0 <= i < |s| => s[i] as int % 128)
  }

  const CONTINUATION := Name("continuation_v3")
  const SUMMARY := Name("direct_route_summary")
  const INTENT := Name("intent")
  const ROUTE := Name("route")
  const STEPS := Name("steps")
  const ESTIMATED_INPUT := Name("estimated_input_base")
  const INPUT := Name("input_base")
  const EXPECTED_INPUT := Name("expected_input_base")
  const MINIMUM_INPUT := Name("minimum_input_base")
  const FLOOR_INPUT := Name("floor_input_base")
  const EXPECTED_OUTPUT := Name("expected_output_base")
  const MINIMUM_OUTPUT := Name("minimum_output_base")

  lemma NamesDiffer()
    ensures INTENT != ROUTE && CONTINUATION != INTENT && CONTINUATION != ROUTE
    ensures SUMMARY != INTENT && SUMMARY != ROUTE && SUMMARY != CONTINUATION
    ensures INPUT != EXPECTED_OUTPUT && INPUT != MINIMUM_OUTPUT && EXPECTED_OUTPUT != MINIMUM_OUTPUT
    ensures STEPS != INPUT && STEPS != EXPECTED_OUTPUT && STEPS != MINIMUM_OUTPUT
    ensures EXPECTED_INPUT != FLOOR_INPUT && EXPECTED_INPUT != EXPECTED_OUTPUT && EXPECTED_INPUT != MINIMUM_OUTPUT
    ensures FLOOR_INPUT != EXPECTED_OUTPUT && FLOOR_INPUT != MINIMUM_OUTPUT
  {
    assert MINIMUM_OUTPUT[0] == 109 && EXPECTED_INPUT[0] == 101;
  }

  // ----- what can be projected -----

  /** /^[1-9][0-9]*$/ */
  predicate BaseUnits(v: Value) {
    v.Str? && v.text != [] && v.text[0] != 48 && forall i | 0 <= i < |v.text| :: 48 <= v.text[i] <= 57
  }

  predicate ExactAmount(step: Value, key: Text) {
    Get(step, key).Some? && BaseUnits(Get(step, key).value)
  }

  predicate ExactStep(step: Value) {
    && ExactAmount(step, EXPECTED_INPUT) && ExactAmount(step, MINIMUM_INPUT)
    && ExactAmount(step, EXPECTED_OUTPUT) && ExactAmount(step, MINIMUM_OUTPUT)
  }

  /** value?.key?.steps, when it is an array. */
  function StepsUnder(q: Value, key: Text): Option<seq<Value>> {
    match Get(q, key)
    case None => None
    case Some(part) =>
      match Get(part, STEPS)
      case Some(Arr(items)) => Some(items)
      case _ => None
  }

  /** A quote with an intent, exact amounts on every summary step, and as many raw steps to put them on. */
  predicate Projectable(q: Value) {
    && Get(q, INTENT).Some? && Get(q, INTENT).value.Obj?
    && StepsUnder(q, SUMMARY).Some? && StepsUnder(q, ROUTE).Some?
    && StepsUnder(q, SUMMARY).value != [] && |StepsUnder(q, SUMMARY).value| == |StepsUnder(q, ROUTE).value|
    && (forall i | 0 <= i < |StepsUnder(q, SUMMARY).value| :: ExactStep(StepsUnder(q, SUMMARY).value[i]))
    && (forall i | 0 <= i < |StepsUnder(q, ROUTE).value| :: StepsUnder(q, ROUTE).value[i].Obj?)
  }

  // ----- the projection -----

  /** The steps of the summary, which hold the exact amounts. */
  function Exact(q: Value): (steps: seq<Value>)
    requires Projectable(q)
    ensures steps != [] && StepsUnder(q, SUMMARY) == Some(steps)
    ensures forall i | 0 <= i < |steps| :: ExactStep(steps[i])
  {
    StepsUnder(q, SUMMARY).value
  }

  /** The raw steps of the route. */
  function Raw(q: Value): (steps: seq<Value>)
    requires Projectable(q)
    ensures |steps| == |Exact(q)| && StepsUnder(q, ROUTE) == Some(steps)
    ensures forall i | 0 <= i < |steps| :: steps[i].Obj?
  {
    StepsUnder(q, ROUTE).value
  }

  function IntentFields(q: Value): (fields: seq<Field>)
    requires Projectable(q)
    ensures Get(q, INTENT) == Some(Obj(fields))
  {
    Get(q, INTENT).value.fields
  }

  function RouteFields(q: Value): (fields: seq<Field>)
    requires Projectable(q)
    ensures Get(q, ROUTE) == Some(Obj(fields))
  {
    Get(q, ROUTE).value.fields
  }


  function IntentUpdates(exact: seq<Value>): seq<Field>
    requires exact != [] && ExactStep(exact[0])
  {
    [Field(ESTIMATED_INPUT, Get(exact[0], EXPECTED_INPUT).value)]
  }

  function RouteUpdates(exact: seq<Value>, steps: seq<Value>): seq<Field>
    requires exact != [] && ExactStep(exact[0]) && ExactStep(exact[|exact| - 1])
  {
    [Field(INPUT, Get(exact[0], EXPECTED_INPUT).value),
     Field(EXPECTED_OUTPUT, Get(exact[|exact| - 1], EXPECTED_OUTPUT).value),
     Field(MINIMUM_OUTPUT, Get(exact[|exact| - 1], MINIMUM_OUTPUT).value),
     Field(STEPS, Arr(steps))]
  }

  function StepUpdates(exact: Value): seq<Field>
    requires ExactStep(exact)
  {
    [Field(EXPECTED_INPUT, Get(exact, EXPECTED_INPUT).value),
     Field(FLOOR_INPUT, Get(exact, MINIMUM_INPUT).value),
     Field(EXPECTED_OUTPUT, Get(exact, EXPECTED_OUTPUT).value),
     Field(MINIMUM_OUTPUT, Get(exact, MINIMUM_OUTPUT).value)]
  }

  function ProjectedStep(exact: Value, raw: Value): Value
    requires ExactStep(exact) && raw.Obj?
  {
    Obj(PutAll(raw.fields, StepUpdates(exact)))
  }

  function ProjectedSteps(q: Value): (steps: seq<Value>)
    requires Projectable(q)
  {
    var exact, raw := Exact(q), Raw(q);
    seq(|raw|, i requires 0 <= i < |raw| => ProjectedStep(exact[i], raw[i]))
  }

  function TopUpdates(intent: Value, route: Value): seq<Field> {
    [Field(INTENT, intent), Field(ROUTE, route)]
  }

  function ProjectedIntent(q: Value): Value
    requires Projectable(q)
  {
    Obj(PutAll(IntentFields(q), IntentUpdates(Exact(q))))
  }

  function ProjectedRoute(q: Value): Value
    requires Projectable(q)
  {
    Obj(PutAll(RouteFields(q), RouteUpdates(Exact(q), ProjectedSteps(q))))
  }

  function Projected(q: Value): Value
    requires Projectable(q)
  {
    Obj(PutAll(Drop(q.fields, {CONTINUATION}), TopUpdates(ProjectedIntent(q), ProjectedRoute(q))))
  }

  // ----- what it keeps -----

  const STEP_PATHS := {EXPECTED_INPUT, FLOOR_INPUT, EXPECTED_OUTPUT, MINIMUM_OUTPUT}
  const ROUTE_PATHS := {INPUT, EXPECTED_OUTPUT, MINIMUM_OUTPUT}

  function ErasedSteps(q: Value): seq<Value>
    requires Projectable(q)
  {
    var raw := Raw(q);
    seq(|raw|, i requires 0 <= i < |raw| => Obj(Drop(raw[i].fields, STEP_PATHS)))
  }

  function ErasedIntent(q: Value): Value
    requires Projectable(q)
  {
    Obj(Drop(IntentFields(q), {ESTIMATED_INPUT}))
  }

  function ErasedRoute(q: Value): Value
    requires Projectable(q)
  {
    Obj(PutAll(Drop(RouteFields(q), ROUTE_PATHS), [Field(STEPS, Arr(ErasedSteps(q)))]))
  }

  /** The quote without its continuation and without the members that its summary duplicates. */
  function Erased(q: Value): Value
    requires Projectable(q)
  {
    Obj(PutAll(Drop(q.fields, {CONTINUATION}), TopUpdates(ErasedIntent(q), ErasedRoute(q))))
  }

  /** Members of a well-formed quote are well formed. */
  lemma PartsWf(v: Value, k: Text)
    requires Wf(v) && Get(v, k).Some?
    ensures Wf(Get(v, k).value)
  {
  }

  /** Equal values have equal parts. */
  lemma SameParts(v: Value, w: Value, k: Text)
    requires Wf(v) && Wf(w) && Same(v, w)
    ensures SameOption(Get(v, k), Get(w, k))
  {
    if v.Obj? {
      SameLooksAlike(v.fields, w.fields, k);
    }
  }

  /** Quotes whose untouched parts are equal have the same exact amounts. */
  lemma SameExact(p: Value, q: Value, rest: set<Text>)
    requires Wf(p) && Wf(q) && Projectable(p) && Projectable(q) && SUMMARY !in rest
    requires Same(Obj(Drop(p.fields, rest)), Obj(Drop(q.fields, rest)))
    ensures SameUpdates(p, q)
  {
    SameSummaries(p, q, rest);
    var v, w := Get(p, SUMMARY).value, Get(q, SUMMARY).value;
    SameParts(v, w, STEPS);
    PartsWf(v, STEPS);
    PartsWf(w, STEPS);
    var a, b := Exact(p), Exact(q);
    assert Same(Arr(a), Arr(b)) && Wf(Arr(a)) && Wf(Arr(b));
    forall i | 0 <= i < |a| ensures StepUpdates(a[i]) == StepUpdates(b[i]) {
      SameAmounts(a[i], b[i]);
    }
  }

  lemma SameSummaries(p: Value, q: Value, rest: set<Text>)
    requires Wf(p) && Wf(q) && p.Obj? && q.Obj? && SUMMARY !in rest && Get(p, SUMMARY).Some?
    requires Same(Obj(Drop(p.fields, rest)), Obj(Drop(q.fields, rest)))
    ensures Get(q, SUMMARY).Some? && Same(Get(p, SUMMARY).value, Get(q, SUMMARY).value)
    ensures Wf(Get(p, SUMMARY).value) && Wf(Get(q, SUMMARY).value)
  {
    DropDistinct(p.fields, rest);
    DropDistinct(q.fields, rest);
    SameLooksAlike(Drop(p.fields, rest), Drop(q.fields, rest), SUMMARY);
    LookupDrop(p.fields, rest, SUMMARY);
    LookupDrop(q.fields, rest, SUMMARY);
    PartsWf(p, SUMMARY);
    PartsWf(q, SUMMARY);
  }

  /** The two quotes' summaries put the same texts on their raw steps. */
  ghost predicate SameUpdates(p: Value, q: Value)
    requires Projectable(p) && Projectable(q)
  {
    var a, b := Exact(p), Exact(q);
    |a| == |b| && forall i | 0 <= i < |a| :: StepUpdates(a[i]) == StepUpdates(b[i])
  }

  lemma SameAmounts(a: Value, b: Value)
    requires Wf(a) && Wf(b) && Same(a, b) && ExactStep(a) && ExactStep(b)
    ensures StepUpdates(a) == StepUpdates(b)
  {
    SameParts(a, b, EXPECTED_INPUT);
    SameParts(a, b, MINIMUM_INPUT);
    SameParts(a, b, EXPECTED_OUTPUT);
    SameParts(a, b, MINIMUM_OUTPUT);
  }

  lemma WfDistinct(v: Value)
    requires Wf(v) && v.Obj?
    ensures DistinctKeys(v.fields)
  {
  }

  lemma StepsWf(q: Value, key: Text)
    requires Wf(q) && StepsUnder(q, key).Some?
    ensures Wf(Get(q, key).value)
    ensures forall i | 0 <= i < |StepsUnder(q, key).value| :: Wf(StepsUnder(q, key).value[i])
  {
    PartsWf(q, key);
    PartsWf(Get(q, key).value, STEPS);
  }

  lemma ProjectedStepSame(a: Value, exactA: Value, b: Value, exactB: Value)
    requires Wf(a) && Wf(b) && a.Obj? && b.Obj? && ExactStep(exactA) && ExactStep(exactB) && StepUpdates(exactA) == StepUpdates(exactB)
    ensures Same(ProjectedStep(exactA, a), ProjectedStep(exactB, b)) <==>
            Same(Obj(Drop(a.fields, STEP_PATHS)), Obj(Drop(b.fields, STEP_PATHS)))
  {
    hide StepUpdates;
    StepUpdatesKeys(exactA);
    OverwrittenAlike(a.fields, b.fields, StepUpdates(exactA), STEP_PATHS);
  }

  lemma StepUpdatesKeys(exact: Value)
    requires ExactStep(exact)
    ensures DistinctKeys(StepUpdates(exact)) && Keys(StepUpdates(exact)) == STEP_PATHS
    ensures forall i | 0 <= i < |StepUpdates(exact)| :: StepUpdates(exact)[i].value.Str?
  {
    NamesDiffer();
    FourKeys(StepUpdates(exact));
  }

  lemma SameItems(a: seq<Value>, b: seq<Value>)
    ensures Same(Arr(a), Arr(b)) <==> |a| == |b| && forall i | 0 <= i < |a| :: Same(a[i], b[i])
  {
  }

  lemma StepsSame(p: Value, q: Value)
    requires Wf(p) && Wf(q) && Projectable(p) && Projectable(q) && SameUpdates(p, q)
    ensures Same(Arr(ProjectedSteps(p)), Arr(ProjectedSteps(q))) <==> Same(Arr(ErasedSteps(p)), Arr(ErasedSteps(q)))
  {
    StepsWf(p, ROUTE);
    StepsWf(q, ROUTE);
    hide Same, StepUpdates, Wf, ExactStep, PutAll, Drop;
    var exactP, exactQ := Exact(p), Exact(q);
    var rawP, rawQ := Raw(p), Raw(q);
    forall i | 0 <= i < |rawP|
      ensures Same(ProjectedSteps(p)[i], ProjectedSteps(q)[i]) <==> Same(ErasedSteps(p)[i], ErasedSteps(q)[i])
    {
      ProjectedStepSame(rawP[i], exactP[i], rawQ[i], exactQ[i]);
    }
    SameItems(ProjectedSteps(p), ProjectedSteps(q));
    SameItems(ErasedSteps(p), ErasedSteps(q));
  }

  lemma IntentUpdatesAgree(p: Value, q: Value)
    requires Projectable(p) && Projectable(q) && SameUpdates(p, q)
    ensures IntentUpdates(Exact(p)) == IntentUpdates(Exact(q))
  {
    hide Projectable, StepUpdates, Get;
    StepUpdatesOf(Exact(p)[0], Exact(q)[0]);
  }

  lemma IntentUpdatesKeys(exact: seq<Value>)
    requires exact != [] && ExactStep(exact[0])
    ensures DistinctKeys(IntentUpdates(exact)) && Keys(IntentUpdates(exact)) == {ESTIMATED_INPUT}
    ensures forall i | 0 <= i < |IntentUpdates(exact)| :: IntentUpdates(exact)[i].value.Str?
  {
    OneKey(IntentUpdates(exact));
  }

  lemma IntentSame(p: Value, q: Value)
    requires Wf(p) && Wf(q) && Projectable(p) && Projectable(q) && SameUpdates(p, q)
    ensures Same(ProjectedIntent(p), ProjectedIntent(q)) <==> Same(ErasedIntent(p), ErasedIntent(q))
  {
    hide Projectable, IntentUpdates, SameUpdates, Same;
    var f, g := IntentFields(p), IntentFields(q);
    PartsWf(p, INTENT);
    PartsWf(q, INTENT);
    IntentUpdatesAgree(p, q);
    IntentUpdatesKeys(Exact(p));
    OverwrittenAlike(f, g, IntentUpdates(Exact(p)), {ESTIMATED_INPUT});
  }

  lemma RouteSame(p: Value, q: Value)
    requires Wf(p) && Wf(q) && Projectable(p) && Projectable(q) && SameUpdates(p, q)
    ensures Same(ProjectedRoute(p), ProjectedRoute(q)) <==> Same(ErasedRoute(p), ErasedRoute(q))
  {
    PartsWf(p, ROUTE);
    PartsWf(q, ROUTE);
    StepsSame(p, q);
    RouteProjectionSame(p, q);
    RouteErasureSame(p, q);
  }

  lemma RouteProjectionSame(p: Value, q: Value)
    requires Projectable(p) && Projectable(q) && SameUpdates(p, q)
    requires DistinctKeys(RouteFields(p)) && DistinctKeys(RouteFields(q))
    ensures Same(ProjectedRoute(p), ProjectedRoute(q)) <==>
            && Same(Obj(Drop(RouteFields(p), ROUTE_PATHS + {STEPS})), Obj(Drop(RouteFields(q), ROUTE_PATHS + {STEPS})))
            && Same(Arr(ProjectedSteps(p)), Arr(ProjectedSteps(q)))
  {
    hide RouteUpdates, ProjectedSteps, Same;
    var u := RouteUpdates(Exact(p), ProjectedSteps(p));
    var v := RouteUpdates(Exact(q), ProjectedSteps(q));
    RouteUpdatesKeys(Exact(p), ProjectedSteps(p));
    RouteUpdatesKeys(Exact(q), ProjectedSteps(q));
    RouteUpdatesAgree(p, q);
    OverwrittenSame(RouteFields(p), u, RouteFields(q), v);
  }

  lemma RouteUpdatesKeys(exact: seq<Value>, steps: seq<Value>)
    requires exact != [] && ExactStep(exact[0]) && ExactStep(exact[|exact| - 1])
    ensures DistinctKeys(RouteUpdates(exact, steps)) && Keys(RouteUpdates(exact, steps)) == ROUTE_PATHS + {STEPS}
  {
    NamesDiffer();
    FourKeys(RouteUpdates(exact, steps));
  }

  lemma RouteUpdatesAgree(p: Value, q: Value)
    requires Projectable(p) && Projectable(q) && SameUpdates(p, q)
    ensures var u := RouteUpdates(Exact(p), ProjectedSteps(p));
            var v := RouteUpdates(Exact(q), ProjectedSteps(q));
            && SameKeys(u, v)
            && ((forall i | 0 <= i < |u| :: Same(u[i].value, v[i].value)) <==> Same(Arr(ProjectedSteps(p)), Arr(ProjectedSteps(q))))
  {
    hide ProjectedSteps, StepsUnder, Get;
    var a, b := Exact(p), Exact(q);
    StepUpdatesOf(a[0], b[0]);
    StepUpdatesOf(a[|a| - 1], b[|b| - 1]);
    var u, v := RouteUpdates(a, ProjectedSteps(p)), RouteUpdates(b, ProjectedSteps(q));
    assert u[3].value == Arr(ProjectedSteps(p)) && v[3].value == Arr(ProjectedSteps(q));
    assert u[..3] == v[..3];
    assert forall i | 0 <= i < 3 :: u[i].value == v[i].value && u[i].value.Str?;
  }

  lemma StepUpdatesOf(a: Value, b: Value)
    requires ExactStep(a) && ExactStep(b) && StepUpdates(a) == StepUpdates(b)
    ensures Get(a, EXPECTED_INPUT) == Get(b, EXPECTED_INPUT)
    ensures Get(a, EXPECTED_OUTPUT) == Get(b, EXPECTED_OUTPUT)
    ensures Get(a, MINIMUM_OUTPUT) == Get(b, MINIMUM_OUTPUT)
  {
    assert StepUpdates(a)[0] == StepUpdates(b)[0] && StepUpdates(a)[2] == StepUpdates(b)[2] && StepUpdates(a)[3] == StepUpdates(b)[3];
  }

  lemma RouteErasureSame(p: Value, q: Value)
    requires Projectable(p) && Projectable(q)
    requires DistinctKeys(RouteFields(p)) && DistinctKeys(RouteFields(q))
    ensures Same(ErasedRoute(p), ErasedRoute(q)) <==>
            && Same(Obj(Drop(RouteFields(p), ROUTE_PATHS + {STEPS})), Obj(Drop(RouteFields(q), ROUTE_PATHS + {STEPS})))
            && Same(Arr(ErasedSteps(p)), Arr(ErasedSteps(q)))
  {
    hide PutAll, Drop, ErasedSteps, DistinctKeys, Same, Projectable;
    var f, g := RouteFields(p), RouteFields(q);
    DropDistinct(f, ROUTE_PATHS);
    DropDistinct(g, ROUTE_PATHS);
    OneOverwritten(Drop(f, ROUTE_PATHS), Arr(ErasedSteps(p)), Drop(g, ROUTE_PATHS), Arr(ErasedSteps(q)), STEPS);
    DropTwice(f, ROUTE_PATHS, {STEPS});
    DropTwice(g, ROUTE_PATHS, {STEPS});
  }

  /** Objects with an intent and a route put on them are equal when the rest, the intents and the routes are. */
  lemma TopSame(f: seq<Field>, intentF: Value, routeF: Value, g: seq<Field>, intentG: Value, routeG: Value)
    requires DistinctKeys(f) && DistinctKeys(g)
    ensures Same(Obj(PutAll(f, TopUpdates(intentF, routeF))), Obj(PutAll(g, TopUpdates(intentG, routeG)))) <==>
            && Same(Obj(Drop(f, {INTENT, ROUTE})), Obj(Drop(g, {INTENT, ROUTE}))) && Same(intentF, intentG) && Same(routeF, routeG)
  {
    hide Same, PutAll, Drop, KeySet, DistinctKeys, Wf, CONTINUATION, SUMMARY, INTENT, ROUTE, STEPS,
         ESTIMATED_INPUT, INPUT, EXPECTED_INPUT, MINIMUM_INPUT, FLOOR_INPUT, EXPECTED_OUTPUT, MINIMUM_OUTPUT;
    NamesDiffer();
    var u, v := TopUpdates(intentF, routeF), TopUpdates(intentG, routeG);
    TwoKeys(u);
    TwoKeys(v);
    OverwrittenSame(f, u, g, v);
    assert u[0].value == intentF && u[1].value == routeF && v[0].value == intentG && v[1].value == routeG;
  }

  function Rest(q: Value): Value
    requires q.Obj?
  {
    Obj(Drop(q.fields, {CONTINUATION, INTENT, ROUTE}))
  }

  lemma RestOf(f: seq<Field>)
    ensures Drop(Drop(f, {CONTINUATION}), {INTENT, ROUTE}) == Drop(f, {CONTINUATION, INTENT, ROUTE})
  {
    DropTwice(f, {CONTINUATION}, {INTENT, ROUTE});
    assert {CONTINUATION} + {INTENT, ROUTE} == {CONTINUATION, INTENT, ROUTE};
  }

  lemma TopProjected(p: Value, q: Value)
    requires Wf(p) && Wf(q) && Projectable(p) && Projectable(q)
    ensures Same(Projected(p), Projected(q)) <==>
            Same(Rest(p), Rest(q)) && Same(ProjectedIntent(p), ProjectedIntent(q)) && Same(ProjectedRoute(p), ProjectedRoute(q))
  {
    hide Same, PutAll, Drop, ProjectedIntent, ProjectedRoute, TopUpdates;
    RestOf(p.fields);
    RestOf(q.fields);
    DropDistinct(p.fields, {CONTINUATION});
    DropDistinct(q.fields, {CONTINUATION});
    TopSame(Drop(p.fields, {CONTINUATION}), ProjectedIntent(p), ProjectedRoute(p),
            Drop(q.fields, {CONTINUATION}), ProjectedIntent(q), ProjectedRoute(q));
  }

  lemma TopErased(p: Value, q: Value)
    requires Wf(p) && Wf(q) && Projectable(p) && Projectable(q)
    ensures Same(Erased(p), Erased(q)) <==>
            Same(Rest(p), Rest(q)) && Same(ErasedIntent(p), ErasedIntent(q)) && Same(ErasedRoute(p), ErasedRoute(q))
  {
    hide Same, PutAll, Drop, ErasedIntent, ErasedRoute, TopUpdates;
    RestOf(p.fields);
    RestOf(q.fields);
    DropDistinct(p.fields, {CONTINUATION});
    DropDistinct(q.fields, {CONTINUATION});
    TopSame(Drop(p.fields, {CONTINUATION}), ErasedIntent(p), ErasedRoute(p),
            Drop(q.fields, {CONTINUATION}), ErasedIntent(q), ErasedRoute(q));
  }

  lemma SameRest(p: Value, q: Value)
    requires Wf(p) && Wf(q) && Projectable(p) && Projectable(q) && Same(Rest(p), Rest(q))
    ensures SameUpdates(p, q)
  {
    hide Same, Wf, SameUpdates, Projectable, CONTINUATION, INTENT, ROUTE, SUMMARY;
    SummaryStays();
    SameExact(p, q, {CONTINUATION, INTENT, ROUTE});
  }

  lemma SummaryStays()
    ensures SUMMARY !in {CONTINUATION, INTENT, ROUTE}
  {
    NamesDiffer();
  }

  lemma RestSame(p: Value, q: Value)
    requires Wf(p) && Wf(q) && Projectable(p) && Projectable(q) && Same(Rest(p), Rest(q))
    ensures Same(ProjectedIntent(p), ProjectedIntent(q)) <==> Same(ErasedIntent(p), ErasedIntent(q))
    ensures Same(ProjectedRoute(p), ProjectedRoute(q)) <==> Same(ErasedRoute(p), ErasedRoute(q))
  {
    hide Same, Wf, SameUpdates, Projectable, Rest;
    SameRest(p, q);
    IntentSame(p, q);
    RouteSame(p, q);
  }

  /** Two quotes project to equal values exactly when they are equal outside the continuation and the paths for
      which the summary is exact. */
  lemma ProjectionErases(p: Value, q: Value)
    requires Wf(p) && Wf(q) && Projectable(p) && Projectable(q)
    ensures Same(Projected(p), Projected(q)) <==> Same(Erased(p), Erased(q))
  {
    TopProjected(p, q);
    TopErased(p, q);
    hide Projected, Erased, ProjectedIntent, ProjectedRoute, ErasedIntent, ErasedRoute, Same, Wf, Rest;
    if Same(Rest(p), Rest(q)) {
      RestSame(p, q);
    }
  }

  // ----- projecting again -----

  /** The parts of a projection. */
  lemma ProjectedParts(q: Value)
    requires Projectable(q)
    ensures Get(Projected(q), SUMMARY) == Get(q, SUMMARY)
    ensures Get(Projected(q), INTENT) == Some(ProjectedIntent(q)) && Get(Projected(q), ROUTE) == Some(ProjectedRoute(q))
    ensures Get(Projected(q), CONTINUATION).None?
  {
    hide ProjectedIntent, ProjectedRoute, Projectable, Drop, PutAll, Keys, CONTINUATION, SUMMARY, INTENT, ROUTE;
    NamesDiffer();
    NoMembers(q);
    var rest, u := Drop(q.fields, {CONTINUATION}), TopUpdates(ProjectedIntent(q), ProjectedRoute(q));
    TwoKeys(u);
    LookupAt(u, 0);
    LookupAt(u, 1);
    LookupPutAll(rest, u, SUMMARY);
    LookupPutAll(rest, u, INTENT);
    LookupPutAll(rest, u, ROUTE);
    LookupPutAll(rest, u, CONTINUATION);
    LookupDrop(q.fields, {CONTINUATION}, SUMMARY);
    LookupDrop(q.fields, {CONTINUATION}, CONTINUATION);
  }

  lemma ProjectedRouteSteps(q: Value)
    requires Projectable(q)
    ensures Get(ProjectedRoute(q), STEPS) == Some(Arr(ProjectedSteps(q)))
  {
    hide ProjectedSteps, STEPS;
    var u := RouteUpdates(Exact(q), ProjectedSteps(q));
    RouteUpdatesKeys(Exact(q), ProjectedSteps(q));
    LookupAt(u, 3);
    LookupPutAll(RouteFields(q), u, STEPS);
  }

  lemma ProjectedProjectable(q: Value)
    requires Projectable(q)
    ensures Projectable(Projected(q))
    ensures StepsUnder(Projected(q), SUMMARY) == StepsUnder(q, SUMMARY)
    ensures StepsUnder(Projected(q), ROUTE) == Some(ProjectedSteps(q))
  {
    hide Get, Projected, Projectable, ProjectedRoute, ExactStep, CONTINUATION, SUMMARY, INTENT, ROUTE, STEPS;
    ProjectedParts(q);
    ProjectedRouteSteps(q);
    StepsUnderSteps(Projected(q), ROUTE, ProjectedRoute(q), ProjectedSteps(q));
    ProjectableFrom(Projected(q), Exact(q), ProjectedSteps(q));
  }

  lemma StepsUnderSteps(q: Value, key: Text, part: Value, steps: seq<Value>)
    requires Get(q, key) == Some(part) && Get(part, STEPS) == Some(Arr(steps))
    ensures StepsUnder(q, key) == Some(steps)
  {
  }

  lemma ProjectableFrom(q: Value, exact: seq<Value>, raw: seq<Value>)
    requires Get(q, INTENT).Some? && Get(q, INTENT).value.Obj?
    requires StepsUnder(q, SUMMARY) == Some(exact) && exact != [] && forall i | 0 <= i < |exact| :: ExactStep(exact[i])
    requires StepsUnder(q, ROUTE) == Some(raw) && |raw| == |exact| && forall i | 0 <= i < |raw| :: raw[i].Obj?
    ensures Projectable(q)
  {
  }

  lemma StepsTwice(q: Value)
    requires Projectable(q) && Projectable(Projected(q))
    requires StepsUnder(Projected(q), SUMMARY) == StepsUnder(q, SUMMARY) && StepsUnder(Projected(q), ROUTE) == Some(ProjectedSteps(q))
    ensures ProjectedSteps(Projected(q)) == ProjectedSteps(q)
  {
    hide Projected, Projectable, ExactStep, StepUpdates;
    var exact, raw := Exact(q), Raw(q);
    forall i | 0 <= i < |raw| ensures ProjectedSteps(Projected(q))[i] == ProjectedSteps(q)[i] {
      StepUpdatesKeys(exact[i]);
      PutAllTwice(raw[i].fields, StepUpdates(exact[i]));
    }
  }

  /** Projecting twice is projecting once. */
  lemma ProjectionIdempotent(q: Value)
    requires Projectable(q)
    ensures Projectable(Projected(q)) && Projected(Projected(q)) == Projected(q)
  {
    hide Projectable, ProjectedSteps, IntentUpdates, RouteUpdates, TopUpdates, CONTINUATION, SUMMARY, INTENT, ROUTE, STEPS;
    ProjectedProjectable(q);
    ProjectedParts(q);
    StepsTwice(q);
    var exact, r := Exact(q), Projected(q);
    IntentTwice(q, exact);
    RouteUpdatesKeys(exact, ProjectedSteps(q));
    PutAllTwice(RouteFields(q), RouteUpdates(exact, ProjectedSteps(q)));
    assert ProjectedIntent(r) == ProjectedIntent(q) && ProjectedRoute(r) == ProjectedRoute(q);
    TopTwice(q);
  }

  lemma IntentTwice(q: Value, exact: seq<Value>)
    requires Projectable(q) && StepsUnder(q, SUMMARY) == Some(exact)
    ensures PutAll(PutAll(IntentFields(q), IntentUpdates(exact)), IntentUpdates(exact))
         == PutAll(IntentFields(q), IntentUpdates(exact))
  {
    OneKey(IntentUpdates(exact));
    PutAllTwice(IntentFields(q), IntentUpdates(exact));
  }

  lemma TopTwice(q: Value)
    requires Projectable(q)
    ensures Obj(PutAll(Drop(Projected(q).fields, {CONTINUATION}), TopUpdates(ProjectedIntent(q), ProjectedRoute(q)))) == Projected(q)
  {
    hide ProjectedIntent, ProjectedRoute, CONTINUATION, SUMMARY, INTENT, ROUTE;
    var r, u := Projected(q), TopUpdates(ProjectedIntent(q), ProjectedRoute(q));
    ProjectedParts(q);
    assert Lookup(r.fields, CONTINUATION).None?;
    DropAbsent(r.fields, {CONTINUATION});
    NamesDiffer();
    TwoKeys(u);
    PutAllTwice(Drop(q.fields, {CONTINUATION}), u);
  }

  // ----- the payload -----

  /** The bytes that are hashed. */
  function Payload(q: Value): Result<Bytes>
    requires Projectable(q)
  {
    Encode(Projected(q))
  }

  lemma NamesAccepted()
    ensures WellFormed(INTENT) && WellFormed(ROUTE) && WellFormed(STEPS) && WellFormed(ESTIMATED_INPUT) && WellFormed(INPUT)
    ensures WellFormed(EXPECTED_INPUT) && WellFormed(FLOOR_INPUT) && WellFormed(EXPECTED_OUTPUT) && WellFormed(MINIMUM_OUTPUT)
  {
    AsciiWellFormed(INTENT);
    AsciiWellFormed(ROUTE);
    AsciiWellFormed(STEPS);
    AsciiWellFormed(ESTIMATED_INPUT);
    AsciiWellFormed(INPUT);
    AsciiWellFormed(EXPECTED_INPUT);
    AsciiWellFormed(FLOOR_INPUT);
    AsciiWellFormed(EXPECTED_OUTPUT);
    AsciiWellFormed(MINIMUM_OUTPUT);
  }

  lemma AmountAccepted(v: Value)
    requires BaseUnits(v)
    ensures Accepted(v)
  {
    AsciiWellFormed(v.text);
  }

  lemma StepUpdatesAccepted(exact: Value)
    requires ExactStep(exact)
    ensures Accepted(Obj(StepUpdates(exact)))
  {
    hide WellFormed, BaseUnits;
    NamesAccepted();
    var u := StepUpdates(exact);
    forall i | 0 <= i < |u| ensures Accepted(u[i].value) {
      AmountAccepted(u[i].value);
    }
  }

  lemma ItemsAccepted(items: seq<Value>)
    ensures Accepted(Arr(items)) <==> forall i | 0 <= i < |items| :: Accepted(items[i])
  {
  }

  lemma StepsAccepted(q: Value)
    requires Wf(q) && Projectable(q)
    ensures Accepted(Arr(ProjectedSteps(q))) <==> Accepted(Arr(ErasedSteps(q)))
  {
    StepsWf(q, ROUTE);
    hide StepUpdates, ExactStep, Accepted;
    var exact, raw := Exact(q), Raw(q);
    forall i | 0 <= i < |raw| ensures Accepted(ProjectedSteps(q)[i]) <==> Accepted(ErasedSteps(q)[i]) {
      StepUpdatesKeys(exact[i]);
      StepUpdatesAccepted(exact[i]);
      OverwrittenAccepted(raw[i].fields, StepUpdates(exact[i]));
    }
    ItemsAccepted(ProjectedSteps(q));
    ItemsAccepted(ErasedSteps(q));
  }

  lemma IntentUpdatesAccepted(exact: seq<Value>)
    requires exact != [] && ExactStep(exact[0])
    ensures DistinctKeys(IntentUpdates(exact)) && Keys(IntentUpdates(exact)) == {ESTIMATED_INPUT}
    ensures Accepted(Obj(IntentUpdates(exact))) && Wf(Obj(IntentUpdates(exact)))
  {
    hide Get, EXPECTED_INPUT, MINIMUM_INPUT, EXPECTED_OUTPUT, MINIMUM_OUTPUT, ESTIMATED_INPUT;
    IntentUpdatesKeys(exact);
    NamesAccepted();
    AmountAccepted(IntentUpdates(exact)[0].value);
  }

  lemma IntentAccepted(q: Value)
    requires Wf(q) && Projectable(q)
    ensures Accepted(ProjectedIntent(q)) <==> Accepted(ErasedIntent(q))
  {
    hide Projectable, IntentUpdates, Accepted;
    var fields := IntentFields(q);
    PartsWf(q, INTENT);
    IntentUpdatesAccepted(Exact(q));
    OverwrittenAccepted(fields, IntentUpdates(Exact(q)));
  }

  lemma FourAccepted(u: seq<Field>)
    requires |u| == 4 && forall i | 0 <= i < 4 :: WellFormed(u[i].key)
    ensures Accepted(Obj(u)) <==> Accepted(u[0].value) && Accepted(u[1].value) && Accepted(u[2].value) && Accepted(u[3].value)
  {
    hide WellFormed;
  }

  lemma RouteUpdatesAccepted(exact: seq<Value>, steps: seq<Value>)
    requires exact != [] && ExactStep(exact[0]) && ExactStep(exact[|exact| - 1])
    ensures Accepted(Obj(RouteUpdates(exact, steps))) <==> Accepted(Arr(steps))
  {
    hide WellFormed, BaseUnits, Accepted, Get, EXPECTED_INPUT, EXPECTED_OUTPUT, MINIMUM_INPUT, MINIMUM_OUTPUT, STEPS, INPUT;
    NamesAccepted();
    AmountAccepted(Get(exact[0], EXPECTED_INPUT).value);
    AmountAccepted(Get(exact[|exact| - 1], EXPECTED_OUTPUT).value);
    AmountAccepted(Get(exact[|exact| - 1], MINIMUM_OUTPUT).value);
    FourAccepted(RouteUpdates(exact, steps));
  }

  lemma RouteAccepted(q: Value)
    requires Wf(q) && Projectable(q)
    ensures Accepted(ProjectedRoute(q)) <==> Accepted(ErasedRoute(q))
  {
    PartsWf(q, ROUTE);
    WfDistinct(Get(q, ROUTE).value);
    hide Projectable, Accepted, RouteUpdates, DistinctKeys, Wf;
    StepsAccepted(q);
    RouteUpdatesKeys(Exact(q), ProjectedSteps(q));
    OverwrittenAccepted(RouteFields(q), RouteUpdates(Exact(q), ProjectedSteps(q)));
    RouteUpdatesAccepted(Exact(q), ProjectedSteps(q));
    var s := [Field(STEPS, Arr(ErasedSteps(q)))];
    OneKey(s);
    DropDistinct(RouteFields(q), ROUTE_PATHS);
    OverwrittenAccepted(Drop(RouteFields(q), ROUTE_PATHS), s);
    DropTwice(RouteFields(q), ROUTE_PATHS, {STEPS});
    StepsFieldAccepted(ErasedSteps(q));
  }

  lemma StepsFieldAccepted(steps: seq<Value>)
    ensures Accepted(Obj([Field(STEPS, Arr(steps))])) <==> Accepted(Arr(steps))
  {
    hide WellFormed;
    NamesAccepted();
    var s := [Field(STEPS, Arr(steps))];
    assert s[0].value == Arr(steps);
  }

  lemma TopAccepted(f: seq<Field>, intent: Value, route: Value)
    requires DistinctKeys(f)
    ensures Accepted(Obj(PutAll(f, TopUpdates(intent, route)))) <==>
            Accepted(Obj(Drop(f, {INTENT, ROUTE}))) && Accepted(intent) && Accepted(route)
  {
    hide WellFormed;
    NamesDiffer();
    var u := TopUpdates(intent, route);
    TwoKeys(u);
    OverwrittenAccepted(f, u);
    NamesAccepted();
    assert u[0].value == intent && u[1].value == route;
  }

  /** The encoder refuses a projection only for something that the summary does not replace. */
  lemma PayloadAccepts(q: Value)
    requires Wf(q) && Projectable(q)
    ensures Payload(q).Ok? <==> Accepted(Erased(q))
  {
    EncodeAccepts(Projected(q));
    WfDistinct(q);
    hide Projectable, Accepted, TopUpdates, ProjectedIntent, ProjectedRoute, ErasedIntent, ErasedRoute, DistinctKeys, Wf;
    DropDistinct(q.fields, {CONTINUATION});
    TopAccepted(Drop(q.fields, {CONTINUATION}), ProjectedIntent(q), ProjectedRoute(q));
    TopAccepted(Drop(q.fields, {CONTINUATION}), ErasedIntent(q), ErasedRoute(q));
    IntentAccepted(q);
    RouteAccepted(q);
  }

  lemma WfTexts(u: seq<Field>)
    requires DistinctKeys(u) && forall i | 0 <= i < |u| :: Wf(u[i].value)
    ensures Wf(Obj(u))
  {
  }

  lemma ProjectedStepsWf(q: Value)
    requires Wf(q) && Projectable(q)
    ensures Wf(Arr(ProjectedSteps(q)))
  {
    StepsWf(q, ROUTE);
    hide Projectable, StepUpdates, ExactStep;
    forall i | 0 <= i < |Raw(q)| ensures Wf(ProjectedSteps(q)[i]) {
      StepUpdatesKeys(Exact(q)[i]);
      WfTexts(StepUpdates(Exact(q)[i]));
      OverwrittenWf(Raw(q)[i].fields, StepUpdates(Exact(q)[i]));
    }
  }

  lemma ProjectedIntentWf(q: Value)
    requires Wf(q) && Projectable(q)
    ensures Wf(ProjectedIntent(q))
  {
    hide Projectable, IntentUpdates;
    var fields := IntentFields(q);
    PartsWf(q, INTENT);
    IntentUpdatesAccepted(Exact(q));
    OverwrittenWf(fields, IntentUpdates(Exact(q)));
  }

  lemma FourWf(u: seq<Field>)
    requires |u| == 4 && DistinctKeys(u) && Wf(u[0].value) && Wf(u[1].value) && Wf(u[2].value) && Wf(u[3].value)
    ensures Wf(Obj(u))
  {
  }

  lemma RouteUpdatesWf(exact: seq<Value>, steps: seq<Value>)
    requires exact != [] && ExactStep(exact[0]) && ExactStep(exact[|exact| - 1]) && Wf(Arr(steps))
    ensures Wf(Obj(RouteUpdates(exact, steps)))
  {
    RouteUpdatesKeys(exact, steps);
    RouteUpdatesTexts(exact, steps);
    hide Wf, DistinctKeys, RouteUpdates;
    var u := RouteUpdates(exact, steps);
    TextWf(u[0].value);
    TextWf(u[1].value);
    TextWf(u[2].value);
    FourWf(u);
  }

  lemma RouteUpdatesTexts(exact: seq<Value>, steps: seq<Value>)
    requires exact != [] && ExactStep(exact[0]) && ExactStep(exact[|exact| - 1])
    ensures var u := RouteUpdates(exact, steps);
            |u| == 4 && u[0].value.Str? && u[1].value.Str? && u[2].value.Str? && u[3].value == Arr(steps)
  {
    hide Get, ExactAmount, INPUT, EXPECTED_INPUT, EXPECTED_OUTPUT, MINIMUM_INPUT, MINIMUM_OUTPUT, STEPS;
    AmountIsText(exact[0], EXPECTED_INPUT);
    AmountIsText(exact[|exact| - 1], EXPECTED_OUTPUT);
    AmountIsText(exact[|exact| - 1], MINIMUM_OUTPUT);
  }

  lemma AmountIsText(step: Value, key: Text)
    requires ExactAmount(step, key)
    ensures Get(step, key).Some? && Get(step, key).value.Str?
  {
  }

  lemma TextWf(v: Value)
    requires v.Str?
    ensures Wf(v)
  {
  }

  lemma ProjectedRouteWf(q: Value)
    requires Wf(q) && Projectable(q)
    ensures Wf(ProjectedRoute(q))
  {
    hide Projectable, ProjectedSteps, Wf;
    var fields := RouteFields(q);
    PartsWf(q, ROUTE);
    ProjectedStepsWf(q);
    RouteUpdatesWf(Exact(q), ProjectedSteps(q));
    OverwrittenWf(fields, RouteUpdates(Exact(q), ProjectedSteps(q)));
  }

  lemma ProjectedWf(q: Value)
    requires Wf(q) && Projectable(q)
    ensures Wf(Projected(q))
  {
    hide ProjectedIntent, ProjectedRoute;
    ProjectedIntentWf(q);
    ProjectedRouteWf(q);
    NamesDiffer();
    var u := TopUpdates(ProjectedIntent(q), ProjectedRoute(q));
    TwoKeys(u);
    WfTexts(u);
    DroppedWf(q.fields, {CONTINUATION});
    OverwrittenWf(Drop(q.fields, {CONTINUATION}), u);
  }

  /** What equal payloads mean: the quotes are equal JSON values, up to the order of members, outside the
      continuation and the paths for which the summary is exact. */
  lemma PayloadMeaning(p: Value, q: Value)
    requires Wf(p) && Wf(q) && Projectable(p) && Projectable(q) && Accepted(Erased(p))
    ensures Payload(p) == Payload(q) <==> Same(Erased(p), Erased(q))
  {
    hide Projectable, Projected, Erased, Accepted, Same, Wf, Encode;
    PayloadAccepts(p);
    EncodeAccepts(Projected(p));
    ProjectedWf(p);
    ProjectedWf(q);
    EncodingMeaning(Projected(p), Projected(q));
    ProjectionErases(p, q);
  }

  // ----- such quotes exist -----

  lemma LookupIn(fields: seq<Field>, i: nat)
    requires DistinctKeys(fields) && i < |fields|
    ensures Get(Obj(fields), fields[i].key) == Some(fields[i].value)
  {
    LookupAt(fields, i);
  }

  lemma OneUnitStep() returns (step: Value)
    ensures Wf(step) && ExactStep(step)
  {
    NamesDiffer();
    assert |MINIMUM_INPUT| == 18 && |EXPECTED_INPUT| == 19 && |EXPECTED_OUTPUT| == 20 && |MINIMUM_OUTPUT| == 19;
    hide EXPECTED_INPUT, MINIMUM_INPUT, EXPECTED_OUTPUT, MINIMUM_OUTPUT, Lookup;
    var one := Str([49]);
    var amounts := [Field(EXPECTED_INPUT, one), Field(MINIMUM_INPUT, one), Field(EXPECTED_OUTPUT, one), Field(MINIMUM_OUTPUT, one)];
    FourKeys(amounts);
    LookupIn(amounts, 0);
    LookupIn(amounts, 1);
    LookupIn(amounts, 2);
    LookupIn(amounts, 3);
    WfTexts(amounts);
    step := Obj(amounts);
  }

  lemma WithSteps(steps: seq<Value>) returns (v: Value)
    requires Wf(Arr(steps))
    ensures Wf(v) && Get(v, STEPS) == Some(Arr(steps))
  {
    hide STEPS;
    var fields := [Field(STEPS, Arr(steps))];
    OneKey(fields);
    LookupIn(fields, 0);
    WfTexts(fields);
    v := Obj(fields);
  }

  lemma WithParts(intent: Value, summary: Value, route: Value) returns (q: Value)
    requires Wf(intent) && Wf(summary) && Wf(route)
    ensures Wf(q) && Get(q, INTENT) == Some(intent) && Get(q, SUMMARY) == Some(summary) && Get(q, ROUTE) == Some(route)
  {
    hide CONTINUATION, SUMMARY, INTENT, ROUTE, Lookup;
    NamesDiffer();
    var fields := [Field(INTENT, intent), Field(SUMMARY, summary), Field(ROUTE, route)];
    LookupIn(fields, 0);
    LookupIn(fields, 1);
    LookupIn(fields, 2);
    WfTexts(fields);
    q := Obj(fields);
  }

  /** A smallest quote: one summary step with amounts of one unit, one raw step. */
  lemma ProjectableQuote() returns (q: Value)
    ensures Wf(q) && Projectable(q)
  {
    hide ExactStep, StepsUnder, Get, Projectable, SUMMARY, INTENT, ROUTE, STEPS;
    var step := OneUnitStep();
    var exact, raw := [step], [Obj([])];
    var summary := WithSteps(exact);
    var route := WithSteps(raw);
    q := WithParts(Obj([]), summary, route);
    StepsUnderSteps(q, SUMMARY, summary, exact);
    StepsUnderSteps(q, ROUTE, route, raw);
    ProjectableFrom(q, exact, raw);
  }

  // ----- the loop -----

  /** The clone is overwritten member by member and step by step. Objects are values here, so a changed intent,
      route or step is put back where it came from. */
  method QuotePayloadV3Projection(quote: Value) returns (r: Option<Value>)
    ensures r == if Projectable(quote) then Some(Projected(quote)) else None
  {
    hide Put, PutAll, Drop, Get, ProjectedStep, StepUpdates, CONTINUATION, SUMMARY, INTENT, ROUTE, STEPS;
    NoMembers(quote);
    if !quote.Obj? { return None; }
    var value := Drop(quote.fields, {CONTINUATION});
    WithoutContinuation(quote);
    StepsUnderObject(Obj(value), ROUTE);
    var summarySteps, rawSteps, found := StepsUnder(Obj(value), SUMMARY), StepsUnder(Obj(value), ROUTE), Get(Obj(value), INTENT);
    if found.None? || summarySteps.None? || summarySteps.value == [] || rawSteps.None? || |rawSteps.value| != |summarySteps.value| { return None; }
    if exists i | 0 <= i < |summarySteps.value| :: !ExactStep(summarySteps.value[i]) { return None; }
    if !found.value.Obj? { return None; }
    var exact, steps := summarySteps.value, rawSteps.value;
    var first, last := exact[0], exact[|exact| - 1];
    var intent := Put(found.value.fields, ESTIMATED_INPUT, Get(first, EXPECTED_INPUT).value);
    var route := Get(Obj(value), ROUTE).value.fields;
    route := Put(route, INPUT, Get(first, EXPECTED_INPUT).value);
    route := Put(route, EXPECTED_OUTPUT, Get(last, EXPECTED_OUTPUT).value);
    route := Put(route, MINIMUM_OUTPUT, Get(last, MINIMUM_OUTPUT).value);
    var overwritten := OverwriteSteps(exact, steps);
    if overwritten.None? { return None; }
    steps := overwritten.value;
    ProjectableFrom(quote, exact, rawSteps.value);
    assert steps == ProjectedSteps(quote);
    route := Put(route, STEPS, Arr(steps));
    value := Put(Put(value, INTENT, Obj(intent)), ROUTE, Obj(route));
    PutFour(RouteFields(quote), RouteUpdates(exact, steps));
    PutTop(Drop(quote.fields, {CONTINUATION}), Obj(intent), Obj(route));
    PutOne(IntentFields(quote), IntentUpdates(exact));
    r := Some(Obj(value));
  }

  /** The loop over the steps. */
  method OverwriteSteps(exact: seq<Value>, raws: seq<Value>) returns (r: Option<seq<Value>>)
    requires |raws| == |exact| && forall i | 0 <= i < |exact| :: ExactStep(exact[i])
    ensures r.Some? <==> forall i | 0 <= i < |raws| :: raws[i].Obj?
    ensures r.Some? ==> |r.value| == |raws| && forall i | 0 <= i < |raws| :: r.value[i] == ProjectedStep(exact[i], raws[i])
  {
    hide ExactStep, StepUpdates;
    var steps := raws;
    for index := 0 to |exact|
      invariant |steps| == |exact|
      invariant forall i | 0 <= i < index :: raws[i].Obj? && steps[i] == ProjectedStep(exact[i], raws[i])
      invariant forall i | index <= i < |exact| :: steps[i] == raws[i]
    {
      if !steps[index].Obj? { return None; }
      var raw := OverwriteStep(exact[index], steps[index].fields);
      steps := steps[index := Obj(raw)];
    }
    r := Some(steps);
  }

  lemma NoMembers(v: Value)
    ensures Projectable(v) ==> v.Obj?
  {
  }

  lemma StepsUnderObject(q: Value, key: Text)
    ensures StepsUnder(q, key).Some? ==> Get(q, key).Some? && Get(q, key).value.Obj?
  {
  }

  method OverwriteStep(exact: Value, fields: seq<Field>) returns (raw: seq<Field>)
    requires ExactStep(exact)
    ensures raw == PutAll(fields, StepUpdates(exact))
  {
    raw := Put(fields, EXPECTED_INPUT, Get(exact, EXPECTED_INPUT).value);
    raw := Put(raw, FLOOR_INPUT, Get(exact, MINIMUM_INPUT).value);
    raw := Put(raw, EXPECTED_OUTPUT, Get(exact, EXPECTED_OUTPUT).value);
    raw := Put(raw, MINIMUM_OUTPUT, Get(exact, MINIMUM_OUTPUT).value);
    PutFour(fields, StepUpdates(exact));
  }

  lemma PutOne(fields: seq<Field>, u: seq<Field>)
    requires |u| == 1
    ensures PutAll(fields, u) == Put(fields, u[0].key, u[0].value)
  {
    assert u[1..] == [];
  }

  lemma PutTop(fields: seq<Field>, intent: Value, route: Value)
    ensures PutAll(fields, TopUpdates(intent, route)) == Put(Put(fields, INTENT, intent), ROUTE, route)
  {
    var u := TopUpdates(intent, route);
    assert PutAll(fields, u) == PutAll(Put(fields, INTENT, intent), u[1..]);
    PutOne(Put(fields, INTENT, intent), u[1..]);
  }

  /** Deleting the continuation leaves every other member as it was. */
  lemma WithoutContinuation(quote: Value)
    requires quote.Obj?
    ensures Get(Obj(Drop(quote.fields, {CONTINUATION})), SUMMARY) == Get(quote, SUMMARY)
    ensures Get(Obj(Drop(quote.fields, {CONTINUATION})), INTENT) == Get(quote, INTENT)
    ensures Get(Obj(Drop(quote.fields, {CONTINUATION})), ROUTE) == Get(quote, ROUTE)
  {
    NamesDiffer();
    LookupDrop(quote.fields, {CONTINUATION}, SUMMARY);
    LookupDrop(quote.fields, {CONTINUATION}, INTENT);
    LookupDrop(quote.fields, {CONTINUATION}, ROUTE);
  }
}
