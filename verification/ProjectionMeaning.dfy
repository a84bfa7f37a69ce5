/** What the hashed projection of a quote says, member by member. */
module ProjectionMeaning {
  import opened Wrappers
  import opened Unicode
  import opened Json
  import opened Members
  import opened TypedCanonical
  import opened Projection

  lemma Unchanged(fields: seq<Field>, updates: seq<Field>, k: Text)
    requires DistinctKeys(updates) && k !in Keys(updates)
    ensures Lookup(PutAll(fields, updates), k) == Lookup(fields, k)
  {
    LookupPutAll(fields, updates, k);
  }

  lemma Changed(fields: seq<Field>, updates: seq<Field>, i: nat, k: Text)
    requires DistinctKeys(updates) && i < |updates| && updates[i].key == k
    ensures Lookup(PutAll(fields, updates), k) == Some(updates[i].value)
  {
    LookupPutAll(fields, updates, k);
    LookupAt(updates, i);
  }

  lemma TopParts(q: Value, k: Text)
    requires Projectable(q) && k != CONTINUATION && k != INTENT && k != ROUTE
    ensures Get(Projected(q), k) == Get(q, k)
  {
    hide ProjectedIntent, ProjectedRoute, Projectable, Name, Drop, PutAll, CONTINUATION, INTENT, ROUTE;
    NamesDiffer();
    NoMembers(q);
    var rest, u := Drop(q.fields, {CONTINUATION}), TopUpdates(ProjectedIntent(q), ProjectedRoute(q));
    TwoKeys(u);
    LookupDrop(q.fields, {CONTINUATION}, k);
    Unchanged(rest, u, k);
  }

  /** The projection has no continuation; besides intent and route, everything else is the quote's. */
  lemma TopSays(q: Value, k: Text)
    requires Projectable(q)
    ensures Get(Projected(q), Name("continuation_v3")) == None
    ensures Get(Projected(q), Name("intent")) == Some(ProjectedIntent(q)) && Get(Projected(q), Name("route")) == Some(ProjectedRoute(q))
    ensures k != Name("continuation_v3") && k != Name("intent") && k != Name("route") ==> Get(Projected(q), k) == Get(q, k)
  {
    hide Projectable, Projected, ProjectedIntent, ProjectedRoute, Get, Name;
    ProjectedParts(q);
    if k != CONTINUATION && k != INTENT && k != ROUTE {
      TopParts(q, k);
    }
  }

  /** The intent is the quote's, with the exact input of the first step. */
  lemma IntentSays(q: Value, k: Text)
    requires Projectable(q)
    ensures Get(ProjectedIntent(q), Name("estimated_input_base")) == Get(Exact(q)[0], Name("expected_input_base"))
    ensures k != Name("estimated_input_base") ==> Get(ProjectedIntent(q), k) == Get(Obj(IntentFields(q)), k)
  {
    var u := IntentUpdates(Exact(q));
    IntentUpdatesKeys(Exact(q));
    hide Projectable, Name;
    Changed(IntentFields(q), u, 0, ESTIMATED_INPUT);
    if k != ESTIMATED_INPUT {
      Unchanged(IntentFields(q), u, k);
    }
  }

  lemma RouteParts(fields: seq<Field>, exact: seq<Value>, steps: seq<Value>)
    requires exact != [] && ExactStep(exact[0]) && ExactStep(exact[|exact| - 1])
    ensures var r, first, last := PutAll(fields, RouteUpdates(exact, steps)), exact[0], exact[|exact| - 1];
            && Lookup(r, INPUT) == Get(first, EXPECTED_INPUT) && Lookup(r, EXPECTED_OUTPUT) == Get(last, EXPECTED_OUTPUT)
            && Lookup(r, MINIMUM_OUTPUT) == Get(last, MINIMUM_OUTPUT) && Lookup(r, STEPS) == Some(Arr(steps))
  {
    hide Name, PutAll, STEPS, INPUT, EXPECTED_INPUT, FLOOR_INPUT, MINIMUM_INPUT, EXPECTED_OUTPUT, MINIMUM_OUTPUT, ESTIMATED_INPUT, ROUTE_PATHS, BaseUnits, Lookup;
    var u := RouteUpdates(exact, steps);
    RouteUpdatesKeys(exact, steps);
    Changed(fields, u, 0, INPUT);
    Changed(fields, u, 1, EXPECTED_OUTPUT);
    Changed(fields, u, 2, MINIMUM_OUTPUT);
    Changed(fields, u, 3, STEPS);
  }

  lemma RouteRest(fields: seq<Field>, exact: seq<Value>, steps: seq<Value>, k: Text)
    requires exact != [] && ExactStep(exact[0]) && ExactStep(exact[|exact| - 1]) && k !in ROUTE_PATHS && k != STEPS
    ensures Lookup(PutAll(fields, RouteUpdates(exact, steps)), k) == Lookup(fields, k)
  {
    hide Name, PutAll, ROUTE_PATHS, STEPS, BaseUnits, Lookup;
    RouteUpdatesKeys(exact, steps);
    Unchanged(fields, RouteUpdates(exact, steps), k);
  }

  /** The route has the exact input of the first step, the exact outputs of the last, and the projected steps. */
  lemma RouteSays(q: Value)
    requires Projectable(q)
    ensures var r, first, last := ProjectedRoute(q), Exact(q)[0], Exact(q)[|Exact(q)| - 1];
            && Get(r, Name("input_base")) == Get(first, Name("expected_input_base"))
            && Get(r, Name("expected_output_base")) == Get(last, Name("expected_output_base"))
            && Get(r, Name("minimum_output_base")) == Get(last, Name("minimum_output_base"))
            && Get(r, Name("steps")) == Some(Arr(ProjectedSteps(q)))
  {
    hide Projectable, ProjectedSteps, Lookup, Name, PutAll, RouteUpdates, ExactStep;
    RouteParts(RouteFields(q), Exact(q), ProjectedSteps(q));
  }

  /** Everything else in it is the quote's. */
  lemma RouteKeeps(q: Value, k: Text)
    requires Projectable(q)
    requires k != Name("input_base") && k != Name("expected_output_base") && k != Name("minimum_output_base") && k != Name("steps")
    ensures Get(ProjectedRoute(q), k) == Get(Obj(RouteFields(q)), k)
  {
    hide Projectable, ProjectedSteps, Lookup, Name, PutAll, RouteUpdates, ExactStep;
    RouteRest(RouteFields(q), Exact(q), ProjectedSteps(q), k);
  }

  lemma StepParts(exact: Value, raw: Value, k: Text)
    requires ExactStep(exact) && raw.Obj?
    ensures var s := ProjectedStep(exact, raw);
            && Get(s, EXPECTED_INPUT) == Get(exact, EXPECTED_INPUT) && Get(s, FLOOR_INPUT) == Get(exact, MINIMUM_INPUT)
            && Get(s, EXPECTED_OUTPUT) == Get(exact, EXPECTED_OUTPUT) && Get(s, MINIMUM_OUTPUT) == Get(exact, MINIMUM_OUTPUT)
    ensures k !in STEP_PATHS ==> Get(ProjectedStep(exact, raw), k) == Get(raw, k)
  {
    hide Name, PutAll, CONTINUATION, INTENT, ROUTE, STEPS, INPUT, EXPECTED_INPUT, FLOOR_INPUT, MINIMUM_INPUT, EXPECTED_OUTPUT, MINIMUM_OUTPUT,
         ESTIMATED_INPUT, STEP_PATHS;
    var u := StepUpdates(exact);
    StepUpdatesKeys(exact);
    Changed(raw.fields, u, 0, EXPECTED_INPUT);
    Changed(raw.fields, u, 1, FLOOR_INPUT);
    Changed(raw.fields, u, 2, EXPECTED_OUTPUT);
    Changed(raw.fields, u, 3, MINIMUM_OUTPUT);
    if k !in STEP_PATHS {
      Unchanged(raw.fields, u, k);
    }
  }

  /** Each raw step is the quote's, with the four exact amounts of its summary step. */
  lemma StepSays(q: Value, i: nat, k: Text)
    requires Projectable(q) && i < |Exact(q)|
    ensures |ProjectedSteps(q)| == |Exact(q)|
    ensures var s, exact := ProjectedSteps(q)[i], Exact(q)[i];
            && Get(s, Name("expected_input_base")) == Get(exact, Name("expected_input_base"))
            && Get(s, Name("floor_input_base")) == Get(exact, Name("minimum_input_base"))
            && Get(s, Name("expected_output_base")) == Get(exact, Name("expected_output_base"))
            && Get(s, Name("minimum_output_base")) == Get(exact, Name("minimum_output_base"))
    ensures k != Name("expected_input_base") && k != Name("floor_input_base") && k != Name("expected_output_base") && k != Name("minimum_output_base") ==>
              Get(ProjectedSteps(q)[i], k) == Get(Raw(q)[i], k)
  {
    hide Projectable, Get, Name, ProjectedStep;
    StepParts(Exact(q)[i], Raw(q)[i], k);
  }
}
