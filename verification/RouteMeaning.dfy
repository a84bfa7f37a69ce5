/** Which quotes the validator accepts, written out: an accepted quote is the one that its definition and the
    base-unit figures of its steps spell, apart from members that nothing looks at. */
module RouteMeaning {
  import opened Wrappers
  import opened Numerals
  import opened Routes
  import opened RouteSummary
  import opened RouteGuarantees
  import Scanner

  /** The base-unit amounts of a step. */
  datatype Figures = Figures(expectedInput: nat, minimumInput: nat, expectedOutput: nat, minimumOutput: nat)

  // ----- one step as it must read -----

  function Members(def: StepDef): set<string> {
    if def.guard.Some? then
      {"index", "action", "provider", "from", "to", "assetfare_fee_bps", "direct_protocol", "external_intent_protocol", "aggregator_api_used",
       "expected_input_base", "minimum_input_base", "expected_output_base", "minimum_output_base", "minimum_guard_bps"}
    else
      {"index", "action", "provider", "from", "to", "assetfare_fee_bps", "direct_protocol", "external_intent_protocol", "aggregator_api_used",
       "expected_input_base", "minimum_input_base", "expected_output_base", "minimum_output_base"}
  }

  function Spelled(n: nat): Amount {
    Exact(Digits(n))
  }

  function ReferenceStep(def: StepDef, f: Figures, step: SummaryStep): SummaryStep {
    step.(keys := Members(def), index := def.index, action := def.action, provider := def.provider,
          from := def.from.chain + ":" + def.from.token, to := def.to.chain + ":" + def.to.token,
          expectedInput := Spelled(f.expectedInput), minimumInput := Spelled(f.minimumInput),
          expectedOutput := Spelled(f.expectedOutput), minimumOutput := Spelled(f.minimumOutput),
          fee := def.fee, guard := if def.guard.Some? then def.guard else step.guard,
          direct := def.direct, external := def.external, aggregatorUsed := false)
  }

  const AMOUNT_MEMBERS := {"index", "provider", "kind", "route_fee_bps", "from", "to", "expected_evidence", "floor_evidence",
                           "expected_input_base", "floor_input_base", "expected_output_base", "minimum_output_base"}

  /** CCTP burns on source-only and candidate chains say more about themselves. */
  function BurnMembers(chain: string): set<string> {
    match chain
    case "polygon" => {"asset", "cctp_mode", "finality_threshold", "destination_native_gas_required", "economics_informational_only"}
    case "optimism" => {"asset", "cctp_mode", "finality_threshold", "destination_native_gas_required", "economics_informational_only"}
    case "aptos" => {"asset", "finality_threshold", "action_family"}
    case _ => if Finality(chain).Some? then {"asset", "finality_threshold"} else {"asset"}
  }

  function Finality(chain: string): Option<int> {
    match chain
    case "xlayer" => Some(1000)
    case "monad" => Some(1000)
    case "avalanche" => Some(1000)
    case "sei" => Some(2000)
    case "sonic" => Some(2000)
    case "cronos" => Some(2000)
    case "injective" => Some(2000)
    case "linea" => Some(2000)
    case "aptos" => Some(2000)
    case "unichain" => Some(2000)
    case "ink" => Some(2000)
    case "polygon" => Some(2000)
    case "optimism" => Some(2000)
    case _ => None
  }

  function RawMembers(def: StepDef): set<string> {
    AMOUNT_MEMBERS
    + (match def.provider
       case Raydium => {"chain"}
       case Orca => {"chain"}
       case Uniswap => {"chain"}
       case Cctp => BurnMembers(def.from.chain)
       case CctpReceive => {"chain", "source_chain", "cctp_mode", "destination_native_gas_required"}
       case Paxos => {"asset"}
       case Across => {"from_asset", "to_asset", "external_intent_protocol"})
    + if def.guard.Some? && def.provider != Across && def.provider != CctpReceive then {"minimum_guard_bps"} else {}
  }

  function Clean(e: Evidence): Evidence {
    Evidence(false, if e.status.None? then None else Some("pass"), false, false)
  }

  /** Endpoints of a raw step: a chain with two tokens, two chains with one asset, or both in full. */
  function Placed(def: StepDef, raw: RawStep): RawStep {
    match def.provider
    case Across => raw.(from := def.from.chain, fromAsset := def.from.token, to := def.to.chain, toAsset := def.to.token, external := true)
    case Cctp => raw.(from := def.from.chain, to := def.to.chain, asset := def.from.token)
    case Paxos => raw.(from := def.from.chain, to := def.to.chain, asset := def.from.token)
    case CctpReceive => raw.(chain := def.from.chain, from := def.from.token, to := def.to.token)
    case Raydium => raw.(chain := def.from.chain, from := def.from.token, to := def.to.token)
    case Orca => raw.(chain := def.from.chain, from := def.from.token, to := def.to.token)
    case Uniswap => raw.(chain := def.from.chain, from := def.from.token, to := def.to.token)
  }

  /** What the burn and the receipt of a CCTP transfer, and every step from Aptos, say about themselves. */
  function Declared(def: StepDef, sourceChain: string, raw: RawStep): RawStep {
    var burn := def.provider == Cctp;
    var sourceOnly := burn && (def.from.chain == "polygon" || def.from.chain == "optimism");
    var receipt := def.provider == CctpReceive;
    raw.(finality := if burn && Finality(def.from.chain).Some? then Finality(def.from.chain).value else raw.finality,
         cctpMode := if sourceOnly || receipt then "no_forward" else raw.cctpMode,
         gasRequired := raw.gasRequired || sourceOnly || receipt,
         informational := raw.informational || sourceOnly,
         sourceChain := if receipt then sourceChain else raw.sourceChain,
         actionFamily := if def.from.chain == "aptos" then "aptos_move_script" else raw.actionFamily)
  }

  function ReferenceRaw(ctx: Context, def: StepDef, i: nat, f: Figures, sourceChain: string, raw: RawStep): RawStep {
    Declared(def, sourceChain, Placed(def, raw)).(
      keys := RawMembers(def), index := i, provider := def.provider, fee := def.fee,
      kind := (match def.action case Swap => "direct_swap" case Bridge => "direct_bridge" case Receive => "direct_receive"),
      expectedEvidence := Some(if raw.expectedEvidence.Some? then Clean(raw.expectedEvidence.value) else Evidence(false, None, false, false)),
      floorEvidence := if raw.floorEvidence.Some? then Some(Clean(raw.floorEvidence.value)) else None,
      expectedInput := Whole(ctx.toNumber(f.expectedInput)), floorInput := Whole(ctx.toNumber(f.minimumInput)),
      expectedOutput := Whole(ctx.toNumber(f.expectedOutput)), minimumOutput := Whole(ctx.toNumber(f.minimumOutput)))
  }

  /** Definitions that a raw step can express: other steps than bridges stay on their chain, bridges other than
      Across keep their asset, and a receipt is free. */
  predicate Expressible(def: StepDef) {
    match def.provider
    case Across => true
    case Cctp => def.from.token == def.to.token
    case Paxos => def.from.token == def.to.token
    case CctpReceive => def.from.chain == def.to.chain && def.fee == 0
    case _ => def.from.chain == def.to.chain
  }

  predicate Counts(ctx: Context, n: nat) {
    n > 0 && ctx.toNumber(n) > 0
  }

  predicate AllCount(ctx: Context, f: Figures) {
    Counts(ctx, f.expectedInput) && Counts(ctx, f.minimumInput) && Counts(ctx, f.expectedOutput) && Counts(ctx, f.minimumOutput)
  }

  predicate Positive(f: Figures) {
    f.expectedInput > 0 && f.minimumInput > 0 && f.expectedOutput > 0 && f.minimumOutput > 0
  }

  function FiguresOf(step: SummaryStep): Figures {
    Figures(BaseUnits(step.expectedInput), BaseUnits(step.minimumInput), BaseUnits(step.expectedOutput), BaseUnits(step.minimumOutput))
  }

  predicate PlainSteps(def: StepDef) {
    Plain(def.from.chain) && Plain(def.from.token) && Plain(def.to.chain) && Plain(def.to.token)
  }

  lemma AmountMeaning(a: Amount)
    ensures AmountOk(a) <==> BaseUnits(a) > 0 && a == Spelled(BaseUnits(a))
  {
    if AmountOk(a) {
      DigitsOfNatOf(a.text);
    }
  }

  lemma SpelledMeaning(n: nat)
    ensures BaseUnits(Spelled(n)) == n
  {
    NatOfDigits(n);
  }

  lemma RawNumberMeaning(ctx: Context, raw: RawNumber, exact: Amount)
    requires AmountOk(exact)
    ensures RawNumberMatches(ctx, raw, exact) <==> raw == Whole(ctx.toNumber(BaseUnits(exact))) && Counts(ctx, BaseUnits(exact))
  {
    AmountMeaning(exact);
  }

  /** Two texts around a colon spell an endpoint only as its chain and its token. */
  lemma OneColon(chain: string, token: string, e: Endpoint)
    requires Plain(e.chain) && Plain(e.token)
    ensures chain + ":" + token == e.chain + ":" + e.token <==> chain == e.chain && token == e.token
  {
    var a, b := chain + ":" + token, e.chain + ":" + e.token;
    assert forall k | 0 <= k < |b| && b[k] == ':' :: k == |e.chain|;
    if a == b {
      assert a[|chain|] == ':';
      assert a[..|chain|] == chain && b[..|chain|] == e.chain && a[|chain| + 1..] == token && b[|chain| + 1..] == e.token;
    }
  }

  lemma KeysMeaning(def: StepDef)
    ensures StepKeys(def) == Members(def)
  {
  }

  lemma RawKeysMeaning(def: StepDef)
    ensures RawStepKeys(def) == RawMembers(def)
  {
  }

  lemma FinalityMeaning(chain: string)
    ensures CandidateChain(chain) ==> Finality(chain) == Some(CandidateThreshold(chain))
    ensures SourceOnlyChain(chain) ==> Finality(chain) == Some(2000)
    ensures !CandidateChain(chain) && !SourceOnlyChain(chain) ==> Finality(chain) == None
  {
  }

  lemma StepMeaning(def: StepDef, step: SummaryStep)
    ensures step.keys == StepKeys(def) && PlanMatches(def, step) && !step.aggregatorUsed && AmountsOk(step)
       <==> step == ReferenceStep(def, FiguresOf(step), step) && Positive(FiguresOf(step))
  {
    KeysMeaning(def);
    AmountMeaning(step.expectedInput);
    AmountMeaning(step.minimumInput);
    AmountMeaning(step.expectedOutput);
    AmountMeaning(step.minimumOutput);
    hide StepKeys, Members, AmountOk, BaseUnits, Spelled;
  }

  lemma PlaceMeaning(def: StepDef, raw: RawStep)
    requires PlainSteps(def)
    ensures RawEndpoints(raw, def.provider) == (Render(def.from), Render(def.to)) && (def.provider == Across ==> raw.external)
       <==> raw == Placed(def, raw) && (Expressible(def) || (def.provider == CctpReceive && def.from.chain == def.to.chain))
  {
    hide Plain;
    if def.provider == Across {
      OneColon(raw.from, raw.fromAsset, def.from);
      OneColon(raw.to, raw.toAsset, def.to);
    } else if def.provider == Cctp || def.provider == Paxos {
      OneColon(raw.from, raw.asset, def.from);
      OneColon(raw.to, raw.asset, def.to);
    } else {
      OneColon(raw.chain, raw.from, def.from);
      OneColon(raw.chain, raw.to, def.to);
    }
  }

  lemma DeclaredMeaning(def: StepDef, sourceChain: string, raw: RawStep)
    ensures SourceOnlyOk(def, raw) && CandidateOk(def, raw) && (def.from.chain == "aptos" ==> raw.actionFamily == "aptos_move_script")
            && ReceiveOk(def, raw, sourceChain)
       <==> raw == Declared(def, sourceChain, raw) && (def.provider == CctpReceive ==> raw.fee == 0)
  {
    FinalityMeaning(def.from.chain);
    hide CandidateChain, CandidateThreshold, Finality;
  }

  lemma EvidenceMeaning(e: Option<Evidence>)
    ensures EvidenceValid(e) <==> e.Some? && e.value == Clean(e.value)
  {
  }

  lemma RawMeaning(ctx: Context, def: StepDef, i: nat, step: SummaryStep, raw: RawStep, sourceChain: string)
    requires PlainSteps(def) && AmountsOk(step)
    ensures && raw.keys == RawStepKeys(def) && raw.index == i && raw.provider == def.provider && raw.fee == def.fee
            && RawPlanMatches(def, raw) && SourceOnlyOk(def, raw) && CandidateOk(def, raw)
            && (def.from.chain == "aptos" ==> raw.actionFamily == "aptos_move_script") && ReceiveOk(def, raw, sourceChain)
            && EvidenceValid(raw.expectedEvidence) && (raw.floorEvidence.None? || EvidenceValid(raw.floorEvidence))
            && AmountsBound(ctx, step, raw)
       <==> raw == ReferenceRaw(ctx, def, i, FiguresOf(step), sourceChain, raw) && Expressible(def) && AllCount(ctx, FiguresOf(step))
  {
    RawKeysMeaning(def);
    PlaceMeaning(def, raw);
    DeclaredMeaning(def, sourceChain, raw);
    EvidenceMeaning(raw.expectedEvidence);
    EvidenceMeaning(raw.floorEvidence);
    RawNumberMeaning(ctx, raw.expectedInput, step.expectedInput);
    RawNumberMeaning(ctx, raw.floorInput, step.minimumInput);
    RawNumberMeaning(ctx, raw.expectedOutput, step.expectedOutput);
    RawNumberMeaning(ctx, raw.minimumOutput, step.minimumOutput);
    NoIntentKey(def);
    hide RawStepKeys, RawMembers, AmountOk, BaseUnits, EvidenceValid, Clean, RawNumberMatches, RawEndpoints,
         SourceOnlyOk, CandidateOk, ReceiveOk, PlainSteps;
    var placed, declared := Placed(def, raw), Declared(def, sourceChain, Placed(def, raw));
    assert placed == raw && declared == placed ==> raw == Declared(def, sourceChain, raw);
  }

  /** Only Across steps declare an intent protocol. */
  lemma NoIntentKey(def: StepDef)
    ensures "external_intent_protocol" in RawMembers(def) <==> def.provider == Across
  {
  }

  // ----- the whole quote as it must read -----

  function SummaryMembers(product: bool): set<string> {
    {"version", "route", "from", "to", "classification", "mode", "assetfare_fee_bps", "fee_collection_step_index",
     "route_aggregator_used", "external_intent_protocol_used", "provider_internal_dex_aggregation_possible",
     "server_signing", "server_submission", "step_count", "steps"}
    + ProductMembers(product)
  }

  function RouteMembers(product: bool): set<string> {
    {"version", "status", "route", "mode", "input_base", "expected_output_base", "minimum_output_base", "quote_latency_ms",
     "aggregator_api_used", "external_intent_protocol_used", "server_signing", "server_submission", "steps"}
    + ProductMembers(product)
  }

  function ProductMembers(product: bool): set<string> {
    if product then
      {"product_classification", "economic_eligibility", "public_execution_eligible", "primary_selection_eligible", "route_minimum_guard_bps"}
    else {}
  }

  /** What the guards of all steps sum up to. */
  function Total(steps: seq<StepDef>): nat {
    if steps == [] then 0 else (if steps[0].guard.Some? then steps[0].guard.value else 0) + Total(steps[1..])
  }

  /** External routes are declared without a guard, direct ones with the sum of their steps' guards, if any has one. */
  function Declaration(def: RouteDef): Product {
    match def.classification
    case ExternalIntent => Product(true, None)
    case DirectProtocolOnly => Product(false, if AnyGuard(def.steps) then Some(Total(def.steps)) else None)
  }

  /** The figures of the whole way, the step that carries the fee, and whether product metadata is given. */
  datatype Layout = Layout(figures: seq<Figures>, feeAt: nat, product: bool)

  function ReferenceSummary(def: RouteDef, layout: Layout, name: string, intent: Intent, s: Summary): Summary
    requires |layout.figures| == |s.steps| <= |def.steps|
  {
    var external := def.classification == ExternalIntent;
    s.(keys := SummaryMembers(layout.product), version := "assetfare-direct-route-summary-v1", route := name,
       from := intent.from.chain + ":" + intent.from.token, to := intent.to.chain + ":" + intent.to.token,
       classification := def.classification, mode := def.mode, product := if layout.product then Some(Declaration(def)) else s.product,
       routeAggregatorUsed := false, externalIntentUsed := external, dexAggregationPossible := external,
       feeBps := 1, feeIndex := layout.feeAt, serverSigning := false, serverSubmission := false, stepCount := |layout.figures|,
       steps := seq(|layout.figures|, i requires 0 <= i < |layout.figures| => ReferenceStep(def.steps[i], layout.figures[i], s.steps[i])))
  }

  function ReferenceRoute(ctx: Context, def: RouteDef, layout: Layout, name: string, sourceChain: string, r: RawRoute): RawRoute
    requires 0 < |layout.figures| == |r.steps| <= |def.steps|
  {
    r.(keys := RouteMembers(layout.product), status := "pass", version := "assetfare-direct-multichain-quote-v2", route := name, mode := def.mode,
       product := if layout.product then Some(Declaration(def)) else r.product,
       input := Whole(ctx.toNumber(layout.figures[0].expectedInput)),
       expectedOutput := Whole(ctx.toNumber(layout.figures[|layout.figures| - 1].expectedOutput)),
       minimumOutput := Whole(ctx.toNumber(layout.figures[|layout.figures| - 1].minimumOutput)),
       aggregatorUsed := false, externalIntentUsed := def.classification == ExternalIntent, serverSigning := false, serverSubmission := false,
       steps := seq(|layout.figures|, i requires 0 <= i < |layout.figures| =>
                      ReferenceRaw(ctx, def.steps[i], i, layout.figures[i], sourceChain, r.steps[i])))
  }

  /** The quote that the layout spells, apart from members that nothing looks at. */
  function Reference(ctx: Context, def: RouteDef, layout: Layout, q: Quote): Quote
    requires 0 < |layout.figures| == |q.summary.steps| == |q.route.steps| <= |def.steps|
  {
    var external := def.classification == ExternalIntent;
    var name := q.intent.from.chain + ":" + q.intent.from.token + "->" + q.intent.to.chain + ":" + q.intent.to.token;
    q.(summary := ReferenceSummary(def, layout, name, q.intent, q.summary),
       route := ReferenceRoute(ctx, def, layout, name, q.intent.from.chain, q.route),
       risk := Risk(external, external, false, false),
       intent := q.intent.(estimatedInput := Whole(ctx.toNumber(layout.figures[0].expectedInput))),
       offer := Offer(1, 1, true, [layout.feeAt]))
  }

  /** The layout has figures for all steps, or for the burn alone of a transfer that is received in a second step. */
  predicate Covers(def: RouteDef, n: nat) {
    n > 0 && (n == |def.steps| || (n == 1 && |def.steps| == 2 && def.steps[1].provider == CctpReceive))
  }

  /** The figures of a step are positive, follow those of the step before, and keep the minimum output within the
      expected one and within the guards up to there. */
  predicate StepFit(ctx: Context, def: RouteDef, figures: seq<Figures>, i: nat)
    requires i < |figures| <= |def.steps|
  {
    && Expressible(def.steps[i]) && AllCount(ctx, figures[i])
    && figures[i].minimumOutput <= figures[i].expectedOutput
    && (def.steps[i].guard.Some? ==>
          figures[i].minimumOutput * 10000 >= figures[i].expectedOutput * (10000 - Total(def.steps[..i + 1])))
    && (i > 0 ==> figures[i].expectedInput == figures[i - 1].expectedOutput && figures[i].minimumInput == figures[i - 1].minimumOutput)
  }

  /** All steps fit, the input is certain, and the last output keeps within the guards of all steps. */
  predicate FiguresFit(ctx: Context, def: RouteDef, figures: seq<Figures>)
    requires Covers(def, |figures|)
  {
    && figures[0].minimumInput == figures[0].expectedInput
    && (forall i | 0 <= i < |figures| :: StepFit(ctx, def, figures, i))
    && (AnyGuard(def.steps) ==>
          figures[|figures| - 1].minimumOutput * 10000 >= figures[|figures| - 1].expectedOutput * (10000 - Total(def.steps)))
  }

  predicate PaidOnceAt(steps: seq<StepDef>, at: nat) {
    at < |steps| && forall i | 0 <= i < |steps| :: steps[i].fee == if i == at then 1 else 0
  }

  ghost predicate Spells(ctx: Context, def: RouteDef, layout: Layout, q: Quote) {
    && |layout.figures| == |q.summary.steps| == |q.route.steps| && Covers(def, |layout.figures|)
    && FiguresFit(ctx, def, layout.figures) && PaidOnceAt(def.steps[..|layout.figures|], layout.feeAt)
    && q == Reference(ctx, def, layout, q)
  }

  // ----- pieces of the theorem -----

  lemma {:induction false} TotalFrom(steps: seq<StepDef>)
    requires steps != []
    ensures Total(steps) == Total(steps[..|steps| - 1]) + if steps[|steps| - 1].guard.Some? then steps[|steps| - 1].guard.value else 0
  {
    if |steps| > 1 {
      TotalFrom(steps[1..]);
      assert steps[1..][..|steps| - 2] == steps[..|steps| - 1][1..];
    }
  }

  lemma {:induction false} TotalIsSum(steps: seq<StepDef>)
    ensures Total(steps) == GuardSum(steps)
  {
    if steps != [] {
      TotalFrom(steps);
      TotalIsSum(steps[..|steps| - 1]);
    }
  }

  lemma CeilGuardMeaning(minimum: nat, expected: nat, guard: nat)
    ensures minimum >= CeilGuardFloor(expected, guard) <==> minimum * 10000 >= expected * (10000 - guard)
  {
    if guard <= 10000 {
      CeilGuardIsCeiling(expected, guard);
    } else {
      NothingLeft(expected, guard);
      GuardBounds(minimum, expected, guard);
    }
  }

  lemma {:induction false} FeeMeaning(steps: seq<SummaryStep>, at: int)
    ensures FeeTotal(steps) == 1 && FeeIndex(steps) == at
       <==> 0 <= at < |steps| && forall i | 0 <= i < |steps| :: steps[i].fee == if i == at then 1 else 0
  {
    if FeeTotal(steps) == 1 {
      OneFee(steps);
    }
    if 0 <= at < |steps| && forall i | 0 <= i < |steps| :: steps[i].fee == if i == at then 1 else 0 {
      FeeOfOne(steps, at);
    }
  }

  lemma {:induction false} FeeOfOne(steps: seq<SummaryStep>, at: int)
    requires forall i | 0 <= i < |steps| :: steps[i].fee == if i == at then 1 else 0
    ensures FeeTotal(steps) == if 0 <= at < |steps| then 1 else 0
    ensures 0 <= at < |steps| ==> FeeIndex(steps) == at
    ensures !(0 <= at < |steps|) ==> FeeIndex(steps) == -1
  {
    if steps != [] {
      FeeOfOne(steps[..|steps| - 1], at);
    }
  }

  // ----- the theorem -----

  /** What the loop checks about one step, in figures. */
  ghost predicate StepSpelled(ctx: Context, defs: seq<StepDef>, steps: seq<SummaryStep>, raws: seq<RawStep>, sourceChain: string, i: nat)
    requires i < |defs| == |steps| == |raws|
  {
    var f := FiguresOf(steps[i]);
    && steps[i] == ReferenceStep(defs[i], f, steps[i]) && raws[i] == ReferenceRaw(ctx, defs[i], i, f, sourceChain, raws[i])
    && Expressible(defs[i]) && AllCount(ctx, f)
    && f.minimumOutput <= f.expectedOutput
    && (defs[i].guard.Some? ==> f.minimumOutput * 10000 >= f.expectedOutput * (10000 - Total(defs[..i + 1])))
    && (i > 0 ==> f.expectedInput == FiguresOf(steps[i - 1]).expectedOutput && f.minimumInput == FiguresOf(steps[i - 1]).minimumOutput)
  }

  lemma SameAmount(a: Amount, b: Amount)
    requires AmountOk(a) && AmountOk(b)
    ensures a == b <==> BaseUnits(a) == BaseUnits(b)
  {
    AmountMeaning(a);
    AmountMeaning(b);
  }

  lemma PlanMeaning(ctx: Context, def: StepDef, i: nat, step: SummaryStep, raw: RawStep, sourceChain: string)
    requires PlainSteps(def)
    ensures StepPlanOk(def, step, raw, i, sourceChain) && AmountsOk(step) && AmountsBound(ctx, step, raw)
       <==> && step == ReferenceStep(def, FiguresOf(step), step) && raw == ReferenceRaw(ctx, def, i, FiguresOf(step), sourceChain, raw)
            && Expressible(def) && AllCount(ctx, FiguresOf(step))
  {
    StepMeaning(def, step);
    if AmountsOk(step) {
      RawMeaning(ctx, def, i, step, raw, sourceChain);
    }
    hide ReferenceStep, ReferenceRaw, PlanMatches, Expressible, PlainSteps, AmountsOk, RawStepKeys, StepKeys, FiguresOf, Counts,
         RawPlanMatches, SourceOnlyOk, CandidateOk, ReceiveOk, EvidenceValid, AmountsBound;
  }

  lemma StepFitsMeaning(ctx: Context, defs: seq<StepDef>, steps: seq<SummaryStep>, raws: seq<RawStep>, sourceChain: string, i: nat)
    requires i < |defs| == |steps| == |raws| && PlainSteps(defs[i])
    requires i > 0 ==> AmountsOk(steps[i - 1])
    ensures StepOk(ctx, defs, steps, raws, sourceChain, i) <==> StepSpelled(ctx, defs, steps, raws, sourceChain, i)
  {
    hide ReferenceStep, ReferenceRaw, StepPlanOk, Expressible, PlainSteps, AmountOk, CeilGuardFloor, BaseUnits, AmountsBound, GuardSum, Total, Counts;
    var def, step, raw := defs[i], steps[i], raws[i];
    PlanMeaning(ctx, def, i, step, raw, sourceChain);
    TotalIsSum(defs[..i + 1]);
    CeilGuardMeaning(BaseUnits(step.minimumOutput), BaseUnits(step.expectedOutput), Guard(defs, i + 1));
    if AmountsOk(step) && i > 0 {
      SameAmount(step.expectedInput, steps[i - 1].expectedOutput);
      SameAmount(step.minimumInput, steps[i - 1].minimumOutput);
    }
  }

  lemma StepsMeaning(ctx: Context, defs: seq<StepDef>, steps: seq<SummaryStep>, raws: seq<RawStep>, sourceChain: string)
    requires |defs| == |steps| == |raws| && forall i | 0 <= i < |defs| :: PlainSteps(defs[i])
    ensures StepsOk(ctx, defs, steps, raws, sourceChain) <==> forall i | 0 <= i < |defs| :: StepSpelled(ctx, defs, steps, raws, sourceChain, i)
  {
    hide StepOk, StepSpelled, AmountsOk, PlainSteps;
    if StepsOk(ctx, defs, steps, raws, sourceChain) {
      forall i | 0 <= i < |defs| ensures StepSpelled(ctx, defs, steps, raws, sourceChain, i) {
        if i > 0 { AmountsOfStep(ctx, defs, steps, raws, sourceChain, i - 1); }
        StepFitsMeaning(ctx, defs, steps, raws, sourceChain, i);
      }
    }
    if forall i | 0 <= i < |defs| :: StepSpelled(ctx, defs, steps, raws, sourceChain, i) {
      forall i | 0 <= i < |defs| ensures StepOk(ctx, defs, steps, raws, sourceChain, i) {
        if i > 0 { AmountsOfStep(ctx, defs, steps, raws, sourceChain, i - 1); }
        StepFitsMeaning(ctx, defs, steps, raws, sourceChain, i);
      }
    }
  }

  lemma AmountsOfStep(ctx: Context, defs: seq<StepDef>, steps: seq<SummaryStep>, raws: seq<RawStep>, sourceChain: string, i: nat)
    requires i < |defs| == |steps| == |raws|
    ensures StepOk(ctx, defs, steps, raws, sourceChain, i) || StepSpelled(ctx, defs, steps, raws, sourceChain, i) ==> AmountsOk(steps[i])
  {
    hide ReferenceRaw, StepPlanOk, CeilGuardFloor, AmountsBound, Total, GuardSum, Expressible, BaseUnits, AmountOk, Spelled, Members;
    AmountMeaning(steps[i].expectedInput);
    AmountMeaning(steps[i].minimumInput);
    AmountMeaning(steps[i].expectedOutput);
    AmountMeaning(steps[i].minimumOutput);
  }

  lemma ShapeMeaning(q: Quote, product: bool)
    ensures q.summary.keys == SummaryMembers(product) && q.route.keys == RouteMembers(product) <==> ShapeOk(q) && product == HasProduct(q)
  {
    LegacyHasNoProduct();
    assert ProductMembers(true) == PRODUCT_KEYS;
    assert SummaryMembers(product) == RootKeys(product) && RouteMembers(product) == RouteKeys(product);
  }

  // ----- head and foot -----

  lemma DeclarationMeaning(def: RouteDef)
    ensures ExpectedProduct(def) == Declaration(def)
  {
    TotalIsSum(def.steps);
  }

  lemma NameMeaning(intent: Intent)
    ensures RouteName(intent) == intent.from.chain + ":" + intent.from.token + "->" + intent.to.chain + ":" + intent.to.token
  {
  }

  /** The definition's steps that a quote has to follow, and how many there are. */
  lemma StepsForMeaning(def: RouteDef, q: Quote)
    ensures q.summary.steps != [] && q.summary.stepCount == |StepsFor(def, q)| == |q.summary.steps| == |q.route.steps|
       <==> q.summary.stepCount == |q.summary.steps| == |q.route.steps| && Covers(def, |q.summary.steps|)
    ensures q.summary.stepCount == |q.summary.steps| == |q.route.steps| && Covers(def, |q.summary.steps|) ==>
              StepsFor(def, q) == def.steps[..|q.summary.steps|]
  {
  }

  lemma SummaryMeaning(def: RouteDef, layout: Layout, q: Quote)
    requires |layout.figures| == |q.summary.steps| == |q.route.steps| && Covers(def, |layout.figures|)
    ensures q.summary == ReferenceSummary(def, layout, RouteName(q.intent), q.intent, q.summary)
       <==> && q.summary.keys == SummaryMembers(layout.product) && SummaryBound(def, q) && BoundaryOk(def, q)
            && (layout.product ==> q.summary.product == Some(Declaration(def)))
            && q.summary.feeIndex == layout.feeAt
            && forall i | 0 <= i < |layout.figures| :: q.summary.steps[i] == ReferenceStep(def.steps[i], layout.figures[i], q.summary.steps[i])
  {
    hide SummaryMembers, ReferenceStep, Declaration, RouteName;
    StepsForMeaning(def, q);
    var steps := seq(|layout.figures|, i requires 0 <= i < |layout.figures| => ReferenceStep(def.steps[i], layout.figures[i], q.summary.steps[i]));
    assert q.summary.steps == steps <==> forall i | 0 <= i < |layout.figures| :: q.summary.steps[i] == steps[i];
  }

  lemma RawRouteMeaning(ctx: Context, def: RouteDef, layout: Layout, q: Quote)
    requires |layout.figures| == |q.summary.steps| == |q.route.steps| == q.summary.stepCount && Covers(def, |layout.figures|)
    ensures q.route == ReferenceRoute(ctx, def, layout, RouteName(q.intent), q.intent.from.chain, q.route)
       <==> && q.route.keys == RouteMembers(layout.product) && RawRouteOk(def, q)
            && (layout.product ==> q.route.product == Some(Declaration(def)))
            && q.route.input == Whole(ctx.toNumber(layout.figures[0].expectedInput))
            && q.route.expectedOutput == Whole(ctx.toNumber(layout.figures[|layout.figures| - 1].expectedOutput))
            && q.route.minimumOutput == Whole(ctx.toNumber(layout.figures[|layout.figures| - 1].minimumOutput))
            && forall i | 0 <= i < |layout.figures| ::
                 q.route.steps[i] == ReferenceRaw(ctx, def.steps[i], i, layout.figures[i], q.intent.from.chain, q.route.steps[i])
  {
    hide RouteMembers, ReferenceRaw, Declaration, RouteName;
    StepsForMeaning(def, q);
    var steps := seq(|layout.figures|, i requires 0 <= i < |layout.figures| =>
                       ReferenceRaw(ctx, def.steps[i], i, layout.figures[i], q.intent.from.chain, q.route.steps[i]));
    assert q.route.steps == steps <==> forall i | 0 <= i < |layout.figures| :: q.route.steps[i] == steps[i];
  }

  /** The checks after the loop, for steps that the loop has let through. */
  lemma RootMeaning(ctx: Context, q: Quote)
    requires q.summary.steps != [] && forall i | 0 <= i < |q.summary.steps| :: AmountsOk(q.summary.steps[i]) && AllCount(ctx, FiguresOf(q.summary.steps[i]))
    ensures RootOk(ctx, q) <==>
              var first, last := FiguresOf(q.summary.steps[0]), FiguresOf(q.summary.steps[|q.summary.steps| - 1]);
              && q.intent.estimatedInput == q.route.input == Whole(ctx.toNumber(first.expectedInput))
              && first.minimumInput == first.expectedInput
              && q.route.expectedOutput == Whole(ctx.toNumber(last.expectedOutput))
              && q.route.minimumOutput == Whole(ctx.toNumber(last.minimumOutput))
              && q.offer == Offer(1, 1, true, [q.summary.feeIndex])
              && 0 <= q.summary.feeIndex < |q.summary.steps|
              && forall i | 0 <= i < |q.summary.steps| :: q.summary.steps[i].fee == if i == q.summary.feeIndex then 1 else 0
  {
    var first, last := q.summary.steps[0], q.summary.steps[|q.summary.steps| - 1];
    assert AmountsOk(first) && AmountsOk(last) && AllCount(ctx, FiguresOf(first)) && AllCount(ctx, FiguresOf(last));
    RawNumberMeaning(ctx, q.intent.estimatedInput, first.expectedInput);
    RawNumberMeaning(ctx, q.route.input, first.expectedInput);
    RawNumberMeaning(ctx, q.route.expectedOutput, last.expectedOutput);
    RawNumberMeaning(ctx, q.route.minimumOutput, last.minimumOutput);
    SameAmount(first.minimumInput, first.expectedInput);
    FeeMeaning(q.summary.steps, q.summary.feeIndex);
    hide RawNumberMatches, AmountOk, BaseUnits, FeeTotal, FeeIndex, Counts;
  }

  /** The layout that a quote states. */
  function LayoutOf(q: Quote): Layout {
    Layout(seq(|q.summary.steps|, i requires 0 <= i < |q.summary.steps| => FiguresOf(q.summary.steps[i])),
         if q.summary.feeIndex >= 0 then q.summary.feeIndex else 0, HasProduct(q))
  }

  // ----- accepted quotes -----

  lemma FiguresRead(def: StepDef, f: Figures, step: SummaryStep)
    ensures step == ReferenceStep(def, f, step) ==> FiguresOf(step) == f
  {
    SpelledMeaning(f.expectedInput);
    SpelledMeaning(f.minimumInput);
    SpelledMeaning(f.expectedOutput);
    SpelledMeaning(f.minimumOutput);
    hide Spelled, BaseUnits, Members;
  }

  /** A quote spells at most one layout: the one that it states. */
  lemma LayoutUnique(ctx: Context, def: RouteDef, layout: Layout, q: Quote)
    requires Spells(ctx, def, layout, q)
    ensures layout == LayoutOf(q)
  {
    hide FiguresFit, PaidOnceAt, ReferenceRaw, ReferenceStep, ShapeOk, HasProduct;
    forall i | 0 <= i < |layout.figures| ensures layout.figures[i] == FiguresOf(q.summary.steps[i]) {
      assert q.summary.steps[i] == ReferenceStep(def.steps[i], layout.figures[i], q.summary.steps[i]);
      FiguresRead(def.steps[i], layout.figures[i], q.summary.steps[i]);
    }
    ShapeMeaning(q, layout.product);
  }

  ghost predicate AllPlain(def: RouteDef) {
    forall i | 0 <= i < |def.steps| :: PlainSteps(def.steps[i])
  }

  lemma SpelledStep(ctx: Context, def: RouteDef, q: Quote, i: nat)
    requires i < |q.summary.steps| == |q.route.steps| <= |def.steps|
    ensures StepSpelled(ctx, def.steps[..|q.summary.steps|], q.summary.steps, q.route.steps, q.intent.from.chain, i)
       <==> && StepFit(ctx, def, LayoutOf(q).figures, i)
            && q.summary.steps[i] == ReferenceStep(def.steps[i], LayoutOf(q).figures[i], q.summary.steps[i])
            && q.route.steps[i] == ReferenceRaw(ctx, def.steps[i], i, LayoutOf(q).figures[i], q.intent.from.chain, q.route.steps[i])
  {
    hide ReferenceStep, ReferenceRaw, Expressible, AllCount, Total, FiguresOf, HasProduct;
    assert def.steps[..|q.summary.steps|][..i + 1] == def.steps[..i + 1];
  }

  /** The last check over the guards, in figures. */
  lemma FinalMeaning(def: RouteDef, steps: seq<SummaryStep>)
    requires steps != []
    ensures FinalGuardOk(def, steps) <==>
              var last := FiguresOf(steps[|steps| - 1]);
              AnyGuard(def.steps) ==> last.minimumOutput * 10000 >= last.expectedOutput * (10000 - Total(def.steps))
  {
    TotalIsSum(def.steps);
    var last := steps[|steps| - 1];
    CeilGuardMeaning(BaseUnits(last.minimumOutput), BaseUnits(last.expectedOutput), GuardSum(def.steps));
    hide CeilGuardFloor, GuardSum, Total, BaseUnits;
  }

  lemma FeesMeaning(def: RouteDef, layout: Layout, q: Quote)
    requires |layout.figures| == |q.summary.steps| <= |def.steps| && q.summary.feeIndex == layout.feeAt
    requires forall i | 0 <= i < |layout.figures| :: q.summary.steps[i] == ReferenceStep(def.steps[i], layout.figures[i], q.summary.steps[i])
    ensures PaidOnceAt(def.steps[..|layout.figures|], layout.feeAt)
       <==> && 0 <= q.summary.feeIndex < |q.summary.steps|
            && forall i | 0 <= i < |q.summary.steps| :: q.summary.steps[i].fee == if i == q.summary.feeIndex then 1 else 0
  {
    forall i | 0 <= i < |layout.figures| ensures q.summary.steps[i].fee == def.steps[..|layout.figures|][i].fee {
      assert q.summary.steps[i] == ReferenceStep(def.steps[i], layout.figures[i], q.summary.steps[i]);
    }
    hide ReferenceStep;
  }

  /** What the validator requires of a quote, and what a layout spells, agree step by step. */
  lemma StepsAgree(ctx: Context, def: RouteDef, q: Quote)
    requires AllPlain(def) && |q.summary.steps| == |q.route.steps| == q.summary.stepCount && Covers(def, |q.summary.steps|)
    ensures (StepsOk(ctx, StepsFor(def, q), q.summary.steps, q.route.steps, q.intent.from.chain) <==>
              forall i | 0 <= i < |q.summary.steps| ::
                && StepFit(ctx, def, LayoutOf(q).figures, i)
                && q.summary.steps[i] == ReferenceStep(def.steps[i], LayoutOf(q).figures[i], q.summary.steps[i])
                && q.route.steps[i] == ReferenceRaw(ctx, def.steps[i], i, LayoutOf(q).figures[i], q.intent.from.chain, q.route.steps[i]))
    ensures StepsOk(ctx, StepsFor(def, q), q.summary.steps, q.route.steps, q.intent.from.chain) ==>
              forall i | 0 <= i < |q.summary.steps| :: AmountsOk(q.summary.steps[i]) && AllCount(ctx, FiguresOf(q.summary.steps[i]))
  {
    StepsForMeaning(def, q);
    hide StepFit, ReferenceStep, ReferenceRaw, StepOk, StepSpelled, AmountsOk, AllCount, PlainSteps, StepsFor, HasProduct;
    var n := |q.summary.steps|;
    var defs := def.steps[..n];
    StepsMeaning(ctx, defs, q.summary.steps, q.route.steps, q.intent.from.chain);
    forall i | 0 <= i < n
      ensures StepSpelled(ctx, defs, q.summary.steps, q.route.steps, q.intent.from.chain, i) <==>
                && StepFit(ctx, def, LayoutOf(q).figures, i)
                && q.summary.steps[i] == ReferenceStep(def.steps[i], LayoutOf(q).figures[i], q.summary.steps[i])
                && q.route.steps[i] == ReferenceRaw(ctx, def.steps[i], i, LayoutOf(q).figures[i], q.intent.from.chain, q.route.steps[i])
    {
      SpelledStep(ctx, def, q, i);
    }
    forall i | 0 <= i < n && StepOk(ctx, defs, q.summary.steps, q.route.steps, q.intent.from.chain, i)
                          && StepSpelled(ctx, defs, q.summary.steps, q.route.steps, q.intent.from.chain, i)
      ensures AmountsOk(q.summary.steps[i]) && AllCount(ctx, FiguresOf(q.summary.steps[i]))
    {
      AmountsOfStep(ctx, defs, q.summary.steps, q.route.steps, q.intent.from.chain, i);
      CountsOfStep(ctx, defs, q.summary.steps, q.route.steps, q.intent.from.chain, i);
    }
  }

  lemma CountsOfStep(ctx: Context, defs: seq<StepDef>, steps: seq<SummaryStep>, raws: seq<RawStep>, sourceChain: string, i: nat)
    requires i < |defs| == |steps| == |raws|
    ensures StepSpelled(ctx, defs, steps, raws, sourceChain, i) ==> AllCount(ctx, FiguresOf(steps[i]))
  {
  }

  lemma ValidSpells(ctx: Context, def: RouteDef, q: Quote)
    requires AllPlain(def) && ValidQuote(ctx, def, q)
    ensures Spells(ctx, def, LayoutOf(q), q)
  {
    hide ReferenceStep, ReferenceRaw, StepOk, StepFit, AmountsOk, AllCount, PlainSteps, Total, AnyGuard, ShapeOk, HasProduct, Scanner.Safe,
         SummaryMembers, RouteMembers, RouteName, Declaration, ExpectedProduct, RootOk, FinalGuardOk, SummaryBound, RiskOk, FiguresOf, PaidOnceAt;
    var layout := LayoutOf(q);
    StepsForMeaning(def, q);
    StepsAgree(ctx, def, q);
    RootMeaning(ctx, q);
    ShapeMeaning(q, layout.product);
    DeclarationMeaning(def);
    NameMeaning(q.intent);
    FinalMeaning(def, q.summary.steps);
    SummaryMeaning(def, layout, q);
    RawRouteMeaning(ctx, def, layout, q);
    FeesMeaning(def, layout, q);
    RiskMeaning(def, q);
    hide StepsFor, Covers, BoundaryOk, RawRouteOk;
  }

  lemma RiskMeaning(def: RouteDef, q: Quote)
    ensures RiskOk(def, q) <==> q.risk == Risk(def.classification == ExternalIntent, def.classification == ExternalIntent, false, false)
  {
  }

  lemma SpellsValid(ctx: Context, def: RouteDef, q: Quote)
    requires AllPlain(def) && Scanner.Safe(Scanner.RouteRules(ctx.lower), q.scanned) && Spells(ctx, def, LayoutOf(q), q)
    ensures ValidQuote(ctx, def, q)
  {
    hide ReferenceStep, ReferenceRaw, StepOk, StepFit, AmountsOk, AllCount, PlainSteps, Total, AnyGuard, ShapeOk, HasProduct, Scanner.Safe,
         SummaryMembers, RouteMembers, RouteName, Declaration, ExpectedProduct, RootOk, FinalGuardOk, SummaryBound, RiskOk, FiguresOf, PaidOnceAt;
    var layout := LayoutOf(q);
    StepsForMeaning(def, q);
    NameMeaning(q.intent);
    assert q.summary == ReferenceSummary(def, layout, RouteName(q.intent), q.intent, q.summary);
    StepsAgree(ctx, def, q);
    ShapeMeaning(q, layout.product);
    DeclarationMeaning(def);
    FinalMeaning(def, q.summary.steps);
    SummaryMeaning(def, layout, q);
    RawRouteMeaning(ctx, def, layout, q);
    FeesMeaning(def, layout, q);
    RiskMeaning(def, q);
    hide StepsFor, Covers, BoundaryOk, RawRouteOk;
    RootMeaning(ctx, q);
  }

  /** An accepted quote is safe and is the very quote that some layout spells: the one that it states. Every
      other member of it, of its route, of its risk and of its offer follows from the definition. */
  lemma AcceptedSpelled(ctx: Context, def: RouteDef, q: Quote)
    requires AllPlain(def)
    ensures ValidQuote(ctx, def, q)
       <==> Scanner.Safe(Scanner.RouteRules(ctx.lower), q.scanned) && exists layout :: Spells(ctx, def, layout, q)
  {
    hide ValidQuote, Spells, LayoutOf, Scanner.Safe, AllPlain;
    if ValidQuote(ctx, def, q) {
      ValidSpells(ctx, def, q);
      ValidIsSafe(ctx, def, q);
    }
    if Scanner.Safe(Scanner.RouteRules(ctx.lower), q.scanned) && exists layout :: Spells(ctx, def, layout, q) {
      var layout :| Spells(ctx, def, layout, q);
      LayoutUnique(ctx, def, layout, q);
      SpellsValid(ctx, def, q);
    }
  }

  lemma ValidIsSafe(ctx: Context, def: RouteDef, q: Quote)
    ensures ValidQuote(ctx, def, q) ==> Scanner.Safe(Scanner.RouteRules(ctx.lower), q.scanned)
  {
  }

  /** Of the two tables, the legacy one has the say over the mode that it lists for the route. */
  lemma WhichDefinition(ctx: Context, q: Quote)
    ensures DefinitionFor(ctx, q).Some? && ValidQuote(ctx, DefinitionFor(ctx, q).value, q)
       <==> var name := RouteName(q.intent);
            || (name in ctx.legacy && ValidQuote(ctx, ctx.legacy[name], q))
            || (name in ctx.routes && ValidQuote(ctx, ctx.routes[name], q)
                && !(name in ctx.legacy && ctx.legacy[name].mode == ctx.routes[name].mode))
  {
    hide Scanner.Safe, ShapeOk, HasProduct, StepsOk, FinalGuardOk, RootOk, RiskOk, RouteName, RawRouteOk, BoundaryOk;
  }

  /** The guard that a direct quote declares in its product metadata is the sum of all steps' guards, and is
      left out exactly when no step has one. */
  lemma DeclaredGuard(ctx: Context, def: RouteDef, q: Quote)
    requires ValidQuote(ctx, def, q) && HasProduct(q) && def.classification == DirectProtocolOnly
    ensures q.summary.product.Some? && q.summary.product == q.route.product && !q.summary.product.value.external
    ensures q.summary.product.value.guard.None? <==> !AnyGuard(def.steps)
    ensures AnyGuard(def.steps) ==> q.summary.product.value.guard == Some(Total(def.steps))
  {
    DeclarationMeaning(def);
    hide Scanner.Safe, ShapeOk, HasProduct, StepsOk, FinalGuardOk, RootOk, RiskOk, RouteName, RawRouteOk, BoundaryOk, ExpectedProduct, Total;
  }

  /** What arrives at least is within the guards of the whole route, also when a step after the last guarded one
      gives away more. */
  lemma WholeGuard(ctx: Context, def: RouteDef, q: Quote)
    requires ValidQuote(ctx, def, q) && AnyGuard(def.steps)
    ensures var last := q.summary.steps[|q.summary.steps| - 1];
            BaseUnits(last.minimumOutput) * 10000 >= BaseUnits(last.expectedOutput) * (10000 - Total(def.steps))
  {
    FinalMeaning(def, q.summary.steps);
    hide Scanner.Safe, ShapeOk, HasProduct, StepsOk, FinalGuardOk, RootOk, RiskOk, RouteName, RawRouteOk, BoundaryOk, BaseUnits, Total;
  }

  /** The validator's last check over the guards is the one of FinalGuardImpliedIff. */
  lemma FinalGuardIsFinal(def: RouteDef, steps: seq<SummaryStep>)
    requires |steps| == |def.steps| > 0
    ensures var minimum: seq<nat> := seq(|steps|, i requires 0 <= i < |steps| => BaseUnits(steps[i].minimumOutput));
            var expected: seq<nat> := seq(|steps|, i requires 0 <= i < |steps| => BaseUnits(steps[i].expectedOutput));
            FinalGuardOk(def, steps) <==> FinalGuardHolds(def.steps, minimum, expected)
  {
    hide BaseUnits, CeilGuardFloor;
    assert def.steps[..|def.steps|] == def.steps;
  }
}
