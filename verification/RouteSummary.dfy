/** validateDirectRouteSummary (src/direct-route-summary.js): one pass over the steps of a quote that threads
    amounts, guards and the fee, against the definition of its route. A record stands for an object: `keys` are
    its own keys, and a field that is only compared has the type of what it is compared with. */
module RouteSummary {
  import opened Wrappers
  import opened Numerals
  import opened Routes
  import Json
  import Scanner

  // ----- the quote -----

  /** A base-unit amount in the summary: a string, or anything else. */
  datatype Amount = Exact(text: string) | NotText

  /** An amount in the raw route: an integral JSON number, or anything else. */
  datatype RawNumber = Whole(n: int) | NotWhole

  datatype Product = Product(external: bool, guard: Option<nat>)

  datatype SummaryStep = SummaryStep(
    keys: set<string>, index: nat, action: RouteAction, provider: Provider, from: string, to: string,
    expectedInput: Amount, minimumInput: Amount, expectedOutput: Amount, minimumOutput: Amount,
    fee: nat, guard: Option<nat>, direct: bool, external: bool, aggregatorUsed: bool)

  datatype Summary = Summary(
    keys: set<string>, version: string, route: string, from: string, to: string, classification: Classification, mode: string,
    product: Option<Product>, routeAggregatorUsed: bool, externalIntentUsed: bool, dexAggregationPossible: bool,
    feeBps: nat, feeIndex: int, serverSigning: bool, serverSubmission: bool, stepCount: nat, steps: seq<SummaryStep>)

  datatype Evidence = Evidence(aggregatorUsed: bool, status: Option<string>, signed: bool, submitted: bool)

  datatype RawStep = RawStep(
    keys: set<string>, index: int, kind: string, provider: Provider, chain: string, from: string, to: string, asset: string,
    fromAsset: string, toAsset: string, fee: nat, external: bool, cctpMode: string, finality: int,
    gasRequired: bool, informational: bool, sourceChain: string, actionFamily: string,
    expectedEvidence: Option<Evidence>, floorEvidence: Option<Evidence>,
    expectedInput: RawNumber, floorInput: RawNumber, expectedOutput: RawNumber, minimumOutput: RawNumber)

  datatype RawRoute = RawRoute(
    keys: set<string>, status: string, version: string, route: string, mode: string, product: Option<Product>, input: RawNumber,
    expectedOutput: RawNumber, minimumOutput: RawNumber, aggregatorUsed: bool, externalIntentUsed: bool,
    serverSigning: bool, serverSubmission: bool, steps: seq<RawStep>)

  datatype Risk = Risk(externalIntentUsed: bool, dexAggregationPossible: bool, serverSigning: bool, serverSubmission: bool)

  datatype Intent = Intent(from: Endpoint, to: Endpoint, estimatedInput: RawNumber)

  datatype Offer = Offer(feeBps: nat, modeledBps: nat, collectibleNow: bool, collectionSteps: seq<int>)

  /** `scanned` is the JSON value { summary, route }. */
  datatype Quote = Quote(summary: Summary, route: RawRoute, risk: Risk, intent: Intent, offer: Offer, scanned: Json.Value)

  /** The contract table, Number(text) on decimal texts (correct rounding to binary64, abstract here), and
      String.prototype.toLowerCase. */
  datatype Context = Context(routes: map<string, RouteDef>, legacy: map<string, RouteDef>, toNumber: nat -> int,
                             lower: Json.Text -> Json.Text)

  datatype RouteError =
    | Unsafe | Shape | Binding | ProductMetadata | Boundary | RawInvalid | RiskInvalid | StepShape | Plan | StepInvalid | RawPlan
    | SourceOnly | CandidateFinality | AptosFamily | ReceiveInvalid | EvidenceInvalid | AmountInvalid | Continuity
    | ComponentGuard | AmountBinding | FinalGuard | FeeOrRoot

  datatype Result = Ok(summary: Summary) | Err(error: RouteError)

  // ----- keys -----

  const PRODUCT_KEYS := {"product_classification", "economic_eligibility", "public_execution_eligible",
                         "primary_selection_eligible", "route_minimum_guard_bps"}

  const LEGACY_ROOT_KEYS := {"version", "route", "from", "to", "classification", "mode", "route_aggregator_used",
                             "external_intent_protocol_used", "provider_internal_dex_aggregation_possible", "assetfare_fee_bps",
                             "fee_collection_step_index", "server_signing", "server_submission", "step_count", "steps"}

  const LEGACY_ROUTE_KEYS := {"status", "version", "route", "mode", "input_base", "expected_output_base", "minimum_output_base",
                              "steps", "quote_latency_ms", "aggregator_api_used", "external_intent_protocol_used",
                              "server_signing", "server_submission"}

  const STEP_KEYS := {"index", "action", "provider", "from", "to", "expected_input_base", "minimum_input_base",
                      "expected_output_base", "minimum_output_base", "assetfare_fee_bps", "direct_protocol",
                      "external_intent_protocol", "aggregator_api_used"}

  const RAW_STEP_KEYS := {"kind", "provider", "from", "to", "route_fee_bps", "index", "expected_input_base", "floor_input_base",
                          "expected_output_base", "minimum_output_base", "expected_evidence", "floor_evidence"}

  const GUARD_KEY := "minimum_guard_bps"

  function GuardKeys(def: StepDef): set<string> {
    if def.guard.Some? then {GUARD_KEY} else {}
  }

  function StepKeys(def: StepDef): set<string> {
    STEP_KEYS + GuardKeys(def)
  }

  function BridgeKeys(def: StepDef): set<string> {
    if def.provider == Cctp && SourceOnlyChain(def.from.chain) then
      {"cctp_mode", "finality_threshold", "destination_native_gas_required", "economics_informational_only"}
    else if def.provider == Cctp && CandidateChain(def.from.chain) then
      {"finality_threshold"} + if def.from.chain == "aptos" then {"action_family"} else {}
    else {}
  }

  function RawStepKeys(def: StepDef): set<string> {
    RAW_STEP_KEYS +
    match def.provider
    case Across => {"from_asset", "to_asset", "external_intent_protocol"}
    case CctpReceive => {"chain", "source_chain", "cctp_mode", "destination_native_gas_required"}
    case Cctp => {"asset"} + BridgeKeys(def) + GuardKeys(def)
    case Paxos => {"asset"} + GuardKeys(def)
    case _ => {"chain"} + GuardKeys(def)
  }

  /** Summary and route both carry the product metadata. */
  predicate HasProduct(q: Quote) {
    PRODUCT_KEYS <= q.summary.keys && PRODUCT_KEYS <= q.route.keys
  }

  function RootKeys(product: bool): set<string> {
    if product then LEGACY_ROOT_KEYS + PRODUCT_KEYS else LEGACY_ROOT_KEYS
  }

  function RouteKeys(product: bool): set<string> {
    if product then LEGACY_ROUTE_KEYS + PRODUCT_KEYS else LEGACY_ROUTE_KEYS
  }

  predicate ShapeOk(q: Quote) {
    q.summary.keys == RootKeys(HasProduct(q)) && q.route.keys == RouteKeys(HasProduct(q))
  }

  /** The summary's optional fields have a value exactly when their keys are there. */
  ghost predicate Coherent(s: Summary) {
    && (s.product.Some? <==> PRODUCT_KEYS <= s.keys)
    && forall i | 0 <= i < |s.steps| :: s.steps[i].guard.Some? <==> GUARD_KEY in s.steps[i].keys
  }

  lemma LegacyHasNoProduct()
    ensures !(PRODUCT_KEYS <= LEGACY_ROOT_KEYS) && PRODUCT_KEYS <= RootKeys(true)
  {
    assert "product_classification" in PRODUCT_KEYS && "product_classification" !in LEGACY_ROOT_KEYS;
  }

  lemma GuardKeyIsExtra(def: StepDef)
    ensures GUARD_KEY in StepKeys(def) <==> def.guard.Some?
  {
    assert GUARD_KEY !in STEP_KEYS;
  }

  // ----- pure pieces -----

  /** /^[1-9][0-9]*$/ */
  predicate AmountOk(a: Amount) {
    a.Exact? && a.text != [] && AllDigits(a.text) && a.text[0] != '0'
  }

  function BaseUnits(a: Amount): nat {
    if AmountOk(a) then NatOf(a.text) else 0
  }

  /** BigInt division, which truncates toward zero. */
  function TruncatedQuotient(a: int, b: nat): int
    requires b > 0
  {
    if a >= 0 then a / b else -(-a / b)
  }

  function CeilGuardFloor(expected: nat, guard: nat): int {
    TruncatedQuotient(expected * (10000 - guard) + 9999, 10000)
  }

  predicate RawNumberMatches(ctx: Context, raw: RawNumber, exact: Amount) {
    raw.Whole? && raw.n > 0 && ctx.toNumber(BaseUnits(exact)) == raw.n
  }

  predicate EvidenceValid(e: Option<Evidence>) {
    e.Some? && !e.value.aggregatorUsed && (e.value.status.Some? ==> e.value.status.value == "pass") && !e.value.signed && !e.value.submitted
  }

  function RawEndpoints(raw: RawStep, provider: Provider): (string, string) {
    match provider
    case Across => (raw.from + ":" + raw.fromAsset, raw.to + ":" + raw.toAsset)
    case Cctp => (raw.from + ":" + raw.asset, raw.to + ":" + raw.asset)
    case Paxos => (raw.from + ":" + raw.asset, raw.to + ":" + raw.asset)
    case _ => (raw.chain + ":" + raw.from, raw.chain + ":" + raw.to)
  }

  function RawKind(action: RouteAction): string {
    match action
    case Swap => "direct_swap"
    case Receive => "direct_receive"
    case Bridge => "direct_bridge"
  }

  predicate SourceOnlyChain(chain: string) {
    chain == "polygon" || chain == "optimism"
  }

  predicate CandidateChain(chain: string) {
    chain in ["xlayer", "sei", "sonic", "monad", "avalanche", "cronos", "injective", "linea", "aptos", "unichain", "ink"]
  }

  function CandidateThreshold(chain: string): int {
    if chain in ["xlayer", "monad", "avalanche"] then 1000 else 2000
  }

  // ----- one step -----

  /** The summary step repeats its definition. */
  predicate PlanMatches(def: StepDef, step: SummaryStep) {
    && step.index == def.index && step.action == def.action && step.provider == def.provider
    && step.from == Render(def.from) && step.to == Render(def.to) && step.fee == def.fee
    && step.direct == def.direct && step.external == def.external && (def.guard.Some? ==> step.guard == def.guard)
  }

  predicate RawPlanMatches(def: StepDef, raw: RawStep) {
    && raw.kind == RawKind(def.action) && RawEndpoints(raw, def.provider) == (Render(def.from), Render(def.to))
    && (if def.provider == Across then raw.external else "external_intent_protocol" !in raw.keys)
  }

  predicate SourceOnlyOk(def: StepDef, raw: RawStep) {
    def.provider == Cctp && SourceOnlyChain(def.from.chain) ==>
      raw.cctpMode == "no_forward" && raw.finality == 2000 && raw.gasRequired && raw.informational
  }

  predicate CandidateOk(def: StepDef, raw: RawStep) {
    def.provider == Cctp && CandidateChain(def.from.chain) ==> raw.finality == CandidateThreshold(def.from.chain)
  }

  predicate ReceiveOk(def: StepDef, raw: RawStep, sourceChain: string) {
    def.provider == CctpReceive ==>
      raw.sourceChain == sourceChain && raw.cctpMode == "no_forward" && raw.gasRequired && raw.fee == 0
  }

  /** Everything about a step that does not depend on the steps before it, except its amounts. */
  predicate StepPlanOk(def: StepDef, step: SummaryStep, raw: RawStep, i: nat, sourceChain: string) {
    && step.keys == StepKeys(def) && raw.keys == RawStepKeys(def)
    && PlanMatches(def, step)
    && !step.aggregatorUsed && raw.index == i && raw.provider == def.provider && raw.fee == def.fee
    && RawPlanMatches(def, raw) && SourceOnlyOk(def, raw) && CandidateOk(def, raw)
    && (def.from.chain == "aptos" ==> raw.actionFamily == "aptos_move_script")
    && ReceiveOk(def, raw, sourceChain)
    && EvidenceValid(raw.expectedEvidence) && (raw.floorEvidence.None? || EvidenceValid(raw.floorEvidence))
  }

  predicate AmountsOk(step: SummaryStep) {
    AmountOk(step.expectedInput) && AmountOk(step.minimumInput) && AmountOk(step.expectedOutput) && AmountOk(step.minimumOutput)
  }

  predicate AmountsBound(ctx: Context, step: SummaryStep, raw: RawStep) {
    && RawNumberMatches(ctx, raw.expectedInput, step.expectedInput) && RawNumberMatches(ctx, raw.floorInput, step.minimumInput)
    && RawNumberMatches(ctx, raw.expectedOutput, step.expectedOutput) && RawNumberMatches(ctx, raw.minimumOutput, step.minimumOutput)
  }

  /** The cumulative guard after the first n steps. */
  function Guard(defs: seq<StepDef>, n: nat): nat
    requires n <= |defs|
  {
    GuardSum(defs[..n])
  }

  /** The amounts of a step against those of the step before, the guards up to there, and the raw step. */
  predicate AmountsRight(ctx: Context, defs: seq<StepDef>, steps: seq<SummaryStep>, raws: seq<RawStep>, i: nat)
    requires i < |defs| == |steps| == |raws|
  {
    && AmountsOk(steps[i])
    && BaseUnits(steps[i].minimumOutput) <= BaseUnits(steps[i].expectedOutput)
    && (i > 0 ==> steps[i].expectedInput == steps[i - 1].expectedOutput && steps[i].minimumInput == steps[i - 1].minimumOutput)
    && (defs[i].guard.Some? ==>
          BaseUnits(steps[i].minimumOutput) >= CeilGuardFloor(BaseUnits(steps[i].expectedOutput), Guard(defs, i + 1)))
    && AmountsBound(ctx, steps[i], raws[i])
  }

  predicate StepOk(ctx: Context, defs: seq<StepDef>, steps: seq<SummaryStep>, raws: seq<RawStep>, sourceChain: string, i: nat)
    requires i < |defs| == |steps| == |raws|
  {
    StepPlanOk(defs[i], steps[i], raws[i], i, sourceChain) && AmountsRight(ctx, defs, steps, raws, i)
  }

  predicate StepsOk(ctx: Context, defs: seq<StepDef>, steps: seq<SummaryStep>, raws: seq<RawStep>, sourceChain: string)
    requires |defs| == |steps| == |raws|
  {
    forall i | 0 <= i < |defs| :: StepOk(ctx, defs, steps, raws, sourceChain, i)
  }

  // ----- the whole quote -----

  function RouteName(intent: Intent): string {
    Render(intent.from) + "->" + Render(intent.to)
  }

  /** A legacy definition applies when the summary's mode is its mode. */
  function DefinitionFor(ctx: Context, q: Quote): Option<RouteDef> {
    var name := RouteName(q.intent);
    if name in ctx.legacy && q.summary.mode == ctx.legacy[name].mode then Some(ctx.legacy[name])
    else if name in ctx.routes then Some(ctx.routes[name])
    else None
  }

  /** Quotes of source-only routes may omit the receipt. */
  function StepsFor(def: RouteDef, q: Quote): seq<StepDef> {
    if |def.steps| == 2 && def.steps[1].provider == CctpReceive && q.summary.stepCount == 1 && |q.route.steps| == 1
    then def.steps[..1] else def.steps
  }

  function RouteGuard(def: RouteDef): Option<nat> {
    if exists i | 0 <= i < |def.steps| :: def.steps[i].guard.Some? then Some(GuardSum(def.steps)) else None
  }

  function ExpectedProduct(def: RouteDef): Product {
    if def.classification == ExternalIntent then Product(true, None) else Product(false, RouteGuard(def))
  }

  const SUMMARY_VERSION := "assetfare-direct-route-summary-v1"
  const ROUTE_VERSION := "assetfare-direct-multichain-quote-v2"

  predicate SummaryBound(def: RouteDef, q: Quote) {
    var s := q.summary;
    && s.version == SUMMARY_VERSION && s.route == RouteName(q.intent)
    && s.from == Render(q.intent.from) && s.to == Render(q.intent.to)
    && s.mode == def.mode && s.classification == def.classification
  }

  predicate BoundaryOk(def: RouteDef, q: Quote) {
    var s, external := q.summary, def.classification == ExternalIntent;
    && !s.routeAggregatorUsed && s.externalIntentUsed == external && s.dexAggregationPossible == external
    && s.feeBps == 1 && !s.serverSigning && !s.serverSubmission
    && s.stepCount == |StepsFor(def, q)| == |s.steps|
  }

  predicate RawRouteOk(def: RouteDef, q: Quote) {
    var r := q.route;
    && r.status == "pass" && r.version == ROUTE_VERSION && r.route == RouteName(q.intent) && r.mode == def.mode
    && !r.aggregatorUsed && r.externalIntentUsed == (def.classification == ExternalIntent)
    && !r.serverSigning && !r.serverSubmission && |r.steps| == |StepsFor(def, q)|
  }

  predicate RiskOk(def: RouteDef, q: Quote) {
    var external := def.classification == ExternalIntent;
    q.risk.externalIntentUsed == external && q.risk.dexAggregationPossible == external && !q.risk.serverSigning && !q.risk.serverSubmission
  }

  predicate FinalGuardOk(def: RouteDef, steps: seq<SummaryStep>)
    requires steps != []
  {
    var last := steps[|steps| - 1];
    RouteGuard(def).Some? ==> BaseUnits(last.minimumOutput) >= CeilGuardFloor(BaseUnits(last.expectedOutput), RouteGuard(def).value)
  }

  function FeeTotal(steps: seq<SummaryStep>): nat {
    if steps == [] then 0 else FeeTotal(steps[..|steps| - 1]) + steps[|steps| - 1].fee
  }

  /** The last step with fee 1, or -1. */
  function FeeIndex(steps: seq<SummaryStep>): int {
    if steps == [] then -1
    else if steps[|steps| - 1].fee == 1 then |steps| - 1
    else FeeIndex(steps[..|steps| - 1])
  }

  predicate RootOk(ctx: Context, q: Quote)
    requires q.summary.steps != []
  {
    var steps := q.summary.steps;
    var first, last := steps[0], steps[|steps| - 1];
    && RawNumberMatches(ctx, q.intent.estimatedInput, first.expectedInput)
    && RawNumberMatches(ctx, q.route.input, first.expectedInput)
    && first.minimumInput == first.expectedInput
    && RawNumberMatches(ctx, q.route.expectedOutput, last.expectedOutput)
    && RawNumberMatches(ctx, q.route.minimumOutput, last.minimumOutput)
    && FeeTotal(steps) == 1 && FeeIndex(steps) == q.summary.feeIndex
    && q.offer.feeBps == 1 && q.offer.modeledBps == 1 && q.offer.collectibleNow && q.offer.collectionSteps == [FeeIndex(steps)]
  }

  /** A quote that is valid for its route's definition. */
  predicate ValidQuote(ctx: Context, def: RouteDef, q: Quote) {
    && HeadOk(ctx, def, q)
    && q.summary.steps != []
    && StepsOk(ctx, StepsFor(def, q), q.summary.steps, q.route.steps, q.intent.from.chain)
    && FinalGuardOk(def, q.summary.steps)
    && RootOk(ctx, q)
  }

  // ----- the validator -----

  /** What the error about a step says is so. */
  predicate StepFault(e: RouteError, ctx: Context, defs: seq<StepDef>, steps: seq<SummaryStep>, raws: seq<RawStep>, sourceChain: string, i: nat)
    requires i < |defs| == |steps| == |raws|
  {
    PlanFault(e, defs[i], steps[i], raws[i], i, sourceChain) || AmountFault(e, ctx, defs, steps, raws, i)
  }

  predicate AmountFault(e: RouteError, ctx: Context, defs: seq<StepDef>, steps: seq<SummaryStep>, raws: seq<RawStep>, i: nat)
    requires i < |defs| == |steps| == |raws|
  {
    match e
    case AmountInvalid => !AmountsOk(steps[i])
    case Continuity =>
      || BaseUnits(steps[i].minimumOutput) > BaseUnits(steps[i].expectedOutput)
      || (i > 0 && (steps[i].expectedInput != steps[i - 1].expectedOutput || steps[i].minimumInput != steps[i - 1].minimumOutput))
    case ComponentGuard =>
      && defs[i].guard.Some?
      && BaseUnits(steps[i].minimumOutput) < CeilGuardFloor(BaseUnits(steps[i].expectedOutput), Guard(defs, i + 1))
    case AmountBinding => !AmountsBound(ctx, steps[i], raws[i])
    case _ => false
  }

  predicate PlanFault(e: RouteError, def: StepDef, step: SummaryStep, raw: RawStep, i: nat, sourceChain: string) {
    match e
    case StepShape => step.keys != StepKeys(def) || raw.keys != RawStepKeys(def)
    case Plan => !PlanMatches(def, step)
    case StepInvalid => step.aggregatorUsed || raw.index != i || raw.provider != def.provider || raw.fee != def.fee
    case RawPlan => !RawPlanMatches(def, raw)
    case SourceOnly => !SourceOnlyOk(def, raw)
    case CandidateFinality => !CandidateOk(def, raw)
    case AptosFamily => def.from.chain == "aptos" && raw.actionFamily != "aptos_move_script"
    case ReceiveInvalid => !ReceiveOk(def, raw, sourceChain)
    case EvidenceInvalid => !EvidenceValid(raw.expectedEvidence) || (raw.floorEvidence.Some? && !EvidenceValid(raw.floorEvidence))
    case _ => false
  }

  /** The checks of one step in the order in which they are made, up to its evidence. */
  method CheckPlan(def: StepDef, step: SummaryStep, raw: RawStep, index: nat, sourceChain: string) returns (error: Option<RouteError>)
    ensures error.None? <==> StepPlanOk(def, step, raw, index, sourceChain)
    ensures error.Some? ==> PlanFault(error.value, def, step, raw, index, sourceChain)
  {
    if step.keys != StepKeys(def) || raw.keys != RawStepKeys(def) { return Some(StepShape); }
    if !PlanMatches(def, step) { return Some(Plan); }
    if step.aggregatorUsed || raw.index != index || raw.provider != def.provider || raw.fee != def.fee { return Some(StepInvalid); }
    if !RawPlanMatches(def, raw) { return Some(RawPlan); }
    if !SourceOnlyOk(def, raw) { return Some(SourceOnly); }
    if !CandidateOk(def, raw) { return Some(CandidateFinality); }
    if def.from.chain == "aptos" && raw.actionFamily != "aptos_move_script" { return Some(AptosFamily); }
    if !ReceiveOk(def, raw, sourceChain) { return Some(ReceiveInvalid); }
    if !EvidenceValid(raw.expectedEvidence) || (raw.floorEvidence.Some? && !EvidenceValid(raw.floorEvidence)) { return Some(EvidenceInvalid); }
    error := None;
  }

  lemma GuardStep(defs: seq<StepDef>, i: nat)
    requires i < |defs|
    ensures Guard(defs, i + 1) == Guard(defs, i) + if defs[i].guard.Some? then defs[i].guard.value else 0
  {
    assert defs[..i + 1][..i] == defs[..i];
  }

  lemma FeeStep(steps: seq<SummaryStep>, i: nat)
    requires i < |steps|
    ensures FeeTotal(steps[..i + 1]) == FeeTotal(steps[..i]) + steps[i].fee
    ensures FeeIndex(steps[..i + 1]) == if steps[i].fee == 1 then i else FeeIndex(steps[..i])
  {
    assert steps[..i + 1][..i] == steps[..i];
  }

  /** What the loop returns for a step: the definition's fields and the quoted amounts. */
  function SafeStep(def: StepDef, step: SummaryStep, i: nat): SummaryStep {
    SummaryStep(StepKeys(def), i, def.action, def.provider, Render(def.from), Render(def.to),
                step.expectedInput, step.minimumInput, step.expectedOutput, step.minimumOutput,
                def.fee, def.guard, def.direct, def.external, false)
  }

  /** One turn of the loop: the step against its definition and against the cursors left by the step before. */
  method CheckStep(ctx: Context, defs: seq<StepDef>, steps: seq<SummaryStep>, raws: seq<RawStep>, sourceChain: string, index: nat,
                   expectedCursor: Amount, minimumCursor: Amount, cumulativeGuard: nat)
    returns (error: Option<RouteError>, guard: nat)
    requires index < |defs| == |steps| == |raws|
    requires index > 0 ==> expectedCursor == steps[index - 1].expectedOutput && minimumCursor == steps[index - 1].minimumOutput
    requires cumulativeGuard == Guard(defs, index)
    ensures error.None? <==> StepOk(ctx, defs, steps, raws, sourceChain, index)
    ensures error.Some? ==> StepFault(error.value, ctx, defs, steps, raws, sourceChain, index)
    ensures error.None? ==> guard == Guard(defs, index + 1)
  {
    hide StepPlanOk, PlanFault, AmountFault, AmountsRight, Guard;
    guard := cumulativeGuard;
    error := CheckPlan(defs[index], steps[index], raws[index], index, sourceChain);
    if error.Some? { return; }
    error, guard := CheckAmounts(ctx, defs, steps, raws, index, expectedCursor, minimumCursor, cumulativeGuard);
  }

  /** The checks of the amounts of one step. */
  method CheckAmounts(ctx: Context, defs: seq<StepDef>, steps: seq<SummaryStep>, raws: seq<RawStep>, index: nat,
                      expectedCursor: Amount, minimumCursor: Amount, cumulativeGuard: nat)
    returns (error: Option<RouteError>, guard: nat)
    requires index < |defs| == |steps| == |raws|
    requires index > 0 ==> expectedCursor == steps[index - 1].expectedOutput && minimumCursor == steps[index - 1].minimumOutput
    requires cumulativeGuard == Guard(defs, index)
    ensures error.None? <==> AmountsRight(ctx, defs, steps, raws, index)
    ensures error.Some? ==> AmountFault(error.value, ctx, defs, steps, raws, index)
    ensures error.None? ==> guard == Guard(defs, index + 1)
  {
    hide CeilGuardFloor, BaseUnits, AmountsBound, AmountsOk, Guard;
    GuardStep(defs, index);
    var def, step, raw := defs[index], steps[index], raws[index];
    guard := cumulativeGuard;
    if !AmountsOk(step) { return Some(AmountInvalid), guard; }
    if BaseUnits(step.minimumOutput) > BaseUnits(step.expectedOutput)
       || (index > 0 && (step.expectedInput != expectedCursor || step.minimumInput != minimumCursor)) {
      return Some(Continuity), guard;
    }
    if def.guard.Some? {
      guard := cumulativeGuard + def.guard.value;
      if BaseUnits(step.minimumOutput) < CeilGuardFloor(BaseUnits(step.expectedOutput), guard) {
        return Some(ComponentGuard), guard;
      }
    }
    if !AmountsBound(ctx, step, raw) { return Some(AmountBinding), guard; }
    error := None;
  }

  /** The loop over the steps: it stops at the first step that is not right. */
  method CheckSteps(ctx: Context, defs: seq<StepDef>, steps: seq<SummaryStep>, raws: seq<RawStep>, sourceChain: string)
    returns (error: Option<RouteError>, safe: seq<SummaryStep>, expectedCursor: Amount, minimumCursor: Amount, feeSum: nat, feeIndex: int)
    requires |defs| == |steps| == |raws|
    ensures error.None? <==> StepsOk(ctx, defs, steps, raws, sourceChain)
    ensures error.Some? ==> FirstFault(error.value, ctx, defs, steps, raws, sourceChain)
    ensures error.None? ==> |safe| == |steps| && forall i | 0 <= i < |steps| :: safe[i] == SafeStep(defs[i], steps[i], i)
    ensures error.None? && steps != [] ==>
              expectedCursor == steps[|steps| - 1].expectedOutput && minimumCursor == steps[|steps| - 1].minimumOutput
    ensures error.None? ==> feeSum == FeeTotal(steps) && feeIndex == FeeIndex(steps)
  {
    hide StepOk, StepFault, Guard, GuardSum, SafeStep, StepKeys;
    safe, expectedCursor, minimumCursor, feeSum, feeIndex := [], NotText, NotText, 0, -1;
    var cumulativeGuard := 0;
    assert Guard(defs, 0) == 0 by {
      NoGuards(defs);
    }
    for index := 0 to |defs|
      invariant |safe| == index && forall i | 0 <= i < index :: safe[i] == SafeStep(defs[i], steps[i], i)
      invariant forall i | 0 <= i < index :: StepOk(ctx, defs, steps, raws, sourceChain, i)
      invariant index > 0 ==> expectedCursor == steps[index - 1].expectedOutput && minimumCursor == steps[index - 1].minimumOutput
      invariant cumulativeGuard == Guard(defs, index)
      invariant feeSum == FeeTotal(steps[..index]) && feeIndex == FeeIndex(steps[..index])
    {
      FeeStep(steps, index);
      error, cumulativeGuard := CheckStep(ctx, defs, steps, raws, sourceChain, index, expectedCursor, minimumCursor, cumulativeGuard);
      if error.Some? { return; }
      var step := steps[index];
      expectedCursor, minimumCursor := step.expectedOutput, step.minimumOutput;
      feeSum := feeSum + step.fee;
      if step.fee == 1 {
        feeIndex := index;
      }
      safe := safe + [SafeStep(defs[index], step, index)];
    }
    assert steps[..|steps|] == steps;
    error := None;
  }

  /** The error is about the first step that is not right. */
  ghost predicate FirstFault(e: RouteError, ctx: Context, defs: seq<StepDef>, steps: seq<SummaryStep>, raws: seq<RawStep>, sourceChain: string)
    requires |defs| == |steps| == |raws|
  {
    exists i | 0 <= i < |defs| ::
      && (forall j | 0 <= j < i :: StepOk(ctx, defs, steps, raws, sourceChain, j))
      && StepFault(e, ctx, defs, steps, raws, sourceChain, i)
  }

  /** What an error of the validator that is not about a step says is so. */
  ghost predicate HeadFault(e: RouteError, ctx: Context, q: Quote) {
    match e
    case Unsafe => !Scanner.Safe(Scanner.RouteRules(ctx.lower), q.scanned)
    case Shape => !ShapeOk(q)
    case Binding => DefinitionFor(ctx, q).None? || !SummaryBound(DefinitionFor(ctx, q).value, q)
    case ProductMetadata =>
      && HasProduct(q) && DefinitionFor(ctx, q).Some?
      && !(q.summary.product == q.route.product == Some(ExpectedProduct(DefinitionFor(ctx, q).value)))
    case Boundary => DefinitionFor(ctx, q).Some? && !BoundaryOk(DefinitionFor(ctx, q).value, q)
    case RawInvalid => DefinitionFor(ctx, q).Some? && !RawRouteOk(DefinitionFor(ctx, q).value, q)
    case RiskInvalid => DefinitionFor(ctx, q).Some? && !RiskOk(DefinitionFor(ctx, q).value, q)
    case FinalGuard => DefinitionFor(ctx, q).Some? && q.summary.steps != [] && !FinalGuardOk(DefinitionFor(ctx, q).value, q.summary.steps)
    case FeeOrRoot => q.summary.steps == [] || !RootOk(ctx, q)
    case _ => false
  }

  /** An error about a step is about the first one that is not right. */
  ghost predicate LoopFault(e: RouteError, ctx: Context, q: Quote) {
    && DefinitionFor(ctx, q).Some? && |StepsFor(DefinitionFor(ctx, q).value, q)| == |q.summary.steps| == |q.route.steps|
    && FirstFault(e, ctx, StepsFor(DefinitionFor(ctx, q).value, q), q.summary.steps, q.route.steps, q.intent.from.chain)
  }

  lemma NoGuards(defs: seq<StepDef>)
    ensures Guard(defs, 0) == 0
  {
  }

  /** The product metadata that is returned: the expected one, when the quote carries any. */
  function ReturnedProduct(def: RouteDef, present: bool): Option<Product> {
    if present then Some(ExpectedProduct(def)) else None
  }

  /** The checks before the loop. */
  predicate HeadOk(ctx: Context, def: RouteDef, q: Quote) {
    && Scanner.Safe(Scanner.RouteRules(ctx.lower), q.scanned)
    && ShapeOk(q)
    && SummaryBound(def, q)
    && (HasProduct(q) ==> q.summary.product == q.route.product == Some(ExpectedProduct(def)))
    && BoundaryOk(def, q) && RawRouteOk(def, q) && RiskOk(def, q)
  }

  method CheckHead(ctx: Context, q: Quote) returns (error: Option<RouteError>)
    ensures error.None? <==> DefinitionFor(ctx, q).Some? && HeadOk(ctx, DefinitionFor(ctx, q).value, q)
    ensures error.Some? ==> HeadFault(error.value, ctx, q)
  {
    hide Scanner.Safe, Scanner.RouteRules, ShapeOk, HasProduct, DefinitionFor, SummaryBound, BoundaryOk, RawRouteOk, RiskOk, ExpectedProduct,
         FinalGuardOk, RootOk;
    var safeValue := Scanner.Scan(Scanner.RouteRules(ctx.lower), q.scanned);
    if !safeValue { return Some(Unsafe); }
    if !ShapeOk(q) { return Some(Shape); }
    var found := DefinitionFor(ctx, q);
    if found.None? || !SummaryBound(found.value, q) { return Some(Binding); }
    var def := found.value;
    if HasProduct(q) && (q.summary.product != Some(ExpectedProduct(def)) || q.route.product != Some(ExpectedProduct(def))) {
      return Some(ProductMetadata);
    }
    if !BoundaryOk(def, q) { return Some(Boundary); }
    if !RawRouteOk(def, q) { return Some(RawInvalid); }
    if !RiskOk(def, q) { return Some(RiskInvalid); }
    error := None;
  }

  /** The checks after the loop. */
  method CheckFoot(ctx: Context, def: RouteDef, q: Quote, safe: seq<SummaryStep>, expectedCursor: Amount, minimumCursor: Amount,
                   feeSum: nat, feeIndex: int)
    returns (error: Option<RouteError>)
    requires DefinitionFor(ctx, q) == Some(def) && |safe| == |q.summary.steps|
    requires safe != [] ==> safe[0].expectedInput == q.summary.steps[0].expectedInput && safe[0].minimumInput == q.summary.steps[0].minimumInput
    requires var steps := q.summary.steps; steps != [] ==>
               expectedCursor == steps[|steps| - 1].expectedOutput && minimumCursor == steps[|steps| - 1].minimumOutput
    requires feeSum == FeeTotal(q.summary.steps) && feeIndex == FeeIndex(q.summary.steps)
    ensures error.None? <==> q.summary.steps != [] && FinalGuardOk(def, q.summary.steps) && RootOk(ctx, q)
    ensures error.Some? ==> HeadFault(error.value, ctx, q)
  {
    hide RawNumberMatches, CeilGuardFloor, FeeTotal, FeeIndex, RouteGuard, BaseUnits, DefinitionFor, ShapeOk, SummaryBound, BoundaryOk, RawRouteOk,
         RiskOk, ExpectedProduct, HasProduct, Scanner.Safe, Scanner.RouteRules;
    if q.summary.steps == [] { return Some(FeeOrRoot); }
    if RouteGuard(def).Some? && BaseUnits(minimumCursor) < CeilGuardFloor(BaseUnits(expectedCursor), RouteGuard(def).value) { return Some(FinalGuard); }
    if !RawNumberMatches(ctx, q.intent.estimatedInput, safe[0].expectedInput) || !RawNumberMatches(ctx, q.route.input, safe[0].expectedInput)
       || safe[0].minimumInput != safe[0].expectedInput
       || !RawNumberMatches(ctx, q.route.expectedOutput, expectedCursor) || !RawNumberMatches(ctx, q.route.minimumOutput, minimumCursor)
       || feeSum != 1 || feeIndex != q.summary.feeIndex
       || q.offer.feeBps != 1 || q.offer.modeledBps != 1 || !q.offer.collectibleNow || q.offer.collectionSteps != [feeIndex] {
      return Some(FeeOrRoot);
    }
    error := None;
  }

  /** Accepts exactly the quotes that are valid for the definition of their route, and returns their summary. */
  method ValidateDirectRouteSummary(ctx: Context, q: Quote) returns (r: Result)
    ensures r.Ok? <==> DefinitionFor(ctx, q).Some? && ValidQuote(ctx, DefinitionFor(ctx, q).value, q)
    ensures r.Err? ==> HeadFault(r.error, ctx, q) || LoopFault(r.error, ctx, q)
    ensures r.Ok? && Coherent(q.summary) ==> (r.summary == q.summary <==> Numbered(StepsFor(DefinitionFor(ctx, q).value, q)))
  {
    hide Scanner.Safe, Scanner.RouteRules, PRODUCT_KEYS, LEGACY_ROOT_KEYS, LEGACY_ROUTE_KEYS, Coherent;
    hide StepsOk, FirstFault, RawNumberMatches, CeilGuardFloor, FeeTotal, FeeIndex, RouteName, RouteGuard, BaseUnits, FinalGuardOk, HeadFault;
    var s, route := q.summary, q.route;
    var failed := CheckHead(ctx, q);
    if failed.Some? { return Err(failed.value); }
    var def := DefinitionFor(ctx, q).value;
    var defs := StepsFor(def, q);
    var error, safe, expectedCursor, minimumCursor, feeSum, feeIndex := CheckSteps(ctx, defs, s.steps, route.steps, q.intent.from.chain);
    if error.Some? { return Err(error.value); }
    failed := CheckFoot(ctx, def, q, safe, expectedCursor, minimumCursor, feeSum, feeIndex);
    if failed.Some? { return Err(failed.value); }
    var external := def.classification == ExternalIntent;
    r := Ok(Summary(RootKeys(HasProduct(q)), SUMMARY_VERSION, RouteName(q.intent), Render(q.intent.from), Render(q.intent.to), def.classification, def.mode,
                    ReturnedProduct(def, HasProduct(q)), false, external, external, 1, feeIndex, false, false, |safe|, safe));
    if Coherent(s) {
      CoherentProduct(s, HasProduct(q));
      SafeIsGiven(ctx, defs, s.steps, route.steps, q.intent.from.chain, safe, s);
    }
  }

  lemma CoherentProduct(s: Summary, product: bool)
    requires Coherent(s) && s.keys == RootKeys(product)
    ensures s.product.Some? <==> product
  {
    LegacyHasNoProduct();
    hide PRODUCT_KEYS, LEGACY_ROOT_KEYS;
  }

  /** What the loop returns repeats the accepted steps exactly when the table numbers its steps by position. */
  lemma SafeIsGiven(ctx: Context, defs: seq<StepDef>, steps: seq<SummaryStep>, raws: seq<RawStep>, sourceChain: string, safe: seq<SummaryStep>,
                    s: Summary)
    requires |defs| == |steps| == |raws| == |safe| && StepsOk(ctx, defs, steps, raws, sourceChain)
    requires Coherent(s) && s.steps == steps
    requires forall i | 0 <= i < |steps| :: safe[i] == SafeStep(defs[i], steps[i], i)
    ensures safe == steps <==> Numbered(defs)
  {
    hide STEP_KEYS, RAW_STEP_KEYS, RawStepKeys, StepKeys, PRODUCT_KEYS, GUARD_KEY;
    forall i | 0 <= i < |steps| ensures safe[i] == steps[i] <==> defs[i].index == i {
      assert StepOk(ctx, defs, steps, raws, sourceChain, i);
      GuardKeyIsExtra(defs[i]);
    }
    if safe == steps {
      assert forall i | 0 <= i < |steps| :: safe[i] == steps[i];
    }
  }
}
