/** Route definitions and the builder that composes them (integrations/agenti/src/directRouteSummary.ts). */
module Routes {
  import opened Wrappers

  datatype Endpoint = Endpoint(chain: string, token: string)

  datatype RouteAction = Swap | Bridge | Receive

  datatype Provider = Raydium | Orca | Uniswap | Cctp | CctpReceive | Paxos | Across

  datatype StepDef = StepDef(
    index: nat,
    action: RouteAction,
    provider: Provider,
    from: Endpoint,
    to: Endpoint,
    fee: nat,
    direct: bool,
    external: bool,
    guard: Option<nat>)

  datatype Classification = DirectProtocolOnly | ExternalIntent

  datatype RouteDef = RouteDef(classification: Classification, mode: string, steps: seq<StepDef>)

  // ----- endpoints as text -----

  function Render(e: Endpoint): string {
    e.chain + ":" + e.token
  }

  predicate Plain(part: string) {
    part != [] && ':' !in part
  }

  function IndexOf(s: string, c: char): (n: nat)
    ensures n <= |s| && (n < |s| ==> s[n] == c) && forall i | 0 <= i < n :: s[i] != c
  {
    if s == [] || s[0] == c then 0 else 1 + IndexOf(s[1..], c)
  }

  /** endpoint.split(":") with exactly two non-empty parts. */
  function Split(text: string): Option<Endpoint> {
    var n := IndexOf(text, ':');
    if n == |text| then None
    else
      var chain, token := text[..n], text[n + 1..];
      if Plain(chain) && Plain(token) then Some(Endpoint(chain, token)) else None
  }

  lemma SplitRender(e: Endpoint)
    requires Plain(e.chain) && Plain(e.token)
    ensures Split(Render(e)) == Some(e)
  {
    var s := Render(e);
    assert s[|e.chain|] == ':';
    assert forall i | 0 <= i < |e.chain| :: s[i] == e.chain[i];
    assert IndexOf(s, ':') == |e.chain|;
    assert s[..|e.chain|] == e.chain && s[|e.chain| + 1..] == e.token;
  }

  lemma RenderSplit(text: string)
    ensures Split(text).Some? ==> Render(Split(text).value) == text
  {
  }

  /** An endpoint text is accepted exactly when it is the text of an endpoint, and of only one. */
  lemma SplitIff(text: string, e: Endpoint)
    ensures Split(text) == Some(e) <==> Plain(e.chain) && Plain(e.token) && Render(e) == text
  {
    RenderSplit(text);
    if Plain(e.chain) && Plain(e.token) && Render(e) == text {
      SplitRender(e);
    }
  }

  // ----- what a definition must be -----

  function FeeSum(steps: seq<StepDef>): nat {
    if steps == [] then 0 else FeeSum(steps[..|steps| - 1]) + steps[|steps| - 1].fee
  }

  function GuardSum(steps: seq<StepDef>): nat {
    if steps == [] then 0
    else GuardSum(steps[..|steps| - 1]) + (if steps[|steps| - 1].guard.Some? then steps[|steps| - 1].guard.value else 0)
  }

  /** Orca swaps USDG on Solana, Raydium anything else there, Uniswap everywhere else. */
  function SwapProvider(chain: string, source: string, destination: string): Provider {
    if chain != "solana" then Uniswap
    else if source == "USDG" || destination == "USDG" then Orca
    else Raydium
  }

  /** CCTP carries USDC (any token from chains that only it serves), Paxos carries USDG between Solana and
      Robinhood, and Across turns USDC into USDG on Robinhood. */
  predicate BridgeFits(provider: Provider, from: Endpoint, to: Endpoint) {
    match provider
    case Cctp => (from.token == "USDC" && to.token == "USDC") || from.chain == "aptos" || from.chain == "polygon" || from.chain == "optimism"
    case Paxos =>
      && from.token == "USDG" && to.token == "USDG"
      && ((from.chain == "solana" && to.chain == "robinhood") || (from.chain == "robinhood" && to.chain == "solana"))
    case Across => from.token == "USDC" && to == Endpoint("robinhood", "USDG")
    case _ => false
  }

  /** Swaps stay on a chain, bridges leave it, a receipt stays where it is, each with the provider for its
      tokens; only Across is external. */
  predicate StepFits(s: StepDef) {
    && (match s.action
        case Swap => s.from.chain == s.to.chain && s.provider == SwapProvider(s.from.chain, s.from.token, s.to.token)
        case Bridge => s.from.chain != s.to.chain && BridgeFits(s.provider, s.from, s.to)
        case Receive => s.from == s.to && s.provider == CctpReceive)
    && s.external == (s.provider == Across) && s.direct == !s.external
  }

  /** The legs on which the fee is taken. */
  function PaidLegs(steps: seq<StepDef>): seq<(Endpoint, Endpoint)> {
    if steps == [] then []
    else
      var last := steps[|steps| - 1];
      PaidLegs(steps[..|steps| - 1]) + if last.fee == 1 then [(last.from, last.to)] else []
  }

  /** The leg that carries the fee of a route: the first one that delivers USDC or USDG from elsewhere, or the
      whole of a single swap. */
  function FeeLeg(from: Endpoint, to: Endpoint, across: bool): (Endpoint, Endpoint) {
    if from.chain == to.chain then
      if from == Endpoint("solana", "SOL") && to.token == "USDG" then (Endpoint("solana", "USDC"), to)
      else if from == Endpoint("solana", "USDG") && to.token == "SOL" then (from, Endpoint("solana", "USDC"))
      else (from, to)
    else if from.chain == "aptos" || from.chain == "polygon" || from.chain == "optimism" then (from, to)
    else if from.chain == "robinhood" then (Endpoint("robinhood", "USDG"), Endpoint("solana", "USDG"))
    else if to.chain == "robinhood" && from.chain == "solana" && across then (Endpoint("solana", "USDC"), Endpoint("base", "USDC"))
    else if to.chain == "robinhood" && from.chain == "solana" then
      if from.token == "SOL" then (from, Endpoint("solana", "USDC"))
      else if from.token == "USDC" then (from, Endpoint("solana", "USDG"))
      else if to.token == "USDG" then (from, to)
      else (Endpoint("robinhood", "USDG"), to)
    else if to.chain == "robinhood" && across then
      if from.token == "ETH" then (from, Endpoint(from.chain, "USDC"))
      else if to.token == "USDG" then (from, to)
      else (Endpoint("robinhood", "USDG"), to)
    else if to.chain == "robinhood" then (Endpoint(from.chain, "USDC"), Endpoint("solana", "USDC"))
    else (Endpoint(from.chain, "USDC"), Endpoint(to.chain, "USDC"))
  }

  /** Steps lead from one endpoint to the other, each starting where the one before it ended. */
  predicate Chained(steps: seq<StepDef>, from: Endpoint, to: Endpoint) {
    && steps != [] && steps[0].from == from && steps[|steps| - 1].to == to
    && forall i | 0 < i < |steps| :: steps[i].from == steps[i - 1].to
  }

  predicate Numbered(steps: seq<StepDef>) {
    forall i | 0 <= i < |steps| :: steps[i].index == i
  }

  predicate FeesBinary(steps: seq<StepDef>) {
    forall i | 0 <= i < |steps| :: steps[i].fee <= 1
  }

  predicate WellRouted(d: RouteDef, from: Endpoint, to: Endpoint) {
    && Chained(d.steps, from, to)
    && FeesBinary(d.steps) && FeeSum(d.steps) == 1
    && (d.classification == ExternalIntent <==> exists i | 0 <= i < |d.steps| :: d.steps[i].external)
  }

  /** All steps are guarded, by parts of 50 basis points that differ by at most one, larger ones first. */
  predicate GuardSplit(steps: seq<StepDef>) {
    && (forall i | 0 <= i < |steps| :: steps[i].guard.Some?)
    && GuardSum(steps) == 50
    && forall i, j | 0 <= i < j < |steps| :: 0 <= steps[i].guard.value - steps[j].guard.value <= 1
  }

  predicate Unguarded(steps: seq<StepDef>) {
    forall i | 0 <= i < |steps| :: steps[i].guard.None?
  }

  // ----- the way that a route takes -----

  datatype Leg = Leg(action: RouteAction, provider: Provider, from: Endpoint, to: Endpoint)

  function Legs(steps: seq<StepDef>): (r: seq<Leg>)
    ensures |r| == |steps|
  {
    seq(|steps|, i requires 0 <= i < |steps| => Leg(steps[i].action, steps[i].provider, steps[i].from, steps[i].to))
  }

  function Then(legs: seq<Leg>, leg: Leg): seq<Leg> {
    legs + [leg]
  }

  function ThenIf(condition: bool, legs: seq<Leg>, leg: Leg): seq<Leg> {
    if condition then Then(legs, leg) else legs
  }

  /** A bridge between two chains: what it takes on the one and gives on the other. */
  datatype Crossing = Crossing(provider: Provider, from: Endpoint, to: Endpoint)

  function PaxosCrossing(from: string, to: string): Crossing {
    Crossing(Paxos, Endpoint(from, "USDG"), Endpoint(to, "USDG"))
  }

  function CctpCrossing(from: string, to: string): Crossing {
    Crossing(Cctp, Endpoint(from, "USDC"), Endpoint(to, "USDC"))
  }

  function AcrossCrossing(from: string): Crossing {
    Crossing(Across, Endpoint(from, "USDC"), Endpoint("robinhood", "USDG"))
  }

  /** Robinhood is reached and left over Solana as USDG, or reached over Across from any chain but Solana, which
      goes by Base; all other chains exchange USDC directly. */
  function Crossings(from: string, to: string, across: bool): seq<Crossing> {
    if from == to then []
    else if from == "robinhood" then [PaxosCrossing("robinhood", "solana")] + ByCctp("solana", to)
    else if to == "robinhood" && across then
      (if from == "solana" then [CctpCrossing("solana", "base")] else []) + [AcrossCrossing(if from == "solana" then "base" else from)]
    else if to == "robinhood" then ByCctp(from, "solana") + [PaxosCrossing("solana", "robinhood")]
    else ByCctp(from, to)
  }

  /** Between two chains that CCTP serves. */
  function ByCctp(from: string, to: string): seq<Crossing> {
    if from == to then [] else [CctpCrossing(from, to)]
  }

  function SwapLeg(chain: string, source: string, destination: string): Leg {
    Leg(Swap, SwapProvider(chain, source, destination), Endpoint(chain, source), Endpoint(chain, destination))
  }

  /** Tokens are exchanged on a chain in one swap, but SOL and USDG only through USDC. */
  function SwapLegs(chain: string, source: string, destination: string): seq<Leg> {
    if source == destination then []
    else if chain == "solana" && ((source == "SOL" && destination == "USDG") || (source == "USDG" && destination == "SOL")) then
      [SwapLeg(chain, source, "USDC"), SwapLeg(chain, "USDC", destination)]
    else [SwapLeg(chain, source, destination)]
  }

  /** From where one stands over the crossings to the destination: swap to what each crossing takes, cross, and
      swap to what is wanted. */
  function Way(at: Endpoint, crossings: seq<Crossing>, to: Endpoint): seq<Leg>
    decreases |crossings|
  {
    if crossings == [] then SwapLegs(at.chain, at.token, to.token)
    else
      SwapLegs(at.chain, at.token, crossings[0].from.token)
      + [Leg(Bridge, crossings[0].provider, crossings[0].from, crossings[0].to)]
      + Way(crossings[0].to, crossings[1..], to)
  }

  predicate SourceOnlyEndpoint(e: Endpoint) {
    e.chain == "polygon" || e.chain == "optimism"
  }

  /** The legs of a route. From Aptos and the source-only chains the whole way is one transfer, which is received
      in a step of its own from the latter; an endpoint is exchanged for itself in one swap. */
  function Itinerary(from: Endpoint, to: Endpoint, across: bool): seq<Leg> {
    if from == to then [SwapLeg(from.chain, from.token, to.token)]
    else if from.chain != to.chain && from.chain == "aptos" then [Leg(Bridge, Cctp, from, to)]
    else if from.chain != to.chain && SourceOnlyEndpoint(from) then [Leg(Bridge, Cctp, from, to), Leg(Receive, CctpReceive, to, to)]
    else Way(from, Crossings(from.chain, to.chain, across), to)
  }

  /** What the mode says about the way. */
  function ModeOf(from: Endpoint, to: Endpoint, across: bool): string {
    var legs := Itinerary(from, to, across);
    if from.chain == to.chain then if |legs| == 2 then "same_chain_direct_composition" else "same_chain_direct"
    else if from.chain == "aptos" then "aptos_move_cctp_direct"
    else if from.chain == "polygon" then "polygon_source_cctp"
    else if from.chain == "optimism" then "optimism_source_cctp"
    else if exists k | 0 <= k < |legs| :: legs[k].provider == Across then "robinhood_across_ingress_composition"
    else if from.chain == "robinhood" then "robinhood_paxos_egress_composition"
    else if to.chain == "robinhood" then "robinhood_paxos_ingress_composition"
    else "cctp_direct_composition"
  }

  // ----- what the ways are, family by family -----

  function BridgeLeg(c: Crossing): Leg {
    Leg(Bridge, c.provider, c.from, c.to)
  }

  lemma OneCrossing(at: Endpoint, c: Crossing, to: Endpoint)
    ensures Way(at, [c], to) == SwapLegs(at.chain, at.token, c.from.token) + [BridgeLeg(c)] + SwapLegs(c.to.chain, c.to.token, to.token)
  {
    assert [c][1..] == [];
  }

  lemma TwoCrossings(at: Endpoint, c: Crossing, e: Crossing, to: Endpoint)
    ensures Way(at, [c, e], to)
         == SwapLegs(at.chain, at.token, c.from.token) + [BridgeLeg(c)] + SwapLegs(c.to.chain, c.to.token, e.from.token)
            + [BridgeLeg(e)] + SwapLegs(e.to.chain, e.to.token, to.token)
  {
    assert [c, e][1..] == [e];
    OneCrossing(c.to, e, to);
  }

  /** The chains that CCTP and the bridges to Robinhood serve in both directions. */
  predicate Through(e: Endpoint) {
    e.chain != "aptos" && !SourceOnlyEndpoint(e)
  }

  lemma CctpWay(from: Endpoint, to: Endpoint, across: bool)
    requires Through(from) && from.chain != to.chain && from.chain != "robinhood" && to.chain != "robinhood"
    ensures var start := ThenIf(from.token != "USDC", [], SwapLeg(from.chain, from.token, "USDC"));
            var crossed := Then(start, Leg(Bridge, Cctp, Endpoint(from.chain, "USDC"), Endpoint(to.chain, "USDC")));
            Itinerary(from, to, across) == ThenIf(to.token != "USDC", crossed, SwapLeg(to.chain, "USDC", to.token))
    ensures ModeOf(from, to, across) == "cctp_direct_composition"
  {
    OneCrossing(from, CctpCrossing(from.chain, to.chain), to);
  }

  lemma EgressStart(from: Endpoint, to: Endpoint, across: bool)
    requires from.chain == "robinhood" && to.chain != "robinhood"
    ensures Itinerary(from, to, across)
         == SwapLegs("robinhood", from.token, "USDG") + [BridgeLeg(PaxosCrossing("robinhood", "solana"))]
            + if to.chain == "solana" then SwapLegs("solana", "USDG", to.token)
              else [SwapLeg("solana", "USDG", "USDC"), BridgeLeg(CctpCrossing("solana", to.chain))] + SwapLegs(to.chain, "USDC", to.token)
    ensures ModeOf(from, to, across) == "robinhood_paxos_egress_composition"
  {
    if to.chain == "solana" {
      OneCrossing(from, PaxosCrossing("robinhood", "solana"), to);
    } else {
      assert Crossings(from.chain, to.chain, across) == [PaxosCrossing("robinhood", "solana"), CctpCrossing("solana", to.chain)];
      TwoCrossings(from, PaxosCrossing("robinhood", "solana"), CctpCrossing("solana", to.chain), to);
    }
  }

  lemma EgressWay(from: Endpoint, to: Endpoint, across: bool)
    requires from.chain == "robinhood" && to.chain != "robinhood" && Composable(from, to, false)
    ensures var start := ThenIf(from.token == "ETH", [], SwapLeg("robinhood", "ETH", "USDG"));
            var crossed := Then(start, Leg(Bridge, Paxos, Endpoint("robinhood", "USDG"), Endpoint("solana", "USDG")));
            var legs := ThenIf(to != Endpoint("solana", "USDG"), crossed, SwapLeg("solana", "USDG", "USDC"));
            Itinerary(from, to, across)
            == if to.chain == "solana" then if to.token == "SOL" then Then(legs, SwapLeg("solana", "USDC", "SOL")) else legs
               else
                 var onward := Then(legs, Leg(Bridge, Cctp, Endpoint("solana", "USDC"), Endpoint(to.chain, "USDC")));
                 if to.token == "ETH" then Then(onward, SwapLeg(to.chain, "USDC", "ETH")) else onward
    ensures ModeOf(from, to, across) == "robinhood_paxos_egress_composition"
  {
    EgressStart(from, to, across);
    hide Itinerary, ModeOf, Way, Crossings, SwapLeg;
  }

  lemma AcrossFromSolanaWay(from: Endpoint, to: Endpoint)
    requires from.chain == "solana" && to.chain == "robinhood" && Composable(from, to, true)
    ensures var start := ThenIf(from.token != "USDC", [], SwapLeg("solana", from.token, "USDC"));
            var onBase := Then(start, Leg(Bridge, Cctp, Endpoint("solana", "USDC"), Endpoint("base", "USDC")));
            var crossed := Then(onBase, Leg(Bridge, Across, Endpoint("base", "USDC"), Endpoint("robinhood", "USDG")));
            Itinerary(from, to, true) == ThenIf(to.token == "ETH", crossed, SwapLeg("robinhood", "USDG", "ETH"))
    ensures ModeOf(from, to, true) == ACROSS_MODE
  {
    TwoCrossings(from, CctpCrossing("solana", "base"), AcrossCrossing("base"), to);
    assert Itinerary(from, to, true)[|SwapLegs(from.chain, from.token, "USDC")| + 1].provider == Across;
  }

  lemma AcrossWay(from: Endpoint, to: Endpoint)
    requires Through(from) && from.chain != "solana" && from.chain != "robinhood" && to.chain == "robinhood" && Composable(from, to, true)
    ensures var start := ThenIf(from.token == "ETH", [], SwapLeg(from.chain, "ETH", "USDC"));
            var crossed := Then(start, Leg(Bridge, Across, Endpoint(from.chain, "USDC"), Endpoint("robinhood", "USDG")));
            Itinerary(from, to, true) == ThenIf(to.token == "ETH", crossed, SwapLeg("robinhood", "USDG", "ETH"))
    ensures ModeOf(from, to, true) == ACROSS_MODE
  {
    OneCrossing(from, AcrossCrossing(from.chain), to);
    assert Crossings(from.chain, to.chain, true) == [AcrossCrossing(from.chain)];
    assert Itinerary(from, to, true)[|SwapLegs(from.chain, from.token, "USDC")|].provider == Across;
  }

  lemma IngressFromSolanaWay(from: Endpoint, to: Endpoint)
    requires from.chain == "solana" && to.chain == "robinhood" && Composable(from, to, false)
    ensures var start := ThenIf(from.token == "SOL", [], SwapLeg("solana", "SOL", "USDC"));
            var swapped := ThenIf(from.token != "USDG", start, SwapLeg("solana", "USDC", "USDG"));
            var crossed := Then(swapped, Leg(Bridge, Paxos, Endpoint("solana", "USDG"), Endpoint("robinhood", "USDG")));
            Itinerary(from, to, false) == ThenIf(to.token == "ETH", crossed, SwapLeg("robinhood", "USDG", "ETH"))
    ensures ModeOf(from, to, false) == PAXOS_MODE
  {
    assert Crossings(from.chain, to.chain, false) == [PaxosCrossing("solana", "robinhood")];
    OneCrossing(from, PaxosCrossing("solana", "robinhood"), to);
  }

  lemma IngressLegs(from: Endpoint, to: Endpoint)
    requires Through(from) && from.chain != "solana" && from.chain != "robinhood" && to.chain == "robinhood"
    ensures Itinerary(from, to, false)
         == SwapLegs(from.chain, from.token, "USDC") + [BridgeLeg(CctpCrossing(from.chain, "solana")), SwapLeg("solana", "USDC", "USDG")]
            + [BridgeLeg(PaxosCrossing("solana", "robinhood"))] + SwapLegs("robinhood", "USDG", to.token)
    ensures ModeOf(from, to, false) == PAXOS_MODE
  {
    assert Crossings(from.chain, to.chain, false) == [CctpCrossing(from.chain, "solana"), PaxosCrossing("solana", "robinhood")];
    TwoCrossings(from, CctpCrossing(from.chain, "solana"), PaxosCrossing("solana", "robinhood"), to);
  }

  lemma IngressWay(from: Endpoint, to: Endpoint)
    requires Through(from) && from.chain != "solana" && from.chain != "robinhood" && to.chain == "robinhood" && Composable(from, to, false)
    ensures var start := ThenIf(from.token == "ETH", [], SwapLeg(from.chain, "ETH", "USDC"));
            var onSolana := Then(start, Leg(Bridge, Cctp, Endpoint(from.chain, "USDC"), Endpoint("solana", "USDC")));
            var swapped := Then(onSolana, SwapLeg("solana", "USDC", "USDG"));
            var crossed := Then(swapped, Leg(Bridge, Paxos, Endpoint("solana", "USDG"), Endpoint("robinhood", "USDG")));
            Itinerary(from, to, false) == ThenIf(to.token == "ETH", crossed, SwapLeg("robinhood", "USDG", "ETH"))
    ensures ModeOf(from, to, false) == PAXOS_MODE
  {
    IngressLegs(from, to);
    hide Itinerary, ModeOf, Way, Crossings, SwapLeg;
  }

  /** A way without detours: no endpoint is left twice, and two swaps follow each other only between SOL and
      USDG through USDC on Solana. */
  predicate Straight(legs: seq<Leg>) {
    && (forall i, j | 0 <= i < j < |legs| :: legs[i].from == legs[j].from ==> legs[j].action == Receive)
    && forall i | 0 < i < |legs| :: legs[i - 1].action == Swap && legs[i].action == Swap ==> ThroughUsdc(legs[i - 1], legs[i])
  }

  predicate ThroughUsdc(a: Leg, b: Leg) {
    && a.to == b.from == Endpoint("solana", "USDC")
    && ((a.from == Endpoint("solana", "SOL") && b.to == Endpoint("solana", "USDG"))
        || (a.from == Endpoint("solana", "USDG") && b.to == Endpoint("solana", "SOL")))
  }

  /** The crossings follow each other from the chain on and come to no chain twice. */
  ghost predicate Onward(chain: string, crossings: seq<Crossing>)
    decreases |crossings|
  {
    crossings != [] ==>
      && crossings[0].from.chain == chain
      && (forall k | 0 <= k < |crossings| :: crossings[k].to.chain != chain)
      && Onward(crossings[0].to.chain, crossings[1..])
  }

  lemma CrossingsOnward(from: string, to: string, across: bool)
    ensures Onward(from, Crossings(from, to, across))
  {
  }

  ghost predicate OnChains(legs: seq<Leg>, chain: string, crossings: seq<Crossing>) {
    forall i | 0 <= i < |legs| :: legs[i].from.chain == chain || exists k | 0 <= k < |crossings| :: legs[i].from.chain == crossings[k].to.chain
  }

  lemma SwapsStraight(chain: string, source: string, destination: string)
    ensures var swaps := SwapLegs(chain, source, destination);
            Straight(swaps) && forall i | 0 <= i < |swaps| ::
              swaps[i].action == Swap && swaps[i].from.chain == chain && swaps[i].from.token != destination
  {
  }

  lemma JoinStraight(swaps: seq<Leg>, bridge: Leg, rest: seq<Leg>)
    requires Straight(swaps) && Straight(rest) && bridge.action == Bridge
    requires forall i | 0 <= i < |swaps| :: swaps[i].from != bridge.from && swaps[i].from.chain == bridge.from.chain
    requires forall i | 0 <= i < |rest| :: rest[i].from.chain != bridge.from.chain
    ensures Straight(swaps + [bridge] + rest)
  {
    hide ThroughUsdc;
    var legs := swaps + [bridge] + rest;
    var n := |swaps|;
    assert forall i | n < i < |legs| :: legs[i] == rest[i - n - 1];
    assert legs[n] == bridge && forall i | 0 <= i < n :: legs[i] == swaps[i];
  }

  lemma {:induction false} WayStraight(at: Endpoint, crossings: seq<Crossing>, to: Endpoint)
    requires Onward(at.chain, crossings)
    ensures Straight(Way(at, crossings, to)) && OnChains(Way(at, crossings, to), at.chain, crossings)
    decreases |crossings|
  {
    if crossings == [] {
      SwapsStraight(at.chain, at.token, to.token);
    } else {
      var c := crossings[0];
      WayStraight(c.to, crossings[1..], to);
      SwapsStraight(at.chain, at.token, c.from.token);
      hide SwapLegs, Straight, Onward, SwapLeg;
      var swaps, rest := SwapLegs(at.chain, at.token, c.from.token), Way(c.to, crossings[1..], to);
      forall i | 0 <= i < |rest|
        ensures exists k | 0 <= k < |crossings| :: rest[i].from.chain == crossings[k].to.chain
      {
        if rest[i].from.chain != c.to.chain {
          var k :| 0 <= k < |crossings[1..]| && rest[i].from.chain == crossings[1..][k].to.chain;
          assert rest[i].from.chain == crossings[k + 1].to.chain;
        }
      }
      JoinStraight(swaps, BridgeLeg(c), rest);
    }
  }

  /** No pair of endpoints is served by a detour. */
  lemma ItineraryStraight(from: Endpoint, to: Endpoint, across: bool)
    ensures Straight(Itinerary(from, to, across))
  {
    CrossingsOnward(from.chain, to.chain, across);
    WayStraight(from, Crossings(from.chain, to.chain, across), to);
  }

  // ----- the builder -----

  const ACROSS_MODE := "robinhood_across_ingress_composition"
  const PAXOS_MODE := "robinhood_paxos_ingress_composition"

  /** The endpoint pairs for which the built steps lead from the one to the other. */
  predicate Composable(from: Endpoint, to: Endpoint, across: bool) {
    if from.chain == to.chain || from.chain == "aptos" || from.chain == "polygon" || from.chain == "optimism" then true
    else if from.chain == "robinhood" then
      && (from.token == "ETH" || from.token == "USDG")
      && (to.token == "USDC" || (to.chain == "solana" && (to.token == "SOL" || to.token == "USDG")) || (to.chain != "solana" && to.token == "ETH"))
    else if to.chain == "robinhood" then
      && (to.token == "ETH" || to.token == "USDG")
      && if from.chain == "solana" then across || from.token == "SOL" || from.token == "USDC" || from.token == "USDG"
         else from.token == "ETH" || from.token == "USDC"
    else true
  }

  /** The tokens that the tools' schemas offer on a chain. */
  predicate Offered(e: Endpoint) {
    match e.chain
    case "solana" => e.token == "SOL" || e.token == "USDC" || e.token == "USDG"
    case "base" => e.token == "ETH" || e.token == "USDC"
    case "arbitrum" => e.token == "ETH" || e.token == "USDC"
    case "robinhood" => e.token == "ETH" || e.token == "USDG"
    case _ => e.token == "USDC"
  }

  /** Destinations that the schemas admit are never source-only chains. */
  predicate Admitted(from: Endpoint, to: Endpoint) {
    && Offered(from) && Offered(to) && from != to
    && (to.chain == "solana" || to.chain == "base" || to.chain == "arbitrum" || to.chain == "robinhood")
  }

  lemma AdmittedComposable(from: Endpoint, to: Endpoint, across: bool)
    requires Admitted(from, to)
    ensures Composable(from, to, across)
  {
  }

  /** The part of 50 basis points that step i of n gets. */
  function GuardPart(n: nat, i: nat): nat
    requires n > 0
  {
    50 / n + if i < 50 % n then 1 else 0
  }

  lemma {:induction false} GuardPartsSum(steps: seq<StepDef>, n: nat, k: nat)
    requires 0 < n && k <= |steps| <= n && forall i | 0 <= i < k :: steps[i].guard == Some(GuardPart(n, i))
    ensures GuardSum(steps[..k]) == k * (50 / n) + if k <= 50 % n then k else 50 % n
  {
    if k > 0 {
      GuardPartsSum(steps, n, k - 1);
      assert steps[..k][..k - 1] == steps[..k - 1];
      OneMore(k, 50 / n);
    }
  }

  lemma OneMore(k: nat, part: nat)
    requires k > 0
    ensures k * part == (k - 1) * part + part
  {
  }

  /** steps.forEach(...) over the guard: any number of steps shares exactly 50 basis points. */
  method SplitGuard(steps: seq<StepDef>) returns (r: seq<StepDef>)
    requires steps != []
    ensures |r| == |steps| && forall i | 0 <= i < |r| :: r[i] == steps[i].(guard := r[i].guard)
    ensures GuardSplit(r)
  {
    var n := |steps|;
    var base, remainder := 50 / n, 50 % n;
    r := steps;
    for index := 0 to n
      invariant |r| == n
      invariant forall i | 0 <= i < index :: r[i] == steps[i].(guard := Some(GuardPart(n, i)))
      invariant forall i | index <= i < n :: r[i] == steps[i]
    {
      r := r[index := r[index].(guard := Some(base + if index < remainder then 1 else 0))];
    }
    GuardPartsSum(r, n, n);
    assert r[..n] == r;
  }

  /** Where steps taken from `start` lead; None when one does not start where the one before it ended. */
  function Walk(start: Endpoint, steps: seq<StepDef>): Option<Endpoint> {
    if steps == [] then Some(start)
    else
      var last := steps[|steps| - 1];
      if Walk(start, steps[..|steps| - 1]) == Some(last.from) then Some(last.to) else None
  }

  lemma {:induction false} WalkIsChain(start: Endpoint, steps: seq<StepDef>, end: Endpoint)
    requires steps != []
    ensures Walk(start, steps) == Some(end) <==> Chained(steps, start, end)
  {
    var init, last := steps[..|steps| - 1], steps[|steps| - 1];
    if init != [] {
      WalkIsChain(start, init, last.from);
      assert Chained(steps, start, end) <==> Chained(init, start, last.from) && last.to == end by {
        assert init[|init| - 1] == steps[|steps| - 2];
        assert forall i | 0 <= i < |init| :: init[i] == steps[i];
      }
    }
  }

  /** Built steps are numbered, fit their actions, carry fees 0 or 1, and are not guarded yet. */
  ghost predicate Tidy(steps: seq<StepDef>) {
    Numbered(steps) && FeesBinary(steps) && Unguarded(steps) && forall i | 0 <= i < |steps| :: StepFits(steps[i])
  }

  predicate AnyExternal(steps: seq<StepDef>) {
    exists i | 0 <= i < |steps| :: steps[i].external
  }

  /** `add`: push one step. */
  method Add(steps: seq<StepDef>, action: RouteAction, provider: Provider, from: Endpoint, to: Endpoint, fee: nat, external: bool, ghost start: Endpoint)
    returns (r: seq<StepDef>)
    requires Tidy(steps) && fee <= 1
    requires StepFits(StepDef(|steps|, action, provider, from, to, fee, !external, external, None))
    ensures Tidy(r) && |r| == |steps| + 1
    ensures Walk(start, r) == if Walk(start, steps) == Some(from) then Some(to) else None
    ensures FeeSum(r) == FeeSum(steps) + fee && PaidLegs(r) == PaidLegs(steps) + if fee == 1 then [(from, to)] else []
    ensures AnyExternal(r) <==> AnyExternal(steps) || external
    ensures Legs(r) == Then(Legs(steps), Leg(action, provider, from, to))
  {
    var s := StepDef(|steps|, action, provider, from, to, fee, !external, external, None);
    r := steps + [s];
    assert r[..|steps|] == steps && r[|steps|] == s;
  }

  /** `addSwap`: push a swap on one chain. */
  method AddSwap(steps: seq<StepDef>, chain: string, source: string, destination: string, fee: nat, ghost start: Endpoint)
    returns (r: seq<StepDef>)
    requires Tidy(steps) && fee <= 1
    ensures Tidy(r) && |r| == |steps| + 1
    ensures Walk(start, r) == if Walk(start, steps) == Some(Endpoint(chain, source)) then Some(Endpoint(chain, destination)) else None
    ensures FeeSum(r) == FeeSum(steps) + fee
    ensures PaidLegs(r) == PaidLegs(steps) + if fee == 1 then [(Endpoint(chain, source), Endpoint(chain, destination))] else []
    ensures AnyExternal(r) <==> AnyExternal(steps)
    ensures Legs(r) == Then(Legs(steps), SwapLeg(chain, source, destination))
  {
    var provider := if chain == "solana" then (if source == "USDG" || destination == "USDG" then Orca else Raydium) else Uniswap;
    r := Add(steps, Swap, provider, Endpoint(chain, source), Endpoint(chain, destination), fee, false, start);
  }

  lemma NoSteps(start: Endpoint)
    ensures Tidy([]) && Walk(start, []) == Some(start) && FeeSum([]) == 0 && PaidLegs([]) == [] && Legs([]) == [] && !AnyExternal([])
  {
  }

  /** What every branch of the builder delivers. */
  ghost predicate Delivered(d: RouteDef, from: Endpoint, to: Endpoint, composable: bool, across: bool) {
    && d.steps != [] && Tidy(d.steps)
    && (Walk(from, d.steps) == Some(to) <==> composable)
    && (composable ==> FeeSum(d.steps) == 1 && PaidLegs(d.steps) == [FeeLeg(from, to, across)])
    && (composable ==> Legs(d.steps) == Itinerary(from, to, across) && d.mode == ModeOf(from, to, across))
    && (d.classification == ExternalIntent <==> AnyExternal(d.steps))
  }

  method BuildSameChain(from: Endpoint, to: Endpoint, ghost across: bool) returns (d: RouteDef)
    requires from.chain == to.chain
    ensures Delivered(d, from, to, true, across)
  {
    NoSteps(from);
    hide Walk, FeeSum, PaidLegs, Legs, Tidy, AnyExternal;
    var steps := [];
    if from.chain == "solana" && from.token == "SOL" && to.token == "USDG" {
      steps := AddSwap(steps, "solana", "SOL", "USDC", 0, from);
      steps := AddSwap(steps, "solana", "USDC", "USDG", 1, from);
      return RouteDef(DirectProtocolOnly, "same_chain_direct_composition", steps);
    }
    if from.chain == "solana" && from.token == "USDG" && to.token == "SOL" {
      steps := AddSwap(steps, "solana", "USDG", "USDC", 1, from);
      steps := AddSwap(steps, "solana", "USDC", "SOL", 0, from);
      return RouteDef(DirectProtocolOnly, "same_chain_direct_composition", steps);
    }
    steps := AddSwap(steps, from.chain, from.token, to.token, 1, from);
    d := RouteDef(DirectProtocolOnly, "same_chain_direct", steps);
  }

  lemma EgressCases(from: Endpoint, to: Endpoint, across: bool)
    requires from.chain == "robinhood" && to.chain != "robinhood"
    ensures FeeLeg(from, to, across) == (Endpoint("robinhood", "USDG"), Endpoint("solana", "USDG"))
    ensures Composable(from, to, false) <==>
            && (from.token == "ETH" || from.token == "USDG")
            && (to.token == "USDC" || (to.chain == "solana" && (to.token == "SOL" || to.token == "USDG")) || (to.chain != "solana" && to.token == "ETH"))
  {
  }

  /** From Robinhood every route first crosses to Solana as USDG, and goes on from there as USDC unless USDG is wanted. */
  method CrossToSolana(from: Endpoint, to: Endpoint) returns (steps: seq<StepDef>)
    requires from.chain == "robinhood"
    ensures Tidy(steps) && steps != [] && !AnyExternal(steps) && FeeSum(steps) == 1
    ensures PaidLegs(steps) == [(Endpoint("robinhood", "USDG"), Endpoint("solana", "USDG"))]
    ensures Legs(steps)
            == var start := ThenIf(from.token == "ETH", [], SwapLeg("robinhood", "ETH", "USDG"));
               var crossed := Then(start, Leg(Bridge, Paxos, Endpoint("robinhood", "USDG"), Endpoint("solana", "USDG")));
               ThenIf(to != Endpoint("solana", "USDG"), crossed, SwapLeg("solana", "USDG", "USDC"))
    ensures Walk(from, steps) == if from.token == "ETH" || from.token == "USDG"
                                 then Some(Endpoint("solana", if to == Endpoint("solana", "USDG") then "USDG" else "USDC")) else None
  {
    NoSteps(from);
    hide Walk, FeeSum, PaidLegs, Legs, Tidy, AnyExternal, SwapProvider;
    steps := [];
    if from.token == "ETH" {
      steps := AddSwap(steps, "robinhood", "ETH", "USDG", 0, from);
    }
    steps := Add(steps, Bridge, Paxos, Endpoint("robinhood", "USDG"), Endpoint("solana", "USDG"), 1, false, from);
    if to.token != "USDG" || to.chain != "solana" {
      steps := AddSwap(steps, "solana", "USDG", "USDC", 0, from);
    }
  }

  method BuildFromRobinhood(from: Endpoint, to: Endpoint, ghost across: bool) returns (d: RouteDef)
    requires from.chain == "robinhood" && to.chain != "robinhood"
    ensures Delivered(d, from, to, Composable(from, to, false), across)
  {
    hide Walk, FeeSum, PaidLegs, Legs, Tidy, AnyExternal, Composable, FeeLeg, Itinerary, ModeOf, Way, Then, ThenIf, SwapLegs, SwapLeg;
    var steps := CrossToSolana(from, to);
    if to.chain == "solana" {
      if to.token == "SOL" {
        steps := AddSwap(steps, "solana", "USDC", "SOL", 0, from);
      }
    } else {
      steps := Add(steps, Bridge, Cctp, Endpoint("solana", "USDC"), Endpoint(to.chain, "USDC"), 0, false, from);
      if to.token == "ETH" {
        steps := AddSwap(steps, to.chain, "USDC", "ETH", 0, from);
      }
    }
    assert (Walk(from, steps) == Some(to) <==> Composable(from, to, false)) && PaidLegs(steps) == [FeeLeg(from, to, across)] by {
      EgressCases(from, to, across);
    }
    assert Composable(from, to, false) ==> Legs(steps) == Itinerary(from, to, across) && "robinhood_paxos_egress_composition" == ModeOf(from, to, across) by {
      if Composable(from, to, false) { EgressWay(from, to, across); }
    }
    d := RouteDef(DirectProtocolOnly, "robinhood_paxos_egress_composition", steps);
  }

  /** Over Base from Solana, and directly from the other chains. */
  method AcrossFromSolana(from: Endpoint, to: Endpoint) returns (d: RouteDef)
    requires from.chain == "solana" && to.chain == "robinhood"
    ensures Delivered(d, from, to, Composable(from, to, true), true)
  {
    NoSteps(from);
    hide Walk, FeeSum, PaidLegs, Legs, Tidy, AnyExternal, Itinerary, ModeOf, Way, Then, SwapLegs, SwapLeg;
    var steps := [];
    if from.token != "USDC" {
      steps := AddSwap(steps, "solana", from.token, "USDC", 0, from);
    }
    steps := Add(steps, Bridge, Cctp, Endpoint("solana", "USDC"), Endpoint("base", "USDC"), 1, false, from);
    steps := Add(steps, Bridge, Across, Endpoint("base", "USDC"), Endpoint("robinhood", "USDG"), 0, true, from);
    if to.token == "ETH" {
      steps := AddSwap(steps, "robinhood", "USDG", "ETH", 0, from);
    }
    assert Composable(from, to, true) ==> Legs(steps) == Itinerary(from, to, true) && ACROSS_MODE == ModeOf(from, to, true) by {
      if Composable(from, to, true) { AcrossFromSolanaWay(from, to); }
    }
    d := RouteDef(ExternalIntent, ACROSS_MODE, steps);
  }

  method BuildAcross(from: Endpoint, to: Endpoint) returns (d: RouteDef)
    requires to.chain == "robinhood" && from.chain != "robinhood" && Through(from)
    ensures Delivered(d, from, to, Composable(from, to, true), true)
  {
    NoSteps(from);
    hide Walk, FeeSum, PaidLegs, Legs, Tidy, AnyExternal, Itinerary, ModeOf, Way, Then, SwapLegs, SwapLeg;
    if from.chain == "solana" {
      d := AcrossFromSolana(from, to);
      return;
    }
    var steps := [];
    if from.token == "ETH" {
      steps := AddSwap(steps, from.chain, "ETH", "USDC", 1, from);
    }
    steps := Add(steps, Bridge, Across, Endpoint(from.chain, "USDC"), Endpoint("robinhood", "USDG"),
                 if from.token == "USDC" && to.token == "USDG" then 1 else 0, true, from);
    if to.token == "ETH" {
      steps := AddSwap(steps, "robinhood", "USDG", "ETH", if from.token == "USDC" then 1 else 0, from);
    }
    assert Composable(from, to, true) ==> Legs(steps) == Itinerary(from, to, true) && ACROSS_MODE == ModeOf(from, to, true) by {
      if Composable(from, to, true) { AcrossWay(from, to); }
    }
    d := RouteDef(ExternalIntent, ACROSS_MODE, steps);
  }

  method IngressFromSolana(from: Endpoint, to: Endpoint) returns (d: RouteDef)
    requires from.chain == "solana" && to.chain == "robinhood"
    ensures Delivered(d, from, to, Composable(from, to, false), false)
  {
    NoSteps(from);
    hide Walk, FeeSum, PaidLegs, Legs, Tidy, AnyExternal, Itinerary, ModeOf, Way, Then, SwapLegs, SwapLeg;
    var steps := [];
    if from.token == "SOL" {
      steps := AddSwap(steps, "solana", "SOL", "USDC", 1, from);
    }
    if from.token != "USDG" {
      steps := AddSwap(steps, "solana", "USDC", "USDG", if from.token == "USDC" then 1 else 0, from);
    }
    steps := Add(steps, Bridge, Paxos, Endpoint("solana", "USDG"), Endpoint("robinhood", "USDG"),
                 if from.token == "USDG" && to.token == "USDG" then 1 else 0, false, from);
    if to.token == "ETH" {
      steps := AddSwap(steps, "robinhood", "USDG", "ETH", if from.token == "USDG" then 1 else 0, from);
    }
    assert Composable(from, to, false) ==> Legs(steps) == Itinerary(from, to, false) && PAXOS_MODE == ModeOf(from, to, false) by {
      if Composable(from, to, false) { IngressFromSolanaWay(from, to); }
    }
    d := RouteDef(DirectProtocolOnly, PAXOS_MODE, steps);
  }

  method BuildPaxosIngress(from: Endpoint, to: Endpoint) returns (d: RouteDef)
    requires to.chain == "robinhood" && from.chain != "robinhood" && Through(from)
    ensures Delivered(d, from, to, Composable(from, to, false), false)
  {
    NoSteps(from);
    hide Walk, FeeSum, PaidLegs, Legs, Tidy, AnyExternal, Itinerary, ModeOf, Way, Then, SwapLegs, SwapLeg;
    if from.chain == "solana" {
      d := IngressFromSolana(from, to);
      return;
    }
    var steps := [];
    if from.token == "ETH" {
      steps := AddSwap(steps, from.chain, "ETH", "USDC", 0, from);
    }
    steps := Add(steps, Bridge, Cctp, Endpoint(from.chain, "USDC"), Endpoint("solana", "USDC"), 1, false, from);
    steps := AddSwap(steps, "solana", "USDC", "USDG", 0, from);
    steps := Add(steps, Bridge, Paxos, Endpoint("solana", "USDG"), Endpoint("robinhood", "USDG"), 0, false, from);
    if to.token == "ETH" {
      steps := AddSwap(steps, "robinhood", "USDG", "ETH", 0, from);
    }
    assert Composable(from, to, false) ==> Legs(steps) == Itinerary(from, to, false) && PAXOS_MODE == ModeOf(from, to, false) by {
      if Composable(from, to, false) { IngressWay(from, to); }
    }
    d := RouteDef(DirectProtocolOnly, PAXOS_MODE, steps);
  }

  method BuildCctp(from: Endpoint, to: Endpoint, ghost across: bool) returns (d: RouteDef)
    requires from.chain != to.chain && from.chain != "robinhood" && to.chain != "robinhood"
    requires from.chain != "aptos" && from.chain != "polygon" && from.chain != "optimism"
    ensures Delivered(d, from, to, true, across)
  {
    NoSteps(from);
    hide Walk, FeeSum, PaidLegs, Legs, Tidy, AnyExternal, Itinerary, ModeOf, Way, Then, SwapLegs, SwapLeg;
    var steps := [];
    if from.token != "USDC" {
      steps := AddSwap(steps, from.chain, from.token, "USDC", 0, from);
    }
    steps := Add(steps, Bridge, Cctp, Endpoint(from.chain, "USDC"), Endpoint(to.chain, "USDC"), 1, false, from);
    if to.token != "USDC" {
      steps := AddSwap(steps, to.chain, "USDC", to.token, 0, from);
    }
    assert Legs(steps) == Itinerary(from, to, across) && "cctp_direct_composition" == ModeOf(from, to, across) by {
      CctpWay(from, to, across);
    }
    d := RouteDef(DirectProtocolOnly, "cctp_direct_composition", steps);
  }

  /** Setting guards changes neither the path nor the fees. */
  lemma {:induction false} GuardsKeepPath(a: seq<StepDef>, b: seq<StepDef>, start: Endpoint)
    requires |a| == |b| && forall i | 0 <= i < |a| :: b[i] == a[i].(guard := b[i].guard)
    ensures Walk(start, b) == Walk(start, a) && FeeSum(b) == FeeSum(a) && PaidLegs(b) == PaidLegs(a) && Legs(b) == Legs(a)
    ensures forall i | 0 <= i < |a| :: StepFits(b[i]) <==> StepFits(a[i])
  {
    if a != [] {
      GuardsKeepPath(a[..|a| - 1], b[..|b| - 1], start);
    }
  }

  lemma DeliveredWellRouted(d: RouteDef, from: Endpoint, to: Endpoint, composable: bool, across: bool)
    requires Delivered(d, from, to, composable, across)
    ensures WellRouted(d, from, to) <==> composable
  {
    WalkIsChain(from, d.steps, to);
  }

  /** The routes whose steps are guarded. */
  predicate PaxosIngress(from: Endpoint, to: Endpoint, across: bool) {
    && to.chain == "robinhood" && !across
    && from.chain != "robinhood" && from.chain != "aptos" && from.chain != "polygon" && from.chain != "optimism"
  }

  lemma ComposableCases(from: Endpoint, to: Endpoint, across: bool)
    ensures from.chain == to.chain || from.chain == "aptos" || from.chain == "polygon" || from.chain == "optimism" ==> Composable(from, to, across)
    ensures from.chain == "robinhood" ==> Composable(from, to, across) == Composable(from, to, false)
    ensures from.chain != "robinhood" && to.chain != "robinhood" ==> Composable(from, to, across)
  {
  }

  method BuildAptos(from: Endpoint, to: Endpoint, ghost across: bool) returns (d: RouteDef)
    requires from.chain != to.chain && from.chain == "aptos"
    ensures Delivered(d, from, to, true, across)
  {
    NoSteps(from);
    var steps := Add([], Bridge, Cctp, from, to, 1, false, from);
    d := RouteDef(DirectProtocolOnly, "aptos_move_cctp_direct", steps);
  }

  method BuildSourceOnly(from: Endpoint, to: Endpoint, ghost across: bool) returns (d: RouteDef)
    requires from.chain != to.chain && (from.chain == "polygon" || from.chain == "optimism")
    ensures Delivered(d, from, to, true, across)
  {
    NoSteps(from);
    hide Walk, FeeSum, PaidLegs, Legs, Tidy, AnyExternal;
    assert "polygon" + "_source_cctp" == "polygon_source_cctp" && "optimism" + "_source_cctp" == "optimism_source_cctp";
    var steps := Add([], Bridge, Cctp, from, to, 1, false, from);
    steps := Add(steps, Receive, CctpReceive, to, to, 0, false, from);
    d := RouteDef(DirectProtocolOnly, from.chain + "_source_cctp", steps);
  }

  /** buildDefinition: for endpoint texts that split, a definition whose steps lead from the one endpoint to the
      other with total fee 1 exactly for the composable pairs, and then the fee is on one known leg; guards are split over Paxos ingress routes only. */
  method BuildDefinition(fromText: string, toText: string, requestedMode: Option<string>) returns (r: Option<RouteDef>)
    ensures r.Some? <==> Split(fromText).Some? && Split(toText).Some?
    ensures r.Some? ==>
              var from, to := Split(fromText).value, Split(toText).value;
              var across := requestedMode == Some(ACROSS_MODE);
              && (WellRouted(r.value, from, to) <==> Composable(from, to, across))
              && (Composable(from, to, across) ==> PaidLegs(r.value.steps) == [FeeLeg(from, to, across)])
              && (Composable(from, to, across) ==> Legs(r.value.steps) == Itinerary(from, to, across) && r.value.mode == ModeOf(from, to, across))
    ensures r.Some? ==> Numbered(r.value.steps) && forall i | 0 <= i < |r.value.steps| :: StepFits(r.value.steps[i])
    ensures r.Some? ==>
              if PaxosIngress(Split(fromText).value, Split(toText).value, requestedMode == Some(ACROSS_MODE))
              then GuardSplit(r.value.steps) else Unguarded(r.value.steps)
  {
    hide Walk, FeeSum, PaidLegs, FeeLeg, StepFits, Composable, Legs, Itinerary, ModeOf;
    var a, b := Split(fromText), Split(toText);
    if a.None? || b.None? { return None; }
    var from, to := a.value, b.value;
    var d;
    ghost var across := requestedMode == Some(ACROSS_MODE);
    ComposableCases(from, to, across);
    if from.chain == to.chain {
      d := BuildSameChain(from, to, across);
    } else if from.chain == "aptos" {
      d := BuildAptos(from, to, across);
    } else if from.chain == "polygon" || from.chain == "optimism" {
      d := BuildSourceOnly(from, to, across);
    } else if from.chain == "robinhood" {
      d := BuildFromRobinhood(from, to, across);
    } else if to.chain == "robinhood" && requestedMode == Some(ACROSS_MODE) {
      d := BuildAcross(from, to);
    } else if to.chain == "robinhood" {
      d := BuildPaxosIngress(from, to);
      DeliveredWellRouted(d, from, to, Composable(from, to, false), false);
      var guarded := SplitGuard(d.steps);
      GuardsKeepPath(d.steps, guarded, from);
      d := d.(steps := guarded);
      WalkIsChain(from, d.steps, to);
      return Some(d);
    } else {
      d := BuildCctp(from, to, across);
    }
    DeliveredWellRouted(d, from, to, Composable(from, to, across), across);
    r := Some(d);
  }
}
