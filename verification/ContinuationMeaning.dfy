/** Which continuations and approvals are accepted, said of the members of the quote. */
module ContinuationMeaning {
  import opened Wrappers
  import opened Numerals
  import opened Unicode
  import opened Json
  import opened Members
  import opened TypedCanonical
  import opened CanonicalText
  import opened Projection
  import opened QuoteClaim
  import opened Continuation
  import opened OperationIds
  import Chains
  import Decimal = DecimalString

  // ----- amounts -----

  lemma AmountAppend(s: string, c: char)
    requires AllDigits(s) && IsDigit(c)
    ensures Amount(Name(s + [c])) == 10 * Amount(Name(s)) + DigitValue(c)
  {
    var t := Name(s + [c]);
    assert t[..|t| - 1] == Name(s);
  }

  lemma {:induction false} AmountIsNatOf(s: string)
    requires AllDigits(s)
    ensures Amount(Name(s)) == NatOf(s)
  {
    if s != [] {
      var init := s[..|s| - 1];
      AmountIsNatOf(init);
      assert s == init + [s[|s| - 1]];
      AmountAppend(init, s[|s| - 1]);
    }
  }

  /** BigInt of the text of a number is the number. */
  lemma AmountOfDigits(n: nat)
    ensures Amount(Name(Digits(n))) == n
  {
    AmountIsNatOf(Digits(n));
    NatOfDigits(n);
  }

  lemma PositiveDecimalText(t: Text)
    requires PositiveDecimal(t)
    ensures Amount(t) > 0 && t == Name(Digits(Amount(t)))
  {
    var s := seq(|t|, i requires 0 <= i < |t| => t[i] as char);
    assert forall i | 0 <= i < |t| :: IsDigit(s[i]);
    assert Name(s) == t;
    hide Name, Amount;
    DigitsOfNatOf(s);
    AmountIsNatOf(s);
  }

  lemma DigitsArePositive(n: nat)
    requires n > 0
    ensures PositiveDecimal(Name(Digits(n)))
  {
    var s := Digits(n);
    assert forall i | 0 <= i < |s| :: IsDigit(s[i]) && Name(s)[i] == s[i] as int;
  }

  /** The amounts that the schemas admit are the texts of the positive numbers. */
  lemma PositiveDecimalIff(t: Text)
    ensures PositiveDecimal(t) <==> Amount(t) > 0 && t == Name(Digits(Amount(t)))
  {
    hide PositiveDecimal, Name, Amount;
    if PositiveDecimal(t) {
      PositiveDecimalText(t);
    }
    if Amount(t) > 0 {
      DigitsArePositive(Amount(t));
    }
  }

  // ----- chains -----

  /** `chain` is what stands before the first colon of the text, or the whole text when it has none. */
  predicate ChainOf(chain: Text, text: Text) {
    58 !in chain && (text == chain || chain + [58] <= text)
  }

  lemma {:induction false} BeforeIsChain(text: Text)
    ensures ChainOf(Chains.Before(text), text)
  {
    if text != [] && text[0] != 58 {
      BeforeIsChain(text[1..]);
    }
  }

  lemma ChainEnds(chain: Text, text: Text)
    requires ChainOf(chain, text)
    ensures |chain| <= |text| && text[..|chain|] == chain && 58 !in text[..|chain|] && (|chain| < |text| ==> text[|chain|] == 58)
  {
    if text != chain {
      assert text[..|chain| + 1] == chain + [58];
      assert text[..|chain|] == text[..|chain| + 1][..|chain|] == chain;
    }
  }

  lemma OneChain(a: Text, b: Text, text: Text)
    requires ChainOf(a, text) && ChainOf(b, text)
    ensures a == b
  {
    ChainEnds(a, text);
    ChainEnds(b, text);
    assert forall i | 0 <= i < |a| :: text[i] in text[..|a|];
    assert forall i | 0 <= i < |b| :: text[i] in text[..|b|];
  }

  lemma BeforeIff(chain: Text, text: Text)
    ensures Chains.Before(text) == chain <==> ChainOf(chain, text)
  {
    BeforeIsChain(text);
    if ChainOf(chain, text) {
      OneChain(chain, Chains.Before(text), text);
    }
  }

  /** The text of an endpoint: the string itself, or what String() makes of anything else. */
  ghost predicate Reads(ctx: Context, v: Option<Value>, t: Text) {
    match v
    case Some(Str(s)) => t == s
    case _ => t == ctx.other(v)
  }

  ghost predicate Touches(ctx: Context, step: Value, chain: Text) {
    exists t :: (Reads(ctx, Get(step, Name("from")), t) || Reads(ctx, Get(step, Name("to")), t)) && ChainOf(chain, t)
  }

  /** The chains that the steps touch, each once, in order. */
  ghost predicate TouchedChains(ctx: Context, chains: seq<Text>, steps: seq<Value>) {
    Chains.Sorted(chains) && forall x :: x in chains <==> exists i | 0 <= i < |steps| :: Touches(ctx, steps[i], x)
  }

  lemma TouchesMeaning(ctx: Context, step: Value, x: Text)
    ensures Touches(ctx, step, x) <==> x == Chains.Before(StepText(ctx, step, FROM)) || x == Chains.Before(StepText(ctx, step, TO))
  {
    var a, b := StepText(ctx, step, FROM), StepText(ctx, step, TO);
    BeforeIff(x, a);
    BeforeIff(x, b);
    assert Reads(ctx, Get(step, Name("from")), a) && Reads(ctx, Get(step, Name("to")), b);
    hide ChainOf, Chains.Before;
  }

  lemma RequiredChainsMeaning(ctx: Context, chains: seq<Text>, steps: seq<Value>)
    ensures chains == RequiredChains(ctx, steps) <==> TouchedChains(ctx, chains, steps)
  {
    var froms, tos := Endpoints(ctx, steps, FROM), Endpoints(ctx, steps, TO);
    var all := froms + tos;
    var required := RequiredChains(ctx, steps);
    Chains.ChainsOfMeaning(all);
    hide Touches, StepText, Chains.Before, Chains.ChainsOf;
    forall x ensures x in required <==> exists i | 0 <= i < |steps| :: Touches(ctx, steps[i], x) {
      if x in required {
        var k :| 0 <= k < |all| && x == Chains.Before(all[k]);
        var i := if k < |froms| then k else k - |froms|;
        assert all[k] == StepText(ctx, steps[i], FROM) || all[k] == StepText(ctx, steps[i], TO);
        TouchesMeaning(ctx, steps[i], x);
      }
      if exists i | 0 <= i < |steps| :: Touches(ctx, steps[i], x) {
        var i :| 0 <= i < |steps| && Touches(ctx, steps[i], x);
        TouchesMeaning(ctx, steps[i], x);
        assert all[i] == StepText(ctx, steps[i], FROM) && all[|froms| + i] == StepText(ctx, steps[i], TO);
      }
    }
    if TouchedChains(ctx, chains, steps) {
      Chains.SortedUnique(chains, required);
    }
  }

  // ----- the event signer -----

  predicate Burns(step: Value) {
    Get(step, Name("provider")) == Some(Str(Name("circle_cctp")))
  }

  predicate HasFrom(step: Value) {
    match Get(step, Name("from"))
    case Some(Str(_)) => true
    case _ => false
  }

  predicate BurnsOnSolana(step: Value) {
    && Burns(step)
    && match Get(step, Name("from"))
       case Some(Str(t)) => Name("solana:") <= t
       case _ => false
  }

  /** Whether some step burns USDC on Solana; up to the first that does, burns must have an endpoint to look at. */
  ghost predicate SignerRead(steps: seq<Value>, signer: bool) {
    if signer then
      exists k | 0 <= k < |steps| :: BurnsOnSolana(steps[k]) && forall j | 0 <= j < k :: Burns(steps[j]) ==> HasFrom(steps[j])
    else
      forall j | 0 <= j < |steps| :: !BurnsOnSolana(steps[j]) && (Burns(steps[j]) ==> HasFrom(steps[j]))
  }

  lemma SignerUnfolds(steps: seq<Value>, signer: bool)
    requires steps != []
    ensures SignerRead(steps, signer) <==>
              || (signer && BurnsOnSolana(steps[0]))
              || (!BurnsOnSolana(steps[0]) && (Burns(steps[0]) ==> HasFrom(steps[0])) && SignerRead(steps[1..], signer))
  {
    hide Burns, HasFrom, BurnsOnSolana;
    var rest := steps[1..];
    if signer && SignerRead(rest, signer) && (Burns(steps[0]) ==> HasFrom(steps[0])) {
      var k :| 0 <= k < |rest| && BurnsOnSolana(rest[k]) && forall j | 0 <= j < k :: Burns(rest[j]) ==> HasFrom(rest[j]);
      assert BurnsOnSolana(steps[k + 1]) && forall j | 0 < j < k + 1 :: steps[j] == rest[j - 1];
    }
    if signer && SignerRead(steps, signer) && !BurnsOnSolana(steps[0]) {
      var k :| 0 <= k < |steps| && BurnsOnSolana(steps[k]) && forall j | 0 <= j < k :: Burns(steps[j]) ==> HasFrom(steps[j]);
      assert BurnsOnSolana(rest[k - 1]) && forall j | 0 <= j < k - 1 :: rest[j] == steps[j + 1];
    }
    if !signer {
      assert forall j | 0 <= j < |rest| :: rest[j] == steps[j + 1];
    }
  }

  lemma {:induction false} SignerMeaning(steps: seq<Value>, signer: bool)
    ensures SignerRequired(steps) == Some(signer) <==> SignerRead(steps, signer)
  {
    if steps != [] {
      SignerUnfolds(steps, signer);
      SignerMeaning(steps[1..], signer);
      hide Get, SignerRead, Name;
    }
  }

  // ----- the claimed amount in USD -----

  /** The claim is the plain decimal text of the number that the quote gives as a number or as a text. */
  ghost predicate SameDecimal(ctx: Context, v: Option<Value>, claim: Text) {
    exists l, n ::
      && Decimal.Wf(l) && Source(ctx, v) == Some(Decimal.Text(l))
      && Decimal.NormalForm(n) && Decimal.SameNumber(Decimal.Value(l), Decimal.Value(n)) && claim == Name(Decimal.Text(n))
  }

  lemma DecimalClaimMeaning(ctx: Context, v: Option<Value>, claim: Text)
    ensures DecimalClaim(ctx, v) == Some(claim) <==> SameDecimal(ctx, v, claim)
  {
    hide Decimal.Parse, Decimal.Normal, Decimal.Text, Decimal.Value, Decimal.SameNumber, Source, Name;
    if DecimalClaim(ctx, v) == Some(claim) {
      var s := Source(ctx, v).value;
      var l := Decimal.Parse(s).value;
      Decimal.TextParse(s);
      Decimal.NormalKeepsValue(l);
    }
    if SameDecimal(ctx, v, claim) {
      var l, n :| && Decimal.Wf(l) && Source(ctx, v) == Some(Decimal.Text(l))
                  && Decimal.NormalForm(n) && Decimal.SameNumber(Decimal.Value(l), Decimal.Value(n)) && claim == Name(Decimal.Text(n));
      Decimal.ParseText(l);
      Decimal.NormalKeepsValue(l);
      SameNormal(l, Decimal.Normal(l), n);
    }
  }

  lemma SameNormal(l: Decimal.Literal, m: Decimal.Literal, n: Decimal.Literal)
    requires Decimal.Wf(l) && Decimal.NormalForm(m) && Decimal.NormalForm(n)
    requires Decimal.SameNumber(Decimal.Value(l), Decimal.Value(m)) && Decimal.SameNumber(Decimal.Value(l), Decimal.Value(n))
    ensures m == n
  {
    hide Decimal.Value, Decimal.Wf;
    Decimal.SameNumberTransitive(Decimal.Value(m), Decimal.Value(l), Decimal.Value(n));
    Decimal.NormalUnique(m, n);
  }

  // ----- numbers -----

  function Positive(k: int): nat {
    if k > 0 then k else 0
  }

  /** A JSON number, not negative, whose value is n. */
  ghost predicate IsNumber(v: Option<Value>, n: nat) {
    match v
    case Some(Num(b)) =>
      b < 0x8000_0000_0000_0000 && Finite(b) && Significand(b) * Pow2(Positive(Scale(b))) == n * Pow2(Positive(-Scale(b)))
    case _ => false
  }

  lemma ExactQuotient(a: nat, p: nat, n: nat)
    requires p > 0
    ensures a % p == 0 && a / p == n <==> a == n * p
  {
    var d := n - a / p;
    assert a == p * (a / p) + a % p && p * n == n * p;
    assert p * d == p * n - p * (a / p);
    if d > 0 {
      MulAtLeast(p, d);
    } else if d < 0 {
      MulAtLeast(p, -d);
      assert p * -d == -(p * d);
    }
  }

  lemma CountMeaning(v: Option<Value>, n: nat)
    ensures Count(v) == Some(n) <==> IsNumber(v, n)
  {
    match v
    case Some(Num(b)) =>
      ExactQuotient(Significand(b), Pow2(Positive(-Scale(b))), n);
      assert Pow2(0) == 1;
      hide Significand, Finite, Scale, Pow2;
    case _ =>
  }

  // ----- continuations -----

  /** The SHA-256 of the canonical text. */
  ghost predicate Hashes(ctx: Context, v: Value, hash: Text) {
    CanonicalBytes(ctx.number, v).Some? && ctx.sha256(CanonicalBytes(ctx.number, v).value) == hash
  }

  /** Several steps are only run as a session. */
  predicate ModesFor(c: Continuation) {
    if c.stepCount > 1 then c.modes == [Name("session")] && c.recommended == Name("session")
    else c.modes == [Name("one_shot"), Name("session")] && c.recommended == Name("one_shot_or_session")
  }

  /** The claim repeats the continuation, and names endpoints and amount of the intent. */
  ghost predicate ClaimRepeats(ctx: Context, c: Continuation, intent: Value) {
    && c.claim == Claim(c.quoteId, c.issuedAt, c.expiresAt, Name(Digits(c.ttl)), c.claim.from, c.claim.to, c.claim.amount, c.minimum,
                        c.summaryHash, c.payloadHash, c.minimum, c.minimum, c.minimumOutput, c.chains, c.signer,
                        Name(Digits(c.stepCount)), c.modes)
    && Get(intent, Name("from")) == Some(Str(c.claim.from)) && Get(intent, Name("to")) == Some(Str(c.claim.to))
    && SameDecimal(ctx, Get(intent, Name("amount_usd")), c.claim.amount)
  }

  /** What the steps of the summary say: input of the first, least output of the last, signer and chains of all. */
  ghost predicate StepsSay(ctx: Context, c: Continuation, steps: seq<Value>) {
    && steps != []
    && Get(steps[0], Name("expected_input_base")) == Some(Str(c.minimum)) && c.maximum == c.minimum
    && Get(steps[|steps| - 1], Name("minimum_output_base")) == Some(Str(c.minimumOutput))
    && SignerRead(steps, c.signer) && TouchedChains(ctx, c.chains, steps)
  }

  ghost predicate InTime(ctx: Context, c: Continuation, requireUnexpired: bool, now: int) {
    && ctx.date(c.issuedAt).Some? && ctx.date(c.expiresAt).Some?
    && ctx.date(c.expiresAt).value == ctx.date(c.issuedAt).value + 1000 * c.ttl
    && (requireUnexpired ==> ctx.date(c.issuedAt).value <= now < ctx.date(c.expiresAt).value)
  }

  /** The continuation says what these parts of the quote say. */
  ghost predicate Repeats(ctx: Context, c: Continuation, q: Value, summary: Value, intent: Value, steps: seq<Value>, payload: Bytes) {
    && Get(q, Name("direct_route_summary")) == Some(summary) && Get(q, Name("intent")) == Some(intent)
    && Get(summary, Name("steps")) == Some(Arr(steps))
    && Get(q, Name("quote_id")) == Some(Str(c.quoteId))
    && Hashes(ctx, summary, c.summaryHash) && ctx.sha256(payload) == c.payloadHash && Hashes(ctx, ClaimValue(ctx, c.claim), c.fingerprint)
    && Canonical(ctx.number, c.intent) == Canonical(ctx.number, intent)
    && IsNumber(Get(q, Name("ttl_seconds")), c.ttl) && IsNumber(Get(summary, Name("step_count")), c.stepCount)
    && ModesFor(c) && StepsSay(ctx, c, steps) && ClaimRepeats(ctx, c, intent)
  }

  ghost predicate Agrees(ctx: Context, c: Continuation, q: Value) {
    && Projectable(q) && Payload(q).Ok?
    && exists summary, intent, steps :: Repeats(ctx, c, q, summary, intent, steps, Payload(q).value)
  }

  lemma HashMeaning(ctx: Context, v: Value, hash: Text)
    requires hash != []
    ensures Hash(ctx, v) == hash <==> Hashes(ctx, v, hash)
  {
  }

  lemma ModesMeaning(c: Continuation)
    ensures c.recommended == RecommendedMode(c.stepCount) && c.modes == AllowedModes(c.stepCount) <==> ModesFor(c)
  {
  }

  lemma TextOfMeaning(v: Option<Value>, t: Text)
    requires t != []
    ensures TextOf(v) == t <==> v == Some(Str(t))
  {
  }

  lemma TimeMeaning(ctx: Context, c: Continuation, q: Value, requireUnexpired: bool, now: int)
    ensures TimeOk(ctx, c, q, requireUnexpired, now) <==>
              InTime(ctx, c, requireUnexpired, now) && IsNumber(Get(q, Name("ttl_seconds")), c.ttl)
  {
    CountMeaning(Get(q, TTL), c.ttl);
    hide Count, IsNumber, Get;
  }

  lemma ExactTexts(step: Value)
    requires ExactStep(step)
    ensures Get(step, EXPECTED_INPUT).Some? && Get(step, EXPECTED_INPUT).value.Str?
    ensures Get(step, MINIMUM_OUTPUT).Some? && Get(step, MINIMUM_OUTPUT).value.Str?
  {
  }

  lemma EndsRead(q: Value)
    requires Projectable(q)
    ensures Get(Exact(q)[0], Name("expected_input_base")) == Some(Str(Input(q)))
    ensures Get(Exact(q)[|Exact(q)| - 1], Name("minimum_output_base")) == Some(Str(MinimumOutput(q)))
  {
    hide Projectable, Get, StepsUnder, ExactStep, Name;
    ExactTexts(Exact(q)[0]);
    ExactTexts(Exact(q)[|Exact(q)| - 1]);
  }

  lemma StepsMeaning(ctx: Context, c: Continuation, q: Value)
    requires Projectable(q)
    ensures StepsSay(ctx, c, Exact(q)) <==>
              && c.minimum == Input(q) && c.maximum == Input(q) && c.minimumOutput == MinimumOutput(q)
              && SignerRequired(Exact(q)) == Some(c.signer) && c.chains == RequiredChains(ctx, Exact(q))
  {
    hide SignerRead, SignerRequired, TouchedChains, RequiredChains, Get, Projectable, Input, MinimumOutput, StepsUnder, ExactStep, Name;
    EndsRead(q);
    SignerMeaning(Exact(q), c.signer);
    RequiredChainsMeaning(ctx, c.chains, Exact(q));
  }

  lemma ClaimMeaning(ctx: Context, c: Continuation, q: Value, bytes: Bytes)
    requires Projectable(q) && SchemaOk(ctx, c)
    requires StepsSay(ctx, c, Exact(q)) && ModesFor(c)
    requires c.quoteId == TextOf(Get(q, QUOTE_ID)) && Hash(ctx, Summary(q)) == c.summaryHash && ctx.sha256(bytes) == c.payloadHash
    ensures ClaimRepeats(ctx, c, IntentOf(q)) <==>
              var amount := DecimalClaim(ctx, Get(IntentOf(q), AMOUNT_USD));
              amount.Some? && c.claim == ClaimFor(ctx, q, bytes, c.issuedAt, c.expiresAt, c.ttl, c.stepCount, c.signer, amount.value)
  {
    var intent := IntentOf(q);
    StepsMeaning(ctx, c, q);
    ModesMeaning(c);
    DecimalClaimMeaning(ctx, Get(intent, AMOUNT_USD), c.claim.amount);
    NamedEnds(ctx, c);
    TextOfMeaning(Get(intent, FROM), c.claim.from);
    TextOfMeaning(Get(intent, TO), c.claim.to);
    hide Get, SameDecimal, DecimalClaim, StepsSay, Hash, Projectable, Input, MinimumOutput, RequiredChains, SignerRequired, SchemaOk, Digits,
         ModesFor, AllowedModes, RecommendedMode, TextOf;
  }

  lemma NamedEnds(ctx: Context, c: Continuation)
    requires SchemaOk(ctx, c)
    ensures c.claim.from != [] && c.claim.to != [] && c.summaryHash != [] && c.payloadHash != [] && c.fingerprint != []
  {
    hide PositiveDecimal, PlainDecimal, ChainsShape, ModesShape, IntentShape;
  }

  // ----- what is accepted -----

  lemma PartsRead(q: Value)
    requires Projectable(q)
    ensures Get(q, Name("direct_route_summary")) == Some(Summary(q)) && Get(q, Name("intent")) == Some(IntentOf(q))
    ensures Get(Summary(q), Name("steps")) == Some(Arr(Exact(q)))
  {
    hide ExactStep, Name;
  }

  lemma RepeatsMeaning(ctx: Context, c: Continuation, q: Value)
    requires SchemaOk(ctx, c) && Projectable(q) && Payload(q).Ok?
    ensures Quoted(ctx, c, q) && Count(Get(q, TTL)) == Some(c.ttl)
       <==> Repeats(ctx, c, q, Summary(q), IntentOf(q), Exact(q), Payload(q).value)
  {
    hide Projectable, StepsUnder, ExactStep, Payload, SchemaOk, Hash, Hashes, Get, Count, IsNumber, Name, Canonical, ClaimValue, ClaimFor, StepsSay,
         ClaimRepeats, ModesFor, DecimalClaim, SignerRequired, RequiredChains, Input, MinimumOutput, AllowedModes, RecommendedMode, Summary,
         IntentOf, Exact, TextOf;
    PartsRead(q);
    NamedEnds(ctx, c);
    StepsMeaning(ctx, c, q);
    ModesMeaning(c);
    CountMeaning(Get(q, TTL), c.ttl);
    CountMeaning(Get(Summary(q), STEP_COUNT), c.stepCount);
    HashMeaning(ctx, Summary(q), c.summaryHash);
    HashMeaning(ctx, ClaimValue(ctx, c.claim), c.fingerprint);
    QuoteIdText(q, c.quoteId);
    if StepsSay(ctx, c, Exact(q)) && ModesFor(c) && c.quoteId == TextOf(Get(q, QUOTE_ID)) && Hash(ctx, Summary(q)) == c.summaryHash
       && ctx.sha256(Payload(q).value) == c.payloadHash {
      ClaimMeaning(ctx, c, q, Payload(q).value);
    }
  }

  lemma QuoteIdText(q: Value, id: Text)
    ensures Get(q, QUOTE_ID) == Some(Str(id)) ==> TextOf(Get(q, QUOTE_ID)) == id
  {
  }

  /** A continuation is accepted exactly when it fits the schema, its times are right, and it says what the
      quote's members say: the input of the first step, the least output of the last, signer and chains of all,
      counts and times, hashes, and a claim that repeats all of it. */
  lemma AcceptedIff(ctx: Context, c: Continuation, q: Value, requireUnexpired: bool, now: int)
    requires NumberTexts(ctx.number)
    ensures Validate(ctx, c, q, requireUnexpired, now) == Valid(c)
       <==> SchemaOk(ctx, c) && InTime(ctx, c, requireUnexpired, now) && Agrees(ctx, c, q)
  {
    hide Validate, SchemaOk, TimeOk, InTime, Quoted, Repeats, Projectable, Payload, NumberTexts, Get, IsNumber, Count, Summary, IntentOf, Exact;
    ValidQuoted(ctx, c, q, requireUnexpired, now);
    TimeMeaning(ctx, c, q, requireUnexpired, now);
    QuotedProjects(ctx, c, q);
    if SchemaOk(ctx, c) && Projectable(q) && Payload(q).Ok? {
      RepeatsMeaning(ctx, c, q);
      CountMeaning(Get(q, TTL), c.ttl);
      if Agrees(ctx, c, q) {
        OneReading(ctx, c, q);
      }
    }
  }

  lemma QuotedProjects(ctx: Context, c: Continuation, q: Value)
    ensures Quoted(ctx, c, q) ==> Projectable(q) && Payload(q).Ok?
  {
  }

  lemma OneReading(ctx: Context, c: Continuation, q: Value)
    requires Agrees(ctx, c, q)
    ensures Repeats(ctx, c, q, Summary(q), IntentOf(q), Exact(q), Payload(q).value) && IsNumber(Get(q, Name("ttl_seconds")), c.ttl)
  {
    PartsRead(q);
    hide Projectable, Payload, Hashes, Get, IsNumber, Name, Canonical, ClaimValue, StepsSay, ClaimRepeats, ModesFor, Summary, IntentOf, Exact;
  }

  /** The three hashes are those of the summary, the payload and the claim. */
  ghost predicate HashesMatch(ctx: Context, c: Continuation, q: Value)
    requires Projectable(q) && Payload(q).Ok?
  {
    && Hashes(ctx, Summary(q), c.summaryHash) && ctx.sha256(Payload(q).value) == c.payloadHash
    && Hashes(ctx, ClaimValue(ctx, c.claim), c.fingerprint)
  }

  /** The first check that fails decides the error: schema, quote, payload, hashes, times, signer, and then whether
      the continuation, or only its claim, says something else than the quote. */
  lemma RefusedFor(ctx: Context, c: Continuation, q: Value, requireUnexpired: bool, now: int)
    requires NumberTexts(ctx.number)
    ensures var shape, quote := SchemaOk(ctx, c), Projectable(q);
            var hashes := shape && quote && Payload(q).Ok? && HashesMatch(ctx, c, q);
            var times := hashes && InTime(ctx, c, requireUnexpired, now) && IsNumber(Get(q, Name("ttl_seconds")), c.ttl);
            match Validate(ctx, c, q, requireUnexpired, now)
            case Invalid(ShapeInvalid) => !shape
            case Invalid(QuoteInvalid) => shape && !quote
            case Invalid(PayloadInvalid(e)) => shape && quote && Payload(q) == Err(e)
            case Invalid(HashMismatch) => shape && quote && Payload(q).Ok? && !hashes
            case Invalid(TtlInvalid) => hashes && !times
            case Invalid(TypeError) => times && !SignerRead(Exact(q), true) && !SignerRead(Exact(q), false)
            case Invalid(BindingInvalid) => times && (SignerRead(Exact(q), true) || SignerRead(Exact(q), false)) && !BoundTo(ctx, c, q)
            case Invalid(NumericClaimInvalid) => times && BoundTo(ctx, c, q) && forall t :: !SameDecimal(ctx, Get(IntentOf(q), Name("amount_usd")), t)
            case Invalid(ClaimInvalid) => times && BoundTo(ctx, c, q) && !ClaimRepeats(ctx, c, IntentOf(q))
            case Valid(d) => d == c && times && BoundTo(ctx, c, q) && ClaimRepeats(ctx, c, IntentOf(q))
  {
    hide SchemaOk, Projectable, StepsUnder, ExactStep, Payload, Hash, Hashes, Get, IsNumber, InTime, TimeOk, SignerRequired, SignerRead, DecimalClaim,
         SameDecimal, Canonical, ClaimValue, ClaimFor, ClaimRepeats, Bound, BoundTo, NumberTexts, Name, Summary, IntentOf, Exact, Count;
    if SchemaOk(ctx, c) && Projectable(q) && Payload(q).Ok? {
      NamedEnds(ctx, c);
      HashMeaning(ctx, Summary(q), c.summaryHash);
      HashMeaning(ctx, ClaimValue(ctx, c.claim), c.fingerprint);
      TimeMeaning(ctx, c, q, requireUnexpired, now);
      SignerMeaning(Exact(q), true);
      SignerMeaning(Exact(q), false);
      if SignerRequired(Exact(q)).Some? {
        BoundMeaning(ctx, c, q);
        NoDecimal(ctx, Get(IntentOf(q), AMOUNT_USD));
        if HashesMatch(ctx, c, q) && BoundTo(ctx, c, q) {
          BoundClaim(ctx, c, q);
        }
      }
    }
  }

  /** The continuation says what the quote says, its claim aside. */
  ghost predicate BoundTo(ctx: Context, c: Continuation, q: Value)
    requires Projectable(q)
  {
    && Get(q, Name("quote_id")) == Some(Str(c.quoteId)) && Canonical(ctx.number, c.intent) == Canonical(ctx.number, IntentOf(q))
    && IsNumber(Get(Summary(q), Name("step_count")), c.stepCount) && ModesFor(c) && StepsSay(ctx, c, Exact(q))
  }

  lemma BoundMeaning(ctx: Context, c: Continuation, q: Value)
    requires Projectable(q) && SignerRequired(Exact(q)).Some?
    ensures Bound(ctx, c, q, SignerRequired(Exact(q)).value) <==> BoundTo(ctx, c, q)
  {
    hide Projectable, StepsUnder, ExactStep, Get, IsNumber, Count, Name, Canonical, StepsSay, ModesFor, SignerRequired, RequiredChains, Input,
         MinimumOutput, AllowedModes, RecommendedMode, Summary, IntentOf, Exact;
    StepsMeaning(ctx, c, q);
    ModesMeaning(c);
    CountMeaning(Get(Summary(q), STEP_COUNT), c.stepCount);
  }

  lemma NoDecimal(ctx: Context, v: Option<Value>)
    ensures DecimalClaim(ctx, v).None? <==> forall t :: !SameDecimal(ctx, v, t)
  {
    hide DecimalClaim, SameDecimal;
    forall t ensures DecimalClaim(ctx, v) == Some(t) <==> SameDecimal(ctx, v, t) {
      DecimalClaimMeaning(ctx, v, t);
    }
  }

  lemma BoundClaim(ctx: Context, c: Continuation, q: Value)
    requires NumberTexts(ctx.number) && SchemaOk(ctx, c) && Projectable(q) && Payload(q).Ok? && HashesMatch(ctx, c, q) && BoundTo(ctx, c, q)
    requires SignerRequired(Exact(q)).Some?
    ensures var amount := DecimalClaim(ctx, Get(IntentOf(q), AMOUNT_USD));
            && SignerRequired(Exact(q)) == Some(c.signer)
            && (amount.Some? ==>
                  var expected := ClaimFor(ctx, q, Payload(q).value, c.issuedAt, c.expiresAt, c.ttl, c.stepCount, c.signer, amount.value);
                  ClaimRepeats(ctx, c, IntentOf(q)) <==>
                    && Canonical(ctx.number, ClaimValue(ctx, c.claim)) == Canonical(ctx.number, ClaimValue(ctx, expected))
                    && c.claim.payloadHash == c.payloadHash && c.claim.summaryHash == c.summaryHash)
            && (amount.None? ==> !ClaimRepeats(ctx, c, IntentOf(q)))
  {
    hide Projectable, StepsUnder, ExactStep, Payload, SchemaOk, Hash, Hashes, Get, IsNumber, Name, Canonical, ClaimValue, ClaimFor, StepsSay,
         ClaimRepeats, ModesFor, DecimalClaim, SignerRequired, RequiredChains, Input, MinimumOutput, Summary, IntentOf, Exact, TextOf, NumberTexts;
    NamedEnds(ctx, c);
    HashMeaning(ctx, Summary(q), c.summaryHash);
    StepsMeaning(ctx, c, q);
    QuoteIdText(q, c.quoteId);
    ClaimMeaning(ctx, c, q, Payload(q).value);
    var amount := DecimalClaim(ctx, Get(IntentOf(q), AMOUNT_USD));
    if amount.Some? {
      var expected := ClaimFor(ctx, q, Payload(q).value, c.issuedAt, c.expiresAt, c.ttl, c.stepCount, c.signer, amount.value);
      ClaimTextIff(ctx, c.claim, expected);
      ClaimHashes(ctx, q, Payload(q).value, c.issuedAt, c.expiresAt, c.ttl, c.stepCount, c.signer, amount.value);
    }
  }

  // ----- what is issued -----

  /** The quote has an amount that is not negative. */
  ghost predicate AmountNotNegative(ctx: Context, v: Option<Value>) {
    exists l :: Decimal.Wf(l) && Source(ctx, v) == Some(Decimal.Text(l)) && Decimal.Value(l).numerator >= 0
  }

  /** What a quote needs for the continuation that is issued for it to fit the schema. */
  ghost predicate Issuable(ctx: Context, q: Value, issuedAt: Text, expiresAt: Text)
    requires Projectable(q)
  {
    && (exists id :: Get(q, Name("quote_id")) == Some(Str(id)) && ctx.uuid(id))
    && ctx.dateTime(issuedAt) && ctx.dateTime(expiresAt)
    && (exists ttl: nat :: 1 <= ttl <= 60 && IsNumber(Get(q, Name("ttl_seconds")), ttl))
    && (exists count: nat :: 1 <= count <= 8 && IsNumber(Get(Summary(q), Name("step_count")), count))
    && IntentShape(IntentOf(q)) && AmountNotNegative(ctx, Get(IntentOf(q), Name("amount_usd")))
    && forall i, chain | 0 <= i < |Exact(q)| && Touches(ctx, Exact(q)[i], chain) :: chain in CHAINS
  }

  lemma IssuedAmount(ctx: Context, v: Option<Value>)
    ensures DecimalClaim(ctx, v).Some? && PlainDecimal(DecimalClaim(ctx, v).value) <==> AmountNotNegative(ctx, v)
  {
    hide Decimal.Parse, Decimal.Text, Decimal.Value, Source, PlainDecimal, DecimalClaim, Decimal.Wf;
    if DecimalClaim(ctx, v).Some? {
      DecimalClaimMeaning(ctx, v, DecimalClaim(ctx, v).value);
      var l, n :| && Decimal.Wf(l) && Source(ctx, v) == Some(Decimal.Text(l))
                  && Decimal.NormalForm(n) && Decimal.SameNumber(Decimal.Value(l), Decimal.Value(n))
                  && DecimalClaim(ctx, v).value == Name(Decimal.Text(n));
      AmountFits(ctx, v, l);
      if AmountNotNegative(ctx, v) {
        var k :| Decimal.Wf(k) && Source(ctx, v) == Some(Decimal.Text(k)) && Decimal.Value(k).numerator >= 0;
        AmountFits(ctx, v, k);
      }
    }
    if AmountNotNegative(ctx, v) {
      var k :| Decimal.Wf(k) && Source(ctx, v) == Some(Decimal.Text(k)) && Decimal.Value(k).numerator >= 0;
      AmountFits(ctx, v, k);
    }
  }

  /** Distinct texts out of a list are no more than the list has. */
  lemma {:induction false} NoMoreThan(texts: seq<Text>, list: seq<Text>)
    requires (forall i, j | 0 <= i < j < |texts| :: texts[i] != texts[j]) && forall t | t in texts :: t in list
    ensures |texts| <= |list|
  {
    if texts != [] {
      var t, rest := texts[0], texts[1..];
      assert t in texts;
      var k :| 0 <= k < |list| && list[k] == t;
      var others := list[..k] + list[k + 1..];
      forall x | x in rest ensures x in others {
        assert x in texts && x in list;
        var i :| 0 <= i < |rest| && rest[i] == x;
        assert texts[i + 1] == x && x != t;
        var m :| 0 <= m < |list| && list[m] == x;
        assert m < k ==> others[m] == x;
        assert m > k ==> others[m - 1] == x;
      }
      NoMoreThan(rest, others);
    }
  }

  lemma IssuedChains(ctx: Context, steps: seq<Value>)
    requires steps != []
    ensures ChainsShape(RequiredChains(ctx, steps)) <==> forall i, chain | 0 <= i < |steps| && Touches(ctx, steps[i], chain) :: chain in CHAINS
  {
    var chains := RequiredChains(ctx, steps);
    RequiredChainsMeaning(ctx, chains, steps);
    TouchesMeaning(ctx, steps[0], Chains.Before(StepText(ctx, steps[0], FROM)));
    hide Touches, RequiredChains, CHAINS, StepText, Chains.Before, Less, FROM, TO;
    assert Chains.Before(StepText(ctx, steps[0], FROM)) in chains;
    forall i, j | 0 <= i < j < |chains| ensures chains[i] != chains[j] {
      LessTotal(chains[i], chains[j]);
    }
    if forall t | t in chains :: t in CHAINS {
      NoMoreThan(chains, CHAINS);
      SeventeenChains();
    }
  }

  lemma SeventeenChains()
    ensures |CHAINS| == 17
  {
  }

  lemma CountText(n: nat)
    ensures PositiveDecimal(Name(Digits(n))) <==> n > 0
  {
    AmountOfDigits(n);
    PositiveDecimalIff(Name(Digits(n)));
  }

  lemma ModesAdmitted(count: nat)
    ensures ModesShape(AllowedModes(count)) && (RecommendedMode(count) == SESSION || RecommendedMode(count) == ONE_SHOT_OR_SESSION)
  {
  }

  lemma EndsArePositive(q: Value)
    requires Projectable(q)
    ensures PositiveDecimal(Input(q)) && PositiveDecimal(MinimumOutput(q))
  {
    hide Projectable, StepsUnder, Get;
    assert ExactStep(Exact(q)[0]) && ExactStep(Exact(q)[|Exact(q)| - 1]);
  }

  lemma IntentEnds(v: Value)
    ensures IntentShape(v) ==> TextOf(Get(v, FROM)) != [] && TextOf(Get(v, TO)) != []
  {
  }

  /** The texts of SHA-256: 64 hexadecimal digits in lower case. */
  ghost predicate HexHashes(ctx: Context) {
    forall bytes :: |ctx.sha256(bytes)| == 64 && forall i | 0 <= i < 64 :: 48 <= ctx.sha256(bytes)[i] <= 57 || 97 <= ctx.sha256(bytes)[i] <= 102
  }

  lemma SummaryHashText(ctx: Context, q: Value)
    requires HexHashes(ctx) && NumberTexts(ctx.number) && Wf(q) && Projectable(q)
    ensures HashText(Hash(ctx, Summary(q)))
  {
    hide Projectable, NumberTexts, Wf;
    PartsRead(q);
    PartsWf(q, SUMMARY);
    CanonicalBytesMeaning(ctx.number, Summary(q), Summary(q));
  }

  lemma ClaimHashText(ctx: Context, claim: Claim)
    requires HexHashes(ctx) && NumberTexts(ctx.number)
    ensures HashText(Hash(ctx, ClaimValue(ctx, claim)))
  {
    hide NumberTexts, Wf, NoNumbers, ClaimValue;
    ClaimWf(ctx, claim);
    CanonicalBytesMeaning(ctx.number, ClaimValue(ctx, claim), ClaimValue(ctx, claim));
  }

  lemma AssembledFits(ctx: Context, q: Value, bytes: Bytes, issuedAt: Text, expiresAt: Text, ttl: nat, count: nat, signer: bool, amount: Text)
    requires HexHashes(ctx) && NumberTexts(ctx.number) && Wf(q) && Projectable(q)
    ensures SchemaOk(ctx, Assembled(ctx, q, bytes, issuedAt, expiresAt, ttl, count, signer, amount))
       <==> && ctx.uuid(TextOf(Get(q, QUOTE_ID))) && ctx.dateTime(issuedAt) && ctx.dateTime(expiresAt) && 1 <= ttl <= 60 && 1 <= count <= 8
            && IntentShape(IntentOf(q)) && PlainDecimal(amount) && ChainsShape(RequiredChains(ctx, Exact(q)))
  {
    hide Projectable, NumberTexts, Wf, Get, HexHashes, PlainDecimal, PositiveDecimal, ChainsShape, ModesShape, IntentShape, HashText, Hash,
         ClaimValue, RequiredChains, Input, MinimumOutput, TextOf, AllowedModes, RecommendedMode, Name, Digits, Exact, Summary, IntentOf;
    var claim := ClaimFor(ctx, q, bytes, issuedAt, expiresAt, ttl, count, signer, amount);
    SummaryHashText(ctx, q);
    ClaimHashText(ctx, claim);
    PayloadHashText(ctx, bytes);
    EndsArePositive(q);
    IntentEnds(IntentOf(q));
    CountText(ttl);
    CountText(count);
    ModesAdmitted(count);
  }

  lemma PayloadHashText(ctx: Context, bytes: Bytes)
    requires HexHashes(ctx)
    ensures HashText(ctx.sha256(bytes))
  {
  }

  lemma IsNumberUnique(v: Option<Value>, m: nat, n: nat)
    requires IsNumber(v, m) && IsNumber(v, n)
    ensures m == n
  {
    CountMeaning(v, m);
    CountMeaning(v, n);
    hide IsNumber, Count;
  }

  lemma IssuableMeaning(ctx: Context, q: Value, issuedAt: Text, expiresAt: Text)
    requires Build(ctx, q, issuedAt, expiresAt).Some?
    ensures Projectable(q)
    ensures Issuable(ctx, q, issuedAt, expiresAt)
       <==> var b := Build(ctx, q, issuedAt, expiresAt).value;
            && ctx.uuid(TextOf(Get(q, QUOTE_ID))) && ctx.dateTime(issuedAt) && ctx.dateTime(expiresAt) && 1 <= b.ttl <= 60 && 1 <= b.stepCount <= 8
            && IntentShape(IntentOf(q)) && PlainDecimal(b.claim.amount) && ChainsShape(RequiredChains(ctx, Exact(q)))
  {
    hide Projectable, Get, PlainDecimal, ChainsShape, IntentShape, Hash, ClaimValue, RequiredChains, Input, MinimumOutput, TextOf, AllowedModes,
         RecommendedMode, Name, Digits, Exact, Summary, IntentOf, Touches, CHAINS, AmountNotNegative, IsNumber, Count, DecimalClaim, SignerRequired;
    var b := Build(ctx, q, issuedAt, expiresAt).value;
    CountMeaning(Get(q, TTL), b.ttl);
    CountMeaning(Get(Summary(q), STEP_COUNT), b.stepCount);
    IssuedAmount(ctx, Get(IntentOf(q), AMOUNT_USD));
    IssuedChains(ctx, Exact(q));
    forall n: nat | IsNumber(Get(q, Name("ttl_seconds")), n) ensures n == b.ttl { IsNumberUnique(Get(q, TTL), n, b.ttl); }
    forall n: nat | IsNumber(Get(Summary(q), Name("step_count")), n) ensures n == b.stepCount { IsNumberUnique(Get(Summary(q), STEP_COUNT), n, b.stepCount); }
  }

  /** The continuation that is issued for a quote fits the schema exactly when the quote itself is in order: an
      id, a time to live of 1 to 60 seconds, 1 to 8 steps, an intent, an amount that is not negative, and
      no chain that is not served. */
  lemma IssuedFits(ctx: Context, q: Value, issuedAt: Text, expiresAt: Text)
    requires HexHashes(ctx) && NumberTexts(ctx.number) && Wf(q) && Build(ctx, q, issuedAt, expiresAt).Some?
    ensures Projectable(q) && (SchemaOk(ctx, Build(ctx, q, issuedAt, expiresAt).value) <==> Issuable(ctx, q, issuedAt, expiresAt))
  {
    hide SchemaOk, Issuable, Projectable, NumberTexts, Wf, Get, HexHashes, PlainDecimal, ChainsShape, IntentShape, Hash, ClaimValue, RequiredChains,
         Input, MinimumOutput, TextOf, AllowedModes, RecommendedMode, Name, Digits, Exact, Summary, IntentOf, Count, DecimalClaim, SignerRequired;
    IssuableMeaning(ctx, q, issuedAt, expiresAt);
    var b := Build(ctx, q, issuedAt, expiresAt).value;
    AssembledFits(ctx, q, Payload(q).value, issuedAt, expiresAt, b.ttl, b.stepCount, b.signer, b.claim.amount);
  }

  /** A server that issues what it builds is understood: its continuation is accepted for its quote exactly when
      the quote is in order and the times are as far apart as the quote says. */
  lemma IssuedAccepted(ctx: Context, q: Value, issuedAt: Text, expiresAt: Text, requireUnexpired: bool, now: int)
    requires HexHashes(ctx) && NumberTexts(ctx.number) && Wf(q) && Build(ctx, q, issuedAt, expiresAt).Some?
    ensures var b := Build(ctx, q, issuedAt, expiresAt).value;
            && Projectable(q)
            && (Validate(ctx, b, q, requireUnexpired, now) == Valid(b) <==>
                  Issuable(ctx, q, issuedAt, expiresAt) && InTime(ctx, b, requireUnexpired, now))
  {
    hide SchemaOk, Issuable, Projectable, NumberTexts, Wf, HexHashes, Validate, Count, InTime, IsNumber, Get, TimeOk, DecimalClaim, SignerRequired, Payload;
    IssuedFits(ctx, q, issuedAt, expiresAt);
    var b := Build(ctx, q, issuedAt, expiresAt).value;
    BuilderAccepted(ctx, q, issuedAt, expiresAt, requireUnexpired, now);
    TimeMeaning(ctx, b, q, requireUnexpired, now);
    CountMeaning(Get(q, TTL), b.ttl);
  }

  // ----- approvals -----

  /** The texts of two numbers, the first at most the second. */
  ghost predicate TextsAtMost(a: Text, b: Text) {
    exists m: nat, n: nat :: a == Name(Digits(m)) && b == Name(Digits(n)) && m <= n
  }

  lemma AtMostMeaning(a: Text, b: Text)
    requires PositiveDecimal(a) && PositiveDecimal(b)
    ensures TextsAtMost(a, b) <==> Amount(a) <= Amount(b)
  {
    PositiveDecimalIff(a);
    PositiveDecimalIff(b);
    hide Amount, PositiveDecimal, Name;
    forall m: nat, n: nat | a == Name(Digits(m)) && b == Name(Digits(n)) ensures m == Amount(a) && n == Amount(b) {
      AmountOfDigits(m);
      AmountOfDigits(n);
    }
  }

  lemma BoundsAreDecimals(ctx: Context, c: Continuation)
    ensures SchemaOk(ctx, c) ==> PositiveDecimal(c.maximum) && PositiveDecimal(c.minimumOutput)
  {
    hide PositiveDecimal, PlainDecimal, ChainsShape, ModesShape, IntentShape, HashText;
  }

  /** An approval of a continuation is accepted exactly when it is well formed, in an allowed mode and the one asked
      for, about this continuation, within its bounds, and, where that matters, in time. */
  lemma ApprovalAcceptedIff(ctx: Context, a: Approval, c: Continuation, mode: Option<Text>, requireUnexpired: bool, now: int)
    requires SchemaOk(ctx, c)
    ensures ValidateApproval(ctx, a, c, mode, requireUnexpired, now) == Approves(a)
       <==> && ApprovalOk(ctx, a) && mode in {None, Some([]), Some(a.mode)} && (exists i | 0 <= i < |c.modes| :: c.modes[i] == a.mode)
            && Approval(c.quoteId, c.fingerprint, a.mode, a.maximum, a.minimumOutput, c.summaryHash, a.key) == a
            && TextsAtMost(a.maximum, c.maximum) && TextsAtMost(c.minimumOutput, a.minimumOutput)
            && (requireUnexpired ==> forall end :: ctx.date(c.expiresAt) == Some(end) ==> now < end)
    ensures ValidateApproval(ctx, a, c, mode, requireUnexpired, now).Approves? ==>
              ValidateApproval(ctx, a, c, mode, requireUnexpired, now) == Approves(a)
  {
    BoundsAreDecimals(ctx, c);
    hide SchemaOk, PositiveDecimal, HashText, ValidId, Amount, TextsAtMost;
    if ApprovalOk(ctx, a) {
      AtMostMeaning(a.maximum, c.maximum);
      AtMostMeaning(c.minimumOutput, a.minimumOutput);
    }
  }

  /** The first check that fails decides the error. */
  lemma ApprovalRefusedFor(ctx: Context, a: Approval, c: Continuation, mode: Option<Text>, requireUnexpired: bool, now: int)
    requires SchemaOk(ctx, c)
    ensures var shape := ApprovalOk(ctx, a);
            var asked := shape && mode in {None, Some([]), Some(a.mode)};
            var allowed := asked && exists i | 0 <= i < |c.modes| :: c.modes[i] == a.mode;
            var about := allowed && a.quoteId == c.quoteId && a.fingerprint == c.fingerprint && a.summaryHash == c.summaryHash;
            var within := about && TextsAtMost(a.maximum, c.maximum) && TextsAtMost(c.minimumOutput, a.minimumOutput);
            match ValidateApproval(ctx, a, c, mode, requireUnexpired, now)
            case Refused(ApprovalShape) => !shape
            case Refused(ModeMismatch) => shape && !asked
            case Refused(ModeNotAllowed) => asked && !allowed
            case Refused(QuoteBinding) => allowed && !about
            case Refused(BoundsWeakened) => about && !within
            case Refused(Expired) => within && requireUnexpired && exists end :: ctx.date(c.expiresAt) == Some(end) && end <= now
            case Approves(b) => b == a && within
  {
    BoundsAreDecimals(ctx, c);
    hide SchemaOk, PositiveDecimal, HashText, ValidId, Amount, TextsAtMost;
    if ApprovalOk(ctx, a) {
      AtMostMeaning(a.maximum, c.maximum);
      AtMostMeaning(c.minimumOutput, a.minimumOutput);
    }
  }

  /** An approval that is accepted for an accepted continuation never asks for more input than the quote's first
      step takes, or for less output than its last step gives at least; and a route of several steps is only
      approved as a session. */
  lemma ApprovalWithinQuote(ctx: Context, a: Approval, c: Continuation, q: Value, mode: Option<Text>, requireUnexpired: bool, now: int)
    requires NumberTexts(ctx.number)
    requires Validate(ctx, c, q, requireUnexpired, now).Valid? && ValidateApproval(ctx, a, c, mode, requireUnexpired, now).Approves?
    ensures exists summary, steps, input, output, count: nat ::
              && Get(q, Name("direct_route_summary")) == Some(summary) && Get(summary, Name("steps")) == Some(Arr(steps)) && steps != []
              && Get(steps[0], Name("expected_input_base")) == Some(Str(input)) && TextsAtMost(a.maximum, input)
              && Get(steps[|steps| - 1], Name("minimum_output_base")) == Some(Str(output)) && TextsAtMost(output, a.minimumOutput)
              && IsNumber(Get(summary, Name("step_count")), count) && (count > 1 ==> a.mode == Name("session"))
              && Hashes(ctx, summary, a.summaryHash)
    ensures Hashes(ctx, ClaimValue(ctx, c.claim), a.fingerprint) && Get(q, Name("quote_id")) == Some(Str(a.quoteId))
  {
    hide Validate, ValidateApproval, SchemaOk, InTime, Projectable, Payload, NumberTexts, Get, IsNumber, Hashes, Canonical, ClaimValue, ClaimRepeats,
         SignerRead, TouchedChains, ApprovalOk, TextsAtMost, Name;
    SameContinuation(ctx, c, q, requireUnexpired, now);
    AcceptedIff(ctx, c, q, requireUnexpired, now);
    ApprovalAcceptedIff(ctx, a, c, mode, requireUnexpired, now);
    var summary, intent, steps :| Repeats(ctx, c, q, summary, intent, steps, Payload(q).value);
    assert Get(steps[0], Name("expected_input_base")) == Some(Str(c.minimum)) && c.maximum == c.minimum;
    assert IsNumber(Get(summary, Name("step_count")), c.stepCount);
  }

  lemma SameContinuation(ctx: Context, c: Continuation, q: Value, requireUnexpired: bool, now: int)
    ensures Validate(ctx, c, q, requireUnexpired, now).Valid? ==> Validate(ctx, c, q, requireUnexpired, now) == Valid(c)
  {
    hide SchemaOk, Projectable, Payload, Hash, ClaimValue, TimeOk, SignerRequired, Bound, DecimalClaim, ClaimFor, Canonical;
  }
}
