/** validateContinuationV3 and validateApprovalV3 (src/continuation-v3.js): a continuation repeats, hashes and
    claims what its quote says. Records hold the fields that can vary; those for which the schemas admit a single
    value are left out of them. */
module Continuation {
  import opened Wrappers
  import opened Numerals
  import opened Unicode
  import opened Json
  import opened Members
  import opened TypedCanonical
  import opened CanonicalText
  import opened Projection
  import opened QuoteClaim
  import opened OperationIds
  import Chains
  import Decimal = DecimalString

  datatype Continuation = Continuation(
    quoteId: Text, fingerprint: Text, claim: Claim, issuedAt: Text, expiresAt: Text, ttl: nat, intent: Value,
    summaryHash: Text, payloadHash: Text, minimum: Text, maximum: Text, minimumOutput: Text, chains: seq<Text>,
    signer: bool, stepCount: nat, recommended: Text, modes: seq<Text>)

  datatype ContinuationError =
    | ShapeInvalid | QuoteInvalid | PayloadInvalid(e: EncodeError) | HashMismatch | TtlInvalid | TypeError
    | BindingInvalid | NumericClaimInvalid | ClaimInvalid

  datatype Checked = Valid(continuation: Continuation) | Invalid(error: ContinuationError)

  /** Every chain that the schema admits. */
  const CHAINS := [
    Name("aptos"), Name("arbitrum"), Name("avalanche"), Name("base"), Name("cronos"), Name("ethereum"), Name("hyperevm"),
    Name("injective"), Name("linea"), Name("monad"), Name("optimism"), Name("polygon"), Name("robinhood"), Name("sei"),
    Name("solana"), Name("sonic"), Name("xlayer")]

  // ----- reading a quote -----

  function StepText(ctx: Context, step: Value, key: Text): Text {
    match Get(step, key)
    case Some(Str(t)) => t
    case v => ctx.other(v)
  }

  function Endpoints(ctx: Context, steps: seq<Value>, key: Text): (r: seq<Text>)
    ensures |r| == |steps|
  {
    seq(|steps|, i requires 0 <= i < |steps| => StepText(ctx, steps[i], key))
  }

  function RequiredChains(ctx: Context, steps: seq<Value>): seq<Text> {
    Chains.ChainsOf(Endpoints(ctx, steps, FROM) + Endpoints(ctx, steps, TO))
  }

  /** None when step.from.startsWith is called on something that is not a string. */
  function SignerRequired(steps: seq<Value>): Option<bool> {
    if steps == [] then Some(false)
    else if Get(steps[0], PROVIDER) != Some(Str(CCTP)) then SignerRequired(steps[1..])
    else
      match Get(steps[0], FROM)
      case Some(Str(t)) => if SOLANA <= t then Some(true) else SignerRequired(steps[1..])
      case _ => None
  }

  /** A non-negative integral number. */
  function Count(v: Option<Value>): Option<nat> {
    match v
    case Some(Num(b)) => if b < NEGATIVE_ZERO && Finite(b) && IsInteger(b) then Some(Magnitude(b)) else None
    case _ => None
  }

  function Chars(t: Text): Option<string> {
    if forall i | 0 <= i < |t| :: t[i] < 128 then Some(seq(|t|, i requires 0 <= i < |t| => t[i] as char)) else None
  }

  /** String(value) of a number or a string. */
  function Source(ctx: Context, v: Option<Value>): Option<string> {
    match v
    case Some(Num(b)) => Chars(ctx.number(b))
    case Some(Str(t)) => Chars(t)
    case _ => None
  }

  /** decimalString on a number or a string. */
  function DecimalClaim(ctx: Context, v: Option<Value>): Option<Text> {
    match Source(ctx, v)
    case None => None
    case Some(s) =>
      match Decimal.Parse(s)
      case None => None
      case Some(l) => Some(Name(Decimal.Text(Decimal.Normal(l))))
  }

  function TextOf(v: Option<Value>): Text {
    match v
    case Some(Str(t)) => t
    case _ => []
  }

  function AllowedModes(stepCount: nat): seq<Text> {
    if stepCount > 1 then [SESSION] else [ONE_SHOT, SESSION]
  }

  function RecommendedMode(stepCount: nat): Text {
    if stepCount > 1 then SESSION else ONE_SHOT_OR_SESSION
  }

  function Hash(ctx: Context, v: Value): Text {
    match CanonicalBytes(ctx.number, v)
    case Some(bytes) => ctx.sha256(bytes)
    case None => []
  }

  // ----- the schema -----

  predicate HashText(t: Text) {
    |t| == 64 && forall i | 0 <= i < 64 :: 48 <= t[i] <= 57 || 97 <= t[i] <= 102
  }

  predicate PositiveDecimal(t: Text) {
    BaseUnits(Str(t))
  }

  /** Optional whole part and fraction without sign and exponent: (0|[1-9][0-9]*)(\.[0-9]+)? */
  predicate PlainDecimal(t: Text) {
    match Chars(t)
    case None => false
    case Some(s) =>
      match Decimal.Parse(s)
      case None => false
      case Some(l) => !l.negative && l.exponent.None?
  }

  predicate SomeText(v: Option<Value>) {
    v.Some? && v.value.Str? && v.value.text != []
  }

  predicate IntentShape(v: Value) {
    && v.Obj? && SomeText(Get(v, FROM)) && SomeText(Get(v, TO))
    && Get(v, AMOUNT_USD).Some? && Get(v, AMOUNT_USD).value.Num? && Finite(Get(v, AMOUNT_USD).value.bits)
    && Count(Get(v, ESTIMATED_INPUT)).Some? && Count(Get(v, ESTIMATED_INPUT)).value > 0
  }

  predicate ChainsShape(chains: seq<Text>) {
    1 <= |chains| <= 17 && forall t | t in chains :: t in CHAINS
  }

  predicate ModesShape(modes: seq<Text>) {
    1 <= |modes| <= 2 && forall t | t in modes :: t == ONE_SHOT || t == SESSION
  }

  predicate ClaimShape(ctx: Context, c: Claim) {
    && ctx.uuid(c.quoteId) && ctx.dateTime(c.issuedAt) && ctx.dateTime(c.expiresAt) && PositiveDecimal(c.ttl)
    && c.from != [] && c.to != [] && PlainDecimal(c.amount) && PositiveDecimal(c.estimated)
    && HashText(c.summaryHash) && HashText(c.payloadHash)
    && PositiveDecimal(c.minimum) && PositiveDecimal(c.maximum) && PositiveDecimal(c.minimumOutput)
    && ChainsShape(c.chains) && PositiveDecimal(c.stepCount) && ModesShape(c.modes)
  }

  predicate SchemaOk(ctx: Context, c: Continuation) {
    && ctx.uuid(c.quoteId) && HashText(c.fingerprint) && ClaimShape(ctx, c.claim)
    && ctx.dateTime(c.issuedAt) && ctx.dateTime(c.expiresAt) && 1 <= c.ttl <= 60 && IntentShape(c.intent)
    && HashText(c.summaryHash) && HashText(c.payloadHash)
    && PositiveDecimal(c.minimum) && PositiveDecimal(c.maximum) && PositiveDecimal(c.minimumOutput)
    && ChainsShape(c.chains) && 1 <= c.stepCount <= 8
    && (c.recommended == SESSION || c.recommended == ONE_SHOT_OR_SESSION) && ModesShape(c.modes)
  }

  // ----- what a quote calls for -----

  function Summary(q: Value): Value
    requires Projectable(q)
  {
    Get(q, SUMMARY).value
  }

  function IntentOf(q: Value): Value
    requires Projectable(q)
  {
    Get(q, INTENT).value
  }

  function Input(q: Value): Text
    requires Projectable(q)
  {
    Get(Exact(q)[0], EXPECTED_INPUT).value.text
  }

  function MinimumOutput(q: Value): Text
    requires Projectable(q)
  {
    Get(Exact(q)[|Exact(q)| - 1], MINIMUM_OUTPUT).value.text
  }

  /** The claim that the quote calls for. */
  function ClaimFor(ctx: Context, q: Value, bytes: Bytes, issuedAt: Text, expiresAt: Text, ttl: nat, count: nat, signer: bool, amount: Text): Claim
    requires Projectable(q)
  {
    Claim(TextOf(Get(q, QUOTE_ID)), issuedAt, expiresAt, Name(Digits(ttl)),
          TextOf(Get(IntentOf(q), FROM)), TextOf(Get(IntentOf(q), TO)), amount, Input(q),
          Hash(ctx, Summary(q)), ctx.sha256(bytes), Input(q), Input(q), MinimumOutput(q),
          RequiredChains(ctx, Exact(q)), signer, Name(Digits(count)), AllowedModes(count))
  }

  function Assembled(ctx: Context, q: Value, bytes: Bytes, issuedAt: Text, expiresAt: Text, ttl: nat, count: nat, signer: bool, amount: Text): Continuation
    requires Projectable(q)
  {
    var claim := ClaimFor(ctx, q, bytes, issuedAt, expiresAt, ttl, count, signer, amount);
    Continuation(TextOf(Get(q, QUOTE_ID)), Hash(ctx, ClaimValue(ctx, claim)), claim, issuedAt, expiresAt, ttl, IntentOf(q),
                 Hash(ctx, Summary(q)), ctx.sha256(bytes), Input(q), Input(q), MinimumOutput(q),
                 RequiredChains(ctx, Exact(q)), signer, count, RecommendedMode(count), AllowedModes(count))
  }

  /** The continuation that a server issues for a quote at a given time; None for a quote that has none. */
  function Build(ctx: Context, q: Value, issuedAt: Text, expiresAt: Text): Option<Continuation> {
    if !Projectable(q) then None
    else
      match Payload(q)
      case Err(_) => None
      case Ok(bytes) =>
        var ttl, count := Count(Get(q, TTL)), Count(Get(Summary(q), STEP_COUNT));
        var signer, amount := SignerRequired(Exact(q)), DecimalClaim(ctx, Get(IntentOf(q), AMOUNT_USD));
        if ttl.None? || count.None? || signer.None? || amount.None? || Get(q, QUOTE_ID) != Some(Str(TextOf(Get(q, QUOTE_ID)))) then None
        else Some(Assembled(ctx, q, bytes, issuedAt, expiresAt, ttl.value, count.value, signer.value, amount.value))
  }

  // ----- the validator -----

  predicate TimeOk(ctx: Context, c: Continuation, q: Value, requireUnexpired: bool, now: int) {
    var issued, expires := ctx.date(c.issuedAt), ctx.date(c.expiresAt);
    && issued.Some? && expires.Some? && Count(Get(q, TTL)) == Some(c.ttl)
    && expires.value - issued.value == c.ttl * 1000
    && (requireUnexpired ==> issued.value <= now < expires.value)
  }

  predicate Bound(ctx: Context, c: Continuation, q: Value, signer: bool)
    requires Projectable(q)
  {
    && Get(q, QUOTE_ID) == Some(Str(c.quoteId))
    && Canonical(ctx.number, c.intent) == Canonical(ctx.number, IntentOf(q))
    && Count(Get(Summary(q), STEP_COUNT)) == Some(c.stepCount)
    && c.recommended == RecommendedMode(c.stepCount) && c.modes == AllowedModes(c.stepCount)
    && c.chains == RequiredChains(ctx, Exact(q)) && c.signer == signer
    && c.minimum == Input(q) && c.maximum == Input(q) && c.minimumOutput == MinimumOutput(q)
  }

  function Validate(ctx: Context, c: Continuation, q: Value, requireUnexpired: bool, now: int): Checked {
    if !SchemaOk(ctx, c) then Invalid(ShapeInvalid)
    else if !Projectable(q) then Invalid(QuoteInvalid)
    else
      match Payload(q)
      case Err(e) => Invalid(PayloadInvalid(e))
      case Ok(bytes) =>
        if Hash(ctx, Summary(q)) != c.summaryHash || ctx.sha256(bytes) != c.payloadHash || Hash(ctx, ClaimValue(ctx, c.claim)) != c.fingerprint
        then Invalid(HashMismatch)
        else if !TimeOk(ctx, c, q, requireUnexpired, now) then Invalid(TtlInvalid)
        else
          match SignerRequired(Exact(q))
          case None => Invalid(TypeError)
          case Some(signer) =>
            if !Bound(ctx, c, q, signer) then Invalid(BindingInvalid)
            else
              match DecimalClaim(ctx, Get(IntentOf(q), AMOUNT_USD))
              case None => Invalid(NumericClaimInvalid)
              case Some(amount) =>
                var expected := ClaimFor(ctx, q, bytes, c.issuedAt, c.expiresAt, c.ttl, c.stepCount, signer, amount);
                if Canonical(ctx.number, ClaimValue(ctx, c.claim)) != Canonical(ctx.number, ClaimValue(ctx, expected))
                   || c.claim.payloadHash != c.payloadHash || c.claim.summaryHash != c.summaryHash
                then Invalid(ClaimInvalid)
                else Valid(c)
  }

  // ----- exactly one continuation -----

  /** Equal up to canonical equality of the intent. */
  ghost predicate Equivalent(c: Continuation, d: Continuation) {
    Alike(c.intent, d.intent) && c == d.(intent := c.intent)
  }

  /** What the quote must say for this continuation. */
  predicate Quoted(ctx: Context, c: Continuation, q: Value) {
    && Projectable(q) && Payload(q).Ok?
    && Hash(ctx, Summary(q)) == c.summaryHash && ctx.sha256(Payload(q).value) == c.payloadHash
    && Hash(ctx, ClaimValue(ctx, c.claim)) == c.fingerprint
    && SignerRequired(Exact(q)).Some? && Bound(ctx, c, q, SignerRequired(Exact(q)).value)
    && DecimalClaim(ctx, Get(IntentOf(q), AMOUNT_USD)).Some?
    && c.claim == ClaimFor(ctx, q, Payload(q).value, c.issuedAt, c.expiresAt, c.ttl, c.stepCount,
                           SignerRequired(Exact(q)).value, DecimalClaim(ctx, Get(IntentOf(q), AMOUNT_USD)).value)
  }

  lemma ClaimHashes(ctx: Context, q: Value, bytes: Bytes, issuedAt: Text, expiresAt: Text, ttl: nat, count: nat, signer: bool, amount: Text)
    requires Projectable(q)
    ensures var claim := ClaimFor(ctx, q, bytes, issuedAt, expiresAt, ttl, count, signer, amount);
            claim.summaryHash == Hash(ctx, Summary(q)) && claim.payloadHash == ctx.sha256(bytes)
  {
  }

  lemma ValidQuoted(ctx: Context, c: Continuation, q: Value, requireUnexpired: bool, now: int)
    requires NumberTexts(ctx.number)
    ensures Validate(ctx, c, q, requireUnexpired, now) == Valid(c) <==>
            SchemaOk(ctx, c) && TimeOk(ctx, c, q, requireUnexpired, now) && Quoted(ctx, c, q)
    ensures Validate(ctx, c, q, requireUnexpired, now).Valid? ==> Validate(ctx, c, q, requireUnexpired, now) == Valid(c)
  {
    hide SchemaOk, TimeOk, Bound, Canonical, ClaimValue, Payload, Projectable, SignerRequired, DecimalClaim, Hash, ClaimFor, NumberTexts, Get;
    if Projectable(q) && Payload(q).Ok? {
      var signer, amount := SignerRequired(Exact(q)), DecimalClaim(ctx, Get(IntentOf(q), AMOUNT_USD));
      if signer.Some? && amount.Some? {
        var bytes := Payload(q).value;
        ClaimTextIff(ctx, c.claim, ClaimFor(ctx, q, bytes, c.issuedAt, c.expiresAt, c.ttl, c.stepCount, signer.value, amount.value));
        ClaimHashes(ctx, q, bytes, c.issuedAt, c.expiresAt, c.ttl, c.stepCount, signer.value, amount.value);
      }
    }
  }

  lemma CanonicalIntents(ctx: Context, c: Continuation, q: Value)
    requires NumberTexts(ctx.number) && Wf(q) && Wf(c.intent) && Projectable(q)
    ensures Canonical(ctx.number, c.intent) == Canonical(ctx.number, IntentOf(q)) <==> Alike(c.intent, IntentOf(q))
  {
    hide Projectable, Canonical, Alike;
    var fields := IntentFields(q);
    PartsWf(q, INTENT);
    CanonicalMeaning(ctx.number, c.intent, IntentOf(q));
  }

  /** Field by field: the record is the assembled one, whatever its intent. */
  lemma AssembledIff(ctx: Context, c: Continuation, q: Value, bytes: Bytes, count: nat, signer: bool, amount: Text)
    requires Projectable(q)
    ensures c == Assembled(ctx, q, bytes, c.issuedAt, c.expiresAt, c.ttl, count, signer, amount).(intent := c.intent) <==>
            && c.quoteId == TextOf(Get(q, QUOTE_ID)) && c.stepCount == count && c.signer == signer
            && c.claim == ClaimFor(ctx, q, bytes, c.issuedAt, c.expiresAt, c.ttl, count, signer, amount)
            && c.fingerprint == Hash(ctx, ClaimValue(ctx, c.claim))
            && c.summaryHash == Hash(ctx, Summary(q)) && c.payloadHash == ctx.sha256(bytes)
            && c.minimum == Input(q) && c.maximum == Input(q) && c.minimumOutput == MinimumOutput(q)
            && c.chains == RequiredChains(ctx, Exact(q)) && c.recommended == RecommendedMode(count) && c.modes == AllowedModes(count)
  {
    hide ClaimValue, ClaimFor, Projectable, RequiredChains, Hash, Input, MinimumOutput, RecommendedMode, AllowedModes, Get;
  }

  lemma QuotedBuilt(ctx: Context, c: Continuation, q: Value)
    requires NumberTexts(ctx.number) && Wf(q) && Wf(c.intent) && Count(Get(q, TTL)) == Some(c.ttl)
    ensures Quoted(ctx, c, q) <==>
            Build(ctx, q, c.issuedAt, c.expiresAt).Some? && Equivalent(c, Build(ctx, q, c.issuedAt, c.expiresAt).value)
  {
    hide Canonical, Alike, ClaimValue, ClaimFor, Assembled, Payload, Projectable, SignerRequired, DecimalClaim,
         RequiredChains, Hash, Wf, Input, MinimumOutput, Count, NumberTexts, Get, RecommendedMode, AllowedModes;
    if Projectable(q) && Payload(q).Ok? {
      CanonicalIntents(ctx, c, q);
      var count, signer, amount := Count(Get(Summary(q), STEP_COUNT)), SignerRequired(Exact(q)), DecimalClaim(ctx, Get(IntentOf(q), AMOUNT_USD));
      if count.Some? && signer.Some? && amount.Some? {
        AssembledIff(ctx, c, q, Payload(q).value, count.value, signer.value, amount.value);
        AssembledIntent(ctx, c, q, Payload(q).value, count.value, signer.value, amount.value);
      }
    }
  }

  lemma AssembledIntent(ctx: Context, c: Continuation, q: Value, bytes: Bytes, count: nat, signer: bool, amount: Text)
    requires Projectable(q)
    ensures var b := Assembled(ctx, q, bytes, c.issuedAt, c.expiresAt, c.ttl, count, signer, amount);
            b.intent == IntentOf(q) && b.issuedAt == c.issuedAt && b.expiresAt == c.expiresAt && b.ttl == c.ttl
  {
    hide ClaimValue, ClaimFor, Projectable, RequiredChains, Hash, Input, MinimumOutput, RecommendedMode, AllowedModes, Get;
  }

  /** A continuation is accepted exactly when it fits the schema, its times are consistent and it is, up to
      canonical equality, the one that is built for the quote at those times. */
  lemma AcceptsExactly(ctx: Context, c: Continuation, q: Value, requireUnexpired: bool, now: int)
    requires NumberTexts(ctx.number) && Wf(q) && Wf(c.intent)
    ensures Validate(ctx, c, q, requireUnexpired, now) == Valid(c) <==>
            && SchemaOk(ctx, c) && TimeOk(ctx, c, q, requireUnexpired, now)
            && Build(ctx, q, c.issuedAt, c.expiresAt).Some?
            && Equivalent(c, Build(ctx, q, c.issuedAt, c.expiresAt).value)
    ensures Validate(ctx, c, q, requireUnexpired, now).Valid? ==> Validate(ctx, c, q, requireUnexpired, now) == Valid(c)
  {
    hide SchemaOk, Quoted, Build, Equivalent, Validate, Wf, NumberTexts, Count;
    ValidQuoted(ctx, c, q, requireUnexpired, now);
    if TimeOk(ctx, c, q, requireUnexpired, now) {
      QuotedBuilt(ctx, c, q);
    }
  }

  lemma ClaimTextIff(ctx: Context, a: Claim, b: Claim)
    requires NumberTexts(ctx.number)
    ensures Canonical(ctx.number, ClaimValue(ctx, a)) == Canonical(ctx.number, ClaimValue(ctx, b)) <==> a == b
  {
    hide Canonical, ClaimValue;
    if Canonical(ctx.number, ClaimValue(ctx, a)) == Canonical(ctx.number, ClaimValue(ctx, b)) {
      ClaimTextUnique(ctx, a, b);
    }
  }

  lemma {:induction false} SameReflexive(v: Value)
    ensures Same(v, v)
  {
    match v
    case Arr(items) =>
      forall i | 0 <= i < |items| ensures Same(items[i], items[i]) {
        SameReflexive(items[i]);
      }
    case Obj(fields) =>
      forall i | 0 <= i < |fields| ensures HasSame(fields[i], fields) {
        SameReflexive(fields[i].value);
      }
    case _ =>
  }

  /** What is built for a quote is accepted for it whenever it fits the schema and its times are consistent. */
  lemma BuilderAccepted(ctx: Context, q: Value, issuedAt: Text, expiresAt: Text, requireUnexpired: bool, now: int)
    requires NumberTexts(ctx.number) && Wf(q) && Build(ctx, q, issuedAt, expiresAt).Some?
    ensures var b := Build(ctx, q, issuedAt, expiresAt).value;
            Validate(ctx, b, q, requireUnexpired, now) == Valid(b) <==> SchemaOk(ctx, b) && TimeOk(ctx, b, q, requireUnexpired, now)
  {
    var b := Build(ctx, q, issuedAt, expiresAt).value;
    BuiltParts(ctx, q, issuedAt, expiresAt);
    hide SchemaOk, TimeOk, Validate, Build, Wf, Projectable, NumberTexts, Same, Plain;
    AcceptsExactly(ctx, b, q, requireUnexpired, now);
    SameReflexive(Plain(b.intent));
  }

  lemma BuiltParts(ctx: Context, q: Value, issuedAt: Text, expiresAt: Text)
    requires Wf(q) && Build(ctx, q, issuedAt, expiresAt).Some?
    ensures var b := Build(ctx, q, issuedAt, expiresAt).value; Wf(b.intent) && b.issuedAt == issuedAt && b.expiresAt == expiresAt
  {
    hide ClaimValue, ClaimFor, Projectable, RequiredChains, Hash, Input, MinimumOutput, RecommendedMode, AllowedModes, Get,
         Wf, Payload, SignerRequired, DecimalClaim, Count, TextOf;
    var fields := IntentFields(q);
    PartsWf(q, INTENT);
  }

  /** At given times a quote has one continuation, up to canonical equality. */
  lemma OneContinuation(ctx: Context, c: Continuation, d: Continuation, q: Value, now: int)
    requires NumberTexts(ctx.number) && Wf(q) && Wf(c.intent) && Wf(d.intent)
    requires Validate(ctx, c, q, false, now).Valid? && Validate(ctx, d, q, false, now).Valid?
    requires c.issuedAt == d.issuedAt && c.expiresAt == d.expiresAt
    ensures c == d.(intent := c.intent) && Canonical(ctx.number, c.intent) == Canonical(ctx.number, d.intent)
  {
    hide SchemaOk, TimeOk, Wf, Build, Validate, NumberTexts, Canonical, Alike;
    AcceptsExactly(ctx, c, q, false, now);
    AcceptsExactly(ctx, d, q, false, now);
    IntentsQuoted(ctx, c, q, now);
    IntentsQuoted(ctx, d, q, now);
  }

  lemma IntentsQuoted(ctx: Context, c: Continuation, q: Value, now: int)
    requires NumberTexts(ctx.number) && Validate(ctx, c, q, false, now).Valid?
    ensures Projectable(q) && Canonical(ctx.number, c.intent) == Canonical(ctx.number, IntentOf(q))
  {
    ValidQuoted(ctx, c, q, false, now);
    hide SchemaOk, TimeOk, Validate, NumberTexts, Canonical, Projectable, Payload, ClaimFor, ClaimValue, Hash, SignerRequired, DecimalClaim;
  }

  /** Two different byte strings with one hash. */
  predicate Collision(ctx: Context, a: Bytes, b: Bytes) {
    a != b && ctx.sha256(a) == ctx.sha256(b)
  }

  lemma SameHashes(ctx: Context, c: Continuation, p: Value, q: Value)
    requires Quoted(ctx, c, p) && Quoted(ctx, c, q)
    ensures Projectable(p) && Projectable(q) && Payload(p).Ok? && Payload(q).Ok?
    ensures ctx.sha256(Payload(p).value) == ctx.sha256(Payload(q).value)
  {
    hide Projectable, Payload, ClaimFor, ClaimValue, Hash, SignerRequired, DecimalClaim, Bound;
  }

  /** A continuation belongs to one quote: two quotes for which it is accepted are equal JSON values except for
      the continuation itself and the raw numbers that their summaries duplicate exactly, or else their payloads
      are a collision of the hash. */
  lemma BindsQuote(ctx: Context, c: Continuation, p: Value, q: Value, now: int)
    requires NumberTexts(ctx.number) && Wf(p) && Wf(q)
    requires Validate(ctx, c, p, false, now).Valid? && Validate(ctx, c, q, false, now).Valid?
    ensures Projectable(p) && Projectable(q) && Payload(p).Ok? && Payload(q).Ok?
    ensures Same(Erased(p), Erased(q)) || Collision(ctx, Payload(p).value, Payload(q).value)
  {
    hide Validate, Quoted, SchemaOk, TimeOk, Wf, Erased, Same, Projectable, Payload, Accepted, NumberTexts;
    ValidQuoted(ctx, c, p, false, now);
    ValidQuoted(ctx, c, q, false, now);
    SameHashes(ctx, c, p, q);
    PayloadAccepts(p);
    PayloadMeaning(p, q);
  }

  lemma NameChars(s: string)
    requires forall i | 0 <= i < |s| :: s[i] as int < 128
    ensures Chars(Name(s)) == Some(s)
  {
    assert forall i | 0 <= i < |s| :: Name(s)[i] == s[i] as int;
    assert Chars(Name(s)).Some? && Chars(Name(s)).value == s;
  }

  lemma PlainText(l: Decimal.Literal)
    requires Decimal.NormalForm(l)
    ensures forall i | 0 <= i < |Decimal.Text(l)| :: Decimal.Text(l)[i] as int < 128
  {
  }

  lemma SameSign(a: int, p: nat, b: int, q: nat)
    requires p > 0 && q > 0 && a * q == b * p
    ensures a < 0 <==> b < 0
  {
    if a < 0 {
      assert a * q < 0;
    } else {
      assert a * q >= 0;
    }
    if b < 0 {
      assert b * p < 0;
    } else {
      assert b * p >= 0;
    }
  }

  lemma NegativeIff(l: Decimal.Literal, n: Decimal.Literal)
    requires Decimal.Wf(l) && Decimal.NormalForm(n) && Decimal.SameNumber(Decimal.Value(l), Decimal.Value(n))
    ensures n.negative <==> Decimal.Value(l).numerator < 0
  {
    if NatOf(n.whole + n.fraction) == 0 {
      Decimal.ZeroDigits(n);
    }
    var a, b := Decimal.Value(l), Decimal.Value(n);
    SameSign(a.numerator, Pow10(a.places), b.numerator, Pow10(b.places));
  }

  /** The claim of an amount fits the schema exactly when the amount is not negative, however it is written. */
  lemma AmountFits(ctx: Context, v: Option<Value>, l: Decimal.Literal)
    requires Decimal.Wf(l) && Source(ctx, v) == Some(Decimal.Text(l))
    ensures DecimalClaim(ctx, v).Some?
    ensures PlainDecimal(DecimalClaim(ctx, v).value) <==> Decimal.Value(l).numerator >= 0
  {
    hide Decimal.Normal, Decimal.Parse, Decimal.Text, Chars, Name, Source;
    Decimal.ParseText(l);
    Decimal.NormalKeepsValue(l);
    var n := Decimal.Normal(l);
    PlainText(n);
    NameChars(Decimal.Text(n));
    Decimal.ParseText(n);
    NegativeIff(l, n);
  }

  // ----- approvals -----

  datatype Approval = Approval(
    quoteId: Text, fingerprint: Text, mode: Text, maximum: Text, minimumOutput: Text, summaryHash: Text, key: string)

  datatype ApprovalError = ApprovalShape | ModeMismatch | ModeNotAllowed | QuoteBinding | BoundsWeakened | Expired

  datatype Approved = Approves(approval: Approval) | Refused(error: ApprovalError)

  /** BigInt of a decimal text. */
  function Amount(t: Text): nat {
    if t == [] then 0 else 10 * Amount(t[..|t| - 1]) + if t[|t| - 1] >= 48 then t[|t| - 1] - 48 else 0
  }

  predicate ApprovalOk(ctx: Context, a: Approval) {
    && ctx.uuid(a.quoteId) && HashText(a.fingerprint) && (a.mode == ONE_SHOT || a.mode == SESSION)
    && PositiveDecimal(a.maximum) && PositiveDecimal(a.minimumOutput) && HashText(a.summaryHash) && ValidId(a.key)
  }

  function ValidateApproval(ctx: Context, a: Approval, c: Continuation, mode: Option<Text>, requireUnexpired: bool, now: int): Approved {
    if !ApprovalOk(ctx, a) then Refused(ApprovalShape)
    else if mode.Some? && mode.value != [] && a.mode != mode.value then Refused(ModeMismatch)
    else if a.mode !in c.modes then Refused(ModeNotAllowed)
    else if a.quoteId != c.quoteId || a.fingerprint != c.fingerprint || a.summaryHash != c.summaryHash then Refused(QuoteBinding)
    else if Amount(a.maximum) > Amount(c.maximum) || Amount(a.minimumOutput) < Amount(c.minimumOutput) then Refused(BoundsWeakened)
    else if requireUnexpired && (ctx.date(c.expiresAt).Some? && now >= ctx.date(c.expiresAt).value) then Refused(Expired)
    else Approves(a)
  }
}
