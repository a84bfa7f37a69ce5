/** The fingerprint claim of a continuation (src/continuation-v3.js) as a record and as the JSON value that is
    hashed; its canonical text determines it. */
module QuoteClaim {
  import opened Wrappers
  import opened Unicode
  import opened Json
  import opened Members
  import opened CanonicalText
  import opened Projection

  datatype Claim = Claim(
    quoteId: Text, issuedAt: Text, expiresAt: Text, ttl: Text, from: Text, to: Text, amount: Text, estimated: Text,
    summaryHash: Text, payloadHash: Text, minimum: Text, maximum: Text, minimumOutput: Text, chains: seq<Text>,
    signer: bool, stepCount: Text, modes: seq<Text>)

  /** What the language and the schema library supply: text of numbers, SHA-256 in hex, Date.parse, String() of
      anything but a string, the formats of ids and dates; and the text of the payload specification. */
  datatype Context = Context(
    number: Bits -> Text,
    sha256: seq<Byte> -> Text,
    date: Text -> Option<int>,
    other: Option<Value> -> Text,
    uuid: Text -> bool,
    dateTime: Text -> bool,
    specification: Text)

  // ----- names -----

  const FROM := Name("from")
  const TO := Name("to")
  const AMOUNT_USD := Name("amount_usd")
  const PROVIDER := Name("provider")
  const QUOTE_ID := Name("quote_id")
  const TTL := Name("ttl_seconds")
  const STEP_COUNT := Name("step_count")
  const VERSION := Name("assetfare-quote-bound-continuation-v3")
  const SESSION := Name("session")
  const ONE_SHOT := Name("one_shot")
  const ONE_SHOT_OR_SESSION := Name("one_shot_or_session")
  const CCTP := Name("circle_cctp")
  const SOLANA := Name("solana:")

  // ----- the claim as a value -----

  function Texts(texts: seq<Text>): Value {
    Arr(seq(|texts|, i requires 0 <= i < |texts| => Str(texts[i])))
  }

  function ClaimIntent(c: Claim): seq<Field> {
    [Field(FROM, Str(c.from)), Field(TO, Str(c.to)), Field(Name("amount_usd_decimal"), Str(c.amount)), Field(ESTIMATED_INPUT, Str(c.estimated))]
  }

  function Bounds(c: Claim): seq<Field> {
    [Field(Name("minimum"), Str(c.minimum)), Field(Name("maximum"), Str(c.maximum))]
  }

  function ClaimFields(ctx: Context, c: Claim): (fields: seq<Field>)
    ensures |fields| == 17
  {
    [Field(Name("version"), Str(VERSION)),
     Field(QUOTE_ID, Str(c.quoteId)),
     Field(Name("issued_at"), Str(c.issuedAt)),
     Field(Name("expires_at"), Str(c.expiresAt)),
     Field(TTL, Str(c.ttl)),
     Field(INTENT, Obj(ClaimIntent(c))),
     Field(Name("direct_route_summary_sha256"), Str(c.summaryHash)),
     Field(Name("quote_payload_sha256"), Str(c.payloadHash)),
     Field(Name("quote_payload_sha256_spec"), Str(ctx.specification)),
     Field(Name("input_base_bounds"), Obj(Bounds(c))),
     Field(MINIMUM_OUTPUT, Str(c.minimumOutput)),
     Field(Name("required_wallet_chains"), Texts(c.chains)),
     Field(Name("event_signer_public_required"), Value.Bool(c.signer)),
     Field(STEP_COUNT, Str(c.stepCount)),
     Field(Name("allowed_modes"), Texts(c.modes)),
     Field(Name("server_signing"), Value.Bool(false)),
     Field(Name("server_submission"), Value.Bool(false))]
  }

  function ClaimValue(ctx: Context, c: Claim): Value {
    Obj(ClaimFields(ctx, c))
  }

  // ----- the claim's text determines the claim -----

  /** Text, booleans, and lists and objects of them: what canonical text keeps as it is. */
  ghost predicate NoNumbers(v: Value) {
    match v
    case Num(_) => false
    case Arr(items) => forall i | 0 <= i < |items| :: NoNumbers(items[i])
    case Obj(fields) => forall i | 0 <= i < |fields| :: NoNumbers(fields[i].value)
    case _ => true
  }

  lemma {:induction false} NoNumbersPlain(v: Value)
    requires NoNumbers(v)
    ensures Plain(v) == v
  {
    match v
    case Arr(items) =>
      forall i | 0 <= i < |items| ensures PlainItems(items)[i] == items[i] {
        PlainItemAt(items, i);
        NoNumbersPlain(items[i]);
      }
      assert PlainItems(items) == items;
    case Obj(fields) =>
      forall i | 0 <= i < |fields| ensures PlainFields(fields)[i] == fields[i] {
        PlainFieldAt(fields, i);
        NoNumbersPlain(fields[i].value);
      }
      assert PlainFields(fields) == fields;
    case _ =>
  }

  lemma SameFields(u: seq<Field>, v: seq<Field>, i: nat)
    requires DistinctKeys(u) && DistinctKeys(v) && SameKeys(u, v) && Same(Obj(u), Obj(v)) && i < |u|
    ensures Same(u[i].value, v[i].value)
  {
    SameLooksAlike(u, v, u[i].key);
    LookupAt(u, i);
    LookupAt(v, i);
  }

  lemma SameTexts(a: seq<Text>, b: seq<Text>)
    requires Same(Texts(a), Texts(b))
    ensures a == b
  {
    assert forall i | 0 <= i < |a| :: Texts(a).items[i] == Str(a[i]) && Texts(b).items[i] == Str(b[i]);
  }

  /** Keys of different lengths, or with different second letters, are different. */
  function Tag(t: Text): int {
    if |t| < 2 then 0 else |t| * 128 + t[1]
  }

  lemma TagsApart(fields: seq<Field>)
    requires forall i, j | 0 <= i < j < |fields| :: Tag(fields[i].key) != Tag(fields[j].key)
    ensures DistinctKeys(fields)
  {
  }

  lemma NameTag(s: string, tag: int)
    requires |s| >= 2 && tag == |s| * 128 + s[1] as int % 128
    ensures Tag(Name(s)) == tag
  {
  }

  lemma ClaimTags(ctx: Context, c: Claim)
    ensures var f := ClaimFields(ctx, c);
            seq(17, i requires 0 <= i < 17 => Tag(f[i].key)) ==
            [997, 1141, 1267, 1400, 1524, 878, 3561, 2677, 3317, 2286, 2537, 2917, 3702, 1396, 1772, 1893, 2277]
  {
    NameTag("version", 997);
    NameTag("quote_id", 1141);
    NameTag("issued_at", 1267);
    NameTag("expires_at", 1400);
    NameTag("ttl_seconds", 1524);
    NameTag("intent", 878);
    NameTag("direct_route_summary_sha256", 3561);
    NameTag("quote_payload_sha256", 2677);
    NameTag("quote_payload_sha256_spec", 3317);
    NameTag("input_base_bounds", 2286);
    NameTag("minimum_output_base", 2537);
    NameTag("required_wallet_chains", 2917);
    NameTag("event_signer_public_required", 3702);
    NameTag("step_count", 1396);
    NameTag("allowed_modes", 1772);
    NameTag("server_signing", 1893);
    NameTag("server_submission", 2277);
    hide Tag, Name;
  }

  lemma ClaimKeys(ctx: Context, c: Claim)
    ensures DistinctKeys(ClaimFields(ctx, c))
  {
    ClaimTags(ctx, c);
    hide ClaimFields, Tag;
    var f := ClaimFields(ctx, c);
    var tags := seq(17, i requires 0 <= i < 17 => Tag(f[i].key));
    assert forall i, j | 0 <= i < j < 17 :: tags[i] != tags[j];
    assert forall i | 0 <= i < 17 :: tags[i] == Tag(f[i].key);
    TagsApart(f);
  }

  lemma InnerKeys(c: Claim)
    ensures DistinctKeys(ClaimIntent(c)) && DistinctKeys(Bounds(c))
  {
    NameTag("from", 626);
    NameTag("to", 367);
    NameTag("amount_usd_decimal", 2413);
    NameTag("estimated_input_base", 2675);
    NameTag("minimum", 1001);
    NameTag("maximum", 993);
    hide Tag, Name;
    TagsApart(ClaimIntent(c));
    TagsApart(Bounds(c));
  }

  lemma SameText(u: seq<Field>, v: seq<Field>, i: nat, s: Text, t: Text)
    requires DistinctKeys(u) && DistinctKeys(v) && SameKeys(u, v) && Same(Obj(u), Obj(v)) && i < |u|
    requires u[i].value == Str(s) && v[i].value == Str(t)
    ensures s == t
  {
    SameFields(u, v, i);
  }

  lemma IntentSame(a: Claim, b: Claim)
    requires Same(Obj(ClaimIntent(a)), Obj(ClaimIntent(b)))
    ensures a.from == b.from && a.to == b.to && a.amount == b.amount && a.estimated == b.estimated
  {
    InnerKeys(a);
    InnerKeys(b);
    hide Name, DistinctKeys, Same;
    var u, v := ClaimIntent(a), ClaimIntent(b);
    SameText(u, v, 0, a.from, b.from);
    SameText(u, v, 1, a.to, b.to);
    SameText(u, v, 2, a.amount, b.amount);
    SameText(u, v, 3, a.estimated, b.estimated);
  }

  lemma BoundsSame(a: Claim, b: Claim)
    requires Same(Obj(Bounds(a)), Obj(Bounds(b)))
    ensures a.minimum == b.minimum && a.maximum == b.maximum
  {
    InnerKeys(a);
    InnerKeys(b);
    hide Name, DistinctKeys, Same;
    var u, v := Bounds(a), Bounds(b);
    SameText(u, v, 0, a.minimum, b.minimum);
    SameText(u, v, 1, a.maximum, b.maximum);
  }

  lemma KeysAgree(ctx: Context, a: Claim, b: Claim)
    ensures SameKeys(ClaimFields(ctx, a), ClaimFields(ctx, b))
  {
    hide Name;
  }

  lemma ScalarSame(ctx: Context, a: Claim, b: Claim, i: nat, s: Text, t: Text)
    requires Same(ClaimValue(ctx, a), ClaimValue(ctx, b)) && i < 17
    requires ClaimFields(ctx, a)[i].value == Str(s) && ClaimFields(ctx, b)[i].value == Str(t)
    ensures s == t
  {
    ClaimKeys(ctx, a);
    ClaimKeys(ctx, b);
    KeysAgree(ctx, a, b);
    hide Name, DistinctKeys, Same, SameKeys, ClaimFields;
    SameText(ClaimFields(ctx, a), ClaimFields(ctx, b), i, s, t);
  }

  lemma ScalarsSame(ctx: Context, a: Claim, b: Claim)
    requires Same(ClaimValue(ctx, a), ClaimValue(ctx, b))
    ensures a.quoteId == b.quoteId && a.issuedAt == b.issuedAt && a.expiresAt == b.expiresAt && a.ttl == b.ttl
  {
    hide Name, Same, ClaimValue, Texts, ClaimIntent, Bounds;
    ScalarSame(ctx, a, b, 1, a.quoteId, b.quoteId);
    ScalarSame(ctx, a, b, 2, a.issuedAt, b.issuedAt);
    ScalarSame(ctx, a, b, 3, a.expiresAt, b.expiresAt);
    ScalarSame(ctx, a, b, 4, a.ttl, b.ttl);
  }

  lemma HashesSame(ctx: Context, a: Claim, b: Claim)
    requires Same(ClaimValue(ctx, a), ClaimValue(ctx, b))
    ensures a.summaryHash == b.summaryHash && a.payloadHash == b.payloadHash && a.minimumOutput == b.minimumOutput
    ensures a.stepCount == b.stepCount
  {
    hide Name, Same, ClaimValue, Texts, ClaimIntent, Bounds;
    ScalarSame(ctx, a, b, 6, a.summaryHash, b.summaryHash);
    ScalarSame(ctx, a, b, 7, a.payloadHash, b.payloadHash);
    ScalarSame(ctx, a, b, 10, a.minimumOutput, b.minimumOutput);
    ScalarSame(ctx, a, b, 13, a.stepCount, b.stepCount);
  }

  lemma PartsSame(ctx: Context, a: Claim, b: Claim)
    requires Same(ClaimValue(ctx, a), ClaimValue(ctx, b))
    ensures Same(Value.Bool(a.signer), Value.Bool(b.signer))
    ensures Same(Texts(a.chains), Texts(b.chains)) && Same(Texts(a.modes), Texts(b.modes))
    ensures Same(Obj(ClaimIntent(a)), Obj(ClaimIntent(b))) && Same(Obj(Bounds(a)), Obj(Bounds(b)))
  {
    ClaimKeys(ctx, a);
    ClaimKeys(ctx, b);
    KeysAgree(ctx, a, b);
    hide Name, DistinctKeys, Same, SameKeys, Texts, ClaimIntent, Bounds;
    var u, v := ClaimFields(ctx, a), ClaimFields(ctx, b);
    SameFields(u, v, 5);
    SameFields(u, v, 9);
    SameFields(u, v, 11);
    SameFields(u, v, 12);
    SameFields(u, v, 14);
  }

  lemma ClaimDetermined(ctx: Context, a: Claim, b: Claim)
    requires Same(ClaimValue(ctx, a), ClaimValue(ctx, b))
    ensures a == b
  {
    ScalarsSame(ctx, a, b);
    HashesSame(ctx, a, b);
    PartsSame(ctx, a, b);
    hide ClaimValue, ClaimFields, ClaimIntent, Bounds, Texts;
    SameTexts(a.chains, b.chains);
    SameTexts(a.modes, b.modes);
    IntentSame(a, b);
    BoundsSame(a, b);
  }

  lemma ClaimWf(ctx: Context, c: Claim)
    ensures Wf(ClaimValue(ctx, c)) && NoNumbers(ClaimValue(ctx, c))
  {
    ClaimKeys(ctx, c);
    InnerKeys(c);
    hide Name, DistinctKeys;
    var f := ClaimFields(ctx, c);
    InnerWf(c);
    forall i | 0 <= i < 17 ensures Wf(f[i].value) && NoNumbers(f[i].value) {
    }
  }

  lemma InnerWf(c: Claim)
    ensures Wf(Obj(ClaimIntent(c))) && NoNumbers(Obj(ClaimIntent(c))) && Wf(Obj(Bounds(c))) && NoNumbers(Obj(Bounds(c)))
    ensures Wf(Texts(c.chains)) && NoNumbers(Texts(c.chains)) && Wf(Texts(c.modes)) && NoNumbers(Texts(c.modes))
  {
    InnerKeys(c);
  }

  /** Claims with the same canonical text are the same claim. */
  lemma ClaimTextUnique(ctx: Context, a: Claim, b: Claim)
    requires NumberTexts(ctx.number)
    requires Canonical(ctx.number, ClaimValue(ctx, a)) == Canonical(ctx.number, ClaimValue(ctx, b))
    ensures a == b
  {
    ClaimWf(ctx, a);
    ClaimWf(ctx, b);
    hide Wf, NoNumbers, Canonical, ClaimValue, Same;
    CanonicalMeaning(ctx.number, ClaimValue(ctx, a), ClaimValue(ctx, b));
    NoNumbersPlain(ClaimValue(ctx, a));
    NoNumbersPlain(ClaimValue(ctx, b));
    ClaimDetermined(ctx, a, b);
  }

  // ----- what the claim says -----

  lemma MemberAt(fields: seq<Field>, i: nat, key: Text)
    requires DistinctKeys(fields) && i < |fields| && fields[i].key == key
    ensures Get(Obj(fields), key) == Some(fields[i].value)
  {
    LookupAt(fields, i);
  }

  /** The members of the claim by name: which quote it is about, and when it holds. */
  lemma ClaimReads(ctx: Context, c: Claim)
    ensures var v := ClaimValue(ctx, c);
            && |v.fields| == 17
            && Get(v, Name("version")) == Some(Str(VERSION)) && Get(v, Name("quote_id")) == Some(Str(c.quoteId))
            && Get(v, Name("issued_at")) == Some(Str(c.issuedAt)) && Get(v, Name("expires_at")) == Some(Str(c.expiresAt))
            && Get(v, Name("ttl_seconds")) == Some(Str(c.ttl))
  {
    ClaimKeys(ctx, c);
    hide Name, DistinctKeys, Get, Texts, ClaimIntent, Bounds;
    var f := ClaimFields(ctx, c);
    MemberAt(f, 0, Name("version"));
    MemberAt(f, 1, Name("quote_id"));
    MemberAt(f, 2, Name("issued_at"));
    MemberAt(f, 3, Name("expires_at"));
    MemberAt(f, 4, Name("ttl_seconds"));
  }

  /** Its hashes. */
  lemma ClaimHashesRead(ctx: Context, c: Claim)
    ensures var v := ClaimValue(ctx, c);
            && Get(v, Name("direct_route_summary_sha256")) == Some(Str(c.summaryHash))
            && Get(v, Name("quote_payload_sha256")) == Some(Str(c.payloadHash))
            && Get(v, Name("quote_payload_sha256_spec")) == Some(Str(ctx.specification))
  {
    ClaimKeys(ctx, c);
    hide Name, DistinctKeys, Get, Texts, ClaimIntent, Bounds;
    var f := ClaimFields(ctx, c);
    MemberAt(f, 6, Name("direct_route_summary_sha256"));
    MemberAt(f, 7, Name("quote_payload_sha256"));
    MemberAt(f, 8, Name("quote_payload_sha256_spec"));
  }

  /** The others: what is promised, and who may act on it. */
  lemma ClaimRestReads(ctx: Context, c: Claim)
    ensures var v := ClaimValue(ctx, c);
            && Get(v, Name("minimum_output_base")) == Some(Str(c.minimumOutput)) && Get(v, Name("step_count")) == Some(Str(c.stepCount))
            && Get(v, Name("required_wallet_chains")) == Some(Texts(c.chains)) && Get(v, Name("allowed_modes")) == Some(Texts(c.modes))
            && Get(v, Name("event_signer_public_required")) == Some(Value.Bool(c.signer))
            && Get(v, Name("server_signing")) == Get(v, Name("server_submission")) == Some(Value.Bool(false))
  {
    ClaimKeys(ctx, c);
    hide Name, DistinctKeys, Get, Texts, ClaimIntent, Bounds;
    var f := ClaimFields(ctx, c);
    MemberAt(f, 10, Name("minimum_output_base"));
    MemberAt(f, 11, Name("required_wallet_chains"));
    MemberAt(f, 12, Name("event_signer_public_required"));
    MemberAt(f, 13, Name("step_count"));
    MemberAt(f, 14, Name("allowed_modes"));
    MemberAt(f, 15, Name("server_signing"));
    MemberAt(f, 16, Name("server_submission"));
  }

  /** Its intent and its bounds by name. */
  lemma ClaimPartsRead(ctx: Context, c: Claim)
    ensures exists intent, bounds ::
              && Get(ClaimValue(ctx, c), Name("intent")) == Some(intent) && Get(ClaimValue(ctx, c), Name("input_base_bounds")) == Some(bounds)
              && Get(intent, Name("from")) == Some(Str(c.from)) && Get(intent, Name("to")) == Some(Str(c.to))
              && Get(intent, Name("amount_usd_decimal")) == Some(Str(c.amount))
              && Get(intent, Name("estimated_input_base")) == Some(Str(c.estimated))
              && Get(bounds, Name("minimum")) == Some(Str(c.minimum)) && Get(bounds, Name("maximum")) == Some(Str(c.maximum))
  {
    ClaimKeys(ctx, c);
    InnerKeys(c);
    hide Name, DistinctKeys, Get, Texts;
    MemberAt(ClaimFields(ctx, c), 5, Name("intent"));
    MemberAt(ClaimFields(ctx, c), 9, Name("input_base_bounds"));
    MemberAt(ClaimIntent(c), 0, Name("from"));
    MemberAt(ClaimIntent(c), 1, Name("to"));
    MemberAt(ClaimIntent(c), 2, Name("amount_usd_decimal"));
    MemberAt(ClaimIntent(c), 3, Name("estimated_input_base"));
    MemberAt(Bounds(c), 0, Name("minimum"));
    MemberAt(Bounds(c), 1, Name("maximum"));
  }
}
