/** The explicit-stack scanners that refuse key material and signing claims anywhere in a value
    (assertPublic in src/caller-runner.js, rejectSensitive in src/direct-route-summary.js). */
module Scanner {
  import opened Json

  const MAXIMUM_NODES := 2048
  const MAXIMUM_DEPTH := 20

  /** What a scanner refuses. Keys are compared after `lower` (String.prototype.toLowerCase, a parameter here)
      and with underscores and hyphens removed: refused when they contain one of `terms`, when they are one
      of `exact`, and, for those of `claims`, unless the value is false. */
  datatype Rules = Rules(lower: Text -> Text, terms: seq<Text>, exact: set<Text>, claims: set<Text>)

  const UNDERSCORE := 95
  const HYPHEN := 45

  function Squeezed(key: Text): Text {
    if key == [] then []
    else if key[0] == UNDERSCORE || key[0] == HYPHEN then Squeezed(key[1..])
    else [key[0]] + Squeezed(key[1..])
  }

  predicate Includes(text: Text, term: Text) {
    exists i | 0 <= i <= |text| :: term <= text[i..]
  }

  predicate Refused(rules: Rules, f: Field) {
    var key := Squeezed(rules.lower(f.key));
    || (exists k | 0 <= k < |rules.terms| :: Includes(key, rules.terms[k]))
    || key in rules.exact
    || (key in rules.claims && f.value != Bool(false))
  }

  function Units(s: string): Text {
    seq(|s|, i requires 0 <= i < |s| => s[i] as int % 0x1_0000)
  }

  /** The rules of rejectSensitive (src/direct-route-summary.js). */
  function RouteRules(lower: Text -> Text): Rules {
    Rules(lower,
          [Units("privatekey"), Units("privkey"), Units("secretkey"), Units("seedphrase"), Units("seed"), Units("mnemonic"),
           Units("keypair"), Units("signedtransaction"), Units("signedtx"), Units("rawtransaction"), Units("password"),
           Units("passphrase"), Units("signature"), Units("issafe")],
          {Units("safe")}, {Units("signed"), Units("submitted")})
  }

  /** The rules of assertPublic (src/caller-runner.js). */
  function PublicRules(lower: Text -> Text): Rules {
    Rules(lower,
          [Units("privatekey"), Units("seedphrase"), Units("mnemonic"), Units("secretkey"), Units("secretjsonarray"),
           Units("signedtransaction"), Units("serializedtransaction"), Units("rawtransaction")],
          {}, {})
  }

  // ----- which spellings are refused -----

  /** The text is the term with any number of underscores and hyphens before, between and after its letters. */
  predicate Spreads(text: Text, term: Text) {
    if text == [] then term == []
    else if text[0] == 95 || text[0] == 45 then Spreads(text[1..], term)
    else term != [] && text[0] == term[0] && Spreads(text[1..], term[1..])
  }

  /** Some part of the text spells the term that way. */
  ghost predicate Contains(text: Text, term: Text) {
    exists a, part, b :: text == a + part + b && Spreads(part, term)
  }

  lemma {:induction false} SpreadsIff(text: Text, term: Text)
    ensures Spreads(text, term) <==> Squeezed(text) == term
  {
    if text != [] {
      if text[0] == 95 || text[0] == 45 {
        SpreadsIff(text[1..], term);
      } else if term != [] {
        SpreadsIff(text[1..], term[1..]);
        assert term == [term[0]] + term[1..];
      }
    }
  }

  lemma {:induction false} SqueezedConcat(a: Text, b: Text)
    ensures Squeezed(a + b) == Squeezed(a) + Squeezed(b)
  {
    if a == [] {
      assert a + b == b;
    } else {
      SqueezedConcat(a[1..], b);
      assert (a + b)[1..] == a[1..] + b;
    }
  }

  lemma {:induction false} SplitSqueezed(text: Text, p: Text, q: Text) returns (n: nat)
    requires Squeezed(text) == p + q
    ensures n <= |text| && Squeezed(text[..n]) == p && Squeezed(text[n..]) == q
  {
    if p == [] {
      n := 0;
    } else if text[0] == 95 || text[0] == 45 {
      n := SplitSqueezed(text[1..], p, q);
      n := n + 1;
      assert text[..n][1..] == text[1..][..n - 1] && text[n..] == text[1..][n - 1..];
    } else {
      assert Squeezed(text)[0] == p[0] && Squeezed(text)[1..] == p[1..] + q;
      n := SplitSqueezed(text[1..], p[1..], q);
      n := n + 1;
      assert text[..n][1..] == text[1..][..n - 1] && text[n..] == text[1..][n - 1..];
      assert p == [p[0]] + p[1..];
    }
  }

  lemma IncludedIsSpelled(key: Text, term: Text)
    requires Includes(Squeezed(key), term)
    ensures Contains(key, term)
  {
    hide Squeezed, Spreads;
    var text := Squeezed(key);
    var i :| 0 <= i <= |text| && term <= text[i..];
    assert text == text[..i] + text[i..] && text[i..] == term + text[i..][|term|..];
    var m := SplitSqueezed(key, text[..i], text[i..]);
    var n := SplitSqueezed(key[m..], term, text[i..][|term|..]);
    SpreadsIff(key[m..][..n], term);
    assert key == key[..m] + key[m..][..n] + key[m..][n..];
  }

  lemma SpelledIsIncluded(key: Text, term: Text)
    requires Contains(key, term)
    ensures Includes(Squeezed(key), term)
  {
    hide Squeezed, Spreads;
    var a, part, b :| key == a + part + b && Spreads(part, term);
    SpreadsIff(part, term);
    SqueezedConcat(a + part, b);
    SqueezedConcat(a, part);
    assert Squeezed(key) == Squeezed(a) + (term + Squeezed(b));
    assert term <= Squeezed(key)[|Squeezed(a)|..];
  }

  /** A term is found in the squeezed key exactly when some part of the key spells it, with underscores and
      hyphens anywhere inside. */
  lemma IncludesIff(key: Text, term: Text)
    ensures Includes(Squeezed(key), term) <==> Contains(key, term)
  {
    if Includes(Squeezed(key), term) {
      IncludedIsSpelled(key, term);
    }
    if Contains(key, term) {
      SpelledIsIncluded(key, term);
    }
  }

  /** What rules refuse, said of the lower-case key as it is written. */
  lemma RefusedIff(rules: Rules, f: Field)
    ensures Refused(rules, f) <==>
              || (exists k | 0 <= k < |rules.terms| :: Contains(rules.lower(f.key), rules.terms[k]))
              || (exists term :: term in rules.exact && Spreads(rules.lower(f.key), term))
              || (f.value != Bool(false) && exists term :: term in rules.claims && Spreads(rules.lower(f.key), term))
  {
    var key := rules.lower(f.key);
    hide Squeezed, Includes, Contains, Spreads;
    forall term: Text ensures Spreads(key, term) <==> Squeezed(key) == term {
      SpreadsIff(key, term);
    }
    forall term: Text ensures Includes(Squeezed(key), term) <==> Contains(key, term) {
      IncludesIff(key, term);
    }
  }

  /** What a route's summary may not have among its keys: words for secrets, anything signed, and claims of safety. */
  lemma RouteRefusedIff(lower: Text -> Text, f: Field)
    ensures Refused(RouteRules(lower), f) <==>
              var key := lower(f.key);
              || Contains(key, Units("privatekey")) || Contains(key, Units("privkey")) || Contains(key, Units("secretkey"))
              || Contains(key, Units("seedphrase")) || Contains(key, Units("seed")) || Contains(key, Units("mnemonic"))
              || Contains(key, Units("keypair")) || Contains(key, Units("signedtransaction")) || Contains(key, Units("signedtx"))
              || Contains(key, Units("rawtransaction")) || Contains(key, Units("password")) || Contains(key, Units("passphrase"))
              || Contains(key, Units("signature")) || Contains(key, Units("issafe"))
              || Spreads(key, Units("safe"))
              || (f.value != Bool(false) && (Spreads(key, Units("signed")) || Spreads(key, Units("submitted"))))
  {
    RefusedIff(RouteRules(lower), f);
    hide Units, Contains, Spreads, Refused;
    var t := RouteRules(lower).terms;
    assert t == [t[0], t[1], t[2], t[3], t[4], t[5], t[6], t[7], t[8], t[9], t[10], t[11], t[12], t[13]];
  }

  /** What assertPublic refuses in states, handoffs and the adapter's answers. */
  lemma PublicRefusedIff(lower: Text -> Text, f: Field)
    ensures Refused(PublicRules(lower), f) <==>
              var key := lower(f.key);
              || Contains(key, Units("privatekey")) || Contains(key, Units("seedphrase")) || Contains(key, Units("mnemonic"))
              || Contains(key, Units("secretkey")) || Contains(key, Units("secretjsonarray")) || Contains(key, Units("signedtransaction"))
              || Contains(key, Units("serializedtransaction")) || Contains(key, Units("rawtransaction"))
  {
    RefusedIff(PublicRules(lower), f);
    hide Units, Contains, Spreads, Refused;
    var t := PublicRules(lower).terms;
    assert t == [t[0], t[1], t[2], t[3], t[4], t[5], t[6], t[7]];
  }

  // ----- what is safe -----

  function Count(v: Value): (n: nat)
    ensures n >= 1
    decreases v, 1
  {
    match v
    case Arr(items) => 1 + CountItems(items)
    case Obj(fields) => 1 + CountFields(fields)
    case _ => 1
  }

  function CountItems(items: seq<Value>): nat
    decreases items, 0
  {
    if items == [] then 0 else Count(items[0]) + CountItems(items[1..])
  }

  function CountFields(fields: seq<Field>): nat
    decreases fields, 0
  {
    if fields == [] then 0 else Count(fields[0].value) + CountFields(fields[1..])
  }

  /** No node lies more than `room` levels below v. */
  predicate Within(v: Value, room: int) {
    && room >= 0
    && match v
       case Arr(items) => forall i | 0 <= i < |items| :: Within(items[i], room - 1)
       case Obj(fields) => forall i | 0 <= i < |fields| :: Within(fields[i].value, room - 1)
       case _ => true
  }

  predicate Clean(rules: Rules, v: Value) {
    match v
    case Arr(items) => forall i | 0 <= i < |items| :: Clean(rules, items[i])
    case Obj(fields) => forall i | 0 <= i < |fields| :: !Refused(rules, fields[i]) && Clean(rules, fields[i].value)
    case _ => true
  }

  predicate Safe(rules: Rules, v: Value) {
    Count(v) <= MAXIMUM_NODES && Within(v, MAXIMUM_DEPTH) && Clean(rules, v)
  }

  // ----- the stack -----

  datatype Frame = Frame(node: Value, depth: nat)

  function CountAll(stack: seq<Frame>): nat {
    if stack == [] then 0 else CountAll(stack[..|stack| - 1]) + Count(stack[|stack| - 1].node)
  }

  ghost predicate AllWithin(stack: seq<Frame>) {
    forall i | 0 <= i < |stack| :: Within(stack[i].node, MAXIMUM_DEPTH - stack[i].depth)
  }

  ghost predicate AllClean(rules: Rules, stack: seq<Frame>) {
    forall i | 0 <= i < |stack| :: Clean(rules, stack[i].node)
  }

  lemma PushCounts(stack: seq<Frame>, f: Frame)
    ensures CountAll(stack + [f]) == CountAll(stack) + Count(f.node)
  {
    assert (stack + [f])[..|stack|] == stack;
  }

  lemma {:induction false} CountItemsPrefix(items: seq<Value>, k: nat)
    requires k < |items|
    ensures CountItems(items[..k + 1]) == CountItems(items[..k]) + Count(items[k])
  {
    if k > 0 {
      CountItemsPrefix(items[1..], k - 1);
      assert items[..k + 1][1..] == items[1..][..k] && items[..k][1..] == items[1..][..k - 1];
    } else {
      assert items[..1][1..] == [];
    }
  }

  lemma {:induction false} CountFieldsPrefix(fields: seq<Field>, k: nat)
    requires k < |fields|
    ensures CountFields(fields[..k + 1]) == CountFields(fields[..k]) + Count(fields[k].value)
  {
    if k > 0 {
      CountFieldsPrefix(fields[1..], k - 1);
      assert fields[..k + 1][1..] == fields[1..][..k] && fields[..k][1..] == fields[1..][..k - 1];
    } else {
      assert fields[..1][1..] == [];
    }
  }

  /** What remains to be visited, together with what was already found in order, decides the whole value. */
  ghost predicate Remaining(rules: Rules, root: Value, seen: nat, stack: seq<Frame>) {
    && Count(root) == seen + CountAll(stack)
    && (Within(root, MAXIMUM_DEPTH) <==> AllWithin(stack))
    && (Clean(rules, root) <==> AllClean(rules, stack))
  }

  /** A frame taken off the stack leaves its children to be visited. */
  ghost predicate Pending(rules: Rules, root: Value, seen: nat, stack: seq<Frame>, node: Value, depth: nat, k: nat) {
    match node
    case Arr(items) =>
      && k <= |items|
      && Count(root) == seen + CountAll(stack) + CountItems(items) - CountItems(items[..k])
      && (Within(root, MAXIMUM_DEPTH) <==> AllWithin(stack) && forall i | k <= i < |items| :: Within(items[i], MAXIMUM_DEPTH - depth - 1))
      && (Clean(rules, root) <==> AllClean(rules, stack) && forall i | k <= i < |items| :: Clean(rules, items[i]))
    case Obj(fields) =>
      && k <= |fields|
      && Count(root) == seen + CountAll(stack) + CountFields(fields) - CountFields(fields[..k])
      && (Within(root, MAXIMUM_DEPTH) <==> AllWithin(stack) && forall i | k <= i < |fields| :: Within(fields[i].value, MAXIMUM_DEPTH - depth - 1))
      && (Clean(rules, root) <==>
            AllClean(rules, stack) && forall i | k <= i < |fields| :: !Refused(rules, fields[i]) && Clean(rules, fields[i].value))
    case _ => Remaining(rules, root, seen, stack)
  }

  lemma PopWithin(stack: seq<Frame>)
    requires stack != []
    ensures var f := stack[|stack| - 1];
            AllWithin(stack) <==> AllWithin(stack[..|stack| - 1]) && Within(f.node, MAXIMUM_DEPTH - f.depth)
  {
    hide Within;
  }

  lemma PopFrame(rules: Rules, root: Value, seen: nat, stack: seq<Frame>)
    requires stack != [] && Remaining(rules, root, seen, stack)
    ensures var f := stack[|stack| - 1];
            && seen + 1 <= Count(root)
            && (f.depth > MAXIMUM_DEPTH ==> !Within(root, MAXIMUM_DEPTH))
            && (f.depth <= MAXIMUM_DEPTH ==> Pending(rules, root, seen + 1, stack[..|stack| - 1], f.node, f.depth, 0))
  {
    var n := |stack| - 1;
    var f, rest := stack[n], stack[..n];
    PopWithin(stack);
    assert AllClean(rules, stack) <==> AllClean(rules, rest) && Clean(rules, f.node);
    if f.depth > MAXIMUM_DEPTH {
      assert !Within(f.node, MAXIMUM_DEPTH - f.depth);
    }
  }

  lemma PushFacts(rules: Rules, stack: seq<Frame>, child: Value, depth: nat)
    ensures var after := stack + [Frame(child, depth + 1)];
            && CountAll(after) == CountAll(stack) + Count(child)
            && (AllWithin(after) <==> AllWithin(stack) && Within(child, MAXIMUM_DEPTH - depth - 1))
            && (AllClean(rules, after) <==> AllClean(rules, stack) && Clean(rules, child))
  {
    hide Count, Within, Clean;
    PushCounts(stack, Frame(child, depth + 1));
  }

  lemma PushChild(rules: Rules, root: Value, seen: nat, stack: seq<Frame>, node: Value, depth: nat, k: nat, child: Value)
    requires Pending(rules, root, seen, stack, node, depth, k)
    requires match node
             case Arr(items) => k < |items| && child == items[k]
             case Obj(fields) => k < |fields| && child == fields[k].value && !Refused(rules, fields[k])
             case _ => false
    ensures Pending(rules, root, seen, stack + [Frame(child, depth + 1)], node, depth, k + 1)
  {
    PushFacts(rules, stack, child, depth);
    hide Count, Within, Clean, Refused, CountAll, AllWithin, AllClean, CountItems, CountFields;
    match node
    case Arr(items) => CountItemsPrefix(items, k);
    case Obj(fields) => CountFieldsPrefix(fields, k);
  }

  /** A node without children to visit, or with all of them pushed. */
  lemma PushedAll(rules: Rules, root: Value, seen: nat, stack: seq<Frame>, node: Value, depth: nat, k: nat)
    requires Pending(rules, root, seen, stack, node, depth, k)
    requires match node
             case Arr(items) => k == |items|
             case Obj(fields) => k == |fields|
             case _ => true
    ensures Remaining(rules, root, seen, stack)
  {
    match node
    case Arr(items) => assert items[..|items|] == items;
    case Obj(fields) => assert fields[..|fields|] == fields;
    case _ =>
  }

  lemma RefusedIsUnclean(rules: Rules, root: Value, seen: nat, stack: seq<Frame>, node: Value, depth: nat, k: nat)
    requires Pending(rules, root, seen, stack, node, depth, k)
    requires node.Obj? && k < |node.fields| && Refused(rules, node.fields[k])
    ensures !Clean(rules, root)
  {
  }

  /** Pushes the children of one node in order, or finds a refused key among them. */
  method Visit(rules: Rules, ghost root: Value, ghost seen: nat, stack: seq<Frame>, node: Value, depth: nat)
    returns (ok: bool, after: seq<Frame>)
    requires Pending(rules, root, seen, stack, node, depth, 0)
    ensures ok ==> Remaining(rules, root, seen, after)
    ensures !ok ==> !Clean(rules, root)
  {
    hide Remaining, Clean, Refused;
    after := stack;
    match node {
      case Arr(items) =>
        for k := 0 to |items|
          invariant Pending(rules, root, seen, after, node, depth, k)
        {
          PushChild(rules, root, seen, after, node, depth, k, items[k]);
          after := after + [Frame(items[k], depth + 1)];
        }
        PushedAll(rules, root, seen, after, node, depth, |items|);
      case Obj(fields) =>
        for k := 0 to |fields|
          invariant Pending(rules, root, seen, after, node, depth, k)
        {
          if Refused(rules, fields[k]) {
            RefusedIsUnclean(rules, root, seen, after, node, depth, k);
            return false, after;
          }
          PushChild(rules, root, seen, after, node, depth, k, fields[k].value);
          after := after + [Frame(fields[k].value, depth + 1)];
        }
        PushedAll(rules, root, seen, after, node, depth, |fields|);
      case _ => PushedAll(rules, root, seen, after, node, depth, 0);
    }
    ok := true;
  }

  /** The scanners' loop accepts exactly the safe values, and ends on every value. */
  method Scan(rules: Rules, root: Value) returns (ok: bool)
    ensures ok <==> Safe(rules, root)
  {
    var stack, seen := [Frame(root, 0)], 0;
    PushCounts([], Frame(root, 0));
    assert [] + [Frame(root, 0)] == stack;
    while stack != []
      invariant Remaining(rules, root, seen, stack) && seen <= MAXIMUM_NODES
      decreases Count(root) - seen
    {
      hide Remaining, Pending, Clean;
      var top := stack[|stack| - 1];
      PopFrame(rules, root, seen, stack);
      stack := stack[..|stack| - 1];
      seen := seen + 1;
      if seen > MAXIMUM_NODES || top.depth > MAXIMUM_DEPTH { return false; }
      ok, stack := Visit(rules, root, seen, stack, top.node, top.depth);
      if !ok { return false; }
    }
    ok := true;
  }
}
