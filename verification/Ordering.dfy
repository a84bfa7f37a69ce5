/** JSON values with the members of every object in a fixed order. */
module Ordering {
  import opened Wrappers
  import opened Unicode
  import opened Json
  import opened Sorting
  import opened TypedCanonical

  function KeyBytes(key: Text): Bytes {
    match Strict(key)
    case None => []
    case Some(raw) => raw
  }

  /** Objects list their members by UTF-8 key bytes in the typed encoding, by UTF-16 code units in canonical text. */
  datatype Order = ByBytes | ByUnits

  function KeyOf(order: Order, key: Text): seq<int> {
    match order
    case ByBytes => KeyBytes(key)
    case ByUnits => key
  }

  function Ordered(order: Order, v: Value): Value
    decreases v, 1
  {
    match v
    case Arr(items) => Arr(OrderedItems(order, items))
    case Obj(fields) => Obj(Unkeyed(Sort(OrderedFields(order, fields))))
    case _ => v
  }

  function OrderedItems(order: Order, items: seq<Value>): (r: seq<Value>)
    ensures |r| == |items|
    decreases items, 0
  {
    if items == [] then [] else [Ordered(order, items[0])] + OrderedItems(order, items[1..])
  }

  function OrderedFields(order: Order, fields: seq<Field>): (r: seq<Keyed<Field>>)
    ensures |r| == |fields|
    decreases fields, 0
  {
    if fields == [] then []
    else [Keyed(KeyOf(order, fields[0].key), Field(fields[0].key, Ordered(order, fields[0].value)))] + OrderedFields(order, fields[1..])
  }

  function Unkeyed(keyed: seq<Keyed<Field>>): (r: seq<Field>)
    ensures |r| == |keyed|
  {
    if keyed == [] then [] else [keyed[0].item] + Unkeyed(keyed[1..])
  }

  lemma {:induction false} MembersIn(keyed: seq<Keyed<Field>>, f: Field)
    ensures f in Unkeyed(keyed) <==> exists k | k in keyed :: k.item == f
  {
    if keyed != [] {
      MembersIn(keyed[1..], f);
      assert forall k :: k in keyed <==> k == keyed[0] || k in keyed[1..];
    }
  }

  lemma {:induction false} OrderedFieldAt(order: Order, fields: seq<Field>, i: nat)
    requires i < |fields|
    ensures OrderedFields(order, fields)[i] ==
            Keyed(KeyOf(order, fields[i].key), Field(fields[i].key, Ordered(order, fields[i].value)))
  {
    if i > 0 {
      OrderedFieldAt(order, fields[1..], i - 1);
    }
  }

  /** The members of an ordered object are the members of the object, each with its value ordered. */
  lemma OrderedMembers(order: Order, fields: seq<Field>, g: Field)
    ensures g in Ordered(order, Obj(fields)).fields <==>
            exists i | 0 <= i < |fields| :: g == Field(fields[i].key, Ordered(order, fields[i].value))
  {
    var keyed := OrderedFields(order, fields);
    MembersIn(Sort(keyed), g);
    SortElements(keyed);
    if g in Unkeyed(Sort(keyed)) {
      var k :| k in Sort(keyed) && k.item == g;
      assert k in keyed;
      var i :| 0 <= i < |keyed| && keyed[i] == k;
      OrderedFieldAt(order, fields, i);
    }
    forall i | 0 <= i < |fields| && g == Field(fields[i].key, Ordered(order, fields[i].value))
      ensures g in Unkeyed(Sort(keyed))
    {
      OrderedFieldAt(order, fields, i);
      assert keyed[i] in keyed;
      assert keyed[i] in Sort(keyed);
    }
  }

  /** The keys of the object can be told apart in this order. */
  ghost predicate KeysApart(order: Order, fields: seq<Field>) {
    forall i, j | 0 <= i < j < |fields| :: KeyOf(order, fields[i].key) != KeyOf(order, fields[j].key)
  }

  lemma {:induction false} UnkeyedAt(keyed: seq<Keyed<Field>>, i: nat)
    requires i < |keyed|
    ensures Unkeyed(keyed)[i] == keyed[i].item
  {
    if i > 0 {
      UnkeyedAt(keyed[1..], i - 1);
    }
  }

  /** The members of an ordered object come in lexicographic order of their keys. */
  lemma MembersAscend(order: Order, fields: seq<Field>, i: nat, j: nat)
    requires KeysApart(order, fields) && i < j < |fields|
    ensures var members := Ordered(order, Obj(fields)).fields;
            |members| == |fields| && Lexical(KeyOf(order, members[i].key), KeyOf(order, members[j].key))
  {
    var keyed := OrderedFields(order, fields);
    var sorted := Sort(keyed);
    forall m, n | 0 <= m < n < |keyed| ensures keyed[m].key != keyed[n].key {
      OrderedFieldAt(order, fields, m);
      OrderedFieldAt(order, fields, n);
    }
    SortAscending(keyed);
    SortElements(keyed);
    forall m | 0 <= m < |sorted| ensures sorted[m].key == KeyOf(order, sorted[m].item.key) {
      assert sorted[m] in keyed;
      var n :| 0 <= n < |keyed| && keyed[n] == sorted[m];
      OrderedFieldAt(order, fields, n);
    }
    UnkeyedAt(sorted, i);
    UnkeyedAt(sorted, j);
    LessIsLexical(sorted[i].key, sorted[j].key);
  }

  lemma {:induction false} OrderedItemAt(order: Order, items: seq<Value>, i: nat)
    requires i < |items|
    ensures OrderedItems(order, items)[i] == Ordered(order, items[i])
  {
    if i > 0 {
      OrderedItemAt(order, items[1..], i - 1);
    }
  }

  lemma {:induction false} OrderedEqualIsSame(order: Order, v: Value, w: Value)
    requires Ordered(order, v) == Ordered(order, w)
    ensures Same(v, w)
    decreases v
  {
    match v
    case Arr(items) =>
      forall i | 0 <= i < |items| ensures Same(items[i], w.items[i]) {
        OrderedItemAt(order, items, i);
        OrderedItemAt(order, w.items, i);
        OrderedEqualIsSame(order, items[i], w.items[i]);
      }
    case Obj(fields) =>
      forall i | 0 <= i < |fields| ensures HasSame(fields[i], w.fields) {
        var g := Field(fields[i].key, Ordered(order, fields[i].value));
        OrderedMembers(order, fields, g);
        OrderedMembers(order, w.fields, g);
        var j :| 0 <= j < |w.fields| && g == Field(w.fields[j].key, Ordered(order, w.fields[j].value));
        OrderedEqualIsSame(order, fields[i].value, w.fields[j].value);
      }
    case _ =>
  }

  /** Ordering the members of a value gives the same JSON value. */
  lemma {:induction false} SameAsOrdered(order: Order, v: Value)
    ensures Same(v, Ordered(order, v))
  {
    match v
    case Arr(items) =>
      forall i | 0 <= i < |items| ensures Same(items[i], Ordered(order, v).items[i]) {
        OrderedItemAt(order, items, i);
        SameAsOrdered(order, items[i]);
      }
    case Obj(fields) =>
      forall i | 0 <= i < |fields| ensures HasSame(fields[i], Ordered(order, v).fields) {
        var g := Field(fields[i].key, Ordered(order, fields[i].value));
        OrderedMembers(order, fields, g);
        var j :| 0 <= j < |Ordered(order, v).fields| && Ordered(order, v).fields[j] == g;
        SameAsOrdered(order, fields[i].value);
      }
    case _ =>
  }

  /** Equal values become identical once their members are in code unit order. */
  lemma {:induction false} SameOrderedEqual(v: Value, w: Value)
    requires Wf(v) && Wf(w) && Same(v, w)
    ensures Ordered(ByUnits, v) == Ordered(ByUnits, w)
    decreases v
  {
    match v
    case Arr(items) =>
      forall i | 0 <= i < |items| ensures OrderedItems(ByUnits, items)[i] == OrderedItems(ByUnits, w.items)[i] {
        OrderedItemAt(ByUnits, items, i);
        OrderedItemAt(ByUnits, w.items, i);
        SameOrderedEqual(items[i], w.items[i]);
      }
      assert OrderedItems(ByUnits, items) == OrderedItems(ByUnits, w.items);
    case Obj(a) =>
      var b := w.fields;
      forall i | 0 <= i < |a| ensures OrderedFields(ByUnits, a)[i] in OrderedFields(ByUnits, b) {
        assert HasSame(a[i], b);
        var j :| 0 <= j < |b| && a[i].key == b[j].key && Same(a[i].value, b[j].value);
        SameOrderedEqual(a[i].value, b[j].value);
        OrderedFieldAt(ByUnits, a, i);
        OrderedFieldAt(ByUnits, b, j);
        assert OrderedFields(ByUnits, a)[i] == OrderedFields(ByUnits, b)[j];
      }
      forall j | 0 <= j < |b| ensures OrderedFields(ByUnits, b)[j] in OrderedFields(ByUnits, a) {
        var i := SameObjectsMatch(a, b, j);
        SameOrderedEqual(a[i].value, b[j].value);
        OrderedFieldAt(ByUnits, a, i);
        OrderedFieldAt(ByUnits, b, j);
        assert OrderedFields(ByUnits, b)[j] == OrderedFields(ByUnits, a)[i];
      }
      UnitKeysDistinct(a);
      UnitKeysDistinct(b);
      SortDetermined(OrderedFields(ByUnits, a), OrderedFields(ByUnits, b));
    case _ =>
  }

  lemma UnitKeysDistinct(fields: seq<Field>)
    requires DistinctKeys(fields)
    ensures DistinctSortKeys(OrderedFields(ByUnits, fields))
  {
    forall i, j | 0 <= i < j < |fields| ensures OrderedFields(ByUnits, fields)[i].key != OrderedFields(ByUnits, fields)[j].key {
      OrderedFieldAt(ByUnits, fields, i);
      OrderedFieldAt(ByUnits, fields, j);
    }
  }
}
