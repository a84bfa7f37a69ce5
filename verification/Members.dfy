/** Members of objects: reading, overwriting and deleting them, and what that leaves of equality. */
module Members {
  import opened Wrappers
  import opened Unicode
  import opened Json
  import opened Sorting
  import opened TypedCanonical

  // ----- object members -----

  function Lookup(fields: seq<Field>, key: Text): (r: Option<Value>)
    ensures r.Some? <==> exists i | 0 <= i < |fields| :: fields[i].key == key
    ensures r.Some? ==> exists i | 0 <= i < |fields| :: fields[i].key == key && fields[i].value == r.value
  {
    if fields == [] then None
    else if fields[0].key == key then
      assert fields[0].value == fields[0].value;
      Some(fields[0].value)
    else
      var r := Lookup(fields[1..], key);
      assert forall i | 0 < i < |fields| :: fields[i] == fields[1..][i - 1];
      assert r.Some? ==> exists i | 0 <= i < |fields[1..]| :: fields[1..][i].key == key && fields[1..][i].value == r.value;
      r
  }

  /** value?.key, for values without named properties other than object members. */
  function Get(v: Value, key: Text): Option<Value> {
    if v.Obj? then Lookup(v.fields, key) else None
  }

  /** object.key = value: an existing member keeps its place, a new one goes last. */
  function Put(fields: seq<Field>, key: Text, value: Value): seq<Field> {
    if fields == [] then [Field(key, value)]
    else if fields[0].key == key then [Field(key, value)] + fields[1..]
    else [fields[0]] + Put(fields[1..], key, value)
  }

  function PutAll(fields: seq<Field>, updates: seq<Field>): seq<Field>
    decreases |updates|
  {
    if updates == [] then fields
    else PutAll(Put(fields, updates[0].key, updates[0].value), updates[1..])
  }

  /** delete object.key, for each of the keys. */
  function Drop(fields: seq<Field>, keys: set<Text>): seq<Field> {
    if fields == [] then []
    else if fields[0].key in keys then Drop(fields[1..], keys)
    else [fields[0]] + Drop(fields[1..], keys)
  }

  lemma {:induction false} LookupPut(fields: seq<Field>, key: Text, value: Value, k: Text)
    ensures Lookup(Put(fields, key, value), k) == if k == key then Some(value) else Lookup(fields, k)
  {
    if fields != [] && fields[0].key != key {
      LookupPut(fields[1..], key, value, k);
    }
  }

  lemma {:induction false} LookupPutAll(fields: seq<Field>, updates: seq<Field>, k: Text)
    requires DistinctKeys(updates)
    ensures Lookup(PutAll(fields, updates), k) == if Lookup(updates, k).Some? then Lookup(updates, k) else Lookup(fields, k)
    decreases |updates|
  {
    if updates != [] {
      var u := updates[0];
      LookupPutAll(Put(fields, u.key, u.value), updates[1..], k);
      LookupPut(fields, u.key, u.value, k);
      if k == u.key {
        assert Lookup(updates[1..], k).None?;
      }
    }
  }

  lemma {:induction false} LookupDrop(fields: seq<Field>, keys: set<Text>, k: Text)
    ensures Lookup(Drop(fields, keys), k) == if k in keys then None else Lookup(fields, k)
  {
    if fields != [] {
      LookupDrop(fields[1..], keys, k);
      if fields[0].key !in keys {
        assert Drop(fields, keys)[1..] == Drop(fields[1..], keys);
      }
    }
  }

  lemma {:induction false} PutDistinct(fields: seq<Field>, key: Text, value: Value)
    requires DistinctKeys(fields)
    ensures DistinctKeys(Put(fields, key, value))
  {
    if fields != [] && fields[0].key != key {
      var rest := Put(fields[1..], key, value);
      PutDistinct(fields[1..], key, value);
      LookupPut(fields[1..], key, value, fields[0].key);
      assert Lookup(fields[1..], fields[0].key).None?;
      assert forall i | 0 <= i < |rest| :: rest[i].key != fields[0].key;
    }
  }

  lemma {:induction false} PutAllDistinct(fields: seq<Field>, updates: seq<Field>)
    requires DistinctKeys(fields)
    ensures DistinctKeys(PutAll(fields, updates))
    decreases |updates|
  {
    if updates != [] {
      PutDistinct(fields, updates[0].key, updates[0].value);
      PutAllDistinct(Put(fields, updates[0].key, updates[0].value), updates[1..]);
    }
  }

  lemma {:induction false} DropDistinct(fields: seq<Field>, keys: set<Text>)
    requires DistinctKeys(fields)
    ensures DistinctKeys(Drop(fields, keys))
  {
    if fields != [] {
      var rest := Drop(fields[1..], keys);
      DropDistinct(fields[1..], keys);
      LookupDrop(fields[1..], keys, fields[0].key);
      assert Lookup(fields[1..], fields[0].key).None?;
      assert forall i | 0 <= i < |rest| :: rest[i].key != fields[0].key;
    }
  }

  lemma {:induction false} DropTwice(fields: seq<Field>, a: set<Text>, b: set<Text>)
    ensures Drop(Drop(fields, a), b) == Drop(fields, a + b)
  {
    if fields != [] {
      DropTwice(fields[1..], a, b);
      if fields[0].key !in a {
        assert Drop(fields, a)[1..] == Drop(fields[1..], a);
      }
    }
  }

  // ----- objects are equal when they look alike -----

  ghost predicate SameOption(a: Option<Value>, b: Option<Value>) {
    a.Some? == b.Some? && (a.Some? ==> Same(a.value, b.value))
  }

  lemma LookupAt(fields: seq<Field>, i: nat)
    requires DistinctKeys(fields) && i < |fields|
    ensures Lookup(fields, fields[i].key) == Some(fields[i].value)
  {
    assert Lookup(fields, fields[i].key).Some?;
  }

  lemma SameLooksAlike(a: seq<Field>, b: seq<Field>, k: Text)
    requires DistinctKeys(a) && DistinctKeys(b) && Same(Obj(a), Obj(b))
    ensures SameOption(Lookup(a, k), Lookup(b, k))
  {
    if Lookup(a, k).Some? {
      var i :| 0 <= i < |a| && a[i].key == k && a[i].value == Lookup(a, k).value;
      assert HasSame(a[i], b);
      var j :| 0 <= j < |b| && a[i].key == b[j].key && Same(a[i].value, b[j].value);
      LookupAt(b, j);
    } else if Lookup(b, k).Some? {
      var j :| 0 <= j < |b| && b[j].key == k;
      var i := SameObjectsMatch(a, b, j);
    }
  }

  lemma LooksAlikeSame(a: seq<Field>, b: seq<Field>)
    requires DistinctKeys(a) && DistinctKeys(b) && forall k :: SameOption(Lookup(a, k), Lookup(b, k))
    ensures Same(Obj(a), Obj(b))
  {
    KeySetSize(a);
    KeySetSize(b);
    forall k ensures k in KeySet(a) <==> k in KeySet(b) {
      assert SameOption(Lookup(a, k), Lookup(b, k));
    }
    assert KeySet(a) == KeySet(b);
    forall i | 0 <= i < |a| ensures HasSame(a[i], b) {
      LookupAt(a, i);
      assert SameOption(Lookup(a, a[i].key), Lookup(b, a[i].key));
    }
  }

  ghost function Keys(updates: seq<Field>): set<Text> {
    KeySet(updates)
  }

  ghost predicate SameKeys(u: seq<Field>, v: seq<Field>) {
    |u| == |v| && forall i | 0 <= i < |u| :: u[i].key == v[i].key
  }

  /** Overwriting members and dropping them leaves the same part of an object to compare. */
  lemma OverwrittenSame(f: seq<Field>, u: seq<Field>, g: seq<Field>, v: seq<Field>)
    requires DistinctKeys(f) && DistinctKeys(g) && DistinctKeys(u) && DistinctKeys(v) && SameKeys(u, v)
    ensures Same(Obj(PutAll(f, u)), Obj(PutAll(g, v))) <==>
            && Same(Obj(Drop(f, Keys(u))), Obj(Drop(g, Keys(v))))
            && forall i | 0 <= i < |u| :: Same(u[i].value, v[i].value)
  {
    if Same(Obj(PutAll(f, u)), Obj(PutAll(g, v))) {
      OverwrittenParts(f, u, g, v);
    }
    if Same(Obj(Drop(f, Keys(u))), Obj(Drop(g, Keys(v)))) && forall i | 0 <= i < |u| :: Same(u[i].value, v[i].value) {
      OverwrittenWhole(f, u, g, v);
    }
  }

  lemma OverwrittenWhole(f: seq<Field>, u: seq<Field>, g: seq<Field>, v: seq<Field>)
    requires DistinctKeys(f) && DistinctKeys(g) && DistinctKeys(u) && DistinctKeys(v) && SameKeys(u, v)
    requires Same(Obj(Drop(f, Keys(u))), Obj(Drop(g, Keys(v)))) && forall i | 0 <= i < |u| :: Same(u[i].value, v[i].value)
    ensures Same(Obj(PutAll(f, u)), Obj(PutAll(g, v)))
  {
    PutAllDistinct(f, u);
    PutAllDistinct(g, v);
    DropDistinct(f, Keys(u));
    DropDistinct(g, Keys(v));
    SameKeySets(u, v);
    forall k ensures SameOption(Lookup(PutAll(f, u), k), Lookup(PutAll(g, v), k)) {
      LookupPutAll(f, u, k);
      LookupPutAll(g, v, k);
      LookupDrop(f, Keys(u), k);
      LookupDrop(g, Keys(v), k);
      SameLooksAlike(Drop(f, Keys(u)), Drop(g, Keys(v)), k);
      UpdatesLookAlike(u, v, k);
    }
    LooksAlikeSame(PutAll(f, u), PutAll(g, v));
  }

  lemma UpdatesLookAlike(u: seq<Field>, v: seq<Field>, k: Text)
    requires DistinctKeys(u) && DistinctKeys(v) && SameKeys(u, v) && forall i | 0 <= i < |u| :: Same(u[i].value, v[i].value)
    ensures SameOption(Lookup(u, k), Lookup(v, k)) && (Lookup(u, k).Some? <==> k in Keys(u))
  {
    if Lookup(u, k).Some? {
      var i :| 0 <= i < |u| && u[i].key == k;
      LookupAt(u, i);
      LookupAt(v, i);
    }
  }

  lemma OverwrittenParts(f: seq<Field>, u: seq<Field>, g: seq<Field>, v: seq<Field>)
    requires DistinctKeys(f) && DistinctKeys(g) && DistinctKeys(u) && DistinctKeys(v) && SameKeys(u, v)
    requires Same(Obj(PutAll(f, u)), Obj(PutAll(g, v)))
    ensures Same(Obj(Drop(f, Keys(u))), Obj(Drop(g, Keys(v)))) && forall i | 0 <= i < |u| :: Same(u[i].value, v[i].value)
  {
    DropDistinct(f, Keys(u));
    DropDistinct(g, Keys(v));
    SameKeySets(u, v);
    forall k ensures SameOption(Lookup(Drop(f, Keys(u)), k), Lookup(Drop(g, Keys(v)), k)) {
      OverwrittenAt(f, u, g, v, k);
      LookupDrop(f, Keys(u), k);
      LookupDrop(g, Keys(v), k);
    }
    LooksAlikeSame(Drop(f, Keys(u)), Drop(g, Keys(v)));
    forall i | 0 <= i < |u| ensures Same(u[i].value, v[i].value) {
      OverwrittenAt(f, u, g, v, u[i].key);
      LookupAt(u, i);
      LookupAt(v, i);
    }
  }

  lemma OverwrittenAt(f: seq<Field>, u: seq<Field>, g: seq<Field>, v: seq<Field>, k: Text)
    requires DistinctKeys(f) && DistinctKeys(g) && DistinctKeys(u) && DistinctKeys(v) && SameKeys(u, v)
    requires Same(Obj(PutAll(f, u)), Obj(PutAll(g, v)))
    ensures if k in Keys(u) then SameOption(Lookup(u, k), Lookup(v, k)) else SameOption(Lookup(f, k), Lookup(g, k))
  {
    PutAllDistinct(f, u);
    PutAllDistinct(g, v);
    SameKeySets(u, v);
    LookupPutAll(f, u, k);
    LookupPutAll(g, v, k);
    SameLooksAlike(PutAll(f, u), PutAll(g, v), k);
  }

  lemma SameKeySets(u: seq<Field>, v: seq<Field>)
    requires SameKeys(u, v)
    ensures Keys(u) == Keys(v)
  {
    assert forall i | 0 <= i < |u| :: u[i].key in Keys(v) && v[i].key in Keys(u);
  }

  /** Overwriting two objects with the same texts leaves their other members to compare. */
  lemma OverwrittenAlike(f: seq<Field>, g: seq<Field>, u: seq<Field>, paths: set<Text>)
    requires DistinctKeys(f) && DistinctKeys(g) && DistinctKeys(u) && Keys(u) == paths
    requires forall i | 0 <= i < |u| :: u[i].value.Str?
    ensures Same(Obj(PutAll(f, u)), Obj(PutAll(g, u))) <==> Same(Obj(Drop(f, paths)), Obj(Drop(g, paths)))
  {
    OverwrittenSame(f, u, g, u);
    assert forall i | 0 <= i < |u| :: Same(u[i].value, u[i].value);
  }

  lemma FourKeys(u: seq<Field>)
    requires |u| == 4
    requires u[0].key != u[1].key && u[0].key != u[2].key && u[0].key != u[3].key
    requires u[1].key != u[2].key && u[1].key != u[3].key && u[2].key != u[3].key
    ensures DistinctKeys(u) && Keys(u) == {u[0].key, u[1].key, u[2].key, u[3].key}
  {
  }

  lemma TwoKeys(u: seq<Field>)
    requires |u| == 2 && u[0].key != u[1].key
    ensures DistinctKeys(u) && Keys(u) == {u[0].key, u[1].key}
  {
  }

  lemma OneKey(u: seq<Field>)
    requires |u| == 1
    ensures DistinctKeys(u) && Keys(u) == {u[0].key}
  {
  }

  lemma OneOverwritten(f: seq<Field>, a: Value, g: seq<Field>, b: Value, key: Text)
    requires DistinctKeys(f) && DistinctKeys(g)
    ensures Same(Obj(PutAll(f, [Field(key, a)])), Obj(PutAll(g, [Field(key, b)]))) <==>
            Same(Obj(Drop(f, {key})), Obj(Drop(g, {key}))) && Same(a, b)
  {
    hide Same, PutAll, Drop;
    var u, v := [Field(key, a)], [Field(key, b)];
    OneKey(u);
    OneKey(v);
    OverwrittenSame(f, u, g, v);
    assert u[0].value == a && v[0].value == b;
  }

  // ----- overwriting again, and overwriting step by step -----

  lemma {:induction false} PutPresent(fields: seq<Field>, key: Text, value: Value)
    requires Lookup(fields, key) == Some(value)
    ensures Put(fields, key, value) == fields
  {
    if fields[0].key != key {
      PutPresent(fields[1..], key, value);
    }
  }

  lemma {:induction false} PutAllPresent(fields: seq<Field>, updates: seq<Field>)
    requires forall i | 0 <= i < |updates| :: Lookup(fields, updates[i].key) == Some(updates[i].value)
    ensures PutAll(fields, updates) == fields
  {
    if updates != [] {
      PutPresent(fields, updates[0].key, updates[0].value);
      PutAllPresent(fields, updates[1..]);
    }
  }

  lemma PutAllTwice(fields: seq<Field>, updates: seq<Field>)
    requires DistinctKeys(updates)
    ensures PutAll(PutAll(fields, updates), updates) == PutAll(fields, updates)
  {
    forall i | 0 <= i < |updates| ensures Lookup(PutAll(fields, updates), updates[i].key) == Some(updates[i].value) {
      LookupPutAll(fields, updates, updates[i].key);
      LookupAt(updates, i);
    }
    PutAllPresent(PutAll(fields, updates), updates);
  }

  lemma {:induction false} DropAbsent(fields: seq<Field>, keys: set<Text>)
    requires forall i | 0 <= i < |fields| :: fields[i].key !in keys
    ensures Drop(fields, keys) == fields
  {
    if fields != [] {
      DropAbsent(fields[1..], keys);
    }
  }

  lemma PutFour(fields: seq<Field>, u: seq<Field>)
    requires |u| == 4
    ensures PutAll(fields, u) ==
            Put(Put(Put(Put(fields, u[0].key, u[0].value), u[1].key, u[1].value), u[2].key, u[2].value), u[3].key, u[3].value)
  {
    var one := Put(fields, u[0].key, u[0].value);
    var two := Put(one, u[1].key, u[1].value);
    var three := Put(two, u[2].key, u[2].value);
    assert PutAll(fields, u) == PutAll(one, u[1..]);
    assert PutAll(one, u[1..]) == PutAll(two, u[2..]) by { assert u[1..][1..] == u[2..]; }
    assert PutAll(two, u[2..]) == PutAll(three, u[3..]) by { assert u[2..][1..] == u[3..]; }
    assert PutAll(three, u[3..]) == PutAll(Put(three, u[3].key, u[3].value), u[3..][1..]);
  }

  // ----- what the encoder accepts of an overwritten object -----

  ghost predicate AcceptedMember(fields: seq<Field>, k: Text) {
    Lookup(fields, k).Some? ==> WellFormed(k) && Accepted(Lookup(fields, k).value)
  }

  lemma AcceptedLooks(fields: seq<Field>)
    requires DistinctKeys(fields)
    ensures Accepted(Obj(fields)) <==> forall k :: AcceptedMember(fields, k)
  {
    if forall k :: AcceptedMember(fields, k) {
      forall i | 0 <= i < |fields| ensures WellFormed(fields[i].key) && Accepted(fields[i].value) {
        LookupAt(fields, i);
        assert AcceptedMember(fields, fields[i].key);
      }
    }
  }

  lemma OverwrittenAccepted(fields: seq<Field>, u: seq<Field>)
    requires DistinctKeys(fields) && DistinctKeys(u)
    ensures Accepted(Obj(PutAll(fields, u))) <==> Accepted(Obj(Drop(fields, Keys(u)))) && Accepted(Obj(u))
  {
    hide Accepted, WellFormed, DistinctKeys;
    PutAllDistinct(fields, u);
    DropDistinct(fields, Keys(u));
    AcceptedLooks(PutAll(fields, u));
    AcceptedLooks(Drop(fields, Keys(u)));
    AcceptedLooks(u);
    forall k ensures AcceptedMember(PutAll(fields, u), k) <==> AcceptedMember(Drop(fields, Keys(u)), k) && AcceptedMember(u, k) {
      LookupPutAll(fields, u, k);
      LookupDrop(fields, Keys(u), k);
    }
  }

  ghost predicate WfMember(fields: seq<Field>, k: Text) {
    Lookup(fields, k).Some? ==> Wf(Lookup(fields, k).value)
  }

  lemma OverwrittenWf(fields: seq<Field>, u: seq<Field>)
    requires Wf(Obj(fields)) && Wf(Obj(u))
    ensures Wf(Obj(PutAll(fields, u)))
  {
    var r := PutAll(fields, u);
    PutAllDistinct(fields, u);
    forall i | 0 <= i < |r| ensures Wf(r[i].value) {
      LookupAt(r, i);
      LookupPutAll(fields, u, r[i].key);
      assert WfMember(fields, r[i].key) && WfMember(u, r[i].key);
    }
  }

  lemma DroppedWf(fields: seq<Field>, keys: set<Text>)
    requires Wf(Obj(fields))
    ensures Wf(Obj(Drop(fields, keys)))
  {
    var r := Drop(fields, keys);
    DropDistinct(fields, keys);
    forall i | 0 <= i < |r| ensures Wf(r[i].value) {
      LookupAt(r, i);
      LookupDrop(fields, keys, r[i].key);
      assert WfMember(fields, r[i].key);
    }
  }
}
