/** AssetFare typed-canonical-v1 (src/continuation-v3.js): the byte encoding whose hash
    binds a quote, a decoder for it, and the theorem that says what equal bytes mean. */
module TypedCanonical {
  import opened Numerals
  import opened Unicode
  import opened Wrappers
  import opened Json
  import opened Sorting

  datatype EncodeError = NonFiniteNumber | UnsafeInteger | StringInvalid
  datatype Result<+T> = Ok(value: T) | Err(error: EncodeError)

  type Bytes = seq<Byte>

  /** Buffer.from(text, "ascii"). */
  function Ascii(text: string): (b: Bytes)
    ensures |b| == |text|
  {
    seq(|text|, i requires 0 <= i < |text| => text[i] as int % 256)
  }

  function HexDigit(d: nat): Byte
    requires d < 16
  {
    if d < 10 then 48 + d else 87 + d
  }

  function Hex(n: nat, width: nat): (b: Bytes)
    ensures |b| == width
  {
    if width == 0 then [] else Hex(n / 16, width - 1) + [HexDigit(n % 16)]
  }

  // ----- the encoder -----

  /** An encoded object member under its key bytes. */
  type Entry = Keyed<Result<Bytes>>

  function EncodeText(raw: Bytes): Bytes {
    Ascii("s") + Ascii(Digits(|raw|)) + Ascii(":") + raw
  }

  function Then(first: Result<Bytes>, rest: Result<Bytes>): Result<Bytes> {
    match first
    case Err(e) => Err(e)
    case Ok(a) =>
      match rest
      case Err(e) => Err(e)
      case Ok(b) => Ok(a + b)
  }

  function Header(kind: string, count: nat, open: string): Bytes {
    Ascii(kind) + Ascii(Digits(count)) + Ascii(open)
  }

  function Bracket(header: Bytes, body: Result<Bytes>, close: string): Result<Bytes> {
    match body
    case Err(e) => Err(e)
    case Ok(b) => Ok(header + b + Ascii(close))
  }

  function Encode(v: Value): Result<Bytes>
    decreases v, 1
  {
    match v
    case Null => Ok(Ascii("n"))
    case Bool(b) => Ok(if b then Ascii("t") else Ascii("f"))
    case Num(bits) =>
      if !Finite(bits) then Err(NonFiniteNumber)
      else if IsInteger(bits) && !IsSafeInteger(bits) then Err(UnsafeInteger)
      else Ok(Ascii("d") + Hex(bits, 16))
    case Str(text) =>
      (match Strict(text)
       case None => Err(StringInvalid)
       case Some(raw) => Ok(EncodeText(raw)))
    case Arr(items) => Bracket(Header("a", |items|, ":["), EncodeItems(items), "]")
    case Obj(fields) =>
      (match Entries(fields)
       case None => Err(StringInvalid)
       case Some(entries) => Bracket(Header("o", |entries|, ":{"), Join(Sort(entries)), "}"))
  }

  function EncodeItems(items: seq<Value>): Result<Bytes>
    decreases items, 0
  {
    if items == [] then Ok([]) else Then(Encode(items[0]), EncodeItems(items[1..]))
  }

  /** Every key is checked, in insertion order, before any value is encoded. */
  function Entries(fields: seq<Field>): (r: Option<seq<Entry>>)
    ensures r.Some? ==> |r.value| == |fields|
    decreases fields, 0
  {
    if fields == [] then Some([])
    else
      match Strict(fields[0].key)
      case None => None
      case Some(raw) =>
        match Entries(fields[1..])
        case None => None
        case Some(entries) => Some([Keyed(raw, Then(Ok(EncodeText(raw)), Encode(fields[0].value)))] + entries)
  }

  function Join(entries: seq<Entry>): Result<Bytes> {
    if entries == [] then Ok([]) else Then(entries[0].item, Join(entries[1..]))
  }

  // ----- what is accepted -----

  ghost predicate Accepted(v: Value) {
    match v
    case Num(bits) => Finite(bits) && (IsInteger(bits) ==> IsSafeInteger(bits))
    case Str(text) => WellFormed(text)
    case Arr(items) => forall i | 0 <= i < |items| :: Accepted(items[i])
    case Obj(fields) => forall i | 0 <= i < |fields| :: WellFormed(fields[i].key) && Accepted(fields[i].value)
    case _ => true
  }

  lemma {:induction false} EncodeItemsOk(items: seq<Value>)
    ensures EncodeItems(items).Ok? <==> forall i | 0 <= i < |items| :: Encode(items[i]).Ok?
  {
    if items != [] {
      EncodeItemsOk(items[1..]);
      assert forall i | 0 < i < |items| :: items[i] == items[1..][i - 1];
    }
  }

  lemma {:induction false} EntryAt(fields: seq<Field>, i: nat)
    requires Entries(fields).Some? && i < |fields|
    ensures Strict(fields[i].key).Some?
    ensures var raw := Strict(fields[i].key).value;
            Entries(fields).value[i] == Keyed(raw, Then(Ok(EncodeText(raw)), Encode(fields[i].value)))
  {
    if i > 0 {
      EntryAt(fields[1..], i - 1);
    }
  }

  lemma {:induction false} EntriesSome(fields: seq<Field>)
    ensures Entries(fields).Some? <==> forall i | 0 <= i < |fields| :: Strict(fields[i].key).Some?
  {
    if fields != [] {
      EntriesSome(fields[1..]);
      assert forall i | 0 < i < |fields| :: fields[i] == fields[1..][i - 1];
    }
  }

  lemma {:induction false} JoinOk(entries: seq<Entry>)
    ensures Join(entries).Ok? <==> forall e | e in entries :: e.item.Ok?
  {
    if entries != [] {
      JoinOk(entries[1..]);
      assert forall e :: e in entries <==> e == entries[0] || e in entries[1..];
    }
  }

  lemma EncodeObjectOk(fields: seq<Field>)
    ensures Encode(Obj(fields)).Ok? <==>
            forall i | 0 <= i < |fields| :: Strict(fields[i].key).Some? && Encode(fields[i].value).Ok?
  {
    EntriesSome(fields);
    if Entries(fields).Some? {
      var entries := Entries(fields).value;
      forall i | 0 <= i < |fields| ensures entries[i] in entries && (entries[i].item.Ok? <==> Encode(fields[i].value).Ok?) {
        EntryAt(fields, i);
      }
      JoinOk(Sort(entries));
      SortElements(entries);
      assert Join(Sort(entries)).Ok? <==> forall e | e in entries :: e.item.Ok?;
    }
  }

  /** The encoder accepts exactly the values it is documented to accept. */
  lemma {:induction false} EncodeAccepts(v: Value)
    ensures Encode(v).Ok? <==> Accepted(v)
  {
    match v
    case Str(text) => StrictAccepts(text);
    case Arr(items) =>
      EncodeItemsOk(items);
      forall i | 0 <= i < |items| ensures Encode(items[i]).Ok? <==> Accepted(items[i]) {
        EncodeAccepts(items[i]);
      }
    case Obj(fields) =>
      EncodeObjectOk(fields);
      forall i | 0 <= i < |fields|
        ensures Encode(fields[i].value).Ok? <==> Accepted(fields[i].value)
        ensures Strict(fields[i].key).Some? <==> WellFormed(fields[i].key)
      {
        EncodeAccepts(fields[i].value);
        StrictAccepts(fields[i].key);
      }
    case _ =>
  }

  // ----- the order of object members does not matter -----

  ghost function KeySet(fields: seq<Field>): set<Text> {
    set i | 0 <= i < |fields| :: fields[i].key
  }

  lemma {:induction false} KeySetSize(fields: seq<Field>)
    requires DistinctKeys(fields)
    ensures |KeySet(fields)| == |fields|
  {
    if fields != [] {
      KeySetSize(fields[1..]);
      assert forall i | 0 < i < |fields| :: fields[i] == fields[1..][i - 1];
      assert KeySet(fields) == {fields[0].key} + KeySet(fields[1..]);
    } else {
      assert KeySet(fields) == {};
    }
  }

  lemma SubsetOfEqualSize<T>(a: set<T>, b: set<T>)
    requires a <= b && |a| == |b|
    ensures a == b
  {
    assert |b - a| == |b| - |a|;
    assert b == a + (b - a);
  }

  /** Members of equal objects correspond both ways. */
  lemma SameObjectsMatch(a: seq<Field>, b: seq<Field>, j: nat) returns (i: nat)
    requires DistinctKeys(a) && DistinctKeys(b)
    requires Same(Obj(a), Obj(b)) && j < |b|
    ensures i < |a| && a[i].key == b[j].key && Same(a[i].value, b[j].value)
  {
    KeySetSize(a);
    KeySetSize(b);
    forall k | k in KeySet(a) ensures k in KeySet(b) {
      var n :| 0 <= n < |a| && a[n].key == k;
      assert HasSame(a[n], b);
      var m :| 0 <= m < |b| && a[n].key == b[m].key && Same(a[n].value, b[m].value);
    }
    SubsetOfEqualSize(KeySet(a), KeySet(b));
    assert b[j].key in KeySet(a);
    i :| 0 <= i < |a| && a[i].key == b[j].key;
    assert HasSame(a[i], b);
    var m :| 0 <= m < |b| && a[i].key == b[m].key && Same(a[i].value, b[m].value);
    assert m == j;
  }

  lemma {:induction false} EncodeItemsEqual(a: seq<Value>, b: seq<Value>)
    requires |a| == |b| && forall i | 0 <= i < |a| :: Encode(a[i]) == Encode(b[i])
    ensures EncodeItems(a) == EncodeItems(b)
  {
    if a != [] {
      EncodeItemsEqual(a[1..], b[1..]);
    }
  }

  lemma EntriesDistinct(fields: seq<Field>)
    requires DistinctKeys(fields) && Entries(fields).Some?
    ensures DistinctSortKeys(Entries(fields).value)
  {
    var entries := Entries(fields).value;
    forall i, j | 0 <= i < j < |entries| ensures entries[i].key != entries[j].key {
      EntryAt(fields, i);
      EntryAt(fields, j);
      if entries[i].key == entries[j].key {
        StrictInjective(fields[i].key, fields[j].key);
      }
    }
  }

  ghost predicate EncodedAlike(f: Field, others: seq<Field>) {
    exists j | 0 <= j < |others| :: f.key == others[j].key && Encode(f.value) == Encode(others[j].value)
  }

  /** Entries depend only on which keys go with which encoded values. */
  lemma EntriesCorrespond(a: seq<Field>, b: seq<Field>)
    requires forall i | 0 <= i < |a| :: EncodedAlike(a[i], b)
    ensures Entries(b).Some? ==> Entries(a).Some? && forall x | x in Entries(a).value :: x in Entries(b).value
  {
    EntriesSome(a);
    EntriesSome(b);
    if Entries(b).Some? {
      forall x | x in Entries(a).value ensures x in Entries(b).value {
        var i :| 0 <= i < |a| && Entries(a).value[i] == x;
        assert EncodedAlike(a[i], b);
        var j :| 0 <= j < |b| && a[i].key == b[j].key && Encode(a[i].value) == Encode(b[j].value);
        EntryAt(a, i);
        EntryAt(b, j);
        assert Entries(b).value[j] == x;
      }
    }
  }

  /** Equal values have equal encodings, or fail with the same error, whatever the insertion order. */
  lemma {:induction false} SameEncodesAlike(v: Value, w: Value)
    requires Wf(v) && Wf(w) && Same(v, w)
    ensures Encode(v) == Encode(w)
    decreases v
  {
    match v
    case Arr(items) =>
      forall i | 0 <= i < |items| ensures Encode(items[i]) == Encode(w.items[i]) {
        SameEncodesAlike(items[i], w.items[i]);
      }
      EncodeItemsEqual(items, w.items);
    case Obj(a) =>
      var b := w.fields;
      forall i | 0 <= i < |a|
        ensures EncodedAlike(a[i], b)
      {
        assert HasSame(a[i], b);
        var j :| 0 <= j < |b| && a[i].key == b[j].key && Same(a[i].value, b[j].value);
        SameEncodesAlike(a[i].value, b[j].value);
      }
      forall j | 0 <= j < |b|
        ensures EncodedAlike(b[j], a)
      {
        var i := SameObjectsMatch(a, b, j);
        SameEncodesAlike(a[i].value, b[j].value);
      }
      EntriesCorrespond(a, b);
      EntriesCorrespond(b, a);
      if Entries(a).Some? {
        EntriesDistinct(a);
        EntriesDistinct(b);
        SortDetermined(Entries(a).value, Entries(b).value);
      }
    case _ =>
  }
}
