/** A decoder for AssetFare typed-canonical-v1 and what it shows: the encoding is
    self-delimiting, and equal bytes mean equal JSON values up to member order. */
module TypedDecoding {
  import opened Numerals
  import opened Unicode
  import opened Wrappers
  import opened Json
  import opened Sorting
  import opened Ordering
  import opened TypedCanonical

  datatype Parsed<+T> = Fail | Got(value: T, rest: Bytes)

  // ----- the decoder -----

  predicate DigitByte(b: Byte) { 48 <= b < 58 }

  /** The leading decimal numeral, as text, and what follows it. */
  function ParseDigits(b: Bytes): (r: (string, Bytes))
    ensures AllDigits(r.0) && |r.1| <= |b|
  {
    if b == [] || !DigitByte(b[0]) then ("", b)
    else
      var (text, rest) := ParseDigits(b[1..]);
      ([DigitChar(b[0] - 48)] + text, rest)
  }

  function Expect(b: Bytes, literal: Bytes): Parsed<()> {
    if literal <= b then Got((), b[|literal|..]) else Fail
  }

  /** A count followed by the given literal. */
  function ParseCount(b: Bytes, literal: Bytes): (r: Parsed<nat>)
    ensures r.Got? ==> |r.rest| <= |b|
  {
    var (text, rest) := ParseDigits(b);
    match Expect(rest, literal)
    case Fail => Fail
    case Got(_, after) => Got(NatOf(text), after)
  }

  function HexValue(b: Byte): nat {
    if DigitByte(b) then b - 48 else if 97 <= b < 103 then b - 87 else 0
  }

  function HexNat(b: Bytes): nat {
    if b == [] then 0 else HexNat(b[..|b| - 1]) * 16 + HexValue(b[|b| - 1])
  }

  function DecodeText(b: Bytes): (r: Parsed<Text>)
    ensures r.Got? ==> |r.rest| <= |b|
  {
    match ParseCount(b, Ascii(":"))
    case Fail => Fail
    case Got(n, after) =>
      if |after| < n then Fail
      else match UnitsFromBytes(after[..n])
        case None => Fail
        case Some(text) => Got(text, after[n..])
  }

  function Decode(b: Bytes): (r: Parsed<Value>)
    ensures r.Got? ==> |r.rest| < |b|
    decreases |b|, 0
  {
    if b == [] then Fail
    else
      var tail := b[1..];
      match b[0]
      case 110 => Got(Null, tail)
      case 116 => Got(Bool(true), tail)
      case 102 => Got(Bool(false), tail)
      case 100 =>
        if |tail| < 16 then Fail
        else
          var bits := HexNat(tail[..16]);
          if bits < 0x1_0000_0000_0000_0000 then Got(Num(bits), tail[16..]) else Fail
      case 115 =>
        (match DecodeText(tail)
         case Fail => Fail
         case Got(text, rest) => Got(Str(text), rest))
      case 97 =>
        (match ParseCount(tail, Ascii(":["))
         case Fail => Fail
         case Got(n, after) =>
           match DecodeItems(n, after)
           case Fail => Fail
           case Got(items, rest) =>
             match Expect(rest, Ascii("]"))
             case Fail => Fail
             case Got(_, end) => Got(Arr(items), end))
      case 111 =>
        (match ParseCount(tail, Ascii(":{"))
         case Fail => Fail
         case Got(n, after) =>
           match DecodeFields(n, after)
           case Fail => Fail
           case Got(fields, rest) =>
             match Expect(rest, Ascii("}"))
             case Fail => Fail
             case Got(_, end) => Got(Obj(fields), end))
      case _ => Fail
  }

  function DecodeItems(n: nat, b: Bytes): (r: Parsed<seq<Value>>)
    ensures r.Got? ==> |r.rest| <= |b|
    decreases |b|, 1, n
  {
    if n == 0 then Got([], b)
    else match Decode(b)
      case Fail => Fail
      case Got(v, after) =>
        match DecodeItems(n - 1, after)
        case Fail => Fail
        case Got(items, rest) => Got([v] + items, rest)
  }

  /** One member: a string (the key), then a value. */
  function DecodeField(b: Bytes): (r: Parsed<Field>)
    ensures r.Got? ==> |r.rest| < |b|
    decreases |b|, 1, 0
  {
    if b == [] || b[0] != 115 then Fail
    else match DecodeText(b[1..])
      case Fail => Fail
      case Got(key, after) =>
        match Decode(after)
        case Fail => Fail
        case Got(v, rest) => Got(Field(key, v), rest)
  }

  function DecodeFields(n: nat, b: Bytes): (r: Parsed<seq<Field>>)
    ensures r.Got? ==> |r.rest| <= |b|
    decreases |b|, 2, n
  {
    if n == 0 then Got([], b)
    else match DecodeField(b)
      case Fail => Fail
      case Got(f, after) =>
        match DecodeFields(n - 1, after)
        case Fail => Fail
        case Got(fields, rest) => Got([f] + fields, rest)
  }

  // ----- pieces -----

  lemma {:induction false} ParseDigitsBack(text: string, rest: Bytes)
    requires AllDigits(text) && (rest == [] || !DigitByte(rest[0]))
    ensures ParseDigits(Ascii(text) + rest) == (text, rest)
  {
    if text == [] {
      assert Ascii(text) + rest == rest;
    } else {
      var b := Ascii(text) + rest;
      ParseDigitsBack(text[1..], rest);
      assert b[1..] == Ascii(text[1..]) + rest;
      assert [text[0]] + text[1..] == text;
    }
  }

  lemma ParseCountBack(n: nat, literal: Bytes, rest: Bytes)
    requires literal != [] && !DigitByte(literal[0])
    ensures ParseCount(Ascii(Digits(n)) + literal + rest, literal) == Got(n, rest)
  {
    assert Ascii(Digits(n)) + literal + rest == Ascii(Digits(n)) + (literal + rest);
    ParseDigitsBack(Digits(n), literal + rest);
    NatOfDigits(n);
    assert (literal + rest)[|literal|..] == rest;
  }

  lemma {:induction false} HexBack(n: nat, width: nat)
    requires n < Pow16(width)
    ensures HexNat(Hex(n, width)) == n
  {
    if width > 0 {
      HexBack(n / 16, width - 1);
      assert Hex(n, width)[..width - 1] == Hex(n / 16, width - 1);
    }
  }

  function Pow16(k: nat): nat {
    if k == 0 then 1 else 16 * Pow16(k - 1)
  }

  lemma Pow16Sixteen()
    ensures Pow16(16) == 0x1_0000_0000_0000_0000
  {
    assert Pow16(8) == 0x1_0000_0000;
    assert Pow16(12) == 0x1_0000_0000_0000;
  }

  lemma DecodeTextBack(text: Text, rest: Bytes)
    requires Strict(text).Some?
    ensures var b := EncodeText(Strict(text).value) + rest;
            b != [] && b[0] == 115 && DecodeText(b[1..]) == Got(text, rest)
  {
    var raw := Strict(text).value;
    var b := EncodeText(raw) + rest;
    assert b[1..] == Ascii(Digits(|raw|)) + Ascii(":") + (raw + rest);
    ParseCountBack(|raw|, Ascii(":"), raw + rest);
    assert (raw + rest)[..|raw|] == raw && (raw + rest)[|raw|..] == rest;
    StrictInverse(text);
  }

  lemma NumBack(bits: Bits, rest: Bytes)
    ensures Decode(Ascii("d") + Hex(bits, 16) + rest) == Got(Num(bits), rest)
  {
    var b := Ascii("d") + Hex(bits, 16) + rest;
    assert b[1..] == Hex(bits, 16) + rest;
    assert b[1..][..16] == Hex(bits, 16) && b[1..][16..] == rest;
    Pow16Sixteen();
    HexBack(bits, 16);
  }

  // ----- decoding undoes encoding -----

  /** An encoded member under the same sort key, from which the decoder reads f. */
  ghost predicate Reads(e: Entry, f: Keyed<Field>) {
    && e.key == f.key && e.item.Ok?
    && forall rest: Bytes :: DecodeField(e.item.value + rest) == Got(f.item, rest)
  }

  ghost predicate ReadsAll(es: seq<Entry>, fs: seq<Keyed<Field>>) {
    |es| == |fs| && forall i | 0 <= i < |es| :: Reads(es[i], fs[i])
  }

  lemma {:induction false} InsertReads(e: Entry, f: Keyed<Field>, es: seq<Entry>, fs: seq<Keyed<Field>>)
    requires Reads(e, f) && ReadsAll(es, fs)
    ensures ReadsAll(Insert(e, es), Insert(f, fs))
  {
    if es != [] {
      assert Reads(es[0], fs[0]);
      InsertReads(e, f, es[1..], fs[1..]);
    }
  }

  lemma {:induction false} SortReads(es: seq<Entry>, fs: seq<Keyed<Field>>)
    requires ReadsAll(es, fs)
    ensures ReadsAll(Sort(es), Sort(fs))
  {
    if es != [] {
      assert Reads(es[0], fs[0]);
      SortReads(es[1..], fs[1..]);
      InsertReads(es[0], fs[0], Sort(es[1..]), Sort(fs[1..]));
    }
  }

  lemma DecodeFieldsStep(n: nat, b: Bytes, f: Field, after: Bytes, fields: seq<Field>, rest: Bytes)
    requires n > 0 && DecodeField(b) == Got(f, after) && DecodeFields(n - 1, after) == Got(fields, rest)
    ensures DecodeFields(n, b) == Got([f] + fields, rest)
  {
  }

  lemma {:induction false} DecodeJoined(es: seq<Entry>, fs: seq<Keyed<Field>>, rest: Bytes)
    requires ReadsAll(es, fs)
    ensures Join(es).Ok? && DecodeFields(|es|, Join(es).value + rest) == Got(Unkeyed(fs), rest)
  {
    hide DecodeField, Decode, DecodeText;
    if es == [] {
      assert Join(es).value + rest == rest;
    } else {
      assert Reads(es[0], fs[0]);
      DecodeJoined(es[1..], fs[1..], rest);
      var head, tail := es[0].item.value, Join(es[1..]).value;
      assert Join(es).value + rest == head + (tail + rest);
      DecodeFieldsStep(|es|, head + (tail + rest), fs[0].item, tail + rest, Unkeyed(fs[1..]), rest);
    }
  }

  lemma ArrayBack(n: nat, body: Bytes, items: seq<Value>, rest: Bytes)
    requires DecodeItems(n, body + (Ascii("]") + rest)) == Got(items, Ascii("]") + rest)
    ensures Decode(Header("a", n, ":[") + body + Ascii("]") + rest) == Got(Arr(items), rest)
  {
    var b := Header("a", n, ":[") + body + Ascii("]") + rest;
    assert b[1..] == Ascii(Digits(n)) + Ascii(":[") + (body + (Ascii("]") + rest));
    ParseCountBack(n, Ascii(":["), body + (Ascii("]") + rest));
    assert (Ascii("]") + rest)[1..] == rest;
    assert b[0] == 97;
  }

  lemma ObjectBack(n: nat, body: Bytes, fields: seq<Field>, rest: Bytes)
    requires DecodeFields(n, body + (Ascii("}") + rest)) == Got(fields, Ascii("}") + rest)
    ensures Decode(Header("o", n, ":{") + body + Ascii("}") + rest) == Got(Obj(fields), rest)
  {
    var b := Header("o", n, ":{") + body + Ascii("}") + rest;
    assert b[1..] == Ascii(Digits(n)) + Ascii(":{") + (body + (Ascii("}") + rest));
    ParseCountBack(n, Ascii(":{"), body + (Ascii("}") + rest));
    assert (Ascii("}") + rest)[1..] == rest;
    assert b[0] == 111;
  }

  lemma DecodeObject(fields: seq<Field>, rest: Bytes)
    requires Encode(Obj(fields)).Ok? && Entries(fields).Some? && ReadsAll(Entries(fields).value, OrderedFields(ByBytes, fields))
    ensures Decode(Encode(Obj(fields)).value + rest) == Got(Ordered(ByBytes, Obj(fields)), rest)
  {
    var entries := Entries(fields).value;
    SortReads(entries, OrderedFields(ByBytes, fields));
    DecodeJoined(Sort(entries), Sort(OrderedFields(ByBytes, fields)), Ascii("}") + rest);
    ObjectBack(|entries|, Join(Sort(entries)).value, Unkeyed(Sort(OrderedFields(ByBytes, fields))), rest);
  }

  lemma DecodeWord(v: Value, rest: Bytes)
    requires v.Null? || v.Bool?
    ensures Decode(Encode(v).value + rest) == Got(Ordered(ByBytes, v), rest)
  {
    assert (Encode(v).value + rest)[1..] == rest;
  }

  lemma AllEncoded(fields: seq<Field>)
    requires Encode(Obj(fields)).Ok?
    ensures Entries(fields).Some? && forall e | e in Entries(fields).value :: e.item.Ok?
  {
    var entries := Entries(fields).value;
    JoinOk(Sort(entries));
    SortElements(entries);
  }

  lemma {:induction false} DecodeEncode(v: Value, rest: Bytes)
    requires Encode(v).Ok?
    ensures Decode(Encode(v).value + rest) == Got(Ordered(ByBytes, v), rest)
    decreases v, 1
  {
    match v
    case Num(bits) => NumBack(bits, rest);
    case Str(text) => DecodeTextBack(text, rest);
    case Arr(items) =>
      DecodeEncodeItems(items, Ascii("]") + rest);
      ArrayBack(|items|, EncodeItems(items).value, OrderedItems(ByBytes, items), rest);
    case Obj(fields) =>
      AllEncoded(fields);
      FieldsRead(fields);
      DecodeObject(fields, rest);
    case _ => DecodeWord(v, rest);
  }

  lemma {:induction false} DecodeEncodeItems(items: seq<Value>, rest: Bytes)
    requires EncodeItems(items).Ok?
    ensures DecodeItems(|items|, EncodeItems(items).value + rest) == Got(OrderedItems(ByBytes, items), rest)
    decreases items, 0
  {
    if items == [] {
      assert EncodeItems(items).value + rest == rest;
    } else {
      var head, tail := Encode(items[0]).value, EncodeItems(items[1..]).value;
      assert EncodeItems(items).value + rest == head + (tail + rest);
      DecodeEncode(items[0], tail + rest);
      DecodeEncodeItems(items[1..], rest);
    }
  }

  lemma {:induction false} FieldsRead(fields: seq<Field>)
    requires Entries(fields).Some? && forall e | e in Entries(fields).value :: e.item.Ok?
    ensures ReadsAll(Entries(fields).value, OrderedFields(ByBytes, fields))
    decreases fields, 0
  {
    if fields != [] {
      var entries := Entries(fields).value;
      assert entries[1..] == Entries(fields[1..]).value && entries[0] in entries;
      FieldsRead(fields[1..]);
      FieldReads(fields[0], entries[0]);
    }
  }

  lemma {:induction false} FieldReads(f: Field, e: Entry)
    requires Strict(f.key).Some? && e.key == Strict(f.key).value
    requires e.item == Then(Ok(EncodeText(Strict(f.key).value)), Encode(f.value)) && e.item.Ok?
    ensures Reads(e, Keyed(KeyBytes(f.key), Field(f.key, Ordered(ByBytes, f.value))))
    decreases f, 2
  {
    forall rest: Bytes
      ensures DecodeField(e.item.value + rest) == Got(Field(f.key, Ordered(ByBytes, f.value)), rest)
    {
      var body := Encode(f.value).value;
      assert e.item.value + rest == EncodeText(Strict(f.key).value) + (body + rest);
      DecodeTextBack(f.key, body + rest);
      DecodeEncode(f.value, rest);
    }
  }

  // ----- what equal bytes mean -----

  /** Every accepted value is recovered from its bytes, whatever follows them. */
  lemma Recovered(v: Value, rest: Bytes)
    requires Accepted(v)
    ensures Encode(v).Ok?
    ensures Decode(Encode(v).value + rest) == Got(Ordered(ByBytes, v), rest) && Same(v, Ordered(ByBytes, v))
  {
    EncodeAccepts(v);
    DecodeEncode(v, rest);
    SameAsOrdered(ByBytes, v);
  }

  /** Unique decodability: two byte strings that start with encodings and agree, agree on the
      value and on the remainder. So no encoding is a proper prefix of another one. */
  lemma SelfDelimiting(v: Value, w: Value, restV: Bytes, restW: Bytes)
    requires Encode(v).Ok? && Encode(w).Ok?
    requires Encode(v).value + restV == Encode(w).value + restW
    ensures Same(v, w) && restV == restW
  {
    DecodeEncode(v, restV);
    DecodeEncode(w, restW);
    OrderedEqualIsSame(ByBytes, v, w);
  }

  /** Two values encode alike exactly when they are equal JSON values up to member order. */
  lemma EncodingMeaning(v: Value, w: Value)
    requires Wf(v) && Wf(w) && Accepted(v)
    ensures Encode(v) == Encode(w) <==> Same(v, w)
  {
    EncodeAccepts(v);
    if Encode(v) == Encode(w) {
      SelfDelimiting(v, w, [], []);
    }
    if Same(v, w) {
      SameEncodesAlike(v, w);
    }
  }
}
