/** Strings as JavaScript holds them (UTF-16 code units) and as the typed encoding
    writes them (UTF-8 bytes), with lone surrogates refused. */
module Unicode {
  import opened Wrappers

  type Byte = b: int | 0 <= b < 256
  type Unit = u: int | 0 <= u < 0x1_0000
  /** A Unicode scalar value: a code point that is not a surrogate. */
  type Scalar = s: int | 0 <= s < 0x11_0000 && !(0xD800 <= s < 0xE000)

  predicate High(u: Unit) { 0xD800 <= u <= 0xDBFF }
  predicate Low(u: Unit) { 0xDC00 <= u <= 0xDFFF }

  // ----- UTF-16 (section 2 of RFC 2781) -----

  function UnitsOf(s: Scalar): (us: seq<Unit>)
    ensures 1 <= |us| <= 2
  {
    if s < 0x1_0000 then [s]
    else [0xD800 + (s - 0x1_0000) / 0x400, 0xDC00 + (s - 0x1_0000) % 0x400]
  }

  function ToUtf16(text: seq<Scalar>): seq<Unit> {
    if text == [] then [] else UnitsOf(text[0]) + ToUtf16(text[1..])
  }

  /** A string is well formed when it is the UTF-16 form of some text. */
  ghost predicate WellFormed(units: seq<Unit>) {
    exists text :: ToUtf16(text) == units
  }

  function FromUtf16(units: seq<Unit>): Option<seq<Scalar>> {
    if units == [] then Some([])
    else if High(units[0]) then
      if |units| < 2 || !Low(units[1]) then None
      else match FromUtf16(units[2..])
        case None => None
        case Some(rest) => Some([0x1_0000 + (units[0] - 0xD800) * 0x400 + (units[1] - 0xDC00)] + rest)
    else if Low(units[0]) then None
    else match FromUtf16(units[1..])
      case None => None
      case Some(rest) => Some([units[0]] + rest)
  }

  lemma {:induction false} FromToUtf16(text: seq<Scalar>)
    ensures FromUtf16(ToUtf16(text)) == Some(text)
  {
    if text != [] {
      FromToUtf16(text[1..]);
      var head, tail := UnitsOf(text[0]), ToUtf16(text[1..]);
      assert (head + tail)[|head|..] == tail;
      assert text == [text[0]] + text[1..];
    }
  }

  lemma {:induction false} ToFromUtf16(units: seq<Unit>)
    ensures FromUtf16(units).Some? ==> ToUtf16(FromUtf16(units).value) == units
  {
    if units != [] && FromUtf16(units).Some? {
      var text := FromUtf16(units).value;
      var n := if High(units[0]) then 2 else 1;
      ToFromUtf16(units[n..]);
      assert text[1..] == FromUtf16(units[n..]).value;
      assert units == UnitsOf(text[0]) + units[n..];
    }
  }

  lemma WellFormedIff(units: seq<Unit>)
    ensures WellFormed(units) <==> FromUtf16(units).Some?
  {
    ToFromUtf16(units);
    if WellFormed(units) {
      var text :| ToUtf16(text) == units;
      FromToUtf16(text);
    }
  }

  // ----- UTF-8 (section 3 of RFC 3629) -----

  function BytesOf(s: Scalar): (bs: seq<Byte>)
    ensures 1 <= |bs| <= 4
  {
    if s < 0x80 then [s]
    else if s < 0x800 then [0xC0 + s / 0x40, 0x80 + s % 0x40]
    else if s < 0x1_0000 then [0xE0 + s / 0x1000, 0x80 + s / 0x40 % 0x40, 0x80 + s % 0x40]
    else [0xF0 + s / 0x4_0000, 0x80 + s / 0x1000 % 0x40, 0x80 + s / 0x40 % 0x40, 0x80 + s % 0x40]
  }

  function Utf8(text: seq<Scalar>): seq<Byte> {
    if text == [] then [] else BytesOf(text[0]) + Utf8(text[1..])
  }

  function SequenceLength(lead: Byte): nat {
    if lead < 0x80 then 1 else if lead < 0xE0 then 2 else if lead < 0xF0 then 3 else 4
  }

  function CodePoint(bs: seq<Byte>): int
    requires 1 <= |bs| <= 4
  {
    match |bs|
    case 1 => bs[0]
    case 2 => (bs[0] as int - 0xC0) * 0x40 + (bs[1] as int - 0x80)
    case 3 => (bs[0] as int - 0xE0) * 0x1000 + (bs[1] as int - 0x80) * 0x40 + (bs[2] as int - 0x80)
    case _ => (bs[0] as int - 0xF0) * 0x4_0000 + (bs[1] as int - 0x80) * 0x1000 + (bs[2] as int - 0x80) * 0x40 + (bs[3] as int - 0x80)
  }

  function FromUtf8(bytes: seq<Byte>): Option<seq<Scalar>> {
    if bytes == [] then Some([])
    else
      var n := SequenceLength(bytes[0]);
      if |bytes| < n then None
      else
        var s := CodePoint(bytes[..n]);
        if !(0 <= s < 0x11_0000 && !(0xD800 <= s < 0xE000)) then None
        else match FromUtf8(bytes[n..])
          case None => None
          case Some(rest) => Some([s] + rest)
  }

  lemma BytesOfInverse(s: Scalar)
    ensures SequenceLength(BytesOf(s)[0]) == |BytesOf(s)|
    ensures CodePoint(BytesOf(s)) == s
  {
    assert s / 0x40 / 0x40 == s / 0x1000;
    assert s / 0x40 / 0x40 / 0x40 == s / 0x4_0000;
  }

  lemma {:induction false} FromToUtf8(text: seq<Scalar>)
    ensures FromUtf8(Utf8(text)) == Some(text)
  {
    if text != [] {
      FromToUtf8(text[1..]);
      var head, tail := BytesOf(text[0]), Utf8(text[1..]);
      BytesOfInverse(text[0]);
      assert (head + tail)[..|head|] == head && (head + tail)[|head|..] == tail;
      assert text == [text[0]] + text[1..];
    }
  }

  // ----- lexicographic order -----

  /** Buffer.compare(a, b) < 0, and the same comparison for scalar values. */
  predicate Less(a: seq<int>, b: seq<int>) {
    b != [] && (a == [] || a[0] < b[0] || (a[0] == b[0] && Less(a[1..], b[1..])))
  }

  lemma {:induction false} LessTransitive(a: seq<int>, b: seq<int>, c: seq<int>)
    requires Less(a, b) && Less(b, c)
    ensures Less(a, c)
  {
    if a != [] && a[0] == b[0] && b[0] == c[0] {
      LessTransitive(a[1..], b[1..], c[1..]);
    }
  }

  lemma {:induction false} LessTotal(a: seq<int>, b: seq<int>)
    ensures Less(a, b) || a == b || Less(b, a)
    ensures !(Less(a, b) && Less(b, a))
    ensures a == b ==> !Less(a, b)
  {
    if a != [] && b != [] && a[0] == b[0] {
      LessTotal(a[1..], b[1..]);
      assert a == [a[0]] + a[1..] && b == [b[0]] + b[1..];
    }
  }

  lemma {:induction false} LessUnderPrefix(p: seq<int>, a: seq<int>, b: seq<int>)
    ensures Less(p + a, p + b) <==> Less(a, b)
  {
    if p == [] {
      assert p + a == a && p + b == b;
    } else {
      LessUnderPrefix(p[1..], a, b);
      assert (p + a)[1..] == p[1..] + a && (p + b)[1..] == p[1..] + b;
    }
  }

  lemma {:induction false} LessAtDifference(a: seq<int>, b: seq<int>, k: nat)
    requires k < |a| && k < |b| && a[..k] == b[..k] && a[k] < b[k]
    ensures Less(a, b)
  {
    if k > 0 {
      assert a[0] == a[..k][0] == b[..k][0] == b[0];
      assert a[1..][..k - 1] == a[..k][1..] == b[..k][1..] == b[1..][..k - 1];
      LessAtDifference(a[1..], b[1..], k - 1);
    }
  }

  /** The encodings of two different scalars differ at a byte that both have, in scalar order. */
  lemma BytesOfOrdered(s: Scalar, t: Scalar) returns (k: nat)
    requires s < t
    ensures k < |BytesOf(s)| && k < |BytesOf(t)|
    ensures BytesOf(s)[..k] == BytesOf(t)[..k] && BytesOf(s)[k] < BytesOf(t)[k]
  {
    var a, b := BytesOf(s), BytesOf(t);
    assert s / 0x40 / 0x40 == s / 0x1000 && s / 0x40 / 0x40 / 0x40 == s / 0x4_0000;
    assert t / 0x40 / 0x40 == t / 0x1000 && t / 0x40 / 0x40 / 0x40 == t / 0x4_0000;
    if a[0] != b[0] {
      k := 0;
    } else if a[1] != b[1] {
      k := 1;
    } else if |a| == 2 {
      assert false;
    } else if a[2] != b[2] {
      k := 2;
    } else {
      k := 3;
    }
  }

  /** Sorting by UTF-8 bytes is sorting by code point (section 1 of RFC 3629). */
  lemma {:induction false} Utf8Order(x: seq<Scalar>, y: seq<Scalar>)
    ensures Less(Utf8(x), Utf8(y)) <==> Less(x, y)
  {
    if x != [] && y != [] {
      var a, b := BytesOf(x[0]), BytesOf(y[0]);
      if x[0] == y[0] {
        LessUnderPrefix(a, Utf8(x[1..]), Utf8(y[1..]));
        Utf8Order(x[1..], y[1..]);
      } else if x[0] < y[0] {
        var k := BytesOfOrdered(x[0], y[0]);
        assert Utf8(x)[..k] == a[..k] && Utf8(y)[..k] == b[..k];
        LessAtDifference(Utf8(x), Utf8(y), k);
      } else {
        var k := BytesOfOrdered(y[0], x[0]);
        assert Utf8(x)[..k] == a[..k] && Utf8(y)[..k] == b[..k];
        LessAtDifference(Utf8(y), Utf8(x), k);
        LessTotal(Utf8(x), Utf8(y));
      }
    }
  }

  lemma {:induction false} ToUtf16Concat(a: seq<Scalar>, b: seq<Scalar>)
    ensures ToUtf16(a + b) == ToUtf16(a) + ToUtf16(b)
  {
    if a == [] {
      assert a + b == b;
    } else {
      ToUtf16Concat(a[1..], b);
      assert (a + b)[1..] == a[1..] + b;
    }
  }

  lemma WellFormedConcat(a: seq<Unit>, b: seq<Unit>)
    requires WellFormed(a) && WellFormed(b)
    ensures WellFormed(a + b)
  {
    var x :| ToUtf16(x) == a;
    var y :| ToUtf16(y) == b;
    ToUtf16Concat(x, y);
    assert ToUtf16(x + y) == a + b;
  }

  lemma AsciiWellFormed(t: seq<Unit>)
    requires forall i | 0 <= i < |t| :: t[i] < 128
    ensures WellFormed(t)
  {
    var text: seq<Scalar> := seq(|t|, i requires 0 <= i < |t| => t[i]);
    AsciiUnits(t, text);
    assert ToUtf16(text) == t;
  }

  lemma {:induction false} AsciiUnits(t: seq<Unit>, text: seq<Scalar>)
    requires |t| == |text| && forall i | 0 <= i < |t| :: t[i] == text[i] < 128
    ensures ToUtf16(text) == t
  {
    if t != [] {
      AsciiUnits(t[1..], text[1..]);
    }
  }

  // ----- utf8Strict -----

  /** What utf8Strict returns: the UTF-8 bytes of a well-formed string, None where it throws. */
  function Strict(units: seq<Unit>): Option<seq<Byte>> {
    match FromUtf16(units)
    case None => None
    case Some(text) => Some(Utf8(text))
  }

  lemma StrictAccepts(units: seq<Unit>)
    ensures Strict(units).Some? <==> WellFormed(units)
    ensures forall text :: ToUtf16(text) == units ==> Strict(units) == Some(Utf8(text))
  {
    WellFormedIff(units);
    forall text | ToUtf16(text) == units ensures Strict(units) == Some(Utf8(text)) {
      FromToUtf16(text);
    }
  }

  function UnitsFromBytes(bytes: seq<Byte>): Option<seq<Unit>> {
    match FromUtf8(bytes)
    case None => None
    case Some(text) => Some(ToUtf16(text))
  }

  lemma StrictInverse(units: seq<Unit>)
    requires Strict(units).Some?
    ensures UnitsFromBytes(Strict(units).value) == Some(units)
  {
    FromToUtf8(FromUtf16(units).value);
    ToFromUtf16(units);
  }

  lemma StrictInjective(a: seq<Unit>, b: seq<Unit>)
    requires Strict(a).Some? && Strict(a) == Strict(b)
    ensures a == b
  {
    StrictInverse(a);
    StrictInverse(b);
  }

  lemma {:induction false} FromUtf16Suffix(units: seq<Unit>, i: nat, n: nat)
    requires i <= |units|
    requires 1 <= n <= 2 && i + n <= |units|
    requires n == if High(units[i]) then 2 else 1
    requires if High(units[i]) then Low(units[i + 1]) else !Low(units[i])
    ensures FromUtf16(units[i..]).Some? <==> FromUtf16(units[i + n..]).Some?
  {
    assert units[i..][n..] == units[i + n..];
  }

  /** The index loop of utf8Strict: it stops at the first lone surrogate. */
  method Utf8Strict(value: seq<Unit>) returns (r: Option<seq<Byte>>)
    ensures r == Strict(value)
    ensures r.Some? <==> WellFormed(value)
  {
    WellFormedIff(value);
    var index := 0;
    while index < |value|
      invariant 0 <= index <= |value|
      invariant FromUtf16(value).Some? <==> FromUtf16(value[index..]).Some?
    {
      var unit := value[index];
      if 0xD800 <= unit <= 0xDBFF {
        if index + 1 == |value| || !(0xDC00 <= value[index + 1] <= 0xDFFF) {
          return None;
        }
        FromUtf16Suffix(value, index, 2);
        index := index + 1;
      } else if 0xDC00 <= unit <= 0xDFFF {
        return None;
      } else {
        FromUtf16Suffix(value, index, 1);
      }
      index := index + 1;
    }
    r := Strict(value);
  }
}
