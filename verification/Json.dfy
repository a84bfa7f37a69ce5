/** JSON values as a JavaScript program holds them after structuredClone or JSON.parse:
    numbers as IEEE-754 binary64 patterns, strings as UTF-16 code units, and object
    members in insertion order. */
module Json {
  import opened Unicode

  type Text = seq<Unit>
  /** The 64 bits of a binary64 value. */
  type Bits = b: int | 0 <= b < 0x1_0000_0000_0000_0000

  datatype Field = Field(key: Text, value: Value)

  datatype Value =
    | Null
    | Bool(b: bool)
    | Num(bits: Bits)
    | Str(text: Text)
    | Arr(items: seq<Value>)
    | Obj(fields: seq<Field>)

  /** JavaScript objects have one value for each key. */
  ghost predicate DistinctKeys(fields: seq<Field>) {
    forall i, j | 0 <= i < j < |fields| :: fields[i].key != fields[j].key
  }

  ghost predicate Wf(v: Value) {
    match v
    case Arr(items) => forall i | 0 <= i < |items| :: Wf(items[i])
    case Obj(fields) => DistinctKeys(fields) && forall i | 0 <= i < |fields| :: Wf(fields[i].value)
    case _ => true
  }

  /** Equality of JSON values up to the order of object members; types and number bits
      (hence the sign of zero) are kept apart. */
  ghost predicate Same(v: Value, w: Value) {
    match v
    case Arr(items) =>
      && w.Arr? && |items| == |w.items|
      && forall i | 0 <= i < |items| :: Same(items[i], w.items[i])
    case Obj(fields) =>
      && w.Obj? && |fields| == |w.fields|
      && forall i | 0 <= i < |fields| :: HasSame(fields[i], w.fields)
    case _ => v == w
  }

  ghost predicate HasSame(f: Field, others: seq<Field>)
    decreases f, 0
  {
    exists j | 0 <= j < |others| :: f.key == others[j].key && Same(f.value, others[j].value)
  }

  // ----- binary64 -----

  function Exponent(b: Bits): (e: nat)
    ensures e < 2048
  {
    b / 0x10_0000_0000_0000 % 0x800
  }

  function Fraction(b: Bits): (m: nat)
    ensures m < 0x10_0000_0000_0000
  {
    b % 0x10_0000_0000_0000
  }

  predicate Finite(b: Bits) {
    Exponent(b) != 2047
  }

  function Pow2(k: nat): (p: nat)
    ensures p > 0
  {
    if k == 0 then 1 else 2 * Pow2(k - 1)
  }

  /** The magnitude of a finite number is Significand(b) * 2 ^ Scale(b). */
  function Significand(b: Bits): nat {
    if Exponent(b) == 0 then Fraction(b) else 0x10_0000_0000_0000 + Fraction(b)
  }

  function Scale(b: Bits): int {
    if Exponent(b) == 0 then -1074 else Exponent(b) as int - 1075
  }

  /** Number.isInteger on a finite number. */
  predicate IsInteger(b: Bits) {
    Scale(b) >= 0 || Significand(b) % Pow2(-Scale(b)) == 0
  }

  /** The magnitude of an integral number. */
  function Magnitude(b: Bits): nat
    requires IsInteger(b)
  {
    if Scale(b) >= 0 then Significand(b) * Pow2(Scale(b)) else Significand(b) / Pow2(-Scale(b))
  }

  /** Number.isSafeInteger on a finite number. */
  predicate IsSafeInteger(b: Bits) {
    IsInteger(b) && Magnitude(b) <= 0x1F_FFFF_FFFF_FFFF
  }

  lemma {:induction false} MulAtLeast(a: nat, b: nat)
    requires b >= 1
    ensures a * b >= a
  {
    assert a * b == a * (b - 1) + a;
  }

  /** The unsafe integers are exactly the finite numbers whose exponent field reaches 2^53. */
  lemma UnsafeIntegers(b: Bits)
    requires Finite(b)
    ensures IsInteger(b) && !IsSafeInteger(b) <==> Exponent(b) >= 1076
  {
    if Exponent(b) >= 1076 {
      var k := Scale(b) - 1;
      MulAtLeast(Significand(b) * 2, Pow2(k));
      assert Magnitude(b) == Significand(b) * 2 * Pow2(k);
    } else if Exponent(b) == 1075 {
      assert Magnitude(b) == Significand(b) * Pow2(0);
    } else if IsInteger(b) {
      QuotientAtMost(Significand(b), Pow2(-Scale(b)));
    }
  }

  lemma QuotientAtMost(a: nat, b: nat)
    requires b >= 1
    ensures a / b <= a
  {
    MulAtLeast(a / b, b);
  }
}
