/** decimalString (src/continuation-v3.js): decimal and exponent notation brought to one plain form. */
module DecimalString {
  import opened Wrappers
  import opened Numerals

  // ----- the accepted notation -----

  datatype Exponent = Exponent(marker: char, sign: string, digits: string)

  /** The parts of -?(0|[1-9][0-9]*)(\.[0-9]+)?([eE][+-]?[0-9]+)?; an absent fraction is empty. */
  datatype Literal = Literal(negative: bool, whole: string, fraction: string, exponent: Option<Exponent>)

  predicate WholeOk(whole: string) {
    whole != [] && AllDigits(whole) && (|whole| > 1 ==> whole[0] != '0')
  }

  predicate ExponentOk(e: Exponent) {
    && (e.marker == 'e' || e.marker == 'E')
    && (e.sign == "" || e.sign == "+" || e.sign == "-")
    && e.digits != [] && AllDigits(e.digits)
  }

  predicate Wf(l: Literal) {
    && WholeOk(l.whole) && AllDigits(l.fraction)
    && (l.exponent.Some? ==> ExponentOk(l.exponent.value))
  }

  function FractionText(fraction: string): string {
    if fraction == [] then "" else "." + fraction
  }

  function ExponentText(e: Option<Exponent>): string {
    match e
    case None => ""
    case Some(x) => [x.marker] + x.sign + x.digits
  }

  function Text(l: Literal): string {
    (if l.negative then "-" else "") + (l.whole + (FractionText(l.fraction) + ExponentText(l.exponent)))
  }

  /** The length of the leading run of digits. */
  function DigitRun(s: string): (n: nat)
    ensures n <= |s| && AllDigits(s[..n]) && (n < |s| ==> !IsDigit(s[n]))
  {
    if s == [] || !IsDigit(s[0]) then 0 else
      var n := 1 + DigitRun(s[1..]);
      assert forall i | 0 < i < n :: s[i] == s[1..][i - 1];
      n
  }

  function ParseExponent(s: string): (r: Option<Option<Exponent>>)
    ensures r.Some? && r.value.Some? ==> ExponentOk(r.value.value)
  {
    if s == [] then Some(None)
    else if s[0] != 'e' && s[0] != 'E' then None
    else
      var sign := if |s| > 1 && (s[1] == '+' || s[1] == '-') then [s[1]] else "";
      var digits := s[1 + |sign|..];
      if digits == [] || !AllDigits(digits) then None else Some(Some(Exponent(s[0], sign, digits)))
  }

  /** The digits after a point, and what follows; no digits without a point. */
  function ParseFraction(after: string): (r: Option<(string, string)>)
    ensures r.Some? ==> AllDigits(r.value.0) && FractionText(r.value.0) + r.value.1 == after
  {
    if after == [] || after[0] != '.' then Some(("", after))
    else
      var m := DigitRun(after[1..]);
      if m == 0 then None else Some((after[1..][..m], after[1..][m..]))
  }

  function ParseUnsigned(negative: bool, s: string): (r: Option<Literal>)
    ensures r.Some? ==> Wf(r.value) && r.value.negative == negative
  {
    var n := DigitRun(s);
    if !WholeOk(s[..n]) then None
    else
      match ParseFraction(s[n..])
      case None => None
      case Some((fraction, rest)) =>
        match ParseExponent(rest)
        case None => None
        case Some(e) => Some(Literal(negative, s[..n], fraction, e))
  }

  function Parse(source: string): Option<Literal> {
    if source != [] && source[0] == '-' then ParseUnsigned(true, source[1..]) else ParseUnsigned(false, source)
  }

  lemma {:induction false} DigitRunOf(digits: string, rest: string)
    requires AllDigits(digits) && (rest == [] || !IsDigit(rest[0]))
    ensures DigitRun(digits + rest) == |digits|
  {
    if digits == [] {
      assert digits + rest == rest;
    } else {
      DigitRunOf(digits[1..], rest);
      assert (digits + rest)[1..] == digits[1..] + rest;
    }
  }

  lemma ParseExponentBack(e: Option<Exponent>)
    requires e.Some? ==> ExponentOk(e.value)
    ensures ParseExponent(ExponentText(e)) == Some(e)
    ensures ExponentText(e) == [] || (!IsDigit(ExponentText(e)[0]) && ExponentText(e)[0] != '.')
  {
    if e.Some? {
      var s, x := ExponentText(e), e.value;
      assert s[1 + |x.sign|..] == x.digits;
      if x.sign == [] {
        assert s[1] == x.digits[0];
      }
    }
  }

  lemma ParseFractionBack(fraction: string, tail: string)
    requires AllDigits(fraction) && (tail == [] || (!IsDigit(tail[0]) && tail[0] != '.'))
    ensures ParseFraction(FractionText(fraction) + tail) == Some((fraction, tail))
  {
    var after := FractionText(fraction) + tail;
    if fraction == [] {
      assert after == tail;
    } else {
      assert after[1..] == fraction + tail;
      DigitRunOf(fraction, tail);
      assert after[1..][..|fraction|] == fraction && after[1..][|fraction|..] == tail;
    }
  }

  lemma ParseUnsignedBack(l: Literal)
    requires Wf(l)
    ensures ParseUnsigned(l.negative, l.whole + (FractionText(l.fraction) + ExponentText(l.exponent))) == Some(l)
  {
    var tail := ExponentText(l.exponent);
    var after := FractionText(l.fraction) + tail;
    var s := l.whole + after;
    ParseExponentBack(l.exponent);
    ParseFractionBack(l.fraction, tail);
    DigitRunOf(l.whole, after);
    assert s[..|l.whole|] == l.whole && s[|l.whole|..] == after;
  }

  /** A literal is read back from its text. */
  lemma ParseText(l: Literal)
    requires Wf(l)
    ensures Parse(Text(l)) == Some(l)
  {
    var body := l.whole + (FractionText(l.fraction) + ExponentText(l.exponent));
    ParseUnsignedBack(l);
    assert IsDigit(l.whole[0]) && body[0] == l.whole[0];
    ParseSigned(l.negative, body);
  }

  lemma ParseSigned(negative: bool, body: string)
    requires body != [] && IsDigit(body[0])
    ensures Parse((if negative then "-" else "") + body) == ParseUnsigned(negative, body)
  {
    hide ParseUnsigned;
    if negative {
      assert ("-" + body)[1..] == body;
    } else {
      assert "" + body == body;
    }
  }

  lemma ParseExponentText(s: string)
    ensures var e := ParseExponent(s);
            e.Some? ==> ExponentText(e.value) == s
  {
    var e := ParseExponent(s);
    if e.Some? && e.value.Some? {
      var x := e.value.value;
      assert s == [s[0]] + x.sign + s[1 + |x.sign|..];
    }
  }

  lemma JoinParts(s: string, n: nat, m: nat)
    requires n <= |s| && (m > 0 ==> n + 1 + m <= |s| && s[n] == '.')
    ensures m == 0 ==> s == s[..n] + (FractionText([]) + s[n..])
    ensures m > 0 ==> s == s[..n] + (FractionText(s[n..][1..][..m]) + s[n..][1 + m..])
  {
    if m > 0 {
      assert s[n..] == "." + s[n..][1..][..m] + s[n..][1 + m..];
    } else {
      assert FractionText([]) + s[n..] == s[n..];
    }
  }

  lemma ParseUnsignedText(negative: bool, s: string)
    ensures var l := ParseUnsigned(negative, s);
            l.Some? ==> s == l.value.whole + (FractionText(l.value.fraction) + ExponentText(l.value.exponent))
  {
    if ParseUnsigned(negative, s).Some? {
      var n, m := DigitRun(s), |ParseUnsigned(negative, s).value.fraction|;
      var after := s[n..];
      ParseExponentText(if m == 0 then after else after[1 + m..]);
      JoinParts(s, n, m);
    }
  }

  /** What is read is the text of a literal. */
  lemma TextParse(source: string)
    ensures Parse(source).Some? ==> Wf(Parse(source).value) && Text(Parse(source).value) == source
  {
    if source != [] && source[0] == '-' {
      ParseUnsignedText(true, source[1..]);
      assert source == "-" + source[1..];
    } else {
      ParseUnsignedText(false, source);
      assert forall t: string :: "" + t == t;
    }
  }

  ghost predicate Accepted(source: string) {
    exists l :: Wf(l) && Text(l) == source
  }

  lemma AcceptedIff(source: string)
    ensures Accepted(source) <==> Parse(source).Some?
  {
    TextParse(source);
    if Accepted(source) {
      var l :| Wf(l) && Text(l) == source;
      ParseText(l);
    }
  }

  // ----- the number that a literal denotes: numerator / 10 ^ places -----

  datatype Rational = Rational(numerator: int, places: nat)

  function ExponentValue(e: Option<Exponent>): int
    requires e.Some? ==> ExponentOk(e.value)
  {
    match e
    case None => 0
    case Some(x) => if x.sign == "-" then -(NatOf(x.digits) as int) else NatOf(x.digits)
  }

  /** digits * 10 ^ -scale. */
  function Scaled(negative: bool, digits: string, scale: int): Rational
    requires AllDigits(digits)
  {
    var n := if scale < 0 then NatOf(digits) * Pow10(-scale) else NatOf(digits);
    Rational(if negative then -(n as int) else n, if scale < 0 then 0 else scale)
  }

  function Coefficient(l: Literal): (digits: string)
    requires Wf(l)
    ensures AllDigits(digits) && digits != []
  {
    l.whole + l.fraction
  }

  function ScaleOf(l: Literal): int
    requires Wf(l)
  {
    |l.fraction| - ExponentValue(l.exponent)
  }

  function Value(l: Literal): Rational
    requires Wf(l)
  {
    Scaled(l.negative, Coefficient(l), ScaleOf(l))
  }

  predicate SameNumber(a: Rational, b: Rational) {
    a.numerator * Pow10(b.places) == b.numerator * Pow10(a.places)
  }

  lemma Cancel(x: int, y: int, p: nat)
    requires p > 0 && x * p == y * p
    ensures x == y
  {
    assert (x - y) * p == 0;
  }

  lemma SameNumberTransitive(a: Rational, b: Rational, c: Rational)
    requires SameNumber(a, b) && SameNumber(b, c)
    ensures SameNumber(a, c)
  {
    var p, q, r := Pow10(a.places), Pow10(b.places), Pow10(c.places);
    calc {
      a.numerator * r * q;
      a.numerator * q * r;
      b.numerator * p * r;
      b.numerator * r * p;
      c.numerator * q * p;
      c.numerator * p * q;
    }
    Cancel(a.numerator * r, c.numerator * p, q);
  }

  // ----- the normal form -----

  function Zeros(n: nat): (z: string)
    ensures |z| == n && AllDigits(z)
  {
    seq(n, _ => '0')
  }

  /** rendered.replace(/^0+(?=\d)/, ""). */
  function StripLeading(s: string): string {
    if |s| > 1 && s[0] == '0' && IsDigit(s[1]) then StripLeading(s[1..]) else s
  }

  /** rendered.replace(/0+$/, ""). */
  function StripTrailing(s: string): (r: string)
    ensures r <= s && (r != [] ==> r[|r| - 1] != '0')
  {
    if s != [] && s[|s| - 1] == '0' then StripTrailing(s[..|s| - 1]) else s
  }

  /** No exponent, no redundant zeros, no negative zero. */
  predicate NormalForm(l: Literal) {
    && Wf(l) && l.exponent.None?
    && (l.fraction != [] ==> l.fraction[|l.fraction| - 1] != '0')
    && (l.negative ==> !(l.whole == "0" && l.fraction == []))
  }

  function Places(scale: int): nat {
    if scale < 0 then 0 else scale
  }

  /** Digits with zeros added so that the point, `Places(scale)` from the right, has a digit on its left. */
  function Padded(digits: string, scale: int): (p: string)
    requires AllDigits(digits) && digits != []
    ensures AllDigits(p) && |p| > Places(scale)
  {
    var shifted := if scale < 0 then digits + Zeros(-scale) else digits;
    if |shifted| <= Places(scale) then Zeros(Places(scale) + 1 - |shifted|) + shifted else shifted
  }

  function Stripped(negative: bool, whole: string, fraction: string): Literal {
    var w, f := StripLeading(whole), StripTrailing(fraction);
    Literal(negative && !(w == "0" && f == []), w, f, None)
  }

  /** digits * 10 ^ -scale as a plain literal without redundant zeros. */
  function Normalised(negative: bool, digits: string, scale: int): Literal
    requires AllDigits(digits) && digits != []
  {
    var padded := Padded(digits, scale);
    var point := |padded| - Places(scale);
    Stripped(negative, padded[..point], padded[point..])
  }

  function Normal(l: Literal): Literal
    requires Wf(l)
  {
    Normalised(l.negative, Coefficient(l), ScaleOf(l))
  }

  lemma {:induction false} StripLeadingKeeps(s: string)
    requires AllDigits(s) && s != []
    ensures WholeOk(StripLeading(s)) && NatOf(StripLeading(s)) == NatOf(s)
  {
    if |s| > 1 && s[0] == '0' {
      StripLeadingKeeps(s[1..]);
      assert s == "0" + s[1..];
      NatOfConcat("0", s[1..]);
      assert NatOf("0") == 0;
    }
  }

  lemma {:induction false} NatOfZeros(n: nat)
    ensures NatOf(Zeros(n)) == 0
  {
    if n > 0 {
      NatOfZeros(n - 1);
      assert Zeros(n)[..n - 1] == Zeros(n - 1);
    }
  }

  lemma {:induction false} StripTrailingSplit(s: string)
    ensures s == StripTrailing(s) + Zeros(|s| - |StripTrailing(s)|)
  {
    if s != [] && s[|s| - 1] == '0' {
      var init := s[..|s| - 1];
      StripTrailingSplit(init);
      var n := |init| - |StripTrailing(init)|;
      assert Zeros(n) + "0" == Zeros(n + 1);
      assert s == init + "0";
    } else {
      assert s == s + Zeros(0);
    }
  }

  lemma PaddedNat(zeros: nat, s: string)
    requires AllDigits(s)
    ensures NatOf(Zeros(zeros) + s) == NatOf(s) && NatOf(s + Zeros(zeros)) == NatOf(s) * Pow10(zeros)
  {
    NatOfZeros(zeros);
    NatOfConcat(Zeros(zeros), s);
    NatOfConcat(s, Zeros(zeros));
  }

  lemma Regroup(a: nat, b: nat, p: nat, q: nat)
    ensures a * (p * q) + b * q == (a * p + b) * q
  {
  }

  /** Stripping zeros off the two sides of the point divides the digits by the power of ten they stood for. */
  lemma StrippedNat(whole: string, fraction: string)
    requires AllDigits(whole) && AllDigits(fraction) && whole != []
    ensures var w, f := StripLeading(whole), StripTrailing(fraction);
            WholeOk(w) && AllDigits(f) && NatOf(whole + fraction) == NatOf(w + f) * Pow10(|fraction| - |f|)
    ensures Pow10(|fraction|) == Pow10(|StripTrailing(fraction)|) * Pow10(|fraction| - |StripTrailing(fraction)|)
  {
    var w, f := StripLeading(whole), StripTrailing(fraction);
    var j := |fraction| - |f|;
    StripLeadingKeeps(whole);
    StripTrailingSplit(fraction);
    assert AllDigits(f);
    NatOfConcat(whole, fraction);
    NatOfConcat(w, f);
    PaddedNat(j, f);
    Pow10Add(|f|, j);
    hide NatOf, Pow10, StripLeading, StripTrailing;
    Regroup(NatOf(w), NatOf(f), Pow10(|f|), Pow10(j));
  }

  lemma PaddedValue(digits: string, scale: int)
    requires AllDigits(digits) && digits != []
    ensures NatOf(Padded(digits, scale)) == if scale < 0 then NatOf(digits) * Pow10(-scale) else NatOf(digits)
  {
    var shifted := if scale < 0 then digits + Zeros(-scale) else digits;
    if scale < 0 {
      PaddedNat(-scale, digits);
    }
    if |shifted| <= Places(scale) {
      PaddedNat(Places(scale) + 1 - |shifted|, shifted);
    }
  }

  lemma CrossMultiply(a: int, b: int, p: nat, q: nat, pq: nat)
    requires a == b * q && pq == p * q
    ensures a * p == b * pq
  {
    assert b * q * p == b * (p * q);
  }

  lemma Negated(n: nat, q: nat)
    ensures -(n as int) * q == -(n * q)
  {
  }

  lemma StrippedNormal(negative: bool, whole: string, fraction: string)
    requires AllDigits(whole) && AllDigits(fraction) && whole != []
    ensures NormalForm(Stripped(negative, whole, fraction))
  {
    StrippedNat(whole, fraction);
  }

  lemma StrippedValue(negative: bool, whole: string, fraction: string)
    requires AllDigits(whole) && AllDigits(fraction) && whole != []
    ensures NormalForm(Stripped(negative, whole, fraction))
    ensures SameNumber(Scaled(negative, whole + fraction, |fraction|), Value(Stripped(negative, whole, fraction)))
  {
    StrippedNormal(negative, whole, fraction);
    StrippedNat(whole, fraction);
    var w, f := StripLeading(whole), StripTrailing(fraction);
    var n := NatOf(w + f);
    if w == "0" && f == [] {
      assert w + f == "0";
      assert NatOf("0") == 0;
    }
    hide NatOf, Pow10, StripLeading, StripTrailing, Wf, NormalForm, WholeOk;
    var p, q := Pow10(|f|), Pow10(|fraction| - |f|);
    var v, signed := Value(Stripped(negative, whole, fraction)), if negative then -(n as int) else n;
    assert v == Rational(signed, |f|);
    Negated(n, q);
    var t := Scaled(negative, whole + fraction, |fraction|);
    assert t.numerator == signed * q && t.places == |fraction|;
    CrossMultiply(t.numerator, signed, p, q, Pow10(|fraction|));
  }

  lemma NormalisedValue(negative: bool, digits: string, scale: int)
    requires AllDigits(digits) && digits != []
    ensures NormalForm(Normalised(negative, digits, scale))
    ensures SameNumber(Scaled(negative, digits, scale), Value(Normalised(negative, digits, scale)))
  {
    var padded := Padded(digits, scale);
    var point := |padded| - Places(scale);
    assert padded == padded[..point] + padded[point..];
    PaddedValue(digits, scale);
    StrippedValue(negative, padded[..point], padded[point..]);
    assert Scaled(negative, digits, scale) == Scaled(negative, padded, Places(scale));
  }

  /** The normal form of an accepted literal is normal and denotes the same number. */
  lemma NormalKeepsValue(l: Literal)
    requires Wf(l)
    ensures NormalForm(Normal(l)) && SameNumber(Value(l), Value(Normal(l)))
  {
    NormalisedValue(l.negative, Coefficient(l), ScaleOf(l));
  }

  // ----- one normal form for one number -----

  lemma {:induction false} LeadingDigitBound(s: string)
    requires AllDigits(s) && s != [] && s[0] != '0'
    ensures NatOf(s) >= Pow10(|s| - 1)
  {
    if |s| == 1 {
      assert NatOf(s[..0]) == 0;
      assert DigitValue(s[0]) >= 1;
    } else {
      LeadingDigitBound(s[..|s| - 1]);
    }
  }

  lemma {:induction false} Pow10Monotone(a: nat, b: nat)
    requires a <= b
    ensures Pow10(a) <= Pow10(b)
  {
    if a < b {
      Pow10Monotone(a, b - 1);
    }
  }

  /** A number with more whole digits is greater: whole parts of one number have one length. */
  lemma LongerIsGreater(whole: string, fraction: string, other: string, otherFraction: string)
    requires WholeOk(whole) && WholeOk(other) && AllDigits(fraction) && AllDigits(otherFraction)
    requires |fraction| == |otherFraction| && |whole| > |other|
    ensures NatOf(whole + fraction) > NatOf(other + otherFraction)
  {
    var s, t := whole + fraction, other + otherFraction;
    assert s[0] == whole[0] && whole[0] != '0';
    hide WholeOk;
    GreaterByLength(s, t);
  }

  lemma GreaterByLength(s: string, t: string)
    requires AllDigits(s) && AllDigits(t) && |s| > |t| && s[0] != '0'
    ensures NatOf(s) > NatOf(t)
  {
    LeadingDigitBound(s);
    NatOfBound(t);
    Pow10Monotone(|t|, |s| - 1);
  }

  lemma SameDigits(a: Literal, b: Literal)
    requires NormalForm(a) && NormalForm(b) && |a.fraction| == |b.fraction|
    requires NatOf(a.whole + a.fraction) == NatOf(b.whole + b.fraction)
    ensures a.whole == b.whole && a.fraction == b.fraction
  {
    if |a.whole| > |b.whole| {
      LongerIsGreater(a.whole, a.fraction, b.whole, b.fraction);
    } else if |b.whole| > |a.whole| {
      LongerIsGreater(b.whole, b.fraction, a.whole, a.fraction);
    } else {
      var x, y := a.whole + a.fraction, b.whole + b.fraction;
      NatOfSameLength(x, y);
      assert a.whole == x[..|a.whole|] && a.fraction == x[|a.whole|..];
      assert b.whole == y[..|b.whole|] && b.fraction == y[|b.whole|..];
    }
  }

  lemma LastOfFraction(whole: string, fraction: string)
    ensures var s := whole + fraction; fraction != [] ==> s[|s| - 1] == fraction[|fraction| - 1]
  {
  }

  lemma ZeroDigits(l: Literal)
    requires NormalForm(l) && NatOf(l.whole + l.fraction) == 0
    ensures l.whole == "0" && l.fraction == []
  {
    var s := l.whole + l.fraction;
    LastOfFraction(l.whole, l.fraction);
    assert DigitValue(s[|s| - 1]) == 0;
    if l.whole[0] != '0' {
      LeadingDigitBound(s);
    }
    assert l.whole == "0";
  }

  /** A normal form never has more places than another one of the same number. */
  lemma PlacesAtMost(a: Literal, b: Literal)
    requires NormalForm(a) && NormalForm(b)
    requires NatOf(a.whole + a.fraction) * Pow10(|b.fraction|) == NatOf(b.whole + b.fraction) * Pow10(|a.fraction|)
    ensures |a.fraction| <= |b.fraction|
  {
    if |a.fraction| > |b.fraction| {
      var j := |a.fraction| - |b.fraction|;
      var m, n := NatOf(a.whole + a.fraction), NatOf(b.whole + b.fraction);
      Pow10Add(j, |b.fraction|);
      ShiftedEqual(m, n, Pow10(|b.fraction|), Pow10(j));
      LastDigitZero(a, n, j);
    }
  }

  lemma ShiftedEqual(m: nat, n: nat, p: nat, q: nat)
    requires p > 0 && m * p == n * (q * p)
    ensures m == n * q
  {
    assert n * (q * p) == (n * q) * p;
    Cancel(m, n * q, p);
  }

  lemma LastDigitZero(l: Literal, n: nat, j: nat)
    requires Wf(l) && l.fraction != [] && j > 0 && NatOf(l.whole + l.fraction) == n * Pow10(j)
    ensures l.fraction[|l.fraction| - 1] == '0'
  {
    var s, p := l.whole + l.fraction, Pow10(j - 1);
    LastOfFraction(l.whole, l.fraction);
    TenTimes(n, p);
    LastOfNat(s);
    assert AllDigits(s);
    hide NatOf, AllDigits;
    assert DigitValue(s[|s| - 1]) == 10 * (n * p - NatOf(s[..|s| - 1]));
  }

  lemma TenTimes(n: nat, p: nat)
    ensures n * (10 * p) == 10 * (n * p)
  {
  }

  lemma LastOfNat(s: string)
    requires AllDigits(s) && s != []
    ensures IsDigit(s[|s| - 1]) && AllDigits(s[..|s| - 1]) && NatOf(s) == 10 * NatOf(s[..|s| - 1]) + DigitValue(s[|s| - 1])
  {
  }

  lemma SignedEqual(x: nat, y: nat, negX: bool, negY: bool, p: nat, q: nat)
    requires p > 0 && q > 0
    requires (if negX then -(x as int) else x) * p == (if negY then -(y as int) else y) * q
    ensures x * p == y * q && (negX != negY ==> x == 0 && y == 0)
  {
    assert x * p >= 0 && y * q >= 0;
    assert -(x as int) * p == -(x * p) && -(y as int) * q == -(y * q);
    if negX != negY {
      assert x * p == 0 && y * q == 0;
    }
  }

  /** Normal forms are unique. */
  lemma NormalUnique(a: Literal, b: Literal)
    requires NormalForm(a) && NormalForm(b) && SameNumber(Value(a), Value(b))
    ensures a == b
  {
    var x, y := NatOf(a.whole + a.fraction), NatOf(b.whole + b.fraction);
    SignedEqual(x, y, a.negative, b.negative, Pow10(|b.fraction|), Pow10(|a.fraction|));
    PlacesAtMost(a, b);
    PlacesAtMost(b, a);
    Cancel(x, y, Pow10(|a.fraction|));
    SameDigits(a, b);
    if a.negative != b.negative {
      ZeroDigits(a);
    }
  }

  /** Two accepted literals denote the same number exactly when they have the same normal text. */
  lemma SameNumberSameText(a: Literal, b: Literal)
    requires Wf(a) && Wf(b)
    ensures SameNumber(Value(a), Value(b)) <==> Text(Normal(a)) == Text(Normal(b))
  {
    NormalKeepsValue(a);
    NormalKeepsValue(b);
    var m, n := Normal(a), Normal(b);
    if SameNumber(Value(a), Value(b)) {
      SameNumberTransitive(Value(m), Value(a), Value(b));
      SameNumberTransitive(Value(m), Value(b), Value(n));
      NormalUnique(m, n);
    }
    if Text(m) == Text(n) {
      ParseText(m);
      ParseText(n);
      SameNumberTransitive(Value(a), Value(m), Value(b));
    }
  }

  /** Normalising twice is normalising once. */
  lemma NormalIdempotent(l: Literal)
    requires Wf(l)
    ensures Wf(Normal(l)) && Normal(Normal(l)) == Normal(l)
    ensures Parse(Text(Normal(l))) == Some(Normal(l))
  {
    NormalKeepsValue(l);
    NormalKeepsValue(Normal(l));
    NormalUnique(Normal(Normal(l)), Normal(l));
    ParseText(Normal(l));
  }

  // ----- decimalString -----

  lemma StripTrailingPlain(w: string, f: string)
    requires AllDigits(f)
    ensures StripTrailing(w + "." + f) == w + "." + StripTrailing(f)
    decreases |f|
  {
    var s := w + "." + f;
    if f == [] {
      assert s == w + ".";
    } else if f[|f| - 1] == '0' {
      var init := f[..|f| - 1];
      assert s[..|s| - 1] == w + "." + init;
      StripTrailingPlain(w, init);
    }
  }

  lemma {:induction false} StripLeadingPlain(w: string, rest: string)
    requires AllDigits(w) && w != [] && (rest == [] || !IsDigit(rest[0]))
    ensures StripLeading(w + rest) == StripLeading(w) + rest
  {
    if |w| > 1 && w[0] == '0' {
      assert (w + rest)[1..] == w[1..] + rest;
      StripLeadingPlain(w[1..], rest);
    } else if |w| == 1 {
      assert rest != [] ==> (w + rest)[1] == rest[0];
    }
  }

  /** rendered.includes(".") with trailing zeros, then a trailing point, removed. */
  function TrimFraction(s: string): string {
    if '.' !in s then s
    else
      var t := StripTrailing(s);
      if t != [] && t[|t| - 1] == '.' then t[..|t| - 1] else t
  }

  lemma NoPoint(w: string)
    requires AllDigits(w)
    ensures '.' !in w
  {
    assert forall i | 0 <= i < |w| :: IsDigit(w[i]);
  }

  lemma TrimFractionPlain(w: string, f: string)
    requires AllDigits(w) && AllDigits(f)
    ensures TrimFraction(w + "." + f) == w + FractionText(StripTrailing(f))
    ensures TrimFraction(w) == w
  {
    NoPoint(w);
    StripTrailingPlain(w, f);
    assert (w + "." + f)[|w|] == '.';
    TrimPoint(w, StripTrailing(f));
  }

  lemma TrimPoint(w: string, t: string)
    requires t != [] ==> t[|t| - 1] != '.'
    ensures var s := w + "." + t; (if s[|s| - 1] == '.' then s[..|s| - 1] else s) == w + FractionText(t)
  {
    if t == [] {
      assert (w + "." + t)[..|w|] == w;
    } else {
      assert w + "." + t == w + ("." + t);
    }
  }

  /** What is left once the fraction is trimmed and leading zeros are gone. */
  function Trimmed(w: string, f: string): string {
    StripLeading(w + FractionText(StripTrailing(f)))
  }

  /** The last lines of decimalString bring a whole part and fraction to normal text. */
  lemma FinishPlain(negative: bool, whole: string, fraction: string)
    requires AllDigits(whole) && whole != [] && AllDigits(fraction)
    ensures var t := Trimmed(whole, fraction);
            && t != [] && t[0] != '.'
            && Text(Stripped(negative, whole, fraction)) == if t == "0" then "0" else if negative then "-" + t else t
  {
    var w, f := StripLeading(whole), StripTrailing(fraction);
    StripLeadingPlain(whole, FractionText(f));
    StripLeadingKeeps(whole);
    var t := w + FractionText(f);
    assert f != [] ==> t[|w|] == '.';
    assert t == "0" <==> w == "0" && f == [];
    assert FractionText(f) + ExponentText(None) == FractionText(f);
    assert "" + t == t;
  }

  /** The digits around the point, as decimalString pads them, are those of the normal form. */
  lemma PaddedAsWritten(whole: string, fraction: string, exponent: int)
    requires AllDigits(whole) && AllDigits(fraction) && whole != []
    ensures var digits, point := whole + fraction, |whole| + exponent;
            var scale := |fraction| - exponent;
            var padded := Padded(digits, scale);
            var split := |padded| - Places(scale);
            && (point <= 0 ==> padded[..split] == "0" && padded[split..] == Zeros(-point) + digits)
            && (0 < point < |digits| ==> padded[..split] == digits[..point] && padded[split..] == digits[point..])
            && (point >= |digits| ==> padded[..split] == digits + Zeros(point - |digits|) && padded[split..] == [])
  {
    var digits, point, scale := whole + fraction, |whole| + exponent, |fraction| - exponent;
    var padded := Padded(digits, scale);
    var split := |padded| - Places(scale);
    if point <= 0 {
      assert padded == Zeros(1 - point) + digits;
      assert Zeros(1 - point) == "0" + Zeros(-point);
      assert padded == "0" + (Zeros(-point) + digits);
    } else if point >= |digits| {
      assert scale == 0 ==> digits + Zeros(0) == digits;
      assert padded == digits + Zeros(point - |digits|);
      assert padded[split..] == [];
    } else {
      assert padded == digits;
    }
  }

  /** The whole and fraction digits of the padded number. */
  function WholeSide(digits: string, scale: int): string
    requires AllDigits(digits) && digits != []
  {
    Padded(digits, scale)[..|Padded(digits, scale)| - Places(scale)]
  }

  function FractionSide(digits: string, scale: int): string
    requires AllDigits(digits) && digits != []
  {
    Padded(digits, scale)[|Padded(digits, scale)| - Places(scale)..]
  }

  /** Lines 182-186: the digits are padded with zeros and the point is put in. */
  method PlacePoint(whole: string, fraction: string, exponent: int) returns (rendered: string)
    requires AllDigits(whole) && AllDigits(fraction) && whole != []
    ensures var w, f := WholeSide(whole + fraction, |fraction| - exponent), FractionSide(whole + fraction, |fraction| - exponent);
            rendered == w + "." + f || (rendered == w && f == [])
  {
    PaddedAsWritten(whole, fraction, exponent);
    hide Padded, Places;
    var digits := whole + fraction;
    var point := |whole| + exponent;
    if point <= 0 {
      digits, point := Zeros(-point) + digits, 0;
    }
    if point >= |digits| {
      digits := digits + Zeros(point - |digits|);
    }
    if point == 0 {
      rendered := "0." + digits;
      assert "0" + "." + digits == "0." + digits;
    } else if point == |digits| {
      rendered := digits;
    } else {
      rendered := digits[..point] + "." + digits[point..];
    }
  }

  lemma TrimmedPlain(w: string, f: string)
    requires AllDigits(w) && AllDigits(f)
    ensures StripLeading(TrimFraction(w + "." + f)) == Trimmed(w, f)
    ensures f == [] ==> StripLeading(TrimFraction(w)) == Trimmed(w, f)
  {
    TrimFractionPlain(w, f);
    assert w + FractionText(StripTrailing([])) == w;
  }

  /** Lines 187-191: the fraction is trimmed, then leading zeros, then the sign is put in front. */
  method Finish(negative: bool, text: string, ghost w: string, ghost f: string) returns (rendered: string)
    requires AllDigits(w) && w != [] && AllDigits(f) && (text == w + "." + f || (text == w && f == []))
    ensures rendered == Text(Stripped(negative, w, f))
  {
    TrimmedPlain(w, f);
    FinishPlain(negative, w, f);
    hide Stripped, StripLeading, TrimFraction, Text, Trimmed;
    rendered := TrimFraction(text);
    rendered := StripLeading(rendered);
    if rendered[0] == '.' {
      rendered := "0" + rendered;
    }
    if rendered != "0" && negative {
      rendered := "-" + rendered;
    }
  }

  /** Lines 178-191. */
  method Render(l: Literal) returns (rendered: string)
    requires Wf(l)
    ensures rendered == Text(Normal(l))
  {
    hide Text, WholeSide, FractionSide;
    ghost var w, f := WholeSide(Coefficient(l), ScaleOf(l)), FractionSide(Coefficient(l), ScaleOf(l));
    assert Normal(l) == Stripped(l.negative, w, f) by {
      NormalisedSides(l.negative, Coefficient(l), ScaleOf(l));
    }
    SidesDigits(Coefficient(l), ScaleOf(l));
    rendered := PlacePoint(l.whole, l.fraction, ExponentValue(l.exponent));
    rendered := Finish(l.negative, rendered, w, f);
  }

  lemma NormalisedSides(negative: bool, digits: string, scale: int)
    requires AllDigits(digits) && digits != []
    ensures Normalised(negative, digits, scale) == Stripped(negative, WholeSide(digits, scale), FractionSide(digits, scale))
  {
  }

  lemma SidesDigits(digits: string, scale: int)
    requires AllDigits(digits) && digits != []
    ensures AllDigits(WholeSide(digits, scale)) && WholeSide(digits, scale) != [] && AllDigits(FractionSide(digits, scale))
  {
  }

  /** decimalString on text: the accepted notation, brought to its normal form; anything else is refused. */
  method DecimalString(source: string) returns (r: Option<string>)
    ensures r.Some? <==> Accepted(source)
    ensures forall l | Wf(l) && Text(l) == source ::
              r == Some(Text(Normal(l))) && NormalForm(Normal(l)) && SameNumber(Value(l), Value(Normal(l)))
  {
    AcceptedIff(source);
    var parsed := Parse(source);
    if parsed.None? { return None; }
    var rendered := Render(parsed.value);
    r := Some(rendered);
    forall l | Wf(l) && Text(l) == source
      ensures r == Some(Text(Normal(l))) && NormalForm(Normal(l)) && SameNumber(Value(l), Value(Normal(l)))
    {
      ParseText(l);
      NormalKeepsValue(l);
    }
  }
}
