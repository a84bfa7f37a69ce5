/** canonical (src/continuation-v3.js): compact JSON text with the members of every object sorted by key, and
    the theorem that says what equal texts mean. */
module CanonicalText {
  import opened Unicode
  import opened Wrappers
  import opened Json
  import opened Sorting
  import opened Ordering

  // ----- numbers -----

  const NEGATIVE_ZERO: Bits := 0x8000_0000_0000_0000

  /** A number that JSON text distinguishes: finite, and not negative zero. */
  predicate Distinct(b: Bits) {
    Finite(b) && b != NEGATIVE_ZERO
  }

  /** The characters of numbers in JSON text. */
  predicate NumberUnit(u: Unit) {
    48 <= u <= 57 || u == 43 || u == 45 || u == 46 || u == 101
  }

  /** Number texts as the language defines them: the shortest digits that read back as the same number. */
  ghost predicate NumberTexts(number: Bits -> Text) {
    && (forall b | Distinct(b) :: number(b) != [] && forall i | 0 <= i < |number(b)| :: NumberUnit(number(b)[i]))
    && (forall a, b | Distinct(a) && Distinct(b) && number(a) == number(b) :: a == b)
  }

  /** Texts like these exist. */
  lemma NumberTextsPossible() returns (number: Bits -> Text)
    ensures NumberTexts(number)
  {
    number := (b: Bits) => DigitUnits(b);
    forall b: Bits ensures number(b) != [] && forall i | 0 <= i < |number(b)| :: NumberUnit(number(b)[i]) {
      DigitUnitsText(b);
    }
    forall a: Bits, b: Bits | number(a) == number(b) ensures a == b {
      DigitUnitsInjective(a, b);
    }
  }

  function DigitUnits(n: nat): Text {
    if n < 10 then [48 + n] else DigitUnits(n / 10) + [48 + n % 10]
  }

  lemma {:induction false} DigitUnitsText(n: nat)
    ensures DigitUnits(n) != [] && forall i | 0 <= i < |DigitUnits(n)| :: 48 <= DigitUnits(n)[i] <= 57
  {
    if n >= 10 {
      DigitUnitsText(n / 10);
    }
  }

  lemma {:induction false} DigitUnitsInjective(a: nat, b: nat)
    requires DigitUnits(a) == DigitUnits(b)
    ensures a == b
  {
    DigitUnitsText(a / 10);
    DigitUnitsText(b / 10);
    var s, t := DigitUnits(a), DigitUnits(b);
    assert s[|s| - 1] == 48 + a % 10 && t[|t| - 1] == 48 + b % 10;
    if a >= 10 && b >= 10 {
      assert s[..|s| - 1] == DigitUnits(a / 10) && t[..|t| - 1] == DigitUnits(b / 10);
      DigitUnitsInjective(a / 10, b / 10);
    }
  }

  // ----- text -----

  function Word(s: string): (t: Text)
    ensures |t| == |s|
  {
    seq(|s|, i requires 0 <= i < |s| => s[i] as int % 128)
  }

  function HexUnit(d: nat): Unit
    requires d < 16
  {
    if d < 10 then 48 + d else 87 + d
  }

  function Escaped(u: Unit): (t: Text)
    ensures |t| == 6 && t[0] == 92
  {
    [92, 117, HexUnit(u / 0x1000), HexUnit(u / 0x100 % 16), HexUnit(u / 16 % 16), HexUnit(u % 16)]
  }

  /** How JSON.stringify writes a code unit that is not part of a surrogate pair. */
  function Unpaired(u: Unit): Text {
    if u == 8 then [92, 98]
    else if u == 9 then [92, 116]
    else if u == 10 then [92, 110]
    else if u == 12 then [92, 102]
    else if u == 13 then [92, 114]
    else if u == 34 then [92, 34]
    else if u == 92 then [92, 92]
    else if u < 32 || High(u) || Low(u) then Escaped(u)
    else [u]
  }

  function Body(t: Text): Text {
    if t == [] then []
    else if High(t[0]) && |t| > 1 && Low(t[1]) then t[..2] + Body(t[2..])
    else Unpaired(t[0]) + Body(t[1..])
  }

  function Quote(t: Text): Text {
    [34] + Body(t) + [34]
  }

  function Print(number: Bits -> Text, v: Value): Text
    decreases v, 1
  {
    match v
    case Null => Word("null")
    case Bool(b) => if b then Word("true") else Word("false")
    case Num(b) => if !Finite(b) then Word("null") else if b == NEGATIVE_ZERO then number(0) else number(b)
    case Str(t) => Quote(t)
    case Arr(items) => [91] + PrintItems(number, items, true) + [93]
    case Obj(fields) => [123] + PrintFields(number, fields, true) + [125]
  }

  /** The items, each but the first after a comma. */
  function PrintItems(number: Bits -> Text, items: seq<Value>, first: bool): Text
    decreases items, 0
  {
    if items == [] then []
    else (if first then [] else [44]) + Print(number, items[0]) + PrintItems(number, items[1..], false)
  }

  function PrintFields(number: Bits -> Text, fields: seq<Field>, first: bool): Text
    decreases fields, 0
  {
    if fields == [] then []
    else (if first then [] else [44]) + (Quote(fields[0].key) + [58] + Print(number, fields[0].value)) + PrintFields(number, fields[1..], false)
  }

  function Canonical(number: Bits -> Text, v: Value): Text {
    Print(number, Ordered(ByUnits, v))
  }

  lemma OneUnit(u: Unit)
    ensures Body([u]) == Unpaired(u)
  {
    assert [u][1..] == [];
  }

  /** JSON.stringify escapes quotes and backslashes and has short escapes for five control characters. */
  lemma ShortEscapes()
    ensures Body([34]) == Word("\\\"") && Body([92]) == Word("\\\\") && Body([8]) == Word("\\b") && Body([9]) == Word("\\t")
    ensures Body([10]) == Word("\\n") && Body([12]) == Word("\\f") && Body([13]) == Word("\\r")
  {
    OneUnit(34);
    OneUnit(92);
    OneUnit(8);
    OneUnit(9);
    OneUnit(10);
    OneUnit(12);
    OneUnit(13);
    hide Body;
  }

  /** Other control characters and lone surrogates are written in hexadecimal, everything else as it is. */
  lemma LongEscapes(u: Unit)
    requires u != 34 && u != 92 && u !in {8, 9, 10, 12, 13}
    ensures if u < 32 || 0xD800 <= u < 0xE000
            then Word("\\u") <= Body([u]) && |Body([u])| == 6
                 && forall i | 2 <= i < 6 :: 48 <= Body([u])[i] <= 57 || 97 <= Body([u])[i] <= 102
            else Body([u]) == [u]
  {
    OneUnit(u);
    hide Body;
  }

  // ----- strings are read back -----

  function HexDigitValue(u: Unit): nat {
    if 48 <= u <= 57 then u - 48 else if 97 <= u <= 102 then u - 87 else 0
  }

  /** Reads one code unit of a quoted string: the unit and how many units of text it took. */
  function ReadUnit(x: Text): Option<(int, nat)>
    requires x != []
  {
    if x[0] == 34 then None
    else if x[0] != 92 then Some((x[0], 1))
    else if |x| < 2 then None
    else if x[1] == 117 then
      if |x| < 6 then None
      else Some((HexDigitValue(x[2]) * 0x1000 + HexDigitValue(x[3]) * 0x100 + HexDigitValue(x[4]) * 16 + HexDigitValue(x[5]), 6))
    else Some((match x[1] case 98 => 8 case 116 => 9 case 110 => 10 case 102 => 12 case 114 => 13 case u => u, 2))
  }

  /** Reads a string up to its closing quote: the units, and what follows. */
  function ReadBody(x: Text): (r: Option<(seq<int>, Text)>)
    ensures r.Some? ==> |r.value.1| < |x|
  {
    if x == [] then None
    else if x[0] == 34 then Some(([], x[1..]))
    else
      match ReadUnit(x)
      case None => None
      case Some((u, n)) =>
        if |x| < n || n == 0 then None
        else
          match ReadBody(x[n..])
          case None => None
          case Some((rest, after)) => Some(([u] + rest, after))
  }

  lemma HexDigitBack(d: nat)
    requires d < 16
    ensures HexDigitValue(HexUnit(d)) == d
  {
  }

  lemma HexDigits(u: Unit)
    ensures u / 0x1000 * 0x1000 + u / 0x100 % 16 * 0x100 + u / 16 % 16 * 16 + u % 16 == u
  {
    var q := u / 16;
    var r := q / 16;
    assert u / 0x100 == r && u / 0x1000 == r / 16;
    assert u == q * 16 + u % 16 && q == r * 16 + q % 16 && r == r / 16 * 16 + r % 16;
  }

  lemma EscapedBack(u: Unit, rest: Text)
    ensures ReadUnit(Escaped(u) + rest) == Some((u, 6))
  {
    var a, b, c, d := u / 0x1000, u / 0x100 % 16, u / 16 % 16, u % 16;
    HexDigitBack(a);
    HexDigitBack(b);
    HexDigitBack(c);
    HexDigitBack(d);
    HexDigits(u);
    hide HexUnit, HexDigitValue;
    var x := Escaped(u) + rest;
    assert x[0] == 92 && x[1] == 117 && x[2] == HexUnit(a) && x[3] == HexUnit(b) && x[4] == HexUnit(c) && x[5] == HexUnit(d);
  }

  lemma UnpairedBack(u: Unit, rest: Text)
    ensures var x := Unpaired(u) + rest;
            ReadUnit(x) == Some((u, |Unpaired(u)|)) && x[|Unpaired(u)|..] == rest
  {
    EscapedBack(u, rest);
    hide Escaped;
    var x := Unpaired(u) + rest;
    assert x[0] == Unpaired(u)[0] && (|Unpaired(u)| > 1 ==> x[1] == Unpaired(u)[1]);
  }

  lemma ReadNext(x: Text, u: int, n: nat, rest: seq<int>, after: Text)
    requires x != [] && 0 < n <= |x| && ReadUnit(x) == Some((u, n)) && ReadBody(x[n..]) == Some((rest, after))
    ensures ReadBody(x) == Some(([u] + rest, after))
  {
  }

  lemma PairBack(high: Unit, low: Unit, t: Text, x: Text, rest: Text)
    requires High(high) && Low(low) && ReadBody(x) == Some((t, rest))
    ensures ReadBody([high, low] + x) == Some(([high, low] + t, rest))
  {
    var y := [high, low] + x;
    assert y[1..] == [low] + x && y[1..][1..] == x;
    ReadNext(y[1..], low, 1, t, rest);
    ReadNext(y, high, 1, [low] + t, rest);
    assert [high] + ([low] + t) == [high, low] + t;
  }

  lemma BodyPair(t: Text)
    requires |t| > 1 && High(t[0]) && Low(t[1])
    ensures Body(t) == [t[0], t[1]] + Body(t[2..])
  {
    assert t[..2] == [t[0], t[1]];
  }

  lemma BodyOne(t: Text)
    requires t != [] && !(High(t[0]) && |t| > 1 && Low(t[1]))
    ensures Body(t) == Unpaired(t[0]) + Body(t[1..])
  {
  }

  lemma Regrouped(a: Text, b: Text, c: Text)
    ensures a + b + c == a + (b + c)
  {
  }

  lemma PairFirst(t: Text, rest: Text)
    requires |t| > 1 && High(t[0]) && Low(t[1]) && ReadBody(Body(t[2..]) + ([34] + rest)) == Some((t[2..], rest))
    ensures ReadBody(Body(t) + ([34] + rest)) == Some((t, rest))
  {
    hide ReadUnit, Unpaired, ReadBody, Body;
    BodyPair(t);
    PairBack(t[0], t[1], t[2..], Body(t[2..]) + ([34] + rest), rest);
    Regrouped([t[0], t[1]], Body(t[2..]), [34] + rest);
    assert t == [t[0], t[1]] + t[2..];
  }

  lemma UnpairedFirst(t: Text, rest: Text)
    requires t != [] && !(High(t[0]) && |t| > 1 && Low(t[1])) && ReadBody(Body(t[1..]) + ([34] + rest)) == Some((t[1..], rest))
    ensures ReadBody(Body(t) + ([34] + rest)) == Some((t, rest))
  {
    hide ReadUnit, Unpaired, ReadBody, Body;
    BodyOne(t);
    UnpairedNext(t[0], t[1..], Body(t[1..]) + ([34] + rest), rest);
    Regrouped(Unpaired(t[0]), Body(t[1..]), [34] + rest);
    assert t == [t[0]] + t[1..];
  }

  lemma {:induction false} BodyBack(t: Text, rest: Text)
    ensures ReadBody(Body(t) + ([34] + rest)) == Some((t, rest))
    decreases |t|
  {
    hide ReadBody;
    if t == [] {
      assert Body(t) + ([34] + rest) == [34] + rest;
      CloseBack(rest);
    } else if High(t[0]) && |t| > 1 && Low(t[1]) {
      BodyBack(t[2..], rest);
      PairFirst(t, rest);
    } else {
      BodyBack(t[1..], rest);
      UnpairedFirst(t, rest);
    }
  }

  lemma CloseBack(rest: Text)
    ensures ReadBody([34] + rest) == Some(([], rest))
  {
    assert ([34] + rest)[1..] == rest;
  }

  lemma UnpairedNext(u: Unit, t: Text, x: Text, rest: Text)
    requires ReadBody(x) == Some((t, rest))
    ensures ReadBody(Unpaired(u) + x) == Some(([u] + t, rest))
  {
    UnpairedBack(u, x);
    UnpairedLength(u);
    hide ReadUnit, Unpaired;
    ReadNext(Unpaired(u) + x, u, |Unpaired(u)|, t, rest);
  }

  lemma UnpairedLength(u: Unit)
    ensures |Unpaired(u)| > 0
  {
  }

  lemma QuoteTail(t: Text, r: Text)
    ensures (Quote(t) + r)[1..] == Body(t) + ([34] + r)
  {
    hide Body;
  }

  // ----- printed values are read back up to the sign of zero and non-finite numbers -----

  /** What is left of a value in JSON text. */
  function Plain(v: Value): Value
    decreases v, 1
  {
    match v
    case Num(b) => if !Finite(b) then Null else if b == NEGATIVE_ZERO then Num(0) else v
    case Arr(items) => Arr(PlainItems(items))
    case Obj(fields) => Obj(PlainFields(fields))
    case _ => v
  }

  function PlainItems(items: seq<Value>): (r: seq<Value>)
    ensures |r| == |items|
    decreases items, 0
  {
    if items == [] then [] else [Plain(items[0])] + PlainItems(items[1..])
  }

  function PlainFields(fields: seq<Field>): (r: seq<Field>)
    ensures |r| == |fields|
    decreases fields, 0
  {
    if fields == [] then [] else [Field(fields[0].key, Plain(fields[0].value))] + PlainFields(fields[1..])
  }

  /** The end of the text, or a character that can follow a value. */
  predicate Stops(r: Text) {
    r == [] || r[0] == 44 || r[0] == 93 || r[0] == 125
  }

  lemma {:induction false} PrintPlain(number: Bits -> Text, v: Value)
    ensures Print(number, Plain(v)) == Print(number, v)
    decreases v, 1
  {
    match v
    case Arr(items) => PrintPlainItems(number, items, true);
    case Obj(fields) => PrintPlainFields(number, fields, true);
    case _ => assert Finite(0);
  }

  lemma {:induction false} PrintPlainItems(number: Bits -> Text, items: seq<Value>, first: bool)
    ensures PrintItems(number, PlainItems(items), first) == PrintItems(number, items, first)
    decreases items, 0
  {
    if items != [] {
      PrintPlain(number, items[0]);
      PrintPlainItems(number, items[1..], false);
      assert PlainItems(items)[1..] == PlainItems(items[1..]);
    }
  }

  lemma {:induction false} PrintPlainFields(number: Bits -> Text, fields: seq<Field>, first: bool)
    ensures PrintFields(number, PlainFields(fields), first) == PrintFields(number, fields, first)
    decreases fields, 0
  {
    if fields != [] {
      PrintPlain(number, fields[0].value);
      PrintPlainFields(number, fields[1..], false);
      assert PlainFields(fields)[1..] == PlainFields(fields[1..]);
    }
  }

  // ----- a reader of JSON text (RFC 8259) without spaces -----

  function NumberRun(x: Text): (n: nat)
    ensures n <= |x|
  {
    if x == [] || !NumberUnit(x[0]) then 0 else 1 + NumberRun(x[1..])
  }

  /** The number with this text. */
  ghost function NumberWith(number: Bits -> Text, text: Text): Option<Bits> {
    if exists b: Bits :: Distinct(b) && number(b) == text then
      var b: Bits :| Distinct(b) && number(b) == text;
      Some(b)
    else None
  }

  /** A string after its opening quote. */
  function ReadString(x: Text): (r: Option<(Text, Text)>)
    ensures r.Some? ==> |r.value.1| < |x|
  {
    match ReadBody(x)
    case None => None
    case Some((units, after)) => if forall i | 0 <= i < |units| :: 0 <= units[i] < 0x1_0000 then Some((units, after)) else None
  }

  ghost function Read(number: Bits -> Text, x: Text): (r: Option<(Value, Text)>)
    ensures r.Some? ==> |r.value.1| < |x|
    decreases |x|, 0
  {
    if x == [] then None
    else if Word("null") <= x then Some((Null, x[4..]))
    else if Word("true") <= x then Some((Bool(true), x[4..]))
    else if Word("false") <= x then Some((Bool(false), x[5..]))
    else if Word("\"") <= x then
      match ReadString(x[1..])
      case None => None
      case Some((text, after)) => Some((Str(text), after))
    else if Word("[") <= x then
      match ReadItems(number, x[1..], true)
      case None => None
      case Some((items, after)) => Some((Arr(items), after))
    else if Word("{") <= x then
      match ReadFields(number, x[1..], true)
      case None => None
      case Some((fields, after)) => Some((Obj(fields), after))
    else
      var n := NumberRun(x);
      match NumberWith(number, x[..n])
      case Some(b) => if n > 0 then Some((Num(b), x[n..])) else None
      case None => None
  }

  /** What precedes an item: nothing for the first, a comma for the others. */
  function AfterComma(x: Text, first: bool): (r: Option<Text>)
    ensures r.Some? ==> |r.value| <= |x|
  {
    if first then Some(x) else if Word(",") <= x then Some(x[1..]) else None
  }

  ghost function ReadItems(number: Bits -> Text, x: Text, first: bool): (r: Option<(seq<Value>, Text)>)
    ensures r.Some? ==> |r.value.1| < |x|
    decreases |x|, 1
  {
    if Word("]") <= x then Some(([], x[1..]))
    else
      match AfterComma(x, first)
      case None => None
      case Some(start) =>
        match Read(number, start)
        case None => None
        case Some((item, after)) =>
          match ReadItems(number, after, false)
          case None => None
          case Some((items, rest)) => Some(([item] + items, rest))
  }

  ghost function ReadFields(number: Bits -> Text, x: Text, first: bool): (r: Option<(seq<Field>, Text)>)
    ensures r.Some? ==> |r.value.1| < |x|
    decreases |x|, 1
  {
    if Word("}") <= x then Some(([], x[1..]))
    else
      match AfterComma(x, first)
      case None => None
      case Some(start) =>
        if !(Word("\"") <= start) then None
        else
          match ReadString(start[1..])
          case None => None
          case Some((key, colon)) =>
            if !(Word(":") <= colon) then None
            else
              match Read(number, colon[1..])
              case None => None
              case Some((value, after)) =>
                match ReadFields(number, after, false)
                case None => None
                case Some((fields, rest)) => Some(([Field(key, value)] + fields, rest))
  }

  // ----- canonical text is JSON text of the value -----

  lemma Apart(a: Text, b: Text, c: Text, r: Text)
    ensures a + b + c + r == a + (b + (c + r))
  {
  }

  lemma Starts(s: string, x: Text)
    ensures |s| > 0 && |x| > 0 && x[0] != s[0] as int % 128 ==> !(Word(s) <= x)
    ensures Word(s) <= Word(s) + x && (Word(s) + x)[|s|..] == x
  {
    if |s| > 0 && Word(s) <= x {
      assert x[0] == Word(s)[0];
    }
  }

  /** What a printed value starts with tells its kind, and is neither a comma nor a closing bracket. */
  predicate Opens(v: Value, u: Unit) {
    match v
    case Null => u == 110
    case Bool(b) => u == if b then 116 else 102
    case Num(_) => NumberUnit(u)
    case Str(_) => u == 34
    case Arr(_) => u == 91
    case Obj(_) => u == 123
  }

  lemma FirstUnit(number: Bits -> Text, v: Value)
    requires NumberTexts(number)
    ensures Print(number, v) != [] && Opens(Plain(v), Print(number, v)[0])
  {
    assert Distinct(0);
  }

  lemma {:induction false} RunOf(text: Text, rest: Text)
    requires Stops(rest) && forall i | 0 <= i < |text| :: NumberUnit(text[i])
    ensures NumberRun(text + rest) == |text|
  {
    if text != [] {
      RunOf(text[1..], rest);
      assert (text + rest)[1..] == text[1..] + rest;
    } else {
      assert text + rest == rest;
    }
  }

  lemma ReadNumber(number: Bits -> Text, b: Bits, rest: Text)
    requires NumberTexts(number) && Distinct(b) && Stops(rest)
    ensures Read(number, number(b) + rest) == Some((Num(b), rest))
  {
    var x := number(b) + rest;
    RunOf(number(b), rest);
    assert NumberUnit(x[0]);
    Starts("null", x);
    Starts("true", x);
    Starts("false", x);
    Starts("\"", x);
    Starts("[", x);
    Starts("{", x);
    assert x[..|number(b)|] == number(b) && x[|number(b)|..] == rest;
    hide Word, NumberRun;
  }

  lemma ReadWord(number: Bits -> Text, rest: Text)
    ensures Read(number, Word("null") + rest) == Some((Null, rest))
    ensures Read(number, Word("true") + rest) == Some((Bool(true), rest))
    ensures Read(number, Word("false") + rest) == Some((Bool(false), rest))
  {
    var n, t, f := Word("null") + rest, Word("true") + rest, Word("false") + rest;
    Starts("null", rest);
    Starts("true", rest);
    Starts("false", rest);
    assert t[0] == 116 && f[0] == 102;
    Starts("null", t);
    Starts("null", f);
    Starts("true", f);
    hide Word;
  }

  lemma StringBack(t: Text, rest: Text)
    ensures (Quote(t) + rest)[0] == 34 && Word("\"") <= Quote(t) + rest && ReadString((Quote(t) + rest)[1..]) == Some((t, rest))
  {
    BodyBack(t, rest);
    QuoteTail(t, rest);
    hide Body, ReadBody;
  }

  /** A printed value is read back, up to the sign of zero and non-finite numbers, whatever follows it. */
  lemma {:induction false} ReadPrint(number: Bits -> Text, v: Value, rest: Text)
    requires NumberTexts(number) && Stops(rest)
    ensures Read(number, Print(number, v) + rest) == Some((Plain(v), rest))
    decreases v, 1
  {
    hide Read, ReadItems, ReadFields, PrintItems, PrintFields, Quote, ReadString, Word, NumberTexts;
    var x := Print(number, v) + rest;
    match v
    case Num(b) =>
      assert Distinct(0);
      ReadWord(number, rest);
      ReadNumber(number, if Distinct(b) then b else 0, rest);
    case Str(t) =>
      StringBack(t, rest);
      ReadQuote(number, x, t, rest);
    case Arr(items) =>
      ReadItemsBack(number, items, true, rest);
      ReadOpen(number, x, PrintItems(number, items, true) + ([93] + rest), 91);
    case Obj(fields) =>
      ReadFieldsBack(number, fields, true, rest);
      ReadOpen(number, x, PrintFields(number, fields, true) + ([125] + rest), 123);
    case _ => ReadWord(number, rest);
  }

  lemma ReadQuote(number: Bits -> Text, x: Text, t: Text, rest: Text)
    requires Word("\"") <= x && ReadString(x[1..]) == Some((t, rest))
    ensures Read(number, x) == Some((Str(t), rest))
  {
    assert x[0] == 34;
    Starts("null", x);
    Starts("true", x);
    Starts("false", x);
    hide Word, ReadString;
  }

  lemma ReadOpen(number: Bits -> Text, x: Text, tail: Text, open: Unit)
    requires (open == 91 || open == 123) && x == [open] + tail
    ensures open == 91 ==> Read(number, x) == match ReadItems(number, tail, true) case None => None case Some((items, after)) => Some((Arr(items), after))
    ensures open == 123 ==> Read(number, x) == match ReadFields(number, tail, true) case None => None case Some((fields, after)) => Some((Obj(fields), after))
  {
    assert x[0] == open && x[1..] == tail;
    Starts("null", x);
    Starts("true", x);
    Starts("false", x);
    Starts("\"", x);
    Starts("[", x);
    assert open == 91 ==> Word("[") <= x;
    assert open == 123 ==> Word("{") <= x;
    hide Word, ReadItems, ReadFields;
  }

  lemma NextItem(number: Bits -> Text, x: Text, first: bool, start: Text, item: Value, after: Text, items: seq<Value>, rest: Text)
    requires !(Word("]") <= x) && AfterComma(x, first) == Some(start) && Read(number, start) == Some((item, after))
    requires ReadItems(number, after, false) == Some((items, rest))
    ensures ReadItems(number, x, first) == Some(([item] + items, rest))
  {
  }

  lemma PastComma(x: Text, first: bool, start: Text)
    requires x == (if first then [] else [44]) + start
    ensures AfterComma(x, first) == Some(start) && (start != [] ==> x[0] == if first then start[0] else 44)
  {
    assert if first then x == start else x[1..] == start;
  }

  lemma ItemText(number: Bits -> Text, items: seq<Value>, first: bool, r: Text)
    requires items != []
    ensures PrintItems(number, items, first) + r
         == (if first then [] else [44]) + (Print(number, items[0]) + (PrintItems(number, items[1..], false) + r))
  {
    hide Print;
    var comma: Text := if first then [] else [44];
    Apart(comma, Print(number, items[0]), PrintItems(number, items[1..], false), r);
  }

  lemma {:induction false} ReadItemsBack(number: Bits -> Text, items: seq<Value>, first: bool, rest: Text)
    requires NumberTexts(number)
    ensures ReadItems(number, PrintItems(number, items, first) + ([93] + rest), first) == Some((PlainItems(items), rest))
    decreases items, 0
  {
    var x := PrintItems(number, items, first) + ([93] + rest);
    if items == [] {
      assert x == [93] + rest;
    } else {
      var p, tail := Print(number, items[0]), PrintItems(number, items[1..], false) + ([93] + rest);
      ReadItemsBack(number, items[1..], false, rest);
      FirstUnit(number, items[0]);
      ItemsStop(number, items[1..], [93] + rest);
      ReadPrint(number, items[0], tail);
      ItemText(number, items, first, [93] + rest);
      PastComma(x, first, p + tail);
      Starts("]", x);
      hide Read, ReadItems, Print, PrintItems, AfterComma, Word, NumberTexts, Plain;
      assert x[0] == if first then (p + tail)[0] else 44;
      NextItem(number, x, first, p + tail, Plain(items[0]), tail, PlainItems(items[1..]), rest);
    }
  }

  lemma ItemsStop(number: Bits -> Text, items: seq<Value>, rest: Text)
    requires Stops(rest)
    ensures Stops(PrintItems(number, items, false) + rest)
  {
  }

  lemma FieldsStop(number: Bits -> Text, fields: seq<Field>, rest: Text)
    requires Stops(rest)
    ensures Stops(PrintFields(number, fields, false) + rest)
  {
  }

  lemma FieldText(number: Bits -> Text, fields: seq<Field>, first: bool, r: Text)
    requires fields != []
    ensures PrintFields(number, fields, first) + r == (if first then [] else [44]) +
            (Quote(fields[0].key) + ([58] + (Print(number, fields[0].value) + (PrintFields(number, fields[1..], false) + r))))
  {
    hide Quote, Print;
    var comma: Text := if first then [] else [44];
    var q, p, rest := Quote(fields[0].key), Print(number, fields[0].value), PrintFields(number, fields[1..], false);
    Apart(comma, q + [58] + p, rest, r);
    Apart(q, [58], p, rest + r);
  }

  lemma NextField(number: Bits -> Text, x: Text, first: bool, start: Text, key: Text, colon: Text, value: Value, after: Text,
                  fields: seq<Field>, rest: Text)
    requires !(Word("}") <= x) && AfterComma(x, first) == Some(start) && Word("\"") <= start && ReadString(start[1..]) == Some((key, colon))
    requires Word(":") <= colon && Read(number, colon[1..]) == Some((value, after)) && ReadFields(number, after, false) == Some((fields, rest))
    ensures ReadFields(number, x, first) == Some(([Field(key, value)] + fields, rest))
  {
  }

  lemma {:induction false} ReadFieldsBack(number: Bits -> Text, fields: seq<Field>, first: bool, rest: Text)
    requires NumberTexts(number)
    ensures ReadFields(number, PrintFields(number, fields, first) + ([125] + rest), first) == Some((PlainFields(fields), rest))
    decreases fields, 0
  {
    var x := PrintFields(number, fields, first) + ([125] + rest);
    if fields == [] {
      assert x == [125] + rest;
    } else {
      var q, p, tail := Quote(fields[0].key), Print(number, fields[0].value), PrintFields(number, fields[1..], false) + ([125] + rest);
      var colon := [58] + (p + tail);
      ReadFieldsBack(number, fields[1..], false, rest);
      FieldsStop(number, fields[1..], [125] + rest);
      ReadPrint(number, fields[0].value, tail);
      FieldText(number, fields, first, [125] + rest);
      StringBack(fields[0].key, colon);
      PastComma(x, first, q + colon);
      Starts("}", x);
      ColonNext(p + tail);
      hide Read, ReadFields, Print, PrintFields, AfterComma, Word, NumberTexts, Plain, Quote, ReadString;
      assert x[0] == if first then (q + colon)[0] else 44;
      NextField(number, x, first, q + colon, fields[0].key, colon, Plain(fields[0].value), tail, PlainFields(fields[1..]), rest);
    }
  }

  lemma ColonNext(tail: Text)
    ensures Word(":") <= [58] + tail && ([58] + tail)[1..] == tail
  {
  }

  /** A printed value and what follows it are determined by their text. */
  lemma PrintUnique(number: Bits -> Text, v: Value, w: Value, r: Text, s: Text)
    requires NumberTexts(number) && Stops(r) && Stops(s)
    requires Print(number, v) + r == Print(number, w) + s
    ensures Plain(v) == Plain(w) && r == s
  {
    hide Print, Read;
    ReadPrint(number, v, r);
    ReadPrint(number, w, s);
  }

  // ----- taking numbers apart and sorting members commute -----

  function PlainKeyed(keyed: seq<Keyed<Field>>): (r: seq<Keyed<Field>>)
    ensures |r| == |keyed|
  {
    if keyed == [] then []
    else [Keyed(keyed[0].key, Field(keyed[0].item.key, Plain(keyed[0].item.value)))] + PlainKeyed(keyed[1..])
  }

  lemma {:induction false} InsertPlain(e: Keyed<Field>, sorted: seq<Keyed<Field>>)
    ensures PlainKeyed(Insert(e, sorted)) == Insert(PlainKeyed([e])[0], PlainKeyed(sorted))
  {
    if sorted != [] {
      InsertPlain(e, sorted[1..]);
    }
  }

  lemma {:induction false} SortPlain(keyed: seq<Keyed<Field>>)
    ensures PlainKeyed(Sort(keyed)) == Sort(PlainKeyed(keyed))
  {
    if keyed != [] {
      SortPlain(keyed[1..]);
      InsertPlain(keyed[0], Sort(keyed[1..]));
    }
  }

  lemma {:induction false} UnkeyedPlain(keyed: seq<Keyed<Field>>)
    ensures PlainFields(Unkeyed(keyed)) == Unkeyed(PlainKeyed(keyed))
  {
    if keyed != [] {
      UnkeyedPlain(keyed[1..]);
    }
  }

  lemma {:induction false} OrderedPlain(v: Value)
    ensures Plain(Ordered(ByUnits, v)) == Ordered(ByUnits, Plain(v))
    decreases v, 1
  {
    match v
    case Arr(items) => OrderedPlainItems(items);
    case Obj(fields) =>
      OrderedPlainFields(fields);
      UnkeyedPlain(Sort(OrderedFields(ByUnits, fields)));
      SortPlain(OrderedFields(ByUnits, fields));
    case _ =>
  }

  lemma {:induction false} OrderedPlainItems(items: seq<Value>)
    ensures PlainItems(OrderedItems(ByUnits, items)) == OrderedItems(ByUnits, PlainItems(items))
    decreases items, 0
  {
    if items != [] {
      OrderedPlain(items[0]);
      OrderedPlainItems(items[1..]);
    }
  }

  lemma {:induction false} OrderedPlainFields(fields: seq<Field>)
    ensures PlainKeyed(OrderedFields(ByUnits, fields)) == OrderedFields(ByUnits, PlainFields(fields))
    decreases fields, 0
  {
    if fields != [] {
      OrderedPlain(fields[0].value);
      OrderedPlainFields(fields[1..]);
    }
  }

  lemma {:induction false} PlainItemAt(items: seq<Value>, i: nat)
    requires i < |items|
    ensures PlainItems(items)[i] == Plain(items[i])
  {
    if i > 0 {
      PlainItemAt(items[1..], i - 1);
    }
  }

  lemma {:induction false} PlainFieldAt(fields: seq<Field>, i: nat)
    requires i < |fields|
    ensures PlainFields(fields)[i] == Field(fields[i].key, Plain(fields[i].value))
  {
    if i > 0 {
      PlainFieldAt(fields[1..], i - 1);
    }
  }

  lemma {:induction false} PlainWf(v: Value)
    requires Wf(v)
    ensures Wf(Plain(v))
  {
    match v
    case Arr(items) =>
      forall i | 0 <= i < |items| ensures Wf(PlainItems(items)[i]) {
        PlainItemAt(items, i);
        PlainWf(items[i]);
      }
    case Obj(fields) =>
      forall i | 0 <= i < |fields| ensures PlainFields(fields)[i].key == fields[i].key && Wf(PlainFields(fields)[i].value) {
        PlainFieldAt(fields, i);
        PlainWf(fields[i].value);
      }
    case _ =>
  }

  /** Equality of values as canonical text sees it: up to the order of members, the sign of zero, and what
      kind of number is not finite. */
  ghost predicate Alike(v: Value, w: Value) {
    Same(Plain(v), Plain(w))
  }

  /** Two values have the same canonical text exactly when they are alike. */
  lemma CanonicalMeaning(number: Bits -> Text, v: Value, w: Value)
    requires NumberTexts(number) && Wf(v) && Wf(w)
    ensures Canonical(number, v) == Canonical(number, w) <==> Alike(v, w)
  {
    var a, b := Ordered(ByUnits, v), Ordered(ByUnits, w);
    OrderedPlain(v);
    OrderedPlain(w);
    if Canonical(number, v) == Canonical(number, w) {
      PrintUnique(number, a, b, [], []);
      OrderedEqualIsSame(ByUnits, Plain(v), Plain(w));
    }
    if Alike(v, w) {
      PlainWf(v);
      PlainWf(w);
      SameOrderedEqual(Plain(v), Plain(w));
      PrintPlain(number, a);
      PrintPlain(number, b);
    }
  }

  // ----- canonical text loses nothing when it is written as UTF-8 -----

  lemma UnitWellFormed(u: Unit)
    requires !High(u) && !Low(u)
    ensures WellFormed([u])
  {
    var text: seq<Scalar> := [u];
    assert ToUtf16(text) == UnitsOf(u) + ToUtf16(text[1..]);
    assert ToUtf16(text) == [u];
  }

  lemma UnpairedWellFormed(u: Unit)
    ensures WellFormed(Unpaired(u))
  {
    if |Unpaired(u)| == 1 {
      UnitWellFormed(u);
    } else {
      AsciiWellFormed(Unpaired(u));
    }
  }

  lemma {:induction false} BodyWellFormed(t: Text)
    ensures WellFormed(Body(t))
    decreases |t|
  {
    if t == [] {
      AsciiWellFormed([]);
    } else if High(t[0]) && |t| > 1 && Low(t[1]) {
      BodyWellFormed(t[2..]);
      WellFormedIff(t[..2]);
      WellFormedConcat(t[..2], Body(t[2..]));
    } else {
      BodyWellFormed(t[1..]);
      UnpairedWellFormed(t[0]);
      WellFormedConcat(Unpaired(t[0]), Body(t[1..]));
    }
  }

  lemma Wrapped(open: Text, a: Text, close: Text)
    requires WellFormed(a) && (forall i | 0 <= i < |open| :: open[i] < 128) && forall i | 0 <= i < |close| :: close[i] < 128
    ensures WellFormed(open + a + close)
  {
    AsciiWellFormed(open);
    AsciiWellFormed(close);
    WellFormedConcat(open, a);
    WellFormedConcat(open + a, close);
  }

  lemma {:induction false} PrintWellFormed(number: Bits -> Text, v: Value)
    requires NumberTexts(number)
    ensures WellFormed(Print(number, v))
    decreases v, 1
  {
    hide WellFormed, Body, PrintItems, PrintFields;
    match v
    case Null => AsciiWellFormed(Word("null"));
    case Bool(b) => AsciiWellFormed(Print(number, v));
    case Num(b) =>
      assert Distinct(0);
      AsciiWellFormed(Print(number, v));
    case Str(t) =>
      BodyWellFormed(t);
      Wrapped([34], Body(t), [34]);
    case Arr(items) =>
      ItemsWellFormed(number, items, true);
      Wrapped([91], PrintItems(number, items, true), [93]);
    case Obj(fields) =>
      FieldsWellFormed(number, fields, true);
      Wrapped([123], PrintFields(number, fields, true), [125]);
  }

  lemma {:induction false} ItemsWellFormed(number: Bits -> Text, items: seq<Value>, first: bool)
    requires NumberTexts(number)
    ensures WellFormed(PrintItems(number, items, first))
    decreases items, 0
  {
    hide WellFormed, Print;
    if items == [] {
      AsciiWellFormed([]);
    } else {
      PrintWellFormed(number, items[0]);
      ItemsWellFormed(number, items[1..], false);
      AsciiWellFormed(if first then [] else [44]);
      WellFormedConcat(if first then [] else [44], Print(number, items[0]));
      WellFormedConcat((if first then [] else [44]) + Print(number, items[0]), PrintItems(number, items[1..], false));
    }
  }

  lemma {:induction false} FieldsWellFormed(number: Bits -> Text, fields: seq<Field>, first: bool)
    requires NumberTexts(number)
    ensures WellFormed(PrintFields(number, fields, first))
    decreases fields, 0
  {
    hide WellFormed, Print, Body;
    if fields == [] {
      AsciiWellFormed([]);
    } else {
      var comma: Text := if first then [] else [44];
      var q, p := Quote(fields[0].key), Print(number, fields[0].value);
      BodyWellFormed(fields[0].key);
      Wrapped([34], Body(fields[0].key), [34]);
      PrintWellFormed(number, fields[0].value);
      FieldsWellFormed(number, fields[1..], false);
      AsciiWellFormed(comma);
      AsciiWellFormed([58]);
      WellFormedConcat(q, [58]);
      WellFormedConcat(q + [58], p);
      WellFormedConcat(comma, q + [58] + p);
      WellFormedConcat(comma + (q + [58] + p), PrintFields(number, fields[1..], false));
    }
  }

  lemma TextWellFormed(number: Bits -> Text, v: Value)
    requires NumberTexts(number)
    ensures WellFormed(Canonical(number, v))
  {
    PrintWellFormed(number, Ordered(ByUnits, v));
  }

  /** The bytes that are hashed: Buffer.from(canonical(value), "utf8"). */
  function CanonicalBytes(number: Bits -> Text, v: Value): Option<seq<Byte>> {
    Strict(Canonical(number, v))
  }

  /** Canonical text is always well formed, and its bytes mean what the text means. */
  lemma CanonicalBytesMeaning(number: Bits -> Text, v: Value, w: Value)
    requires NumberTexts(number) && Wf(v) && Wf(w)
    ensures CanonicalBytes(number, v).Some?
    ensures CanonicalBytes(number, v) == CanonicalBytes(number, w) <==> Alike(v, w)
  {
    hide Canonical, Alike;
    TextWellFormed(number, v);
    TextWellFormed(number, w);
    CanonicalMeaning(number, v, w);
    StrictAccepts(Canonical(number, v));
    StrictAccepts(Canonical(number, w));
    if CanonicalBytes(number, v) == CanonicalBytes(number, w) {
      StrictInjective(Canonical(number, v), Canonical(number, w));
    }
  }
}
