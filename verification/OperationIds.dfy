/** The texts of operation ids and retry keys (src/caller-runner.js), and why different ones never collide. */
module OperationIds {
  import opened Numerals
  import opened RunnerState

  predicate IdChar(c: char) {
    'A' <= c <= 'Z' || 'a' <= c <= 'z' || '0' <= c <= '9' || c == '.' || c == '_' || c == ':' || c == '-'
  }

  /** /^[A-Za-z0-9._:-]{8,128}$/ */
  predicate ValidId(text: string) {
    8 <= |text| <= 128 && forall i | 0 <= i < |text| :: IdChar(text[i])
  }

  function Cleaned(text: string): (r: string)
    ensures |r| == |text| && forall i | 0 <= i < |r| :: IdChar(r[i])
  {
    seq(|text|, i requires 0 <= i < |text| => if IdChar(text[i]) then text[i] else '.')
  }

  function CleanId(text: string): string {
    if |text| <= 72 then Cleaned(text) else Cleaned(text)[..72]
  }

  function OperationText(authorization: string, op: Operation): string {
    match op
    case Submission(action, attempt, index) =>
      CleanId(authorization) + ":" + action + ":" + Digits(attempt) + ":" + Digits(index)
    case Revoke(action, attempt) =>
      CleanId(authorization) + ":" + action + ":" + Digits(attempt) + ":" + "revoke"
  }

  /** The name under which a retry key is kept. */
  function NameText(name: Name): string {
    match name
    case Source(step, action) => "source_" + Digits(step) + "_" + action
    case Output(step) => "output_" + Digits(step)
  }

  function RefreshKind(step: nat): string {
    "ready_" + Digits(step)
  }

  function KeyText(authorization: string, kind: string, number: nat): string {
    CleanId(authorization) + "." + CleanId(kind) + "." + Digits(number)
  }

  // ----- splitting at a separator that the parts do not contain -----

  predicate Without(text: string, c: char) {
    forall i | 0 <= i < |text| :: text[i] != c
  }

  lemma DigitsWithout(n: nat, c: char)
    requires !IsDigit(c)
    ensures Without(Digits(n), c)
  {
  }

  /** The part after the last separator is determined by the whole text. */
  lemma LastPart(a: string, b: string, x: string, y: string, c: char)
    requires a + [c] + x == b + [c] + y && Without(x, c) && Without(y, c)
    ensures a == b && x == y
  {
    var whole := a + [c] + x;
    assert whole[|a|] == c && whole[|b|] == c;
    assert a == whole[..|a|] && x == whole[|a| + 1..];
    assert b == whole[..|b|] && y == whole[|b| + 1..];
  }

  /** The part before the first separator is determined by the whole text. */
  lemma FirstPart(x: string, y: string, a: string, b: string, c: char)
    requires x + [c] + a == y + [c] + b && Without(x, c) && Without(y, c)
    ensures x == y && a == b
  {
    var whole := x + [c] + a;
    assert whole[|x|] == c && whole[|y|] == c;
    assert x == whole[..|x|] && a == whole[|x| + 1..];
    assert y == whole[..|y|] && b == whole[|y| + 1..];
  }

  function Slot(op: Operation): string {
    match op
    case Submission(_, _, index) => Digits(index)
    case Revoke(_, _) => "revoke"
  }

  lemma SameSuffix(p: string, x: string, y: string)
    requires p + x == p + y
    ensures x == y
  {
    assert x == (p + x)[|p|..] && y == (p + y)[|p|..];
  }

  /** Different operations of one authorization have different ids, whatever characters action ids contain. */
  lemma OperationTextInjective(authorization: string, p: Operation, q: Operation)
    requires OperationText(authorization, p) == OperationText(authorization, q)
    ensures p == q
  {
    var start := CleanId(authorization) + ":";
    DigitsWithout(p.attempt, ':');
    DigitsWithout(q.attempt, ':');
    assert Without(Slot(p), ':') && Without(Slot(q), ':');
    var leftP, leftQ := start + p.action + ":" + Digits(p.attempt), start + q.action + ":" + Digits(q.attempt);
    assert OperationText(authorization, p) == leftP + [':'] + Slot(p);
    assert OperationText(authorization, q) == leftQ + [':'] + Slot(q);
    LastPart(leftP, leftQ, Slot(p), Slot(q), ':');
    LastPart(start + p.action, start + q.action, Digits(p.attempt), Digits(q.attempt), ':');
    SameSuffix(start, p.action, q.action);
    DigitsInjective(p.attempt, q.attempt);
    SlotInjective(p, q);
  }

  lemma SlotInjective(p: Operation, q: Operation)
    requires Slot(p) == Slot(q) && p.action == q.action && p.attempt == q.attempt
    ensures p == q
  {
    assert IsDigit(Slot(p)[0]) <==> p.Submission?;
    assert IsDigit(Slot(q)[0]) <==> q.Submission?;
    if p.Submission? && q.Submission? {
      DigitsInjective(p.index, q.index);
    }
  }

  /** Keys with different operation numbers are different texts, whatever kinds they were made for. */
  lemma KeyTextDetermines(authorization: string, kind: string, other: string, m: nat, n: nat)
    requires KeyText(authorization, kind, m) == KeyText(authorization, other, n)
    ensures m == n
  {
    var a, b := CleanId(authorization) + "." + CleanId(kind), CleanId(authorization) + "." + CleanId(other);
    DigitsWithout(m, '.');
    DigitsWithout(n, '.');
    LastPart(a, b, Digits(m), Digits(n), '.');
    DigitsInjective(m, n);
  }

  /** Different names are kept apart in the table of keys. */
  lemma NameTextInjective(p: Name, q: Name)
    requires NameText(p) == NameText(q)
    ensures p == q
  {
    assert NameText(p)[0] == NameText(q)[0];
    match p
    case Source(step, action) =>
      assert NameText(q)[0] == 's';
      DigitsWithout(step, '_');
      DigitsWithout(q.step, '_');
      assert NameText(p) == "source_" + (Digits(step) + ['_'] + action);
      assert NameText(q) == "source_" + (Digits(q.step) + ['_'] + q.action);
      SameSuffix("source_", Digits(step) + ['_'] + action, Digits(q.step) + ['_'] + q.action);
      FirstPart(Digits(step), Digits(q.step), action, q.action, '_');
      DigitsInjective(step, q.step);
    case Output(step) =>
      assert NameText(q)[0] == 'o';
      SameSuffix("output_", Digits(step), Digits(q.step));
      DigitsInjective(step, q.step);
  }

  /** What the texts look like. */
  lemma TextsOf()
    ensures OperationText("buyer 01", Submission("a-1", 1, 0)) == "buyer.01:a-1:1:0"
    ensures OperationText("buyer 01", Revoke("a-1", 2)) == "buyer.01:a-1:2:revoke"
    ensures NameText(Source(3, "a-1")) == "source_3_a-1" && NameText(Output(4)) == "output_4" && RefreshKind(5) == "ready_5"
    ensures KeyText("buyer 01", "ready_5", 12) == "buyer.01.ready_5.12"
  {
    assert CleanId("buyer 01") == "buyer.01" && CleanId("ready_5") == "ready_5";
    assert Digits(12) == Digits(1) + Digits(2);
  }

  function Cut(text: string): nat {
    if |text| <= 72 then |text| else 72
  }

  /** A key can be made exactly when it is neither too short nor too long; authorization and kind are cut to 72
      characters each, which may still be too much for both. */
  lemma KeyTextValidIff(authorization: string, kind: string, number: nat)
    ensures ValidId(KeyText(authorization, kind, number)) <==> 6 <= Cut(authorization) + Cut(kind) + |Digits(number)| <= 126
  {
    var a, k, d := CleanId(authorization), CleanId(kind), Digits(number);
    assert |a| == Cut(authorization) && |k| == Cut(kind);
    assert forall i | 0 <= i < |d| :: IsDigit(d[i]);
    assert forall i | 0 <= i < |KeyText(authorization, kind, number)| :: IdChar(KeyText(authorization, kind, number)[i]);
  }
}
