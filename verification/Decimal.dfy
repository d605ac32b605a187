/** Go's %d on naturals and the digits fmt.Sscanf reads back. */
module Decimal {
  import opened Common

  const DIGIT_ZERO := 48
  const DOT := 46

  predicate IsDigit(b: int) { DIGIT_ZERO <= b <= DIGIT_ZERO + 9 }

  /** fmt.Sprintf("%d", n). */
  function Print(n: nat): (r: Bytes)
    ensures |r| > 0 && forall b <- r :: IsDigit(b)
  {
    if n < 10 then [DIGIT_ZERO + n] else Print(n / 10) + [DIGIT_ZERO + n % 10]
  }

  /** How many digits `s` starts with. */
  function DigitRun(s: Bytes): (k: nat)
    ensures k <= |s| && (forall i | 0 <= i < k :: IsDigit(s[i])) && (k < |s| ==> !IsDigit(s[k]))
  {
    if s == [] || !IsDigit(s[0]) then 0 else 1 + DigitRun(s[1..])
  }

  function Value(digits: Bytes): nat
    requires forall b <- digits :: IsDigit(b)
  {
    if digits == [] then 0
    else
      var last: int := digits[|digits| - 1];
      assert digits[|digits| - 1] in digits && IsDigit(last);
      Value(digits[..|digits| - 1]) * 10 + (last - DIGIT_ZERO)
  }

  /** The number `s` starts with, if it starts with one that fits a uint64. */
  function Scan(s: Bytes): Option<nat> {
    var k := DigitRun(s);
    if k == 0 || Value(s[..k]) >= TWO64 then None else Some(Value(s[..k]))
  }

  /** The digits of a number in base ten, the last one being what is left of whole tens. */
  lemma {:induction false} PrintDigits(n: nat)
    ensures var last := |Print(n)| - 1;
      && Print(n)[last] == 48 + n % 10
      && Print(n)[..last] == if n < 10 then [] else Print(n / 10)
  {
  }

  /** Another digit makes ten times the value and the digit. */
  lemma {:induction false} ValueMore(digits: Bytes, d: Byte)
    requires (forall b <- digits :: IsDigit(b)) && d < 10
    ensures forall b <- digits + [48 + d] :: IsDigit(b)
    ensures Value(digits + [48 + d]) == 10 * Value(digits) + d && Value([]) == 0
  {
    assert (digits + [48 + d])[..|digits|] == digits;
  }

  lemma {:induction false} ValueOfPrint(n: nat)
    ensures Value(Print(n)) == n
  {
    if n >= 10 {
      ValueOfPrint(n / 10);
      assert Print(n)[..|Print(n)| - 1] == Print(n / 10);
    } else {
      assert Print(n)[..0] == [];
    }
  }

  lemma {:induction false} DigitRunOfPrint(n: nat, rest: Bytes)
    requires rest == [] || !IsDigit(rest[0])
    ensures DigitRun(Print(n) + rest) == |Print(n)|
    ensures (Print(n) + rest)[..|Print(n)|] == Print(n)
  {
    var s := Print(n) + rest;
    var p := |Print(n)|;
    assert forall i | 0 <= i < p :: s[i] in Print(n);
    assert rest != [] ==> s[p] == rest[0];
  }

  /** Scanning what was printed gives the number back, whatever follows it, if it fits a uint64, and else nothing. */
  lemma {:induction false} ScanOfPrint(n: nat, rest: Bytes)
    requires rest == [] || !(48 <= rest[0] <= 57)
    ensures Scan(Print(n) + rest) == if n < TWO64 then Some(n) else None
  {
    ValueOfPrint(n);
    DigitRunOfPrint(n, rest);
  }

  /** A number printed before a dot can be told from any other. */
  lemma {:induction false} PrintDotInjective(m: nat, x: Bytes, n: nat, y: Bytes)
    requires Print(m) + [DOT] + x == Print(n) + [DOT] + y
    ensures m == n && x == y
  {
    NumberBeforeDot(m, x);
    NumberBeforeDot(n, y);
    SplitAtDot(Print(m), x, Print(n), y);
    PrintInjective(m, n);
  }

  lemma {:induction false} NumberBeforeDot(n: nat, x: Bytes)
    ensures DigitRun(Print(n) + [DOT] + x) == |Print(n)|
  {
    var rest: Bytes := [DOT] + x;
    assert Print(n) + [DOT] + x == Print(n) + rest;
    DigitRunOfPrint(n, rest);
  }

  lemma {:induction false} SplitAtDot(a: Bytes, x: Bytes, b: Bytes, y: Bytes)
    requires |a| == |b| && a + [DOT] + x == b + [DOT] + y
    ensures a == b && x == y
  {
    assert (a + [DOT] + x)[..|a|] == a && (b + [DOT] + y)[..|b|] == b;
    assert (a + [DOT] + x)[|a| + 1..] == x && (b + [DOT] + y)[|b| + 1..] == y;
  }

  lemma {:induction false} PrintInjective(m: nat, n: nat)
    requires Print(m) == Print(n)
    ensures m == n
  {
    ValueOfPrint(m);
    ValueOfPrint(n);
  }
}
