/** The check-digit test applied to card candidates (`_luhn_valid`), and its error-detection
    guarantees (Annex B of ISO/IEC 7812-1) for digit strings of every length. */
module Luhn {

  type Digit = d: int | 0 <= d <= 9

  /** What one digit adds to the total when it stands `fromRight` places from the right end. */
  function Weighted(digit: Digit, fromRight: nat): (w: Digit)
  {
    if fromRight % 2 == 0 then digit
    else if 2 * digit > 9 then 2 * digit - 9
    else 2 * digit
  }

  /** The positional sum, read left to right. */
  function Total(digits: seq<Digit>): nat
  {
    if digits == [] then 0 else Weighted(digits[0], |digits| - 1) + Total(digits[1..])
  }

  predicate Valid(digits: seq<Digit>)
  {
    Total(digits) % 10 == 0
  }

  /** The source's loop: digits from right to left, every second one doubled and reduced. */
  method LuhnValid(value: seq<Digit>) returns (valid: bool)
    ensures valid <==> Valid(value)
  {
    var total := 0;
    var index := 0;
    while index < |value|
      invariant 0 <= index <= |value|
      invariant total == Total(value[|value| - index..])
    {
      var tail := value[|value| - index - 1..];
      assert tail[1..] == value[|value| - index..];
      var digit: int := value[|value| - 1 - index];
      if index % 2 == 1 {
        digit := digit * 2;
        if digit > 9 {
          digit := digit - 9;
        }
      }
      total := total + digit;
      index := index + 1;
    }
    assert value[|value| - index..] == value;
    valid := total % 10 == 0;
  }

  /** Replacing one digit moves the total by the difference of the two weighted digits. */
  lemma {:induction false} TotalAfterChange(digits: seq<Digit>, i: nat, d: Digit)
    requires i < |digits|
    ensures Total(digits[i := d])
         == Total(digits) - Weighted(digits[i], |digits| - 1 - i) + Weighted(d, |digits| - 1 - i)
  {
    var changed := digits[i := d];
    if i == 0 {
      assert changed[1..] == digits[1..];
    } else {
      assert changed[1..] == digits[1..][i - 1 := d];
      TotalAfterChange(digits[1..], i - 1, d);
    }
  }

  /** At a fixed place, distinct digits have distinct weights. */
  lemma {:induction false} WeightedInjective(a: Digit, b: Digit, fromRight: nat)
    requires Weighted(a, fromRight) == Weighted(b, fromRight)
    ensures a == b
  {
  }

  lemma {:induction false} ChangeDetected(total: int, was: Digit, d: Digit, place: nat)
    requires total % 10 == 0
    ensures (total - Weighted(was, place) + Weighted(d, place)) % 10 == 0 <==> d == was
  {
    var delta: int := Weighted(d, place) - Weighted(was, place);
    TensUnchanged(total, delta);
    assert -9 <= delta <= 9;
    if delta == 0 {
      WeightedInjective(d, was, place);
    }
  }

  /** Changing one digit of a valid string keeps it valid only if nothing changed. */
  lemma {:induction false} SingleDigitErrorDetected(digits: seq<Digit>, i: nat, d: Digit)
    requires i < |digits| && Valid(digits)
    ensures Valid(digits[i := d]) <==> d == digits[i]
  {
    var place := |digits| - 1 - i;
    TotalAfterChange(digits, i, d);
    ChangeDetected(Total(digits), digits[i], d, place);
  }

  /** Adding `delta` to a multiple of ten gives a multiple of ten exactly when `delta` is one. */
  lemma {:induction false} TensUnchanged(total: int, delta: int)
    requires total % 10 == 0
    ensures (total + delta) % 10 == 0 <==> delta % 10 == 0
  {
    var k := total / 10;
    assert (total + delta) - 10 * k == delta;
  }

  function Swapped(digits: seq<Digit>, i: nat): (r: seq<Digit>)
    requires i + 1 < |digits|
    ensures |r| == |digits| && r[i] == digits[i + 1] && r[i + 1] == digits[i]
    ensures forall j | 0 <= j < |digits| && j != i && j != i + 1 :: r[j] == digits[j]
  {
    digits[i := digits[i + 1]][i + 1 := digits[i]]
  }

  /** Swapping two different neighbours of a valid string goes unnoticed exactly for 0 and 9. */
  lemma {:induction false} AdjacentTranspositionDetected(digits: seq<Digit>, i: nat)
    requires i + 1 < |digits| && Valid(digits) && digits[i] != digits[i + 1]
    ensures Valid(Swapped(digits, i))
       <==> (digits[i] == 0 && digits[i + 1] == 9) || (digits[i] == 9 && digits[i + 1] == 0)
  {
    var a, b := digits[i], digits[i + 1];
    TotalAfterChange(digits, i, b);
    TotalAfterChange(digits[i := b], i + 1, a);
    var place := |digits| - 2 - i;
    SwapDifference(a, b, place);
    TensUnchanged(Total(digits), Total(Swapped(digits, i)) - Total(digits));
  }

  /** How much a digit gains when it is doubled and reduced. */
  function Gap(d: Digit): int
  {
    if d < 5 then d else d - 9
  }

  lemma {:induction false} SwapDifference(a: Digit, b: Digit, place: nat)
    requires a != b
    ensures (Weighted(b, place + 1) + Weighted(a, place) - Weighted(a, place + 1) - Weighted(b, place)) % 10 == 0
       <==> (a == 0 && b == 9) || (a == 9 && b == 0)
  {
    var change := Weighted(b, place + 1) + Weighted(a, place) - Weighted(a, place + 1) - Weighted(b, place);
    if place % 2 == 0 {
      assert change == Gap(b) - Gap(a);
    } else {
      assert change == Gap(a) - Gap(b);
    }
    assert -8 <= change <= 8;
    assert Gap(a) == Gap(b) <==> (a == 0 && b == 9) || (a == 9 && b == 0);
  }

  function CheckDigit(prefix: seq<Digit>): Digit
  {
    (10 - Total(prefix + [0]) % 10) % 10
  }

  /** Every prefix has exactly one valid check digit. */
  lemma {:induction false} UniqueCheckDigit(prefix: seq<Digit>, e: Digit)
    ensures Valid(prefix + [e]) <==> e == CheckDigit(prefix)
  {
    TotalAfterChange(prefix + [0], |prefix|, e);
    assert (prefix + [0])[|prefix| := e] == prefix + [e];
    Complement(Total(prefix + [0]), e);
  }

  lemma {:induction false} Complement(total: nat, e: Digit)
    ensures (total + e) % 10 == 0 <==> e == (10 - total % 10) % 10
  {
    var r := total % 10;
    assert total + e == 10 * (total / 10) + (r + e);
    TensUnchanged(10 * (total / 10), r + e);
  }
}
