/**
 The checksum that decides whether a run of digits is masked as a card number: the loop of the
 redactor against the alternating sum of ISO/IEC 7812-1 Annex B, and the errors that sum detects.
 */
module CardNumbers {

  type Digit = d: int | 0 <= d < 10 witness 0

  predicate IsDigit(c: char) {
    '0' <= c <= '9'
  }

  function ValueOf(c: char): Digit
    requires IsDigit(c)
  {
    c as int - '0' as int
  }

  /** The digits of a text, everything else removed. */
  function DigitsOf(s: string): seq<Digit> {
    if s == [] then []
    else (if IsDigit(s[0]) then [ValueOf(s[0])] else []) + DigitsOf(s[1..])
  }

  /** The digits of the double of a digit, added up. */
  function Doubled(d: Digit): Digit {
    2 * d / 10 + 2 * d % 10
  }

  /** Doubling adds 0 to 4 to a digit, or takes 4 to 0 away. */
  lemma GainOfDoubling(d: Digit)
    ensures Doubled(d) == if d < 5 then 2 * d else 2 * d - 9
  {
  }

  predicate Odd(place: nat) {
    place % 2 == 1
  }

  /**
   Definition: a digit counts as it is in an even place from the right; in an odd one, as the
   digits of its double.
   */
  function Weight(d: Digit, odd: bool): Digit {
    if odd then Doubled(d) else d
  }

  /** The sum of the digits, `shift` places to the left of the right end. */
  function Sum(ds: seq<Digit>, shift: nat): nat {
    if ds == [] then 0 else Weight(ds[0], Odd(|ds| - 1 + shift)) + Sum(ds[1..], shift)
  }

  predicate Valid(ds: seq<Digit>) {
    Sum(ds, 0) % 10 == 0
  }

  predicate IsCardNumber(s: string) {
    13 <= |DigitsOf(s)| <= 19 && Valid(DigitsOf(s))
  }

  lemma SumStep(digits: seq<Digit>, i: nat)
    requires i < |digits|
    ensures Sum(digits[i..], 0) == Weight(digits[i], Odd(|digits| - 1 - i)) + Sum(digits[i + 1..], 0)
  {
    assert digits[i..][1..] == digits[i + 1..];
  }

  method Luhn(candidate: string) returns (valid: bool)
    ensures valid <==> IsCardNumber(candidate)
  {
    var digits := DigitsOf(candidate);
    if |digits| < 13 || |digits| > 19 {
      return false;
    }
    var sum, double := 0, false;
    var i := |digits| - 1;
    while i >= 0
      invariant -1 <= i < |digits|
      invariant double == Odd(|digits| - 1 - i)
      invariant sum == Sum(digits[i + 1..], 0)
    {
      var digit: int := digits[i];
      if double {
        digit := digit * 2;
        if digit > 9 {
          digit := digit - 9;
        }
      }
      GainOfDoubling(digits[i]);
      SumStep(digits, i);
      sum := sum + digit;
      double := !double;
      i := i - 1;
    }
    assert digits[0..] == digits;
    valid := sum % 10 == 0;
  }

  // ---------------------------------------------------------------- the errors it detects

  lemma {:induction false} SumConcat(a: seq<Digit>, b: seq<Digit>, shift: nat)
    ensures Sum(a + b, shift) == Sum(a, |b| + shift) + Sum(b, shift)
  {
    if a == [] {
      assert a + b == b;
    } else {
      assert (a + b)[1..] == a[1..] + b;
      SumConcat(a[1..], b, shift);
    }
  }

  lemma SumOfOne(d: Digit, shift: nat)
    ensures Sum([d], shift) == Weight(d, Odd(shift))
  {
    assert Sum([], shift) == 0;
  }

  lemma SumOfTwo(x: Digit, y: Digit, shift: nat)
    ensures Sum([x, y], shift) == Weight(x, !Odd(shift)) + Weight(y, Odd(shift))
  {
    assert [x] + [y] == [x, y];
    SumConcat([x], [y], shift);
    SumOfOne(x, shift + 1);
    SumOfOne(y, shift);
  }

  lemma SumAround(a: seq<Digit>, middle: seq<Digit>, b: seq<Digit>)
    ensures Sum(a + middle + b, 0) == Sum(a, |middle| + |b|) + Sum(middle, |b|) + Sum(b, 0)
  {
    SumConcat(a + middle, b, 0);
    SumConcat(a, middle, |b|);
  }

  /** Doubling permutes the digits. */
  lemma WeightIsInjective(x: Digit, y: Digit, odd: bool)
    ensures Weight(x, odd) == Weight(y, odd) ==> x == y
  {
    GainOfDoubling(x);
    GainOfDoubling(y);
  }

  lemma NearResidues(base: int, u: int, v: int)
    requires -10 < u - v < 10
    ensures (base + u) % 10 == (base + v) % 10 <==> u == v
  {
    var p, q := (base + u) / 10, (base + v) / 10;
    if (base + u) % 10 == (base + v) % 10 {
      assert u - v == 10 * (p - q);
    }
  }

  /** Replacing one digit always changes the sum modulo ten. */
  lemma OneDigitChangesTheSum(a: seq<Digit>, x: Digit, y: Digit, b: seq<Digit>)
    ensures Sum(a + [x] + b, 0) % 10 == Sum(a + [y] + b, 0) % 10 <==> x == y
  {
    SumAround(a, [x], b);
    SumAround(a, [y], b);
    SumOfOne(x, |b|);
    SumOfOne(y, |b|);
    WeightIsInjective(x, y, Odd(|b|));
    NearResidues(Sum(a, 1 + |b|) + Sum(b, 0), Weight(x, Odd(|b|)), Weight(y, Odd(|b|)));
  }

  /** Exchanging two neighbouring digits changes the sum modulo ten, except equal digits and a 0 beside a 9. */
  lemma SwapChangesTheSum(a: seq<Digit>, x: Digit, y: Digit, b: seq<Digit>)
    ensures Sum(a + [x, y] + b, 0) % 10 == Sum(a + [y, x] + b, 0) % 10 <==> x == y || NineBesideZero(x, y)
  {
    SumAround(a, [x, y], b);
    SumAround(a, [y, x], b);
    SumOfTwo(x, y, |b|);
    SumOfTwo(y, x, |b|);
    SwappedWeights(x, y, Odd(|b|));
    NearResidues(Sum(a, 2 + |b|) + Sum(b, 0), Sum([x, y], |b|), Sum([y, x], |b|));
  }

  predicate NineBesideZero(x: Digit, y: Digit) {
    (x == 0 && y == 9) || (x == 9 && y == 0)
  }

  lemma SwappedWeights(x: Digit, y: Digit, odd: bool)
    ensures var u, v := Weight(x, !odd) + Weight(y, odd), Weight(y, !odd) + Weight(x, odd);
      -10 < u - v < 10 && (u == v <==> x == y || NineBesideZero(x, y))
  {
    GainOfDoubling(x);
    GainOfDoubling(y);
  }

  // ---------------------------------------------------------------- on texts

  /** `n` zeros, of which any number sums to zero. */
  function Zeros(n: nat): string {
    if n == 0 then "" else Zeros(n - 1) + "0"
  }

  lemma {:induction false} ZerosSumToZero(n: nat)
    ensures |DigitsOf(Zeros(n))| == n && forall i :: 0 <= i < n ==> DigitsOf(Zeros(n))[i] == 0
  {
    if n > 0 {
      ZerosSumToZero(n - 1);
      DigitsOfConcat(Zeros(n - 1), "0");
      DigitsOfOne('0');
    }
  }

  lemma {:induction false} ZeroSum(ds: seq<Digit>, shift: nat)
    requires forall i :: 0 <= i < |ds| ==> ds[i] == 0
    ensures Sum(ds, shift) == 0
  {
    if ds != [] { ZeroSum(ds[1..], shift); }
  }

  /** Which lengths are card numbers, told by numbers whose sum is right: 13 to 19 digits. */
  lemma LengthsAreThirteenToNineteen(n: nat)
    ensures IsCardNumber(Zeros(n)) <==> 13 <= n <= 19
  {
    ZerosSumToZero(n);
    ZeroSum(DigitsOf(Zeros(n)), 0);
  }

  /** What is no digit makes no difference, wherever it stands. */
  lemma SeparatorsDoNotCount(s: string, c: char, t: string)
    requires !('0' <= c <= '9')
    ensures IsCardNumber(s + [c] + t) <==> IsCardNumber(s + t)
  {
    DigitsAround(s, [c], t);
    DigitsOfConcat(s, t);
    assert DigitsOf([c]) == [] && DigitsOf(s) + [] == DigitsOf(s);
  }

  lemma {:induction false} DigitsOfConcat(s: string, t: string)
    ensures DigitsOf(s + t) == DigitsOf(s) + DigitsOf(t)
  {
    if s == [] {
      assert s + t == t;
    } else {
      DigitsOfConcat(s[1..], t);
      var first := if IsDigit(s[0]) then [ValueOf(s[0])] else [];
      calc {
        DigitsOf(s + t);
        { assert (s + t)[1..] == s[1..] + t; }
        first + DigitsOf(s[1..] + t);
        first + (DigitsOf(s[1..]) + DigitsOf(t));
        (first + DigitsOf(s[1..])) + DigitsOf(t);
      }
    }
  }

  /** Mistyping one digit of a card number, wherever separators stand, never gives another card number. */
  lemma MistypedDigitIsDetected(s: string, c: char, t: string, wrong: char)
    requires '0' <= c <= '9' && '0' <= wrong <= '9' && c != wrong
    requires IsCardNumber(s + [c] + t)
    ensures !IsCardNumber(s + [wrong] + t)
  {
    DigitsAround(s, [c], t);
    DigitsAround(s, [wrong], t);
    DigitsOfOne(c);
    DigitsOfOne(wrong);
    OneDigitChangesTheSum(DigitsOf(s), ValueOf(c), ValueOf(wrong), DigitsOf(t));
  }

  lemma DigitsAround(s: string, middle: string, t: string)
    ensures DigitsOf(s + middle + t) == DigitsOf(s) + DigitsOf(middle) + DigitsOf(t)
  {
    DigitsOfConcat(s + middle, t);
    DigitsOfConcat(s, middle);
  }

  lemma DigitsOfOne(c: char)
    requires IsDigit(c)
    ensures DigitsOf([c]) == [ValueOf(c)]
  {
    assert DigitsOf([]) == [];
  }

  lemma DigitsOfTwo(c: char, d: char)
    requires IsDigit(c) && IsDigit(d)
    ensures DigitsOf([c, d]) == [ValueOf(c), ValueOf(d)]
  {
    DigitsOfConcat([c], [d]);
    DigitsOfOne(c);
    DigitsOfOne(d);
    assert [c] + [d] == [c, d];
  }

  /** Exchanging two neighbouring digits of a card number gives another one exactly for equal digits and 0 beside 9. */
  lemma SwappedDigitsAreDetected(s: string, c: char, d: char, t: string)
    requires '0' <= c <= '9' && '0' <= d <= '9' && IsCardNumber(s + [c, d] + t)
    ensures IsCardNumber(s + [d, c] + t) <==> c == d || (c == '0' && d == '9') || (c == '9' && d == '0')
  {
    DigitsAround(s, [c, d], t);
    DigitsAround(s, [d, c], t);
    DigitsOfTwo(c, d);
    DigitsOfTwo(d, c);
    SwapChangesTheSum(DigitsOf(s), ValueOf(c), ValueOf(d), DigitsOf(t));
  }

  /** Any digits are completed to a valid number by exactly one check digit. */
  lemma OneCheckDigit(ds: seq<Digit>, d: Digit)
    ensures Valid(ds + [d]) <==> d == (10 - Sum(ds, 1) % 10) % 10
  {
    CheckedSum(ds, d);
    CheckResidue(Sum(ds, 1), d);
  }

  lemma CheckedSum(ds: seq<Digit>, d: Digit)
    ensures Sum(ds + [d], 0) == Sum(ds, 1) + d
  {
    SumConcat(ds, [d], 0);
    SumOfOne(d, 0);
  }

  lemma CheckResidue(sum: nat, d: Digit)
    ensures (sum + d) % 10 == 0 <==> d == (10 - sum % 10) % 10
  {
  }
}
