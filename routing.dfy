/** The ABA routing-number check: nine digits whose 3-7-1 weighted sum is a multiple of 10. */
module Routing {
  import opened Wrappers
  import opened Text

  /** `parseInt(d, 10)` on one character: its digit value, or `None` for NaN. */
  function ParseDigit(c: char): (r: Option<nat>)
    ensures r.Some? <==> IsDigit(c)
    ensures r.Some? ==> r.value == DigitValue(c)
  {
    if IsDigit(c) then Some(DigitValue(c)) else None
  }

  /** `isValidRoutingNumber`, with the per-digit parse and its NaN guard as the source has them. */
  function IsValidRoutingNumber(routing: string): (ok: bool)
    ensures ok ==> |routing| == 9 && AllDigits(routing)
  {
    if !(|routing| == 9 && AllDigits(routing)) then false
    else
      var digits := seq(|routing|, i requires 0 <= i < |routing| => ParseDigit(routing[i]));
      if |digits| != 9 || exists i :: 0 <= i < |digits| && digits[i].None? then false
      else
        var checksum :=
          3 * (digits[0].value + digits[3].value + digits[6].value) +
          7 * (digits[1].value + digits[4].value + digits[7].value) +
          1 * (digits[2].value + digits[5].value + digits[8].value);
        checksum % 10 == 0
  }

  /** The weight of the digit at (zero-based) position `i`: 3, 7, 1, repeating. */
  function Weight(i: nat): (w: nat)
    ensures w == 1 || w == 3 || w == 7
  {
    if i % 3 == 0 then 3 else if i % 3 == 1 then 7 else 1
  }

  /** The weighted digit sum, position by position. */
  function WeightedSum(s: string): nat
    requires AllDigits(s)
  {
    if s == [] then 0 else WeightedSum(s[..|s| - 1]) + Weight(|s| - 1) * DigitValue(s[|s| - 1])
  }

  lemma WeightedStep(s: string, k: nat)
    requires AllDigits(s) && 0 < k <= |s|
    ensures WeightedSum(s[..k]) == WeightedSum(s[..k - 1]) + Weight(k - 1) * DigitValue(s[k - 1])
  {
    assert s[..k][..k - 1] == s[..k - 1];
  }

  /** The 3-7-1 sum written out for nine digits: 3*(d1+d4+d7) + 7*(d2+d5+d8) + (d3+d6+d9). */
  lemma WeightedSumNine(s: string)
    requires |s| == 9 && AllDigits(s)
    ensures WeightedSum(s) ==
      3 * (DigitValue(s[0]) + DigitValue(s[3]) + DigitValue(s[6])) +
      7 * (DigitValue(s[1]) + DigitValue(s[4]) + DigitValue(s[7])) +
      1 * (DigitValue(s[2]) + DigitValue(s[5]) + DigitValue(s[8]))
  {
    assert s[..0] == [];
    WeightedStep(s, 1); WeightedStep(s, 2); WeightedStep(s, 3);
    WeightedStep(s, 4); WeightedStep(s, 5); WeightedStep(s, 6);
    WeightedStep(s, 7); WeightedStep(s, 8); WeightedStep(s, 9);
    assert s[..9] == s;
  }

  /** The digit-parsing guard never fires for input that passed the nine-digit test, and the explicit
      formula is the weighted sum: the check is exactly "nine digits, weighted sum divisible by 10". */
  lemma RoutingNumberMeaning(routing: string)
    ensures IsValidRoutingNumber(routing) <==> |routing| == 9 && AllDigits(routing) && WeightedSum(routing) % 10 == 0
  {
    if |routing| == 9 && AllDigits(routing) {
      var s := routing;
      var digits := seq(|s|, i requires 0 <= i < |s| => ParseDigit(s[i]));
      assert forall i :: 0 <= i < 9 ==> digits[i] == Some(DigitValue(s[i]));
      WeightedSumNine(s);
    }
  }

  /** Two digit strings that differ in one position only: their weighted sums differ by that position's term. */
  lemma {:induction false} WeightedSumOneDigitApart(s: string, t: string, k: nat)
    requires |s| == |t| && AllDigits(s) && AllDigits(t) && k < |s|
    requires forall i :: 0 <= i < |s| && i != k ==> s[i] == t[i]
    ensures WeightedSum(s) - WeightedSum(t) == Weight(k) * (DigitValue(s[k]) - DigitValue(t[k]))
  {
    var n := |s|;
    if k == n - 1 {
      assert s[..n - 1] == t[..n - 1];
    } else {
      WeightedSumOneDigitApart(s[..n - 1], t[..n - 1], k);
    }
  }

  /** 3, 7 and 1 share no factor with 10, so no non-zero digit change of at most 9 is a multiple of 10. */
  lemma WeightedChangeNotMultipleOfTen(w: nat, delta: int)
    requires w == 1 || w == 3 || w == 7
    requires -9 <= delta <= 9 && delta != 0
    ensures (w * delta) % 10 != 0
  {
  }

  lemma MultiplesOfTenDiffer(x: int, y: int)
    requires x % 10 == 0 && y % 10 == 0
    ensures (x - y) % 10 == 0
  {
    assert x == 10 * (x / 10) && y == 10 * (y / 10);
    assert x - y == 10 * (x / 10 - y / 10);
  }

  /** The checksum detects every single-digit error: of two nine-digit strings differing in one
      position, at most one passes. */
  lemma RoutingDetectsSingleDigitError(s: string, t: string, k: nat)
    requires |s| == |t| == 9 && AllDigits(s) && AllDigits(t) && k < 9
    requires forall i :: 0 <= i < 9 && i != k ==> s[i] == t[i]
    requires s[k] != t[k]
    ensures !(IsValidRoutingNumber(s) && IsValidRoutingNumber(t))
  {
    RoutingNumberMeaning(s);
    RoutingNumberMeaning(t);
    WeightedSumOneDigitApart(s, t, k);
    var delta: int := DigitValue(s[k]) - DigitValue(t[k]);
    var change: int := Weight(k) * delta;
    WeightedChangeNotMultipleOfTen(Weight(k), delta);
    var x: int, y: int := WeightedSum(s), WeightedSum(t);
    assert x - y == change;
    if x % 10 == 0 && y % 10 == 0 {
      MultiplesOfTenDiffer(x, y);
    }
  }

  lemma RoutingExamples()
    ensures IsValidRoutingNumber("021000021")
    ensures !IsValidRoutingNumber("123456789")
  {
    var digits := seq(9, i requires 0 <= i < 9 => ParseDigit("021000021"[i]));
    assert !exists i :: 0 <= i < |digits| && digits[i].None?;
    var digits' := seq(9, i requires 0 <= i < 9 => ParseDigit("123456789"[i]));
    assert !exists i :: 0 <= i < |digits'| && digits'[i].None?;
  }
}
