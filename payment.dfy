/**
 * Card-number checks: normalisation (spaces and hyphens removed), the Luhn mod-10 check
 * digit of ISO/IEC 7812-1 Annex B, and the network table used for display.
 */
module Payment {
  import opened Text

  /** The characters `normalizeCardNumber` deletes: the class `\s` and the hyphen. */
  predicate IsSeparator(c: char) {
    IsJsWhitespace(c) || c == '-'
  }

  /** `normalizeCardNumber`: every separator deleted, every other character kept in order. */
  function NormalizeCardNumber(s: string): (r: string)
    ensures forall i :: 0 <= i < |r| ==> !IsSeparator(r[i])
    ensures |r| <= |s|
  {
    if s == [] then []
    else if IsSeparator(s[0]) then NormalizeCardNumber(s[1..])
    else [s[0]] + NormalizeCardNumber(s[1..])
  }

  /** Normalising keeps every other character, as many times as it occurs. */
  lemma {:induction false} NormalizeKeepsOthers(s: string, c: char)
    requires !IsSeparator(c)
    ensures multiset(NormalizeCardNumber(s))[c] == multiset(s)[c]
  {
    if s != [] {
      assert s == [s[0]] + s[1..];
      NormalizeKeepsOthers(s[1..], c);
    }
  }

  /** Normalising a concatenation normalises each part: the kept characters stay in order. */
  lemma {:induction false} NormalizeConcat(a: string, b: string)
    ensures NormalizeCardNumber(a + b) == NormalizeCardNumber(a) + NormalizeCardNumber(b)
  {
    if a == [] {
      assert a + b == b;
    } else {
      assert (a + b)[1..] == a[1..] + b;
      NormalizeConcat(a[1..], b);
    }
  }

  /** A string without separators is its own normal form; so normalising twice is normalising once. */
  lemma {:induction false} NormalizeFixed(s: string)
    requires forall i :: 0 <= i < |s| ==> !IsSeparator(s[i])
    ensures NormalizeCardNumber(s) == s
  {
    if s != [] {
      NormalizeFixed(s[1..]);
    }
  }

  /** A string of digits is already normalised. */
  lemma DigitsAreNormal(s: string)
    requires AllDigits(s)
    ensures NormalizeCardNumber(s) == s
  {
    NormalizeFixed(s);
  }

  lemma NormalizeIdempotent(s: string)
    ensures NormalizeCardNumber(NormalizeCardNumber(s)) == NormalizeCardNumber(s)
  {
    NormalizeFixed(NormalizeCardNumber(s));
  }

  /** The guard `^[0-9]{12,19}$` shared by the Luhn check and the network table. */
  predicate IsCardDigits(s: string) {
    12 <= |s| <= 19 && AllDigits(s)
  }

  /** The contribution of one digit: doubled digits above 9 have 9 subtracted. */
  function LuhnTerm(d: nat, doubled: bool): (t: nat)
    requires d <= 9
    ensures t <= 9
  {
    if doubled then (if 2 * d > 9 then 2 * d - 9 else 2 * d) else d
  }

  /**
   * The Luhn sum read from the right: the last digit is doubled when `doubleLast` holds and the
   * doubling alternates from there leftwards.
   */
  function LuhnSum(s: string, doubleLast: bool): nat
    requires AllDigits(s)
  {
    if s == [] then 0
    else LuhnSum(s[..|s| - 1], !doubleLast) + LuhnTerm(DigitValue(s[|s| - 1]), doubleLast)
  }

  /** What `isValidLuhn` decides: 12 to 19 digits after normalisation, and a sum divisible by 10. */
  predicate LuhnValid(number: string) {
    var s := NormalizeCardNumber(number);
    IsCardDigits(s) && LuhnSum(s, false) % 10 == 0
  }

  /** `isValidLuhn`: the right-to-left loop over the digits with a running sum and a doubling flag. */
  method IsValidLuhn(number: string) returns (ok: bool)
    ensures ok == LuhnValid(number)
  {
    var s := NormalizeCardNumber(number);
    if !IsCardDigits(s) {
      return false;
    }
    var sum := 0;
    var shouldDouble := false;
    var i: int := |s| - 1;
    assert s[..i + 1] == s;
    while i >= 0
      invariant -1 <= i < |s|
      invariant sum + LuhnSum(s[..i + 1], shouldDouble) == LuhnSum(s, false)
    {
      var digit := DigitValue(s[i]);
      if shouldDouble {
        digit := digit * 2;
        if digit > 9 {
          digit := digit - 9;
        }
      }
      assert s[..i + 1][..i] == s[..i];
      sum := sum + digit;
      shouldDouble := !shouldDouble;
      i := i - 1;
    }
    assert s[..0] == [];
    return sum % 10 == 0;
  }

  /**
   * `isValidCardNumber`: the network is looked up, but both branches return the Luhn verdict on
   * the normalised number, so validity never depends on the network.
   */
  method IsValidCardNumber(input: string) returns (ok: bool)
    ensures ok == LuhnValid(input)
    ensures ok <==> IsCardDigits(NormalizeCardNumber(input)) && LuhnSum(NormalizeCardNumber(input), false) % 10 == 0
  {
    var normalized := NormalizeCardNumber(input);
    var network := GetCardType(normalized);
    NormalizeIdempotent(input);
    if network != Unknown {
      ok := IsValidLuhn(normalized);
    } else {
      ok := IsValidLuhn(normalized);
    }
  }

  /** Only one digit differs, at position `k`; the two Luhn sums differ by the two digits' terms. */
  lemma {:induction false} LuhnSumOneDigitApart(s: string, t: string, k: nat, doubleLast: bool)
    requires |s| == |t| && AllDigits(s) && AllDigits(t) && k < |s|
    requires forall i :: 0 <= i < |s| && i != k ==> s[i] == t[i]
    ensures var doubled := doubleLast != ((|s| - 1 - k) % 2 == 1);
            LuhnSum(s, doubleLast) - LuhnSum(t, doubleLast)
            == LuhnTerm(DigitValue(s[k]), doubled) - LuhnTerm(DigitValue(t[k]), doubled)
  {
    var n := |s|;
    if k == n - 1 {
      assert s[..n - 1] == t[..n - 1];
    } else {
      LuhnSumOneDigitApart(s[..n - 1], t[..n - 1], k, !doubleLast);
    }
  }

  /**
   * The Luhn check detects every single-digit error: two digit strings of the same length that
   * differ in exactly one position never both pass.
   */
  lemma LuhnDetectsSingleDigitError(s: string, t: string, k: nat)
    requires |s| == |t| && AllDigits(s) && AllDigits(t) && k < |s|
    requires forall i :: 0 <= i < |s| && i != k ==> s[i] == t[i]
    requires s[k] != t[k]
    ensures LuhnSum(s, false) % 10 != LuhnSum(t, false) % 10
  {
    var doubled := (|s| - 1 - k) % 2 == 1;
    LuhnSumOneDigitApart(s, t, k, false);
    var a, b := DigitValue(s[k]), DigitValue(t[k]);
    assert a != b;
    LuhnTermInjective(a, b, doubled);
    CloseSumsDifferModTen(LuhnSum(s, false), LuhnSum(t, false));
  }

  /** Distinct digits have distinct terms, doubled or not. */
  lemma LuhnTermInjective(a: nat, b: nat, doubled: bool)
    requires a <= 9 && b <= 9 && a != b
    ensures LuhnTerm(a, doubled) != LuhnTerm(b, doubled)
  {
  }

  /** Two numbers between 1 and 9 apart leave different remainders mod 10. */
  lemma CloseSumsDifferModTen(x: int, y: int)
    requires x != y && -9 <= x - y <= 9
    ensures x % 10 != y % 10
  {
  }

  /** `"4111111111111111"`, the usual test Visa number, written as a 4 and fifteen 1s. */
  const ValidVisa := "4" + seq(15, _ => '1')

  /** The sum over a concatenation: the left part's doubling is shifted by the right part's length. */
  lemma {:induction false} LuhnSumConcat(a: string, b: string, doubleLast: bool)
    requires AllDigits(a) && AllDigits(b)
    ensures AllDigits(a + b)
    ensures LuhnSum(a + b, doubleLast) == LuhnSum(a, doubleLast != (|b| % 2 == 1)) + LuhnSum(b, doubleLast)
  {
    if b == [] {
      assert a + b == a;
    } else {
      var s := a + b;
      assert s[..|s| - 1] == a + b[..|b| - 1];
      LuhnSumConcat(a, b[..|b| - 1], !doubleLast);
    }
  }

  /** A run of `n` ones: every undoubled one counts 1, every doubled one 2. */
  lemma {:induction false} LuhnSumOnes(n: nat, doubleLast: bool)
    ensures AllDigits(seq(n, _ => '1'))
    ensures LuhnSum(seq(n, _ => '1'), doubleLast) == n + (if doubleLast then (n + 1) / 2 else n / 2)
  {
    if n > 0 {
      var s := seq(n, _ => '1');
      assert s[..n - 1] == seq(n - 1, _ => '1');
      LuhnSumOnes(n - 1, !doubleLast);
    }
  }

  /** A digit string of card length passes exactly when its sum is divisible by 10. */
  lemma LuhnValidOfDigits(s: string)
    requires IsCardDigits(s)
    ensures LuhnValid(s) <==> LuhnSum(s, false) % 10 == 0
  {
    DigitsAreNormal(s);
  }

  /** The test number `"4111111111111111"` passes: its sum is 8 + 15 + 7 = 30. */
  lemma LuhnExampleValid()
    ensures LuhnValid(ValidVisa)
  {
    var ones := seq(15, _ => '1');
    LuhnSumOnes(15, false);
    LuhnSumConcat("4", ones, false);
    assert LuhnSum("4", true) == 8 by {
      assert "4"[..0] == [];
    }
    LuhnValidOfDigits(ValidVisa);
  }

  /** `"4111111111111112"` fails: its sum is 8 + 14 + 7 + 2 = 31. */
  lemma LuhnExampleInvalid()
    ensures !LuhnValid("4" + seq(14, _ => '1') + "2")
  {
    var ones := seq(14, _ => '1');
    LuhnSumOnes(14, true);
    LuhnSumConcat("4", ones, true);
    LuhnSumConcat("4" + ones, "2", false);
    assert LuhnSum("4", true) == 8 by {
      assert "4"[..0] == [];
    }
    assert LuhnSum("2", false) == 2 by {
      assert "2"[..0] == [];
    }
    LuhnValidOfDigits("4" + ones + "2");
  }

  datatype CardNetwork = Visa | Mastercard | Amex | Discover | Jcb | Diners | Maestro | UnionPay | Unknown

  /** `t` starts with `p`. */
  predicate StartsWith(t: string, p: string) {
    |p| <= |t| && t[..|p|] == p
  }

  /** `^3[47][0-9]{13}$` */
  predicate AmexPattern(t: string) {
    |t| == 15 && t[0] == '3' && (t[1] == '4' || t[1] == '7')
  }

  /** `^3(?:0[0-5]|[68][0-9])[0-9]{11}$` */
  predicate DinersPattern(t: string) {
    |t| == 14 && t[0] == '3' && ((t[1] == '0' && '0' <= t[2] <= '5') || t[1] == '6' || t[1] == '8')
  }

  /** `^(?:6011|65|64[4-9]|622(?:12[6-9]|1[3-9]\d|[2-8]\d{2}|9[0-1]\d|92[0-5]))[0-9]{0,}$`: the six-digit
      branch is 622126 to 622925. */
  predicate DiscoverPattern(t: string)
    requires IsCardDigits(t)
  {
    || StartsWith(t, "6011") || StartsWith(t, "65")
    || (StartsWith(t, "64") && '4' <= t[2] <= '9')
    || (StartsWith(t, "622") && 126 <= DecimalValue(t[3..6]) <= 925)
  }

  /** `^35(?:2[89]|[3-8][0-9])[0-9]{12}$`: 16 digits, prefix 3528 to 3589. */
  predicate JcbPattern(t: string)
    requires IsCardDigits(t)
  {
    |t| == 16 && StartsWith(t, "35") && 28 <= DecimalValue(t[2..4]) <= 89
  }

  /** `^(?:5[1-5][0-9]{14}|2[2-7][0-9]{14})$` */
  predicate MastercardPattern(t: string) {
    |t| == 16 && ((t[0] == '5' && '1' <= t[1] <= '5') || (t[0] == '2' && '2' <= t[1] <= '7'))
  }

  /** `^4[0-9]{12}(?:[0-9]{3})?(?:[0-9]{3})?$`: 13, 16 or 19 digits. */
  predicate VisaPattern(t: string)
    requires |t| >= 1
  {
    t[0] == '4' && (|t| == 13 || |t| == 16 || |t| == 19)
  }

  /** `^(?:5018|5020|5038|56|58|6304|6759|6761|6762|6763)[0-9]{8,15}$` */
  predicate MaestroPattern(t: string) {
    || ((StartsWith(t, "56") || StartsWith(t, "58")) && 10 <= |t| <= 17)
    || ((|| StartsWith(t, "5018") || StartsWith(t, "5020") || StartsWith(t, "5038") || StartsWith(t, "6304")
         || StartsWith(t, "6759") || StartsWith(t, "6761") || StartsWith(t, "6762") || StartsWith(t, "6763"))
        && 12 <= |t| <= 19)
  }

  /** `^62[0-9]{14,17}$` */
  predicate UnionPayPattern(t: string) {
    StartsWith(t, "62") && 16 <= |t| <= 19
  }

  /**
   * `getCardType`: `Unknown` unless the normalised number is 12 to 19 digits, then the first
   * network in the order Amex, Diners, Discover, JCB, Mastercard, Visa, Maestro, UnionPay whose
   * pattern matches.
   */
  function GetCardType(cardNumber: string): (r: CardNetwork)
    ensures !IsCardDigits(NormalizeCardNumber(cardNumber)) ==> r == Unknown
    ensures r == Amex <==> IsCardDigits(NormalizeCardNumber(cardNumber)) && AmexPattern(NormalizeCardNumber(cardNumber))
  {
    var t := NormalizeCardNumber(cardNumber);
    if !IsCardDigits(t) then Unknown
    else if AmexPattern(t) then Amex
    else if DinersPattern(t) then Diners
    else if DiscoverPattern(t) then Discover
    else if JcbPattern(t) then Jcb
    else if MastercardPattern(t) then Mastercard
    else if VisaPattern(t) then Visa
    else if MaestroPattern(t) then Maestro
    else if UnionPayPattern(t) then UnionPay
    else Unknown
  }

  /** The place of each network in the lookup order; `Unknown` comes after every pattern. */
  function Rank(n: CardNetwork): (k: nat)
    ensures k <= 8
    ensures n == Unknown <==> k == 8
  {
    match n
    case Amex => 0
    case Diners => 1
    case Discover => 2
    case Jcb => 3
    case Mastercard => 4
    case Visa => 5
    case Maestro => 6
    case UnionPay => 7
    case Unknown => 8
  }

  /** The table entry of network `n` matches `t`; `Unknown` has no pattern. */
  predicate Matches(t: string, n: CardNetwork)
    requires IsCardDigits(t)
  {
    match n
    case Amex => AmexPattern(t)
    case Diners => DinersPattern(t)
    case Discover => DiscoverPattern(t)
    case Jcb => JcbPattern(t)
    case Mastercard => MastercardPattern(t)
    case Visa => VisaPattern(t)
    case Maestro => MaestroPattern(t)
    case UnionPay => UnionPayPattern(t)
    case Unknown => false
  }

  /**
   * A network other than `Unknown` is reported only for a 12-to-19-digit number that its own
   * pattern matches and that no network earlier in the order matches.
   */
  lemma CardTypeSound(cardNumber: string)
    ensures var t := NormalizeCardNumber(cardNumber);
            var r := GetCardType(cardNumber);
            r != Unknown ==>
              && IsCardDigits(t) && Matches(t, r)
              && forall n :: Rank(n) < Rank(r) ==> !Matches(t, n)
  {
    var t := NormalizeCardNumber(cardNumber);
    var r := GetCardType(cardNumber);
    if r != Unknown {
      forall n | Rank(n) < Rank(r)
        ensures !Matches(t, n)
      {
        match n
        case Amex =>
        case Diners =>
        case Discover =>
        case Jcb =>
        case Mastercard =>
        case Visa =>
        case Maestro =>
        case UnionPay =>
        case Unknown =>
      }
    }
  }

  /**
   * Conversely, a 12-to-19-digit number that some network's pattern matches is never `Unknown`:
   * it is reported as that network or one earlier in the order.
   */
  lemma CardTypeComplete(cardNumber: string, n: CardNetwork)
    requires IsCardDigits(NormalizeCardNumber(cardNumber)) && Matches(NormalizeCardNumber(cardNumber), n)
    ensures GetCardType(cardNumber) != Unknown
    ensures Rank(GetCardType(cardNumber)) <= Rank(n)
  {
  }

  /** So `Unknown` is reported exactly when the guard fails or no pattern matches. */
  lemma CardTypeUnknown(cardNumber: string)
    ensures var t := NormalizeCardNumber(cardNumber);
            GetCardType(cardNumber) == Unknown <==> !IsCardDigits(t) || forall n :: !Matches(t, n)
  {
    var t := NormalizeCardNumber(cardNumber);
    if IsCardDigits(t) && GetCardType(cardNumber) != Unknown {
      CardTypeSound(cardNumber);
    }
    if IsCardDigits(t) && exists n :: Matches(t, n) {
      var n :| Matches(t, n);
      CardTypeComplete(cardNumber, n);
    }
  }

  /** Separators never change the detected network. */
  lemma CardTypeIgnoresSeparators(cardNumber: string)
    ensures GetCardType(NormalizeCardNumber(cardNumber)) == GetCardType(cardNumber)
  {
    NormalizeIdempotent(cardNumber);
  }

  /**
   * Order matters: a 16-digit number in 622126 to 622925 also fits the UnionPay pattern, and
   * Discover, checked first, wins.
   */
  lemma DiscoverBeforeUnionPay(t: string)
    requires IsCardDigits(t) && |t| == 16 && StartsWith(t, "622") && 126 <= DecimalValue(t[3..6]) <= 925
    ensures UnionPayPattern(t)
    ensures GetCardType(t) == Discover
  {
    assert t[0] == t[..3][0] == '6' && t[..2] == t[..3][..2];
    NormalizeFixed(t);
  }

  /** A 16-digit number starting with 4 is Visa: no earlier pattern starts with 4. */
  lemma SixteenDigitVisa(t: string)
    requires IsCardDigits(t) && |t| == 16 && t[0] == '4'
    ensures GetCardType(t) == Visa
  {
    NormalizeFixed(t);
    assert !StartsWith(t, "6011") && !StartsWith(t, "65") && !StartsWith(t, "64") && !StartsWith(t, "622") by {
      assert t[..4][0] == t[..2][0] == t[..3][0] == '4';
    }
    assert !StartsWith(t, "35") by {
      assert t[..2][0] == '4';
    }
  }

  lemma CardTypeExample()
    ensures GetCardType(ValidVisa) == Visa
  {
    SixteenDigitVisa(ValidVisa);
  }
}
