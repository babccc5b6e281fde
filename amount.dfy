/**
 * Server-side amount normalisation: a decimal string is accepted when it matches
 * `^(?:0|[1-9]\d*)(?:\.\d{1,2})?$` and is then converted to an exact number of cents.
 */
module Amount {
  import opened Wrappers
  import opened Text

  /** The integer part of the grammar: `0`, or digits that do not start with `0`. */
  predicate IsIntegerPart(s: string) {
    s == "0" || (|s| >= 1 && '1' <= s[0] <= '9' && AllDigits(s))
  }

  /** The optional fraction after the point: one or two digits. */
  predicate IsFractionPart(f: string) {
    1 <= |f| <= 2 && AllDigits(f)
  }

  /** `s` is an integer part, a point at index `k`, and a fraction. */
  predicate PointAt(s: string, k: int) {
    0 <= k < |s| && s[k] == '.' && IsIntegerPart(s[..k]) && IsFractionPart(s[k + 1..])
  }

  /** The regular expression, read as its two alternatives: no point, or a point at some index `k`. */
  predicate IsValidAmountString(s: string) {
    IsIntegerPart(s) || exists k :: 0 <= k < |s| && PointAt(s, k)
  }

  /** Index of the first `.` in `s`, if any. */
  function DotIndex(s: string): (r: Option<nat>)
    ensures r.None? ==> forall i :: 0 <= i < |s| ==> s[i] != '.'
    ensures r.Some? ==> r.value < |s| && s[r.value] == '.' && forall i :: 0 <= i < r.value ==> s[i] != '.'
  {
    if s == [] then None
    else if s[0] == '.' then Some(0)
    else match DotIndex(s[1..])
      case None => None
      case Some(k) => Some(k + 1)
  }

  /** A fraction of one or two digits scaled to cents: `5` is 50, `05` is 5. */
  function FractionCents(f: string): (c: nat)
    requires IsFractionPart(f)
    ensures c < 100
  {
    if |f| == 1 then 10 * DigitValue(f[0]) else 10 * DigitValue(f[0]) + DigitValue(f[1])
  }

  /**
   * `parseAndNormalizeAmount`, in cents: `None` for a string the grammar rejects, otherwise
   * the integer part times 100 plus the fraction scaled to two digits.
   */
  function ParseAndNormalizeAmount(s: string): (r: Option<nat>)
    ensures r.Some? <==> IsValidAmountString(s)
    ensures r.Some? && IsIntegerPart(s) ==> r.value == 100 * DecimalValue(s)
    ensures forall k :: PointAt(s, k) ==> r == Some(100 * DecimalValue(s[..k]) + FractionCents(s[k + 1..]))
  {
    match DotIndex(s)
    case None =>
      NoDotMeansNoFraction(s);
      if IsIntegerPart(s) then Some(100 * DecimalValue(s)) else None
    case Some(k) =>
      FirstDotIsTheDot(s, k);
      if PointAt(s, k)
      then Some(100 * DecimalValue(s[..k]) + FractionCents(s[k + 1..]))
      else None
  }

  lemma NoDotMeansNoFraction(s: string)
    requires DotIndex(s).None?
    ensures IsValidAmountString(s) <==> IsIntegerPart(s)
  {
  }

  /**
   * The integer part has no `.`, so the point of the second alternative is the first point
   * of the string; and a string with a point is never a bare integer part.
   */
  lemma FirstDotIsTheDot(s: string, k: nat)
    requires DotIndex(s) == Some(k)
    ensures !IsIntegerPart(s)
    ensures forall j :: PointAt(s, j) ==> j == k
  {
    assert !IsDigit(s[k]);
    forall j | PointAt(s, j)
      ensures j == k
    {
      forall i | 0 <= i < j
        ensures s[i] != '.'
      {
        assert s[..j][i] == s[i];
      }
    }
  }

  /** Every character of an accepted string is a digit or the point: `-`, `+`, spaces, letters are refused. */
  lemma ValidAlphabet(s: string, i: nat)
    requires IsValidAmountString(s) && i < |s|
    ensures IsDigit(s[i]) || s[i] == '.'
  {
    if !IsIntegerPart(s) {
      var k :| 0 <= k < |s| && PointAt(s, k);
      if i < k {
        assert s[..k][i] == s[i];
      } else if i > k {
        assert s[k + 1..][i - k - 1] == s[i];
      }
    }
  }

  /** Two or more digits starting with `0` before the point (`00`, `00012`, `012.34`) are refused. */
  lemma RejectsLeadingZeros(s: string)
    requires |s| >= 2 && s[0] == '0' && IsDigit(s[1])
    ensures !IsValidAmountString(s)
  {
  }

  /** More than two digits after the point, or a point with nothing after it, is refused. */
  lemma RejectsBadFraction(s: string, k: nat)
    requires k < |s| && s[k] == '.' && (|s| - k - 1 == 0 || |s| - k - 1 > 2)
    ensures !IsValidAmountString(s)
  {
    assert !IsIntegerPart(s) by { assert !IsDigit(s[k]); }
    forall j | 0 <= j < |s|
      ensures !PointAt(s, j)
    {
      if j < k {
        assert s[j + 1..][k - j - 1] == '.';
      } else if j > k {
        assert s[..j][k] == '.';
      }
    }
  }

  /** The canonical spelling of an amount of cents: `0.05`, `12.30`, `1000.00`. */
  function FormatCents(c: nat): (s: string)
    ensures |s| >= 4
  {
    ToDecimal(c / 100) + "." + PadStart(ToDecimal(c % 100), 2, '0')
  }

  lemma {:induction false} DecimalIsIntegerPart(n: nat)
    ensures IsIntegerPart(ToDecimal(n)) && DecimalValue(ToDecimal(n)) == n
  {
    ToDecimalValue(n);
  }

  lemma {:induction false} PaddedFraction(n: nat)
    requires n < 100
    ensures IsFractionPart(PadStart(ToDecimal(n), 2, '0'))
    ensures FractionCents(PadStart(ToDecimal(n), 2, '0')) == n
  {
    var fd := ToDecimal(n);
    ToDecimalLength(n, 2);
    ToDecimalValue(n);
    var fp := PadStart(fd, 2, '0');
    assert fp == fp[..|fp| - |fd|] + fd;
    LeadingZerosValue(fp[..|fp| - |fd|], fd);
    assert fp[..1] == [fp[0]];
  }

  /** An integer part, a point and a fraction parse to the value they spell. */
  lemma ParseSplit(ip: string, fp: string, whole: nat, cents: nat)
    requires IsIntegerPart(ip) && DecimalValue(ip) == whole
    requires IsFractionPart(fp) && FractionCents(fp) == cents
    ensures ParseAndNormalizeAmount(ip + "." + fp) == Some(100 * whole + cents)
  {
    var s := ip + "." + fp;
    var k := |ip|;
    assert s[..k] == ip && s[k + 1..] == fp;
    ParseAtPoint(s, k);
  }

  lemma ParseAtPoint(s: string, k: int)
    requires PointAt(s, k)
    ensures ParseAndNormalizeAmount(s) == Some(100 * DecimalValue(s[..k]) + FractionCents(s[k + 1..]))
  {
  }

  /** Every amount of cents has a spelling the normaliser accepts and maps back to it. */
  lemma {:induction false} FormatCentsRoundTrip(c: nat)
    ensures ParseAndNormalizeAmount(FormatCents(c)) == Some(c)
  {
    var q, m := c / 100, c % 100;
    var ip, fp := ToDecimal(q), PadStart(ToDecimal(m), 2, '0');
    DecimalIsIntegerPart(q);
    PaddedFraction(m);
    ParseSplit(ip, fp, q, m);
    assert 100 * q + m == c;
    assert FormatCents(c) == ip + "." + fp;
  }

  lemma ExampleAccepted()
    ensures ParseAndNormalizeAmount("1.23") == Some(123)
    ensures ParseAndNormalizeAmount("0.5") == Some(50)
    ensures ParseAndNormalizeAmount("10") == Some(1000)
  {
    assert "1.23"[..1] == "1" && "1.23"[2..] == "23";
    assert "0.5"[..1] == "0" && "0.5"[2..] == "5";
    assert DecimalValue("10"[..1]) == 1;
  }

  /** Zero is a well-formed amount; it is the caller that refuses it. */
  lemma ExampleZero()
    ensures ParseAndNormalizeAmount("0") == Some(0) && ParseAndNormalizeAmount("0.00") == Some(0)
  {
    assert "0.00"[..1] == "0" && "0.00"[2..] == "00";
  }

  lemma ExampleRejected()
    ensures ParseAndNormalizeAmount("01.00") == None && ParseAndNormalizeAmount("00") == None
    ensures ParseAndNormalizeAmount("1.234") == None && ParseAndNormalizeAmount("1.") == None
    ensures ParseAndNormalizeAmount("-1.00") == None && ParseAndNormalizeAmount("abc") == None
  {
    RejectsLeadingZeros("01.00");
    RejectsLeadingZeros("00");
    RejectsBadFraction("1.234", 1);
    RejectsBadFraction("1.", 1);
    if IsValidAmountString("-1.00") { ValidAlphabet("-1.00", 0); }
    if IsValidAmountString("abc") { ValidAlphabet("abc", 0); }
  }
}
