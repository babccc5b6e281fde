/**
 * Date-of-birth and state-code checks used at sign-up.
 *
 * A date string is represented by the calendar date it parses to, or `None` when it is empty or
 * unparseable; "today" is a parameter.  Dates are compared as (year, month, day) triples, which
 * is what comparing two timestamps truncated to midnight amounts to.
 */
module Validators {
  import opened Wrappers
  import opened Text

  datatype Date = Date(year: int, month: int, day: int)

  /** Strict calendar order: `a` is an earlier day than `b`. */
  predicate Before(a: Date, b: Date) {
    a.year < b.year
    || (a.year == b.year && a.month < b.month)
    || (a.year == b.year && a.month == b.month && a.day < b.day)
  }

  /** The date is a real calendar day (the only kind a parsed date can denote). */
  predicate IsCalendarDay(d: Date) {
    1 <= d.month <= 12 && 1 <= d.day <= 31
  }

  /** A day count that grows with the date, standing for the midnight timestamp. */
  function DayKey(d: Date): int {
    d.year * 372 + (d.month - 1) * 31 + (d.day - 1)
  }

  /** Comparing the triples agrees with comparing the midnight timestamps. */
  lemma BeforeIsTimestampOrder(a: Date, b: Date)
    requires IsCalendarDay(a) && IsCalendarDay(b)
    ensures Before(a, b) <==> DayKey(a) < DayKey(b)
    ensures a == b <==> DayKey(a) == DayKey(b)
  {
    if a.year < b.year {
      assert DayKey(a) < a.year * 372 + 372 <= DayKey(b);
    } else if b.year < a.year {
      assert DayKey(b) < b.year * 372 + 372 <= DayKey(a);
    }
  }

  /** `Before` is a strict total order on dates. */
  lemma BeforeIsStrictTotalOrder(a: Date, b: Date, c: Date)
    ensures !Before(a, a)
    ensures Before(a, b) ==> !Before(b, a)
    ensures Before(a, b) && Before(b, c) ==> Before(a, c)
    ensures Before(a, b) || a == b || Before(b, a)
  {
  }

  /** `isFutureDate`: false when the date does not parse, else the day is after today. */
  function IsFutureDate(date: Option<Date>, today: Date): (r: bool)
    ensures r ==> date.Some?
    ensures date.Some? ==> (r <==> !(Before(date.value, today) || date.value == today))
  {
    match date
    case None => false
    case Some(d) => Before(today, d)
  }

  /** `calculateAge`: whole years from the birth date to today, `None` when the date does not parse. */
  function CalculateAge(birth: Option<Date>, today: Date): (r: Option<int>)
    ensures r.Some? <==> birth.Some?
  {
    match birth
    case None => None
    case Some(d) =>
      var age := today.year - d.year;
      var m := today.month - d.month;
      if m < 0 || (m == 0 && today.day < d.day) then Some(age - 1) else Some(age)
  }

  /** The `n`-th birthday, as a triple (a 29 February birthday stays on the 29th). */
  function Anniversary(birth: Date, n: int): Date {
    Date(birth.year + n, birth.month, birth.day)
  }

  /** The computed age is the number of birthdays that have come: the last one has, the next has not. */
  lemma AgeIsCompletedYears(birth: Date, today: Date)
    ensures CalculateAge(Some(birth), today).Some?
    ensures var age := CalculateAge(Some(birth), today).value;
      !Before(today, Anniversary(birth, age)) && Before(today, Anniversary(birth, age + 1))
  {
  }

  /** Age counts birthdays, so one reached before another gives a smaller age. */
  lemma AgeIsMonotone(birth: Date, t1: Date, t2: Date)
    requires Before(t1, t2) || t1 == t2
    ensures CalculateAge(Some(birth), t1).value <= CalculateAge(Some(birth), t2).value
  {
  }

  /** A birth date still to come gives a negative age. */
  lemma FutureBirthNegativeAge(birth: Date, today: Date)
    requires IsFutureDate(Some(birth), today)
    ensures CalculateAge(Some(birth), today).value < 0
  {
  }

  const DefaultMinAge := 18

  /** `isAtLeastAge`: false when the date does not parse, else age at least `minAge` (18 by default). */
  function IsAtLeastAge(birth: Option<Date>, today: Date, minAge: int := DefaultMinAge): (r: bool)
    ensures r ==> birth.Some?
  {
    match CalculateAge(birth, today)
    case None => false
    case Some(age) => age >= minAge
  }

  /** Reaching an age means the birthday of that number of years is today or behind. */
  lemma AtLeastAgeMeansBirthdayReached(birth: Date, today: Date, minAge: int)
    ensures IsAtLeastAge(Some(birth), today, minAge) <==> !Before(today, Anniversary(birth, minAge))
  {
    AgeIsCompletedYears(birth, today);
  }

  /** The default threshold: adult on the eighteenth birthday, not the day before. */
  lemma AdultOnEighteenthBirthday(y: int, m: int, d: int)
    ensures IsAtLeastAge(Some(Date(y, m, d)), Date(y + 18, m, d))
    ensures d > 1 ==> !IsAtLeastAge(Some(Date(y, m, d)), Date(y + 18, m, d - 1))
  {
  }

  /** The codes accepted by `isValidStateCode`: the fifty states and the District of Columbia. */
  const ValidStateCodes: seq<string> :=
    ["AL", "AK", "AZ", "AR", "CA", "CO", "CT", "DE", "FL", "GA"] +
    ["HI", "ID", "IL", "IN", "IA", "KS", "KY", "LA", "ME", "MD"] +
    ["MA", "MI", "MN", "MS", "MO", "MT", "NE", "NV", "NH", "NJ"] +
    ["NM", "NY", "NC", "ND", "OH", "OK", "OR", "PA", "RI", "SC"] +
    ["SD", "TN", "TX", "UT", "VT", "VA", "WA", "WV", "WI", "WY", "DC"]

  /** `isValidStateCode`: a missing or empty code is refused, otherwise its upper-cased form must be listed. */
  function IsValidStateCode(code: Option<string>): (r: bool)
    ensures code == None || code == Some("") ==> !r
    ensures r <==> code.Some? && code.value != "" && ToUpper(code.value) in ValidStateCodes
  {
    match code
    case None => false
    case Some(c) => if c == "" then false else ToUpper(c) in ValidStateCodes
  }

  /** Every accepted code is two letters once upper-cased, so any other length is refused. */
  lemma StateCodeHasTwoLetters(c: string)
    requires IsValidStateCode(Some(c))
    ensures |c| == 2
  {
    var i :| 0 <= i < |ValidStateCodes| && ValidStateCodes[i] == ToUpper(c);
  }

  /** The check ignores letter case. */
  lemma StateCodeIgnoresCase(c: string)
    ensures IsValidStateCode(Some(ToLower(c))) == IsValidStateCode(Some(c))
  {
    UpperOfLower(c);
  }

  lemma UpperOfLower(s: string)
    ensures ToUpper(ToLower(s)) == ToUpper(s)
  {
  }
}
