/** The list of US state codes shared by the address forms, and the membership check over it. */
module States {
  import opened Wrappers
  import opened Text
  import Validators

  /** The fifty states and the District of Columbia, in the order the list gives them. */
  const UsStateCodes: seq<string> :=
    ["AL", "AK", "AZ", "AR", "CA", "CO", "CT", "DE", "FL", "GA"] +
    ["HI", "ID", "IL", "IN", "IA", "KS", "KY", "LA", "ME", "MD"] +
    ["MA", "MI", "MN", "MS", "MO", "MT", "NE", "NV", "NH", "NJ"] +
    ["NM", "NY", "NC", "ND", "OH", "OK", "OR", "PA", "RI", "SC"] +
    ["SD", "TN", "TX", "UT", "VT", "VA", "WA", "WV", "WI", "WY", "DC"]

  /** The set the check looks codes up in. */
  const StateSet: set<string> := set c | c in UsStateCodes

  /** `isValidUSState`: a missing or empty code is refused, otherwise its upper-cased form must be in the set. */
  function IsValidUsState(code: Option<string>): (r: bool)
    ensures code == None || code == Some("") ==> !r
    ensures r <==> code.Some? && code.value != "" && ToUpper(code.value) in UsStateCodes
  {
    match code
    case None => false
    case Some(c) => if c == "" then false else ToUpper(c) in StateSet
  }

  /** Any code `isValidUSState` accepts is two characters long, and its upper-cased form two capitals. */
  lemma AcceptedCodeShape(c: string)
    requires IsValidUsState(Some(c))
    ensures |c| == 2 && IsUpper(ToUpper(c)[0]) && IsUpper(ToUpper(c)[1])
  {
    var i :| 0 <= i < |UsStateCodes| && UsStateCodes[i] == ToUpper(c);
  }

  /** The list holds 51 entries, no two alike. */
  lemma FiftyOneDistinctCodes()
    ensures |UsStateCodes| == 51
    ensures forall i, j :: 0 <= i < j < |UsStateCodes| ==> UsStateCodes[i] != UsStateCodes[j]
  {
    forall i | 0 <= i < |UsStateCodes|
      ensures forall j :: i < j < |UsStateCodes| ==> UsStateCodes[i] != UsStateCodes[j]
    {
      if i < 5 {
        UniqueInBlock1(i);
      } else if i < 10 {
        UniqueInBlock2(i);
      } else if i < 15 {
        UniqueInBlock3(i);
      } else if i < 20 {
        UniqueInBlock4(i);
      } else if i < 25 {
        UniqueInBlock5(i);
      } else if i < 30 {
        UniqueInBlock6(i);
      } else if i < 35 {
        UniqueInBlock7(i);
      } else if i < 40 {
        UniqueInBlock8(i);
      } else if i < 45 {
        UniqueInBlock9(i);
      } else {
        UniqueInBlock10(i);
      }
    }
  }

  /** The code at `i` differs from every later one. */
  predicate UniqueAfter(i: int)
    requires 0 <= i < |UsStateCodes|
  {
    forall j :: i < j < |UsStateCodes| ==> UsStateCodes[i][0] != UsStateCodes[j][0] || UsStateCodes[i][1] != UsStateCodes[j][1]
  }

  lemma UniqueInBlock1(i: int)
    requires 0 <= i < 5
    ensures forall j :: i < j < |UsStateCodes| ==> UsStateCodes[i] != UsStateCodes[j]
  {
    assert UniqueAfter(i);
  }

  lemma UniqueInBlock2(i: int)
    requires 5 <= i < 10
    ensures forall j :: i < j < |UsStateCodes| ==> UsStateCodes[i] != UsStateCodes[j]
  {
    assert UniqueAfter(i);
  }

  lemma UniqueInBlock3(i: int)
    requires 10 <= i < 15
    ensures forall j :: i < j < |UsStateCodes| ==> UsStateCodes[i] != UsStateCodes[j]
  {
    assert UniqueAfter(i);
  }

  lemma UniqueInBlock4(i: int)
    requires 15 <= i < 20
    ensures forall j :: i < j < |UsStateCodes| ==> UsStateCodes[i] != UsStateCodes[j]
  {
    assert UniqueAfter(i);
  }

  lemma UniqueInBlock5(i: int)
    requires 20 <= i < 25
    ensures forall j :: i < j < |UsStateCodes| ==> UsStateCodes[i] != UsStateCodes[j]
  {
    assert UniqueAfter(i);
  }

  lemma UniqueInBlock6(i: int)
    requires 25 <= i < 30
    ensures forall j :: i < j < |UsStateCodes| ==> UsStateCodes[i] != UsStateCodes[j]
  {
    assert UniqueAfter(i);
  }

  lemma UniqueInBlock7(i: int)
    requires 30 <= i < 35
    ensures forall j :: i < j < |UsStateCodes| ==> UsStateCodes[i] != UsStateCodes[j]
  {
    assert UniqueAfter(i);
  }

  lemma UniqueInBlock8(i: int)
    requires 35 <= i < 40
    ensures forall j :: i < j < |UsStateCodes| ==> UsStateCodes[i] != UsStateCodes[j]
  {
    assert UniqueAfter(i);
  }

  lemma UniqueInBlock9(i: int)
    requires 40 <= i < 45
    ensures forall j :: i < j < |UsStateCodes| ==> UsStateCodes[i] != UsStateCodes[j]
  {
    assert UniqueAfter(i);
  }

  lemma UniqueInBlock10(i: int)
    requires 45 <= i < 51
    ensures forall j :: i < j < |UsStateCodes| ==> UsStateCodes[i] != UsStateCodes[j]
  {
    assert UniqueAfter(i);
  }

  /** The two checks hold the same list, so they agree on every input. */
  lemma AgreesWithStateCodeCheck(code: Option<string>)
    ensures IsValidUsState(code) == Validators.IsValidStateCode(code)
  {
    assert UsStateCodes == Validators.ValidStateCodes;
  }
}
