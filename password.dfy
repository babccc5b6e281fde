/** Password strength: at least 12 UTF-16 code units with a lowercase letter, an uppercase letter, a digit
    and a character that is none of these. */
module Password {
  import opened Wrappers
  import opened Text

  const MinLength := 12

  /** `/[a-z]/.test(pw)` */
  predicate HasLower(pw: string) {
    exists i :: 0 <= i < |pw| && IsLower(pw[i])
  }

  /** `/[A-Z]/.test(pw)` */
  predicate HasUpper(pw: string) {
    exists i :: 0 <= i < |pw| && IsUpper(pw[i])
  }

  /** `/[0-9]/.test(pw)` */
  predicate HasDigit(pw: string) {
    exists i :: 0 <= i < |pw| && IsDigit(pw[i])
  }

  /** `/[^A-Za-z0-9]/.test(pw)` */
  predicate HasSpecial(pw: string) {
    exists i :: 0 <= i < |pw| && !IsLower(pw[i]) && !IsUpper(pw[i]) && !IsDigit(pw[i])
  }

  /** `isStrongPassword`; `pw.length` counts UTF-16 code units. */
  predicate IsStrongPassword(pw: string) {
    if Utf16Length(pw) < MinLength then false
    else HasLower(pw) && HasUpper(pw) && HasDigit(pw) && HasSpecial(pw)
  }

  /** The messages of `passwordFailureReason`, in the order they are tried. */
  datatype Reason = TooShort | NoLowercase | NoUppercase | NoDigit | NoSpecial {
    function Message(): string {
      match this
      case TooShort => "Password must be at least 12 characters"
      case NoLowercase => "Password must include a lowercase letter"
      case NoUppercase => "Password must include an uppercase letter"
      case NoDigit => "Password must include a number"
      case NoSpecial => "Password must include a special character (e.g. !@#$%)"
    }
  }

  /** `passwordFailureReason`: the first requirement the password misses, or `None`. */
  function PasswordFailureReason(pw: string): (r: Option<Reason>)
    ensures r.None? <==> IsStrongPassword(pw)
    ensures Utf16Length(pw) < MinLength <==> r == Some(TooShort)
    ensures r == Some(NoLowercase) ==> Utf16Length(pw) >= MinLength
    ensures r == Some(NoUppercase) ==> Utf16Length(pw) >= MinLength && HasLower(pw)
    ensures r == Some(NoDigit) ==> Utf16Length(pw) >= MinLength && HasLower(pw) && HasUpper(pw)
    ensures r == Some(NoSpecial) ==> Utf16Length(pw) >= MinLength && HasLower(pw) && HasUpper(pw) && HasDigit(pw)
  {
    if Utf16Length(pw) < MinLength then Some(TooShort)
    else if !HasLower(pw) then Some(NoLowercase)
    else if !HasUpper(pw) then Some(NoUppercase)
    else if !HasDigit(pw) then Some(NoDigit)
    else if !HasSpecial(pw) then Some(NoSpecial)
    else None
  }

  /** The reason names a requirement the password really misses. */
  lemma ReasonIsMissing(pw: string)
    ensures match PasswordFailureReason(pw)
      case None => true
      case Some(TooShort) => Utf16Length(pw) < MinLength
      case Some(NoLowercase) => forall i :: 0 <= i < |pw| ==> !IsLower(pw[i])
      case Some(NoUppercase) => forall i :: 0 <= i < |pw| ==> !IsUpper(pw[i])
      case Some(NoDigit) => forall i :: 0 <= i < |pw| ==> !IsDigit(pw[i])
      case Some(NoSpecial) => forall i :: 0 <= i < |pw| ==> IsLower(pw[i]) || IsUpper(pw[i]) || IsDigit(pw[i])
  {
  }

  lemma Examples()
    ensures IsStrongPassword("Abcdefghij1!")
    ensures PasswordFailureReason("Ab1!") == Some(TooShort)
    ensures PasswordFailureReason("abcdefghijk1!") == Some(NoUppercase)
  {
    StrongExample();
    NoUppercaseExample();
  }

  lemma StrongExample()
    ensures IsStrongPassword("Abcdefghij1!")
  {
    var p := "Abcdefghij1!";
    assert Utf16Length(p) >= |p| == 12;
    assert IsUpper(p[0]) && IsLower(p[1]) && IsDigit(p[10]) && !IsLower(p[11]) && !IsUpper(p[11]) && !IsDigit(p[11]);
  }

  lemma NoUppercaseExample()
    ensures PasswordFailureReason("abcdefghijk1!") == Some(NoUppercase)
  {
    var q := "abcdefghijk1!";
    assert Utf16Length(q) >= |q| == 13;
    assert IsLower(q[0]);
    NoUppercaseIn(q);
  }

  lemma NoUppercaseIn(q: string)
    requires q == "abcdefghijk1!"
    ensures !HasUpper(q)
  {
    assert forall i :: 0 <= i < |q| ==> !IsUpper(q[i]);
  }

  /**
   * The length is counted in UTF-16 code units: ten ASCII characters and one emoji above U+FFFF
   * are eleven characters but twelve units, and the password is long enough.
   */
  lemma AstralCharacterCountsTwice()
    ensures var pw := "Abcdefgh1!" + ['\U{1F600}'];
      && |pw| == 11 && Utf16Length(pw) == 12
      && IsStrongPassword(pw) && PasswordFailureReason(pw) == None
  {
    var a := "Abcdefgh1!";
    var pw := a + ['\U{1F600}'];
    Utf16LengthConcat(a, ['\U{1F600}']);
    BasicPlaneLength(a);
    assert Utf16Length(['\U{1F600}']) == 2 by {
      assert ['\U{1F600}'][1..] == [];
    }
    assert IsUpper(pw[0]) && IsLower(pw[1]) && IsDigit(pw[8]) && !IsLower(pw[9]) && !IsUpper(pw[9]) && !IsDigit(pw[9]);
  }

  lemma BasicPlaneLength(a: string)
    requires a == "Abcdefgh1!"
    ensures Utf16Length(a) == |a|
  {
    Utf16LengthIsLength(a);
    assert forall i :: 0 <= i < |a| ==> a[i] as int < 0x1_0000;
  }
}
