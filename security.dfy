/** The password policy of the service: an ordered list of requirements,
    checked one after another, the first unmet one deciding the message. */
module Security {
  import opened Wrappers
  import opened Text

  const MinLength: nat := 8

  /** The characters that count as special. */
  const SpecialChars := "!@#$%^&*()_+-=[]{}|;:,.<>?/~`"

  const TooShortMessage := "Пароль должен содержать не менее 8 символов"
  const NoDigitMessage := "Пароль должен содержать хотя бы одну цифру"
  const NoUpperMessage := "Пароль должен содержать хотя бы одну заглавную букву"
  const NoLowerMessage := "Пароль должен содержать хотя бы одну строчную букву"
  const NoSpecialMessage := "Пароль должен содержать хотя бы один специальный символ"

  /** Python's `any(f(c) for c in s)`. */
  function Any(s: string, f: char -> bool): (b: bool)
    ensures b <==> exists i :: 0 <= i < |s| && f(s[i])
  {
    if s == [] then false
    else
      var rest := Any(s[1..], f);
      assert rest ==> exists i :: 0 <= i < |s| && f(s[i]) by {
        if rest {
          var i :| 0 <= i < |s| - 1 && f(s[1..][i]);
          assert f(s[i + 1]);
        }
      }
      assert (exists i :: 0 <= i < |s| && f(s[i])) ==> f(s[0]) || rest by {
        if exists i :: 0 <= i < |s| && f(s[i]) {
          var i :| 0 <= i < |s| && f(s[i]);
          if i > 0 {
            assert f(s[1..][i - 1]);
          }
        }
      }
      f(s[0]) || rest
  }

  predicate IsSpecial(c: char) {
    c in SpecialChars
  }

  predicate HasDigit(p: string) { Any(p, IsAsciiDigit) }
  predicate HasUpper(p: string) { Any(p, IsAsciiUpper) }
  predicate HasLower(p: string) { Any(p, IsAsciiLower) }
  predicate HasSpecial(p: string) { Any(p, IsSpecial) }

  /** `password_meets_requirements`: `(True, None)`, or `False` with the
      message of the first unmet requirement. */
  function PasswordMeetsRequirements(p: string): (r: (bool, Option<string>))
    ensures r.0 <==> |p| >= MinLength && HasDigit(p) && HasUpper(p) && HasLower(p) && HasSpecial(p)
    ensures r.0 <==> r.1 == None
    ensures |p| < MinLength ==> r == (false, Some(TooShortMessage))
    ensures (forall i :: 0 <= i < |p| ==> !IsSpecial(p[i])) ==> !r.0
  {
    if |p| < MinLength then (false, Some(TooShortMessage))
    else if !HasDigit(p) then (false, Some(NoDigitMessage))
    else if !HasUpper(p) then (false, Some(NoUpperMessage))
    else if !HasLower(p) then (false, Some(NoLowerMessage))
    else if !HasSpecial(p) then (false, Some(NoSpecialMessage))
    else (true, None)
  }

  // ---------------------------------------------------------------------------
  // The policy as an ordered list of requirements

  datatype Requirement = Length | Digit | Upper | Lower | Special

  /** The order in which the requirements are checked. */
  const Order: seq<Requirement> := [Length, Digit, Upper, Lower, Special]

  predicate Holds(q: Requirement, p: string) {
    match q
    case Length => |p| >= MinLength
    case Digit => HasDigit(p)
    case Upper => HasUpper(p)
    case Lower => HasLower(p)
    case Special => HasSpecial(p)
  }

  function Message(q: Requirement): string {
    match q
    case Length => TooShortMessage
    case Digit => NoDigitMessage
    case Upper => NoUpperMessage
    case Lower => NoLowerMessage
    case Special => NoSpecialMessage
  }

  /** The first requirement of `qs` that `p` does not meet. */
  function FirstUnmet(p: string, qs: seq<Requirement>): (r: Option<nat>)
    ensures r.None? <==> forall i :: 0 <= i < |qs| ==> Holds(qs[i], p)
    ensures r.Some? ==> r.value < |qs| && !Holds(qs[r.value], p)
    ensures r.Some? ==> forall j :: 0 <= j < r.value ==> Holds(qs[j], p)
  {
    if qs == [] then None
    else if !Holds(qs[0], p) then Some(0)
    else
      match FirstUnmet(p, qs[1..])
      case None => None
      case Some(k) => Some(k + 1)
  }

  /** The check is the ordered policy: it accepts when no requirement is
      unmet, and otherwise reports the message of the first unmet one. */
  lemma {:induction false} MeetsRequirementsIsFirstUnmet(p: string)
    ensures PasswordMeetsRequirements(p) ==
      match FirstUnmet(p, Order)
      case None => (true, None)
      case Some(k) => (false, Some(Message(Order[k])))
  {
    var r := FirstUnmet(p, Order);
    assert Order[0] == Length && Order[1] == Digit && Order[2] == Upper;
    assert Order[3] == Lower && Order[4] == Special;
    if r.Some? {
      var k := r.value;
      if k > 0 { assert Holds(Order[0], p); }
      if k > 1 { assert Holds(Order[1], p); }
      if k > 2 { assert Holds(Order[2], p); }
      if k > 3 { assert Holds(Order[3], p); }
    }
  }

  /** The five messages are distinct, so a message names its requirement. */
  lemma MessagesDistinct(q: Requirement, q': Requirement)
    requires Message(q) == Message(q')
    ensures q == q'
  {
  }

  /** A reported message names a requirement the password misses, while
      every requirement checked before that one is met. */
  lemma {:induction false} MessageNamesFirstFailure(p: string, q: Requirement)
    requires PasswordMeetsRequirements(p).1 == Some(Message(q))
    ensures !Holds(q, p)
    ensures exists k :: 0 <= k < |Order| && Order[k] == q && forall j :: 0 <= j < k ==> Holds(Order[j], p)
  {
    MeetsRequirementsIsFirstUnmet(p);
    var k := FirstUnmet(p, Order).value;
    MessagesDistinct(Order[k], q);
  }

  /** The length message is given whenever the password is too short, whatever
      it contains; the digit message whenever a long enough password has no digit. */
  lemma LengthAndDigitMessages(p: string)
    ensures |p| < MinLength <==> PasswordMeetsRequirements(p).1 == Some(TooShortMessage)
    ensures |p| >= MinLength && !HasDigit(p) <==> PasswordMeetsRequirements(p).1 == Some(NoDigitMessage)
  {
    MeetsRequirementsIsFirstUnmet(p);
    if FirstUnmet(p, Order).Some? {
      var k := FirstUnmet(p, Order).value;
      if PasswordMeetsRequirements(p).1 == Some(TooShortMessage) {
        MessagesDistinct(Order[k], Length);
      }
      if PasswordMeetsRequirements(p).1 == Some(NoDigitMessage) {
        MessagesDistinct(Order[k], Digit);
      }
    }
  }
}
