/** The request schemas' password and length rules: the field bounds of the
    registration and login bodies, the complexity validator of the
    registration body, and the password-or-OAuth validator of the user
    creation body. */
module Schemas {
  import opened Wrappers
  import opened Text
  import opened Security

  // ---------------------------------------------------------------------------
  // Validators

  /** `RegisterData.password_complexity`: the value unchanged, or the
      `ValueError` message of the first missing character class. */
  function PasswordComplexity(v: string): (r: Result<string, string>)
    ensures r.Success? <==> HasDigit(v) && HasUpper(v) && HasLower(v) && HasSpecial(v)
    ensures r.Success? ==> r.value == v
    ensures r.Failure? ==> r.error in {NoDigitMessage, NoUpperMessage, NoLowerMessage, NoSpecialMessage}
  {
    if !HasDigit(v) then Failure(NoDigitMessage)
    else if !HasUpper(v) then Failure(NoUpperMessage)
    else if !HasLower(v) then Failure(NoLowerMessage)
    else if !HasSpecial(v) then Failure(NoSpecialMessage)
    else Success(v)
  }

  /** The checks of the schema validator, in the order it makes them. */
  const ComplexityOrder: seq<Requirement> := [Digit, Upper, Lower, Special]

  /** The validator reports the message of the first character class, in
      that order, that the value lacks. */
  lemma {:induction false} PasswordComplexityIsFirstUnmet(v: string)
    ensures PasswordComplexity(v) ==
      match FirstUnmet(v, ComplexityOrder)
      case None => Success(v)
      case Some(k) => Failure(Message(ComplexityOrder[k]))
  {
    var r := FirstUnmet(v, ComplexityOrder);
    assert ComplexityOrder[0] == Digit && ComplexityOrder[1] == Upper;
    assert ComplexityOrder[2] == Lower && ComplexityOrder[3] == Special;
    if r.Some? {
      var k := r.value;
      if k > 0 { assert Holds(ComplexityOrder[0], v); }
      if k > 1 { assert Holds(ComplexityOrder[1], v); }
      if k > 2 { assert Holds(ComplexityOrder[2], v); }
    }
  }

  /** On a password long enough for the policy, the schema validator and the
      policy check agree, message for message. */
  lemma ComplexityAgreesWithPolicy(v: string)
    requires |v| >= MinLength
    ensures PasswordComplexity(v).Success? <==> PasswordMeetsRequirements(v).0
    ensures PasswordComplexity(v).Failure? ==> PasswordMeetsRequirements(v).1 == Some(PasswordComplexity(v).error)
  {
  }

  const MissingCredentialsMessage := "Необходимо указать либо пароль, либо OAuth провайдер"

  datatype OAuthProvider = Google | GitHub | Yandex | VK

  /** `UserCreate.password_or_oauth`: `v` is the password as given (`None`
      for null) and `provider` what the previously validated fields hold under
      `oauth_provider`. */
  function PasswordOrOAuth(v: Option<string>, provider: Option<OAuthProvider>): (r: Result<Option<string>, string>)
    ensures r.Success? ==> r.value == v
    ensures r.Failure? && r.error == MissingCredentialsMessage <==> !Present(v) && provider.None?
    ensures Present(v) ==> (r.Success? <==> PasswordComplexity(v.value).Success?)
    ensures Present(v) && r.Failure? ==> r.error == PasswordComplexity(v.value).error
  {
    if !Present(v) && provider.None? then Failure(MissingCredentialsMessage)
    else if Present(v) then
      match PasswordComplexity(v.value)
      case Success(_) => Success(v)
      case Failure(m) => Failure(m)
    else Success(v)
  }

  /** The provider field as the password validator of `UserCreate` sees it:
      fields are validated in declaration order and `oauth_provider` is
      declared after `password`, so it is never among the validated fields. */
  function ProviderSeenByPasswordValidator(provider: Option<OAuthProvider>): Option<OAuthProvider> {
    if "oauth_provider" in UserCreateFieldsBeforePassword then provider else None
  }

  /** The fields `UserCreate` declares before `password`. */
  const UserCreateFieldsBeforePassword: set<string> := {"login", "email"}

  /** The `password` field of `UserCreate`. `password` is `None` when the
      field is omitted (the validator does not run on a default) and
      `Some(v)` when it is given, `v` being `None` for null. */
  function UserCreatePassword(password: Option<Option<string>>, provider: Option<OAuthProvider>): (r: Result<Option<string>, string>)
    ensures password.None? ==> r == Success(None)
    ensures password.Some? ==> r == PasswordOrOAuth(password.value, None)
  {
    match password
    case None => Success(None)
    case Some(v) => PasswordOrOAuth(v, ProviderSeenByPasswordValidator(provider))
  }

  /** As declared, an OAuth-only user (null or empty password given) is
      rejected whatever provider it names. */
  lemma OAuthOnlyUserRejected(provider: Option<OAuthProvider>, v: Option<string>)
    requires !Present(v)
    ensures UserCreatePassword(Some(v), provider) == Failure(MissingCredentialsMessage)
  {
  }

  /** The intended rule: the password validator sees the provider. */
  function UserCreatePasswordIntended(password: Option<Option<string>>, provider: Option<OAuthProvider>): (r: Result<Option<string>, string>)
    ensures password.None? ==> r == Success(None)
    ensures password.Some? ==> r == PasswordOrOAuth(password.value, provider)
  {
    match password
    case None => Success(None)
    case Some(v) => PasswordOrOAuth(v, provider)
  }

  /** Under the intended rule a password-less user is accepted exactly when a
      provider is named, and a given password is still checked. */
  lemma IntendedAcceptsOAuthOnlyUser(provider: Option<OAuthProvider>, v: Option<string>)
    ensures !Present(v) ==> (UserCreatePasswordIntended(Some(v), provider).Success? <==> provider.Some?)
    ensures Present(v) ==> UserCreatePasswordIntended(Some(v), provider) == UserCreatePassword(Some(v), provider)
  {
  }

  // ---------------------------------------------------------------------------
  // Field bounds

  datatype FieldError =
    | TooShort(field: string, min: nat)
    | TooLong(field: string, max: nat)
    | Invalid(field: string, message: string)

  const PasswordMax: nat := 50
  const LoginMin: nat := 3
  const LoginMax: nat := 50
  const LoginDataPasswordMin: nat := 5

  /** A `Field(min_length=min, max_length=max)` string constraint. */
  function LengthErrors(field: string, v: string, min: nat, max: nat): (errs: seq<FieldError>)
    ensures errs == [] <==> min <= |v| <= max
    ensures |errs| <= 1
  {
    if |v| < min then [TooShort(field, min)]
    else if |v| > max then [TooLong(field, max)]
    else []
  }

  /** The `password` field of `RegisterData`: the bounds first, and the
      complexity validator only on a value within them. */
  function RegisterPasswordErrors(password: string): (errs: seq<FieldError>)
    ensures |errs| <= 1
  {
    var bounds := LengthErrors("password", password, MinLength, PasswordMax);
    if bounds != [] then bounds
    else
      match PasswordComplexity(password)
      case Success(_) => []
      case Failure(m) => [Invalid("password", m)]
  }

  /** The errors `RegisterData` reports for its password and login fields
      (the email field is not part of this model), in field order. */
  function RegisterDataErrors(password: string, login: string): (errs: seq<FieldError>)
    ensures forall i :: 0 <= i < |errs| ==> errs[i].field in {"password", "login"}
  {
    RegisterPasswordErrors(password) + LengthErrors("login", login, LoginMin, LoginMax)
  }

  /** The errors `LoginData` reports for its password field. */
  function LoginDataErrors(password: string): (errs: seq<FieldError>)
    ensures errs == [] <==> LoginDataPasswordMin <= |password| <= PasswordMax
  {
    LengthErrors("password", password, LoginDataPasswordMin, PasswordMax)
  }

  /** A registration body is accepted exactly when the password is 8 to 50
      characters and meets the policy, and the login is 3 to 50 characters. */
  lemma {:induction false} RegisterDataAccepts(password: string, login: string)
    ensures RegisterDataErrors(password, login) == [] <==>
      |password| <= PasswordMax && PasswordMeetsRequirements(password).0 && LoginMin <= |login| <= LoginMax
  {
    if MinLength <= |password| {
      ComplexityAgreesWithPolicy(password);
    }
  }

  /** Whoever could register can log in with the same password, and the
      security check accepts it. */
  lemma RegisteredPasswordLogsIn(password: string, login: string)
    requires RegisterDataErrors(password, login) == []
    ensures LoginDataErrors(password) == []
    ensures PasswordMeetsRequirements(password) == (true, None)
  {
    RegisterDataAccepts(password, login);
  }

  /** Each field of a registration body contributes at most one error, and a
      password error reports the bound it breaks before any content rule. */
  lemma RegisterPasswordErrorOrder(password: string)
    ensures |password| < MinLength ==> RegisterPasswordErrors(password) == [TooShort("password", MinLength)]
    ensures |password| > PasswordMax ==> RegisterPasswordErrors(password) == [TooLong("password", PasswordMax)]
    ensures MinLength <= |password| <= PasswordMax && !HasDigit(password) ==>
      RegisterPasswordErrors(password) == [Invalid("password", NoDigitMessage)]
  {
  }

  // ---------------------------------------------------------------------------
  // Token response

  const DefaultTokenType := "bearer"

  datatype TokenResponse = TokenResponse(accessToken: string, refreshToken: string, tokenType: string)

  /** Builds a `TokenResponse`; an omitted `token_type` is `"bearer"`. */
  function MakeTokenResponse(accessToken: string, refreshToken: string, tokenType: Option<string>): (r: TokenResponse)
    ensures r.accessToken == accessToken && r.refreshToken == refreshToken
    ensures tokenType.None? ==> r.tokenType == "bearer"
    ensures tokenType.Some? ==> r.tokenType == tokenType.value
  {
    TokenResponse(accessToken, refreshToken, tokenType.GetOr(DefaultTokenType))
  }
}
