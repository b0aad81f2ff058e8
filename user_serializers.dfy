/**
 * The two serializers of users/serializers.py. Each field behaves as a
 * Django REST framework CharField: the raw value is stripped, a blank value
 * is refused, then the field's validators run; a `validate_<field>` method
 * runs only on a value its field accepted.
 */
module UserSerializers {
  import opened Wrappers
  import opened Strings
  import opened Models
  import opened Responses

  const UsernameMaxLength := 150
  const CodeMaxLength := 50
  const ReservedMessage := "Имя \"me\" запрещено!"

  /** Some existing user already holds `email`. */
  predicate EmailInUse(users: map<Username, Account>, email: string)
  {
    exists u :: u in users && users[u].email == email
  }

  /** A CharField's value before its validators: the stripped input, or nothing when absent or blank. */
  function CharFieldValue(raw: Option<string>): (v: Option<string>)
    ensures v.Some? <==> raw.Some? && !AllSpace(raw.value)
    ensures v.Some? ==> v.value == Strip(raw.value) && v.value != [] && Unpadded(v.value)
  {
    if raw.Some? && Strip(raw.value) != [] then Some(Strip(raw.value)) else None
  }

  /** `CharField(max_length=n, required=True)`, with the validator that refuses a NUL character. */
  function BoundedCharField(raw: Option<string>, maxLength: nat): (v: Option<string>)
    ensures v.Some? <==>
      CharFieldValue(raw).Some? && |CharFieldValue(raw).value| <= maxLength && '\0' !in CharFieldValue(raw).value
    ensures v.Some? ==> v.value == Strip(raw.value)
    ensures v.Some? ==> 0 < |v.value| <= maxLength && '\0' !in v.value && Unpadded(v.value)
  {
    match CharFieldValue(raw)
    case None => None
    case Some(s) => if |s| <= maxLength && '\0' !in s then Some(s) else None
  }

  /** A value that needs no stripping and meets the bounds passes the field unchanged. */
  lemma CleanValuePasses(s: string, maxLength: nat)
    requires s != [] && Unpadded(s) && |s| <= maxLength && '\0' !in s
    ensures BoundedCharField(Some(s), maxLength) == Some(s)
  {
    assert !AllSpace(s) by { assert !IsSpace(s[0]); }
  }

  // ---------------------------------------------------------------- SignUpSerializer

  datatype SignUpInput = SignUpInput(username: Option<string>, email: Option<string>)
  datatype SignUpData = SignUpData(username: Username, email: string)

  /** `validate_username`: "me" in any letter case is refused; anything else is returned as it is. */
  function ValidateUsername(value: string): (r: Result<string, string>)
    ensures r.Success? <==> value !in {"me", "ME", "Me", "mE"}
    ensures r.Success? ==> r.value == value
    ensures r.Failure? ==> r.error == ReservedMessage
  {
    LowerIsMe(value);
    if LowerAscii(value) == "me" then Failure(ReservedMessage) else Success(value)
  }

  /** What the username field promises of a username it accepts. */
  predicate AcceptableUsername(users: map<Username, Account>, v: string)
  {
    && 0 < |v| <= UsernameMaxLength
    && AllSlugChars(v)
    && v !in users
    && v !in {"me", "ME", "Me", "mE"}
  }

  /** A username the signup field accepts also passes the token field unchanged: slug characters are neither whitespace nor NUL. */
  lemma AcceptedUsernameIsClean(users: map<Username, Account>, v: string)
    requires AcceptableUsername(users, v)
    ensures v != [] && Unpadded(v) && |v| <= UsernameMaxLength && '\0' !in v
  {
    assert SlugChar(v[0]) && SlugChar(v[|v| - 1]);
  }

  /** `SlugField(max_length=150)` with `UniqueValidator` over all users, then `validate_username`. */
  function SignUpUsername(users: map<Username, Account>, raw: Option<string>): (v: Option<Username>)
    ensures v == if raw.Some? && AcceptableUsername(users, Strip(raw.value)) then Some(Strip(raw.value)) else None
  {
    match CharFieldValue(raw)
    case None => None
    case Some(s) =>
      SlugPatternOnStripped(raw.value);
      if |s| <= UsernameMaxLength && MatchesSlugPattern(s) && s !in users then
        match ValidateUsername(s)
        case Success(name) => Some(name)
        case Failure(_) => None
      else None
  }

  /** `EmailField` with `UniqueValidator` over all users; the address grammar is the parameter `isEmail`. */
  function SignUpEmail(users: map<Username, Account>, raw: Option<string>, isEmail: string -> bool): (v: Option<string>)
    ensures v.Some? <==> raw.Some? && var s := Strip(raw.value);
                         s != [] && '\0' !in s && isEmail(s) && !EmailInUse(users, s)
    ensures v.Some? ==> v.value == Strip(raw.value)
  {
    match CharFieldValue(raw)
    case None => None
    case Some(s) => if '\0' !in s && isEmail(s) && !EmailInUse(users, s) then Some(s) else None
  }

  /** `SignUpSerializer.is_valid()`: the validated data, or every field that failed. */
  function ValidateSignUp(users: map<Username, Account>, input: SignUpInput, isEmail: string -> bool)
    : (r: Result<SignUpData, set<Field>>)
    ensures r.Success? <==> SignUpUsername(users, input.username).Some? && SignUpEmail(users, input.email, isEmail).Some?
    ensures r.Success? ==>
      && r.value == SignUpData(Strip(input.username.value), Strip(input.email.value))
      && AcceptableUsername(users, r.value.username)
      && !EmailInUse(users, r.value.email)
    ensures r.Failure? ==>
      && r.error != {}
      && (UsernameField in r.error <==> SignUpUsername(users, input.username).None?)
      && (EmailField in r.error <==> SignUpEmail(users, input.email, isEmail).None?)
      && r.error <= {UsernameField, EmailField}
  {
    var name := SignUpUsername(users, input.username);
    var email := SignUpEmail(users, input.email, isEmail);
    if name.Some? && email.Some? then Success(SignUpData(name.value, email.value))
    else Failure((if name.None? then {UsernameField} else {}) + (if email.None? then {EmailField} else {}))
  }

  /** A username some user already holds is refused. */
  lemma TakenUsernameRejected(users: map<Username, Account>, input: SignUpInput, isEmail: string -> bool)
    requires input.username.Some? && Strip(input.username.value) in users
    ensures ValidateSignUp(users, input, isEmail).Failure?
    ensures UsernameField in ValidateSignUp(users, input, isEmail).error
  {
  }

  /** An email some user already holds is refused. */
  lemma TakenEmailRejected(users: map<Username, Account>, input: SignUpInput, isEmail: string -> bool)
    requires input.email.Some? && EmailInUse(users, Strip(input.email.value))
    ensures ValidateSignUp(users, input, isEmail).Failure?
    ensures EmailField in ValidateSignUp(users, input, isEmail).error
  {
  }

  /** A request whose username and email are both held already is refused on exactly those two fields. */
  lemma BothTakenRejected(users: map<Username, Account>, input: SignUpInput, isEmail: string -> bool)
    requires input.username.Some? && Strip(input.username.value) in users
    requires input.email.Some? && EmailInUse(users, Strip(input.email.value))
    ensures ValidateSignUp(users, input, isEmail) == Failure({UsernameField, EmailField})
  {
    assert SignUpUsername(users, input.username).None?;
    assert SignUpEmail(users, input.email, isEmail).None?;
    var r := ValidateSignUp(users, input, isEmail);
    assert r == Failure(r.error);
    FullPair(r.error, UsernameField, EmailField);
  }

  /** A subset of `{a, b}` holding both is `{a, b}`. */
  lemma FullPair(e: set<Field>, a: Field, b: Field)
    requires e <= {a, b} && a in e && b in e
    ensures e == {a, b}
  {
  }

  /** "me", "ME", "Me" and "mE" are refused, after stripping. */
  lemma ReservedUsernameRejected(users: map<Username, Account>, input: SignUpInput, isEmail: string -> bool)
    requires input.username.Some? && Strip(input.username.value) in {"me", "ME", "Me", "mE"}
    ensures ValidateSignUp(users, input, isEmail).Failure?
    ensures UsernameField in ValidateSignUp(users, input, isEmail).error
  {
  }

  // ---------------------------------------------------------------- GetTokenSerializer

  datatype TokenInput = TokenInput(username: Option<string>, confirmationCode: Option<string>)
  datatype TokenData = TokenData(username: string, confirmationCode: string)

  /** `GetTokenSerializer.is_valid()`: both fields required, username at most 150 and code at most 50 characters. */
  function ValidateGetToken(input: TokenInput): (r: Result<TokenData, set<Field>>)
    ensures r.Success? <==>
      BoundedCharField(input.username, UsernameMaxLength).Some? && BoundedCharField(input.confirmationCode, CodeMaxLength).Some?
    ensures r.Success? ==>
      && r.value.username == Strip(input.username.value) && 0 < |r.value.username| <= UsernameMaxLength
      && r.value.confirmationCode == Strip(input.confirmationCode.value) && 0 < |r.value.confirmationCode| <= CodeMaxLength
    ensures r.Failure? ==>
      && r.error != {} && r.error <= {UsernameField, CodeField}
      && (UsernameField in r.error <==> BoundedCharField(input.username, UsernameMaxLength).None?)
      && (CodeField in r.error <==> BoundedCharField(input.confirmationCode, CodeMaxLength).None?)
  {
    var name := BoundedCharField(input.username, UsernameMaxLength);
    var code := BoundedCharField(input.confirmationCode, CodeMaxLength);
    if name.Some? && code.Some? then Success(TokenData(name.value, code.value))
    else Failure((if name.None? then {UsernameField} else {}) + (if code.None? then {CodeField} else {}))
  }

  /** A missing field is named in the error (`required=True`). */
  lemma TokenFieldsRequired(input: TokenInput)
    requires input.username.None? || input.confirmationCode.None?
    ensures ValidateGetToken(input).Failure?
    ensures input.username.None? ==> UsernameField in ValidateGetToken(input).error
    ensures input.confirmationCode.None? ==> CodeField in ValidateGetToken(input).error
  {
  }
}
