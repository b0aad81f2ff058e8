/**
 * The two views of users/views.py: `signup` stores a confirmation code for a
 * new user and mails it; `get_token` exchanges the stored code for an access
 * token and activates the user.
 *
 * `account_activation_token.make_token(user)` and `AccessToken().for_user(user)`
 * are opaque to the model: each view takes the function as a parameter.
 */
module UserViews {
  import opened Wrappers
  import opened Strings
  import opened Models
  import opened Responses
  import opened Store
  import opened UserSerializers

  const MismatchDetail := "Неверный код подверждения или пользователь не найден!"

  /** The message `send_mail` is asked to deliver: its recipient and the code in its body. */
  datatype Mail = Mail(to: string, code: string)

  // ---------------------------------------------------------------- signup

  datatype Obtained = Obtained(account: Account, created: bool)

  /**
   * `User.objects.get_or_create(username=..., email=...)`: the row holding
   * both values, or a new row; a new row that clashes with the unique
   * username or email raises IntegrityError.
   */
  function GetOrCreate(users: map<Username, Account>, name: Username, email: string): (r: Result<Obtained, Error>)
    ensures r.Success? && !r.value.created <==> name in users && users[name].email == email
    ensures r.Success? && !r.value.created ==> r.value.account == users[name]
    ensures r.Success? && r.value.created ==> name !in users && !EmailInUse(users, email) && r.value.account == NewAccount(email)
    ensures r.Failure? <==> !(name in users && users[name].email == email) && (name in users || EmailInUse(users, email))
    ensures r.Failure? ==> r.error == IntegrityError
  {
    if name in users && users[name].email == email then Success(Obtained(users[name], false))
    else if name in users || EmailInUse(users, email) then Failure(IntegrityError)
    else Success(Obtained(NewAccount(email), true))
  }

  /**
   * Both unique validators ran before `get_or_create`, so it can only
   * create: the branch that reuses an existing user is never taken.
   */
  lemma ValidatedSignUpCreates(users: map<Username, Account>, input: SignUpInput, isEmail: string -> bool)
    requires ValidateSignUp(users, input, isEmail).Success?
    ensures var d := ValidateSignUp(users, input, isEmail).value;
      GetOrCreate(users, d.username, d.email) == Success(Obtained(NewAccount(d.email), true))
  {
  }

  /** `user.is_active = False`, then `user.confirmation_code = make_token(user)`. */
  function Pending(name: Username, a: Account, makeToken: (Username, Account) -> string): (p: Account)
    ensures !p.isActive
    ensures p == a.(isActive := false, confirmationCode := p.confirmationCode)
    ensures p.confirmationCode == makeToken(name, a.(isActive := false))
  {
    var inactive := a.(isActive := false);
    inactive.(confirmationCode := makeToken(name, inactive))
  }

  /** The rows after a validated signup: the new user, inactive and holding its code. */
  function Register(users: map<Username, Account>, d: SignUpData, makeToken: (Username, Account) -> string)
    : (m: map<Username, Account>)
    ensures m.Keys == users.Keys + {d.username}
    ensures var a := m[d.username];
      && !a.isActive && a.email == d.email && a.role == DefaultRole && !a.isStaff && !a.isSuperuser
      && a.confirmationCode == makeToken(d.username, NewAccount(d.email).(isActive := false))
    ensures forall u :: u in users && u != d.username ==> m[u] == users[u]
  {
    users[d.username := Pending(d.username, NewAccount(d.email), makeToken)]
  }

  /** The user table after a signup request. */
  function AfterSignup(users: map<Username, Account>, input: SignUpInput, isEmail: string -> bool,
                       makeToken: (Username, Account) -> string): (m: map<Username, Account>)
    ensures ValidateSignUp(users, input, isEmail).Failure? ==> m == users
    ensures ValidateSignUp(users, input, isEmail).Success? ==>
      var name := Strip(input.username.value);
      && name !in users && m.Keys == users.Keys + {name} && !m[name].isActive
      && (forall u :: u in users ==> m[u] == users[u])
  {
    match ValidateSignUp(users, input, isEmail)
    case Failure(_) => users
    case Success(d) => Register(users, d, makeToken)
  }

  /** A signup request that fails validation leaves the user table as it was. */
  lemma FailedSignupChangesNothing(users: map<Username, Account>, input: SignUpInput, isEmail: string -> bool,
                                   makeToken: (Username, Account) -> string)
    requires ValidateSignUp(users, input, isEmail).Failure?
    ensures AfterSignup(users, input, isEmail, makeToken) == users
  {
  }

  /**
   * Registering a new username adds exactly one user, inactive, with the
   * default role and holding `make_token` of that user, and leaves every
   * other user as it was.
   */
  lemma SignupEffect(users: map<Username, Account>, d: SignUpData, makeToken: (Username, Account) -> string)
    requires d.username !in users
    ensures var after := Register(users, d, makeToken);
      && after.Keys == users.Keys + {d.username}
      && after[d.username].email == d.email
      && !after[d.username].isActive
      && after[d.username].role == User
      && after[d.username].confirmationCode == makeToken(d.username, NewAccount(d.email).(isActive := false))
      && (forall u :: u in users ==> after[u] == users[u])
  {
  }

  /** Registering an email nobody holds keeps the email column unique. */
  lemma {:induction false} SignupKeepsEmailsUnique(users: map<Username, Account>, d: SignUpData,
                                                   makeToken: (Username, Account) -> string)
    requires UsersValid(users) && d.username !in users && !EmailInUse(users, d.email)
    ensures UsersValid(Register(users, d, makeToken))
  {
    var after := Register(users, d, makeToken);
    forall u, v | u in after && v in after && u != v
      ensures after[u].email != after[v].email
    {
      if u == d.username {
        assert users[v].email != d.email;
      } else if v == d.username {
        assert users[u].email != d.email;
      } else {
        assert after[u] == users[u] && after[v] == users[v];
      }
    }
  }

  /**
   * Sending the same signup again is refused on both fields and changes
   * nothing: the code is never regenerated for an existing user.
   */
  lemma {:induction false} RepeatedSignupRejected(users: map<Username, Account>, input: SignUpInput,
                                                  isEmail: string -> bool, makeToken: (Username, Account) -> string)
    requires ValidateSignUp(users, input, isEmail).Success?
    ensures var after := AfterSignup(users, input, isEmail, makeToken);
      && ValidateSignUp(after, input, isEmail) == Failure({UsernameField, EmailField})
      && AfterSignup(after, input, isEmail, makeToken) == after
  {
    var d := ValidateSignUp(users, input, isEmail).value;
    var after := AfterSignup(users, input, isEmail, makeToken);
    assert after == Register(users, d, makeToken);
    assert d.username in after && after[d.username].email == d.email;
    BothTakenRejected(after, input, isEmail);
  }

  /**
   * The part of `signup` after validation: `get_or_create` (which, for a
   * validated request, inserts a new row), then the inactive flag and the
   * code, then `user.save()`.
   */
  method CreatePending(db: Database, name: Username, email: string, makeToken: (Username, Account) -> string)
    returns (user: Account)
    requires db.Valid() && name !in db.users && !EmailInUse(db.users, email)
    modifies db`users
    ensures db.Valid()
    ensures user == Pending(name, NewAccount(email), makeToken)
    ensures db.users == old(db.users)[name := user]
  {
    var got := GetOrCreate(db.users, name, email).value;
    user := got.account;
    var saved := db.SaveUser(name, user);                 // the INSERT get_or_create performs
    user := user.(isActive := false);
    user := user.(confirmationCode := makeToken(name, user));
    saved := db.SaveUser(name, user);                     // user.save()
  }

  /** `signup`: validate, get or create the row, mark it inactive with a fresh code, save it, mail the code. */
  method Signup(db: Database, input: SignUpInput, isEmail: string -> bool, makeToken: (Username, Account) -> string)
    returns (r: Result<SignUpData, Error>, mail: Option<Mail>)
    requires db.Valid()
    modifies db`users
    ensures db.Valid()
    ensures db.users == AfterSignup(old(db.users), input, isEmail, makeToken)
    ensures match ValidateSignUp(old(db.users), input, isEmail)
      case Failure(fields) => r == Failure(Invalid(fields)) && mail.None?
      case Success(d) =>
        // the mail goes to the email exactly as the request sent it, before stripping
        r == Success(d) && mail == Some(Mail(input.email.value, db.users[d.username].confirmationCode))
  {
    var v := ValidateSignUp(db.users, input, isEmail);
    if v.Failure? {
      return Failure(Invalid(v.error)), None;
    }
    var d := v.value;
    ValidatedSignUpCreates(db.users, input, isEmail);
    var user := CreatePending(db, d.username, d.email, makeToken);
    r := Success(d);
    mail := Some(Mail(input.email.value, user.confirmationCode));
  }

  // ---------------------------------------------------------------- get_token

  /** What `get_token` does with validated data: look the user up, then compare the stored code. */
  function Exchange(users: map<Username, Account>, d: TokenData): (r: Result<Username, Error>)
    ensures r.Success? <==> d.username in users && users[d.username].confirmationCode == d.confirmationCode
    ensures r.Success? ==> r.value == d.username
    ensures d.username !in users ==> r == Failure(NotFound)
    ensures r.Failure? && d.username in users ==> r == Failure(BadRequest(MismatchDetail))
  {
    if d.username !in users then Failure(NotFound)
    else if users[d.username].confirmationCode != d.confirmationCode then Failure(BadRequest(MismatchDetail))
    else Success(d.username)
  }

  /** What `get_token` answers: a field error, or the outcome of `Exchange`. */
  function CheckCode(users: map<Username, Account>, input: TokenInput): (r: Result<Username, Error>)
    ensures ValidateGetToken(input).Failure? ==> r == Failure(Invalid(ValidateGetToken(input).error))
    ensures r.Success? ==>
      && input.username.Some? && input.confirmationCode.Some?
      && r.value == Strip(input.username.value) && r.value in users
      && users[r.value].confirmationCode == Strip(input.confirmationCode.value)
    ensures ValidateGetToken(input).Success? && Strip(input.username.value) !in users ==> r == Failure(NotFound)
    ensures ValidateGetToken(input).Success? && Strip(input.username.value) in users ==>
      && (r.Success? <==> users[Strip(input.username.value)].confirmationCode == Strip(input.confirmationCode.value))
      && (r.Failure? ==> r == Failure(BadRequest(MismatchDetail)))
  {
    match ValidateGetToken(input)
    case Failure(fields) => Failure(Invalid(fields))
    case Success(d) => Exchange(users, d)
  }

  /** `user.is_active = True`. */
  function Activated(users: map<Username, Account>, name: Username): (m: map<Username, Account>)
    requires name in users
    ensures m.Keys == users.Keys && m[name].isActive
    ensures m[name] == users[name].(isActive := true)
    ensures forall u :: u in users && u != name ==> m[u] == users[u]
  {
    users[name := users[name].(isActive := true)]
  }

  /** The user table after `Exchange`. */
  function AfterExchange(users: map<Username, Account>, d: TokenData): (m: map<Username, Account>)
    ensures m.Keys == users.Keys
    ensures Exchange(users, d).Failure? ==> m == users
    ensures Exchange(users, d).Success? ==>
      m[d.username] == users[d.username].(isActive := true) && forall u :: u in users && u != d.username ==> m[u] == users[u]
  {
    match Exchange(users, d)
    case Success(name) => Activated(users, name)
    case Failure(_) => users
  }

  /** The user table after a token request. */
  function AfterGetToken(users: map<Username, Account>, input: TokenInput): (m: map<Username, Account>)
    ensures m.Keys == users.Keys
    ensures CheckCode(users, input).Failure? ==> m == users
    ensures CheckCode(users, input).Success? ==>
      var name := CheckCode(users, input).value;
      m[name] == users[name].(isActive := true) && forall u :: u in users && u != name ==> m[u] == users[u]
  {
    match ValidateGetToken(input)
    case Failure(_) => users
    case Success(d) => AfterExchange(users, d)
  }

  /** `get_token`. */
  method GetToken(db: Database, input: TokenInput, forUser: (Username, Account) -> string)
    returns (r: Result<string, Error>)
    requires db.Valid()
    modifies db`users
    ensures db.Valid()
    ensures db.users == AfterGetToken(old(db.users), input)
    ensures match CheckCode(old(db.users), input)
      case Failure(e) => r == Failure(e)
      case Success(name) => r == Success(forUser(name, db.users[name])) && db.users[name].isActive
  {
    var v := ValidateGetToken(input);
    if v.Failure? {
      return Failure(Invalid(v.error));
    }
    var d := v.value;
    if d.username !in db.users {
      return Failure(NotFound);                           // get_object_or_404
    }
    var user := db.users[d.username];
    if user.confirmationCode != d.confirmationCode {
      return Failure(BadRequest(MismatchDetail));
    }
    user := user.(isActive := true);
    var saved := db.SaveUser(d.username, user);
    r := Success(forUser(d.username, user));
  }

  /** A request whose code is not the stored one is refused with the generic message and changes nothing. */
  lemma StaleCodeRejected(users: map<Username, Account>, d: TokenData)
    requires d.username in users && users[d.username].confirmationCode != d.confirmationCode
    ensures Exchange(users, d) == Failure(BadRequest(MismatchDetail))
    ensures AfterExchange(users, d) == users
  {
  }

  /** An unknown username gives NotFound and changes nothing. */
  lemma UnknownUserNotFound(users: map<Username, Account>, d: TokenData)
    requires d.username !in users
    ensures Exchange(users, d) == Failure(NotFound)
    ensures AfterExchange(users, d) == users
  {
  }

  /** A request the token serializer refuses changes nothing and names the failing fields. */
  lemma InvalidTokenRequestChangesNothing(users: map<Username, Account>, input: TokenInput)
    requires ValidateGetToken(input).Failure?
    ensures CheckCode(users, input) == Failure(Invalid(ValidateGetToken(input).error))
    ensures AfterGetToken(users, input) == users
  {
  }

  /** A user whose stored code is blank (one never signed up) can never exchange it: the field refuses a blank code. */
  lemma BlankStoredCodeNeverMatches(users: map<Username, Account>, name: Username, input: TokenInput)
    requires name in users && users[name].confirmationCode == ""
    ensures CheckCode(users, input) != Success(name)
  {
    match ValidateGetToken(input)
    case Failure(_) =>
    case Success(d) => assert d.confirmationCode != "";
  }

  /**
   * Repeating an exchange leaves the table as the first one left it and
   * gets the same answer: activation does not touch the stored code.
   */
  lemma {:induction false} ExchangeIdempotent(users: map<Username, Account>, d: TokenData)
    ensures AfterExchange(AfterExchange(users, d), d) == AfterExchange(users, d)
    ensures Exchange(AfterExchange(users, d), d) == Exchange(users, d)
  {
    if Exchange(users, d).Success? {
      var once := Activated(users, d.username);
      assert once[d.username].confirmationCode == users[d.username].confirmationCode;
      assert Exchange(once, d) == Success(d.username);
      assert Activated(once, d.username) == once;
    }
  }

  /** The same for a whole token request. */
  lemma {:induction false} GetTokenIdempotent(users: map<Username, Account>, input: TokenInput)
    ensures AfterGetToken(AfterGetToken(users, input), input) == AfterGetToken(users, input)
    ensures CheckCode(AfterGetToken(users, input), input) == CheckCode(users, input)
  {
    match ValidateGetToken(input)
    case Failure(_) =>
    case Success(d) => ExchangeIdempotent(users, d);
  }

  /** The stored code, sent back verbatim with the username, is accepted and activates the user. */
  lemma StoredCodeAccepted(users: map<Username, Account>, name: Username, code: string)
    requires name in users && users[name].confirmationCode == code
    requires name != [] && Unpadded(name) && |name| <= UsernameMaxLength && '\0' !in name
    requires code != [] && Unpadded(code) && |code| <= CodeMaxLength && '\0' !in code
    ensures CheckCode(users, TokenInput(Some(name), Some(code))) == Success(name)
    ensures AfterGetToken(users, TokenInput(Some(name), Some(code)))[name].isActive
  {
    CleanValuePasses(name, UsernameMaxLength);
    CleanValuePasses(code, CodeMaxLength);
  }

  /**
   * The round trip of the protocol: after a successful signup, a token
   * request with the new username and the code that was mailed succeeds and
   * activates the user, provided `make_token` produced a code the token
   * field accepts unchanged (non-blank, unpadded, at most 50 characters, no NUL).
   */
  lemma {:induction false} SignupThenGetToken(users: map<Username, Account>, input: SignUpInput,
                                              isEmail: string -> bool, makeToken: (Username, Account) -> string)
    requires ValidateSignUp(users, input, isEmail).Success?
    requires var d := ValidateSignUp(users, input, isEmail).value;
      var code := makeToken(d.username, NewAccount(d.email).(isActive := false));
      code != [] && Unpadded(code) && |code| <= CodeMaxLength && '\0' !in code
    ensures var d := ValidateSignUp(users, input, isEmail).value;
      var code := makeToken(d.username, NewAccount(d.email).(isActive := false));
      var after := AfterSignup(users, input, isEmail, makeToken);
      var request := TokenInput(Some(d.username), Some(code));
      && CheckCode(after, request) == Success(d.username)
      && d.username in AfterGetToken(after, request)
      && AfterGetToken(after, request)[d.username].isActive
  {
    var d := ValidateSignUp(users, input, isEmail).value;
    AcceptedSignupRegisters(users, input, isEmail, makeToken);
    RegisteredThenGetToken(users, d, makeToken);
  }

  /** An accepted signup request registers its validated data. */
  lemma AcceptedSignupRegisters(users: map<Username, Account>, input: SignUpInput,
                                isEmail: string -> bool, makeToken: (Username, Account) -> string)
    requires ValidateSignUp(users, input, isEmail).Success?
    ensures AfterSignup(users, input, isEmail, makeToken) == Register(users, ValidateSignUp(users, input, isEmail).value, makeToken)
  {
  }

  /** The same round trip, from the validated signup data. */
  lemma {:induction false} RegisteredThenGetToken(users: map<Username, Account>, d: SignUpData,
                                                  makeToken: (Username, Account) -> string)
    requires AcceptableUsername(users, d.username)
    requires var code := makeToken(d.username, NewAccount(d.email).(isActive := false));
      code != [] && Unpadded(code) && |code| <= CodeMaxLength && '\0' !in code
    ensures var code := makeToken(d.username, NewAccount(d.email).(isActive := false));
      var after := Register(users, d, makeToken);
      var request := TokenInput(Some(d.username), Some(code));
      && CheckCode(after, request) == Success(d.username)
      && d.username in AfterGetToken(after, request)
      && AfterGetToken(after, request)[d.username].isActive
  {
    AcceptedUsernameIsClean(users, d.username);
    var after := Register(users, d, makeToken);
    assert d.username in after;
    StoredCodeAccepted(after, d.username, after[d.username].confirmationCode);
  }
}
