/** The authentication configuration (auth.ts): the credentials provider's `authorize`, the
    `jwt` callback that marks credential sign-ins, and the `encode` hook that turns such a token
    into a database session. Password checking, token generation and the library's default
    encoder are parameters. */
module AuthConfig {
  import opened Wrappers
  import opened Text
  import opened Store
  import UserActions

  const InvalidCredentials: string := "Invalid credentials."
  const NoUserId: string := "No user ID found in token"
  /** The error the session insert rejects with when the token's subject has no user row. */
  const SessionRejected: string := "Session rejected: no user with this id"
  /** The message of the hook's own check on the adapter's answer; the adapter never answers
      without a session, so `Encode` never returns it. */
  const SessionMissing: string := "Failed to create session"
  const CredentialsProvider: string := "credentials"
  const SessionLifetime: int := 30 * DayMs

  /** The user stored under exactly this email, if any (`user.findUnique({ where: { email } })`). */
  ghost function UserWithEmail(users: map<UserId, User>, email: string): (r: Option<UserId>)
    ensures r.Some? <==> UserActions.EmailInUse(users, email)
    ensures r.Some? ==> r.value in users && users[r.value].email == email
  {
    if UserActions.EmailInUse(users, email) then
      var k :| k in users && users[k].email == email;
      Some(k)
    else None
  }

  /** The rest of `authorize` once the row is looked up: no row or no stored hash, and a
      password that does not verify against the hash, are both "Invalid credentials.". */
  ghost function CheckPassword(users: map<UserId, User>, found: Option<UserId>, password: string,
                               verify: (string, string) -> bool): (r: Result<UserId>)
    requires found.Some? ==> found.value in users
    ensures r.Ok? <==> found.Some? && users[found.value].password.Some?
                       && verify(password, users[found.value].password.value)
    ensures r.Ok? ==> r.value == found.value
    ensures r.Err? ==> r.message == InvalidCredentials
  {
    if found.None? || users[found.value].password.None? then Err(InvalidCredentials)
    else if !verify(password, users[found.value].password.value) then Err(InvalidCredentials)
    else Ok(found.value)
  }

  /** `authorize(credentials)` as written: after the schema, the row is looked up with the
      email exactly as typed. */
  ghost function AuthorizeAsWritten(users: map<UserId, User>, email: Option<string>, password: Option<string>,
                                    isEmail: string -> bool, verify: (string, string) -> bool): (r: Result<UserId>)
    ensures r.Ok? ==> email.Some? && r.value in users && users[r.value].email == email.value
  {
    match UserActions.ParseCredentials(email, password, isEmail)
    case Err(m) => Err(m)
    case Ok((e, p)) => CheckPassword(users, UserWithEmail(users, e), p, verify)
  }

  /** `authorize(credentials)` with the lookup lower-casing the email, as sign-up does when it
      stores it. */
  ghost function Authorize(users: map<UserId, User>, email: Option<string>, password: Option<string>,
                           isEmail: string -> bool, verify: (string, string) -> bool): (r: Result<UserId>)
    ensures r.Ok? ==> email.Some? && r.value in users && users[r.value].email == Lower(email.value)
  {
    match UserActions.ParseCredentials(email, password, isEmail)
    case Err(m) => Err(m)
    case Ok((e, p)) => CheckPassword(users, UserWithEmail(users, Lower(e)), p, verify)
  }

  /** Sign-in fails with "Invalid credentials." exactly when the credentials pass the schema
      but no stored user has that email with a hash the password verifies against. */
  lemma AuthorizeSpec(users: map<UserId, User>, email: string, password: string,
                      isEmail: string -> bool, verify: (string, string) -> bool)
    requires UniqueEmails(users)
    requires isEmail(email) && Utf16Length(password) >= UserActions.MinPassword
    ensures Authorize(users, Some(email), Some(password), isEmail, verify).Err? <==>
      !(exists k :: k in users && users[k].email == Lower(email) && users[k].password.Some?
                    && verify(password, users[k].password.value))
    ensures Authorize(users, Some(email), Some(password), isEmail, verify).Err? ==>
      Authorize(users, Some(email), Some(password), isEmail, verify).message == InvalidCredentials
  {
    var r := Authorize(users, Some(email), Some(password), isEmail, verify);
    if r.Err? {
      var found := UserWithEmail(users, Lower(email));
      forall k | k in users && users[k].email == Lower(email)
        ensures !(users[k].password.Some? && verify(password, users[k].password.value))
      {
        assert k == found.value;
      }
    }
  }

  /** What the password check assumes of the hash: a password verifies against its own hash. */
  ghost predicate HashVerifies(hash: string -> string, verify: (string, string) -> bool) {
    forall p :: verify(p, hash(p))
  }

  /** Whoever signs up can sign in with the same email and password, in whatever letter case
      they typed the email. */
  lemma SignUpThenSignIn(users: map<UserId, User>, email: string, password: string, newId: UserId,
                         isEmail: string -> bool, hash: string -> string, verify: (string, string) -> bool)
    requires UniqueEmails(users) && newId !in users
    requires HashVerifies(hash, verify)
    requires UserActions.SignUp(users, Some(email), Some(password), isEmail, hash, newId).1.Succeeded?
    ensures var after := UserActions.SignUp(users, Some(email), Some(password), isEmail, hash, newId).0;
      Authorize(after, Some(email), Some(password), isEmail, verify) == Ok(newId)
  {
    var after := UserActions.SignUp(users, Some(email), Some(password), isEmail, hash, newId).0;
    UserActions.SignUpKeepsEmailsUnique(users, Some(email), Some(password), isEmail, hash, newId, email, password, newId);
    var found := UserWithEmail(after, Lower(email));
    assert after[newId].email == Lower(email);
    assert found.value == newId;
    assert verify(password, hash(password));
  }

  /** As written, an address typed with a capital letter signs up (stored lower-cased) but can
      never sign in with the same credentials, as long as every stored email is lower-case,
      which sign-up keeps so. */
  lemma MixedCaseSignInFailsAsWritten(users: map<UserId, User>, email: string, password: string, newId: UserId,
                                      isEmail: string -> bool, hash: string -> string, verify: (string, string) -> bool)
    requires UserActions.LowerCaseEmails(users) && newId !in users
    requires UserActions.SignUp(users, Some(email), Some(password), isEmail, hash, newId).1.Succeeded?
    requires Lower(email) != email
    ensures var after := UserActions.SignUp(users, Some(email), Some(password), isEmail, hash, newId).0;
      AuthorizeAsWritten(after, Some(email), Some(password), isEmail, verify) == Err(InvalidCredentials)
  {
    var after := UserActions.SignUp(users, Some(email), Some(password), isEmail, hash, newId).0;
    if UserActions.EmailInUse(after, email) {
      var k :| k in after && after[k].email == email;
      assert false;
    }
  }

  /** A concrete case: "Ann@mail.ru" signs up into an empty table, and signing in with the very
      same credentials fails as written. */
  lemma CapitalisedAddressExample(password: string, isEmail: string -> bool, hash: string -> string,
                                  verify: (string, string) -> bool)
    requires isEmail("Ann@mail.ru") && Utf16Length(password) >= UserActions.MinPassword
    ensures var after := UserActions.SignUp(map[], Some("Ann@mail.ru"), Some(password), isEmail, hash, "u1").0;
      AuthorizeAsWritten(after, Some("Ann@mail.ru"), Some(password), isEmail, verify) == Err(InvalidCredentials)
  {
    assert Lower("Ann@mail.ru")[0] == 'a';
    MixedCaseSignInFailsAsWritten(map[], "Ann@mail.ru", password, "u1", isEmail, hash, verify);
  }

  // ----- the jwt callback -----

  /** The token fields this configuration reads and writes. */
  datatype Token = Token(sub: Option<UserId>, credentials: bool)

  /** `jwt({ token, account })`: a sign-in through the credentials provider marks the token;
      anything else returns it as it came. */
  function Jwt(token: Token, provider: Option<string>): (r: Token)
    ensures r.sub == token.sub
    ensures r.credentials <==> token.credentials || provider == Some(CredentialsProvider)
    ensures provider != Some(CredentialsProvider) ==> r == token
  {
    if provider == Some(CredentialsProvider) then token.(credentials := true) else token
  }

  // ----- encode -----

  /** The effect of `encode(params)`: the sessions afterwards and the encoded string.
      `uuid` is the value drawn for the session token and `defaultEncode` the library's
      encoder. */
  function Encode(sessions: map<string, Session>, users: map<UserId, User>, token: Option<Token>,
                  uuid: string, now: int, defaultEncode: Option<Token> -> string)
    : (map<string, Session>, Result<string>)
    requires uuid !in sessions
  {
    if token.Some? && token.value.credentials then
      if !Truthy(token.value.sub) then (sessions, Err(NoUserId))
      else if token.value.sub.value !in users then (sessions, Err(SessionRejected))
      else (sessions[uuid := Session(token.value.sub.value, now + SessionLifetime)], Ok(uuid))
    else (sessions, Ok(defaultEncode(token)))
  }

  method HandleEncode(db: Db, token: Option<Token>, uuid: string, now: int, defaultEncode: Option<Token> -> string)
    returns (r: Result<string>)
    requires uuid !in db.sessions
    modifies db`sessions
    ensures (db.sessions, r) == Encode(old(db.sessions), db.users, token, uuid, now, defaultEncode)
  {
    if token.Some? && token.value.credentials {
      var sessionToken := uuid;
      if !Truthy(token.value.sub) {
        return Err(NoUserId);
      }
      var created := db.CreateSession(sessionToken, Session(token.value.sub.value, now + SessionLifetime));
      if !created {
        return Err(SessionRejected);
      }
      return Ok(sessionToken);
    }
    r := Ok(defaultEncode(token));
  }

  /** A credentials token yields a database session: without a subject it is an error and
      nothing is stored; with one, exactly one session is added under the returned token, for
      that user, expiring thirty days after now, unless the user row is missing, which is an
      error from the insert. The hook's own "Failed to create session" is never the result.
      Any other token goes to the default encoder and no session is stored. */
  lemma EncodeSpec(sessions: map<string, Session>, users: map<UserId, User>, token: Option<Token>,
                   uuid: string, now: int, defaultEncode: Option<Token> -> string)
    requires uuid !in sessions
    ensures var (after, r) := Encode(sessions, users, token, uuid, now, defaultEncode);
      && (token.Some? && token.value.credentials && !Truthy(token.value.sub) ==>
            r == Err(NoUserId) && after == sessions)
      && (token.Some? && token.value.credentials && Truthy(token.value.sub) && token.value.sub.value in users ==>
            && r.Ok? && r.value !in sessions && after.Keys == sessions.Keys + {r.value}
            && (forall t :: t in sessions ==> after[t] == sessions[t])
            && after[r.value].userId == token.value.sub.value
            && after[r.value].expires - now == 30 * 24 * 60 * 60 * 1000)
      && (token.Some? && token.value.credentials && Truthy(token.value.sub) && token.value.sub.value !in users ==>
            r == Err(SessionRejected) && after == sessions)
      && (!(token.Some? && token.value.credentials) ==> after == sessions && r == Ok(defaultEncode(token)))
      && (r.Err? ==> after == sessions)
      && r != Err(SessionMissing)
  {
  }

  /** A credentials sign-in of a stored user always ends in a database session for that user,
      while a sign-in through any other provider of an unmarked token stores no session. */
  lemma SignInCreatesSession(sessions: map<string, Session>, users: map<UserId, User>, userId: UserId,
                             provider: Option<string>, uuid: string, now: int, defaultEncode: Option<Token> -> string)
    requires uuid !in sessions && userId != "" && userId in users
    ensures var token := Jwt(Token(Some(userId), false), provider);
      var (after, r) := Encode(sessions, users, Some(token), uuid, now, defaultEncode);
      && (provider == Some(CredentialsProvider) ==> r == Ok(uuid) && uuid in after && after[uuid].userId == userId)
      && (provider != Some(CredentialsProvider) ==> after == sessions)
  {
  }
}
