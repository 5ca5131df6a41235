/** Account creation and the profile summary (src/actions/user.actions.ts). Sign-up validates the
    form against the shared credentials schema (src/lib/schema.ts), refuses an email some user
    already has (compared lower-cased), and stores the lower-cased email with a hash of the
    password. The email format check and the password hash are parameters. */
module UserActions {
  import opened Wrappers
  import opened Text
  import opened Store
  import FavoritesActions

  const MinPassword: nat := 7
  const ExpectedString: string := "Expected string, received null"
  const InvalidEmail: string := "Invalid email"
  const PasswordTooShort: string := "Password must be at least 7 characters long"
  const EmailTaken: string := "Пользователь с такой электронной почтой уже существует"
  const AccountCreated: string := "Аккаунт успешно создан!"
  const UserNotFound: string := "User not found"

  /** The action's `AuthState`: success with its message, or failure with its error. */
  datatype AuthState = Succeeded(message: string) | Failed(error: string)

  /** `schema.parse({ email, password })`: the fields are checked in order and the first issue
      is the one reported. A missing form field arrives as null. The password's length counts
      UTF-16 code units, as JavaScript's `length` does. */
  function ParseCredentials(email: Option<string>, password: Option<string>, isEmail: string -> bool)
    : (r: Result<(string, string)>)
    ensures r.Ok? <==> email.Some? && isEmail(email.value) && password.Some? && Utf16Length(password.value) >= MinPassword
    ensures r.Ok? ==> r.value == (email.value, password.value)
  {
    if email.None? then Err(ExpectedString)
    else if !isEmail(email.value) then Err(InvalidEmail)
    else if password.None? then Err(ExpectedString)
    else if Utf16Length(password.value) < MinPassword then Err(PasswordTooShort)
    else Ok((email.value, password.value))
  }

  /** Some user has exactly this email (`user.findUnique({ where: { email } })`). */
  predicate EmailInUse(users: map<UserId, User>, email: string) {
    exists k :: k in users && users[k].email == email
  }

  /** The row sign-up inserts: the lower-cased email, the hash, no profile, no subscription. */
  function NewUser(email: string, password: string, hash: string -> string): User {
    User(Lower(email), Some(hash(password)), None, None, false, None)
  }

  /** The effect of `signUp`: the users table afterwards and the state returned. `newId` is the
      key the database gives the new row. */
  function SignUp(users: map<UserId, User>, email: Option<string>, password: Option<string>,
                  isEmail: string -> bool, hash: string -> string, newId: UserId)
    : (map<UserId, User>, AuthState)
  {
    match ParseCredentials(email, password, isEmail)
    case Err(m) => (users, Failed(m))
    case Ok((e, p)) =>
      if EmailInUse(users, Lower(e)) then (users, Failed(EmailTaken))
      else (users[newId := NewUser(e, p, hash)], Succeeded(AccountCreated))
  }

  /** `signUp(prevState, formData)`. */
  method HandleSignUp(db: Db, email: Option<string>, password: Option<string>,
                      isEmail: string -> bool, hash: string -> string, newId: UserId)
    returns (state: AuthState)
    requires db.Valid() && newId !in db.users
    modifies db`users
    ensures db.Valid()
    ensures (db.users, state) == SignUp(old(db.users), email, password, isEmail, hash, newId)
  {
    var parsed := ParseCredentials(email, password, isEmail);
    if parsed.Err? {
      return Failed(parsed.message);
    }
    var (e, p) := parsed.value;
    var key := Lower(e);
    if exists k :: k in db.users && db.users[k].email == key {
      return Failed(EmailTaken);
    }
    db.CreateUser(newId, NewUser(e, p, hash));
    state := Succeeded(AccountCreated);
  }

  /** A request that fails the schema creates nothing and reports the first issue: the
      email's before the password's, and a password shorter than 7 characters is refused
      with its own message. */
  lemma InvalidInputCreatesNothing(users: map<UserId, User>, email: Option<string>, password: Option<string>,
                                   isEmail: string -> bool, hash: string -> string, newId: UserId)
    requires ParseCredentials(email, password, isEmail).Err?
    ensures var (after, state) := SignUp(users, email, password, isEmail, hash, newId);
      && after == users && state.Failed?
      && (email.Some? && isEmail(email.value) && password.Some? ==>
            Utf16Length(password.value) < MinPassword && state.error == PasswordTooShort)
      && (email.Some? && !isEmail(email.value) ==> state.error == InvalidEmail)
  {
  }

  /** An email already stored, in any letter case the lower-casing folds, is refused and
      nothing is created. */
  lemma TakenEmailRefused(users: map<UserId, User>, email: string, password: string,
                          isEmail: string -> bool, hash: string -> string, newId: UserId, owner: UserId)
    requires isEmail(email) && Utf16Length(password) >= MinPassword
    requires owner in users && users[owner].email == Lower(email)
    ensures SignUp(users, Some(email), Some(password), isEmail, hash, newId) == (users, Failed(EmailTaken))
  {
  }

  /** Otherwise exactly one user is added under the new key, holding the lower-cased email and
      the hash of the password, and every other row is kept. */
  lemma AcceptedSignUpCreatesOne(users: map<UserId, User>, email: string, password: string,
                                 isEmail: string -> bool, hash: string -> string, newId: UserId)
    requires isEmail(email) && Utf16Length(password) >= MinPassword
    requires !EmailInUse(users, Lower(email))
    requires newId !in users
    ensures var (after, state) := SignUp(users, Some(email), Some(password), isEmail, hash, newId);
      && state == Succeeded(AccountCreated)
      && after.Keys == users.Keys + {newId}
      && (forall k :: k in users ==> after[k] == users[k])
      && after[newId].email == Lower(email) && Lower(after[newId].email) == after[newId].email
      && after[newId].password == Some(hash(password))
      && !after[newId].subscriptionActive
  {
    LowerIdempotent(email);
  }

  /** Sign-up keeps emails unique, and once an address has signed up, a second sign-up with
      any spelling of it that lower-cases the same is refused. */
  lemma SignUpKeepsEmailsUnique(users: map<UserId, User>, email: Option<string>, password: Option<string>,
                                isEmail: string -> bool, hash: string -> string, newId: UserId,
                                again: string, password2: string, otherId: UserId)
    requires UniqueEmails(users) && newId !in users
    ensures UniqueEmails(SignUp(users, email, password, isEmail, hash, newId).0)
    ensures var (after, state) := SignUp(users, email, password, isEmail, hash, newId);
      state.Succeeded? && Lower(again) == Lower(email.value) && isEmail(again) && Utf16Length(password2) >= MinPassword ==>
        SignUp(after, Some(again), Some(password2), isEmail, hash, otherId) == (after, Failed(EmailTaken))
  {
    var (after, state) := SignUp(users, email, password, isEmail, hash, newId);
    if state.Succeeded? {
      assert after[newId].email == Lower(email.value);
    }
  }

  /** Every stored email is in lower case. */
  predicate LowerCaseEmails(users: map<UserId, User>) {
    forall k :: k in users ==> Lower(users[k].email) == users[k].email
  }

  /** Sign-up only ever stores lower-case emails. */
  lemma SignUpKeepsEmailsLowerCase(users: map<UserId, User>, email: Option<string>, password: Option<string>,
                                   isEmail: string -> bool, hash: string -> string, newId: UserId)
    requires LowerCaseEmails(users)
    ensures LowerCaseEmails(SignUp(users, email, password, isEmail, hash, newId).0)
  {
    if email.Some? {
      LowerIdempotent(email.value);
    }
  }

  // ----- getUserInfo -----

  /** What `getUserInfo` returns. */
  datatype UserInfo = UserInfo(id: UserId, name: Option<string>, email: string, favorites: nat,
                               hasActiveSubscription: bool, subscriptionExpires: Option<int>)

  /** `getUserInfo(userId)`: the user's columns, the number of their favorites and the
      subscription flag as stored; an unknown id throws. */
  function GetUserInfo(users: map<UserId, User>, favorites: seq<Favorite>, userId: UserId): (r: Result<UserInfo>)
    ensures r.Err? <==> userId !in users
    ensures r.Err? ==> r.message == UserNotFound
    ensures r.Ok? ==>
      && r.value.id == userId && r.value.email == users[userId].email && r.value.name == users[userId].name
      && r.value.hasActiveSubscription == users[userId].subscriptionActive
      && r.value.subscriptionExpires == users[userId].subscriptionExpires
  {
    if userId !in users then Err(UserNotFound)
    else
      var u := users[userId];
      Ok(UserInfo(userId, u.name, u.email, |FavoritesActions.UserRows(favorites, userId)|,
                  u.subscriptionActive, u.subscriptionExpires))
  }

  /** The favorites figure on the profile is the count the favorites actions keep: it agrees
      with `getFavoritesCount` for the same user, and so rises by one on an insert and falls by
      one on a successful remove. */
  lemma InfoCountsFavorites(users: map<UserId, User>, favorites: seq<Favorite>, news: seq<News>,
                            userId: UserId, newsId: NewsId, now: int)
    requires userId in users && UniquePairs(favorites)
    ensures GetUserInfo(users, favorites, userId).value.favorites
      == FavoritesActions.GetFavoritesCount(favorites, Some(userId))
    ensures var a := FavoritesActions.Add(favorites, news, Some(userId), newsId, now);
      GetUserInfo(users, a.favorites, userId).value.favorites
        == GetUserInfo(users, favorites, userId).value.favorites
           + (if a.result.Ok? && a.result.value.Inserted? then 1 else 0)
    ensures var r := FavoritesActions.Remove(favorites, Some(userId), newsId);
      GetUserInfo(users, r.favorites, userId).value.favorites
        == GetUserInfo(users, favorites, userId).value.favorites - (if r.result.Ok? then 1 else 0)
  {
    FavoritesActions.CountFollowsActions(favorites, news, userId, newsId, now);
  }
}
