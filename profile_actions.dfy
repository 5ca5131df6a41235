/** Editing one's own profile (src/actions/profile.actions.ts): the signed-in user's name and
    image are overwritten by the values given, an empty or missing value leaving its column as
    it was. Every failure is reported with one generic message. */
module ProfileActions {
  import opened Wrappers
  import opened Store

  const UpdateFailed: string := "Не удалось обновить профиль"

  /** `UpdateProfileData`: both fields optional. */
  datatype ProfileData = ProfileData(name: Option<string>, image: Option<string>)

  /** `...(value && { column: value })`: a value is written only when present and non-empty. */
  function Written(value: Option<string>): (r: Option<string>)
    ensures r.Some? <==> value.Some? && value.value != ""
    ensures r.Some? ==> r == value
  {
    if value.Some? && value.value != "" then value else None
  }

  /** The row after the update: name and image replaced where a value is written, every other
      column kept. */
  function Patched(u: User, data: ProfileData): User {
    var name := Written(data.name);
    var image := Written(data.image);
    u.(name := if name.Some? then name else u.name, image := if image.Some? then image else u.image)
  }

  /** The effect of `updateProfile(data)` for the session's user: the users table afterwards and
      the updated row or the error. Without a signed-in user (no id, or the empty id, which
      `!session?.user?.id` also refuses), or when the row is gone, nothing is written. */
  function UpdateProfile(users: map<UserId, User>, sessionUser: Option<UserId>, data: ProfileData)
    : (map<UserId, User>, Result<User>)
  {
    if !Truthy(sessionUser) || sessionUser.value !in users then (users, Err(UpdateFailed))
    else
      var u := Patched(users[sessionUser.value], data);
      (users[sessionUser.value := u], Ok(u))
  }

  method HandleUpdateProfile(db: Db, sessionUser: Option<UserId>, data: ProfileData) returns (r: Result<User>)
    requires db.Valid()
    modifies db`users
    ensures db.Valid()
    ensures (db.users, r) == UpdateProfile(old(db.users), sessionUser, data)
  {
    if !Truthy(sessionUser) {
      return Err(UpdateFailed);
    }
    var id := sessionUser.value;
    var ok := db.SetProfile(id, Written(data.name), Written(data.image));
    if !ok {
      return Err(UpdateFailed);
    }
    r := Ok(db.users[id]);
  }

  /** Without a session user id, missing or empty, nothing is written and the generic error
      comes back. */
  lemma NoSessionNoWrite(users: map<UserId, User>, sessionUser: Option<UserId>, data: ProfileData)
    ensures !Truthy(sessionUser) ==> UpdateProfile(users, sessionUser, data) == (users, Err(UpdateFailed))
    ensures UpdateProfile(users, sessionUser, data).1.Ok? ==> Truthy(sessionUser) && sessionUser.value in users
  {
  }

  /** For the signed-in user: the name becomes the given name exactly when it is present and
      non-empty, otherwise it stays; the same holds for the image; email, password and the
      subscription columns never change, nor does any other user's row. */
  lemma UpdateSpec(users: map<UserId, User>, id: UserId, data: ProfileData)
    requires id != "" && id in users
    ensures var (after, r) := UpdateProfile(users, Some(id), data);
      && r.Ok? && after.Keys == users.Keys && after[id] == r.value
      && (forall k :: k in users && k != id ==> after[k] == users[k])
      && (after[id].name == if data.name.Some? && data.name.value != "" then data.name else users[id].name)
      && (after[id].image == if data.image.Some? && data.image.value != "" then data.image else users[id].image)
      && after[id].email == users[id].email && after[id].password == users[id].password
      && after[id].subscriptionActive == users[id].subscriptionActive
      && after[id].subscriptionExpires == users[id].subscriptionExpires
  {
  }

  /** An update with nothing to write, with empty strings included, leaves the table as it was
      and still succeeds; and repeating an update changes nothing further. */
  lemma EmptyAndRepeatedUpdates(users: map<UserId, User>, id: UserId, data: ProfileData)
    requires id != "" && id in users
    ensures (data.name.None? || data.name.value == "") && (data.image.None? || data.image.value == "") ==>
      UpdateProfile(users, Some(id), data) == (users, Ok(users[id]))
    ensures var once := UpdateProfile(users, Some(id), data).0;
      UpdateProfile(once, Some(id), data).0 == once
  {
    if (data.name.None? || data.name.value == "") && (data.image.None? || data.image.value == "") {
      assert Patched(users[id], data) == users[id];
      assert users[id := users[id]] == users;
    }
    var once := UpdateProfile(users, Some(id), data).0;
    assert Patched(once[id], data) == once[id];
    assert once[id := once[id]] == once;
  }
}
