/** The edit-profile dialog (src/components/shared/edit-profile-form.tsx). It splits the stored
    name at spaces into first and last name for the form's defaults, requires both fields to be
    non-empty, and saves them joined by a space and trimmed. */
module EditProfileForm {
  import opened Wrappers
  import opened Text
  import opened Store
  import ProfileActions

  const FirstNameRequired: string := "Имя обязательно"
  const LastNameRequired: string := "Фамилия обязательна"

  /** `name?.split(" ")[i] || ""`: the i-th space-separated token, or "" when the name is
      absent or has fewer tokens. */
  function Token(name: Option<string>, i: nat): (r: string)
    ensures ' ' !in r
    ensures name.None? ==> r == ""
  {
    if name.None? then ""
    else
      var tokens := Split(name.value, ' ');
      if i < |tokens| then tokens[i] else ""
  }

  /** The form's default values: the first and the second token of the stored name. */
  function DefaultFirstName(name: Option<string>): string { Token(name, 0) }
  function DefaultLastName(name: Option<string>): string { Token(name, 1) }

  /** `profileSchema`: each field reports its own message when it is empty. */
  function FieldErrors(firstName: string, lastName: string): (r: (Option<string>, Option<string>))
    ensures r.0.None? <==> |firstName| >= 1
    ensures r.1.None? <==> |lastName| >= 1
    ensures r.0.Some? ==> r.0.value == FirstNameRequired
    ensures r.1.Some? ==> r.1.value == LastNameRequired
  {
    (if firstName == "" then Some(FirstNameRequired) else None,
     if lastName == "" then Some(LastNameRequired) else None)
  }

  /** What `onSubmit` sends as the new name: the two fields joined by a space, then trimmed. */
  function FullName(firstName: string, lastName: string): string {
    Trim(firstName + " " + lastName)
  }

  /** The submission: nothing is sent when a field is empty; otherwise the name to save. */
  function Submit(firstName: string, lastName: string): (r: Option<string>)
    ensures r.Some? <==> FieldErrors(firstName, lastName) == (None, None)
  {
    if firstName != "" && lastName != "" then Some(FullName(firstName, lastName)) else None
  }

  /** A name of two tokens, each non-empty and free of spaces and without white space at its
      outer ends, opens in the form as those two tokens and is saved back unchanged. */
  lemma TwoTokenRoundTrip(first: string, last: string)
    requires first != "" && last != "" && ' ' !in first && ' ' !in last
    requires !IsSpace(first[0]) && !IsSpace(last[|last| - 1])
    ensures DefaultFirstName(Some(first + " " + last)) == first
    ensures DefaultLastName(Some(first + " " + last)) == last
    ensures Submit(DefaultFirstName(Some(first + " " + last)), DefaultLastName(Some(first + " " + last)))
      == Some(first + " " + last)
  {
    var name := first + " " + last;
    assert Join([first, last], ' ') == name by {
      assert Join([first, last][1..], ' ') == last;
    }
    SplitJoin([first, last], ' ');
    assert name[0] == first[0] && name[|name| - 1] == last[|last| - 1];
    TrimUnchanged(name);
  }

  /** Tokens after the second are not shown in the form, so saving the dialog unchanged
      drops them. */
  lemma ExtraTokensDropped(a: string, b: string, rest: string)
    requires a != "" && b != "" && ' ' !in a && ' ' !in b
    ensures var name := a + " " + b + " " + rest;
      DefaultFirstName(Some(name)) == a && DefaultLastName(Some(name)) == b
      && Submit(DefaultFirstName(Some(name)), DefaultLastName(Some(name))) == Some(FullName(a, b))
  {
    var name := a + " " + b + " " + rest;
    assert name == a + (" " + b + " " + rest);
    SplitPrefix(a, " " + b + " " + rest, ' ');
    var t := " " + b + " " + rest;
    assert Split(t, ' ') == [""] + Split(t[1..], ' ');
    assert t[1..] == b + (" " + rest);
    SplitPrefix(b, " " + rest, ' ');
    assert Split(" " + rest, ' ')[0] == "";
  }

  /** Fields made only of spaces pass the schema but are saved as the empty name. */
  lemma BlankFieldsSaveEmptyName()
    ensures Submit(" ", " ") == Some("")
  {
    assert Trim("   ") == "" by {
      assert |Trim("   ")| > 0 ==> false;
    }
  }

  /** Saving the dialog sends only the name: the stored name becomes the saved one when that
      is non-empty, and stays as it was when both fields were blank; the image is kept. */
  lemma SaveUpdatesName(users: map<UserId, User>, id: UserId, firstName: string, lastName: string)
    requires id != "" && id in users
    requires Submit(firstName, lastName).Some?
    ensures var saved := Submit(firstName, lastName).value;
      var (after, r) := ProfileActions.UpdateProfile(users, Some(id), ProfileActions.ProfileData(Some(saved), None));
      && r.Ok?
      && after[id].name == (if saved != "" then Some(saved) else users[id].name)
      && after[id].image == users[id].image
  {
    var saved := Submit(firstName, lastName).value;
    ProfileActions.UpdateSpec(users, id, ProfileActions.ProfileData(Some(saved), None));
  }
}
