/**
 The profile editor (app/ui/screens/EditProfile.tsx). On opening, the signed-in
 user's display name is split at spaces into a first name (the first piece)
 and a last name (the remaining pieces rejoined with spaces); the nick is
 taken as is. Saving sends a payload whose full name is the two name fields
 joined by one space.
 */
module EditProfile {
  import opened Wrappers
  import opened Names

  const Space: char := ' '

  /** The signed-in user as the screen reads it; absent fields are `None`. */
  datatype User = User(
    uid: string,
    displayName: Option<string>,
    nick: Option<string>,
    email: Option<string>,
    image: Option<string>)

  /** The three editable text fields. */
  datatype Form = Form(firstName: string, lastName: string, nick: string)

  /** A change typed into one of the fields (`onChangeText`). */
  datatype Edit = SetFirstName(text: string) | SetLastName(text: string) | SetNick(text: string)

  /** The body of the update request. */
  datatype Payload = Payload(
    googleId: Option<string>,
    nick: string,
    fullName: string,
    email: string,
    image: Option<string>)

  /** JavaScript's `x || ''` on an optional string: a missing value and the
      empty string both give the empty string. */
  function OrEmpty(o: Option<string>): (r: string)
    ensures o.Some? ==> r == o.value
    ensures o.None? ==> r == ""
  {
    match o
    case Some(v) => v
    case None => ""
  }

  /** `user?.displayName || ''`. */
  function DisplayName(user: Option<User>): (d: string)
    ensures user.Some? && user.value.displayName.Some? ==> d == user.value.displayName.value
    ensures user.None? || user.value.displayName.None? ==> d == ""
  {
    match user
    case Some(u) => OrEmpty(u.displayName)
    case None => ""
  }

  /** The first and last name derived from a display name: split at spaces,
      first piece, and the other pieces rejoined with single spaces. The
      result is the text before the first space and the text after it,
      spacing inside the last name kept exactly. */
  function NameParts(d: string): (r: (string, string))
    ensures var i := IndexOf(d, Space);
      && (i == -1 ==> r == (d, ""))
      && (i >= 0 ==> r == (d[..i], d[i + 1..]))
  {
    var names := Split(d, Space);
    SplitRest(d, Space);
    (names[0], Join(names[1..], Space))
  }

  /** The fields as the screen first shows them. */
  function InitialForm(user: Option<User>): (f: Form)
    ensures (f.firstName, f.lastName) == NameParts(DisplayName(user))
    ensures user.None? || user.value.displayName.None? ==> f.firstName == "" && f.lastName == ""
    ensures user.Some? && user.value.nick.Some? ==> f.nick == user.value.nick.value
    ensures user.None? || user.value.nick.None? ==> f.nick == ""
  {
    var parts := NameParts(DisplayName(user));
    Form(parts.0, parts.1, match user case Some(u) => OrEmpty(u.nick) case None => "")
  }

  /** Typing into one field replaces that field and leaves the others alone. */
  function ApplyEdit(f: Form, e: Edit): (g: Form)
    ensures e.SetFirstName? ==> g == f.(firstName := e.text)
    ensures e.SetLastName? ==> g == f.(lastName := e.text)
    ensures e.SetNick? ==> g == f.(nick := e.text)
  {
    match e
    case SetFirstName(t) => Form(t, f.lastName, f.nick)
    case SetLastName(t) => Form(f.firstName, t, f.nick)
    case SetNick(t) => Form(f.firstName, f.lastName, t)
  }

  /** `handleUpdateUser`'s payload. The full name starts with the first name,
      then one space, then the last name; the identity and image pass through
      from the user and the email defaults to the empty string. */
  function UpdatePayload(user: Option<User>, f: Form): (p: Payload)
    ensures |p.fullName| == |f.firstName| + 1 + |f.lastName|
    ensures p.fullName[..|f.firstName|] == f.firstName
    ensures p.fullName[|f.firstName|] == Space
    ensures p.fullName[|f.firstName| + 1..] == f.lastName
    ensures p.nick == f.nick
    ensures p.googleId.Some? <==> user.Some?
    ensures user.Some? ==> p.googleId == Some(user.value.uid) && p.image == user.value.image
    ensures user.None? ==> p.image.None?
    ensures user.Some? && user.value.email.Some? ==> p.email == user.value.email.value
    ensures user.None? || user.value.email.None? ==> p.email == ""
  {
    match user
    case Some(u) => Payload(Some(u.uid), f.nick, f.firstName + [Space] + f.lastName, OrEmpty(u.email), u.image)
    case None => Payload(None, f.nick, f.firstName + [Space] + f.lastName, "", None)
  }

  /** The two name parts joined by one space give back the display name
      when it has a space, and the display name plus one space otherwise. */
  lemma NamePartsRejoin(d: string)
    ensures Space in d ==> NameParts(d).0 + [Space] + NameParts(d).1 == d
    ensures Space !in d ==> NameParts(d).0 + [Space] + NameParts(d).1 == d + [Space]
  {
    var i := IndexOf(d, Space);
    if i >= 0 {
      assert d == d[..i] + [Space] + d[i + 1..];
    }
  }

  /** Saving without editing the names: the full name sent equals the display
      name exactly when the display name contains a space; otherwise it is the
      display name with one trailing space. */
  lemma UneditedNameRoundTrip(user: Option<User>)
    ensures var d := DisplayName(user);
      && (Space in d ==> UpdatePayload(user, InitialForm(user)).fullName == d)
      && (Space !in d ==> UpdatePayload(user, InitialForm(user)).fullName == d + [Space])
      && (UpdatePayload(user, InitialForm(user)).fullName == d <==> Space in d)
  {
    var d := DisplayName(user);
    var f := InitialForm(user);
    var full := UpdatePayload(user, f).fullName;
    assert full == f.firstName + [Space] + f.lastName;
    NamePartsRejoin(d);
    if Space !in d {
      assert |full| == |d| + 1;
    }
  }

  /** Saving and then opening the editor again on the saved full name gives
      back the same fields exactly when the first name typed has no space;
      a space in the first name moves its tail into the last name. */
  lemma SavedNamesReopen(user: Option<User>, f: Form)
    ensures NameParts(UpdatePayload(user, f).fullName) == (f.firstName, f.lastName)
      <==> Space !in f.firstName
  {
    var s := UpdatePayload(user, f).fullName;
    assert s == f.firstName + [Space] + f.lastName;
    if Space !in f.firstName {
      IndexOfAfterPiece(f.firstName, Space, f.lastName);
    } else {
      var j := IndexOf(f.firstName, Space);
      assert s[..|f.firstName|] == f.firstName;
      assert s[..j] == f.firstName[..j];
      assert s[j] == Space;
      assert IndexOf(s, Space) == j;
      assert |NameParts(s).0| == j < |f.firstName|;
    }
  }

  /** Edits reach the saved payload field by field: a nick edit leaves the
      full name alone, a name edit leaves the nick, email and identity alone,
      and after typing a last name, reopening on the saved full name shows
      that last name, provided the first name has no space. */
  lemma EditsReachPayload(user: Option<User>, f: Form, e: Edit)
    ensures var p := UpdatePayload(user, f);
      var q := UpdatePayload(user, ApplyEdit(f, e));
      && (e.SetNick? ==> q.fullName == p.fullName && q.nick == e.text)
      && (!e.SetNick? ==> q.nick == p.nick && q.email == p.email && q.googleId == p.googleId)
      && (e.SetLastName? && Space !in f.firstName ==> NameParts(q.fullName) == (f.firstName, e.text))
      && (e.SetFirstName? && Space !in e.text ==> NameParts(q.fullName) == (e.text, f.lastName))
  {
    SavedNamesReopen(user, ApplyEdit(f, e));
  }
}
