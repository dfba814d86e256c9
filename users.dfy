/**
  The custom `User` model (its display string, full name, identifier
  constraint, defaults and column bounds) and the authentication backend that
  logs a user in by email, username or phone number.
 */
module Users {
  import opened Strings
  import opened Values

  // ---------------------------------------------------------------------
  // The model.
  // ---------------------------------------------------------------------

  const EmailMax: nat := 255
  const UsernameMax: nat := 150
  const PhoneMax: nat := 17
  const NamePartMax: nat := 64

  /** A user row. The three identifiers and the name parts are nullable. */
  datatype User = User(
    id: nat,
    email: Option<string>,
    username: Option<string>,
    phoneNumber: Option<string>,
    firstName: Option<string>,
    lastName: Option<string>,
    middleName: Option<string>,
    isActive: bool,
    isEmailVerified: bool,
    isPhoneVerified: bool,
    isDeleted: bool,
    isStaff: bool,
    isSuperuser: bool)

  /** Python truthiness of a nullable text column. */
  predicate Present(v: Option<string>)
  {
    v.Some? && v.value != ""
  }

  /** The `user_must_have_identifier` check constraint: at least one identifier is not null. */
  predicate HasIdentifier(u: User)
  {
    u.email.Some? || u.username.Some? || u.phoneNumber.Some?
  }

  predicate Fits(v: Option<string>, bound: nat)
  {
    v.None? || |v.value| <= bound
  }

  /** The column lengths: email 255, username 150, phone number 17, each name part 64. */
  predicate WithinBounds(u: User)
  {
    && Fits(u.email, EmailMax) && Fits(u.username, UsernameMax) && Fits(u.phoneNumber, PhoneMax)
    && Fits(u.firstName, NamePartMax) && Fits(u.lastName, NamePartMax) && Fits(u.middleName, NamePartMax)
  }

  /** A user created with only identifiers: no names, and every status flag at its default of false. */
  function NewUser(id: nat, email: Option<string>, username: Option<string>, phoneNumber: Option<string>): (u: User)
    ensures u.email == email && u.username == username && u.phoneNumber == phoneNumber
    ensures !u.isActive && !u.isEmailVerified && !u.isPhoneVerified && !u.isDeleted && !u.isStaff && !u.isSuperuser
    ensures u.firstName.None? && u.lastName.None? && u.middleName.None?
  {
    User(id, email, username, phoneNumber, None, None, None, false, false, false, false, false, false)
  }

  /**
    `User.__str__`: the username if it is truthy, else the phone number if it
    is truthy, else the email, which may be null.
   */
  function UserStr(u: User): (r: Option<string>)
    ensures Present(u.username) ==> r == u.username
    ensures !Present(u.username) && Present(u.phoneNumber) ==> r == u.phoneNumber
    ensures !Present(u.username) && !Present(u.phoneNumber) ==> r == u.email
  {
    if Present(u.username) then u.username
    else if Present(u.phoneNumber) then u.phoneNumber
    else u.email
  }

  /** The display string is always one of the three identifiers. */
  lemma UserStrIsIdentifier(u: User)
    ensures UserStr(u) == u.username || UserStr(u) == u.phoneNumber || UserStr(u) == u.email
  {
  }

  /**
    The identifier constraint does not guarantee a display string: an empty
    (non-null) username with neither phone number nor email passes the
    constraint, and `__str__` then returns None.
   */
  lemma ConstraintAllowsNoDisplay()
    ensures var u := NewUser(0, None, Some(""), None);
      HasIdentifier(u) && UserStr(u).None?
  {
  }

  /** `User.full_name` as written: both parts formatted, a null one as "None", then stripped. */
  function FullName(firstName: Option<string>, lastName: Option<string>): string
  {
    Strip(Formatted(firstName) + " " + Formatted(lastName))
  }

  /** A user with no name parts gets the full name "None None". */
  lemma FullNameOfNoNames()
    ensures FullName(None, None) == "None None"
  {
    var s := Formatted(None) + " " + Formatted(None);
    assert s == "None None";
    assert s[0] == 'N' && s[|s| - 1] == 'e';
    StripUntouched(s);
  }

  /** Full names with both parts present and without outer whitespace are the two parts joined by a space. */
  lemma FullNameOfTwoParts(f: string, l: string)
    requires |f| > 0 && !IsSpace(f[0]) && |l| > 0 && !IsSpace(l[|l| - 1])
    ensures FullName(Some(f), Some(l)) == f + " " + l
  {
    var s := f + " " + l;
    assert s[0] == f[0] && s[|s| - 1] == l[|l| - 1];
    StripUntouched(s);
  }

  /** Stripping a string that begins and ends with non-space characters, after a run of trailing spaces is appended, gives the string back. */
  lemma StripTrailingSpaces(f: string, tail: string)
    requires |f| > 0 && !IsSpace(f[0]) && !IsSpace(f[|f| - 1])
    requires forall i :: 0 <= i < |tail| ==> IsSpace(tail[i])
    ensures Strip(f + tail) == f
  {
    var s := f + tail;
    assert s[0] == f[0] && s[|f| - 1] == f[|f| - 1];
    assert forall i :: |f| <= i < |s| ==> s[i] == tail[i - |f|];
    var left := StripLeft(s);
    assert left == s;
    var right := StripRight(s);
    assert right == f;
  }

  /** The full name as evidently intended: a null part contributes nothing. */
  function CorrectedFullName(firstName: Option<string>, lastName: Option<string>): (r: string)
    ensures firstName.None? && lastName.None? ==> r == ""
  {
    var f := if firstName.Some? then firstName.value else "";
    var l := if lastName.Some? then lastName.value else "";
    assert Strip(" ") == "" by {
      assert IsSpace(" "[0]);
    }
    Strip(f + " " + l)
  }

  /** The corrected full name of a user with only a first name is that first name. */
  lemma CorrectedFullNameFirstOnly(f: string)
    requires |f| > 0 && !IsSpace(f[0]) && !IsSpace(f[|f| - 1])
    ensures CorrectedFullName(Some(f), None) == f
  {
    assert f + " " + "" == f + " ";
    StripTrailingSpaces(f, " ");
  }

  /** Where both parts are present the corrected full name is the one as written. */
  lemma CorrectedFullNameAgrees(f: string, l: string)
    ensures CorrectedFullName(Some(f), Some(l)) == FullName(Some(f), Some(l))
  {
  }

  // ---------------------------------------------------------------------
  // The multi-field authentication backend.
  // ---------------------------------------------------------------------

  /** A case-insensitive equality lookup (`__iexact`); a null identifier matches a null column. */
  predicate IExact(column: Option<string>, ident: Option<string>)
  {
    if ident.None? then column.None?
    else column.Some? && Lower(column.value) == Lower(ident.value)
  }

  /** An exact equality lookup; a null identifier matches a null column. */
  predicate Exact(column: Option<string>, ident: Option<string>)
  {
    column == ident
  }

  /** The backend's filter: email or username equal ignoring case, or phone number equal exactly. */
  predicate Matches(u: User, ident: Option<string>)
  {
    IExact(u.email, ident) || IExact(u.username, ident) || Exact(u.phoneNumber, ident)
  }

  /**
    `.first()` of the filtered users: the index of the first match. With no
    ordering declared on the model, `.first()` orders by primary key, so
    `users` is listed in primary-key order.
   */
  function FirstMatch(users: seq<User>, ident: Option<string>): (r: Option<nat>)
    ensures r.Some? ==> r.value < |users| && Matches(users[r.value], ident)
    ensures r.Some? ==> forall j :: 0 <= j < r.value ==> !Matches(users[j], ident)
    ensures r.None? ==> forall j :: 0 <= j < |users| ==> !Matches(users[j], ident)
    decreases |users|
  {
    if |users| == 0 then None
    else if Matches(users[0], ident) then Some(0)
    else
      var rest := FirstMatch(users[1..], ident);
      if rest.Some? then Some(rest.value + 1) else None
  }

  /**
    What `authenticate` does: it returns a user, returns None, or fails with
    an `AttributeError` that its `DoesNotExist` handler does not catch.
   */
  datatype AuthOutcome = Authenticated(user: User) | Refused | Crashed

  /**
    `MultiFieldBackend.authenticate` as written. The password check is a
    parameter (`check(user, password)`).
   */
  function Authenticate(users: seq<User>, ident: Option<string>, password: Option<string>,
                        check: (User, Option<string>) -> bool): AuthOutcome
  {
    var m := FirstMatch(users, ident);
    if m.None? then Crashed
    else
      var u := users[m.value];
      if check(u, password) && u.isActive then Authenticated(u) else Refused
  }

  /**
    A user is returned exactly when it is the first match and both the
    password check and `is_active` pass; a refusal means the first match
    failed one of them.
   */
  lemma AuthenticateReturnsFirstMatch(users: seq<User>, ident: Option<string>, password: Option<string>,
                                      check: (User, Option<string>) -> bool, i: nat)
    requires i < |users| && Matches(users[i], ident)
    requires forall j :: 0 <= j < i ==> !Matches(users[j], ident)
    ensures Authenticate(users, ident, password, check) == Authenticated(users[i])
        <==> check(users[i], password) && users[i].isActive
    ensures Authenticate(users, ident, password, check) == Refused
        <==> !(check(users[i], password) && users[i].isActive)
  {
    var m := FirstMatch(users, ident);
    assert m.Some?;
    assert Matches(users[i], ident) && Matches(users[m.value], ident);
    assert m.value == i;
  }

  /** Without a matching user `authenticate` fails instead of returning None. */
  lemma NoMatchCrashes(users: seq<User>, ident: Option<string>, password: Option<string>,
                       check: (User, Option<string>) -> bool)
    requires forall j :: 0 <= j < |users| ==> !Matches(users[j], ident)
    ensures Authenticate(users, ident, password, check) == Crashed
  {
  }

  /** The concrete case: an empty user table. */
  lemma UnknownIdentifierCrashes(check: (User, Option<string>) -> bool)
    ensures Authenticate([], Some("nobody"), Some("secret"), check) == Crashed
  {
  }

  /** `authenticate` as evidently intended: no matching user gives None, like a failed password. */
  function CorrectedAuthenticate(users: seq<User>, ident: Option<string>, password: Option<string>,
                                 check: (User, Option<string>) -> bool): (r: AuthOutcome)
    ensures !r.Crashed?
    ensures r.Authenticated? ==> r.user in users && Matches(r.user, ident) && r.user.isActive && check(r.user, password)
    ensures (forall j :: 0 <= j < |users| ==> !Matches(users[j], ident)) ==> r == Refused
  {
    var m := FirstMatch(users, ident);
    if m.None? then Refused
    else
      var u := users[m.value];
      if check(u, password) && u.isActive then Authenticated(u) else Refused
  }

  /** Whenever some user matches, the corrected backend behaves as written. */
  lemma CorrectedAuthenticateAgrees(users: seq<User>, ident: Option<string>, password: Option<string>,
                                    check: (User, Option<string>) -> bool, i: nat)
    requires i < |users| && Matches(users[i], ident)
    ensures CorrectedAuthenticate(users, ident, password, check) == Authenticate(users, ident, password, check)
  {
    assert FirstMatch(users, ident).Some?;
  }

  /** The lookup ignores case on email and username but not on the phone number. */
  lemma LookupCases(u: User)
    requires u.email == Some("Ann@Mail.uz") && u.username == None && u.phoneNumber == Some("+998AB")
    ensures Matches(u, Some("ann@mail.UZ"))
    ensures Matches(u, Some("+998AB")) && !Matches(u, Some("+998ab"))
  {
    assert Lower("Ann@Mail.uz") == Lower("ann@mail.UZ");
    assert Lower("Ann@Mail.uz") != Lower("+998ab") by {
      assert Lower("Ann@Mail.uz")[0] == 'a';
    }
  }
}
