/** The local-user routes: the profile and the password of a user kept in the local users
    file (an object from user names to user objects), as opposed to a domain user, whose
    name carries a domain (`DOMAIN\name` or `name@domain`) and whose data the domain
    system keeps. The user is named by the `x-username` request header. */
module LocalUser {
  import opened Common
  import opened JsNumber

  /** A user object of the file: its fields in JSON. */
  type Fields = map<string, Value>

  /** The users object, in the order `Object.keys` lists it. */
  type Users = seq<(string, Fields)>

  predicate DistinctKeys(users: Users)
  {
    forall i, j :: 0 <= i < j < |users| ==> users[i].0 != users[j].0
  }

  /** `f[k]`, undefined when the key is absent. */
  function Get(f: Fields, k: string): Value
  {
    if k in f then f[k] else Undefined
  }

  /** `a || b`. */
  function Or(a: Value, b: Value): (r: Value)
    ensures Truthy(a) ==> r == a
    ensures !Truthy(a) ==> r == b
  {
    if Truthy(a) then a else b
  }

  // ---------------------------------------------------------------- the users file

  /** What reading the users file finds: no file, a file that cannot be read or parsed,
      or the parsed users object. */
  datatype UsersFile = Missing | Unreadable | Content(users: Users)

  /** `readLocalUsers`: a missing file is first copied from the example file when there is
      one; any failure to read or parse gives the empty object. */
  function ReadLocalUsers(file: UsersFile, example: UsersFile): (r: Users)
    ensures file.Content? ==> r == file.users
    ensures file.Unreadable? ==> r == []
    ensures file.Missing? ==> r == (if example.Content? then example.users else [])
  {
    var read := if file.Missing? then example else file;
    if read.Content? then read.users else []
  }

  // ---------------------------------------------------------------- the current user

  /** `req.headers['x-username'] || ''`. */
  function UserName(header: Option<string>): string
  {
    if header.Some? then header.value else ""
  }

  /** `isDomainUserFromHeader`: a non-empty name with a backslash or an at sign. */
  predicate IsDomainUser(header: Option<string>)
  {
    var name := UserName(header);
    name != "" && ('\\' in name || '@' in name)
  }

  /** `Object.keys(users).find(k => k.toLowerCase() === name.toLowerCase())`, as an index. */
  function FindKey(users: Users, name: string): (r: Option<nat>)
    ensures r.Some? ==> r.value < |users| && ToLower(users[r.value].0) == ToLower(name)
    ensures r.Some? ==> forall i :: 0 <= i < r.value ==> ToLower(users[i].0) != ToLower(name)
    ensures r.None? ==> forall i :: 0 <= i < |users| ==> ToLower(users[i].0) != ToLower(name)
  {
    if users == [] then None
    else if ToLower(users[0].0) == ToLower(name) then Some(0)
    else
      var rest := FindKey(users[1..], name);
      if rest.Some? then Some(rest.value + 1) else None
  }

  /** The user found: where it stands, its key as spelled in the file, and its object. */
  datatype Current = Current(index: nat, key: string, user: Fields)

  /** `getCurrentLocalUser`: nothing for an empty or domain name; otherwise the first key
      equal to the name up to case. */
  function CurrentLocalUser(header: Option<string>, users: Users): (r: Option<Current>)
    ensures r.Some? ==> r.value.index < |users| && users[r.value.index] == (r.value.key, r.value.user)
  {
    var name := UserName(header);
    if name == "" || IsDomainUser(header) then None
    else
      var found := FindKey(users, name);
      if found.None? || users[found.value].0 == "" then None
      else Some(Current(found.value, users[found.value].0, users[found.value].1))
  }

  /** The user found is the first whose key matches the header name up to case, and there is
      none exactly when the name is empty, a domain name, or matches no key. */
  lemma CurrentLocalUserSpec(header: Option<string>, users: Users)
    ensures var r := CurrentLocalUser(header, users);
      r.Some? ==>
        UserName(header) != "" && !IsDomainUser(header) &&
        ToLower(r.value.key) == ToLower(UserName(header)) &&
        forall i :: 0 <= i < r.value.index ==> ToLower(users[i].0) != ToLower(UserName(header))
    ensures var r := CurrentLocalUser(header, users);
      r.None? <==>
        (UserName(header) == "" || IsDomainUser(header) ||
         forall i :: 0 <= i < |users| ==> ToLower(users[i].0) != ToLower(UserName(header)))
  {
  }

  /** Only the ASCII capitals change under lower-casing, so a lowered character is an at sign
      or a backslash exactly when the original is. */
  lemma LowerKeepsMarks(a: string, b: string)
    requires ToLower(a) == ToLower(b)
    ensures |a| == |b|
    ensures ('\\' in a <==> '\\' in b) && ('@' in a <==> '@' in b)
  {
    assert |a| == |ToLower(a)| == |ToLower(b)| == |b|;
    forall c | c == '\\' || c == '@'
      ensures c in a <==> c in b
    {
      if c in a {
        var i :| 0 <= i < |a| && a[i] == c;
        assert ToLowerChar(b[i]) == ToLower(b)[i] == ToLower(a)[i] == c;
      }
      if c in b {
        var i :| 0 <= i < |b| && b[i] == c;
        assert ToLowerChar(a[i]) == ToLower(a)[i] == ToLower(b)[i] == c;
      }
    }
  }

  /** Two header names that differ only in case find the same user. */
  lemma CaseInsensitiveLookup(a: string, b: string, users: Users)
    requires ToLower(a) == ToLower(b)
    ensures CurrentLocalUser(Some(a), users) == CurrentLocalUser(Some(b), users)
  {
    LowerKeepsMarks(a, b);
    FindKeySameName(users, a, b);
  }

  lemma {:induction false} FindKeySameName(users: Users, a: string, b: string)
    requires ToLower(a) == ToLower(b)
    ensures FindKey(users, a) == FindKey(users, b)
    decreases |users|
  {
    if users != [] {
      FindKeySameName(users[1..], a, b);
    }
  }

  lemma {:induction false} FindKeySameKeys(users: Users, other: Users, name: string)
    requires |users| == |other|
    requires forall i :: 0 <= i < |users| ==> users[i].0 == other[i].0
    ensures FindKey(users, name) == FindKey(other, name)
    decreases |users|
  {
    if users != [] {
      FindKeySameKeys(users[1..], other[1..], name);
    }
  }

  // ---------------------------------------------------------------- replies

  /** The profile data a reply carries. */
  datatype Profile = Profile(
    username: string, realName: Value, displayName: Value,
    email: Value, phoneNumber: Value, role: Value, roleId: Value)

  datatype Reply =
    | DomainUser          // 400: a domain user's data is kept by the domain system
    | NoLocalUser         // 404
    | ProfileData(profile: Profile)
    | ProfileUpdated(profile: Profile)
    | MissingPassword     // 400: both passwords are required
    | WrongPassword       // 400: the old password does not match
    | PasswordChanged

  function Status(r: Reply): (code: nat)
    ensures code == 200 <==> r.ProfileData? || r.ProfileUpdated? || r.PasswordChanged?
  {
    match r
    case NoLocalUser => 404
    case ProfileData(_) => 200
    case ProfileUpdated(_) => 200
    case PasswordChanged => 200
    case _ => 400
  }

  /** The profile of a user as the routes reply with it: each stored field when it is
      truthy, else its default (the key for the names, empty text for the contacts, `user`
      and `3` for the role). */
  function ProfileOf(key: string, user: Fields): (p: Profile)
    ensures p.username == key && p.realName == p.displayName
    ensures p.displayName == (if Truthy(Get(user, "displayName")) then Get(user, "displayName") else Str(key))
    ensures p.email == (if Truthy(Get(user, "email")) then Get(user, "email") else Str(""))
    ensures p.phoneNumber == (if Truthy(Get(user, "phoneNumber")) then Get(user, "phoneNumber") else Str(""))
    ensures p.role == (if Truthy(Get(user, "role")) then Get(user, "role") else Str("user"))
    ensures p.roleId == (if Truthy(Get(user, "roleId")) then Get(user, "roleId") else Str("3"))
  {
    var name := Or(Get(user, "displayName"), Str(key));
    Profile(key, name, name,
      Or(Get(user, "email"), Str("")), Or(Get(user, "phoneNumber"), Str("")),
      Or(Get(user, "role"), Str("user")), Or(Get(user, "roleId"), Str("3")))
  }

  // ---------------------------------------------------------------- GET /profile

  function GetProfile(header: Option<string>, users: Users): (r: Reply)
  {
    if IsDomainUser(header) then DomainUser
    else
      var current := CurrentLocalUser(header, users);
      if current.None? then NoLocalUser
      else ProfileData(ProfileOf(current.value.key, current.value.user))
  }

  /** A domain user gets 400, a name without a local user 404, and otherwise the profile
      of the user the name finds. */
  lemma GetProfileOutcomes(header: Option<string>, users: Users)
    ensures var r := GetProfile(header, users);
      (IsDomainUser(header) <==> r == DomainUser) &&
      (r == NoLocalUser <==> !IsDomainUser(header) && CurrentLocalUser(header, users).None?) &&
      (r.ProfileData? <==> CurrentLocalUser(header, users).Some?) &&
      (r.ProfileData? ==>
        var c := CurrentLocalUser(header, users).value;
        r.profile == ProfileOf(c.key, users[c.index].1))
  {
  }

  // ---------------------------------------------------------------- PUT /profile

  /** The user object after a profile edit: the other fields are kept; the display name is
      the first truthy of the given display name, the given real name, the stored display
      name and the key; a contact given as text replaces the stored one, otherwise the stored
      one is kept when truthy and becomes empty text when not. */
  function Edited(key: string, user: Fields, body: Fields): (r: Fields)
    ensures forall k :: k in user ==> k in r
    ensures forall k :: k in r && k != "displayName" && k != "email" && k != "phoneNumber" ==> k in user && r[k] == user[k]
  {
    var email := Get(body, "email");
    var phone := Get(body, "phoneNumber");
    var e := if email.Str? then email else Or(Get(user, "email"), Str(""));
    var p := if phone.Str? then phone else Or(Get(user, "phoneNumber"), Str(""));
    var r := user["displayName" := Or(Get(body, "displayName"), Or(Get(body, "realName"), Or(Get(user, "displayName"), Str(key))))]
        ["email" := e]["phoneNumber" := p];
    r
  }

  /** The reply, and the users written back (`None` when nothing is written). */
  function PutProfile(header: Option<string>, users: Users, body: Fields): (r: (Reply, Option<Users>))
    ensures r.1.Some? <==> r.0.ProfileUpdated?
  {
    if IsDomainUser(header) then (DomainUser, None)
    else
      var current := CurrentLocalUser(header, users);
      if current.None? then (NoLocalUser, None)
      else
        var c := current.value;
        var user := Edited(c.key, c.user, body);
        (ProfileUpdated(ProfileOf(c.key, user)), Some(users[c.index := (c.key, user)]))
  }

  /** A profile edit refuses domain users and unknown names and then writes nothing; on
      success it rewrites only the current user's entry, keeps its other fields and every
      key in place, takes the display name from the fallback chain, keeps a contact that
      is not given as text, and replies with the profile of the edited entry. */
  lemma PutProfileOutcomes(header: Option<string>, users: Users, body: Fields)
    ensures var r := PutProfile(header, users, body);
      (r.0 == DomainUser <==> IsDomainUser(header)) &&
      (r.0 == NoLocalUser <==> !IsDomainUser(header) && CurrentLocalUser(header, users).None?) &&
      (r.0.ProfileUpdated? <==> CurrentLocalUser(header, users).Some?)
    ensures var r := PutProfile(header, users, body);
      r.1.Some? ==>
        var c := CurrentLocalUser(header, users).value;
        var written := r.1.value;
        var user := written[c.index].1;
        |written| == |users| &&
        (forall i :: 0 <= i < |users| ==> written[i].0 == users[i].0) &&
        (forall i :: 0 <= i < |users| && i != c.index ==> written[i] == users[i]) &&
        (forall k :: k in users[c.index].1 && k != "displayName" && k != "email" && k != "phoneNumber" ==>
          k in user && user[k] == users[c.index].1[k]) &&
        Get(user, "displayName") ==
          Or(Get(body, "displayName"), Or(Get(body, "realName"), Or(Get(users[c.index].1, "displayName"), Str(c.key)))) &&
        (!Get(body, "email").Str? ==> Get(user, "email") == Or(Get(users[c.index].1, "email"), Str(""))) &&
        (Get(body, "email").Str? ==> Get(user, "email") == Get(body, "email")) &&
        (!Get(body, "phoneNumber").Str? ==> Get(user, "phoneNumber") == Or(Get(users[c.index].1, "phoneNumber"), Str(""))) &&
        (Get(body, "phoneNumber").Str? ==> Get(user, "phoneNumber") == Get(body, "phoneNumber")) &&
        r.0 == ProfileUpdated(ProfileOf(c.key, user))
  {
  }

  /** Reading the profile back after an edit gives the profile the edit replied with. */
  lemma PutThenGet(header: Option<string>, users: Users, body: Fields)
    requires PutProfile(header, users, body).1.Some?
    ensures GetProfile(header, PutProfile(header, users, body).1.value) == ProfileData(PutProfile(header, users, body).0.profile)
  {
    var c := CurrentLocalUser(header, users).value;
    var written := PutProfile(header, users, body).1.value;
    FindKeySameKeys(users, written, UserName(header));
  }

  // ---------------------------------------------------------------- POST /change-password

  /** `String(x)`: the text of a value. Numbers that are whole and below 10^21 in size are
      spelled out; any other finite number stands for its own spelling, which differs
      between different numbers. */
  datatype Text = Spelled(s: string) | NumberText(v: real)

  function JsText(x: Value): (t: Text)
    ensures t.NumberText? ==> x == Number(Finite(t.v)) && t.v != 0.0
    ensures Truthy(x) ==> t != Spelled("")
  {
    match x
    case Undefined => Spelled("undefined")
    case Null => Spelled("null")
    case Bool(b) => Spelled(if b then "true" else "false")
    case Number(NaN) => Spelled("NaN")
    case Number(Infinite(negative)) => Spelled(if negative then "-Infinity" else "Infinity")
    case Number(Finite(v)) =>
      if v == v.Floor as real && -1000000000000000000000.0 < v < 1000000000000000000000.0
      then Spelled(IntToString(v.Floor))
      else NumberText(v)
    case Str(s) => Spelled(s)
  }

  /** The value a text is stored as in the file. */
  function Stored(t: Text): Value
  {
    match t
    case Spelled(s) => Str(s)
    case NumberText(v) => Number(Finite(v))
  }

  /** The stored text of a value reads back as the same text, and the text of a truthy
      value is stored as a truthy value. */
  lemma StoredText(x: Value)
    ensures JsText(Stored(JsText(x))) == JsText(x)
    ensures Truthy(x) ==> Truthy(Stored(JsText(x)))
  {
  }

  function ChangePassword(header: Option<string>, users: Users, body: Fields): (r: (Reply, Option<Users>))
    ensures r.1.Some? <==> r.0 == PasswordChanged
  {
    if IsDomainUser(header) then (DomainUser, None)
    else
      var current := CurrentLocalUser(header, users);
      if current.None? then (NoLocalUser, None)
      else
        var c := current.value;
        var given := Get(body, "oldPassword");
        var wanted := Get(body, "newPassword");
        if !Truthy(given) || !Truthy(wanted) then (MissingPassword, None)
        else if JsText(given) != JsText(Or(Get(c.user, "password"), Str(""))) then (WrongPassword, None)
        else (PasswordChanged, Some(users[c.index := (c.key, c.user["password" := Stored(JsText(wanted))])]))
  }

  /** A password change refuses domain users and unknown names, needs both passwords, needs
      the old one to read as the stored one (a missing or falsy stored password reads as
      empty text); on success only the current user's password changes, to the text of
      the new one. */
  lemma ChangePasswordOutcomes(header: Option<string>, users: Users, body: Fields)
    ensures var r := ChangePassword(header, users, body);
      (r.0 == DomainUser <==> IsDomainUser(header)) &&
      (r.0 == NoLocalUser <==> !IsDomainUser(header) && CurrentLocalUser(header, users).None?)
    ensures var r := ChangePassword(header, users, body);
      CurrentLocalUser(header, users).Some? ==>
        var c := CurrentLocalUser(header, users).value;
        (r.0 == MissingPassword <==> !Truthy(Get(body, "oldPassword")) || !Truthy(Get(body, "newPassword"))) &&
        (r.0 == WrongPassword <==>
          Truthy(Get(body, "oldPassword")) && Truthy(Get(body, "newPassword")) &&
          JsText(Get(body, "oldPassword")) != JsText(Or(Get(c.user, "password"), Str("")))) &&
        (r.1.Some? ==>
          var written := r.1.value;
          |written| == |users| &&
          (forall i :: 0 <= i < |users| && i != c.index ==> written[i] == users[i]) &&
          written[c.index].0 == c.key &&
          written[c.index].1 == c.user["password" := Stored(JsText(Get(body, "newPassword")))])
  {
  }

  /** After a password change the new password is accepted as the old one. */
  lemma PasswordRoundTrip(header: Option<string>, users: Users, body: Fields, next: Value)
    requires ChangePassword(header, users, body).0 == PasswordChanged
    requires Truthy(next)
    ensures
      var written := ChangePassword(header, users, body).1.value;
      ChangePassword(header, written, map["oldPassword" := Get(body, "newPassword"), "newPassword" := next]).0 == PasswordChanged
  {
    var c := CurrentLocalUser(header, users).value;
    var written := ChangePassword(header, users, body).1.value;
    FindKeySameKeys(users, written, UserName(header));
    StoredText(Get(body, "newPassword"));
    assert CurrentLocalUser(header, written).value.user == c.user["password" := Stored(JsText(Get(body, "newPassword")))];
  }

  /** When the users file cannot be read, or is missing without a usable example, every
      route refuses the request with 400 or 404 and writes nothing. */
  lemma UnreadableFileRefuses(header: Option<string>, file: UsersFile, example: UsersFile, body: Fields)
    requires file.Unreadable? || (file.Missing? && !example.Content?)
    ensures var users := ReadLocalUsers(file, example);
      Status(GetProfile(header, users)) in {400, 404} &&
      PutProfile(header, users, body).1.None? && Status(PutProfile(header, users, body).0) in {400, 404} &&
      ChangePassword(header, users, body).1.None? && Status(ChangePassword(header, users, body).0) in {400, 404}
  {
    var users := ReadLocalUsers(file, example);
    assert users == [];
    CurrentLocalUserSpec(header, users);
  }
}
