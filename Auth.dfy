/** The login routes of the back end (backend/routes/auth.js): how a typed user name is read
    as a local or a domain account, the development stand-in for the directory check, the
    local account check, and the answers of `POST /login` and `GET /auto-login`. The real
    directory bind and the database query are outcomes passed in. */
module Auth {
  import opened Common

  // ---------------------------------------------------------------- user names

  /** What `parseUsername` returns; `None` is JavaScript's `null`. */
  datatype Parsed = Parsed(
    username: Option<string>,
    domain: Option<string>,
    isDomainUser: bool,
    fullUsername: Option<string>)

  /** The accounts always treated as local, whatever the case they are typed in. */
  const LocalAccounts: seq<string> := ["admin"]

  /** The first backslash of `s` lies strictly inside it. */
  predicate InnerBackslash(s: string)
  {
    '\\' in s && 0 < FirstIndexOfChar(s, '\\') < |s| - 1
  }

  /** `/^([^\\]+)\\([^\\]+)$/`: exactly one backslash with text on both sides. */
  predicate BackslashPattern(s: string)
  {
    '\\' in s && 0 < FirstIndexOfChar(s, '\\') < |s| - 1
    && '\\' !in s[FirstIndexOfChar(s, '\\') + 1..]
  }

  predicate IsLocalAccount(s: string)
  {
    exists a :: a in LocalAccounts && ToLower(a) == ToLower(s)
  }

  /** `parseUsername(input)` with the configured default domain (empty when none is set). The
      source's second, regular-expression test for `domain\\user` is not a branch here: every
      name it matches has already been split by the first test (`PatternImpliesInner`). */
  function ParseUsername(input: string, defaultDomain: string): (r: Parsed)
    ensures input == [] ==> r == Parsed(None, None, false, None)
    ensures r.isDomainUser <==>
      input != [] && (InnerBackslash(input) || '@' in input
                      || (!IsLocalAccount(input) && defaultDomain != []))
    ensures input != [] ==> r.username.Some? && r.fullUsername.Some?
    ensures r.isDomainUser ==> r.domain.Some?
    ensures !r.isDomainUser ==> r.domain.None? && (input != [] ==> r.username == Some(input))
  {
    if input == [] then Parsed(None, None, false, None)
    else if InnerBackslash(input) then
      var k := FirstIndexOfChar(input, '\\');
      Parsed(Some(input[k + 1..]), Some(input[..k]), true, Some(input))
    else if '@' in input then
      var parts := Split(input, '@');
      SplitAtLeastTwo(input, '@');
      Parsed(Some(parts[0]), Some(parts[1]), true, Some(input))
    else if IsLocalAccount(input) then
      Parsed(Some(input), None, false, Some(input))
    else if defaultDomain != [] then
      Parsed(Some(input), Some(defaultDomain), true, Some(input + "@" + defaultDomain))
    else
      Parsed(Some(input), None, false, Some(input))
  }

  lemma SplitAtLeastTwo(s: string, sep: char)
    requires sep in s
    ensures |Split(s, sep)| >= 2
  {
  }

  /** The regular-expression branch never decides anything: every name it matches has already
      been split at its first backslash. */
  lemma PatternImpliesInner(s: string)
    requires BackslashPattern(s)
    ensures InnerBackslash(s)
  {
  }

  /** `domain\user`: the domain is the text before the first backslash and holds none; the
      two parts joined by the backslash give back the name typed. */
  lemma BackslashSplit(input: string, defaultDomain: string)
    requires InnerBackslash(input)
    ensures var r := ParseUsername(input, defaultDomain);
      r.isDomainUser && r.domain.value != [] && r.username.value != []
      && '\\' !in r.domain.value
      && r.domain.value + "\\" + r.username.value == input
      && r.fullUsername == Some(input)
  {
    var k := FirstIndexOfChar(input, '\\');
    assert input[..k] + "\\" + input[k + 1..] == input;
  }

  /** `user@domain`: the user is the text before the first `@`, the domain the text after it up
      to the next `@`; neither holds an `@`, and with a single `@` they rebuild the name. */
  lemma UpnSplit(input: string, defaultDomain: string)
    requires !InnerBackslash(input) && '@' in input
    ensures var r := ParseUsername(input, defaultDomain);
      var k := FirstIndexOfChar(input, '@');
      r.isDomainUser && r.username == Some(input[..k]) && '@' !in r.domain.value
      && StartsWith(input[k + 1..], r.domain.value)
      && ('@' !in input[k + 1..] ==> r.username.value + "@" + r.domain.value == input)
  {
    var k := FirstIndexOfChar(input, '@');
    var t := input[k + 1..];
    assert Split(input, '@') == [input[..k]] + Split(t, '@');
    SplitHead(t, '@');
    if '@' !in t {
      assert input[..k] + "@" + t == input;
    }
  }

  /** A plain name that is a local account, typed in any case, stays local. */
  lemma LocalAccountStaysLocal(input: string, defaultDomain: string)
    requires ToLower(input) == "admin"
    ensures !ParseUsername(input, defaultDomain).isDomainUser
    ensures ParseUsername(input, defaultDomain).username == Some(input)
  {
    assert LocalAccounts[0] in LocalAccounts;
    assert ToLower("admin") == "admin";
  }

  /** Any other plain name becomes `name@defaultDomain` when a default domain is configured. */
  lemma PlainNameJoinsDefaultDomain(input: string, defaultDomain: string)
    requires input != [] && '\\' !in input && '@' !in input && !IsLocalAccount(input)
    requires defaultDomain != []
    ensures var r := ParseUsername(input, defaultDomain);
      r.isDomainUser && r.domain == Some(defaultDomain)
      && r.fullUsername == Some(input + "@" + defaultDomain)
  {
  }

  // ---------------------------------------------------------------- the development stand-in

  /** The accounts of `mockVerifyDomainUser`, in declaration order (all with password
      `password123`). */
  const MockDomainUsers: seq<(string, string)> := [
    ("changdq", "password123"),
    ("testuser", "password123"),
    ("domain\\testuser", "password123"),
    ("testuser@domain.com", "password123"),
    ("changdq@jiuhuan.local", "password123")]

  /** The value stored under `key`, the first entry when keys repeat. */
  function Lookup(table: seq<(string, string)>, key: string): (r: Option<string>)
    ensures r.Some? <==> exists i :: 0 <= i < |table| && table[i].0 == key
    ensures r.Some? ==> (key, r.value) in table
  {
    if table == [] then None
    else if table[0].0 == key then Some(table[0].1)
    else Lookup(table[1..], key)
  }

  /** The user part of a stored key: after its last backslash, else before its first `@`. */
  function UserPart(key: string): string
  {
    if '\\' in key then LastSegment(key, '\\')
    else if '@' in key then Split(key, '@')[0]
    else key
  }

  predicate SameUser(key: string, username: string)
  {
    ToLower(UserPart(key)) == ToLower(username)
  }

  /** `Object.keys(table).find(...)`: the first key whose user part matches in any case. */
  function FindByUserPart(table: seq<(string, string)>, username: string): (r: Option<string>)
    ensures r.Some? ==>
      (SameUser(r.value, username) && exists i :: 0 <= i < |table| && table[i].0 == r.value)
    ensures r.None? ==> forall i :: 0 <= i < |table| ==> !SameUser(table[i].0, username)
  {
    if table == [] then None
    else if SameUser(table[0].0, username) then Some(table[0].0)
    else
      var r := FindByUserPart(table[1..], username);
      assert r.Some? ==> exists i :: 1 <= i < |table| && table[i].0 == r.value by {
        if r.Some? {
          var i :| 0 <= i < |table[1..]| && table[1..][i].0 == r.value;
          assert table[i + 1].0 == r.value;
        }
      }
      r
  }

  /** The key the stand-in settles on: the name itself when it is stored with a non-empty
      value, else the first key with the same user part. */
  function MatchedKey(table: seq<(string, string)>, username: string): Option<string>
  {
    var direct := Lookup(table, username);
    if direct.Some? && direct.value != [] then Some(username)
    else FindByUserPart(table, username)
  }

  /** `mockVerifyDomainUser`: true when it returns, false when it throws. */
  function MockVerify(table: seq<(string, string)>, username: string, password: string): (ok: bool)
    ensures ok ==>
      (exists i :: 0 <= i < |table| && table[i].1 == password
         && (table[i].0 == username || SameUser(table[i].0, username)))
  {
    var m := MatchedKey(table, username);
    var ok := m.Some? && m.value != [] && Lookup(table, m.value) == Some(password);
    if ok then
      assert (m.value, password) in table;
      var i :| 0 <= i < |table| && table[i] == (m.value, password);
      assert table[i].1 == password;
      ok
    else ok
  }

  /** A name stored under its own key with a non-empty password is checked against that
      password only: the exact key wins over any user-part match. */
  lemma ExactKeyFirst(table: seq<(string, string)>, username: string, password: string)
    requires Lookup(table, username).Some? && Lookup(table, username).value != []
    requires username != []
    ensures MockVerify(table, username, password) <==> Lookup(table, username) == Some(password)
  {
  }

  /** When no key is the name itself, the first key with the same user part decides, and its
      password must match. */
  lemma {:induction false} MockByUserPart(table: seq<(string, string)>, username: string, j: nat)
    requires Lookup(table, username).None?
    requires j < |table| && table[j].0 != [] && SameUser(table[j].0, username)
    requires forall i :: 0 <= i < j ==> !SameUser(table[i].0, username)
    requires forall i :: 0 <= i < j ==> table[i].0 != table[j].0
    ensures MockVerify(table, username, table[j].1)
  {
    FirstFound(table, username, j);
    LookupAt(table, j);
  }

  lemma {:induction false} FirstFound(table: seq<(string, string)>, username: string, j: nat)
    requires j < |table| && SameUser(table[j].0, username)
    requires forall i :: 0 <= i < j ==> !SameUser(table[i].0, username)
    ensures FindByUserPart(table, username) == Some(table[j].0)
  {
    if j > 0 {
      FirstFound(table[1..], username, j - 1);
    }
  }

  lemma {:induction false} LookupAt(table: seq<(string, string)>, j: nat)
    requires j < |table|
    requires forall i :: 0 <= i < j ==> table[i].0 != table[j].0
    ensures Lookup(table, table[j].0) == Some(table[j].1)
  {
    if j > 0 {
      LookupAt(table[1..], j - 1);
    }
  }

  /** A wrong password is refused for a stored name. */
  lemma MockWrongPassword()
    ensures !MockVerify(MockDomainUsers, "changdq", "secret")
  {
    assert Lookup(MockDomainUsers, "changdq") == Some("password123");
  }

  // ---------------------------------------------------------------- local accounts

  /** A row of the `users` table. */
  datatype UserRow = UserRow(username: string, password: string, role: string, roleId: string)

  datatype Verified = Verified(username: string, role: string, roleId: string)

  /** The rows the query returns: those with this name and password, in table order. */
  function Matching(rows: seq<UserRow>, username: string, password: string): (r: seq<UserRow>)
    ensures forall x :: x in r <==> x in rows && x.username == username && x.password == password
  {
    if rows == [] then []
    else if rows[0].username == username && rows[0].password == password
    then [rows[0]] + Matching(rows[1..], username, password)
    else Matching(rows[1..], username, password)
  }

  /** `verifyLocalUser`: `users` is `None` when the query fails (no such table), which leaves
      only the built-in `admin`/`admin` account. */
  function VerifyLocalUser(users: Option<seq<UserRow>>, username: string, password: string)
    : (r: Result<Verified, string>)
    ensures users.None? ==> (r.Ok? <==> username == "admin" && password == "admin")
    ensures users.None? && r.Ok? ==> r.value == Verified("admin", "admin", "1")
    ensures users.Some? ==>
      (r.Ok? <==> exists x :: x in users.value && x.username == username && x.password == password)
    ensures users.Some? && r.Ok? ==> r.value.username == username
  {
    if users.None? then
      if username == "admin" && password == "admin" then Ok(Verified("admin", "admin", "1"))
      else Err("用户名或密码错误")
    else
      var found := Matching(users.value, username, password);
      if |found| > 0 then
        assert found[0] in found;
        Ok(Verified(found[0].username, found[0].role, found[0].roleId))
      else
        assert forall x :: (x in users.value && x.username == username && x.password == password
                            ==> x in found);
        Err("用户名或密码错误")
  }

  // ---------------------------------------------------------------- POST /login

  /** The environment of the login route: development mode, the default domain, the outcome of
      the real directory bind for this request, and the `users` table (None when missing). */
  datatype LoginEnv = LoginEnv(
    isDev: bool,
    defaultDomain: string,
    directoryAccepts: bool,
    users: Option<seq<UserRow>>)

  datatype UserInfo = UserInfo(
    username: string,
    displayName: string,
    domain: Option<string>,
    role: string,
    roleId: string)

  datatype LoginResponse = LoginResponse(
    status: nat,
    success: bool,
    token: Option<string>,
    data: Option<UserInfo>)

  function Failure(status: nat): LoginResponse
  {
    LoginResponse(status, false, None, None)
  }

  /** `role || 'user'` and friends: an empty text falls back to the default. */
  function OrDefault(s: string, d: string): string
  {
    if s == [] then d else s
  }

  /** `POST /login` with the fields of the request body (empty when missing). */
  function Login(env: LoginEnv, username: string, password: string): (r: LoginResponse)
    ensures username == [] || password == [] ==> r.status == 400 && !r.success
    ensures r.status == 200 <==> r.success
    ensures r.status in {200, 400, 401}
    ensures r.success ==> r.data.Some? && r.token.Some?
  {
    if username == [] || password == [] then Failure(400)
    else
      var parsed := ParseUsername(username, env.defaultDomain);
      if parsed.isDomainUser then
        var accepted :=
          if env.isDev then MockVerify(MockDomainUsers, parsed.username.value, password)
          else env.directoryAccepts;
        if !accepted then Failure(401)
        else
          LoginResponse(200, true, Some("DOMAIN_LOGIN"),
            Some(UserInfo(parsed.fullUsername.value, parsed.username.value, parsed.domain,
                          "user", "3")))
      else
        match VerifyLocalUser(env.users, username, password)
        case Err(_) => Failure(401)
        case Ok(v) =>
          LoginResponse(200, true, Some("LOCAL_LOGIN"),
            Some(UserInfo(v.username, v.username, None, OrDefault(v.role, "user"),
                          OrDefault(v.roleId, "3"))))
  }

  /** The token says which way the user came in: `DOMAIN_LOGIN` exactly for names read as
      domain accounts, who get the plain user role. */
  lemma LoginToken(env: LoginEnv, username: string, password: string)
    requires Login(env, username, password).success
    ensures var r := Login(env, username, password);
      var p := ParseUsername(username, env.defaultDomain);
      r.token == Some(if p.isDomainUser then "DOMAIN_LOGIN" else "LOCAL_LOGIN")
      && (p.isDomainUser ==> r.data.value.roleId == "3" && r.data.value.domain == p.domain)
      && (!p.isDomainUser ==> r.data.value.domain.None?)
  {
  }

  /** A local account logs in exactly when the account check accepts it. */
  lemma LocalLoginIff(env: LoginEnv, username: string, password: string)
    requires username != [] && password != []
    requires !ParseUsername(username, env.defaultDomain).isDomainUser
    ensures Login(env, username, password).success
      <==> VerifyLocalUser(env.users, username, password).Ok?
  {
  }

  /** In development a domain name logs in exactly when the stand-in accepts its user part,
      whatever domain was typed. */
  lemma DevDomainLoginIff(env: LoginEnv, username: string, password: string)
    requires env.isDev && username != [] && password != []
    requires ParseUsername(username, env.defaultDomain).isDomainUser
    ensures Login(env, username, password).success
      <==> MockVerify(MockDomainUsers, ParseUsername(username, env.defaultDomain).username.value,
                      password)
  {
  }

  /** Without a `users` table, the only local login that succeeds is `admin`/`admin`, and it
      carries the administrator role. */
  lemma AdminFallback(env: LoginEnv, password: string)
    requires env.users.None?
    ensures Login(env, "admin", password).success <==> password == "admin"
    ensures Login(env, "admin", password).success ==>
      Login(env, "admin", password).data.value.role == "admin"
      && Login(env, "admin", password).token == Some("LOCAL_LOGIN")
  {
    LocalAccountStaysLocal("admin", env.defaultDomain);
  }

  // ---------------------------------------------------------------- GET /auto-login

  /** `GET /auto-login` with the `x-remote-user` and `remote-user` headers (empty when absent). */
  function AutoLogin(isDev: bool, defaultDomain: string, xRemoteUser: string, remoteUser: string)
    : (r: LoginResponse)
    ensures isDev ==> r.success && r.token == Some("DEV_AUTO_LOGIN")
    ensures !isDev && xRemoteUser == [] && remoteUser == [] ==> r.status == 401 && !r.success
    ensures !isDev && (xRemoteUser != [] || remoteUser != []) ==>
      r.success && r.token == Some("SSO_AUTO_LOGIN")
      && r.data.Some? && r.data.value.roleId == "3"
      && r.data.value.username
         == ParseUsername(if xRemoteUser != [] then xRemoteUser else remoteUser,
                          defaultDomain).username.value
  {
    if isDev then
      LoginResponse(200, true, Some("DEV_AUTO_LOGIN"),
        Some(UserInfo("dev-user", "开发测试用户", Some("DEV"), "test", "2")))
    else
      var remote := if xRemoteUser != [] then xRemoteUser else remoteUser;
      if remote == [] then Failure(401)
      else
        var parsed := ParseUsername(remote, defaultDomain);
        LoginResponse(200, true, Some("SSO_AUTO_LOGIN"),
          Some(UserInfo(parsed.username.value, parsed.username.value, parsed.domain, "user", "3")))
  }
}
