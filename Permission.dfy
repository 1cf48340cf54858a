/** The permission routes of the back end (backend/routes/permission.js): the routes a user may
    open (every route for `admin`, otherwise the union of direct grants and the grants of the
    user's directory groups), granting and revoking permissions for users and groups, the
    escaping of directory search filters, and the paging of directory users. The directory
    itself is an input: the groups a user belongs to and the accounts a search returns. */
module Permission {
  import opened Common
  import opened Grouping

  // ---------------------------------------------------------------- tables

  datatype PermissionRow = PermissionRow(
    id: int, routeName: string, routePath: string, pageTitle: string, parentRoute: string)

  /** A row of `user_permissions`. */
  datatype Grant = Grant(username: string, permissionId: int)

  /** A row of `group_permissions`. */
  datatype GroupGrant = GroupGrant(groupDn: string, groupName: string, permissionId: int)

  datatype Db = Db(
    permissions: seq<PermissionRow>,
    userPermissions: seq<Grant>,
    groupPermissions: seq<GroupGrant>)

  /** `permissions.id` is the table's key. */
  predicate IdsUnique(ps: seq<PermissionRow>)
  {
    forall i, j :: 0 <= i < j < |ps| ==> ps[i].id != ps[j].id
  }

  // ---------------------------------------------------------------- the routes of a user

  function RouteNames(ps: seq<PermissionRow>): (r: seq<string>)
    ensures |r| == |ps|
    ensures forall i :: 0 <= i < |ps| ==> r[i] == ps[i].routeName
  {
    if ps == [] then [] else [ps[0].routeName] + RouteNames(ps[1..])
  }

  predicate GrantedTo(grants: seq<Grant>, username: string, id: int)
  {
    Grant(username, id) in grants
  }

  predicate GrantedToGroups(grants: seq<GroupGrant>, groupDns: seq<string>, id: int)
  {
    exists g :: g in grants && g.groupDn in groupDns && g.permissionId == id
  }

  /** The permissions whose id passes `granted`, in table order. */
  function Granted(ps: seq<PermissionRow>, granted: int -> bool): (r: seq<PermissionRow>)
    ensures forall p :: p in r <==> p in ps && granted(p.id)
  {
    if ps == [] then []
    else if granted(ps[0].id) then [ps[0]] + Granted(ps[1..], granted)
    else Granted(ps[1..], granted)
  }

  /** `SELECT DISTINCT p.route_name ... WHERE up.username = @username`. */
  function DirectRoutes(db: Db, username: string): seq<string>
  {
    Distinct(RouteNames(Granted(db.permissions, id => GrantedTo(db.userPermissions, username, id))))
  }

  /** The route names granted to any of the groups (`gp.group_dn IN (...)`). */
  function GroupRoutes(db: Db, groupDns: seq<string>): seq<string>
  {
    Distinct(RouteNames(Granted(db.permissions,
      id => GrantedToGroups(db.groupPermissions, groupDns, id))))
  }

  /** `GET /user/:username`. `memberOf` is what the directory says about the user's groups;
      `None` when the directory library is missing, the search fails or finds nothing, which
      leaves only the direct grants. */
  function UserRoutes(db: Db, username: string, memberOf: Option<seq<string>>): (r: seq<string>)
    ensures username == "admin" ==> r == RouteNames(db.permissions)
    ensures username != "admin" ==> NoDups(r)
  {
    if username == "admin" then RouteNames(db.permissions)
    else
      var groups := if memberOf.Some? && memberOf.value != [] then GroupRoutes(db, memberOf.value) else [];
      Distinct(DirectRoutes(db, username) + groups)
  }

  predicate RouteOf(ps: seq<PermissionRow>, name: string, granted: int -> bool)
  {
    exists p :: p in ps && p.routeName == name && granted(p.id)
  }

  lemma RouteNamesMembers(ps: seq<PermissionRow>, name: string)
    ensures name in RouteNames(ps) <==> exists p :: p in ps && p.routeName == name
  {
    if name in RouteNames(ps) {
      var i :| 0 <= i < |ps| && RouteNames(ps)[i] == name;
      assert ps[i] in ps;
    }
    if exists p :: p in ps && p.routeName == name {
      var p :| p in ps && p.routeName == name;
      var i :| 0 <= i < |ps| && ps[i] == p;
      assert RouteNames(ps)[i] == name;
    }
  }

  lemma GrantedRoutes(ps: seq<PermissionRow>, granted: int -> bool, name: string)
    ensures name in RouteNames(Granted(ps, granted)) <==> RouteOf(ps, name, granted)
  {
    RouteNamesMembers(Granted(ps, granted), name);
  }

  /** `admin` sees every route of the permission table. */
  lemma AdminSeesAll(db: Db, memberOf: Option<seq<string>>, name: string)
    ensures name in UserRoutes(db, "admin", memberOf)
      <==> exists p :: p in db.permissions && p.routeName == name
  {
    RouteNamesMembers(db.permissions, name);
  }

  /** Anyone else sees, once each, exactly the routes granted to them directly or to one of
      their groups. */
  lemma UserRoutesUnion(db: Db, username: string, memberOf: Option<seq<string>>, name: string)
    requires username != "admin"
    ensures var groups := if memberOf.Some? then memberOf.value else [];
      name in UserRoutes(db, username, memberOf)
      <==> RouteOf(db.permissions, name, id => GrantedTo(db.userPermissions, username, id))
           || RouteOf(db.permissions, name, id => GrantedToGroups(db.groupPermissions, groups, id))
  {
    GrantedRoutes(db.permissions, id => GrantedTo(db.userPermissions, username, id), name);
    var groups := if memberOf.Some? then memberOf.value else [];
    GrantedRoutes(db.permissions, id => GrantedToGroups(db.groupPermissions, groups, id), name);
  }

  /** `GET /group/:groupName`: the routes granted under that group name. */
  function GroupNameRoutes(db: Db, groupName: string): (r: seq<string>)
    ensures NoDups(r)
    ensures forall name :: name in r <==>
      RouteOf(db.permissions, name,
        id => exists g :: g in db.groupPermissions && g.groupName == groupName && g.permissionId == id)
  {
    var granted := id => exists g :: g in db.groupPermissions && g.groupName == groupName && g.permissionId == id;
    forall name ensures name in RouteNames(Granted(db.permissions, granted))
      <==> RouteOf(db.permissions, name, granted)
    {
      GrantedRoutes(db.permissions, granted, name);
    }
    Distinct(RouteNames(Granted(db.permissions, granted)))
  }

  // ---------------------------------------------------------------- granting

  /** The number of permission rows whose id is among `ids`: the rows the existence query
      returns. */
  function Found(ps: seq<PermissionRow>, ids: set<int>): (n: nat)
    ensures n <= |ps|
  {
    if ps == [] then 0 else (if ps[0].id in ids then 1 else 0) + Found(ps[1..], ids)
  }

  function IdSet(ps: seq<PermissionRow>): (r: set<int>)
    ensures forall i :: i in r <==> exists k :: 0 <= k < |ps| && ps[k].id == i
  {
    if ps == [] then {}
    else
      var r := {ps[0].id} + IdSet(ps[1..]);
      assert forall i :: (exists k :: 1 <= k < |ps| && ps[k].id == i) ==> i in IdSet(ps[1..]) by {
        forall i | exists k :: 1 <= k < |ps| && ps[k].id == i ensures i in IdSet(ps[1..]) {
          var k :| 1 <= k < |ps| && ps[k].id == i;
          assert ps[1..][k - 1].id == i;
        }
      }
      r
  }

  datatype Rejection = EmptyIds | UnknownIds | MissingGroupDn

  /** The checks of the assign routes: a non-empty list, and as many rows found as ids sent. */
  function CheckIds(ps: seq<PermissionRow>, ids: seq<int>): (r: Option<Rejection>)
    ensures ids == [] ==> r == Some(EmptyIds)
  {
    if ids == [] then Some(EmptyIds)
    else if Found(ps, set i | i in ids) != |ids| then Some(UnknownIds)
    else None
  }

  lemma {:induction false} FoundIsIntersection(ps: seq<PermissionRow>, ids: set<int>)
    requires IdsUnique(ps)
    ensures Found(ps, ids) == |IdSet(ps) * ids|
  {
    if ps != [] {
      var rest := ps[1..];
      assert IdsUnique(rest);
      FoundIsIntersection(rest, ids);
      assert IdSet(ps) == {ps[0].id} + IdSet(rest);
      assert ps[0].id !in IdSet(rest);
      AddOneCount(ps[0].id, IdSet(rest), ids);
    }
  }

  lemma AddOneCount(x: int, rest: set<int>, ids: set<int>)
    requires x !in rest
    ensures |({x} + rest) * ids| == (if x in ids then 1 else 0) + |rest * ids|
  {
    var a := {x} * ids;
    var b := rest * ids;
    assert ({x} + rest) * ids == a + b;
    assert a * b == {};
    if x in ids {
      assert a == {x};
    } else {
      assert a == {};
    }
  }

  /** The distinct ids of a list number its length exactly when none repeats. */
  lemma {:induction false} DistinctCount(ids: seq<int>)
    ensures |set i | i in ids| <= |ids|
    ensures |set i | i in ids| == |ids| <==> NoDups(ids)
  {
    if ids != [] {
      var rest := ids[1..];
      DistinctCount(rest);
      var s := set i | i in rest;
      assert (set i | i in ids) == {ids[0]} + s;
      if ids[0] in s {
        assert (set i | i in ids) == s;
        var j :| 0 <= j < |rest| && rest[j] == ids[0];
        assert ids[j + 1] == ids[0];
      } else {
        assert NoDups(ids) <==> NoDups(rest) by {
          if NoDups(rest) {
            forall i, j | 0 <= i < j < |ids| ensures ids[i] != ids[j] {
              if i == 0 { assert ids[j] == rest[j - 1]; assert ids[j] in s; }
              else { assert ids[i] == rest[i - 1] && ids[j] == rest[j - 1]; }
            }
          }
        }
      }
    }
  }

  lemma IntersectionCount(a: set<int>, b: set<int>)
    ensures |a * b| <= |b|
    ensures |a * b| == |b| <==> b <= a
  {
    assert b == (a * b) + (b - a);
    assert (a * b) * (b - a) == {};
    assert |b| == |a * b| + |b - a|;
    assert b <= a <==> b - a == {};
  }

  /** With unique permission ids, the id check passes exactly when the list is non-empty, every
      id names a permission and no id repeats: a repeated id is refused as if it were unknown. */
  lemma CheckIdsIff(ps: seq<PermissionRow>, ids: seq<int>)
    requires IdsUnique(ps)
    ensures CheckIds(ps, ids).None? <==>
      ids != [] && NoDups(ids) && forall i :: i in ids ==> exists p :: p in ps && p.id == i
  {
    var s := set i | i in ids;
    FoundIsIntersection(ps, s);
    DistinctCount(ids);
    IntersectionCount(IdSet(ps), s);
    if s <= IdSet(ps) {
      forall i | i in ids ensures exists p :: p in ps && p.id == i {
        assert i in IdSet(ps);
        var k :| 0 <= k < |ps| && ps[k].id == i;
        assert ps[k] in ps;
      }
    }
    if forall i :: i in ids ==> exists p :: p in ps && p.id == i {
      forall i | i in s ensures i in IdSet(ps) {
        var p :| p in ps && p.id == i;
        var k :| 0 <= k < |ps| && ps[k] == p;
      }
    }
  }

  /** No two rows share a key. */
  predicate KeysUnique<T, K(==)>(rows: seq<T>, key: T -> K)
  {
    forall i, j :: 0 <= i < j < |rows| ==> key(rows[i]) != key(rows[j])
  }

  predicate HasKey<T(==,!new), K(==)>(rows: seq<T>, k: K, key: T -> K)
  {
    exists r :: r in rows && key(r) == k
  }

  /** The insert loop of the assign routes: each new row is added unless a row with the same
      key is there already (`IF NOT EXISTS ... INSERT`). New rows with the same key are the
      same row, as they are when built from one id. */
  method InsertMissing<T(==,!new), K(==)>(rows: seq<T>, news: seq<T>, key: T -> K) returns (out: seq<T>)
    requires SameKeySameRow(news, key)
    ensures |out| >= |rows| && out[..|rows|] == rows
    ensures forall x :: x in out <==> x in rows || (x in news && !HasKey(rows, key(x), key))
    ensures forall y :: y in news ==> HasKey(out, key(y), key)
    ensures KeysUnique(rows, key) ==> KeysUnique(out, key)
    ensures (forall y :: y in news ==> HasKey(rows, key(y), key)) ==> out == rows
  {
    out := rows;
    var i := 0;
    while i < |news|
      invariant 0 <= i <= |news|
      invariant InsertInv(rows, news, i, out, key)
    {
      var y := news[i];
      if !(exists x :: x in out && key(x) == key(y)) {
        InsertAdds(rows, news, i, out, key);
        out := out + [y];
      } else {
        InsertKeeps(rows, news, i, out, key);
      }
      i := i + 1;
    }
    assert news[..i] == news;
  }

  ghost predicate SameKeySameRow<T, K>(news: seq<T>, key: T -> K)
  {
    forall i, j :: (0 <= i < |news| && 0 <= j < |news| && key(news[i]) == key(news[j])
                    ==> news[i] == news[j])
  }

  /** What the insert loop keeps after `i` new rows. */
  ghost predicate InsertInv<T(!new), K>(rows: seq<T>, news: seq<T>, i: nat, out: seq<T>, key: T -> K)
    requires i <= |news|
  {
    |out| >= |rows| && out[..|rows|] == rows
    && (forall x :: x in out <==> x in rows || (x in news[..i] && !HasKey(rows, key(x), key)))
    && (forall y :: y in news[..i] ==> HasKey(out, key(y), key))
    && (KeysUnique(rows, key) ==> KeysUnique(out, key))
    && ((forall y :: y in news ==> HasKey(rows, key(y), key)) ==> out == rows)
  }

  lemma InsertAdds<T(!new), K>(rows: seq<T>, news: seq<T>, i: nat, out: seq<T>, key: T -> K)
    requires i < |news| && InsertInv(rows, news, i, out, key)
    requires !HasKey(out, key(news[i]), key)
    ensures InsertInv(rows, news, i + 1, out + [news[i]], key)
  {
    var y := news[i];
    assert news[..i + 1] == news[..i] + [y];
    assert !HasKey(rows, key(y), key);
  }

  lemma InsertKeeps<T(!new), K>(rows: seq<T>, news: seq<T>, i: nat, out: seq<T>, key: T -> K)
    requires i < |news| && InsertInv(rows, news, i, out, key) && SameKeySameRow(news, key)
    requires HasKey(out, key(news[i]), key)
    ensures InsertInv(rows, news, i + 1, out, key)
  {
    var y := news[i];
    assert news[..i + 1] == news[..i] + [y];
    var x :| x in out && key(x) == key(y);
    if !HasKey(rows, key(y), key) {
      assert x !in rows;
      var j :| 0 <= j < i && news[j] == x;
      assert y == x;
    }
  }

  function UserGrants(username: string, ids: seq<int>): (r: seq<Grant>)
    ensures forall g :: g in r <==> g.username == username && g.permissionId in ids
  {
    if ids == [] then [] else [Grant(username, ids[0])] + UserGrants(username, ids[1..])
  }

  function GroupGrants(groupDn: string, groupName: string, ids: seq<int>): (r: seq<GroupGrant>)
    ensures forall g :: g in r <==>
      g.groupDn == groupDn && g.groupName == groupName && g.permissionId in ids
  {
    if ids == [] then [] else [GroupGrant(groupDn, groupName, ids[0])] + GroupGrants(groupDn, groupName, ids[1..])
  }

  function GroupKey(g: GroupGrant): (string, int)
  {
    (g.groupDn, g.permissionId)
  }

  /** `POST /user/:username/assign`: 400 for an empty or partly unknown list; otherwise every
      listed permission is granted to the user, once, and nothing else changes. */
  method AssignUser(db: Db, username: string, ids: seq<int>) returns (status: nat, after: Db)
    ensures status == 400 <==> CheckIds(db.permissions, ids).Some?
    ensures status == 400 ==> after == db
    ensures status == 200 || status == 400
    ensures after.permissions == db.permissions && after.groupPermissions == db.groupPermissions
    ensures status == 200 ==> forall g :: g in after.userPermissions <==>
      g in db.userPermissions || (g.username == username && g.permissionId in ids)
    ensures KeysUnique(db.userPermissions, (g: Grant) => g) ==>
      KeysUnique(after.userPermissions, (g: Grant) => g)
    ensures (forall id :: id in ids ==> Grant(username, id) in db.userPermissions) ==> after == db
  {
    if CheckIds(db.permissions, ids).Some? {
      return 400, db;
    }
    var news := UserGrants(username, ids);
    var rows := InsertMissing(db.userPermissions, news, (g: Grant) => g);
    forall g ensures HasKey(db.userPermissions, g, (g: Grant) => g) <==> g in db.userPermissions {
      if g in db.userPermissions {
        assert ((g: Grant) => g)(g) == g;
      }
    }
    status, after := 200, db.(userPermissions := rows);
  }

  /** `DELETE /user/:username/remove`: the user's grants of the listed permissions go. */
  function RemoveUser(db: Db, username: string, ids: seq<int>): (r: (nat, Db))
    ensures ids == [] ==> r.0 == 400 && r.1 == db
    ensures ids != [] ==>
      (r.0 == 200 && r.1.permissions == db.permissions
       && r.1.groupPermissions == db.groupPermissions
       && forall g :: g in r.1.userPermissions <==>
            g in db.userPermissions && !(g.username == username && g.permissionId in ids))
  {
    if ids == [] then (400, db)
    else (200, db.(userPermissions := Keep(db.userPermissions, (g: Grant) => !(g.username == username && g.permissionId in ids))))
  }

  function Keep<T(!new)>(rows: seq<T>, keep: T -> bool): (r: seq<T>)
    ensures forall x :: x in r <==> x in rows && keep(x)
  {
    if rows == [] then [] else (if keep(rows[0]) then [rows[0]] else []) + Keep(rows[1..], keep)
  }

  /** `POST /group/:groupName/assign`: 400 for an empty list, a missing group DN or unknown
      ids (in that order); otherwise each listed permission is granted to the DN under the
      group name unless the DN has it already. */
  method AssignGroup(db: Db, groupName: string, groupDn: string, ids: seq<int>)
    returns (status: nat, rejection: Option<Rejection>, after: Db)
    ensures ids == [] ==> rejection == Some(EmptyIds)
    ensures ids != [] && groupDn == [] ==> rejection == Some(MissingGroupDn)
    ensures ids != [] && groupDn != [] ==> rejection == CheckIds(db.permissions, ids)
    ensures status == (if rejection.Some? then 400 else 200)
    ensures rejection.Some? ==> after == db
    ensures after.permissions == db.permissions && after.userPermissions == db.userPermissions
    ensures rejection.None? ==> forall id :: id in ids ==>
      HasKey(after.groupPermissions, (groupDn, id), GroupKey)
    ensures rejection.None? ==> forall g :: g in after.groupPermissions <==>
      g in db.groupPermissions
      || (g.groupDn == groupDn && g.groupName == groupName && g.permissionId in ids
          && !HasKey(db.groupPermissions, GroupKey(g), GroupKey))
    ensures KeysUnique(db.groupPermissions, GroupKey) ==> KeysUnique(after.groupPermissions, GroupKey)
  {
    if ids == [] {
      return 400, Some(EmptyIds), db;
    }
    if groupDn == [] {
      return 400, Some(MissingGroupDn), db;
    }
    rejection := CheckIds(db.permissions, ids);
    if rejection.Some? {
      return 400, rejection, db;
    }
    var news := GroupGrants(groupDn, groupName, ids);
    var rows := InsertMissing(db.groupPermissions, news, GroupKey);
    forall id | id in ids ensures HasKey(rows, (groupDn, id), GroupKey) {
      assert GroupGrant(groupDn, groupName, id) in news;
    }
    status, after := 200, db.(groupPermissions := rows);
  }

  /** `DELETE /group/:groupName/remove`: 400 for an empty list or a missing group DN; otherwise
      the DN's grants of the listed permissions go, under whatever group name they were made. */
  function RemoveGroup(db: Db, groupDn: string, ids: seq<int>): (r: (nat, Db))
    ensures ids == [] || groupDn == [] ==> r.0 == 400 && r.1 == db
    ensures ids != [] && groupDn != [] ==>
      (r.0 == 200 && r.1.permissions == db.permissions
       && r.1.userPermissions == db.userPermissions
       && forall g :: g in r.1.groupPermissions <==>
            g in db.groupPermissions && !(g.groupDn == groupDn && g.permissionId in ids))
  {
    if ids == [] || groupDn == [] then (400, db)
    else (200, db.(groupPermissions := Keep(db.groupPermissions,
                     (g: GroupGrant) => !(g.groupDn == groupDn && g.permissionId in ids))))
  }

  // ---------------------------------------------------------------- directory filters

  /** `escapeLdapFilter`: the replacement chain of the source, one character class at a time,
      the backslash first. */
  function EscapeLdapFilter(s: string): string
  {
    Subst(Subst(Subst(Subst(Subst(Subst(s, '\\', "\\5c"), '*', "\\2a"), '(', "\\28"), ')', "\\29"),
      '/', "\\2f"), '\0', "\\00")
  }

  /** `s.replace(/c/g, to)` for a one-character pattern. */
  function Subst(s: string, c: char, to: string): string
  {
    if s == [] then [] else (if s[0] == c then to else [s[0]]) + Subst(s[1..], c, to)
  }

  /** No `c` is left when the replacement holds none; a text without `c` is unchanged; a
      one-character text becomes the replacement exactly when it is `c`. */
  lemma {:induction false} SubstFacts(s: string, c: char, to: string)
    ensures c !in to ==> c !in Subst(s, c, to)
    ensures c !in s ==> Subst(s, c, to) == s
    ensures |s| == 1 ==> Subst(s, c, to) == (if s[0] == c then to else s)
  {
    if s != [] {
      SubstFacts(s[1..], c, to);
      assert s == [s[0]] + s[1..];
      if |s| == 1 {
        assert s[1..] == [];
      }
    }
  }

  lemma {:induction false} SubstAppend(a: string, b: string, c: char, to: string)
    ensures Subst(a + b, c, to) == Subst(a, c, to) + Subst(b, c, to)
  {
    if a != [] {
      var x, t := a[0], a[1..];
      assert a == [x] + t;
      assert a + b == [x] + (t + b);
      SubstCons(x, t + b, c, to);
      SubstCons(x, t, c, to);
      SubstAppend(t, b, c, to);
    } else {
      assert a + b == b;
    }
  }

  lemma SubstCons(x: char, t: string, c: char, to: string)
    ensures Subst([x] + t, c, to) == (if x == c then to else [x]) + Subst(t, c, to)
  {
    assert ([x] + t)[1..] == t;
  }

  lemma EscapeAppend(a: string, b: string)
    ensures EscapeLdapFilter(a + b) == EscapeLdapFilter(a) + EscapeLdapFilter(b)
  {
    var s1a, s1b := Subst(a, '\\', "\\5c"), Subst(b, '\\', "\\5c");
    SubstAppend(a, b, '\\', "\\5c");
    var s2a, s2b := Subst(s1a, '*', "\\2a"), Subst(s1b, '*', "\\2a");
    SubstAppend(s1a, s1b, '*', "\\2a");
    var s3a, s3b := Subst(s2a, '(', "\\28"), Subst(s2b, '(', "\\28");
    SubstAppend(s2a, s2b, '(', "\\28");
    var s4a, s4b := Subst(s3a, ')', "\\29"), Subst(s3b, ')', "\\29");
    SubstAppend(s3a, s3b, ')', "\\29");
    var s5a, s5b := Subst(s4a, '/', "\\2f"), Subst(s4b, '/', "\\2f");
    SubstAppend(s4a, s4b, '/', "\\2f");
    SubstAppend(s5a, s5b, '\0', "\\00");
  }

  /** The escape of one character under RFC 4515 section 3 for the characters the source
      handles: a backslash and two hexadecimal digits. */
  function EscapeChar(c: char): string
  {
    if c == '\\' then "\\5c"
    else if c == '*' then "\\2a"
    else if c == '(' then "\\28"
    else if c == ')' then "\\29"
    else if c == '/' then "\\2f"
    else if c == '\0' then "\\00"
    else [c]
  }

  /** The replacement chain escapes each character on its own: because the backslash goes
      first, no escape is escaped again. */
  lemma {:induction false} EscapeIsPerChar(s: string)
    ensures EscapeLdapFilter(s) == EscapeEach(s)
  {
    if s != [] {
      assert s == [s[0]] + s[1..];
      EscapeAppend([s[0]], s[1..]);
      EscapeOne(s[0]);
      EscapeIsPerChar(s[1..]);
    }
  }

  lemma EscapeOne(c: char)
    ensures EscapeLdapFilter([c]) == EscapeChar(c)
  {
    if c == '\\' { EscapeOneAt(c, 0); }
    else if c == '*' { EscapeOneAt(c, 1); }
    else if c == '(' { EscapeOneAt(c, 2); }
    else if c == ')' { EscapeOneAt(c, 3); }
    else if c == '/' { EscapeOneAt(c, 4); }
    else if c == '\0' { EscapeOneAt(c, 5); }
    else { EscapeOnePlain(c); }
  }

  /** The layers of the chain, in order. */
  const EscapeLayers: seq<(char, string)> := [
    ('\\', "\\5c"), ('*', "\\2a"), ('(', "\\28"), (')', "\\29"), ('/', "\\2f"), ('\0', "\\00")]

  /** Applies the layers from `k` on. */
  function LayersFrom(t: string, k: nat): string
    requires k <= |EscapeLayers|
    decreases |EscapeLayers| - k
  {
    if k == |EscapeLayers| then t else LayersFrom(Subst(t, EscapeLayers[k].0, EscapeLayers[k].1), k + 1)
  }

  lemma LayersAreChain(s: string)
    ensures LayersFrom(s, 0) == EscapeLdapFilter(s)
  {
  }

  /** Layers whose character the text lacks leave it alone. */
  lemma {:induction false} LayersSkip(t: string, i: nat, k: nat)
    requires i <= k <= |EscapeLayers|
    requires forall j :: i <= j < k ==> EscapeLayers[j].0 !in t
    ensures LayersFrom(t, i) == LayersFrom(t, k)
    decreases k - i
  {
    if i < k {
      SubstFacts(t, EscapeLayers[i].0, EscapeLayers[i].1);
      LayersSkip(t, i + 1, k);
    }
  }

  /** No escape holds the character of a later layer. */
  lemma EscapesSurviveLaterLayers(k: nat, j: nat)
    requires k < j < |EscapeLayers|
    ensures EscapeLayers[j].0 !in EscapeLayers[k].1
  {
  }

  /** The layers replace different characters. */
  lemma LayerCharsDistinct(j: nat, k: nat)
    requires j < k < |EscapeLayers|
    ensures EscapeLayers[j].0 != EscapeLayers[k].0
  {
  }

  lemma EscapeCharIsLayer(k: nat)
    requires k < |EscapeLayers|
    ensures EscapeChar(EscapeLayers[k].0) == EscapeLayers[k].1
  {
  }

  lemma EscapeOneAt(c: char, k: nat)
    requires k < |EscapeLayers| && c == EscapeLayers[k].0
    ensures EscapeLdapFilter([c]) == EscapeChar(c)
  {
    LayersAreChain([c]);
    forall j | 0 <= j < k ensures EscapeLayers[j].0 !in [c] {
      LayerCharsDistinct(j, k);
    }
    LayersSkip([c], 0, k);
    var e := EscapeLayers[k].1;
    assert Subst([c], c, e) == e;
    assert LayersFrom([c], k) == LayersFrom(e, k + 1);
    EscapeCharIsLayer(k);
    forall j | k + 1 <= j < |EscapeLayers| ensures EscapeLayers[j].0 !in e {
      EscapesSurviveLaterLayers(k, j);
    }
    LayersSkip(e, k + 1, |EscapeLayers|);
  }

  lemma EscapeOnePlain(c: char)
    requires !Special(c)
    ensures EscapeLdapFilter([c]) == EscapeChar(c)
  {
    LayersAreChain([c]);
    LayersSkip([c], 0, |EscapeLayers|);
  }

  function EscapeEach(s: string): string
  {
    if s == [] then [] else EscapeChar(s[0]) + EscapeEach(s[1..])
  }

  predicate Special(c: char)
  {
    c == '\\' || c == '*' || c == '(' || c == ')' || c == '/' || c == '\0'
  }

  /** Reads the escapes back: `\5c`, `\2a`, `\28`, `\29`, `\2f` and `\00`. */
  function Unescape(t: string): string
  {
    if t == [] then []
    else if |t| >= 3 && t[0] == '\\' && t[1..3] == "5c" then "\\" + Unescape(t[3..])
    else if |t| >= 3 && t[0] == '\\' && t[1..3] == "2a" then "*" + Unescape(t[3..])
    else if |t| >= 3 && t[0] == '\\' && t[1..3] == "28" then "(" + Unescape(t[3..])
    else if |t| >= 3 && t[0] == '\\' && t[1..3] == "29" then ")" + Unescape(t[3..])
    else if |t| >= 3 && t[0] == '\\' && t[1..3] == "2f" then "/" + Unescape(t[3..])
    else if |t| >= 3 && t[0] == '\\' && t[1..3] == "00" then "\0" + Unescape(t[3..])
    else [t[0]] + Unescape(t[1..])
  }

  /** An escaped value holds no `*`, parenthesis, slash or NUL, every backslash in it opens an
      escape, and reading the escapes back gives the value: the directory compares it as
      written. */
  lemma {:induction false} EscapeRoundTrip(s: string)
    ensures Unescape(EscapeLdapFilter(s)) == s
    ensures forall i :: 0 <= i < |EscapeLdapFilter(s)| ==>
      var c := EscapeLdapFilter(s)[i]; c != '*' && c != '(' && c != ')' && c != '/' && c != '\0'
  {
    EscapeIsPerChar(s);
    EscapeEachRoundTrip(s);
  }

  lemma EscapeEachRoundTrip(s: string)
    ensures Unescape(EscapeEach(s)) == s
    ensures forall i :: 0 <= i < |EscapeEach(s)| ==>
      var c := EscapeEach(s)[i]; c != '*' && c != '(' && c != ')' && c != '/' && c != '\0'
  {
    EscapeEachUnescapes(s);
    EscapeEachClean(s);
  }

  lemma {:induction false} EscapeEachUnescapes(s: string)
    ensures Unescape(EscapeEach(s)) == s
  {
    if s != [] {
      EscapeEachUnescapes(s[1..]);
      UnescapeStep(s[0], EscapeEach(s[1..]));
    }
  }

  /** Not wildcard, parenthesis, slash or NUL. */
  predicate Inert(c: char)
  {
    c != '*' && c != '(' && c != ')' && c != '/' && c != '\0'
  }

  lemma {:induction false} EscapeEachClean(s: string)
    ensures forall i :: 0 <= i < |EscapeEach(s)| ==> Inert(EscapeEach(s)[i])
  {
    if s != [] {
      EscapeEachClean(s[1..]);
      var e := EscapeChar(s[0]);
      var rest := EscapeEach(s[1..]);
      assert EscapeEach(s) == e + rest;
      EscapeCharClean(s[0]);
      forall i | 0 <= i < |e + rest|
        ensures Inert((e + rest)[i])
      {
        if i >= |e| {
          assert (e + rest)[i] == rest[i - |e|];
        } else {
          assert (e + rest)[i] == e[i];
        }
      }
    }
  }

  lemma EscapeCharClean(c: char)
    ensures forall i :: 0 <= i < |EscapeChar(c)| ==> Inert(EscapeChar(c)[i])
  {
  }

  /** Reading back the escape of one character followed by more text gives the character
      followed by what the rest reads back as. */
  lemma UnescapeStep(c: char, rest: string)
    ensures Unescape(EscapeChar(c) + rest) == [c] + Unescape(rest)
  {
    var e := EscapeChar(c);
    var t := e + rest;
    if Special(c) {
      assert |e| == 3 && t[0] == '\\' && t[1..3] == e[1..3];
      assert t[3..] == rest;
    } else {
      assert t[0] == c && t[1..] == rest;
    }
  }

  /** The user filter of `GET /user/:username`, as written: the name goes in unescaped. */
  function UserFilterAsWritten(username: string): string
  {
    "(sAMAccountName=" + username + ")"
  }

  /** The user filter with the name escaped, as the keyword filter of the same file does. */
  function UserFilter(username: string): string
  {
    "(sAMAccountName=" + EscapeLdapFilter(username) + ")"
  }

  /** An equality filter on `sAMAccountName` for `value`: the assertion value holds no
      wildcard, parenthesis, slash or NUL and reads back as `value`. */
  predicate EqualityFilterFor(filter: string, value: string)
  {
    StartsWith(filter, "(sAMAccountName=") && EndsWith(filter, ")") && |filter| >= 17
    && var v := filter[16..|filter| - 1];
    (forall i :: 0 <= i < |v| ==> v[i] != '*' && v[i] != '(' && v[i] != ')' && v[i] != '/' && v[i] != '\0')
    && Unescape(v) == value
  }

  /** The filter as written is no equality filter for the name `*`: it is the presence filter
      `(sAMAccountName=*)`, which every account matches, so the groups of some other account
      would be read. */
  lemma UserFilterWildcard()
    ensures !EqualityFilterFor(UserFilterAsWritten("*"), "*")
  {
    var f := UserFilterAsWritten("*");
    assert |f| == 18;
    assert f[16..17] == "*";
    assert f[16..|f| - 1][0] == '*';
  }

  /** With the name escaped, the filter is an equality filter for exactly that name. */
  lemma UserFilterExact(username: string)
    ensures EqualityFilterFor(UserFilter(username), username)
  {
    var e := EscapeLdapFilter(username);
    EscapeRoundTrip(username);
    var f := UserFilter(username);
    assert f[16..|f| - 1] == e;
  }

  /** The search filter of `GET /ad/users`: every user object that is no computer, and with a
      keyword only those whose account name, display name or mail holds the escaped keyword. */
  function AdUserFilter(keyword: string): string
  {
    if keyword == [] then "(&(objectClass=user)(!(objectClass=computer)))"
    else
      var e := EscapeLdapFilter(keyword);
      "(&(objectClass=user)(!(objectClass=computer))(|(sAMAccountName=*" + e
        + "*)(displayName=*" + e + "*)(mail=*" + e + "*)))"
  }

  // ---------------------------------------------------------------- directory users

  datatype AdUser = AdUser(username: string, displayName: string, email: string, dn: string)

  /** The development list of `GET /ad/users` when the directory library is missing. */
  function MockAdUsers(users: seq<AdUser>, keyword: string): (r: seq<AdUser>)
    ensures keyword == [] ==> r == users
    ensures keyword != [] ==> forall u :: u in r <==>
      (u in users && (Contains(ToLower(u.username), ToLower(keyword))
                      || (u.displayName != [] && Contains(u.displayName, keyword))))
  {
    if keyword == [] then users
    else Keep(users, (u: AdUser) => Contains(ToLower(u.username), ToLower(keyword))
                                  || (u.displayName != [] && Contains(u.displayName, keyword)))
  }

  /** `users.slice((page - 1) * pageSize, start + pageSize)`. */
  function Page<T>(users: seq<T>, page: int, pageSize: int): seq<T>
  {
    var start := PageStart(page, pageSize);
    JsSlice(users, start, start + pageSize)
  }

  function PageStart(page: int, pageSize: int): (start: int)
    ensures page >= 1 && pageSize >= 0 ==> start >= 0
  {
    MulNonNeg(page - 1, pageSize);
    (page - 1) * pageSize
  }

  lemma MulNonNeg(a: int, b: int)
    ensures a >= 0 && b >= 0 ==> a * b >= 0
  {
  }

  /** For page numbers from 1 and a non-negative size, a page holds the entries from
      (page - 1) * size on, at most size of them, and is empty past the end. */
  lemma PageMeaning<T>(users: seq<T>, page: int, pageSize: int)
    requires page >= 1 && pageSize >= 0
    ensures var start := PageStart(page, pageSize);
      var p := Page(users, page, pageSize);
      |p| <= pageSize
      && (start + pageSize <= |users| ==> p == users[start..start + pageSize])
      && (start <= |users| <= start + pageSize ==> p == users[start..])
      && (start >= |users| ==> p == [])
  {
  }
}
