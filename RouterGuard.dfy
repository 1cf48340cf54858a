/** The router guard of the front end (`router.beforeEach`): who may open which page,
    when the routes are generated and added, and the one Windows-domain auto-login attempt
    a logged-out visitor gets before being sent to the login page. The auto-login itself
    loads a hidden iframe and settles on the first of its load, its error and a timer. */
module RouterGuard {
  import opened Common
  import opened Routes
  import opened RouteStore

  // ---------------------------------------------------------------- the access decision

  /** The logged-in user as the user store keeps it. */
  datatype UserInfo = UserInfo(
    username: string, realName: string, role: string, roleId: string,
    roles: seq<string>, permissions: seq<string>)

  /** The route names every logged-in user may open. */
  const NoAuthRoutes: seq<string> := [
    "404", "403", "NoFind", "PersonalCenter", "Redirect", "Root",
    "RedirectWrap", "Analysis", "Workplace", "Dashboard"]

  predicate IsAdmin(user: UserInfo)
  {
    user.username == "admin"
  }

  /** Whether a logged-in user may open the route named `name`: `admin` and the open routes
      always; a route without a name always; with no permissions only in development
      builds; otherwise when the name is among the user's permissions. */
  function Allowed(user: UserInfo, name: Option<string>, isDev: bool): bool
  {
    if IsAdmin(user) || (name.Some? && name.value in NoAuthRoutes) then true
    else if name.None? || name.value == "" then true
    else if user.permissions == [] then isDev
    else name.value in user.permissions
  }

  /** The decision in both directions. */
  lemma AllowedIff(user: UserInfo, name: Option<string>, isDev: bool)
    ensures Allowed(user, name, isDev) <==>
      IsAdmin(user) || name.None? || name.value == "" || name.value in NoAuthRoutes ||
      (user.permissions == [] && isDev) || name.value in user.permissions
  {
  }

  /** A named route outside the open ones that a non-admin user lacks is refused: always
      when the user has some permissions, and outside development builds when none. */
  lemma RefusedRoutes(user: UserInfo, name: string, isDev: bool)
    requires !IsAdmin(user) && name != "" && name !in NoAuthRoutes && name !in user.permissions
    ensures user.permissions != [] ==> !Allowed(user, Some(name), isDev)
    ensures user.permissions == [] ==> (Allowed(user, Some(name), isDev) <==> isDev)
  {
  }

  // ---------------------------------------------------------------- auto-login by iframe

  datatype LoginData = LoginData(
    username: string, displayName: string, role: string, roleId: string,
    roles: Option<seq<string>>, permissions: Option<seq<string>>)

  /** The JSON the auto-login page answers with. */
  datatype AutoLoginResponse = AutoLoginResponse(success: bool, data: Option<LoginData>, token: Option<string>)

  /** What can settle the auto-login: the timer, the iframe's load (with the page text and
      what parsing it as JSON gives, `None` when parsing throws), or the iframe's error. */
  datatype Event = TimedOut | Loaded(text: string, parsed: Option<AutoLoginResponse>) | LoadFailed

  /** What an event settles the auto-login with: `null` for the timer, the error, an empty
      page and a page that is not JSON. */
  function EventResult(e: Event): (r: Option<AutoLoginResponse>)
    ensures r.Some? ==> e.Loaded? && e.text != "" && e.parsed == r
  {
    match e
    case TimedOut => None
    case Loaded(text, parsed) => if text == "" then None else parsed
    case LoadFailed => None
  }

  /** The result the auto-login settles with after a run of events: the first event's,
      `None` while none has happened. */
  function Settled(events: seq<Event>): Option<Option<AutoLoginResponse>>
  {
    if events == [] then None else Some(EventResult(events[0]))
  }

  /** The pending auto-login: `finish` settles it once, removes the iframe and ignores
      every later call. */
  class IframeLogin {
    var finished: bool
    var attached: bool
    var result: Option<Option<AutoLoginResponse>>

    constructor()
      ensures !finished && attached && result.None?
    {
      finished := false;
      attached := true;
      result := None;
    }

    method Finish(res: Option<AutoLoginResponse>)
      modifies this
      ensures old(finished) ==> finished == old(finished) && attached == old(attached) && result == old(result)
      ensures !old(finished) ==> finished && !attached && result == Some(res)
    {
      if finished {
        return;
      }
      finished := true;
      attached := false;
      result := Some(res);
    }

    method Handle(e: Event)
      modifies this
      ensures old(finished) ==> finished && attached == old(attached) && result == old(result)
      ensures !old(finished) ==> finished && !attached && result == Some(EventResult(e))
    {
      match e {
        case TimedOut => Finish(None);
        case Loaded(text, parsed) =>
          if text == "" {
            Finish(None);
          } else if parsed.None? {
            Finish(None);
          } else {
            Finish(parsed);
          }
        case LoadFailed => Finish(None);
      }
    }
  }

  /** `autoLoginByIframe`: `null` at once without a document; otherwise the iframe settles on
      the first event and no later event changes the result. */
  method AutoLoginByIframe(hasDocument: bool, events: seq<Event>) returns (res: Option<Option<AutoLoginResponse>>)
    ensures !hasDocument ==> res == Some(None)
    ensures hasDocument ==> res == Settled(events)
  {
    if !hasDocument {
      return Some(None);
    }
    var frame := new IframeLogin();
    for i := 0 to |events|
      invariant i == 0 ==> !frame.finished && frame.result.None?
      invariant i > 0 ==> frame.finished && frame.result == Some(EventResult(events[0]))
    {
      frame.Handle(events[i]);
    }
    res := frame.result;
  }

  /** Events after the first never change the result. */
  lemma SettledByFirst(events: seq<Event>, later: seq<Event>)
    requires events != []
    ensures Settled(events + later) == Settled(events)
  {
    assert (events + later)[0] == events[0];
  }

  // ---------------------------------------------------------------- the guard

  /** The target of a navigation. */
  datatype Target = Target(path: string, name: Option<string>, fullPath: string)

  /** What the guard does with a navigation: let it through, send it elsewhere, let it
      through replacing the history entry, or start a new navigation to `fullPath`. */
  datatype Outcome = Proceed | Go(path: string) | ProceedReplacing | ReplaceWith(fullPath: string)

  /** The settings the guard reads: the build mode, the dynamic-route switches of the app
      store, the paths reachable without login, and `decodeURIComponent`. */
  datatype Env = Env(
    isDev: bool, dynamicRouter: bool, serverDynamicRouter: bool,
    whitelist: seq<string>, decode: string -> string)

  /** The state the guard reads and changes: the user and token of the user store, its
      auto-login flag, and the permission store's routes-added flag. */
  datatype Flags = Flags(user: Option<UserInfo>, token: string, autoTried: bool, isAddRouters: bool)

  /** The guard's result: the outcome, the new flags, and the routes generated, if any. */
  datatype Step = Step(outcome: Outcome, flags: Flags, generated: Option<Source>)

  function LoginPath(path: string): string
  {
    "/login?redirect=" + path
  }

  /** The routes a logged-in user's first navigation generates: from the role routes when
      the dynamic router is on and there are some, else the full table for `admin` and the
      user's permitted names for anyone else. */
  function UserSource(env: Env, roleRouters: seq<string>, user: UserInfo): Source
  {
    if env.dynamicRouter && |roleRouters| > 0 then
      (if env.serverDynamicRouter then Server(Some(roleRouters)) else FrontEnd(Some(roleRouters)))
    else if IsAdmin(user) then Static
    else FrontEnd(Some(user.permissions))
  }

  /** The routes a successful auto-login generates: from the role routes as above, else the
      full table. */
  function AutoLoginSource(env: Env, roleRouters: seq<string>): Source
  {
    if env.dynamicRouter && |roleRouters| > 0 then
      (if env.serverDynamicRouter then Server(Some(roleRouters)) else FrontEnd(Some(roleRouters)))
    else Static
  }

  predicate Succeeded(attempt: Option<AutoLoginResponse>)
  {
    attempt.Some? && attempt.value.success && attempt.value.data.Some?
  }

  /** The user an auto-login answer logs in. */
  function UserOf(data: LoginData): UserInfo
  {
    UserInfo(data.username, data.displayName, data.role, data.roleId,
      if data.roles.Some? then data.roles.value else [],
      if data.permissions.Some? then data.permissions.value else [])
  }

  /** Whether a navigation tries the auto-login: logged out, outside the whitelist, and not
      tried since the last success. */
  predicate Tries(flags: Flags, to: Target, env: Env)
  {
    flags.user.None? && to.path !in env.whitelist && !flags.autoTried
  }

  /** `router.beforeEach`, given the redirect query of the page navigated from and what the
      auto-login would settle with if tried. */
  function Guard(
    flags: Flags, roleRouters: seq<string>, to: Target, fromRedirect: Option<string>,
    env: Env, attempt: Option<AutoLoginResponse>): Step
  {
    if flags.user.Some? then
      var user := flags.user.value;
      if to.path == "/login" then Step(Go("/"), flags, None)
      else if !Allowed(user, to.name, env.isDev) then Step(Go("/403"), flags, None)
      else if flags.isAddRouters then Step(Proceed, flags, None)
      else
        var redirect := env.decode(if fromRedirect.Some? && fromRedirect.value != "" then fromRedirect.value else to.path);
        Step(if to.path == redirect then ProceedReplacing else Go(redirect),
          flags.(isAddRouters := true), Some(UserSource(env, roleRouters, user)))
    else if to.path in env.whitelist then Step(Proceed, flags, None)
    else if flags.autoTried then Step(Go(LoginPath(to.path)), flags, None)
    else if Succeeded(attempt) then
      var r := attempt.value;
      Step(ReplaceWith(to.fullPath),
        Flags(Some(UserOf(r.data.value)),
          if r.token.Some? && r.token.value != "" then r.token.value else "SSO_AUTO_LOGIN",
          false, true),
        Some(AutoLoginSource(env, roleRouters)))
    else Step(Go(LoginPath(to.path)), flags.(autoTried := true), None)
  }

  /** A logged-in user going to the login page is sent home; a refused page sends them to
      403; neither changes anything. */
  lemma LoggedInRedirects(
    flags: Flags, roleRouters: seq<string>, to: Target, fromRedirect: Option<string>,
    env: Env, attempt: Option<AutoLoginResponse>)
    requires flags.user.Some?
    ensures var s := Guard(flags, roleRouters, to, fromRedirect, env, attempt);
      (to.path == "/login" ==> s == Step(Go("/"), flags, None)) &&
      (to.path != "/login" && !Allowed(flags.user.value, to.name, env.isDev) ==> s == Step(Go("/403"), flags, None))
  {
  }

  /** An allowed navigation of a logged-in user generates the routes only while they have
      not been added, and then marks them added; once added, allowed navigations just
      proceed. No logged-in navigation touches the user, the token or the auto-login flag. */
  lemma RoutesAddedOnce(
    flags: Flags, roleRouters: seq<string>, to: Target, fromRedirect: Option<string>,
    env: Env, attempt: Option<AutoLoginResponse>)
    requires flags.user.Some? && to.path != "/login" && Allowed(flags.user.value, to.name, env.isDev)
    ensures var s := Guard(flags, roleRouters, to, fromRedirect, env, attempt);
      s.flags.user == flags.user && s.flags.token == flags.token && s.flags.autoTried == flags.autoTried &&
      s.flags.isAddRouters &&
      (flags.isAddRouters ==> s.outcome == Proceed && s.generated.None?) &&
      (!flags.isAddRouters ==> s.generated == Some(UserSource(env, roleRouters, flags.user.value)))
  {
  }

  /** A logged-out visitor reaches a whitelisted path directly; anywhere else the auto-login
      is tried only when not yet tried, and every path other than a successful attempt ends
      on the login page with the target as the redirect. */
  lemma LoggedOutOutcomes(
    flags: Flags, roleRouters: seq<string>, to: Target, fromRedirect: Option<string>,
    env: Env, attempt: Option<AutoLoginResponse>)
    requires flags.user.None?
    ensures var s := Guard(flags, roleRouters, to, fromRedirect, env, attempt);
      (to.path in env.whitelist ==> s == Step(Proceed, flags, None)) &&
      (to.path !in env.whitelist && (flags.autoTried || !Succeeded(attempt)) ==>
        s.outcome == Go(LoginPath(to.path)) && s.flags.autoTried && s.flags.user.None? && s.generated.None?) &&
      (Tries(flags, to, env) && Succeeded(attempt) ==>
        s.outcome == ReplaceWith(to.fullPath) && s.flags.user == Some(UserOf(attempt.value.data.value)) &&
        !s.flags.autoTried && s.flags.isAddRouters)
  {
  }

  /** One navigation of a run: its target, the redirect query it comes with, and what the
      auto-login would settle with if tried. */
  datatype Navigation = Navigation(to: Target, fromRedirect: Option<string>, attempt: Option<AutoLoginResponse>)

  /** How many auto-login attempts a run of navigations makes, and the flags after it. */
  function Attempts(flags: Flags, roleRouters: seq<string>, env: Env, run: seq<Navigation>): (r: (nat, Flags))
    decreases |run|
  {
    if run == [] then (0, flags)
    else
      var n := run[0];
      var s := Guard(flags, roleRouters, n.to, n.fromRedirect, env, n.attempt);
      var rest := Attempts(s.flags, roleRouters, env, run[1..]);
      ((if Tries(flags, n.to, env) then 1 else 0) + rest.0, rest.1)
  }

  /** While the visitor stays logged out, the auto-login is tried at most once, and not at
      all when it was already tried. */
  lemma {:induction false} AutoLoginAtMostOnce(flags: Flags, roleRouters: seq<string>, env: Env, run: seq<Navigation>)
    requires flags.user.None?
    requires forall i :: 0 <= i < |run| ==> !Succeeded(run[i].attempt)
    ensures Attempts(flags, roleRouters, env, run).0 <= 1
    ensures flags.autoTried ==> Attempts(flags, roleRouters, env, run).0 == 0
    ensures Attempts(flags, roleRouters, env, run).1.user.None?
    decreases |run|
  {
    if run != [] {
      var n := run[0];
      var s := Guard(flags, roleRouters, n.to, n.fromRedirect, env, n.attempt);
      assert !Succeeded(n.attempt);
      assert s.flags.user.None?;
      assert Tries(flags, n.to, env) ==> s.flags.autoTried;
      assert flags.autoTried ==> s.flags.autoTried;
      forall i | 0 <= i < |run[1..]|
        ensures !Succeeded(run[1..][i].attempt)
      {
        assert run[1..][i] == run[i + 1];
      }
      AutoLoginAtMostOnce(s.flags, roleRouters, env, run[1..]);
    }
  }

  /** The guard with the stores it changes: the user store's user, token, role routes and
      auto-login flag, and the permission store. */
  class Session {
    var user: Option<UserInfo>
    var token: string
    var autoTried: bool
    var roleRouters: seq<string>
    const store: PermissionStore

    constructor(store: PermissionStore)
      ensures this.store == store && user.None? && token == "" && !autoTried && roleRouters == []
    {
      this.store := store;
      user := None;
      token := "";
      autoTried := false;
      roleRouters := [];
    }

    function State(): Flags
      reads this, store
    {
      Flags(user, token, autoTried, store.isAddRouters)
    }

    /** `router.beforeEach`: the outcome, the new state and the generated routes are those
        of `Guard`; the iframe is loaded only when the guard tries the auto-login. */
    method BeforeEach(
      to: Target, fromRedirect: Option<string>, env: Env, hasDocument: bool, events: seq<Event>,
      byServer: seq<string> -> seq<Route>, byNames: (seq<Route>, seq<string>) -> seq<Route>)
      returns (outcome: Outcome, attempt: Option<AutoLoginResponse>)
      modifies this, store
      ensures roleRouters == old(roleRouters)
      ensures Tries(old(State()), to, env) ==>
        attempt == (if !hasDocument then None else if events == [] then None else EventResult(events[0]))
      ensures var s := Guard(old(State()), old(roleRouters), to, fromRedirect, env, attempt);
        outcome == s.outcome && State() == s.flags &&
        (s.generated.None? ==> store.addRouters == old(store.addRouters) && store.routers == old(store.routers)) &&
        (s.generated.Some? ==>
          store.addRouters == AddRouters(RouterMap(s.generated.value, store.asyncMap, byServer, byNames)) &&
          store.routers == MenuRouters(store.constantMap, RouterMap(s.generated.value, store.asyncMap, byServer, byNames)))
      ensures store.menuTabRouters == old(store.menuTabRouters)
    {
      attempt := None;
      if user.Some? {
        var u := user.value;
        if to.path == "/login" {
          return Go("/"), attempt;
        }
        if !Allowed(u, to.name, env.isDev) {
          return Go("/403"), attempt;
        }
        if store.isAddRouters {
          return Proceed, attempt;
        }
        store.GenerateRoutes(UserSource(env, roleRouters, u), byServer, byNames);
        var redirectPath := if fromRedirect.Some? && fromRedirect.value != "" then fromRedirect.value else to.path;
        var redirect := env.decode(redirectPath);
        outcome := if to.path == redirect then ProceedReplacing else Go(redirect);
        store.SetIsAddRouters(true);
        return;
      }
      if to.path in env.whitelist {
        return Proceed, attempt;
      }
      if !autoTried {
        autoTried := true;
        var settled := AutoLoginByIframe(hasDocument, events);
        attempt := if settled.Some? then settled.value else None;
        if Succeeded(attempt) {
          var r := attempt.value;
          user := Some(UserOf(r.data.value));
          token := if r.token.Some? && r.token.value != "" then r.token.value else "SSO_AUTO_LOGIN";
          autoTried := false;
          store.GenerateRoutes(AutoLoginSource(env, roleRouters), byServer, byNames);
          store.SetIsAddRouters(true);
          return ReplaceWith(to.fullPath), attempt;
        }
        return Go(LoginPath(to.path)), attempt;
      }
      outcome := Go(LoginPath(to.path));
    }
  }
}
