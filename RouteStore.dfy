/** The permission store of the front end: the routes added to the router (`addRouters`),
    the routes the menu renders (`routers`), and the flag that says the routes have been
    added. The route tables themselves and the helpers that filter them
    (`generateRoutesByServer`, `generateRoutesByNames`) belong to the router helpers and are
    parameters here. */
module RouteStore {
  import opened Common
  import opened Routes

  /** How `generateRoutes` is asked to build the routes: from server route records, from
      the names of the routes the user may open, or from the static table. Server records
      are represented by their route names. */
  datatype Source =
    | Server(records: Option<seq<string>>)
    | FrontEnd(names: Option<seq<string>>)
    | Static

  /** The catch-all route that sends any unknown path to the 404 page. */
  const CatchAll: Route :=
    Route("/:path(.*)*", Some("404Page"), Some("/404"),
      Some(Meta(true, false, false, Some(false))), false, [])

  /** The routes `generateRoutes` builds before the catch-all is added: the static table for
      `static`, and for `server` without records; nothing for `frontEnd` without names;
      otherwise what the helper makes of the records or the names. */
  function RouterMap(
    source: Source, asyncMap: seq<Route>,
    byServer: seq<string> -> seq<Route>, byNames: (seq<Route>, seq<string>) -> seq<Route>): (r: seq<Route>)
  {
    match source
    case Server(records) =>
      if records.None? || records.value == [] then asyncMap else byServer(records.value)
    case FrontEnd(names) =>
      var keys := if names.Some? then names.value else [];
      if |keys| > 0 then byNames(asyncMap, keys) else []
    case Static => asyncMap
  }

  /** Which table each kind of request gives. */
  lemma RouterMapCases(
    source: Source, asyncMap: seq<Route>,
    byServer: seq<string> -> seq<Route>, byNames: (seq<Route>, seq<string>) -> seq<Route>)
    ensures source.Static? ==> RouterMap(source, asyncMap, byServer, byNames) == asyncMap
    ensures source.Server? && (source.records.None? || source.records.value == []) ==>
      RouterMap(source, asyncMap, byServer, byNames) == asyncMap
    ensures source.Server? && source.records.Some? && source.records.value != [] ==>
      RouterMap(source, asyncMap, byServer, byNames) == byServer(source.records.value)
    ensures source.FrontEnd? && (source.names.None? || source.names.value == []) ==>
      RouterMap(source, asyncMap, byServer, byNames) == []
    ensures source.FrontEnd? && source.names.Some? && source.names.value != [] ==>
      RouterMap(source, asyncMap, byServer, byNames) == byNames(asyncMap, source.names.value)
  {
  }

  /** The routes added to the router: the built routes, then the catch-all, which must come
      last so that it matches only what nothing else does. */
  function AddRouters(routerMap: seq<Route>): (r: seq<Route>)
    ensures |r| == |routerMap| + 1 && r[|r| - 1] == CatchAll && r[..|r| - 1] == routerMap
  {
    routerMap + [CatchAll]
  }

  /** The routes the menu renders: the constant routes, then the built ones. */
  function MenuRouters(constantMap: seq<Route>, routerMap: seq<Route>): (r: seq<Route>)
    ensures |r| == |constantMap| + |routerMap| && r[..|constantMap|] == constantMap && r[|constantMap|..] == routerMap
  {
    constantMap + routerMap
  }

  /** The two tables agree: the menu holds the constant routes and then every added route
      except the catch-all. */
  predicate Agree(constantMap: seq<Route>, routers: seq<Route>, addRouters: seq<Route>)
  {
    addRouters != [] && addRouters[|addRouters| - 1] == CatchAll &&
    routers == constantMap + addRouters[..|addRouters| - 1]
  }

  lemma GeneratedTablesAgree(constantMap: seq<Route>, routerMap: seq<Route>)
    ensures Agree(constantMap, MenuRouters(constantMap, routerMap), AddRouters(routerMap))
  {
  }

  class PermissionStore {
    var routers: seq<Route>
    var addRouters: seq<Route>
    var isAddRouters: bool
    var menuTabRouters: seq<Route>
    /** `asyncRouterMap` and `constantRouterMap` of the route table. */
    const asyncMap: seq<Route>
    const constantMap: seq<Route>

    /** The tables agree once routes have been generated. */
    predicate Valid()
      reads this
    {
      addRouters == [] || Agree(constantMap, routers, addRouters)
    }

    constructor(asyncMap: seq<Route>, constantMap: seq<Route>)
      ensures this.asyncMap == asyncMap && this.constantMap == constantMap
      ensures routers == [] && addRouters == [] && !isAddRouters && menuTabRouters == []
      ensures Valid()
    {
      this.asyncMap := asyncMap;
      this.constantMap := constantMap;
      routers := [];
      addRouters := [];
      isAddRouters := false;
      menuTabRouters := [];
    }

    /** `getIsAddRouters`. */
    function IsAddRouters(): bool
      reads this
    {
      isAddRouters
    }

    method GenerateRoutes(
      source: Source,
      byServer: seq<string> -> seq<Route>, byNames: (seq<Route>, seq<string>) -> seq<Route>)
      modifies this
      ensures addRouters == AddRouters(RouterMap(source, asyncMap, byServer, byNames))
      ensures routers == MenuRouters(constantMap, RouterMap(source, asyncMap, byServer, byNames))
      ensures isAddRouters == old(isAddRouters) && menuTabRouters == old(menuTabRouters)
      ensures Valid()
    {
      var routerMap: seq<Route> := [];
      match source {
        case Server(records) =>
          if records.None? || records.value == [] {
            routerMap := asyncMap;
          } else {
            routerMap := byServer(records.value);
          }
        case FrontEnd(names) =>
          var keys := if names.Some? then names.value else [];
          routerMap := if |keys| > 0 then byNames(asyncMap, keys) else [];
        case Static =>
          routerMap := asyncMap;
      }
      addRouters := routerMap + [CatchAll];
      routers := constantMap + routerMap;
    }

    method SetIsAddRouters(state: bool)
      modifies this
      ensures isAddRouters == state && IsAddRouters() == state
      ensures routers == old(routers) && addRouters == old(addRouters) && menuTabRouters == old(menuTabRouters)
      ensures old(Valid()) ==> Valid()
    {
      isAddRouters := state;
    }

    method SetMenuTabRouters(tabs: seq<Route>)
      modifies this
      ensures menuTabRouters == tabs
      ensures routers == old(routers) && addRouters == old(addRouters) && isAddRouters == old(isAddRouters)
      ensures old(Valid()) ==> Valid()
    {
      menuTabRouters := tabs;
    }
  }
}
