/** `filterBreadcrumb`: the breadcrumb trail's view of the route table. Routes without
    `meta`, and hidden routes that cannot be navigated to, are dropped; a route with exactly
    one child that does not ask to be shown is replaced by that child; every path is
    resolved against its parent's, and children are filtered the same way. The path
    joining (`pathResolve`) belongs to the router helpers and is a parameter here. */
module Breadcrumb {
  import opened Common
  import opened Routes

  /** The routes the trail keeps: those with `meta`, unless hidden without `canTo`. */
  predicate Kept(r: Route)
  {
    r.meta.Some? && !(r.meta.value.hidden && !r.meta.value.canTo)
  }

  /** A kept route collapses into its child when it has exactly one and is not `alwaysShow`. */
  predicate Collapses(r: Route)
    requires r.meta.Some?
  {
    !r.meta.value.alwaysShow && r.hasChildren && |r.children| == 1
  }

  /** The entry the trail holds for a kept route under `parentPath`. */
  function Entry(r: Route, parentPath: string, resolve: (string, string) -> string): (e: Route)
    requires Kept(r)
    ensures Collapses(r) ==>
      e.name == r.children[0].name && e.meta == r.children[0].meta &&
      e.path == resolve(parentPath, resolve(r.path, r.children[0].path)) &&
      e.hasChildren == r.children[0].hasChildren
    ensures !Collapses(r) ==>
      e.name == r.name && e.meta == r.meta && e.path == resolve(parentPath, r.path) &&
      e.hasChildren == r.hasChildren
    ensures !e.hasChildren ==> e.children == (if Collapses(r) then r.children[0].children else r.children)
    decreases r
  {
    var data := if Collapses(r) then r.children[0].(path := resolve(r.path, r.children[0].path)) else r;
    var path := resolve(parentPath, data.path);
    data.(path := path, children := if data.hasChildren then Breadcrumbs(data.children, path, resolve) else data.children)
  }

  /** The trail of a route list, built route by route in list order. */
  function Breadcrumbs(routes: seq<Route>, parentPath: string, resolve: (string, string) -> string): (r: seq<Route>)
    ensures |r| <= |routes|
    decreases routes
  {
    if routes == [] then []
    else
      var last := routes[|routes| - 1];
      Breadcrumbs(routes[..|routes| - 1], parentPath, resolve) +
        (if Kept(last) then [Entry(last, parentPath, resolve)] else [])
  }

  /** The kept routes of a list, in order: the reference the trail is compared with. */
  function KeptRoutes(routes: seq<Route>): (r: seq<Route>)
    ensures |r| <= |routes|
    ensures forall i :: 0 <= i < |r| ==> Kept(r[i])
  {
    if routes == [] then []
    else KeptRoutes(routes[..|routes| - 1]) + (if Kept(routes[|routes| - 1]) then [routes[|routes| - 1]] else [])
  }

  /** The trail holds exactly one entry per kept route, in the order of the routes:
      dropped routes leave nothing and nothing is reordered. */
  lemma {:induction false} BreadcrumbsOfKept(routes: seq<Route>, parentPath: string, resolve: (string, string) -> string)
    ensures |Breadcrumbs(routes, parentPath, resolve)| == |KeptRoutes(routes)|
    ensures forall i :: 0 <= i < |KeptRoutes(routes)| ==>
      Breadcrumbs(routes, parentPath, resolve)[i] == Entry(KeptRoutes(routes)[i], parentPath, resolve)
  {
    if routes != [] {
      BreadcrumbsOfKept(routes[..|routes| - 1], parentPath, resolve);
    }
  }

  /** A list without a single kept route leaves an empty trail. */
  lemma {:induction false} NothingKept(routes: seq<Route>, parentPath: string, resolve: (string, string) -> string)
    requires forall i :: 0 <= i < |routes| ==> !Kept(routes[i])
    ensures Breadcrumbs(routes, parentPath, resolve) == []
  {
    if routes != [] {
      NothingKept(routes[..|routes| - 1], parentPath, resolve);
    }
  }

  /** The children of an entry are the trail of the children it was built from, under the
      entry's own path. */
  lemma EntryChildren(r: Route, parentPath: string, resolve: (string, string) -> string)
    requires Kept(r)
    ensures var e := Entry(r, parentPath, resolve);
      var source := if Collapses(r) then r.children[0] else r;
      e.hasChildren ==> e.children == Breadcrumbs(source.children, e.path, resolve)
  {
  }

  /** `filterBreadcrumb` itself: a loop that pushes the entry of each kept route, calling
      itself on the children. */
  method FilterBreadcrumb(routes: seq<Route>, parentPath: string, resolve: (string, string) -> string)
    returns (res: seq<Route>)
    ensures res == Breadcrumbs(routes, parentPath, resolve)
    decreases routes
  {
    res := [];
    for i := 0 to |routes|
      invariant res == Breadcrumbs(routes[..i], parentPath, resolve)
    {
      assert routes[..i + 1][..i] == routes[..i];
      var route := routes[i];
      if route.meta.Some? && !(route.meta.value.hidden && !route.meta.value.canTo) {
        var data := if Collapses(route) then route.children[0].(path := resolve(route.path, route.children[0].path)) else route;
        var path := resolve(parentPath, data.path);
        var children := data.children;
        if data.hasChildren {
          children := FilterBreadcrumb(data.children, path, resolve);
        }
        res := res + [data.(path := path, children := children)];
      }
    }
    assert routes[..|routes|] == routes;
  }
}
