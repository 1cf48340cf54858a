/** The route records of the front end's router: a path, an optional name, an optional
    redirect, the display flags of `meta`, and the child routes. `children` is optional in a
    record; `hasChildren` says whether it is present (`children` is then the array, and
    empty otherwise). */
module Routes {
  import opened Common

  /** The `meta` flags the router guard and the breadcrumb read. */
  datatype Meta = Meta(hidden: bool, alwaysShow: bool, canTo: bool, breadcrumb: Option<bool>)

  datatype Route = Route(
    path: string,
    name: Option<string>,
    redirect: Option<string>,
    meta: Option<Meta>,
    hasChildren: bool,
    children: seq<Route>)
}
