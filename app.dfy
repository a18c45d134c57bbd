/**
 * The router of the application: `buildRoutes` turns route definitions into router routes,
 * resolving component names through the static component map and wrapping protected pages in
 * the session guard; a catch-all route redirecting to the dashboard follows the built ones.
 */
module App {
  import opened Wrappers
  import opened Records
  import opened DynamicRouter

  /** The components the static map knows. */
  const ComponentNames: seq<string> := ["Login", "Dashboard", "MainLayout", "UserList", "RoleList", "MenuList"]

  /** What a router route renders. */
  datatype Element =
    | Page(component: string)          // the component itself
    | Guarded(component: string)       // the component inside `ProtectedRoute`
    | NotFound(name: string)           // the "Component not found" placeholder
    | Redirect(to: string)             // `<Navigate to=... replace />`

  /** A router route: `exact` stands for the presence of the `exact: true` key. */
  datatype Route = Route(path: string, element: Option<Element>, exact: bool, children: Children)

  /** The `children` key of a router route: absent, or the nested routes. */
  datatype Children = NoChildren | Children(routes: seq<Route>)

  /** The route the definition `r` becomes. */
  function BuildRoute(r: RouteData): (out: Route)
    ensures out.path == r.path
    ensures NonEmpty(r.element) && r.element !in ComponentNames ==>
              out == Route(r.path, Some(NotFound(r.element)), false, NoChildren)
    ensures NonEmpty(r.element) && r.element in ComponentNames ==>
              && out.element == Some(if r.protected then Guarded(r.element) else Page(r.element))
              && out.exact == r.exact
    ensures !NonEmpty(r.element) ==> out.element == None && out.exact == r.exact
    ensures out.children.Children? <==> r.children != [] && !(NonEmpty(r.element) && r.element !in ComponentNames)
    ensures out.children.Children? ==> |out.children.routes| == |r.children|
    decreases r, 1
  {
    if NonEmpty(r.element) then
      if r.element !in ComponentNames then
        Route(r.path, Some(NotFound(r.element)), false, NoChildren)
      else
        var element := if r.protected then Guarded(r.element) else Page(r.element);
        Route(r.path, Some(element), r.exact, if |r.children| > 0 then Children(BuildRoutes(r.children)) else NoChildren)
    else if |r.children| > 0 then
      Route(r.path, None, r.exact, Children(BuildRoutes(r.children)))
    else
      Route(r.path, None, r.exact, NoChildren)
  }

  /** `buildRoutes(routeData)`: one route per definition, in the same order and with the same paths. */
  function BuildRoutes(rs: seq<RouteData>): (out: seq<Route>)
    ensures |out| == |rs|
    ensures forall i :: 0 <= i < |rs| ==> out[i] == BuildRoute(rs[i]) && out[i].path == rs[i].path
    decreases rs, 0
  {
    seq(|rs|, i requires 0 <= i < |rs| => BuildRoute(rs[i]))
  }

  /** The route appended after the built ones. */
  const CatchAll := Route("*", Some(Redirect("/dashboard")), false, NoChildren)

  /** The routes the router is created from; none while no definitions are loaded. */
  function RouterRoutes(defs: Option<seq<RouteData>>): (r: Option<seq<Route>>)
    ensures defs.None? <==> r.None?
    ensures r.Some? ==> |r.value| == |defs.value| + 1 && r.value[|defs.value|] == CatchAll
                        && r.value[..|defs.value|] == BuildRoutes(defs.value)
  {
    if defs.None? then None else Some(BuildRoutes(defs.value) + [CatchAll])
  }

  /** What `ProtectedRoute` renders. */
  datatype Gate = ShowLoading | ToLogin | ShowChildren

  /** `ProtectedRoute`: loading first, then the login redirect without a user, else the page. */
  function ProtectedRoute(loading: bool, hasUser: bool): (g: Gate)
    ensures g == ShowChildren <==> !loading && hasUser
    ensures g == ToLogin <==> !loading && !hasUser
    ensures g == ShowLoading <==> loading
  {
    if loading then ShowLoading else if !hasUser then ToLogin else ShowChildren
  }

  /** The default definitions build to the login page, the guarded layout with the dashboard, and the catch-all. */
  lemma DefaultRouterRoutes()
    ensures RouterRoutes(Some(DefaultRoutes)) == Some([
              Route("/login", Some(Page("Login")), true, NoChildren),
              Route("/", Some(Guarded("MainLayout")), false, Children([Route("dashboard", Some(Page("Dashboard")), false, NoChildren)])),
              CatchAll])
  {
    var dash := Route("dashboard", Some(Page("Dashboard")), false, NoChildren);
    var login := Route("/login", Some(Page("Login")), true, NoChildren);
    var layout := Route("/", Some(Guarded("MainLayout")), false, Children([dash]));
    assert BuildRoute(DefaultRoutes[1].children[0]) == dash;
    assert BuildRoutes(DefaultRoutes[1].children) == [dash];
    assert BuildRoute(DefaultRoutes[0]) == login;
    assert BuildRoute(DefaultRoutes[1]) == layout;
    assert BuildRoutes(DefaultRoutes) == [login, layout];
    assert [login, layout] + [CatchAll] == [login, layout, CatchAll];
  }

  /** A definition whose component is named but unknown: it becomes the placeholder. */
  predicate Unknown(r: RouteData)
  {
    NonEmpty(r.element) && r.element !in ComponentNames
  }

  /** The pieces one after the other. */
  function Concat(xss: seq<seq<string>>): (r: seq<string>)
    ensures forall i, k :: 0 <= i < |xss| && 0 <= k < |xss[i]| ==> xss[i][k] in r
  {
    if xss == [] then [] else xss[0] + Concat(xss[1..])
  }

  /** The paths of a definition and everything under it in pre-order, skipping what an unknown component hides. */
  function DefPath(r: RouteData): seq<string>
  {
    [r.path] + (if Unknown(r) then [] else Concat(seq(|r.children|, i requires 0 <= i < |r.children| => DefPath(r.children[i]))))
  }

  function DefPaths(rs: seq<RouteData>): seq<string>
  {
    Concat(seq(|rs|, i requires 0 <= i < |rs| => DefPath(rs[i])))
  }

  /** The paths of a router route and everything under it in pre-order. */
  function RoutePath(r: Route): seq<string>
  {
    [r.path] + match r.children {
      case NoChildren => []
      case Children(cs) => Concat(seq(|cs|, i requires 0 <= i < |cs| => RoutePath(cs[i])))
    }
  }

  function RoutePaths(rs: seq<Route>): seq<string>
  {
    Concat(seq(|rs|, i requires 0 <= i < |rs| => RoutePath(rs[i])))
  }

  /**
   * A built route, at any depth, is never a redirect, renders a known component or the
   * placeholder for an unknown one, and the placeholder has no children.
   */
  predicate RouteResolved(r: Route)
  {
    && (r.element.Some? ==>
          match r.element.value
          case Page(c) => c in ComponentNames
          case Guarded(c) => c in ComponentNames
          case NotFound(n) => n !in ComponentNames && r.children == NoChildren
          case Redirect(_) => false)
    && match r.children {
         case NoChildren => true
         case Children(cs) => forall i :: 0 <= i < |cs| ==> RouteResolved(cs[i])
       }
  }

  /**
   * Building keeps every path of a definition and its descendants, in pre-order, except those
   * under a definition whose component is unknown: the placeholder drops its children.
   */
  lemma {:induction false} BuiltPath(r: RouteData)
    ensures RoutePath(BuildRoute(r)) == DefPath(r)
  {
    if !Unknown(r) && r.children != [] {
      var cs := BuildRoutes(r.children);
      assert BuildRoute(r).children == Children(cs);
      forall i | 0 <= i < |cs|
        ensures RoutePath(cs[i]) == DefPath(r.children[i])
      {
        BuiltPath(r.children[i]);
      }
      assert seq(|cs|, i requires 0 <= i < |cs| => RoutePath(cs[i]))
             == seq(|r.children|, i requires 0 <= i < |r.children| => DefPath(r.children[i]));
    }
  }

  /** The same for a whole forest of definitions. */
  lemma BuiltPaths(rs: seq<RouteData>)
    ensures RoutePaths(BuildRoutes(rs)) == DefPaths(rs)
  {
    var out := BuildRoutes(rs);
    forall i | 0 <= i < |rs|
      ensures RoutePath(out[i]) == DefPath(rs[i])
    {
      BuiltPath(rs[i]);
    }
    assert seq(|out|, i requires 0 <= i < |out| => RoutePath(out[i]))
           == seq(|rs|, i requires 0 <= i < |rs| => DefPath(rs[i]));
  }

  /** Every built route, at any depth, is resolved. */
  lemma {:induction false} BuiltRouteResolved(r: RouteData)
    ensures RouteResolved(BuildRoute(r))
  {
    if !Unknown(r) && r.children != [] {
      var cs := BuildRoutes(r.children);
      assert BuildRoute(r).children == Children(cs);
      forall i | 0 <= i < |cs|
        ensures RouteResolved(cs[i])
      {
        BuiltRouteResolved(r.children[i]);
      }
    }
  }

  /** A route is guarded exactly when its definition names a known component and is protected. */
  lemma GuardedExactly(r: RouteData)
    ensures BuildRoute(r).element.Some? && BuildRoute(r).element.value.Guarded? <==>
              NonEmpty(r.element) && r.element in ComponentNames && r.protected
  {
  }
}
