/**
 * The route loader: the route definitions the router is built from are the backend's route list
 * for a logged-in session whose fetch succeeds, and the built-in default routes otherwise.
 */
module DynamicRouter {
  import opened Wrappers

  /**
   * A route definition as the backend (or the defaults) describe it: a path, the name of the
   * component to render (absent or empty for none), whether it needs a session, whether it
   * matches exactly, and its child routes.
   */
  datatype RouteData = RouteData(
    path: string,
    element: string,
    protected: bool,
    exact: bool,
    children: seq<RouteData>)

  /** `getDefaultRoutes()`. */
  const DefaultRoutes: seq<RouteData> := [
    RouteData("/login", "Login", false, true, []),
    RouteData("/", "MainLayout", true, false, [RouteData("dashboard", "Dashboard", false, false, [])])
  ]

  /** The route definitions `loadRoutes` settles on. */
  function ChosenRoutes(isLoggedIn: bool, fetched: Option<seq<RouteData>>): (r: seq<RouteData>)
    ensures !isLoggedIn ==> r == DefaultRoutes
    ensures isLoggedIn && fetched.Some? ==> r == fetched.value
    ensures isLoggedIn && fetched.None? ==> r == DefaultRoutes
  {
    if isLoggedIn && fetched.Some? then fetched.value else DefaultRoutes
  }

  /** The defaults: a login page matched exactly, and a protected layout with the dashboard under it. */
  lemma DefaultRoutesShape()
    ensures |DefaultRoutes| == 2
    ensures DefaultRoutes[0].path == "/login" && DefaultRoutes[0].element == "Login" && DefaultRoutes[0].exact
            && !DefaultRoutes[0].protected && DefaultRoutes[0].children == []
    ensures DefaultRoutes[1].path == "/" && DefaultRoutes[1].element == "MainLayout" && DefaultRoutes[1].protected
            && |DefaultRoutes[1].children| == 1
            && DefaultRoutes[1].children[0].path == "dashboard" && DefaultRoutes[1].children[0].element == "Dashboard"
  {
  }

  /** The state of `useDynamicRoutes`: the chosen route definitions (none yet) and the loading flag. */
  class RouteLoader {
    var routes: Option<seq<RouteData>>
    var loading: bool

    constructor()
      ensures routes == None && loading
    {
      routes := None;
      loading := true;
    }

    /**
     * `loadRoutes()` for the session's login flag; `fetched` is what `fetchRoutes` delivered,
     * `None` when it failed. Either way the loader stops loading.
     */
    method LoadRoutes(isLoggedIn: bool, fetched: Option<seq<RouteData>>)
      modifies this
      ensures routes == Some(ChosenRoutes(isLoggedIn, fetched))
      ensures !loading
    {
      if isLoggedIn {
        match fetched {
          case Some(data) => routes := Some(data);
          case None => routes := Some(DefaultRoutes);
        }
      } else {
        routes := Some(DefaultRoutes);
      }
      loading := false;
    }
  }
}
