/**
 * The site's route table and the lookup `getCurRoute` performs on it.
 * A route's render function is static markup and is modelled by a tag
 * naming which page it draws.
 */
module Routes {
  import opened Wrappers

  /** Which render function a route carries. */
  datatype RenderTag = HomePage | IsolationLevelsPage | DevPage | NotFoundPage

  datatype Route = Route(pathname: string, title: Option<string>, render: RenderTag)

  /** The routes every build registers, in table order. */
  function BaseRoutes(): seq<Route>
  {
    [ Route("/", None, HomePage),
      Route("/sql-server-transaction-isolation-levels",
            Some("SQL Server Transaction Isolation Levels"), IsolationLevelsPage) ]
  }

  /** The demo route registered only in a development build. */
  function DevRoute(): Route
  {
    Route("/dev", Some("Dev"), DevPage)
  }

  /** The fallback returned when no route matches. */
  function NotFoundRoute(): (r: Route)
    ensures forall isDev: bool :: !HasPath(RouteTable(isDev), r.pathname)
  {
    NotFoundPathUnused(false);
    NotFoundPathUnused(true);
    Route("/404", Some("404 Not Found"), NotFoundPage)
  }

  lemma NotFoundPathUnused(isDev: bool)
    ensures !HasPath(RouteTable(isDev), "/404")
  {
    forall i | 0 <= i < |BaseRoutes()| ensures RouteTable(isDev)[i].pathname != "/404" {
      BaseRoutesPaths(i);
    }
  }

  /** The table as it stands once start-up has finished. */
  function RouteTable(isDev: bool): (r: seq<Route>)
    ensures |r| == |BaseRoutes()| + (if isDev then 1 else 0)
    ensures r[..|BaseRoutes()|] == BaseRoutes()
    ensures isDev ==> r[|r| - 1] == DevRoute()
  {
    if isDev then BaseRoutes() + [DevRoute()] else BaseRoutes()
  }

  /** Start-up: the literal list, then a push of the demo route in a development build. */
  method BuildRoutes(isDev: bool) returns (routes: seq<Route>)
    ensures routes == RouteTable(isDev)
    ensures routes[..|BaseRoutes()|] == BaseRoutes()
    ensures isDev <==> |routes| == |BaseRoutes()| + 1
    ensures isDev ==> routes[|routes| - 1] == DevRoute()
  {
    routes := BaseRoutes();
    if isDev {
      routes := routes + [DevRoute()];
    }
  }

  predicate HasPath(routes: seq<Route>, path: string)
  {
    exists i :: 0 <= i < |routes| && routes[i].pathname == path
  }

  predicate PathnamesUnique(routes: seq<Route>)
  {
    forall i, j :: 0 <= i < |routes| && 0 <= j < |routes| && routes[i].pathname == routes[j].pathname ==> i == j
  }

  /** The index `Array.prototype.find` stops at: the first route whose pathname is `path`. */
  function FindIndex(routes: seq<Route>, path: string): (r: Option<nat>)
    ensures r.Some? ==> r.value < |routes| && routes[r.value].pathname == path
    ensures r.Some? ==> forall j :: 0 <= j < r.value ==> routes[j].pathname != path
    ensures r.None? ==> forall j :: 0 <= j < |routes| ==> routes[j].pathname != path
  {
    if |routes| == 0 then None
    else if routes[0].pathname == path then Some(0)
    else match FindIndex(routes[1..], path)
      case None => None
      case Some(i) => Some(i + 1)
  }

  /** The route shown for `path`: the first match in the table, else the not-found route. */
  function GetCurRoute(routes: seq<Route>, path: string): (r: Route)
    ensures HasPath(routes, path) ==> r.pathname == path && r in routes
    ensures !HasPath(routes, path) ==> r == NotFoundRoute()
  {
    match FindIndex(routes, path)
    case Some(i) => routes[i]
    case None => NotFoundRoute()
  }

  /** The lookup returns the first matching entry itself. */
  lemma GetCurRouteFirstMatch(routes: seq<Route>, path: string, i: nat)
    requires i < |routes| && routes[i].pathname == path
    requires forall j :: 0 <= j < i ==> routes[j].pathname != path
    ensures GetCurRoute(routes, path) == routes[i]
  {
    assert FindIndex(routes, path).Some?;
  }

  /** With unique pathnames, looking up an entry's own pathname gives that entry back. */
  lemma GetCurRouteOfEntry(routes: seq<Route>, i: nat)
    requires PathnamesUnique(routes)
    requires i < |routes|
    ensures GetCurRoute(routes, routes[i].pathname) == routes[i]
  {
    GetCurRouteFirstMatch(routes, routes[i].pathname, i);
  }

  lemma BaseRoutesPaths(i: nat)
    requires i < |BaseRoutes()|
    ensures BaseRoutes()[i].pathname != "/dev" && BaseRoutes()[i].pathname != "/404"
  {
    if i == 1 {
      assert BaseRoutes()[1].pathname[1] == 's';
    }
  }

  /** Both tables have unique pathnames. */
  lemma RouteTableWellFormed(isDev: bool)
    ensures PathnamesUnique(RouteTable(isDev))
  {
    var t := RouteTable(isDev);
    assert t[0].pathname != t[1].pathname by {
      assert |t[0].pathname| != |t[1].pathname|;
    }
    forall i | 0 <= i < |BaseRoutes()| ensures t[i].pathname != "/dev" {
      BaseRoutesPaths(i);
    }
  }

  /** The table holds a `/dev` entry exactly in a development build, and it is the last one. */
  lemma RouteTableDevIff(isDev: bool)
    ensures HasPath(RouteTable(isDev), "/dev") <==> isDev
    ensures isDev ==> RouteTable(isDev)[|RouteTable(isDev)| - 1].pathname == "/dev"
  {
    var t := RouteTable(isDev);
    if HasPath(t, "/dev") {
      var i :| 0 <= i < |t| && t[i].pathname == "/dev";
      if i < |BaseRoutes()| {
        BaseRoutesPaths(i);
      }
    }
    if isDev {
      assert t[|t| - 1] == DevRoute();
    }
  }

  /** What a visit to `/dev` shows in each kind of build. */
  lemma ResolveDev(isDev: bool)
    ensures GetCurRoute(RouteTable(isDev), "/dev") == if isDev then DevRoute() else NotFoundRoute()
  {
    RouteTableDevIff(isDev);
    if isDev {
      RouteTableWellFormed(isDev);
      GetCurRouteOfEntry(RouteTable(isDev), |BaseRoutes()|);
    }
  }

  /** The base pages resolve to themselves whether or not the demo route was pushed. */
  lemma ResolveBase(isDev: bool, i: nat)
    requires i < |BaseRoutes()|
    ensures GetCurRoute(RouteTable(isDev), BaseRoutes()[i].pathname) == BaseRoutes()[i]
  {
    RouteTableWellFormed(isDev);
    GetCurRouteOfEntry(RouteTable(isDev), i);
  }
}
