/**
 * What `activateRoute` and `run` do once a route is chosen: set the
 * document title, report the page view to analytics outside development,
 * then hand the container to the route's render function. The effects are
 * recorded as an ordered trace of events.
 */
module Activation {
  import opened Wrappers
  import opened Routes

  const SiteName: string := "ScholarChart"
  const TitleSeparator: string := " - "

  /** The document title for a route. */
  function DocumentTitle(route: Route): (t: string)
    ensures route.title.None? <==> t == SiteName
    ensures |t| >= |SiteName| && t[|t| - |SiteName|..] == SiteName
    ensures route.title.Some? ==>
      |t| == |route.title.value| + |TitleSeparator| + |SiteName| &&
      t[..|route.title.value|] == route.title.value &&
      t[|route.title.value|..|route.title.value| + |TitleSeparator|] == TitleSeparator
  {
    if route.title.Some? then route.title.value + TitleSeparator + SiteName else SiteName
  }

  /** Distinct route titles give distinct document titles. */
  lemma DocumentTitleInjective(a: Route, b: Route)
    requires DocumentTitle(a) == DocumentTitle(b)
    ensures a.title == b.title
  {
    var t := DocumentTitle(a);
    if a.title.Some? && b.title.Some? {
      assert |a.title.value| == |b.title.value|;
      assert a.title.value == t[..|a.title.value|] == b.title.value;
    }
  }

  /** One observable effect of activating a route. */
  datatype Event = SetTitle(title: string) | InitAnalytics | TrackPageView | Render(tag: RenderTag)

  /** The effects of `activateRoute`, in the order they happen. */
  function ActivationTrace(route: Route, isDev: bool): (t: seq<Event>)
    ensures |t| == if isDev then 2 else 4
    ensures t[0] == SetTitle(DocumentTitle(route)) && t[|t| - 1] == Render(route.render)
  {
    [SetTitle(DocumentTitle(route))]
    + (if isDev then [] else [InitAnalytics, TrackPageView])
    + [Render(route.render)]
  }

  /** The trace written out for each kind of build. */
  lemma ActivationTraceCases(route: Route, isDev: bool)
    ensures ActivationTrace(route, isDev) ==
      if isDev then [SetTitle(DocumentTitle(route)), Render(route.render)]
      else [SetTitle(DocumentTitle(route)), InitAnalytics, TrackPageView, Render(route.render)]
  {
  }

  /** Analytics is initialised and a page view tracked exactly outside development. */
  lemma AnalyticsIffNotDev(route: Route, isDev: bool)
    ensures InitAnalytics in ActivationTrace(route, isDev) <==> !isDev
    ensures TrackPageView in ActivationTrace(route, isDev) <==> !isDev
  {
    ActivationTraceCases(route, isDev);
  }

  /** The title is set exactly once, before anything else. */
  lemma TitleSetFirst(route: Route, isDev: bool)
    ensures var t := ActivationTrace(route, isDev);
      t[0] == SetTitle(DocumentTitle(route)) &&
      forall i :: 0 <= i < |t| ==> (t[i].SetTitle? <==> i == 0)
  {
    ActivationTraceCases(route, isDev);
  }

  /** The route's render function is called exactly once, after everything else. */
  lemma RenderOnceLast(route: Route, isDev: bool)
    ensures var t := ActivationTrace(route, isDev);
      t[|t| - 1] == Render(route.render) &&
      forall i :: 0 <= i < |t| ==> (t[i].Render? <==> i == |t| - 1)
  {
    ActivationTraceCases(route, isDev);
  }

  /** Analytics is initialised before the page view is tracked. */
  lemma InitBeforeTrack(route: Route, isDev: bool)
    ensures var t := ActivationTrace(route, isDev);
      forall i, j :: 0 <= i < |t| && 0 <= j < |t| && t[i].InitAnalytics? && t[j].TrackPageView? ==> i < j
  {
    ActivationTraceCases(route, isDev);
  }

  /** The page: its title and the effects performed on it so far. */
  class Document {
    var title: string
    var trace: seq<Event>

    constructor (initialTitle: string)
      ensures title == initialTitle && trace == []
    {
      title := initialTitle;
      trace := [];
    }

    /** Sets the title, reports the page view unless in development, then renders. */
    method ActivateRoute(route: Route, isDev: bool)
      modifies this
      ensures title == DocumentTitle(route)
      ensures trace == old(trace) + ActivationTrace(route, isDev)
    {
      if route.title.Some? {
        title := route.title.value + TitleSeparator + SiteName;
      } else {
        title := SiteName;
      }
      trace := trace + [SetTitle(title)];
      if !isDev {
        trace := trace + [InitAnalytics];
        trace := trace + [TrackPageView];
      }
      trace := trace + [Render(route.render)];
    }

    /** Page start-up: build the table, resolve the location's pathname, activate the result. */
    method Run(isDev: bool, pathname: string)
      modifies this
      ensures title == DocumentTitle(GetCurRoute(RouteTable(isDev), pathname))
      ensures trace == old(trace) + ActivationTrace(GetCurRoute(RouteTable(isDev), pathname), isDev)
    {
      var routes := BuildRoutes(isDev);
      var curRoute := GetCurRoute(routes, pathname);
      ActivateRoute(curRoute, isDev);
    }
  }

  /** Visiting an unknown path shows the 404 page titled "404 Not Found - ScholarChart". */
  lemma UnknownPathActivation(isDev: bool, pathname: string)
    requires !HasPath(RouteTable(isDev), pathname)
    ensures var trace := ActivationTrace(GetCurRoute(RouteTable(isDev), pathname), isDev);
      trace[0] == SetTitle("404 Not Found - ScholarChart") && trace[|trace| - 1] == Render(NotFoundPage)
  {
  }
}
