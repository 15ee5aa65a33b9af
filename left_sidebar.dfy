/** The active-link rule of components/shared/LeftSidebar.tsx, shared by the bottom bar. */
module LeftSidebar {
  import opened Text

  /** The routes of `sidebarLinks` (constants/index.ts), in order: Home, New Workout,
      Saved Workouts, Progress, Profile. */
  const SidebarRoutes: seq<string> := ["/", "/create-workout", "/saved-workout", "/progress", "/profile"]

  /** A link is highlighted when the current path contains its route and the route is
      longer than one character, or when the path equals the route. */
  predicate IsActive(pathname: string, route: string)
    ensures pathname == route ==> IsActive(pathname, route)
    ensures IsActive(pathname, route) && |route| <= 1 ==> pathname == route
  {
    (Contains(pathname, route) && |route| > 1) || pathname == route
  }

  /** A one-character route such as "/" is active only on exactly that path; a longer
      route is active on every path containing it. */
  lemma IsActiveCases(pathname: string, route: string)
    ensures |route| <= 1 ==> (IsActive(pathname, route) <==> pathname == route)
    ensures |route| > 1 ==> (IsActive(pathname, route) <==> Contains(pathname, route))
  {
    if |route| > 1 && pathname == route {
      ContainsItself(route);
    }
  }

  /** Links are judged one by one, so a nested path lights up both of the routes it
      contains: "/profile/progress" activates "/profile" and "/progress". */
  lemma SeveralLinksActive()
    ensures IsActive("/profile/progress", "/profile")
    ensures IsActive("/profile/progress", "/progress")
    ensures !IsActive("/profile/progress", "/")
  {
    assert OccursAt("/profile/progress", "/profile", 0);
    assert OccursAt("/profile/progress", "/progress", 8);
  }
}
