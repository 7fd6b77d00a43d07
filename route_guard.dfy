/** The decision of the client's `ProtectedRoute`: what a guarded page shows
    for the authentication state and the page's role flags. */
module RouteGuard {
  import opened Wrappers

  datatype Outcome = Spinner | ToLogin | ToDashboard | ToAdmin | Render

  /** `user?.role`: None when there is no user object. */
  function Guard(loading: bool, isAuthenticated: bool, role: Option<string>,
                 adminOnly: bool, studentOnly: bool): (r: Outcome)
    ensures loading ==> r == Spinner
    ensures !loading && !isAuthenticated ==> r == ToLogin
    ensures r == ToDashboard <==> !loading && isAuthenticated && adminOnly && role != Some("admin")
    ensures r == ToAdmin <==>
      !loading && isAuthenticated && (!adminOnly || role == Some("admin")) && studentOnly && role != Some("student")
  {
    if loading then Spinner
    else if !isAuthenticated then ToLogin
    else if adminOnly && role != Some("admin") then ToDashboard
    else if studentOnly && role != Some("student") then ToAdmin
    else Render
  }

  /** The children are rendered exactly when the state is settled, the user
      signed in, and every flag the page sets is met by the user's role. */
  lemma RenderIff(loading: bool, isAuthenticated: bool, role: Option<string>, adminOnly: bool, studentOnly: bool)
    ensures Guard(loading, isAuthenticated, role, adminOnly, studentOnly) == Render <==>
      && !loading && isAuthenticated
      && (adminOnly ==> role == Some("admin"))
      && (studentOnly ==> role == Some("student"))
  {
  }

  /** A page with neither flag is open to every signed-in user. */
  lemma UnflaggedOpen(role: Option<string>)
    ensures Guard(false, true, role, false, false) == Render
  {
  }

  /** A page that sets both flags is never rendered: an admin is sent to
      the admin area and anyone else to the dashboard. */
  lemma BothFlagsNeverRender(role: Option<string>)
    ensures Guard(false, true, role, true, true) == if role == Some("admin") then ToAdmin else ToDashboard
  {
  }
}
