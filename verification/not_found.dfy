/** The 404 page (`NotFound`): where its single link leads and what it says. */
module NotFound {
  import opened Api
  import opened Json
  import Routes

  /** The link's `to` target and the word after "Go back to". */
  datatype Link = Link(to: string, text: string)

  /** The home link for the current session: the login page when signed
      out, the admin dashboard for role `admin`, the student dashboard for
      every other signed-in user. */
  function HomeLink(user: Option<Object>): (link: Link)
    ensures user.None? ==> link == Link("/login", "Login")
    ensures link.text == "Dashboard" <==> user.Some?
    ensures user.Some? ==> (link.to == "/admin/dashboard" <==> Get(user.value, "role") == Str("admin"))
    ensures user.Some? && Get(user.value, "role") != Str("admin") ==> link.to == "/dashboard"
  {
    Link(if user.Some? then (if Get(user.value, "role") == Str("admin") then "/admin/dashboard" else "/dashboard")
         else "/login",
         if user.Some? then "Dashboard" else "Login")
  }

  /** For a signed-in user, the link goes where the route guard sends that
      user on a role mismatch. */
  lemma LinkIsGuardRedirect(user: Object, requiredRole: Option<string>)
    requires Routes.RoleRequired(requiredRole) && Routes.RoleOf(user) != Str(requiredRole.value)
    ensures Routes.ProtectedRoute(false, Some(user), requiredRole) == Routes.Redirect(HomeLink(Some(user)).to)
  {
  }

  /** Signed out, or signed in as `admin` or `student`, the link leads to a
      page that renders rather than to another redirect. */
  lemma LinkLandsOnPage(user: Option<Object>)
    requires user.None? || Routes.KnownRole(user.value)
    ensures Routes.Render(HomeLink(user).to, false, user).Shows?
  {
    Routes.TargetsRender(user);
  }
}
