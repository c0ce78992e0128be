/** Role-gated navigation (`App`): the `ProtectedRoute` decision, the route
    table, and what a path renders for a given session. */
module Routes {
  import opened Api
  import opened Json

  /** What `ProtectedRoute` returns: the loading placeholder, a `<Navigate>`,
      or its children. */
  datatype GuardView = Placeholder | Redirect(to: string) | Children

  /** `requiredRole` is truthy. */
  predicate RoleRequired(requiredRole: Option<string>) {
    requiredRole.Some? && requiredRole.value != ""
  }

  /** `user.role`. */
  function RoleOf(user: Object): Value {
    Get(user, "role")
  }

  /** `ProtectedRoute` for the session's `loading` and `user` and the route's
      `requiredRole`. */
  function ProtectedRoute(loading: bool, user: Option<Object>, requiredRole: Option<string>): (v: GuardView)
    ensures loading ==> v == Placeholder
    ensures !loading && user.None? ==> v == Redirect("/login")
    ensures !loading && user.Some? && RoleRequired(requiredRole) && RoleOf(user.value) != Str(requiredRole.value) ==>
      v == Redirect(if RoleOf(user.value) == Str("admin") then "/admin/dashboard" else "/dashboard")
    ensures v == Children <==>
      !loading && user.Some? && (!RoleRequired(requiredRole) || RoleOf(user.value) == Str(requiredRole.value))
  {
    if loading then Placeholder
    else if user.None? then Redirect("/login")
    else if RoleRequired(requiredRole) && RoleOf(user.value) != Str(requiredRole.value) then
      Redirect(if RoleOf(user.value) == Str("admin") then "/admin/dashboard" else "/dashboard")
    else Children
  }

  // ---------------------------------------------------------------------------
  // The route table

  datatype Page =
    | Login | Register
    | StudentDashboard | StudentElections | Vote | StudentResults | Profile
    | AdminDashboard | AdminElections | AdminCandidates | AdminUsers | AdminSettings
    | PageNotFound

  /** A route's element: a page shown to anyone, a page behind
      `ProtectedRoute` with a required role, or an unconditional `<Navigate>`. */
  datatype Element = Public(page: Page) | Protected(requiredRole: string, page: Page) | Navigate(to: string)

  /** A route path: a literal path, a prefix followed by one `:param`
      segment, or `*`. */
  datatype Pattern = Exact(path: string) | WithParam(prefix: string) | CatchAll

  datatype Route = Route(pattern: Pattern, element: Element)

  const RouteTable: seq<Route> := [
    Route(Exact("/login"), Public(Login)),
    Route(Exact("/register"), Public(Register)),
    Route(Exact("/"), Navigate("/login")),
    Route(Exact("/dashboard"), Protected("student", StudentDashboard)),
    Route(Exact("/elections"), Protected("student", StudentElections)),
    Route(WithParam("/vote/"), Protected("student", Vote)),
    Route(Exact("/results"), Protected("student", StudentResults)),
    Route(Exact("/profile"), Protected("student", Profile)),
    Route(Exact("/admin/dashboard"), Protected("admin", AdminDashboard)),
    Route(Exact("/admin/elections"), Protected("admin", AdminElections)),
    Route(Exact("/admin/candidates"), Protected("admin", AdminCandidates)),
    Route(Exact("/admin/users"), Protected("admin", AdminUsers)),
    Route(Exact("/admin/settings"), Protected("admin", AdminSettings)),
    Route(CatchAll, Public(PageNotFound))
  ]

  predicate Matches(pattern: Pattern, path: string) {
    match pattern
    case Exact(p) => path == p
    case WithParam(prefix) => |prefix| < |path| && path[..|prefix|] == prefix && '/' !in path[|prefix|..]
    case CatchAll => true
  }

  /** No route of `routes` before index `i` matches `path`. */
  predicate NoMatchBefore(routes: seq<Route>, path: string, i: int)
    requires 0 <= i <= |routes|
  {
    forall j :: 0 <= j < i ==> !Matches(routes[j].pattern, path)
  }

  /** The element of the first route of `routes` whose pattern matches. */
  function FirstMatch(routes: seq<Route>, path: string): (e: Option<Element>)
    ensures e.None? <==> forall i :: 0 <= i < |routes| ==> !Matches(routes[i].pattern, path)
    ensures e.Some? ==> (exists i :: 0 <= i < |routes| && routes[i].element == e.value
                                   && Matches(routes[i].pattern, path) && NoMatchBefore(routes, path, i))
  {
    if routes == [] then None
    else if Matches(routes[0].pattern, path) then
      assert NoMatchBefore(routes, path, 0);
      Some(routes[0].element)
    else
      var rest := FirstMatch(routes[1..], path);
      assert forall i :: 1 <= i < |routes| ==> routes[1..][i - 1] == routes[i];
      if rest.Some? then
        var k :| 0 <= k < |routes| - 1 && routes[1..][k].element == rest.value
          && Matches(routes[1..][k].pattern, path) && NoMatchBefore(routes[1..], path, k);
        assert NoMatchBefore(routes, path, k + 1);
        rest
      else
        rest
  }

  /** The element `<Routes>` renders for `path`: that of the first route
      that matches it; the catch-all route makes sure there is one. */
  function Lookup(path: string): (e: Element)
    ensures FirstMatch(RouteTable, path) == Some(e)
    ensures (exists i :: 0 <= i < |RouteTable| && RouteTable[i].element == e
                        && Matches(RouteTable[i].pattern, path) && NoMatchBefore(RouteTable, path, i))
  {
    var m := FirstMatch(RouteTable, path);
    assert Matches(RouteTable[|RouteTable| - 1].pattern, path);
    if m.Some? then m.value
    else
      assert false;
      Public(PageNotFound)
  }

  /** The literal paths the guard redirects to resolve to their routes. */
  lemma RedirectTargets()
    ensures Lookup("/login") == Public(Login)
    ensures Lookup("/dashboard") == Protected("student", StudentDashboard)
    ensures Lookup("/admin/dashboard") == Protected("admin", AdminDashboard)
  {
    LoginTarget();
    DashboardTarget();
    AdminDashboardTarget();
  }

  /** The first match is the route at `k` when that route matches and none
      before it does. */
  lemma {:induction false} FirstMatchAt(routes: seq<Route>, path: string, k: nat)
    requires k < |routes| && Matches(routes[k].pattern, path)
    requires forall j :: 0 <= j < k ==> !Matches(routes[j].pattern, path)
    ensures FirstMatch(routes, path) == Some(routes[k].element)
  {
    if k > 0 {
      assert !Matches(routes[0].pattern, path);
      FirstMatchAt(routes[1..], path, k - 1);
    }
  }

  lemma LoginTarget()
    ensures Lookup("/login") == Public(Login)
  {
    FirstMatchAt(RouteTable, "/login", 0);
  }

  lemma DashboardTarget()
    ensures Lookup("/dashboard") == Protected("student", StudentDashboard)
  {
    FirstMatchAt(RouteTable, "/dashboard", 3);
  }

  lemma AdminDashboardTarget()
    ensures Lookup("/admin/dashboard") == Protected("admin", AdminDashboard)
  {
    assert !Matches(RouteTable[5].pattern, "/admin/dashboard") by {
      assert "/admin/dashboard"[..6] != "/vote/" by { assert "/admin/dashboard"[1] != "/vote/"[1]; }
    }
    forall j | 0 <= j < 8 && j != 5
      ensures !Matches(RouteTable[j].pattern, "/admin/dashboard")
    {
      assert RouteTable[j].pattern.Exact? && |RouteTable[j].pattern.path| < |"/admin/dashboard"|;
    }
    FirstMatchAt(RouteTable, "/admin/dashboard", 8);
  }

  /** Whether a path lies under `/admin`. */
  predicate UnderAdmin(pattern: Pattern) {
    pattern.Exact? && |pattern.path| >= 7 && pattern.path[..7] == "/admin/"
  }

  /** Every protected route under `/admin` requires `admin`; every other
      protected route requires `student`. */
  lemma ProtectedRoles()
    ensures forall i :: 0 <= i < |RouteTable| && RouteTable[i].element.Protected? ==>
      RouteTable[i].element.requiredRole == (if UnderAdmin(RouteTable[i].pattern) then "admin" else "student")
  {
    forall i | 0 <= i < |RouteTable| && RouteTable[i].element.Protected?
      ensures RouteTable[i].element.requiredRole == (if UnderAdmin(RouteTable[i].pattern) then "admin" else "student")
    {
      if i < 8 {
        var p := RouteTable[i].pattern;
        assert !UnderAdmin(p) by {
          if p.Exact? && |p.path| >= 7 {
            assert p.path[1] != 'a';
          }
        }
      }
    }
  }

  // ---------------------------------------------------------------------------
  // What a path shows

  datatype Screen = Shows(page: Page) | Loading | GoesTo(path: string)

  /** What navigating to `path` renders for a session. */
  function Render(path: string, loading: bool, user: Option<Object>): Screen {
    match Lookup(path)
    case Public(page) => Shows(page)
    case Navigate(to) => GoesTo(to)
    case Protected(role, page) =>
      match ProtectedRoute(loading, user, Some(role))
      case Placeholder => Loading
      case Redirect(to) => GoesTo(to)
      case Children => Shows(page)
  }

  predicate KnownRole(user: Object) {
    RoleOf(user) == Str("admin") || RoleOf(user) == Str("student")
  }

  /** Every `<Navigate>` of the table goes to `/login`, and every protected
      route requires `admin` or `student`. */
  lemma TableShape()
    ensures forall i :: 0 <= i < |RouteTable| ==>
      && (RouteTable[i].element.Navigate? ==> RouteTable[i].element.to == "/login")
      && (RouteTable[i].element.Protected? ==>
            RouteTable[i].element.requiredRole == "admin" || RouteTable[i].element.requiredRole == "student")
  {
  }

  /** The same facts for whatever element a path resolves to. */
  lemma LookupShape(path: string)
    ensures Lookup(path).Navigate? ==> Lookup(path).to == "/login"
    ensures Lookup(path).Protected? ==> Lookup(path).requiredRole in {"admin", "student"}
  {
    TableShape();
  }

  /** The three redirect targets render their page for the session they
      are meant for. */
  lemma TargetsRender(user: Option<Object>)
    ensures Render("/login", false, user) == Shows(Login)
    ensures user.Some? && RoleOf(user.value) == Str("admin") ==>
      Render("/admin/dashboard", false, user) == Shows(AdminDashboard)
    ensures user.Some? && RoleOf(user.value) == Str("student") ==>
      Render("/dashboard", false, user) == Shows(StudentDashboard)
  {
    RedirectTargets();
    RenderProtected("/admin/dashboard", user);
    RenderProtected("/dashboard", user);
  }

  /** Rendering a protected path after loading is the guard's verdict. */
  lemma RenderProtected(path: string, user: Option<Object>)
    requires Lookup(path).Protected?
    ensures ProtectedRoute(false, user, Some(Lookup(path).requiredRole)) == Children ==>
      Render(path, false, user) == Shows(Lookup(path).page)
  {
  }

  /** The only places a render redirects to. */
  lemma RedirectsGoHome(path: string, user: Option<Object>)
    ensures Render(path, false, user).GoesTo? ==>
      Render(path, false, user).path ==
        if user.None? then "/login"
        else if Lookup(path).Navigate? then "/login"
        else if RoleOf(user.value) == Str("admin") then "/admin/dashboard"
        else "/dashboard"
  {
    LookupShape(path);
  }

  /** For a signed-out visitor, or a user whose role is `admin` or `student`,
      a redirect always lands on a page that renders: one hop, never a loop. */
  lemma NoRedirectLoop(path: string, user: Option<Object>)
    requires user.None? || KnownRole(user.value)
    ensures Render(path, false, user).GoesTo? ==> Render(Render(path, false, user).path, false, user).Shows?
  {
    var s := Render(path, false, user);
    if s.GoesTo? {
      RedirectsGoHome(path, user);
      TargetsRender(user);
      if user.Some? && !Lookup(path).Navigate? && RoleOf(user.value) != Str("admin") {
        LookupShape(path);
        assert Lookup(path).Protected?;
        assert RoleOf(user.value) == Str("student");
      }
    }
  }

  /** Any other role is sent to `/dashboard`, which requires `student` and
      sends it to `/dashboard` again. */
  lemma OtherRoleLoops(user: Object)
    requires !KnownRole(user)
    ensures Render("/dashboard", false, Some(user)) == GoesTo("/dashboard")
  {
    RedirectTargets();
    RenderMismatch("/dashboard", user);
  }

  /** After loading, a protected path whose role the user lacks renders the
      guard's redirect to the user's role home. */
  lemma RenderMismatch(path: string, user: Object)
    requires Lookup(path).Protected? && Lookup(path).requiredRole != ""
    requires RoleOf(user) != Str(Lookup(path).requiredRole)
    ensures Render(path, false, Some(user)) ==
      GoesTo(if RoleOf(user) == Str("admin") then "/admin/dashboard" else "/dashboard")
  {
  }
}
