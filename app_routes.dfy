/** The browser router: a constant table from path pattern to the guard
    wrapped around the page, and what a visit to a path does for a user. */
module AppRoutes {

  import opened Optional
  import opened Session
  import opened RouteGuards

  /** The wrapper a route puts around its page, if any. */
  datatype Guard = Unguarded | VerificationRequiredGuard | PublicGuard | StudentGuard | RecruiterGuard

  datatype Route = Route(path: string, guard: Guard)

  /** The route table, in declaration order. Patterns such as `:id` are kept
      as text: the model looks paths up by their pattern. */
  const Routes: seq<Route> := [
    Route("/", Unguarded),
    Route("/jobs", VerificationRequiredGuard),
    Route("/description/:id", VerificationRequiredGuard),
    Route("/browse", VerificationRequiredGuard),
    Route("/login", PublicGuard),
    Route("/signup", PublicGuard),
    Route("/verify-otp", Unguarded),
    Route("/profile", StudentGuard),
    Route("/admin/jobs", RecruiterGuard),
    Route("/admin/jobs/create", RecruiterGuard),
    Route("/admin/jobs/:id/applicants", RecruiterGuard),
    Route("/admin/companies", RecruiterGuard),
    Route("/admin/companies/create", RecruiterGuard),
    Route("/admin/companies/:id", RecruiterGuard)
  ]

  predicate HasPrefix(s: string, prefix: string)
  {
    |prefix| <= |s| && s[..|prefix|] == prefix
  }

  /** The guard of the first route whose pattern is `path`. */
  function GuardFor(routes: seq<Route>, path: string): (g: Option<Guard>)
    ensures g.None? <==> forall i :: 0 <= i < |routes| ==> routes[i].path != path
    ensures g.Some? ==> exists i :: 0 <= i < |routes| && routes[i] == Route(path, g.value)
  {
    if routes == [] then None
    else if routes[0].path == path then Some(routes[0].guard)
    else
      var g := GuardFor(routes[1..], path);
      assert g.Some? ==> routes[1..][0..] == routes[1..];
      g
  }

  /** What the guard does for a user. The page renders exactly when the
      browser stays; an unguarded page always renders; only the role
      guards can throw, and only for an `undefined` user; a page that needs
      a signed-in user never renders for a falsy one. */
  function Apply(g: Guard, u: AuthUser): (v: GuardView)
    ensures v.renders <==> v.effect == Stay
    ensures g == Unguarded ==> v.renders
    ensures v.effect == Throws <==> u == Undefined && g in {StudentGuard, RecruiterGuard}
    ensures !u.Truthy() && g !in {Unguarded, PublicGuard} ==> !v.renders
    ensures u.Truthy() && g == PublicGuard ==> !v.renders
  {
    match g
    case Unguarded => GuardView(Stay, true)
    case VerificationRequiredGuard => VerificationRequired(u)
    case PublicGuard => PublicRoute(u)
    case StudentGuard => StudentProtectedRoute(u)
    case RecruiterGuard => RecruiterProtectedRoute(u)
  }

  /** Visiting `path` as `u`: `None` for a path no route declares; for a
      declared path, the page renders exactly when the browser stays. */
  function Visit(path: string, u: AuthUser): (v: Option<GuardView>)
    ensures v.Some? <==> exists i :: 0 <= i < |Routes| && Routes[i].path == path
    ensures v.Some? ==> (v.value.renders <==> v.value.effect == Stay)
  {
    match GuardFor(Routes, path)
    case None => None
    case Some(g) => Some(Apply(g, u))
  }

  /** No two routes share a path pattern. */
  lemma RoutePathsDistinct()
    ensures forall i, j :: 0 <= i < j < |Routes| ==> Routes[i].path != Routes[j].path
  {
    forall i, j | 0 <= i < j < |Routes|
      ensures Routes[i].path != Routes[j].path
    {
      EarlierPathsDiffer(j);
    }
  }

  /** Route `i`'s pattern differs from every earlier one; the case split
      lets the solver compare the literal patterns one route at a time. */
  lemma EarlierPathsDiffer(i: nat)
    requires i < |Routes|
    ensures forall j :: 0 <= j < i ==> Routes[j].path != Routes[i].path
  {
    assert i == 0 || i == 1 || i == 2 || i == 3 || i == 4 || i == 5 || i == 6
        || i == 7 || i == 8 || i == 9 || i == 10 || i == 11 || i == 12 || i == 13;
  }

  /** Every path beginning `/admin/` is recruiter-only, and every
      recruiter-only path begins `/admin/`. */
  lemma AdminRoutesAreRecruiterOnly()
    ensures forall i :: 0 <= i < |Routes| ==>
      (HasPrefix(Routes[i].path, "/admin/") <==> Routes[i].guard == RecruiterGuard)
  {
    forall i | 0 <= i < |Routes|
      ensures HasPrefix(Routes[i].path, "/admin/") <==> Routes[i].guard == RecruiterGuard
    {
      assert i == 0 || i == 1 || i == 2 || i == 3 || i == 4 || i == 5 || i == 6
          || i == 7 || i == 8 || i == 9 || i == 10 || i == 11 || i == 12 || i == 13;
      var p := Routes[i].path;
      if Routes[i].guard == RecruiterGuard {
        assert p[..7] == "/admin/";
      } else {
        assert |p| < 7 || p[1] != 'a';
      }
    }
  }

  /** The guard each page is given. */
  lemma GuardAssignments()
    ensures GuardFor(Routes, "/") == Some(Unguarded)
    ensures GuardFor(Routes, "/verify-otp") == Some(Unguarded)
    ensures GuardFor(Routes, "/login") == Some(PublicGuard)
    ensures GuardFor(Routes, "/signup") == Some(PublicGuard)
    ensures GuardFor(Routes, "/jobs") == Some(VerificationRequiredGuard)
    ensures GuardFor(Routes, "/description/:id") == Some(VerificationRequiredGuard)
    ensures GuardFor(Routes, "/browse") == Some(VerificationRequiredGuard)
    ensures GuardFor(Routes, "/profile") == Some(StudentGuard)
  {
    EarlierPathsDiffer(0); GuardForFinds(Routes, 0);
    EarlierPathsDiffer(1); GuardForFinds(Routes, 1);
    EarlierPathsDiffer(2); GuardForFinds(Routes, 2);
    EarlierPathsDiffer(3); GuardForFinds(Routes, 3);
    EarlierPathsDiffer(4); GuardForFinds(Routes, 4);
    EarlierPathsDiffer(5); GuardForFinds(Routes, 5);
    EarlierPathsDiffer(6); GuardForFinds(Routes, 6);
    EarlierPathsDiffer(7); GuardForFinds(Routes, 7);
  }

  /** The access policy of the route table: every declared page is
      reachable, and who sees it depends only on which page it is. */
  lemma AccessPolicy(u: AuthUser, i: nat)
    requires i < |Routes|
    ensures Visit(Routes[i].path, u).Some?
    ensures HasPrefix(Routes[i].path, "/admin/") ==>
      (Visit(Routes[i].path, u).value.renders <==> u.HasRole("recruiter"))
    ensures Routes[i].path in {"/jobs", "/browse", "/description/:id"} ==>
      (Visit(Routes[i].path, u).value.renders <==> u.Present? && u.user.isVerified)
    ensures Routes[i].path in {"/login", "/signup"} ==>
      (Visit(Routes[i].path, u).value.renders <==> !u.Truthy())
    ensures Routes[i].path == "/profile" ==>
      (Visit(Routes[i].path, u).value.renders <==> u.HasRole("student"))
    ensures Routes[i].path in {"/", "/verify-otp"} ==> Visit(Routes[i].path, u).value.renders
  {
    EarlierPathsDiffer(i);
    GuardForFinds(Routes, i);
    AdminRoutesAreRecruiterOnly();
    GuardOfPath(i);
  }

  /** Which guard each non-admin page pattern carries. */
  lemma GuardOfPath(i: nat)
    requires i < |Routes|
    ensures Routes[i].path in {"/jobs", "/browse", "/description/:id"} ==> Routes[i].guard == VerificationRequiredGuard
    ensures Routes[i].path in {"/login", "/signup"} ==> Routes[i].guard == PublicGuard
    ensures Routes[i].path == "/profile" ==> Routes[i].guard == StudentGuard
    ensures Routes[i].path in {"/", "/verify-otp"} ==> Routes[i].guard == Unguarded
  {
    assert i == 0 || i == 1 || i == 2 || i == 3 || i == 4 || i == 5 || i == 6
        || i == 7 || i == 8 || i == 9 || i == 10 || i == 11 || i == 12 || i == 13;
  }

  /** A signed-in user who has not verified the email cannot open the job
      list: they are sent to the code-entry page, which itself is open. */
  lemma UnverifiedUserSentToCodeEntry(user: User)
    requires !user.isVerified
    ensures Visit("/jobs", Present(user)) == Some(GuardView(NavigateTo("/verify-otp"), false))
    ensures Visit("/verify-otp", Present(user)) == Some(GuardView(Stay, true))
  {
    GuardAssignments();
  }

  /** A student is sent home from every recruiter page. */
  lemma StudentKeptOutOfAdmin(user: User, i: nat)
    requires user.role == "student"
    requires i < |Routes| && HasPrefix(Routes[i].path, "/admin/")
    ensures Visit(Routes[i].path, Present(user)) == Some(GuardView(NavigateTo("/"), false))
  {
    AdminRoutesAreRecruiterOnly();
    RoutePathsDistinct();
    GuardForFinds(Routes, i);
  }

  /** Looking up the pattern of a route whose pattern appears nowhere
      earlier gives that route's guard. */
  lemma {:induction false} GuardForFinds(routes: seq<Route>, i: nat)
    requires i < |routes|
    requires forall j :: 0 <= j < i ==> routes[j].path != routes[i].path
    ensures GuardFor(routes, routes[i].path) == Some(routes[i].guard)
  {
    if i > 0 {
      GuardForFinds(routes[1..], i - 1);
    }
  }
}
