/** The wrapper components that decide, from the signed-in user, whether a
    page renders and where the browser is sent otherwise. Each is an effect
    (the navigation) plus a render decision. */
module RouteGuards {

  import opened Session

  /** What a guard does for a given user: the navigation its effect makes
      and whether its children render. */
  datatype GuardView = GuardView(effect: Navigation, renders: bool)

  /** `VerificationRequired`: only a signed-in, verified user sees the page;
      others go to the login page or to the code-entry page. */
  function VerificationRequired(u: AuthUser): (g: GuardView)
    ensures g.renders <==> u.Present? && u.user.isVerified
    ensures !u.Truthy() ==> g.effect == NavigateTo("/login")
    ensures u.Present? && !u.user.isVerified ==> g.effect == NavigateTo("/verify-otp")
    ensures g.effect.NavigateTo? <==> !g.renders
    ensures g.effect != Throws
  {
    if !u.Truthy() then GuardView(NavigateTo("/login"), false)
    else if !u.user.isVerified then GuardView(NavigateTo("/verify-otp"), false)
    else GuardView(Stay, true)
  }

  /** Where `PublicRoute` sends a signed-in user. */
  function SignedInLanding(user: User): (path: string)
    ensures !user.isVerified ==> path == "/verify-otp"
    ensures user.isVerified && user.role == "recruiter" ==> path == "/admin/companies"
    ensures user.isVerified && user.role != "recruiter" ==> path == "/"
  {
    if !user.isVerified then "/verify-otp"
    else if user.role == "recruiter" then "/admin/companies"
    else "/"
  }

  /** `PublicRoute` (login and signup pages): shown only to a visitor with
      no user; anyone signed in is sent on, verified or not. */
  function PublicRoute(u: AuthUser): (g: GuardView)
    ensures g.renders <==> !u.Truthy()
    ensures g.renders <==> g.effect == Stay
    ensures u.Present? ==> g.effect == NavigateTo(SignedInLanding(u.user))
  {
    if u.Truthy() then GuardView(NavigateTo(SignedInLanding(u.user)), false)
    else GuardView(Stay, true)
  }

  /** The shape shared by the recruiter-only and student-only guards: the
      effect tests `user === null` and otherwise reads `user.role`, which
      throws for `undefined`; rendering tests `!user`. */
  function RoleGuard(u: AuthUser, role: string): (g: GuardView)
    ensures g.renders <==> u.HasRole(role)
    ensures u == Null ==> g.effect == NavigateTo("/login")
    ensures u == Undefined ==> g.effect == Throws && !g.renders
    ensures u.Present? && u.user.role != role ==> g.effect == NavigateTo("/")
    ensures g.renders ==> g.effect == Stay
  {
    match u
    case Null => GuardView(NavigateTo("/login"), false)
    case Undefined => GuardView(Throws, false)
    case Present(user) =>
      if user.role != role then GuardView(NavigateTo("/"), false)
      else GuardView(Stay, true)
  }

  /** `RecruiterProtectedRoute` (admin/ProtectedRoute.jsx). */
  function RecruiterProtectedRoute(u: AuthUser): (g: GuardView)
    ensures g.renders <==> u.HasRole("recruiter")
  {
    RoleGuard(u, "recruiter")
  }

  /** `StudentProtectedRoute`. */
  function StudentProtectedRoute(u: AuthUser): (g: GuardView)
    ensures g.renders <==> u.HasRole("student")
  {
    RoleGuard(u, "student")
  }

  /** `ProtectedRoute`: any signed-in user, whatever the role. */
  function ProtectedRoute(u: AuthUser): (g: GuardView)
    ensures g.renders <==> u.Truthy()
    ensures u == Null ==> g.effect == NavigateTo("/login")
    ensures u != Null ==> g.effect == Stay
  {
    if u == Null then GuardView(NavigateTo("/login"), false)
    else if !u.Truthy() then GuardView(Stay, false)
    else GuardView(Stay, true)
  }

  /** No user passes both role guards: a recruiter never sees a student
      page and a student never sees a recruiter page. */
  lemma RoleGuardsExclusive(u: AuthUser)
    ensures !(RecruiterProtectedRoute(u).renders && StudentProtectedRoute(u).renders)
  {
  }

  /** `ProtectedRoute` never looks at the role. */
  lemma ProtectedRouteIgnoresRole(user: User, role: string)
    ensures ProtectedRoute(Present(user)) == ProtectedRoute(Present(user.(role := role)))
  {
  }

  /** With `undefined` as the user, `ProtectedRoute` neither renders nor
      redirects: the visitor is left on an empty page. */
  lemma UndefinedUserStranded()
    ensures ProtectedRoute(Undefined) == GuardView(Stay, false)
  {
  }

  /** The role guards are partial: for `undefined` their effect throws
      where `null` would have been sent to the login page. */
  lemma RoleGuardPartialOnUndefined(role: string)
    ensures RoleGuard(Undefined, role).effect == Throws
    ensures RoleGuard(Null, role).effect == NavigateTo("/login")
  {
  }
}
