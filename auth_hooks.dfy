/** The authentication hooks: each yields the navigation its effect makes
    and the value it returns to the component. */
module AuthHooks {

  import opened Optional
  import opened Session
  import RouteGuards

  /** A redirecting hook's effect and the user it hands back unchanged. */
  datatype HookResult = HookResult(effect: Navigation, user: AuthUser)

  /** `useRequireAuth`: sends a visitor with no user to the login page. */
  function UseRequireAuth(u: AuthUser): (h: HookResult)
    ensures h.user == u
    ensures h.effect == NavigateTo("/login") <==> !u.Truthy()
    ensures u.Truthy() ==> h.effect == Stay
  {
    HookResult(if !u.Truthy() then NavigateTo("/login") else Stay, u)
  }

  /** The shape of `useRequireStudent` and `useRequireRecruiter`: no user
      goes to the login page, a user of another role to the home page.
      Unlike the guard components, `!user` catches `undefined` too. */
  function UseRequireRole(u: AuthUser, role: string): (h: HookResult)
    ensures h.user == u
    ensures !u.Truthy() ==> h.effect == NavigateTo("/login")
    ensures u.Present? && u.user.role != role ==> h.effect == NavigateTo("/")
    ensures h.effect == Stay <==> u.HasRole(role)
    ensures h.effect != Throws
  {
    var effect :=
      if !u.Truthy() then NavigateTo("/login")
      else if u.user.role != role then NavigateTo("/")
      else Stay;
    HookResult(effect, u)
  }

  function UseRequireStudent(u: AuthUser): (h: HookResult)
    ensures h.effect == Stay <==> u.HasRole("student")
  {
    UseRequireRole(u, "student")
  }

  function UseRequireRecruiter(u: AuthUser): (h: HookResult)
    ensures h.effect == Stay <==> u.HasRole("recruiter")
  {
    UseRequireRole(u, "recruiter")
  }

  /** `useIsAuthenticated`: `!!user`. */
  function UseIsAuthenticated(u: AuthUser): (b: bool)
    ensures b <==> u.Present?
  {
    u.Truthy()
  }

  /** `useUserRole`: `user?.role || null`, so an empty role reads as no
      role. */
  function UseUserRole(u: AuthUser): (r: Option<string>)
    ensures r.Some? <==> u.Present? && u.user.role != []
    ensures r.Some? ==> r.value == u.user.role
  {
    if u.Present? && u.user.role != [] then Some(u.user.role) else None
  }

  /** The role hooks and the role guard components agree for `null` and
      for a signed-in user; for `undefined` the hook sends the visitor to
      the login page where the guard's effect throws. */
  lemma RoleHookMatchesGuard(u: AuthUser, role: string)
    ensures u != Undefined ==> UseRequireRole(u, role).effect == RouteGuards.RoleGuard(u, role).effect
    ensures u == Undefined ==>
      UseRequireRole(u, role).effect == NavigateTo("/login") && RouteGuards.RoleGuard(u, role).effect == Throws
  {
  }
}
