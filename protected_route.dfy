/** The route guard of the frontend (frontend/src/components/ProtectedRoute.tsx): what it
    renders and where it navigates, from the provider's loading flag, authentication and
    user role. */
module ProtectedRoute {
  import opened Common
  import opened AuthContext

  const DEFAULT_REDIRECT: string := "/auth/login"

  /** What the guard renders: the spinner, nothing, the access-denied view or the
      children. */
  datatype View = Spinner | Nothing | Denied | Children

  /** The page a user of a role outside `allowedRoles` is sent to (lines 30-41); a role
      outside the four sends nowhere. */
  function DeniedRoute(role: string): (r: Option<string>)
    ensures role == ADMIN || role == HR ==> r == Some("/dashboard")
    ensures role == MANAGER ==> r == Some("/manager/approvals")
    ensures role == EMPLOYEE ==> r == Some("/employee/profile")
    ensures r.None? <==> !KnownRole(role)
  {
    if role == ADMIN || role == HR then Some("/dashboard")
    else if role == MANAGER then Some("/manager/approvals")
    else if role == EMPLOYEE then Some("/employee/profile")
    else None
  }

  /** The render and the navigation of the effect (lines 21-79). `redirectTo` is None when
      the prop is not given. */
  function Guard(isLoading: bool, isAuthenticated: bool, user: Option<User>, allowedRoles: Option<seq<string>>,
                 redirectTo: Option<string>): (r: (View, Option<string>))
    ensures isLoading ==> r == (Spinner, None)
    ensures !isLoading && !isAuthenticated ==>
              r == (Nothing, Some(if redirectTo.Some? then redirectTo.value else DEFAULT_REDIRECT))
    ensures !isLoading && isAuthenticated && allowedRoles.Some? && user.Some? && user.value.role !in allowedRoles.value ==>
              r == (Denied, DeniedRoute(user.value.role))
    ensures r.0 == Children <==>
              !isLoading && isAuthenticated && (allowedRoles.None? || user.None? || user.value.role in allowedRoles.value)
    ensures r.0 == Children ==> r.1.None?
  {
    if isLoading then (Spinner, None)
    else if !isAuthenticated then (Nothing, Some(if redirectTo.Some? then redirectTo.value else DEFAULT_REDIRECT))
    else if allowedRoles.Some? && user.Some? && user.value.role !in allowedRoles.value then
      (Denied, DeniedRoute(user.value.role))
    else (Children, None)
  }

  /** Under a provider, the children render exactly when it has finished loading, is
      authenticated and, when roles are given, `hasRole` accepts them. */
  lemma ChildrenIffHasRole(p: AuthProvider, allowedRoles: Option<seq<string>>, redirectTo: Option<string>)
    ensures Guard(p.isLoading, p.IsAuthenticated(), p.user, allowedRoles, redirectTo).0 == Children <==>
              !p.isLoading && p.IsAuthenticated() && (allowedRoles.None? || p.HasRole(allowedRoles.value))
  {
  }

  /** A signed-in user whose role the guard admits sees the children with no navigation;
      one whose role it does not admit sees the denial view. */
  lemma GuardFollowsRole(u: User, allowedRoles: seq<string>)
    ensures u.role in allowedRoles ==> Guard(false, true, Some(u), Some(allowedRoles), None) == (Children, None)
    ensures u.role !in allowedRoles ==> Guard(false, true, Some(u), Some(allowedRoles), None).0 == Denied
  {
  }
}
