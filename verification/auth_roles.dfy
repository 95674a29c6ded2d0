/**
 * The role predicates over the signed-in user, who may be absent, and the
 * parameters of the `signUp` wrapper as its callers fill them.
 */
module AuthRoles {
  import opened Common

  /**
   * The arguments `signUp` receives. Its fourth parameter is named `role`
   * and defaults to `'ADMIN'`; callers pass whatever they like there.
   */
  datatype SignUpCall = SignUpCall(email: string, password: string, name: string, role: string)

  const DefaultSignUpRole: string := "ADMIN"

  datatype AppRole = Admin | Employee

  datatype AuthUser = AuthUser(id: string, email: string, name: string, role: AppRole)

  /** `isAdmin`: `user?.role === 'ADMIN'`, so no user is no admin. */
  function IsAdmin(user: Option<AuthUser>): (b: bool)
    ensures user.None? ==> !b
    ensures user.Some? ==> (b <==> user.value.role == Admin)
  {
    user.Some? && user.value.role == Admin
  }

  /** `hasRole`: `user?.role === role`; `undefined` equals no role. */
  function HasRole(user: Option<AuthUser>, role: AppRole): (b: bool)
    ensures user.None? ==> !b
    ensures user.Some? ==> (b <==> user.value.role == role)
  {
    user.Some? && user.value.role == role
  }

  /** `isAdmin` is `hasRole` with the administrator role, for every user and for none. */
  lemma IsAdminIsHasRole(user: Option<AuthUser>)
    ensures IsAdmin(user) == HasRole(user, Admin)
    ensures user.None? ==> !IsAdmin(user) && forall r: AppRole :: !HasRole(user, r)
  {
  }

  /** A user holds exactly one role; without a user none holds. */
  lemma RolesExclusive(user: Option<AuthUser>)
    ensures !(HasRole(user, Admin) && HasRole(user, Employee))
    ensures user.Some? <==> HasRole(user, Admin) || HasRole(user, Employee)
  {
  }
}
