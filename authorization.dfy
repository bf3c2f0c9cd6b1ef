/**
 * The `authorizeRole(role)` middleware factory: it lets a request through
 * when the user `validatorJWT` attached holds exactly the named role.
 */
module Authorization {
  import opened Wrappers
  import opened Http
  import opened UserModel
  import opened Jwt
  import ValidatorJwt

  const MsgForbidden := "Forbidden: Insufficient role"

  /**
   * How the middleware ends. Reading `role` of an absent `req.user` raises a
   * TypeError the middleware does not catch.
   */
  datatype Gate = CallNext | Reject(response: Response) | Thrown

  /** `authorizeRole(role)(req, res, next)` with `req.user` as given. */
  function AuthorizeRole(role: string, user: Option<User>): (g: Gate)
    ensures g == CallNext <==> user.Some? && RoleName(user.value.role) == role
    ensures g.Thrown? <==> user.None?
    ensures g.Reject? ==> g.response == Response(403, MsgForbidden)
  {
    if user.None? then Thrown
    else if RoleName(user.value.role) == role then CallNext
    else Reject(Response(403, MsgForbidden))
  }

  /**
   * The comparison is strict equality with no hierarchy: an administrator is
   * refused by a route that requires "user", and conversely.
   */
  lemma NoRoleHierarchy(u: User)
    ensures AuthorizeRole("user", Some(u)) == CallNext <==> u.role == RegularUser
    ensures AuthorizeRole("admin", Some(u)) == CallNext <==> u.role == Admin
  {
  }

  /** A role string outside the enum lets nobody through, and the trimmed form is not consulted. */
  lemma UnknownRoleRefusesAll(role: string, u: User)
    requires role != "user" && role != "admin"
    ensures AuthorizeRole(role, Some(u)) == Reject(Response(403, MsgForbidden))
  {
  }

  /**
   * Behind `validatorJWT` the role check never throws: a request reaches it
   * only with `req.user` set, and it passes exactly when that user's role is named.
   */
  lemma BehindValidator(cookie: Option<string>, session: Option<string>, users: seq<User>,
                        verify: string -> Option<Claims>, role: string)
    requires ValidatorJwt.Authenticate(cookie, session, users, verify).Next?
    ensures var u := ValidatorJwt.Authenticate(cookie, session, users, verify).user;
      && u in users
      && !AuthorizeRole(role, Some(u)).Thrown?
      && (AuthorizeRole(role, Some(u)) == CallNext <==> RoleName(u.role) == role)
  {
  }
}
