/**
 * The role guard: a route's declared role list, taken from the handler
 * before the class, admits only users whose role is on it.
 */
module RolesGuard {
  import opened Wrappers
  import opened Schema
  import opened HttpErrors

  const ForbiddenMessage: string := "forbidden"

  /** `request.user` as the guard reads it. */
  datatype RequestUser = RequestUser(role: Option<Role>)

  /**
   * `reflector.getAllAndOverride(ROLES_KEY, [handler, class])`: the first
   * declaration present, the handler's before the class's.
   */
  function DeclaredRoles(handlerRoles: Option<seq<Role>>, classRoles: Option<seq<Role>>): (r: Option<seq<Role>>)
    ensures handlerRoles.Some? ==> r == handlerRoles
    ensures handlerRoles.None? ==> r == classRoles
  {
    if handlerRoles.Some? then handlerRoles else classRoles
  }

  /**
   * `RolesGuard.canActivate`: returns true or throws Forbidden("forbidden");
   * it never returns false.
   */
  function CanActivate(handlerRoles: Option<seq<Role>>, classRoles: Option<seq<Role>>, user: Option<RequestUser>)
    : (r: Result<bool, HttpError>)
    ensures r.Ok? ==> r.value
    ensures r.Err? ==> r.error == HttpError(Forbidden, ForbiddenMessage)
    ensures var declared := DeclaredRoles(handlerRoles, classRoles);
      r.Ok? <==>
        || declared.None? || |declared.value| == 0
        || (user.Some? && user.value.role.Some? && user.value.role.value in declared.value)
  {
    var requiredRoles := DeclaredRoles(handlerRoles, classRoles);
    if requiredRoles.None? || |requiredRoles.value| == 0 then Ok(true)
    else if user.None? || user.value.role.None? || user.value.role.value !in requiredRoles.value then
      Err(HttpError(Forbidden, ForbiddenMessage))
    else Ok(true)
  }

  /** A handler-level declaration decides alone: the class-level one is never consulted. */
  lemma HandlerOverridesClass(handlerRoles: seq<Role>, classRoles: Option<seq<Role>>, other: Option<seq<Role>>,
                              user: Option<RequestUser>)
    ensures CanActivate(Some(handlerRoles), classRoles, user) == CanActivate(Some(handlerRoles), other, user)
  {
  }

  /**
   * A NORMAL admin is refused on a route declared for SUPER only and
   * admitted on the same route when nothing is declared.
   */
  lemma NormalAdminOnSuperRoute()
    ensures CanActivate(Some([Super]), None, Some(RequestUser(Some(Normal)))) == Err(HttpError(Forbidden, ForbiddenMessage))
    ensures CanActivate(None, None, Some(RequestUser(Some(Normal)))) == Ok(true)
  {
  }
}
