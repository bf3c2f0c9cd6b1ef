/**
 * The client's `ProtectedRoute`: it asks the server for the caller's role on
 * mount, then renders its element only when the role it settled on is the
 * required one, and redirects to the login page otherwise.
 */
module ProtectedRoute {
  import opened Wrappers
  import opened JsValues

  datatype View = Loading | Element | Redirect(to: string)

  /** `response.data.role || requiredRole`: an answer without a (truthy) role counts as the required role. */
  function ResolvedRole(dataRole: JsValue, requiredRole: string): (r: JsValue)
    ensures r == dataRole || r == Str(requiredRole)
    ensures requiredRole != "" ==> Truthy(r)
  {
    Or(dataRole, Str(requiredRole))
  }

  /** The role settled on grants the element exactly when the answer names the required role or no role at all. */
  lemma ResolvedGrants(dataRole: JsValue, requiredRole: string)
    ensures ResolvedRole(dataRole, requiredRole) == Str(requiredRole)
            <==> !Truthy(dataRole) || dataRole == Str(requiredRole)
  {
  }

  /** The render: the loading text first, then the comparison with `===`. */
  function Render(loading: bool, userRole: JsValue, requiredRole: string): (v: View)
    ensures v == Loading <==> loading
    ensures v == Element <==> !loading && userRole == Str(requiredRole)
    ensures v != Loading && v != Element ==> v == Redirect("/login")
  {
    if loading then Loading
    else if userRole == Str(requiredRole) then Element
    else Redirect("/login")
  }

  /** The role that was never set (`null`) sends the caller to the login page once loading is over. */
  lemma NullRoleRedirects(requiredRole: string)
    ensures Render(false, Null, requiredRole) == Redirect("/login")
  {
  }

  /** The component's state for one `requiredRole`. */
  class ProtectedRouteState {
    const requiredRole: string
    var userRole: JsValue
    var loading: bool

    constructor (requiredRole: string)
      ensures this.requiredRole == requiredRole && userRole == Null && loading
    {
      this.requiredRole := requiredRole;
      userRole := Null;
      loading := true;
    }

    /**
     * `verifyUserRole`, with `get(path)` the `role` of the answer's data,
     * `None` when the request or the read of `response.data.role` throws.
     */
    method VerifyUserRole(get: string -> Option<JsValue>)
      modifies this
      ensures !loading
      ensures get("/" + requiredRole).Some? ==>
        userRole == ResolvedRole(get("/" + requiredRole).value, requiredRole)
      ensures get("/" + requiredRole).None? ==> userRole == old(userRole)
    {
      var response := get("/" + requiredRole);
      if response.Some? {
        var role := Or(response.value, Str(requiredRole));
        userRole := role;
      }
      loading := false;
    }

    /** What the component renders in its current state. */
    function Current(): View
      reads this
    {
      Render(loading, userRole, requiredRole)
    }

    /** Mounting and then finishing the role check: the view the component ends on. */
    method Mount(get: string -> Option<JsValue>) returns (v: View)
      requires userRole == Null && loading
      modifies this
      ensures v != Loading
      ensures v == Element <==>
        get("/" + requiredRole).Some? && ResolvedRole(get("/" + requiredRole).value, requiredRole) == Str(requiredRole)
      ensures get("/" + requiredRole).None? ==> v == Redirect("/login")
    {
      VerifyUserRole(get);
      v := Current();
    }
  }
}
