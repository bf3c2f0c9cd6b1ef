/**
 * The client's `PrivateRoute` guard and the context value it reads. The
 * guard looks up `loading` and `user` in the context value and
 * `requiredRoles` in its props; the provider exposes `load` (not `loading`)
 * and the routes pass `requiredRole` (not `requiredRoles`), so on every
 * route of the application only the "logged in" test takes effect.
 */
module PrivateRoute {
  import opened Wrappers
  import opened JsString
  import opened JsValues

  /** What the guard renders. `Thrown` is a render that throws (`includes` is not a function). */
  datatype Element = Placeholder | Redirect(to: string) | Children | Thrown

  /** `s.includes(t)` on strings: `t` occurs somewhere in `s`. */
  function Contains(s: string, t: string): bool
    decreases |s|
  {
    StartsWith(s, t) || (s != [] && Contains(s[1..], t))
  }

  /** `t` occurs in `s` starting at index `i`. */
  predicate OccursAt(s: string, t: string, i: int)
  {
    0 <= i && i + |t| <= |s| && s[i..i + |t|] == t
  }

  lemma {:induction false} ContainsSpec(s: string, t: string)
    ensures Contains(s, t) <==> exists i :: OccursAt(s, t, i)
  {
    if s == [] {
      if Contains(s, t) {
        assert OccursAt(s, t, 0);
      }
      if exists i :: OccursAt(s, t, i) {
        var i :| OccursAt(s, t, i);
        assert |t| == 0;
        assert StartsWith(s, t);
      }
    } else {
      ContainsSpec(s[1..], t);
      if StartsWith(s, t) {
        assert OccursAt(s, t, 0);
      } else if Contains(s[1..], t) {
        var i :| OccursAt(s[1..], t, i);
        assert s[i + 1..i + 1 + |t|] == s[1..][i..i + |t|];
        assert OccursAt(s, t, i + 1);
      }
      if exists i :: OccursAt(s, t, i) {
        var i :| OccursAt(s, t, i);
        if i > 0 {
          assert s[1..][i - 1..i - 1 + |t|] == s[i..i + |t|];
          assert OccursAt(s[1..], t, i - 1);
        }
      }
    }
  }

  /**
   * `roles.includes(x)`: membership for an array, a substring test on the
   * converted argument for a string, and a throw (`None`) for every other
   * value, none of which has an `includes` method (`undefined` and `null`
   * throw on the property read itself).
   */
  function Includes(roles: JsValue, x: JsValue): (r: Option<bool>)
    ensures roles.StrArray? ==> r == Some(x.Str? && x.s in roles.items)
    ensures roles.Str? ==> r == Some(Contains(roles.s, ToString(x)))
    ensures r.None? <==> !(roles.StrArray? || roles.Str?)
  {
    match roles
    case StrArray(items) => Some(x.Str? && x.s in items)
    case Str(s) => Some(Contains(s, ToString(x)))
    case _ => None
  }

  /** `PrivateRoute({ children, requiredRoles })` under the context value `context`. */
  function Guard(props: JsObject, context: JsObject): (e: Element)
    ensures Truthy(Get(context, "loading")) ==> e == Placeholder
    ensures !Truthy(Get(context, "loading")) && !Truthy(Get(context, "user")) ==> e == Redirect("/login")
    ensures e == Children <==>
      !Truthy(Get(context, "loading")) && Truthy(Get(context, "user"))
      && (!Truthy(Get(props, "requiredRoles"))
          || Includes(Get(props, "requiredRoles"), RoleOf(Get(context, "user"))) == Some(true))
    ensures e == Redirect("/") ==>
      Truthy(Get(props, "requiredRoles"))
      && Includes(Get(props, "requiredRoles"), RoleOf(Get(context, "user"))) == Some(false)
  {
    var loading := Get(context, "loading");
    var user := Get(context, "user");
    var requiredRoles := Get(props, "requiredRoles");
    if Truthy(loading) then Placeholder
    else if !Truthy(user) then Redirect("/login")
    else if !Truthy(requiredRoles) then Children
    else match Includes(requiredRoles, RoleOf(user))
      case None => Thrown
      case Some(found) => if found then Children else Redirect("/")
  }

  /** The provider's `value={{ user, load }}`. */
  function ProviderValue(user: JsValue, load: bool): (v: JsObject)
    ensures v.Keys == {"user", "load"}
  {
    map["user" := user, "load" := Bool(load)]
  }

  /** The props of an application route: `requiredRole={…}`, and the page it wraps as `children`. */
  function RouteProps(requiredRole: JsValue, children: JsValue): (p: JsObject)
    ensures p.Keys == {"requiredRole", "children"}
    ensures p["requiredRole"] == requiredRole && p["children"] == children
  {
    map["requiredRole" := requiredRole, "children" := children]
  }

  /** The placeholder never shows under the provider: the key it tests is not in the provider's value. */
  lemma NeverPlaceholder(props: JsObject, user: JsValue, load: bool)
    ensures Guard(props, ProviderValue(user, load)) != Placeholder
  {
    assert "loading" !in ProviderValue(user, load);
  }

  /** While the session is still loading there is no user yet, so the guard sends the visitor to the login page. */
  lemma LoadingSessionRedirects(props: JsObject)
    ensures Guard(props, ProviderValue(Null, true)) == Redirect("/login")
  {
    assert "loading" !in ProviderValue(Null, true);
  }

  /** On an application route any logged-in user gets the page, whatever role the route names. */
  lemma RoutesAdmitAnyUser(requiredRole: JsValue, children: JsValue, user: JsValue, load: bool)
    requires Truthy(user)
    ensures Guard(RouteProps(requiredRole, children), ProviderValue(user, load)) == Children
  {
    assert "loading" !in ProviderValue(user, load);
    assert "requiredRoles" !in RouteProps(requiredRole, children);
  }

  /** When `requiredRoles` is an array, a logged-in user passes exactly when their role is listed. */
  lemma RolesArrayChecked(roles: seq<string>, children: JsValue, role: string, load: bool)
    ensures var e := Guard(map["requiredRoles" := StrArray(roles), "children" := children],
                           ProviderValue(UserObject(Str(role)), load));
      (e == Children <==> role in roles) && (e == Redirect("/") <==> role !in roles)
  {
    assert "loading" !in ProviderValue(UserObject(Str(role)), load);
  }

  /** Every array is truthy: an empty `requiredRoles` list turns every user away. */
  lemma EmptyRolesRefuseAll(user: JsValue)
    requires Truthy(user)
    ensures Guard(map["requiredRoles" := StrArray([])], ProviderValue(user, false)) == Redirect("/")
  {
    assert "loading" !in ProviderValue(user, false);
  }
}
