/**
 * The `validatorJWT` middleware: picks the session token, verifies it, loads
 * the user it names and either hands the request on with `req.user` set or
 * answers it.
 */
module ValidatorJwt {
  import opened Wrappers
  import opened Http
  import opened UserModel
  import opened Jwt

  const MsgNoToken := "No tienes autorización"
  const MsgUserNotFound := "Usuario no encontrado"
  const MsgAuthError := "Error de autorización"

  /** A JavaScript string is truthy when it is present and not empty. */
  predicate Truthy(s: Option<string>)
  {
    s.Some? && s.value != ""
  }

  /** `req.cookies.authToken || req.session.token`. */
  function SelectToken(cookie: Option<string>, session: Option<string>): (t: Option<string>)
    ensures Truthy(cookie) ==> t == cookie
    ensures !Truthy(cookie) ==> t == session
    ensures Truthy(t) <==> Truthy(cookie) || Truthy(session)
  {
    if Truthy(cookie) then cookie else session
  }

  /** How the middleware ends: calling `next` with a user, or a response. */
  datatype Outcome = Next(user: User) | Stop(response: Response)

  /**
   * The middleware's decision. A falsy token is refused before verification;
   * a token `verify` rejects (it throws) lands in the catch; claims naming no
   * stored user give 401.
   */
  function Authenticate(cookie: Option<string>, session: Option<string>, users: seq<User>,
                        verify: string -> Option<Claims>): (o: Outcome)
    ensures !Truthy(cookie) && !Truthy(session) ==> o == Stop(Response(403, MsgNoToken))
    ensures var t := SelectToken(cookie, session);
      Truthy(t) && verify(t.value).None? ==> o == Stop(Response(403, MsgAuthError))
    ensures var t := SelectToken(cookie, session);
      Truthy(t) && verify(t.value).Some?
      && (verify(t.value).value.id.None? || FindById(users, verify(t.value).value.id.value).None?) ==>
        o == Stop(Response(401, MsgUserNotFound))
    ensures o.Next? <==>
      var t := SelectToken(cookie, session);
      && Truthy(t)
      && verify(t.value).Some?
      && verify(t.value).value.id.Some?
      && FindById(users, verify(t.value).value.id.value).Some?
    ensures o.Next? ==> o.user in users
    ensures o.Next? ==> Some(o.user.id) == verify(SelectToken(cookie, session).value).value.id
  {
    var token := SelectToken(cookie, session);
    if !Truthy(token) then Stop(Response(403, MsgNoToken))
    else match verify(token.value)
      case None => Stop(Response(403, MsgAuthError))
      case Some(decoded) =>
        // `findById(undefined)` finds nothing
        var found := if decoded.id.Some? then FindById(users, decoded.id.value) else None;
        if found.None? then Stop(Response(401, MsgUserNotFound)) else Next(found.value)
  }

  /** The authentication cookie takes precedence over the session's token whenever it is set. */
  lemma CookieWins(cookie: string, session: Option<string>, users: seq<User>, verify: string -> Option<Claims>)
    requires cookie != ""
    ensures Authenticate(Some(cookie), session, users, verify) == Authenticate(Some(cookie), None, users, verify)
  {
  }

  /** Without a cookie the session's token decides. */
  lemma SessionFallback(session: Option<string>, users: seq<User>, verify: string -> Option<Claims>)
    ensures Authenticate(None, session, users, verify) == Authenticate(Some(""), session, users, verify)
  {
  }

  /**
   * A login token authenticates its holder: if verification gives back the
   * claims that were signed, the request that carries the token in its cookie
   * proceeds with the stored user of that id.
   */
  lemma SignedTokenAuthenticates(users: seq<User>, next: UserId, k: nat, token: string, session: Option<string>,
                                 verify: string -> Option<Claims>)
    requires ConsistentUsers(users, next)
    requires k < |users| && token != ""
    requires verify(token) == Some(Claims(Some(users[k].id), None))
    ensures Authenticate(Some(token), session, users, verify) == Next(users[k])
  {
    FindByIdUnique(users, k);
  }

  /** With distinct ids, looking up a stored user's id finds that user. */
  lemma {:induction false} FindByIdUnique(users: seq<User>, k: nat)
    requires k < |users|
    requires forall i, j :: 0 <= i < j < |users| ==> users[i].id != users[j].id
    ensures FindById(users, users[k].id) == Some(users[k])
  {
    if k > 0 {
      assert users[0].id != users[k].id;
      assert users[1..][k - 1] == users[k];
      FindByIdUnique(users[1..], k - 1);
    }
  }

  /** The request/response pair the middleware works on. */
  class Exchange {
    /** `req.cookies.authToken` */
    const authCookie: Option<string>
    /** `req.session.token` */
    const sessionToken: Option<string>
    /** `req.user` */
    var user: Option<User>
    /** What was sent on `res`, if anything. */
    var response: Option<Response>
    var nextCalled: bool

    constructor (authCookie: Option<string>, sessionToken: Option<string>)
      ensures this.authCookie == authCookie && this.sessionToken == sessionToken
      ensures user.None? && response.None? && !nextCalled
    {
      this.authCookie := authCookie;
      this.sessionToken := sessionToken;
      user := None;
      response := None;
      nextCalled := false;
    }
  }

  /**
   * `validatorJWT(req, res, next)`: exactly one of "`req.user` set and `next`
   * called" or "a response sent" happens, as `Authenticate` decides.
   */
  method ValidatorJWT(ex: Exchange, users: seq<User>, verify: string -> Option<Claims>)
    requires ex.user.None? && ex.response.None? && !ex.nextCalled
    modifies ex
    ensures var o := Authenticate(ex.authCookie, ex.sessionToken, users, verify);
      && (o.Next? ==> ex.user == Some(o.user) && ex.nextCalled && ex.response.None?)
      && (o.Stop? ==> ex.response == Some(o.response) && !ex.nextCalled && ex.user.None?)
  {
    var token := if Truthy(ex.authCookie) then ex.authCookie else ex.sessionToken;
    if !Truthy(token) {
      ex.response := Some(Response(403, MsgNoToken));
      return;
    }
    var decoded := verify(token.value);
    if decoded.None? {
      ex.response := Some(Response(403, MsgAuthError));
      return;
    }
    var userSearched := if decoded.value.id.Some? then FindById(users, decoded.value.id.value) else None;
    if userSearched.None? {
      ex.response := Some(Response(401, MsgUserNotFound));
      return;
    }
    ex.user := userSearched;
    ex.nextCalled := true;
  }
}
