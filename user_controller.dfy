/**
 * The account handlers: registration, login, profile update and the
 * listing of the caller's own publications.
 *
 * Password hashing (`bcrypt.hash`, `bcrypt.compare`), token signing and the
 * image host upload are foreign calls, passed in as function parameters.
 * `hash` stands for the one outcome of the salted hash in this call.
 */
module UserController {
  import opened Wrappers
  import opened JsString
  import opened Http
  import opened UserModel
  import opened Records
  import opened Jwt
  import Seqs

  // ---- register ----

  const MsgEmailExists := "usuario ya existe con ese email"
  const MsgUsernameExists := "usuario ya existe con ese nombre de usuario "
  const MsgRegistered := "Usuario registrado con éxito"
  const MsgRegisterFailed := "Ocurrió un error inesperado por favor intente mas tarde"

  /**
   * `register`: the email is looked up first, then the username; either one
   * already held rejects with 406 before anything is written. Otherwise the
   * hashed password is stored with a new user, whose role and picture are the
   * schema's defaults. A missing password (`undefined`) makes `bcrypt.hash`
   * reject, and that, like a document failing validation, ends in the catch (500).
   */
  method Register(table: UserTable, username: string, password: Option<string>, email: string,
                  hash: string -> string)
    returns (res: Response)
    requires table.Valid()
    modifies table
    ensures table.Valid()
    ensures EmailTaken(old(table.users), email) ==>
      res == Response(406, MsgEmailExists) && table.users == old(table.users)
    ensures !EmailTaken(old(table.users), email) && UsernameTaken(old(table.users), username) ==>
      res == Response(406, MsgUsernameExists) && table.users == old(table.users)
    ensures !EmailTaken(old(table.users), email) && !UsernameTaken(old(table.users), username)
            && password.None? ==>
      res == Response(500, MsgRegisterFailed) && table.users == old(table.users)
    ensures !EmailTaken(old(table.users), email) && !UsernameTaken(old(table.users), username)
            && password.Some? ==>
      var made := NewUser(old(table.nextId), username, hash(password.value), email);
      && (made.Some? ==> res == Response(201, MsgRegistered) && table.users == old(table.users) + [made.value])
      && (made.None? ==> res == Response(500, MsgRegisterFailed) && table.users == old(table.users))
  {
    var searchEmail := FindByEmail(table.users, email);
    FindByEmailEmpty(table.users, email);
    // `!searchEmail.length == 0` reads `(!length) == 0`, which holds exactly when the list is not empty
    if |searchEmail| != 0 {
      return Response(406, MsgEmailExists);
    }
    var searchUsername := FindByUsername(table.users, username);
    FindByUsernameEmpty(table.users, username);
    if |searchUsername| != 0 {
      return Response(406, MsgUsernameExists);
    }
    if password.None? {
      return Response(500, MsgRegisterFailed);
    }
    var hashedPassword := hash(password.value);
    var saved := table.Create(username, hashedPassword, email);
    if saved.None? {
      return Response(500, MsgRegisterFailed);
    }
    return Response(201, MsgRegistered);
  }

  // ---- login ----

  const MsgInvalidEmail := "Invalid email"
  const MsgInvalidPassword := "Invalid password"
  const MsgLoginOk := "Login successful"
  const MsgLoginFailed := "Erro inesperado por favor intente mas tarde"

  /** The response, and the token the handler puts in the session and in the `authToken` cookie. */
  datatype LoginResult = LoginResult(response: Response, token: Option<string>)

  /**
   * `login`: the first user holding the email, then the password comparison,
   * then a token signed over that user's id. `generateJWT` is called with the
   * id alone, so the claims carry no role. A missing password (`undefined`)
   * makes `bcrypt.compare` reject, which the catch answers with 500.
   */
  function Login(users: seq<User>, email: string, password: Option<string>,
                 compare: (string, string) -> bool, sign: Claims -> Option<string>): (r: LoginResult)
    ensures !EmailTaken(users, email) ==> r == LoginResult(Response(401, MsgInvalidEmail), None)
    ensures EmailTaken(users, email) ==>
      var u := FindOneByEmail(users, email).value;
      && (password.None? ==> r == LoginResult(Response(500, MsgLoginFailed), None))
      && (password.Some? && !compare(password.value, u.passwords) ==>
            r == LoginResult(Response(401, MsgInvalidPassword), None))
      && (password.Some? && compare(password.value, u.passwords) ==>
            var t := sign(Claims(Some(u.id), None));
            r == if t.Some? then LoginResult(Response(200, MsgLoginOk), t)
                 else LoginResult(Response(500, MsgLoginFailed), None))
    ensures r.response.status == 200 <==> r.token.Some?
  {
    match FindOneByEmail(users, email)
    case None => LoginResult(Response(401, MsgInvalidEmail), None)
    case Some(u) =>
      if password.None? then LoginResult(Response(500, MsgLoginFailed), None)
      else if !compare(password.value, u.passwords) then LoginResult(Response(401, MsgInvalidPassword), None)
      else
        match sign(Claims(Some(u.id), None))
        case None => LoginResult(Response(500, MsgLoginFailed), None)
        case Some(t) => LoginResult(Response(200, MsgLoginOk), Some(t))
  }

  /** A successful login names a stored user holding the email whose stored hash matched the password. */
  lemma LoginSuccessWitness(users: seq<User>, email: string, password: Option<string>,
                            compare: (string, string) -> bool, sign: Claims -> Option<string>)
    requires Login(users, email, password, compare, sign).response.status == 200
    ensures password.Some?
    ensures exists u :: u in users && u.emails == Trim(email) && compare(password.value, u.passwords)
                        && sign(Claims(Some(u.id), None)) == Login(users, email, password, compare, sign).token
  {
    var u := FindOneByEmail(users, email).value;
    assert u in users && u.emails == Trim(email);
  }

  lemma {:induction false} FindOneAfterAppend(users: seq<User>, email: string, u: User)
    requires !EmailTaken(users, email) && u.emails == Trim(email)
    ensures FindOneByEmail(users + [u], email) == Some(u)
  {
    if users != [] {
      assert (users + [u])[1..] == users[1..] + [u];
      assert forall i :: 0 <= i < |users[1..]| ==> users[1..][i] == users[i + 1];
      FindOneAfterAppend(users[1..], email, u);
    }
  }

  /**
   * Register, then log in: when the stored hash verifies the password, the
   * login with the registration email succeeds with a token over the new id.
   */
  lemma RegisterThenLogin(users: seq<User>, next: UserId, username: string, password: string, email: string,
                          hash: string -> string, compare: (string, string) -> bool, sign: Claims -> Option<string>)
    requires !EmailTaken(users, email) && !UsernameTaken(users, username)
    requires NewUser(next, username, hash(password), email).Some?
    requires compare(password, Trim(hash(password)))
    requires sign(Claims(Some(next), None)).Some?
    ensures Login(users + [NewUser(next, username, hash(password), email).value], email, Some(password), compare, sign)
            == LoginResult(Response(200, MsgLoginOk), sign(Claims(Some(next), None)))
  {
    var u := NewUser(next, username, hash(password), email).value;
    NewUserDefaults(next, username, hash(password), email);
    FindOneAfterAppend(users, email, u);
    var all := users + [u];
    assert FindOneByEmail(all, email) == Some(u);
    assert compare(password, u.passwords);
    assert Claims(Some(u.id), None) == Claims(Some(next), None);
  }

  // ---- profileUpdater ----

  const MsgProfileEmailExists := "Usuario ya existe con ese email"
  const MsgProfileUsernameExists := "Usuario ya existe con ese nombre de usuario"
  const MsgBadImage := "Formato de imagen no válido"
  const MsgNotUpdated := "No se pudo actualizar el usuario"
  const MsgProfileUpdated := "Perfil actualizado con éxito"
  const MsgProfileFailed := "Error inesperado, intente más tarde"

  /** A file of the multipart upload: its MIME type and where it was spooled. */
  datatype UploadedFile = UploadedFile(mimetype: string, tempFilePath: string)

  /** `req.files?.media`: absent, one file, or several files under the same name (an array). */
  datatype MediaField = NoMedia | OneFile(file: UploadedFile) | ManyFiles(files: seq<UploadedFile>)

  /** What the image host returns for an upload. */
  datatype Asset = Asset(publicId: string, secureUrl: string)

  /** The two accepted image types; an array has no `mimetype`, so it is never accepted. */
  predicate AcceptedImage(media: MediaField)
  {
    media.OneFile? && (media.file.mimetype == "image/jpeg" || media.file.mimetype == "image/png")
  }

  /** What the handler decides before writing: an early response, or the `$set` document. */
  datatype Plan = Reject(response: Response) | Write(patch: Patch)

  /**
   * The checks and assignments of `profileUpdater` up to the update: each
   * supplied (non-empty) field is searched across ALL users, the caller
   * included, then the image type is checked and the image uploaded.
   */
  function UpdatePlan(users: seq<User>, email: string, username: string, media: MediaField,
                      upload: string -> Option<Asset>): (p: Plan)
    ensures email != "" && EmailTaken(users, email) ==> p == Reject(Response(406, MsgProfileEmailExists))
    ensures !(email != "" && EmailTaken(users, email)) && username != "" && UsernameTaken(users, username) ==>
      p == Reject(Response(406, MsgProfileUsernameExists))
    ensures !(email != "" && EmailTaken(users, email)) && !(username != "" && UsernameTaken(users, username)) ==>
      && (!media.NoMedia? && !AcceptedImage(media) ==> p == Reject(Response(400, MsgBadImage)))
      && (media.OneFile? && AcceptedImage(media) && upload(media.file.tempFilePath).None? ==>
            p == Reject(Response(500, MsgProfileFailed)))
    ensures !(email != "" && EmailTaken(users, email)) && !(username != "" && UsernameTaken(users, username))
            && (media.NoMedia? || (media.OneFile? && AcceptedImage(media) && upload(media.file.tempFilePath).Some?)) ==>
      p.Write?
    ensures p.Write? ==>
      && (p.patch.emails == if email != "" then Some(email) else None)
      && (p.patch.usernames == if username != "" then Some(username) else None)
      && (media.NoMedia? ==> p.patch.profilePicture.None?)
      && (!media.NoMedia? ==>
            && media.OneFile? && AcceptedImage(media) && upload(media.file.tempFilePath).Some?
            && p.patch.profilePicture == Some(ProfilePicture(upload(media.file.tempFilePath).value.publicId,
                                                              upload(media.file.tempFilePath).value.secureUrl)))
      && (email != "" ==> !EmailTaken(users, email))
      && (username != "" ==> !UsernameTaken(users, username))
  {
    FindByEmailEmpty(users, email);
    FindByUsernameEmpty(users, username);
    if email != "" && |FindByEmail(users, email)| > 0 then Reject(Response(406, MsgProfileEmailExists))
    else if username != "" && |FindByUsername(users, username)| > 0 then Reject(Response(406, MsgProfileUsernameExists))
    else if !media.NoMedia? && !AcceptedImage(media) then Reject(Response(400, MsgBadImage))
    else
      var emails := if email != "" then Some(email) else None;
      var usernames := if username != "" then Some(username) else None;
      if media.NoMedia? then Write(Patch(emails, usernames, None))
      else match upload(media.file.tempFilePath)
        case None => Reject(Response(500, MsgProfileFailed))
        case Some(a) => Write(Patch(emails, usernames, Some(ProfilePicture(a.publicId, a.secureUrl))))
  }

  /** Supplying one's own current email is rejected: the search is not restricted to other users. */
  lemma OwnEmailRejected(users: seq<User>, k: nat, username: string, media: MediaField, upload: string -> Option<Asset>)
    requires k < |users| && StoredForm(users[k]) && users[k].emails != ""
    ensures UpdatePlan(users, users[k].emails, username, media, upload)
            == Reject(Response(406, MsgProfileEmailExists))
  {
    TrimOfTrimmed(users[k].emails);
    assert EmailTaken(users, users[k].emails);
  }

  /** Applying a planned patch to one user keeps all emails and usernames unique. */
  lemma PlanKeepsUnique(users: seq<User>, k: nat, email: string, username: string, media: MediaField,
                        upload: string -> Option<Asset>)
    requires UniqueUsers(users) && k < |users|
    requires UpdatePlan(users, email, username, media, upload).Write?
    ensures UniqueUsers(users[k := ApplyPatch(users[k], UpdatePlan(users, email, username, media, upload).patch)])
  {
    var p := UpdatePlan(users, email, username, media, upload).patch;
    var u := ApplyPatch(users[k], p);
    var after := users[k := u];
    forall i, j | 0 <= i < j < |after|
      ensures after[i].emails != after[j].emails && after[i].usernames != after[j].usernames
    {
      if i == k || j == k {
        var other := if i == k then j else i;
        assert after[other] == users[other];
        if email != "" {
          assert u.emails == Trim(email);
          assert users[other].emails != Trim(email);
        }
        if username != "" {
          assert users[other].usernames != Trim(username);
        }
      }
    }
  }

  /**
   * The checks of `profileUpdater` before its write, in the handler's order:
   * they read the collection and call the image host, and change nothing.
   */
  method CollectFields(users: seq<User>, email: string, username: string, media: MediaField,
                       upload: string -> Option<Asset>) returns (plan: Plan)
    ensures plan == UpdatePlan(users, email, username, media, upload)
  {
    var emails: Option<string> := None;
    var usernames: Option<string> := None;
    var picture: Option<ProfilePicture> := None;
    if email != "" {
      var searchEmail := FindByEmail(users, email);
      if |searchEmail| > 0 {
        return Reject(Response(406, MsgProfileEmailExists));
      }
      emails := Some(email);
    }
    if username != "" {
      var searchUsername := FindByUsername(users, username);
      if |searchUsername| > 0 {
        return Reject(Response(406, MsgProfileUsernameExists));
      }
      usernames := Some(username);
    }
    if !media.NoMedia? {
      if !AcceptedImage(media) {
        return Reject(Response(400, MsgBadImage));
      }
      var result := upload(media.file.tempFilePath);
      if result.None? {
        return Reject(Response(500, MsgProfileFailed));
      }
      picture := Some(ProfilePicture(result.value.publicId, result.value.secureUrl));
    }
    return Write(Patch(emails, usernames, picture));
  }

  datatype ProfileResult = ProfileResult(response: Response, profilePicture: Option<ProfilePicture>)

  /**
   * `profileUpdater` for the authenticated caller: an early rejection writes
   * nothing; otherwise the caller's document gets exactly the planned fields,
   * or 404 when no user has the caller's id any more.
   */
  method ProfileUpdater(table: UserTable, callerId: UserId, email: string, username: string,
                        media: MediaField, upload: string -> Option<Asset>) returns (res: ProfileResult)
    requires table.Valid()
    modifies table
    ensures table.Valid()
    ensures var plan := UpdatePlan(old(table.users), email, username, media, upload);
      && (plan.Reject? ==> res == ProfileResult(plan.response, None) && table.users == old(table.users))
      && (plan.Write? && IndexOfId(old(table.users), callerId).None? ==>
            res == ProfileResult(Response(404, MsgNotUpdated), None) && table.users == old(table.users))
      && (plan.Write? && IndexOfId(old(table.users), callerId).Some? ==>
            var k := IndexOfId(old(table.users), callerId).value;
            var u := ApplyPatch(old(table.users)[k], plan.patch);
            table.users == old(table.users)[k := u]
            && res == ProfileResult(Response(200, MsgProfileUpdated), Some(u.profilePicture)))
  {
    var plan := CollectFields(table.users, email, username, media, upload);
    if plan.Reject? {
      return ProfileResult(plan.response, None);
    }
    var k := IndexOfId(table.users, callerId);
    if k.Some? {
      PlanKeepsUnique(table.users, k.value, email, username, media, upload);
    }
    var userUpdated := table.UpdateById(callerId, plan.patch);
    if userUpdated.None? {
      return ProfileResult(Response(404, MsgNotUpdated), None);
    }
    return ProfileResult(Response(200, MsgProfileUpdated), Some(userUpdated.value.profilePicture));
  }

  // ---- getUserPublications ----

  const MsgNotAuthenticated := "Usuario no autenticado"
  const MsgNoPublications := "No tienes publicaciones"

  datatype PublicationsResult = PublicationsResult(response: Response, publications: seq<EventRecord>)

  function OwnedBy(id: UserId): EventRecord -> bool
  {
    (p: EventRecord) => p.idUsers == id
  }

  /**
   * `getUserPublications`: 401 without a caller; otherwise the caller's
   * publications in storage order, and 404 (not an empty 200) when there are none.
   */
  function GetUserPublications(caller: Option<UserId>, pubs: seq<EventRecord>): (r: PublicationsResult)
    ensures caller.None? ==> r == PublicationsResult(Response(401, MsgNotAuthenticated), [])
    ensures caller.Some? ==>
      (r == PublicationsResult(Response(404, MsgNoPublications), [])
       <==> forall i :: 0 <= i < |pubs| ==> pubs[i].idUsers != caller.value)
    ensures r.response.status == 200 ==> caller.Some? && r.publications != []
    ensures r.response.status == 200 ==>
      forall p :: p in r.publications <==> p in pubs && p.idUsers == caller.value
    ensures caller.Some? && (exists i :: 0 <= i < |pubs| && pubs[i].idUsers == caller.value) ==>
      r == PublicationsResult(Response(200, ""), Seqs.Filter(pubs, OwnedBy(caller.value)))
  {
    if caller.None? then PublicationsResult(Response(401, MsgNotAuthenticated), [])
    else
      var mine := Seqs.Filter(pubs, OwnedBy(caller.value));
      forall p ensures p in mine <==> p in pubs && p.idUsers == caller.value {
        Seqs.FilterMember(pubs, OwnedBy(caller.value), p);
      }
      assert |mine| > 0 ==> mine[0] in mine;
      if |mine| == 0 then PublicationsResult(Response(404, MsgNoPublications), [])
      else PublicationsResult(Response(200, ""), mine)
  }
}
