/**
 * The `User` schema and the `user` collection it is stored in.
 *
 * The collection is an in-memory table. A lookup compares a stored value with
 * the query value after the path's `trim` setter, which Mongoose also applies
 * when it casts a query filter. Saving a new document runs the schema's
 * `required` validators after trimming. An update by id applies the setters
 * but, as `findByIdAndUpdate` does by default, no validators.
 */
module UserModel {
  import opened Wrappers
  import opened JsString
  import Seqs

  type UserId = nat

  /** The `role` enum. */
  datatype Role = RegularUser | Admin

  function RoleName(r: Role): string
  {
    match r
    case RegularUser => "user"
    case Admin => "admin"
  }

  /** Validation of a raw `role` value: trimmed, then it must be one of the enum's two words. */
  function ParseRole(s: string): (r: Option<Role>)
    ensures r.Some? <==> Trim(s) == "user" || Trim(s) == "admin"
    ensures r.Some? ==> RoleName(r.value) == Trim(s)
  {
    var t := Trim(s);
    if t == "user" then Some(RegularUser) else if t == "admin" then Some(Admin) else None
  }

  /** Every role's own name passes validation and denotes that role. */
  lemma ParseRoleName(r: Role)
    ensures ParseRole(RoleName(r)) == Some(r)
  {
    TrimOfTrimmed(RoleName(r));
  }

  /** The `role` default. */
  const DefaultRole: Role := RegularUser

  datatype ProfilePicture = ProfilePicture(id: string, url: string)

  /** The `profilePicture` defaults: a placeholder asset id and its hosted URL. */
  const DefaultPicture: ProfilePicture := ProfilePicture(
    "imagenProyect/afpdiox30acmlfvcskww",
    "https://res.cloudinary.com/ddwriwzgm/image/upload/v1727374339/imagenProyect/afpdiox30acmlfvcskww.jpg")

  datatype User = User(
    id: UserId,
    usernames: string,
    passwords: string,
    emails: string,
    role: Role,
    publications: seq<string>,
    likedPublications: seq<string>,
    profilePicture: ProfilePicture)

  /** What the schema's setters leave in a stored document: the three trimmed string paths. */
  predicate StoredForm(u: User)
  {
    Trimmed(u.usernames) && Trimmed(u.passwords) && Trimmed(u.emails)
  }

  /**
   * `new user({ usernames, passwords, emails })` and the validation `save`
   * runs before writing: `None` when a required path is empty after trimming.
   */
  function NewUser(id: UserId, usernames: string, passwords: string, emails: string): (r: Option<User>)
    ensures r.Some? <==> Trim(usernames) != "" && Trim(passwords) != "" && Trim(emails) != ""
    ensures r.Some? ==> StoredForm(r.value) && r.value.id == id
  {
    TrimTrimmed(usernames);
    TrimTrimmed(passwords);
    TrimTrimmed(emails);
    var u := User(id, Trim(usernames), Trim(passwords), Trim(emails), DefaultRole, [], [], DefaultPicture);
    if u.usernames == "" || u.passwords == "" || u.emails == "" then None else Some(u)
  }

  /** A freshly created user holds the given values trimmed, and every default of the schema. */
  lemma NewUserDefaults(id: UserId, usernames: string, passwords: string, emails: string)
    requires NewUser(id, usernames, passwords, emails).Some?
    ensures var u := NewUser(id, usernames, passwords, emails).value;
      && u.usernames == Trim(usernames) && u.passwords == Trim(passwords) && u.emails == Trim(emails)
      && u.role == RegularUser && RoleName(u.role) == "user"
      && u.profilePicture == DefaultPicture
      && u.publications == [] && u.likedPublications == []
      && usernames != "" && passwords != "" && emails != ""
  {
  }

  // ---- queries ----

  function EmailIs(email: string): User -> bool
  {
    (u: User) => u.emails == Trim(email)
  }

  function UsernameIs(username: string): User -> bool
  {
    (u: User) => u.usernames == Trim(username)
  }

  /** `user.find({ emails: email })`: every user holding the (trimmed) email, in storage order. */
  function FindByEmail(users: seq<User>, email: string): (r: seq<User>)
    ensures forall i :: 0 <= i < |r| ==> r[i].emails == Trim(email)
    ensures forall u :: u in users && u.emails == Trim(email) ==> u in r
  {
    var r := Seqs.Filter(users, EmailIs(email));
    forall u | u in users && u.emails == Trim(email) ensures u in r {
      Seqs.FilterMember(users, EmailIs(email), u);
    }
    r
  }

  /** `user.find({ usernames: username })`. */
  function FindByUsername(users: seq<User>, username: string): (r: seq<User>)
    ensures forall i :: 0 <= i < |r| ==> r[i].usernames == Trim(username)
    ensures forall u :: u in users && u.usernames == Trim(username) ==> u in r
  {
    var r := Seqs.Filter(users, UsernameIs(username));
    forall u | u in users && u.usernames == Trim(username) ensures u in r {
      Seqs.FilterMember(users, UsernameIs(username), u);
    }
    r
  }

  ghost predicate EmailTaken(users: seq<User>, email: string)
  {
    exists i :: 0 <= i < |users| && users[i].emails == Trim(email)
  }

  ghost predicate UsernameTaken(users: seq<User>, username: string)
  {
    exists i :: 0 <= i < |users| && users[i].usernames == Trim(username)
  }

  /** The result of a `find` is empty exactly when nobody holds the value. */
  lemma FindByEmailEmpty(users: seq<User>, email: string)
    ensures FindByEmail(users, email) == [] <==> !EmailTaken(users, email)
  {
    if EmailTaken(users, email) {
      var i :| 0 <= i < |users| && users[i].emails == Trim(email);
      assert users[i] in users;
    } else {
      var r := FindByEmail(users, email);
      if r != [] {
        Seqs.FilterMember(users, EmailIs(email), r[0]);
      }
    }
  }

  lemma FindByUsernameEmpty(users: seq<User>, username: string)
    ensures FindByUsername(users, username) == [] <==> !UsernameTaken(users, username)
  {
    if UsernameTaken(users, username) {
      var i :| 0 <= i < |users| && users[i].usernames == Trim(username);
      assert users[i] in users;
    } else {
      var r := FindByUsername(users, username);
      if r != [] {
        Seqs.FilterMember(users, UsernameIs(username), r[0]);
      }
    }
  }

  /** `user.findOne({ emails: email })`: the first user in storage order holding the email. */
  function FindOneByEmail(users: seq<User>, email: string): (r: Option<User>)
    ensures r.None? <==> !EmailTaken(users, email)
    ensures r.Some? ==> r.value in users && r.value.emails == Trim(email)
  {
    if users == [] then None
    else if users[0].emails == Trim(email) then Some(users[0])
    else
      var r := FindOneByEmail(users[1..], email);
      assert EmailTaken(users[1..], email) ==> EmailTaken(users, email);
      assert EmailTaken(users, email) && users[0].emails != Trim(email) ==> EmailTaken(users[1..], email) by {
        if EmailTaken(users, email) && users[0].emails != Trim(email) {
          var i :| 0 <= i < |users| && users[i].emails == Trim(email);
          assert users[1..][i - 1] == users[i];
        }
      }
      r
  }

  /** `user.findById(id)`: ids are unique, so the first match is the match. */
  function FindById(users: seq<User>, id: UserId): (r: Option<User>)
    ensures r.None? <==> forall i :: 0 <= i < |users| ==> users[i].id != id
    ensures r.Some? ==> r.value in users && r.value.id == id
  {
    Seqs.Find(users, (u: User) => u.id == id)
  }

  /** The position of the user with a given id, for the update that replaces it. */
  function IndexOfId(users: seq<User>, id: UserId): (k: Option<nat>)
    ensures k.None? <==> forall i :: 0 <= i < |users| ==> users[i].id != id
    ensures k.Some? ==> k.value < |users| && users[k.value].id == id
    ensures k.Some? ==> forall i :: 0 <= i < k.value ==> users[i].id != id
  {
    if users == [] then None
    else if users[0].id == id then Some(0)
    else
      var k := IndexOfId(users[1..], id);
      assert forall i :: 1 <= i < |users| ==> users[i] == users[1..][i - 1];
      if k.None? then None else Some(k.value + 1)
  }

  // ---- updates ----

  /** The `$set` document `profileUpdater` builds: only the keys it assigned are present. */
  datatype Patch = Patch(emails: Option<string>, usernames: Option<string>, profilePicture: Option<ProfilePicture>)

  /** `$set` of a patch, through the `trim` setters of the two string paths. */
  function ApplyPatch(u: User, p: Patch): (r: User)
    ensures r.id == u.id && r.passwords == u.passwords && r.role == u.role
    ensures r.publications == u.publications && r.likedPublications == u.likedPublications
    ensures r.emails == (if p.emails.Some? then Trim(p.emails.value) else u.emails)
    ensures r.usernames == (if p.usernames.Some? then Trim(p.usernames.value) else u.usernames)
    ensures r.profilePicture == (if p.profilePicture.Some? then p.profilePicture.value else u.profilePicture)
  {
    u.(emails := if p.emails.Some? then Trim(p.emails.value) else u.emails,
       usernames := if p.usernames.Some? then Trim(p.usernames.value) else u.usernames,
       profilePicture := if p.profilePicture.Some? then p.profilePicture.value else u.profilePicture)
  }

  /** An empty patch changes nothing. */
  lemma ApplyEmptyPatch(u: User)
    ensures ApplyPatch(u, Patch(None, None, None)) == u
  {
  }

  /** Ids below `next` and pairwise distinct, every document in stored form. */
  ghost predicate ConsistentUsers(users: seq<User>, next: UserId)
  {
    && (forall i :: 0 <= i < |users| ==> users[i].id < next && StoredForm(users[i]))
    && (forall i, j :: 0 <= i < j < |users| ==> users[i].id != users[j].id)
  }

  /** No two users share an email or a username. */
  ghost predicate UniqueUsers(users: seq<User>)
  {
    forall i, j :: 0 <= i < j < |users| ==>
      users[i].emails != users[j].emails && users[i].usernames != users[j].usernames
  }

  lemma AppendConsistent(users: seq<User>, next: UserId, u: User)
    requires ConsistentUsers(users, next) && u.id == next && StoredForm(u)
    ensures ConsistentUsers(users + [u], next + 1)
  {
  }

  /** Appending a user whose email and username nobody holds keeps the table unique. */
  lemma AppendUnique(users: seq<User>, u: User)
    requires UniqueUsers(users)
    requires forall i :: 0 <= i < |users| ==> users[i].emails != u.emails && users[i].usernames != u.usernames
    ensures UniqueUsers(users + [u])
  {
  }

  lemma ReplaceConsistent(users: seq<User>, next: UserId, k: nat, u: User)
    requires ConsistentUsers(users, next) && k < |users| && u.id == users[k].id && StoredForm(u)
    ensures ConsistentUsers(users[k := u], next)
  {
  }

  /** The `user` collection. */
  class UserTable {
    var users: seq<User>
    /** The next document id to hand out. */
    var nextId: UserId

    /** What every operation on the table keeps. */
    ghost predicate Consistent()
      reads this
    {
      ConsistentUsers(users, nextId)
    }

    /**
     * The schema declares no unique index: uniqueness holds only because the
     * handlers check before writing.
     */
    ghost predicate Unique()
      reads this
    {
      UniqueUsers(users)
    }

    ghost predicate Valid()
      reads this
    {
      Consistent() && Unique()
    }

    constructor ()
      ensures Valid() && users == []
    {
      users := [];
      nextId := 0;
    }

    /** `new user({...}).save()`: stores the new document when validation passes. */
    method Create(usernames: string, passwords: string, emails: string) returns (saved: Option<User>)
      requires Consistent()
      modifies this
      ensures Consistent()
      ensures saved == NewUser(old(nextId), usernames, passwords, emails)
      ensures users == if saved.Some? then old(users) + [saved.value] else old(users)
      ensures old(Unique()) && !EmailTaken(old(users), emails) && !UsernameTaken(old(users), usernames) ==> Unique()
    {
      saved := NewUser(nextId, usernames, passwords, emails);
      if saved.Some? {
        var u := saved.value;
        NewUserDefaults(nextId, usernames, passwords, emails);
        if UniqueUsers(users) && !EmailTaken(users, emails) && !UsernameTaken(users, usernames) {
          AppendUnique(users, u);
        }
        AppendConsistent(users, nextId, u);
        users := users + [u];
        nextId := nextId + 1;
      }
    }

    /** `user.findByIdAndUpdate(id, { $set: patch }, { new: true })`. */
    method UpdateById(id: UserId, patch: Patch) returns (updated: Option<User>)
      requires Consistent()
      modifies this
      ensures Consistent() && nextId == old(nextId)
      ensures IndexOfId(old(users), id).None? ==> updated.None? && users == old(users)
      ensures IndexOfId(old(users), id).Some? ==>
        var k := IndexOfId(old(users), id).value;
        updated == Some(ApplyPatch(old(users)[k], patch)) && users == old(users)[k := updated.value]
    {
      var k := IndexOfId(users, id);
      if k.None? {
        updated := None;
      } else {
        var u := ApplyPatch(users[k.value], patch);
        TrimTrimmed(if patch.emails.Some? then patch.emails.value else "");
        TrimTrimmed(if patch.usernames.Some? then patch.usernames.value else "");
        ReplaceConsistent(users, nextId, k.value, u);
        users := users[k.value := u];
        updated := Some(u);
      }
    }
  }
}
