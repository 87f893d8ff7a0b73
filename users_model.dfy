/**
 * The `Users` schema used by the session code, and the `users` collection it
 * shares with the `User` schema of the profile code. Mongoose turns both model
 * names into the collection name `users`, so both schemas read and write the
 * same documents and the same unique indexes on `email` and `username`;
 * `Users` adds the sparse unique index on `googleId`.
 */
module UsersModel {
  import opened Wrappers
  import opened Store
  import opened Text

  /**
   * A document of the `users` collection. `fullName` is a path of the `User`
   * schema only, `googleId` and the two-factor fields of the `Users` schema only;
   * each schema leaves the other's paths unset when it creates a document.
   */
  datatype User = User(
    username: Option<string>,
    email: Option<string>,
    password: Option<string>,
    imgUrl: Option<string>,
    googleId: Option<string>,
    refreshToken: seq<string>,
    twoFactorSecret: Option<string>,
    twoFactorEnabled: bool,
    fullName: Option<string>)

  /** Mongoose's `required` on a String: set and not the empty string. */
  predicate Present(o: Option<string>) {
    o.Some? && o.value != ""
  }

  /**
   * A new document as the `Users` schema builds it: unset fields take their
   * defaults, and a `fullName` in the input is dropped, not being one of its paths.
   */
  function NewUser(username: Option<string>, email: Option<string>, password: Option<string>,
                   imgUrl: Option<string>, googleId: Option<string>, refreshToken: Option<seq<string>>): (u: User)
    ensures u.refreshToken == (if refreshToken.Some? then refreshToken.value else [])
    ensures u.twoFactorSecret.None? && !u.twoFactorEnabled && u.fullName.None?
    ensures u.username == username && u.email == email && u.password == password
    ensures u.imgUrl == imgUrl && u.googleId == googleId
  {
    User(username, email, password, imgUrl, googleId,
         if refreshToken.Some? then refreshToken.value else [], None, false, None)
  }

  /** The schema validators: username and email required, password required unless linked to Google. */
  function Validate(u: User): (r: Option<DbError>)
    ensures r.None? <==> Present(u.username) && Present(u.email) && (Truthy(u.googleId) || Present(u.password))
  {
    if !Present(u.username) then Some(ValidationError("username"))
    else if !Present(u.email) then Some(ValidationError("email"))
    else if !Truthy(u.googleId) && !Present(u.password) then Some(ValidationError("password"))
    else None
  }

  /**
   * Two different documents that would collide in one of the unique indexes. The
   * `username` and `email` indexes are not sparse (an unset value is indexed as
   * null, so two unset values collide); the `googleId` index is.
   */
  predicate Collide(a: User, b: User) {
    a.username == b.username
    || a.email == b.email
    || (a.googleId.Some? && a.googleId == b.googleId)
  }

  /** The unique indexes of the `users` collection hold. */
  ghost predicate Unique(docs: map<string, User>) {
    forall i, j :: i in docs && j in docs && i != j ==> !Collide(docs[i], docs[j])
  }

  /**
   * What the `users` collection always satisfies: unique indexes, and every
   * document passes the `Users` validators (a document the `User` schema wrote
   * passed stricter ones).
   */
  ghost predicate Inv(c: Collection<User>)
    reads c
  {
    c.Valid() && Unique(c.docs) && forall id :: id in c.docs ==> Validate(c.docs[id]).None?
  }

  /** The duplicate-key check a write of `u` under `id` runs against every other document of `users`. */
  function IndexCheck(docs: map<string, User>, id: string, u: User): (r: Option<DbError>)
    ensures r.None? <==> forall j :: j in docs && j != id ==> !Collide(u, docs[j])
  {
    if exists j :: j in docs && j != id && docs[j].username == u.username then Some(DuplicateKey("username"))
    else if exists j :: j in docs && j != id && docs[j].email == u.email then Some(DuplicateKey("email"))
    else if exists j :: j in docs && j != id && u.googleId.Some? && docs[j].googleId == u.googleId then Some(DuplicateKey("googleId"))
    else None
  }

  /** A write through `Users`: its validators first, then the indexes; the error reported, if any. */
  function CheckWrite(docs: map<string, User>, id: string, u: User): (r: Option<DbError>)
    ensures r.None? <==> Validate(u).None? && IndexCheck(docs, id, u).None?
  {
    if Validate(u).Some? then Validate(u) else IndexCheck(docs, id, u)
  }

  /** A write that passed its checks keeps every index unique. */
  lemma {:induction false} CheckedWriteKeepsUnique(docs: map<string, User>, id: string, u: User)
    requires Unique(docs) && IndexCheck(docs, id, u).None?
    ensures Unique(docs[id := u])
  {
    var d := docs[id := u];
    forall i, j | i in d && j in d && i != j ensures !Collide(d[i], d[j]) {
      if i == id {
        assert !Collide(u, docs[j]);
      } else if j == id {
        assert !Collide(u, docs[i]);
      } else {
        assert !Collide(docs[i], docs[j]);
      }
    }
  }

  /** Changing only the refresh-token list of a stored document cannot fail either check. */
  lemma TokenWritePasses(docs: map<string, User>, id: string, tokens: seq<string>)
    requires Unique(docs) && id in docs && Validate(docs[id]).None?
    ensures CheckWrite(docs, id, docs[id].(refreshToken := tokens)).None?
  {
    var u := docs[id].(refreshToken := tokens);
    forall j | j in docs && j != id ensures !Collide(u, docs[j]) {
      assert !Collide(docs[id], docs[j]);
    }
  }

  /** `Model.create(doc)`: validate, check the indexes, insert. */
  method Create(users: Collection<User>, id: string, u: User) returns (err: Option<DbError>)
    requires Inv(users) && id !in users.docs
    modifies users
    ensures Inv(users)
    ensures err == CheckWrite(old(users.docs), id, u)
    ensures err.None? ==> users.docs == old(users.docs)[id := u] && users.order == old(users.order) + [id]
    ensures err.Some? ==> users.docs == old(users.docs) && users.order == old(users.order)
  {
    err := CheckWrite(users.docs, id, u);
    if err.None? {
      CheckedWriteKeepsUnique(users.docs, id, u);
      users.Insert(id, u);
    }
  }

  /** `doc.save()` of a modified document that is already stored. */
  method Save(users: Collection<User>, id: string, u: User) returns (err: Option<DbError>)
    requires Inv(users) && id in users.docs
    modifies users
    ensures Inv(users)
    ensures err == CheckWrite(old(users.docs), id, u)
    ensures err.None? ==> users.docs == old(users.docs)[id := u] && users.order == old(users.order)
    ensures err.Some? ==> users.docs == old(users.docs) && users.order == old(users.order)
  {
    err := CheckWrite(users.docs, id, u);
    if err.None? {
      CheckedWriteKeepsUnique(users.docs, id, u);
      users.Replace(id, u);
    }
  }
}
