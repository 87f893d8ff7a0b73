/**
 * The `User` schema: the view of the `users` collection that the profile
 * endpoints write. Every path but the picture is required, and its unique
 * indexes on email and username are those of the collection (see `UsersModel`).
 * A create validates the whole document; an update with `runValidators`
 * validates only the paths it sets.
 */
module UserModel {
  import opened Wrappers
  import opened Store
  import UsersModel

  /** Mongoose's `required` on a String: set and not the empty string. */
  predicate Present(o: Option<string>) {
    o.Some? && o.value != ""
  }

  /**
   * A new document as the `User` schema builds it: an unset token list defaults
   * to empty, and the paths only `Users` declares stay unset.
   */
  function NewPerson(email: Option<string>, username: Option<string>, fullName: Option<string>,
                     password: Option<string>, imgUrl: Option<string>, refreshToken: Option<seq<string>>)
    : (p: UsersModel.User)
    ensures p.refreshToken == (if refreshToken.Some? then refreshToken.value else [])
    ensures p.email == email && p.username == username && p.fullName == fullName
    ensures p.password == password && p.imgUrl == imgUrl
    ensures p.googleId.None? && p.twoFactorSecret.None? && !p.twoFactorEnabled
  {
    UsersModel.User(username, email, password, imgUrl, None,
                    if refreshToken.Some? then refreshToken.value else [], None, false, fullName)
  }

  /** The schema validators: email, username, fullName and password are all required. */
  function Validate(p: UsersModel.User): (r: Option<DbError>)
    ensures r.None? <==> Present(p.email) && Present(p.username) && Present(p.fullName) && Present(p.password)
  {
    if !Present(p.email) then Some(ValidationError("email"))
    else if !Present(p.username) then Some(ValidationError("username"))
    else if !Present(p.fullName) then Some(ValidationError("fullName"))
    else if !Present(p.password) then Some(ValidationError("password"))
    else None
  }

  /** A document the `User` validators accept also passes the `Users` validators. */
  lemma ValidIsUsersValid(p: UsersModel.User)
    requires Validate(p).None?
    ensures UsersModel.Validate(p).None?
  {
  }

  /** A create through `User`: its validators, then the collection's unique indexes. */
  function CheckWrite(docs: map<string, UsersModel.User>, id: string, p: UsersModel.User): (r: Option<DbError>)
    ensures r.None? <==> Validate(p).None? && forall j :: j in docs && j != id ==> !UsersModel.Collide(p, docs[j])
  {
    if Validate(p).Some? then Validate(p) else UsersModel.IndexCheck(docs, id, p)
  }

  /**
   * The update validators of `runValidators`: a required path the update sets
   * must be set to a non-empty string; paths it leaves alone are not checked.
   */
  function ValidatePaths(email: Option<string>, username: Option<string>, fullName: Option<string>,
                         password: Option<string>): (r: Option<DbError>)
    ensures r.None? <==> (email.Some? ==> Present(email)) && (username.Some? ==> Present(username))
                         && (fullName.Some? ==> Present(fullName)) && (password.Some? ==> Present(password))
  {
    if email.Some? && !Present(email) then Some(ValidationError("email"))
    else if username.Some? && !Present(username) then Some(ValidationError("username"))
    else if fullName.Some? && !Present(fullName) then Some(ValidationError("fullName"))
    else if password.Some? && !Present(password) then Some(ValidationError("password"))
    else None
  }

  /** `Model.create(doc)` into the `users` collection. */
  method Create(people: Collection<UsersModel.User>, id: string, p: UsersModel.User) returns (err: Option<DbError>)
    requires UsersModel.Inv(people) && id !in people.docs
    modifies people
    ensures UsersModel.Inv(people)
    ensures err == CheckWrite(old(people.docs), id, p)
    ensures err.None? ==> people.docs == old(people.docs)[id := p] && people.order == old(people.order) + [id]
    ensures err.Some? ==> people.docs == old(people.docs) && people.order == old(people.order)
  {
    err := CheckWrite(people.docs, id, p);
    if err.None? {
      UsersModel.CheckedWriteKeepsUnique(people.docs, id, p);
      people.Insert(id, p);
    }
  }

  /**
   * The write of `findByIdAndUpdate` once the update's paths have passed their
   * validators: only the collection's unique indexes can still refuse it.
   */
  method Update(people: Collection<UsersModel.User>, id: string, p: UsersModel.User) returns (err: Option<DbError>)
    requires UsersModel.Inv(people) && id in people.docs && UsersModel.Validate(p).None?
    modifies people
    ensures UsersModel.Inv(people)
    ensures err == UsersModel.IndexCheck(old(people.docs), id, p)
    ensures err.None? ==> people.docs == old(people.docs)[id := p] && people.order == old(people.order)
    ensures err.Some? ==> people.docs == old(people.docs) && people.order == old(people.order)
  {
    err := UsersModel.IndexCheck(people.docs, id, p);
    if err.None? {
      UsersModel.CheckedWriteKeepsUnique(people.docs, id, p);
      people.Replace(id, p);
    }
  }
}
