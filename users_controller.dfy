/**
 * The profile controller: creating a `User` with a hashed password, and the
 * profile update with its guard on inline (data-URL) pictures. Both write the
 * `users` collection that the session code also uses.
 */
module UsersController {
  import opened Wrappers
  import opened Text
  import opened Store
  import opened UsersModel
  import UserModel
  import Bcrypt

  datatype Body = Message(text: string) | Failure | Record(id: string, person: User)

  datatype Response = Response(status: int, body: Body)

  /** 5 MiB. */
  const MaxImageBytes: nat := 5 * 1024 * 1024

  /** The prefixes `/^data:image\/(jpeg|png|gif|webp);base64,/` accepts. */
  const ImagePrefixes: seq<string> :=
    ["data:image/jpeg;base64,", "data:image/png;base64,", "data:image/gif;base64,", "data:image/webp;base64,"]

  predicate AcceptedFormat(url: string) {
    exists k :: 0 <= k < |ImagePrefixes| && StartsWith(url, ImagePrefixes[k])
  }

  datatype ImageVerdict = NotChecked | Accepted | BadFormat | TooLarge

  /** The length of the text between the first and the second comma: `url.split(',')[1]`. */
  function PayloadLength(url: string): nat {
    var parts := Split(url, ',');
    if |parts| > 1 then |parts[1]| else 0
  }

  /**
   * The picture guard: only a truthy `imgUrl` starting with `data:image/` is
   * checked; its format must be one of four, and its estimated decoded size
   * `len * 3 / 4` must not exceed 5 MiB (compared exactly, without rounding).
   */
  function ImageCheck(imgUrl: Option<string>): (v: ImageVerdict)
    ensures v == NotChecked <==> !Truthy(imgUrl) || !StartsWith(imgUrl.value, "data:image/")
    ensures v == BadFormat <==> Truthy(imgUrl) && StartsWith(imgUrl.value, "data:image/") && !AcceptedFormat(imgUrl.value)
    ensures v == TooLarge ==> AcceptedFormat(imgUrl.value) && PayloadLength(imgUrl.value) * 3 > 4 * MaxImageBytes
    ensures v == Accepted ==> AcceptedFormat(imgUrl.value) && PayloadLength(imgUrl.value) * 3 <= 4 * MaxImageBytes
  {
    if !Truthy(imgUrl) || !StartsWith(imgUrl.value, "data:image/") then NotChecked
    else if !AcceptedFormat(imgUrl.value) then BadFormat
    else if PayloadLength(imgUrl.value) * 3 > 4 * MaxImageBytes then TooLarge
    else Accepted
  }

  /** A well-formed picture of `payload` (no comma in it) is measured on exactly the payload. */
  lemma PayloadIsAfterPrefix(k: nat, payload: string)
    requires k < |ImagePrefixes| && ',' !in payload
    ensures PayloadLength(ImagePrefixes[k] + payload) == |payload|
  {
    var p := ImagePrefixes[k];
    var head := p[..|p| - 1];
    assert ',' !in head;
    assert p + payload == head + [','] + payload;
    SplitAtSep(head, payload, ',');
    SplitNoSep(payload, ',');
  }

  /** The boundary of the size rule: 6990506 base64 characters pass, 6990507 do not. */
  lemma SizeBoundary(k: nat, payload: string)
    requires k < |ImagePrefixes| && ',' !in payload
    ensures |payload| <= 6990506 ==> ImageCheck(Some(ImagePrefixes[k] + payload)) == Accepted
    ensures |payload| >= 6990507 ==> ImageCheck(Some(ImagePrefixes[k] + payload)) == TooLarge
  {
    var url := ImagePrefixes[k] + payload;
    PayloadIsAfterPrefix(k, payload);
    assert StartsWith(url, ImagePrefixes[k]);
    assert url[..11] == ImagePrefixes[k][..11];
    assert AcceptedFormat(url);
  }

  /**
   * The `User` paths a request body sets; strict mode drops any other key. In an
   * update an absent path is left as it is.
   */
  datatype PersonPatch = PersonPatch(
    email: Option<string>, username: Option<string>, fullName: Option<string>,
    password: Option<string>, imgUrl: Option<string>, refreshToken: Option<seq<string>>)

  /** The `$set` of an update body: the paths it sets take its values, every other path is kept. */
  function ApplyPatch(p: User, b: PersonPatch): (r: User)
    ensures r.email == (if b.email.Some? then b.email else p.email)
    ensures r.username == (if b.username.Some? then b.username else p.username)
    ensures r.fullName == (if b.fullName.Some? then b.fullName else p.fullName)
    ensures r.password == (if b.password.Some? then b.password else p.password)
    ensures r.imgUrl == (if b.imgUrl.Some? then b.imgUrl else p.imgUrl)
    ensures r.refreshToken == b.refreshToken.GetOr(p.refreshToken)
    ensures r.googleId == p.googleId && r.twoFactorSecret == p.twoFactorSecret
            && r.twoFactorEnabled == p.twoFactorEnabled
  {
    p.(email := if b.email.Some? then b.email else p.email,
       username := if b.username.Some? then b.username else p.username,
       fullName := if b.fullName.Some? then b.fullName else p.fullName,
       password := if b.password.Some? then b.password else p.password,
       imgUrl := if b.imgUrl.Some? then b.imgUrl else p.imgUrl,
       refreshToken := b.refreshToken.GetOr(p.refreshToken))
  }

  /** The update validators run on the paths the body sets. */
  function PathsCheck(b: PersonPatch): Option<DbError> {
    UserModel.ValidatePaths(b.email, b.username, b.fullName, b.password)
  }

  const BadImage: string := "Invalid image format. Only JPEG, PNG, GIF, and WebP are supported."
  const LargeImage: string := "Image too large. Maximum size is 5MB."

  /**
   * `updateItem`: the picture guard first (400 or 413, nothing stored). Then
   * `findByIdAndUpdate` with `runValidators`: the validators of the paths the body
   * sets run before the lookup (400), then 404 when there is no such user, 400
   * when a unique index refuses the write, otherwise 200 with the updated record.
   * A user the session code registered is found and updated like any other.
   */
  method UpdateItem(people: Collection<User>, id: string, body: PersonPatch) returns (resp: Response)
    requires Inv(people)
    modifies people
    ensures Inv(people) && people.order == old(people.order)
    ensures resp.status != 200 ==> people.docs == old(people.docs)
    ensures ImageCheck(body.imgUrl) == BadFormat ==> resp == Response(400, Message(BadImage))
    ensures ImageCheck(body.imgUrl) == TooLarge ==> resp == Response(413, Message(LargeImage))
    ensures ImageCheck(body.imgUrl) in {NotChecked, Accepted} ==>
      if PathsCheck(body).Some? then resp == Response(400, Failure)
      else if id !in old(people.docs) then resp == Response(404, Message("User not found"))
      else
        var updated := ApplyPatch(old(people.docs)[id], body);
        if IndexCheck(old(people.docs), id, updated).Some? then resp == Response(400, Failure)
        else resp == Response(200, Record(id, updated)) && people.docs == old(people.docs)[id := updated]
  {
    var verdict := ImageCheck(body.imgUrl);
    if verdict == BadFormat {
      return Response(400, Message(BadImage));
    }
    if verdict == TooLarge {
      return Response(413, Message(LargeImage));
    }
    if PathsCheck(body).Some? {
      return Response(400, Failure);
    }
    if id !in people.docs {
      return Response(404, Message("User not found"));
    }
    var updated := ApplyPatch(people.docs[id], body);
    var err := UserModel.Update(people, id, updated);
    if err.Some? {
      return Response(400, Failure);
    }
    resp := Response(200, Record(id, updated));
  }

  /** The document `create` asks the store to write: the body's paths with the password hashed. */
  function CreatedPerson(body: PersonPatch, salt: nat): (u: User)
    requires body.password.Some?
    ensures u.password == Some(Bcrypt.Hash(body.password.value, salt))
    ensures u.email == body.email && u.username == body.username && u.fullName == body.fullName
    ensures u.imgUrl == body.imgUrl && u.googleId.None?
  {
    UserModel.NewPerson(body.email, body.username, body.fullName,
                        Some(Bcrypt.Hash(body.password.value, salt)), body.imgUrl, body.refreshToken)
  }

  /**
   * `create`: the stored password is the hash of the body's password; a missing
   * password makes hashing throw. The `User` validators and the indexes of the
   * whole `users` collection decide the write.
   */
  method Create(people: Collection<User>, body: PersonPatch, salt: nat, freshId: string) returns (resp: Response)
    requires Inv(people) && freshId !in people.docs
    modifies people
    ensures Inv(people)
    ensures body.password.None? ==>
      resp == Response(400, Failure) && people.docs == old(people.docs) && people.order == old(people.order)
    ensures body.password.Some? ==>
      var stored := CreatedPerson(body, salt);
      if UserModel.CheckWrite(old(people.docs), freshId, stored).Some? then
        resp == Response(400, Failure) && people.docs == old(people.docs) && people.order == old(people.order)
      else
        resp == Response(201, Record(freshId, stored))
        && people.docs == old(people.docs)[freshId := stored] && people.order == old(people.order) + [freshId]
  {
    if body.password.None? {
      return Response(400, Failure);
    }
    var stored := CreatedPerson(body, salt);
    var err := UserModel.Create(people, freshId, stored);
    if err.Some? {
      return Response(400, Failure);
    }
    resp := Response(201, Record(freshId, stored));
  }

  /**
   * The stored hash of a created user matches exactly the passwords that share the
   * body password's first 72 bytes; for passwords of at most 72 bytes, only the
   * body's password.
   */
  lemma CreatedPasswordMatches(body: PersonPatch, salt: nat, attempt: string)
    requires body.password.Some?
    ensures Bcrypt.Compare(attempt, CreatedPerson(body, salt).password.value)
        <==> Bcrypt.Key(attempt) == Bcrypt.Key(body.password.value)
    ensures Bcrypt.Fits(attempt) && Bcrypt.Fits(body.password.value) ==>
      (Bcrypt.Compare(attempt, CreatedPerson(body, salt).password.value) <==> attempt == body.password.value)
  {
    Bcrypt.CompareHash(attempt, body.password.value, salt);
    if Bcrypt.Fits(attempt) && Bcrypt.Fits(body.password.value) {
      Bcrypt.CompareHashExact(attempt, body.password.value, salt);
    }
  }
}
