/**
 * Google sign-in: the strategy's verify callback that reconciles a Google
 * profile with the user store, and the `/google/callback` handler that issues a
 * session for the reconciled user.
 */
module GoogleAuth {
  import opened Wrappers
  import opened Store
  import opened UsersModel
  import AuthController

  /** The parts of a passport Google profile the callback reads. */
  datatype Profile = Profile(id: string, emails: seq<string>, displayName: string, photos: seq<string>)

  /** `done(null, user)` carries the user's id; `done(error, null)` carries nothing. */
  datatype Done = Authenticated(id: string) | Failed

  /** The `findOne({ googleId })` filter. */
  function ByGoogleId(gid: string): User -> bool {
    (u: User) => u.googleId == Some(gid)
  }

  /** The `findOne({ email })` filter. */
  function ByEmail(email: string): User -> bool {
    (u: User) => u.email == Some(email)
  }

  /** An email-matched user linked to the profile: googleId set, picture replaced when there is one. */
  function Linked(u: User, p: Profile): (v: User)
    ensures v.googleId == Some(p.id)
    ensures v.imgUrl == (if |p.photos| > 0 then Some(p.photos[0]) else u.imgUrl)
    ensures v.(googleId := u.googleId, imgUrl := u.imgUrl) == u
  {
    var v := u.(googleId := Some(p.id));
    if |p.photos| > 0 then v.(imgUrl := Some(p.photos[0])) else v
  }

  /** The user created for an unknown profile; `suffix` stands for the five random base-36 characters. */
  function Created(p: Profile, suffix: string): (u: User)
    requires |p.emails| > 0
    ensures u.email == Some(p.emails[0]) && u.googleId == Some(p.id) && u.refreshToken == []
    ensures u.username == Some(p.displayName + "_" + suffix)
    ensures u.password.None? && u.imgUrl.None?
  {
    NewUser(Some(p.displayName + "_" + suffix), Some(p.emails[0]), None, None, Some(p.id), Some([]))
  }

  /** Linking a profile whose id no stored user carries never breaks a stored document's validity or the indexes. */
  lemma LinkPasses(docs: map<string, User>, id: string, p: Profile)
    requires Unique(docs) && id in docs && Validate(docs[id]).None? && p.id != ""
    requires forall j :: j in docs ==> docs[j].googleId != Some(p.id)
    ensures CheckWrite(docs, id, Linked(docs[id], p)).None?
  {
    var v := Linked(docs[id], p);
    forall j | j in docs && j != id ensures !Collide(v, docs[j]) {
      assert !Collide(docs[id], docs[j]);
    }
  }

  /**
   * The verify callback: a user already linked to the profile is returned as it
   * is; otherwise a user with the profile's first email is linked; otherwise a
   * new user is created. A missing email or a failed write ends in `done(error, null)`.
   */
  method VerifyCallback(users: Collection<User>, p: Profile, suffix: string, freshId: string) returns (r: Done)
    requires Inv(users) && freshId !in users.docs && p.id != ""
    modifies users
    ensures Inv(users)
    ensures r.Authenticated? ==> r.id in users.docs && users.docs[r.id].googleId == Some(p.id)
    ensures
      var byGid := FirstMatching(old(users.order), old(users.docs), ByGoogleId(p.id));
      if byGid.Some? then
        r == Authenticated(byGid.value) && users.docs == old(users.docs) && users.order == old(users.order)
      else if |p.emails| == 0 then
        r == Failed && users.docs == old(users.docs) && users.order == old(users.order)
      else
        var byEmail := FirstMatching(old(users.order), old(users.docs), ByEmail(p.emails[0]));
        if byEmail.Some? then
          r == Authenticated(byEmail.value) && users.order == old(users.order)
          && users.docs == old(users.docs)[byEmail.value := Linked(old(users.docs)[byEmail.value], p)]
        else if CheckWrite(old(users.docs), freshId, Created(p, suffix)).Some? then
          r == Failed && users.docs == old(users.docs) && users.order == old(users.order)
        else
          r == Authenticated(freshId) && users.order == old(users.order) + [freshId]
          && users.docs == old(users.docs)[freshId := Created(p, suffix)]
  {
    var byGid := users.FindFirst(ByGoogleId(p.id));
    if byGid.Some? {
      return Authenticated(byGid.value);
    }
    if |p.emails| == 0 {
      // `profile.emails[0].value` throws
      return Failed;
    }
    var byEmail := users.FindFirst(ByEmail(p.emails[0]));
    if byEmail.Some? {
      var id := byEmail.value;
      LinkPasses(users.docs, id, p);
      var err := Save(users, id, Linked(users.docs[id], p));
      return Authenticated(id);
    }
    var err := Create(users, freshId, Created(p, suffix));
    if err.Some? {
      return Failed;
    }
    r := Authenticated(freshId);
  }

  const LoginErrorUrl: string := "http://localhost:5173/login?error=true"
  const LoginSuccessPrefix: string := "http://localhost:5173/?login=success&token="

  /** The members of the auth controller's default export. */
  const AuthExports: set<string> := {"register", "login", "refresh", "logout"}

  /**
   * `/google/callback` with the controller's token issuance reachable: issue a
   * pair, `$push` the refresh token onto the user's list and redirect with the
   * access token. `$push` on an id with no document changes nothing.
   */
  method GoogleCallback(users: Collection<User>, cfg: AuthController.Config, id: string, nonce: nat, nowSec: nat)
    returns (url: string)
    requires Inv(users)
    modifies users
    ensures Inv(users)
    ensures users.order == old(users.order)
    ensures
      var tokens := AuthController.GenerateToken(cfg, id, nonce, nowSec);
      if !tokens.Signed? then url == LoginErrorUrl && users.docs == old(users.docs)
      else
        url == LoginSuccessPrefix + tokens.pair.accessToken
        && users.docs == (if id in old(users.docs)
                          then old(users.docs)[id := old(users.docs)[id].(
                                 refreshToken := old(users.docs)[id].refreshToken + [tokens.pair.refreshToken])]
                          else old(users.docs))
  {
    var tokens := AuthController.GenerateToken(cfg, id, nonce, nowSec);
    if !tokens.Signed? {
      // a `null` pair or a signing error: the handler throws and redirects to the error page
      return LoginErrorUrl;
    }
    if id in users.docs {
      var u := users.docs[id];
      var pushed := u.(refreshToken := u.refreshToken + [tokens.pair.refreshToken]);
      TokenWritePasses(users.docs, id, pushed.refreshToken);
      users.Replace(id, pushed);
    }
    url := LoginSuccessPrefix + tokens.pair.accessToken;
  }

  /**
   * `/google/callback` as it is wired: `generateToken` is read off the default
   * export, which does not contain it, so the call throws, the handler redirects
   * to the error page and no token is stored.
   */
  method GoogleCallbackAsWritten(users: Collection<User>, cfg: AuthController.Config, id: string, nonce: nat, nowSec: nat)
    returns (url: string)
    requires Inv(users)
    ensures url == LoginErrorUrl
  {
    var callable := "generateToken" in AuthExports;
    // calling `undefined` throws a TypeError, caught by the handler
    url := if callable then LoginSuccessPrefix else LoginErrorUrl;
  }

  /**
   * Every Google sign-in through the wired handler fails, while the intended
   * handler succeeds whenever the secret and both lifetimes are set.
   */
  lemma CallbackWiringLosesSessions(cfg: AuthController.Config, id: string, nonce: nat, nowSec: nat)
    requires AuthController.HasSecret(cfg) && AuthController.HasLifetimes(cfg)
    ensures "generateToken" !in AuthExports && "authMiddleware" !in AuthExports
    ensures AuthController.GenerateToken(cfg, id, nonce, nowSec).Signed?
    ensures LoginErrorUrl != LoginSuccessPrefix + AuthController.GenerateToken(cfg, id, nonce, nowSec).pair.accessToken
  {
    var t := AuthController.GenerateToken(cfg, id, nonce, nowSec).pair.accessToken;
    assert (LoginSuccessPrefix + t)[22] == '?';
    assert LoginErrorUrl[22] == 'l';
  }
}
