/**
 * The session controller: registration, password login, refresh-token
 * rotation, logout and the bearer-token guard. A user document keeps the list
 * of refresh tokens it has been issued and not yet spent; a refresh token is
 * accepted only while it is in that list, and spending it removes it.
 */
module AuthController {
  import opened Wrappers
  import opened Text
  import opened Store
  import opened UsersModel
  import Jwt
  import Bcrypt

  /**
   * `TOKEN_SECRET` (empty when unset), and the lifetimes in seconds that
   * jsonwebtoken reads from `TOKEN_EXPIRES` and `REFRESH_TOKEN_EXPIRES`.
   * `None` stands for any value from which jsonwebtoken derives no lifetime:
   * unset, empty, or a string `ms` cannot parse.
   */
  datatype Config = Config(secret: string, accessTtl: Option<nat>, refreshTtl: Option<nat>)

  predicate HasSecret(cfg: Config) {
    cfg.secret != ""
  }

  /** Both lifetimes are set; `jwt.sign` throws on an `expiresIn` that is `undefined`. */
  predicate HasLifetimes(cfg: Config) {
    cfg.accessTtl.Some? && cfg.refreshTtl.Some?
  }

  datatype TokenPair = TokenPair(accessToken: string, refreshToken: string)

  /** What a call of `generateToken` ends in: `null`, a thrown signing error, or a pair. */
  datatype Tokens = NoSecret | SignError | Signed(pair: TokenPair)

  /** What a handler sends back. `Failure` is a caught exception object sent as the body. */
  datatype Body =
    | Text(message: string)
    | Failure
    | Registered(id: string, user: User, accessToken: string)
    | Session(accessToken: string, refreshToken: string, user: User)
    | Rotated(accessToken: string, refreshToken: string, id: string)

  datatype Reply = Reply(status: int, body: Body)

  /**
   * `generateToken(userId)`: `null` without a secret; a throw when a lifetime is
   * unset; otherwise an access and a refresh token over the same
   * `{ _id, random }` payload, differing only in lifetime.
   */
  function GenerateToken(cfg: Config, userId: string, nonce: nat, nowSec: nat): (r: Tokens)
    ensures r.NoSecret? <==> !HasSecret(cfg)
    ensures r.SignError? <==> HasSecret(cfg) && !HasLifetimes(cfg)
    ensures r.Signed? <==> HasSecret(cfg) && HasLifetimes(cfg)
  {
    if !HasSecret(cfg) then NoSecret
    else if !HasLifetimes(cfg) then SignError
    else Signed(TokenPair(Jwt.Issue(userId, nonce, nowSec, cfg.accessTtl, cfg.secret),
                          Jwt.Issue(userId, nonce, nowSec, cfg.refreshTtl, cfg.secret)))
  }

  /** Both tokens carry the user's id and the same nonce; they coincide exactly when the lifetimes do. */
  lemma GenerateTokenClaims(cfg: Config, userId: string, nonce: nat, nowSec: nat)
    requires HasSecret(cfg) && HasLifetimes(cfg) && '.' !in userId
    ensures Jwt.Decode(GenerateToken(cfg, userId, nonce, nowSec).pair.accessToken)
         == Some(Jwt.Claims(userId, nonce, nowSec, Some(nowSec + cfg.accessTtl.value)))
    ensures Jwt.Decode(GenerateToken(cfg, userId, nonce, nowSec).pair.refreshToken)
         == Some(Jwt.Claims(userId, nonce, nowSec, Some(nowSec + cfg.refreshTtl.value)))
    ensures GenerateToken(cfg, userId, nonce, nowSec).pair.accessToken
         == GenerateToken(cfg, userId, nonce, nowSec).pair.refreshToken
        <==> cfg.accessTtl == cfg.refreshTtl
  {
    var a := Jwt.Claims(userId, nonce, nowSec, Some(nowSec + cfg.accessTtl.value));
    var r := Jwt.Claims(userId, nonce, nowSec, Some(nowSec + cfg.refreshTtl.value));
    Jwt.DecodeSign(a, cfg.secret);
    Jwt.DecodeSign(r, cfg.secret);
    if Jwt.Sign(a, cfg.secret) == Jwt.Sign(r, cfg.secret) {
      Jwt.SignInjective(a, r, cfg.secret);
    }
  }

  // ---------------------------------------------------------------------------
  // register

  /** The document `register` asks the store to create. */
  function RegisteredUser(password: string, email: Option<string>, username: Option<string>,
                          imgUrl: Option<string>, salt: nat): (u: User)
    ensures u.password == Some(Bcrypt.Hash(password, salt))
    ensures u.imgUrl == (if Truthy(imgUrl) then imgUrl else None)
    ensures u.refreshToken == [] && u.googleId.None?
    ensures u.email == email && u.username == username
    ensures u.fullName.None?
  {
    NewUser(username, email, Some(Bcrypt.Hash(password, salt)),
            if Truthy(imgUrl) then imgUrl else None, None, Some([]))
  }

  /**
   * The stored password of a registered user matches exactly the attempts that
   * share the registration password's bcrypt key (its first 72 bytes); among
   * passwords of at most 72 bytes, only the registration password itself.
   */
  lemma RegisteredPasswordMatches(attempt: string, password: string, email: Option<string>,
                                  username: Option<string>, imgUrl: Option<string>, salt: nat)
    ensures Bcrypt.Compare(attempt, RegisteredUser(password, email, username, imgUrl, salt).password.value)
        <==> Bcrypt.Key(attempt) == Bcrypt.Key(password)
    ensures Bcrypt.Fits(attempt) && Bcrypt.Fits(password) ==>
      (Bcrypt.Compare(attempt, RegisteredUser(password, email, username, imgUrl, salt).password.value)
       <==> attempt == password)
  {
    Bcrypt.CompareHash(attempt, password, salt);
    if Bcrypt.Fits(attempt) && Bcrypt.Fits(password) {
      Bcrypt.CompareHashExact(attempt, password, salt);
    }
  }

  /**
   * `register`: hash the password, create the user, then store its first refresh
   * token. Without a secret, or when signing throws, the user is still created,
   * with no token.
   */
  method Register(users: Collection<User>, cfg: Config, password: Option<string>, email: Option<string>,
                  username: Option<string>, imgUrl: Option<string>,
                  salt: nat, freshId: string, nonce: nat, nowSec: nat) returns (reply: Reply)
    requires Inv(users) && freshId !in users.docs
    modifies users
    ensures Inv(users)
    ensures password.None? ==>
      reply == Reply(400, Failure) && users.docs == old(users.docs) && users.order == old(users.order)
    ensures password.Some? ==>
      var u := RegisteredUser(password.value, email, username, imgUrl, salt);
      var tokens := GenerateToken(cfg, freshId, nonce, nowSec);
      if CheckWrite(old(users.docs), freshId, u).Some? then
        reply == Reply(400, Failure) && users.docs == old(users.docs) && users.order == old(users.order)
      else if tokens.NoSecret? then
        reply == Reply(500, Text("Error generating token"))
        && users.docs == old(users.docs)[freshId := u] && users.order == old(users.order) + [freshId]
      else if tokens.SignError? then
        reply == Reply(400, Failure)
        && users.docs == old(users.docs)[freshId := u] && users.order == old(users.order) + [freshId]
      else
        var saved := u.(refreshToken := [tokens.pair.refreshToken]);
        reply == Reply(200, Registered(freshId, saved, tokens.pair.accessToken))
        && users.docs == old(users.docs)[freshId := saved] && users.order == old(users.order) + [freshId]
  {
    if password.None? {
      // bcrypt.hash rejects a missing password
      return Reply(400, Failure);
    }
    var u := RegisteredUser(password.value, email, username, imgUrl, salt);
    var err := Create(users, freshId, u);
    if err.Some? {
      return Reply(400, Failure);
    }
    reply := IssueFirstToken(users, cfg, freshId, nonce, nowSec);
    ghost var tokens := GenerateToken(cfg, freshId, nonce, nowSec);
    if tokens.Signed? {
      OverwriteTwice(old(users.docs), freshId, u, u.(refreshToken := [tokens.pair.refreshToken]));
    }
  }

  /** The second half of `register`: sign the new user's tokens and store the refresh token. */
  method IssueFirstToken(users: Collection<User>, cfg: Config, id: string, nonce: nat, nowSec: nat)
    returns (reply: Reply)
    requires Inv(users) && id in users.docs && users.docs[id].refreshToken == []
    modifies users
    ensures Inv(users) && users.order == old(users.order)
    ensures GenerateToken(cfg, id, nonce, nowSec).NoSecret? ==>
      reply == Reply(500, Text("Error generating token")) && users.docs == old(users.docs)
    ensures GenerateToken(cfg, id, nonce, nowSec).SignError? ==>
      reply == Reply(400, Failure) && users.docs == old(users.docs)
    ensures GenerateToken(cfg, id, nonce, nowSec).Signed? ==>
      var tokens := GenerateToken(cfg, id, nonce, nowSec).pair;
      var saved := old(users.docs)[id].(refreshToken := [tokens.refreshToken]);
      reply == Reply(200, Registered(id, saved, tokens.accessToken))
      && users.docs == old(users.docs)[id := saved]
  {
    var tokens := GenerateToken(cfg, id, nonce, nowSec);
    if tokens.NoSecret? {
      return Reply(500, Text("Error generating token"));
    }
    if tokens.SignError? {
      // jwt.sign throws; the handler's catch answers 400 with the error
      return Reply(400, Failure);
    }
    var saved := users.docs[id].(refreshToken := [tokens.pair.refreshToken]);
    TokenWritePasses(users.docs, id, [tokens.pair.refreshToken]);
    var err := Save(users, id, saved);
    reply := Reply(200, Registered(id, saved, tokens.pair.accessToken));
  }

  // ---------------------------------------------------------------------------
  // login

  /** The `$or` filter on email and username. */
  function ByIdentifier(ident: string): User -> bool {
    (u: User) => u.email == Some(ident) || u.username == Some(ident)
  }

  /** `login`: the first user whose email or username is the identifier, checked against the password. */
  method Login(users: Collection<User>, cfg: Config, ident: string, password: Option<string>,
               nonce: nat, nowSec: nat) returns (reply: Reply)
    requires Inv(users)
    modifies users
    ensures Inv(users)
    ensures users.order == old(users.order)
    ensures
      var found := FirstMatching(old(users.order), old(users.docs), ByIdentifier(ident));
      if found.None? then
        reply == Reply(400, Text("wrong username or password")) && users.docs == old(users.docs)
      else
        var id := found.value;
        var u := old(users.docs)[id];
        if password.None? || u.password.None? then
          reply == Reply(400, Failure) && users.docs == old(users.docs)
        else if !Bcrypt.Compare(password.value, u.password.value) then
          reply == Reply(400, Text("wrong username or password")) && users.docs == old(users.docs)
        else if !HasSecret(cfg) then
          reply == Reply(500, Text("Server Error")) && users.docs == old(users.docs)
        else if !HasLifetimes(cfg) then
          reply == Reply(400, Failure) && users.docs == old(users.docs)
        else
          var tokens := GenerateToken(cfg, id, nonce, nowSec).pair;
          var saved := u.(refreshToken := u.refreshToken + [tokens.refreshToken]);
          reply == Reply(200, Session(tokens.accessToken, tokens.refreshToken, saved))
          && users.docs == old(users.docs)[id := saved]
  {
    var found := users.FindFirst(ByIdentifier(ident));
    if found.None? {
      return Reply(400, Text("wrong username or password"));
    }
    var id := found.value;
    var u := users.docs[id];
    if password.None? || u.password.None? {
      // bcrypt.compare rejects a missing argument
      return Reply(400, Failure);
    }
    if !Bcrypt.Compare(password.value, u.password.value) {
      return Reply(400, Text("wrong username or password"));
    }
    var tokens := GenerateToken(cfg, id, nonce, nowSec);
    if tokens.NoSecret? {
      return Reply(500, Text("Server Error"));
    }
    if tokens.SignError? {
      return Reply(400, Failure);
    }
    var saved := u.(refreshToken := u.refreshToken + [tokens.pair.refreshToken]);
    TokenWritePasses(users.docs, id, saved.refreshToken);
    var err := Save(users, id, saved);
    reply := Reply(200, Session(tokens.pair.accessToken, tokens.pair.refreshToken, saved));
  }

  // ---------------------------------------------------------------------------
  // refresh-token checks

  /**
   * The decision `verifyRefreshToken` takes: the id of the user that the token
   * names, provided the token verifies and is still in that user's list.
   */
  function AcceptRefresh(docs: map<string, User>, cfg: Config, token: Option<string>, nowSec: nat): (r: Option<string>)
    ensures r.Some? ==> HasSecret(cfg) && Truthy(token) && r.value in docs
                        && token.value in docs[r.value].refreshToken
                        && Jwt.Verify(token.value, cfg.secret, nowSec).Ok?
                        && Jwt.Verify(token.value, cfg.secret, nowSec).value.userId == r.value
  {
    if !Truthy(token) || !HasSecret(cfg) then None
    else match Jwt.Verify(token.value, cfg.secret, nowSec)
      case Err(_) => None
      case Ok(c) => if c.userId in docs && token.value in docs[c.userId].refreshToken then Some(c.userId) else None
  }

  /** A refresh token handed out by `generateToken` and kept in the user's list is accepted until it expires. */
  lemma IssuedRefreshAccepted(docs: map<string, User>, cfg: Config, id: string, nonce: nat, issuedSec: nat, nowSec: nat)
    requires HasSecret(cfg) && HasLifetimes(cfg) && '.' !in id && id in docs
    requires GenerateToken(cfg, id, nonce, issuedSec).pair.refreshToken in docs[id].refreshToken
    ensures AcceptRefresh(docs, cfg, Some(GenerateToken(cfg, id, nonce, issuedSec).pair.refreshToken), nowSec)
         == if nowSec < issuedSec + cfg.refreshTtl.value then Some(id) else None
  {
    var c := Jwt.Claims(id, nonce, issuedSec, Some(issuedSec + cfg.refreshTtl.value));
    Jwt.VerifySign(c, cfg.secret, nowSec);
  }

  /** The list a user keeps once `token` has been spent. */
  function Spend(tokens: seq<string>, token: string): (r: seq<string>)
    ensures token !in r
    ensures forall t :: t != token ==> (t in r <==> t in tokens)
  {
    Without(tokens, token)
  }

  /** Once spent, a refresh token is refused, even if a new one was appended after it. */
  lemma SpentTokenRefused(docs: map<string, User>, cfg: Config, token: string, nowSec: nat, id: string,
                          appended: seq<string>, laterSec: nat)
    requires AcceptRefresh(docs, cfg, Some(token), nowSec) == Some(id)
    requires token !in appended
    ensures AcceptRefresh(docs[id := docs[id].(refreshToken := Spend(docs[id].refreshToken, token) + appended)],
                          cfg, Some(token), laterSec).None?
  {
  }

  /** `verifyRefreshToken`: on success the token is removed from its user's list and the user is returned. */
  method VerifyRefreshToken(users: Collection<User>, cfg: Config, token: Option<string>, nowSec: nat)
    returns (r: Option<string>)
    requires Inv(users)
    modifies users
    ensures Inv(users)
    ensures r == AcceptRefresh(old(users.docs), cfg, token, nowSec)
    ensures users.order == old(users.order)
    ensures r.None? ==> users.docs == old(users.docs)
    ensures r.Some? ==>
      users.docs == old(users.docs)[r.value := old(users.docs)[r.value].(
        refreshToken := Spend(old(users.docs)[r.value].refreshToken, token.value))]
  {
    r := AcceptRefresh(users.docs, cfg, token, nowSec);
    if r.Some? {
      var id := r.value;
      var u := users.docs[id];
      var spent := u.(refreshToken := Spend(u.refreshToken, token.value));
      TokenWritePasses(users.docs, id, spent.refreshToken);
      var err := Save(users, id, spent);
    }
  }

  /** `logout`: spends the refresh token. */
  method Logout(users: Collection<User>, cfg: Config, token: Option<string>, nowSec: nat) returns (reply: Reply)
    requires Inv(users)
    modifies users
    ensures Inv(users)
    ensures users.order == old(users.order)
    ensures
      var r := AcceptRefresh(old(users.docs), cfg, token, nowSec);
      if r.None? then reply == Reply(400, Text("fail")) && users.docs == old(users.docs)
      else
        reply == Reply(200, Text("success"))
        && users.docs == old(users.docs)[r.value := old(users.docs)[r.value].(
             refreshToken := Spend(old(users.docs)[r.value].refreshToken, token.value))]
  {
    var r := VerifyRefreshToken(users, cfg, token, nowSec);
    if r.None? {
      return Reply(400, Text("fail"));
    }
    reply := Reply(200, Text("success"));
  }

  /**
   * `refresh`: spends the refresh token and hands out a new pair, whose refresh
   * token is appended to the user's list. The secret was already checked, so the
   * "Server Error" branch cannot be taken; when signing throws, the old token is
   * already spent and the catch answers 400.
   */
  method Refresh(users: Collection<User>, cfg: Config, token: Option<string>, nonce: nat, nowSec: nat)
    returns (reply: Reply)
    requires Inv(users)
    modifies users
    ensures Inv(users)
    ensures users.order == old(users.order)
    ensures reply.status != 500
    ensures
      var r := AcceptRefresh(old(users.docs), cfg, token, nowSec);
      if r.None? then reply == Reply(400, Text("fail")) && users.docs == old(users.docs)
      else if !HasLifetimes(cfg) then
        reply == Reply(400, Failure)
        && users.docs == old(users.docs)[r.value := old(users.docs)[r.value].(
             refreshToken := Spend(old(users.docs)[r.value].refreshToken, token.value))]
      else
        var id := r.value;
        var tokens := GenerateToken(cfg, id, nonce, nowSec).pair;
        reply == Reply(200, Rotated(tokens.accessToken, tokens.refreshToken, id))
        && users.docs == old(users.docs)[id := old(users.docs)[id].(
             refreshToken := Spend(old(users.docs)[id].refreshToken, token.value) + [tokens.refreshToken])]
  {
    var r := VerifyRefreshToken(users, cfg, token, nowSec);
    if r.None? {
      return Reply(400, Text("fail"));
    }
    var id := r.value;
    ghost var spent := users.docs[id];
    reply := Rotate(users, cfg, id, nonce, nowSec);
    if HasLifetimes(cfg) {
      var t := GenerateToken(cfg, id, nonce, nowSec).pair.refreshToken;
      OverwriteTwice(old(users.docs), id, spent, spent.(refreshToken := spent.refreshToken + [t]));
    }
  }

  /** The second half of `refresh`: sign a new pair for a verified user and push its refresh token. */
  method Rotate(users: Collection<User>, cfg: Config, id: string, nonce: nat, nowSec: nat) returns (reply: Reply)
    requires Inv(users) && id in users.docs && HasSecret(cfg)
    modifies users
    ensures Inv(users) && users.order == old(users.order)
    ensures !HasLifetimes(cfg) ==> reply == Reply(400, Failure) && users.docs == old(users.docs)
    ensures HasLifetimes(cfg) ==>
      var tokens := GenerateToken(cfg, id, nonce, nowSec).pair;
      reply == Reply(200, Rotated(tokens.accessToken, tokens.refreshToken, id))
      && users.docs == old(users.docs)[id := old(users.docs)[id].(
           refreshToken := old(users.docs)[id].refreshToken + [tokens.refreshToken])]
  {
    var tokens := GenerateToken(cfg, id, nonce, nowSec);
    if tokens.NoSecret? {
      assert false;
      return Reply(500, Text("Server Error"));
    }
    if tokens.SignError? {
      // jwt.sign throws after the old token was spent; the catch answers 400
      return Reply(400, Failure);
    }
    var u := users.docs[id];
    var saved := u.(refreshToken := u.refreshToken + [tokens.pair.refreshToken]);
    TokenWritePasses(users.docs, id, saved.refreshToken);
    var err := Save(users, id, saved);
    reply := Reply(200, Rotated(tokens.pair.accessToken, tokens.pair.refreshToken, id));
  }

  // ---------------------------------------------------------------------------
  // bearer guard

  /** `authorization && authorization.split(" ")[1]`. */
  function BearerToken(authorization: Option<string>): (r: Option<string>)
    ensures r.Some? ==> Truthy(authorization) && ' ' !in r.value
  {
    if !Truthy(authorization) then None
    else
      var parts := Split(authorization.value, ' ');
      if |parts| < 2 then None else Some(parts[1])
  }

  /** `authMiddleware`: the id of the token's user, or 401 "Access Denied". */
  function AuthMiddleware(cfg: Config, authorization: Option<string>, nowSec: nat): (r: Result<string, Reply>)
    ensures r.Err? ==> r.error == Reply(401, Text("Access Denied"))
    ensures r.Ok? <==> HasSecret(cfg) && Truthy(BearerToken(authorization))
                       && Jwt.Verify(BearerToken(authorization).value, cfg.secret, nowSec).Ok?
    ensures r.Ok? ==> r.value == Jwt.Verify(BearerToken(authorization).value, cfg.secret, nowSec).value.userId
  {
    var token := BearerToken(authorization);
    if !Truthy(token) || !HasSecret(cfg) then Err(Reply(401, Text("Access Denied")))
    else match Jwt.Verify(token.value, cfg.secret, nowSec)
      case Err(_) => Err(Reply(401, Text("Access Denied")))
      case Ok(c) => Ok(c.userId)
  }

  /** `Authorization: Bearer <access token>` lets the user through until the token expires. */
  lemma BearerAccessAccepted(cfg: Config, id: string, nonce: nat, issuedSec: nat, nowSec: nat)
    requires HasSecret(cfg) && HasLifetimes(cfg) && '.' !in id && ' ' !in id
    ensures AuthMiddleware(cfg, Some("Bearer " + GenerateToken(cfg, id, nonce, issuedSec).pair.accessToken), nowSec)
         == if nowSec < issuedSec + cfg.accessTtl.value then Ok(id) else Err(Reply(401, Text("Access Denied")))
  {
    var c := Jwt.Claims(id, nonce, issuedSec, Some(issuedSec + cfg.accessTtl.value));
    var t := Jwt.Sign(c, cfg.secret);
    Jwt.VerifySign(c, cfg.secret, nowSec);
    SignHasNoSpace(c, cfg.secret);
    SplitAtSep("Bearer", t, ' ');
    SplitNoSep(t, ' ');
    assert "Bearer " + t == "Bearer" + [' '] + t;
    assert GenerateToken(cfg, id, nonce, issuedSec).pair.accessToken == t;
    assert BearerToken(Some("Bearer " + t)) == Some(t);
  }

  lemma SignHasNoSpace(c: Jwt.Claims, secret: string)
    requires ' ' !in c.userId
    ensures ' ' !in Jwt.Sign(c, secret) && Jwt.Sign(c, secret) != ""
  {
    var parts := Jwt.BodyParts(c) + [NatToString(Jwt.Mac(Join(Jwt.BodyParts(c), '.'), secret))];
    forall k | 0 <= k < |parts| ensures ' ' !in parts[k] {
      if k > 0 {
        assert AllDigits(parts[k]);
      }
    }
    JoinKeeps(parts, '.', ' ');
    assert |parts[1]| >= 1;
    JoinLength(parts, '.');
  }

  lemma {:induction false} JoinKeeps(parts: seq<string>, sep: char, c: char)
    requires |parts| >= 1 && c != sep && forall k :: 0 <= k < |parts| ==> c !in parts[k]
    ensures c !in Join(parts, sep)
    decreases |parts|
  {
    if |parts| > 1 {
      JoinKeeps(parts[1..], sep, c);
    }
  }

  lemma {:induction false} JoinLength(parts: seq<string>, sep: char)
    requires |parts| >= 1
    ensures |Join(parts, sep)| >= |parts| - 1 + |parts[|parts| - 1]|
    decreases |parts|
  {
    if |parts| > 1 {
      JoinLength(parts[1..], sep);
    }
  }
}
