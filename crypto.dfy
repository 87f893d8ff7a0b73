/**
 * The two foreign libraries the session code calls, `jsonwebtoken` and
 * `bcrypt`, as concrete stand-ins that keep the properties the callers rely
 * on: a signed token verifies back to exactly the claims it was signed with,
 * and a password matches a hash exactly when its first 72 UTF-8 bytes equal
 * those of the password the hash was made from.
 */
module Jwt {
  import opened Wrappers
  import opened Text

  /** The payload `{ _id, random }` plus the `iat`/`exp` fields the library adds (seconds). */
  datatype Claims = Claims(userId: string, nonce: nat, iat: nat, exp: Option<nat>)

  datatype VerifyError = Malformed | SignatureInvalid | Expired

  /** Stand-in for the HMAC over the token body; only its determinism is used. */
  function Mac(body: string, secret: string): nat
    decreases |secret|
  {
    if |secret| == 0 then |body|
    else (Mac(body, secret[1..]) * 31 + secret[0] as int) % 0x1_0000_0000
  }

  function ExpField(exp: Option<nat>): string {
    match exp
    case None => ""
    case Some(e) => NatToString(e)
  }

  function BodyParts(c: Claims): seq<string> {
    [c.userId, NatToString(c.nonce), NatToString(c.iat), ExpField(c.exp)]
  }

  /** `jwt.sign(payload, secret)`: the claims, then the keyed digest, joined by '.'. */
  function Sign(c: Claims, secret: string): string {
    var body := Join(BodyParts(c), '.');
    Join(BodyParts(c) + [NatToString(Mac(body, secret))], '.')
  }

  /** `jwt.sign(payload, secret, { expiresIn: ttl })` at time `nowSec`. */
  function Issue(userId: string, nonce: nat, nowSec: nat, ttl: Option<nat>, secret: string): string {
    Sign(Claims(userId, nonce, nowSec, if ttl.Some? then Some(nowSec + ttl.value) else None), secret)
  }

  /** `jwt.decode`: reads the claims without checking the signature. */
  function Decode(token: string): Option<Claims> {
    var parts := Split(token, '.');
    if |parts| != 5 then None
    else
      var nonce := ParseNat(parts[1]);
      var iat := ParseNat(parts[2]);
      var exp := if parts[3] == "" then Some(None) else
                   (var e := ParseNat(parts[3]); if e.Some? then Some(Some(e.value)) else None);
      if nonce.None? || iat.None? || exp.None? then None
      else Some(Claims(parts[0], nonce.value, iat.value, exp.value))
  }

  /** `jwt.verify(token, secret)` at time `nowSec`. */
  function Verify(token: string, secret: string, nowSec: nat): (r: Result<Claims, VerifyError>)
    ensures r.Ok? ==> Decode(token) == Some(r.value)
    ensures r.Ok? ==> r.value.exp.None? || nowSec < r.value.exp.value
  {
    var parts := Split(token, '.');
    var claims := Decode(token);
    if claims.None? then Err(Malformed)
    else if ParseNat(parts[4]) != Some(Mac(Join(parts[..4], '.'), secret)) then Err(SignatureInvalid)
    else if claims.value.exp.Some? && nowSec >= claims.value.exp.value then Err(Expired)
    else Ok(claims.value)
  }

  lemma SignSplits(c: Claims, secret: string)
    requires '.' !in c.userId
    ensures Split(Sign(c, secret), '.') == BodyParts(c) + [NatToString(Mac(Join(BodyParts(c), '.'), secret))]
  {
    var parts := BodyParts(c) + [NatToString(Mac(Join(BodyParts(c), '.'), secret))];
    forall k | 0 <= k < |parts| ensures '.' !in parts[k] {
      if k > 0 {
        assert AllDigits(parts[k]);
      }
    }
    SplitJoin(parts, '.');
  }

  /** A token decodes to the claims it was signed with. */
  lemma DecodeSign(c: Claims, secret: string)
    requires '.' !in c.userId
    ensures Decode(Sign(c, secret)) == Some(c)
  {
    SignSplits(c, secret);
    NatToStringRoundTrip(c.nonce);
    NatToStringRoundTrip(c.iat);
    if c.exp.Some? {
      NatToStringRoundTrip(c.exp.value);
    }
  }

  /** A token verifies with its own secret until it expires, and then reports expiry. */
  lemma VerifySign(c: Claims, secret: string, nowSec: nat)
    requires '.' !in c.userId
    ensures Verify(Sign(c, secret), secret, nowSec)
         == if c.exp.Some? && nowSec >= c.exp.value then Err(Expired) else Ok(c)
  {
    var t := Sign(c, secret);
    DecodeSign(c, secret);
    SignSplits(c, secret);
    var parts := Split(t, '.');
    assert parts[..4] == BodyParts(c);
    NatToStringRoundTrip(Mac(Join(BodyParts(c), '.'), secret));
  }

  /** Tokens that differ in any claim are different strings. */
  lemma SignInjective(c1: Claims, c2: Claims, secret: string)
    requires '.' !in c1.userId && '.' !in c2.userId
    requires Sign(c1, secret) == Sign(c2, secret)
    ensures c1 == c2
  {
    DecodeSign(c1, secret);
    DecodeSign(c2, secret);
  }
}

module Bcrypt {
  import opened Text
  import Utf8

  const Prefix: string := "$2b$10$"

  /** bcrypt keys its cipher with at most the first 72 bytes of the password. */
  const MaxKeyBytes: nat := 72

  /** The bytes of `password` that bcrypt uses: its UTF-8 bytes, cut after the 72nd. */
  function Key(password: string): (k: seq<Utf8.Byte>)
    ensures |k| <= MaxKeyBytes
  {
    var b := Utf8.Encode(password);
    if |b| <= MaxKeyBytes then b else b[..MaxKeyBytes]
  }

  /** A password short enough for bcrypt to use all of it. */
  predicate Fits(password: string) {
    |Utf8.Encode(password)| <= MaxKeyBytes
  }

  /** The key bytes written out one character per byte, standing in for the digest. */
  function KeyText(k: seq<Utf8.Byte>): string {
    seq(|k|, i requires 0 <= i < |k| => k[i] as char)
  }

  /** `bcrypt.hash(password, salt)`, salt drawn by `genSalt(10)`. */
  function Hash(password: string, salt: nat): string {
    Prefix + NatToString(salt) + "$" + KeyText(Key(password))
  }

  /** `bcrypt.compare(password, hash)`: re-hash with the salt stored in `hash`. */
  function Compare(password: string, hash: string): bool {
    var parts := Split(hash, '$');
    |parts| >= 5 && parts[..3] == ["", "2b", "10"] && ParseNat(parts[3]).Some?
    && Hash(password, ParseNat(parts[3]).value) == hash
  }

  lemma HashSplits(password: string, salt: nat)
    ensures |Split(Hash(password, salt), '$')| >= 5
    ensures Split(Hash(password, salt), '$')[..4] == ["", "2b", "10", NatToString(salt)]
  {
    var d := NatToString(salt);
    var t := KeyText(Key(password));
    assert '$' !in d by { assert AllDigits(d); }
    var h := Hash(password, salt);
    assert h == "" + "$" + ("2b" + "$" + ("10" + "$" + (d + "$" + t)));
    SplitAtSep(d, t, '$');
    SplitAtSep("10", d + "$" + t, '$');
    SplitAtSep("2b", "10" + "$" + (d + "$" + t), '$');
    SplitAtSep("", "2b" + "$" + ("10" + "$" + (d + "$" + t)), '$');
  }

  /** A password matches a hash exactly when it shares the hashed password's first 72 bytes. */
  lemma CompareHash(attempt: string, password: string, salt: nat)
    ensures Compare(attempt, Hash(password, salt)) <==> Key(attempt) == Key(password)
  {
    HashSplits(password, salt);
    NatToStringRoundTrip(salt);
    var parts := Split(Hash(password, salt), '$');
    assert parts[..3] == ["", "2b", "10"];
    assert parts[3] == NatToString(salt);
    if Hash(attempt, salt) == Hash(password, salt) {
      var n := |Prefix + NatToString(salt) + "$"|;
      var ka, kp := Key(attempt), Key(password);
      assert KeyText(ka) == Hash(attempt, salt)[n..];
      assert KeyText(kp) == Hash(password, salt)[n..];
      assert |ka| == |kp|;
      forall i | 0 <= i < |ka| ensures ka[i] == kp[i] {
        assert KeyText(ka)[i] == KeyText(kp)[i];
      }
    }
  }

  /** For passwords of at most 72 bytes, only the hashed password matches. */
  lemma CompareHashExact(attempt: string, password: string, salt: nat)
    requires Fits(attempt) && Fits(password)
    ensures Compare(attempt, Hash(password, salt)) <==> attempt == password
  {
    CompareHash(attempt, password, salt);
    if Key(attempt) == Key(password) {
      Utf8.DecodeEncode(attempt);
      Utf8.DecodeEncode(password);
    }
  }

  /** Two passwords that differ only after their 72nd byte match the same hash. */
  lemma TruncationExample()
    ensures var a := seq(72, _ => 'a');
      Compare(a + "y", Hash(a + "x", 0)) && a + "y" != a + "x"
  {
    var a := seq(72, _ => 'a');
    Utf8.AsciiIdentity(a);
    Utf8.EncodeConcat(a, "x");
    Utf8.EncodeConcat(a, "y");
    assert Key(a + "x") == Utf8.Encode(a);
    assert Key(a + "y") == Utf8.Encode(a);
    CompareHash(a + "y", a + "x", 0);
    assert (a + "y")[72] != (a + "x")[72];
  }
}
