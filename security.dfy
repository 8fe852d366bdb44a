/** Password hashing and access tokens. The bcrypt hasher and the JWT codec
    are foreign libraries: each is a pair of functions handed in as a value,
    and the one property the service relies on (a hash verifies against its
    password; a token decodes to the claims it was encoded from) is a
    predicate on that pair that callers assume. What is modelled is what the
    service does around them: the claims, the expiry arithmetic and the
    branching of token verification. Times are whole seconds. */
module Security {
  import opened Common
  import Config
  import Schemas

  /** bcrypt as the service uses it: `hash(password, salt)` and
      `verify(password, hash)`. The salt is the randomness the library draws. */
  datatype PasswordHasher = PasswordHasher(
    hash: (string, string) -> string,
    verify: (string, string) -> bool)

  /** A hash verifies against the password it was made from. */
  ghost predicate HasherSound(h: PasswordHasher) {
    forall password, salt :: h.verify(password, h.hash(password, salt))
  }

  /** `SecurityManager.hash_password`. */
  function HashPassword(h: PasswordHasher, password: string, salt: string): string {
    h.hash(password, salt)
  }

  /** `SecurityManager.verify_password`: whether the password is correct. */
  function VerifyPassword(h: PasswordHasher, plain: string, hashed: string): bool {
    h.verify(plain, hashed)
  }

  /** A stored hash accepts the password it was made from. */
  lemma HashedPasswordVerifies(h: PasswordHasher, password: string, salt: string)
    requires HasherSound(h)
    ensures VerifyPassword(h, password, HashPassword(h, password, salt))
  {
  }

  /** A claim value: a string (such as `sub`) or a number (such as `exp`,
      a time in seconds). */
  datatype ClaimValue = Str(s: string) | Num(n: int)

  type Claims = map<string, ClaimValue>

  /** The JWT library: `encode(claims, key, algorithm)` and
      `decode(token, key, algorithms)`, the latter giving `None` where the
      library raises `JWTError` (bad signature, algorithm not in the list,
      malformed token, expired token, or a `sub` that is not a string). */
  datatype JwtCodec = JwtCodec(
    encode: (Claims, string, string) -> string,
    decode: (string, string, seq<string>) -> Option<Claims>)

  /** Claims of the kind the service issues: at most a subject, which is a
      string, and an expiry, which is a number. */
  predicate ServiceClaims(claims: Claims) {
    && claims.Keys <= {"sub", "exp"}
    && ("sub" in claims ==> claims["sub"].Str?)
    && ("exp" in claims ==> claims["exp"].Num?)
  }

  /** A token carrying service claims decodes, under the key and the
      algorithm it was signed with, to the claims it was encoded from (as
      long as its `exp` has not passed, which the model does not track). */
  ghost predicate CodecRoundTrips(codec: JwtCodec) {
    forall claims: Claims, key, alg | ServiceClaims(claims) :: codec.decode(codec.encode(claims, key, alg), key, [alg]) == Some(claims)
  }

  const SecondsPerMinute := 60

  /** `expires_delta` is truthy: given, and not a zero duration. */
  predicate DeltaGiven(expiresDelta: Option<int>) {
    expiresDelta.Some? && expiresDelta.value != 0
  }

  /** The claims `create_access_token` encodes: the caller's claims with
      `exp` added, or replaced when already present; `exp` is `now` plus the
      given duration, or plus the configured minutes when none (or a zero
      duration) is given. */
  function AccessTokenClaims(settings: Config.Settings, data: Claims, expiresDelta: Option<int>, now: int): (c: Claims)
    ensures c.Keys == data.Keys + {"exp"}
    ensures forall k :: k in data && k != "exp" ==> c[k] == data[k]
    ensures DeltaGiven(expiresDelta) ==> c["exp"] == Num(now + expiresDelta.value)
    ensures !DeltaGiven(expiresDelta) ==> c["exp"] == Num(now + settings.accessTokenExpireMinutes * SecondsPerMinute)
  {
    var expire := if DeltaGiven(expiresDelta) then now + expiresDelta.value
                  else now + settings.accessTokenExpireMinutes * SecondsPerMinute;
    data["exp" := Num(expire)]
  }

  /** `SecurityManager.create_access_token`: copies the caller's claims,
      sets `exp` on the copy and signs the copy with the configured key and
      algorithm. The caller's claims are a value and stay as they were. */
  method CreateAccessToken(codec: JwtCodec, settings: Config.Settings, data: Claims, expiresDelta: Option<int>, now: int)
    returns (token: string)
    ensures token == codec.encode(AccessTokenClaims(settings, data, expiresDelta, now), settings.secretKey, settings.algorithm)
  {
    var toEncode := data;
    var expire: int;
    if DeltaGiven(expiresDelta) {
      expire := now + expiresDelta.value;
    } else {
      expire := now + settings.accessTokenExpireMinutes * SecondsPerMinute;
    }
    toEncode := toEncode["exp" := Num(expire)];
    token := codec.encode(toEncode, settings.secretKey, settings.algorithm);
  }

  /** The claims of a user's token: the subject, and an expiry the
      configured number of minutes from now. */
  function UserClaims(settings: Config.Settings, username: string, now: int): Claims {
    map["sub" := Str(username), "exp" := Num(now + settings.accessTokenExpireMinutes * SecondsPerMinute)]
  }

  /** A user's token expires the configured minutes after issue: passing the
      configured duration explicitly gives the same claims as the fallback,
      including when that duration is zero and so falls back. */
  lemma {:induction false} UserTokenClaims(settings: Config.Settings, username: string, now: int)
    ensures AccessTokenClaims(settings, map["sub" := Str(username)],
                              Some(settings.accessTokenExpireMinutes * SecondsPerMinute), now)
         == UserClaims(settings, username, now)
  {
    var c := AccessTokenClaims(settings, map["sub" := Str(username)],
                               Some(settings.accessTokenExpireMinutes * SecondsPerMinute), now);
    assert c.Keys == UserClaims(settings, username, now).Keys;
  }

  /** `SecurityManager.create_token_for_user`: a token whose claims are the
      subject and an expiry the configured minutes from now. */
  method CreateTokenForUser(codec: JwtCodec, settings: Config.Settings, username: string, now: int)
    returns (token: string)
    ensures token == codec.encode(UserClaims(settings, username, now), settings.secretKey, settings.algorithm)
  {
    var accessTokenExpires := settings.accessTokenExpireMinutes * SecondsPerMinute;
    token := CreateAccessToken(codec, settings, map["sub" := Str(username)], Some(accessTokenExpires), now);
    UserTokenClaims(settings, username, now);
  }

  /** The one error every failed verification raises: 401, with a bearer
      challenge. */
  const CredentialsError := HttpError(Unauthorized, "无法验证凭据", Some("Bearer"))

  /** `SecurityManager.verify_token`: decodes with the configured key,
      accepting only the configured algorithm (never one named by the
      token), and answers the subject. */
  function VerifyToken(codec: JwtCodec, settings: Config.Settings, token: string): (r: Result<Schemas.TokenData, HttpError>)
    ensures r.Success? <==>
      var payload := codec.decode(token, settings.secretKey, [settings.algorithm]);
      payload.Some? && "sub" in payload.value && payload.value["sub"].Str?
    ensures r.Success? ==>
      && r.value.username.Some?
      && codec.decode(token, settings.secretKey, [settings.algorithm]).value["sub"] == Str(r.value.username.value)
    ensures r.Failure? ==> r.error == CredentialsError
  {
    match codec.decode(token, settings.secretKey, [settings.algorithm])
    case None => Failure(CredentialsError)
    case Some(payload) =>
      if "sub" !in payload then Failure(CredentialsError)
      else match payload["sub"]
        case Str(username) => Success(Schemas.TokenData(Some(username)))
        case Num(_) => Failure(CredentialsError)
  }

  /** A token issued for a user verifies, under the same settings, to that
      user's name. */
  lemma IssuedTokenVerifies(codec: JwtCodec, settings: Config.Settings, username: string, now: int)
    requires CodecRoundTrips(codec)
    ensures VerifyToken(codec, settings, codec.encode(UserClaims(settings, username, now), settings.secretKey, settings.algorithm))
         == Success(Schemas.TokenData(Some(username)))
  {
    var claims := UserClaims(settings, username, now);
    assert ServiceClaims(claims);
    assert codec.decode(codec.encode(claims, settings.secretKey, settings.algorithm), settings.secretKey, [settings.algorithm]) == Some(claims);
  }

  /** A token that decodes to claims without a subject is refused with
      exactly the error a token that does not decode gets: the caller cannot
      tell them apart. */
  lemma MissingSubjectLooksLikeBadToken(codec: JwtCodec, settings: Config.Settings, token: string, claims: Claims, bad: string)
    requires codec.decode(token, settings.secretKey, [settings.algorithm]) == Some(claims)
    requires "sub" !in claims
    requires codec.decode(bad, settings.secretKey, [settings.algorithm]).None?
    ensures VerifyToken(codec, settings, token) == VerifyToken(codec, settings, bad) == Failure(CredentialsError)
  {
  }
}
