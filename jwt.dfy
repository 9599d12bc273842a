/** auth/jwt_gen.py: the claim set of an issued access token, its expiry rule, and verification.
    HS256 signing (section 3.2 of RFC 7518) is an abstract encode/decode pair; time is integer
    seconds since the epoch and is passed in. */
module Jwt {
  import opened Common

  /** A JSON value a claim can carry. */
  datatype ClaimValue = Str(s: string) | Int(n: int) | Null

  /** A decoded JWT payload. */
  type Claims = map<string, ClaimValue>

  /** The process-wide signing secret; the empty string is not a key. */
  type SecretKey = s: string | |s| > 0 witness "k"

  const Algorithm: string := "HS256"
  const AccessTokenExpireMinutes: int := 30
  /** The default time to live in seconds. */
  const DefaultTtl: int := AccessTokenExpireMinutes * 60

  const SecretKeyMissing: string := "SECRET_KEY is not set in the environment variables."

  /** The module-level check run once at import: a missing or empty SECRET_KEY stops the process
      with a ValueError; otherwise the value becomes the signing key. */
  function LoadSecretKey(env: Option<string>): (r: Result<SecretKey, string>)
    ensures r.Success? <==> env.Some? && env.value != ""
    ensures r.Success? ==> r.value == env.value
    ensures r.Failure? ==> r.error == SecretKeyMissing
  {
    if env.Some? && env.value != "" then Success(env.value) else Failure(SecretKeyMissing)
  }

  /** The signing pair: `jwt.encode(claims, key, algorithm="HS256")` and
      `jwt.decode(token, key, algorithms=["HS256"])` evaluated at time `now`. */
  datatype JwtCodec = JwtCodec(encode: (Claims, SecretKey) -> string, decode: (string, SecretKey, int) -> Option<Claims>)

  /** How python-jose checks `exp` (section 4.1.4 of RFC 7519): a token is rejected once its
      expiry lies in the past. */
  predicate NotExpired(claims: Claims, now: int) {
    "exp" !in claims || (claims["exp"].Int? && now <= claims["exp"].n)
  }

  /** The registered claims other than `exp` that python-jose's `decode` accepts when called, as
      here, without an audience, issuer or access token: a string `sub` and `jti`, no `aud`, no
      `at_hash`, an integer `iat`, and an integer `nbf` that is not in the future. */
  predicate RegisteredClaimsOk(claims: Claims, now: int) {
    && ("sub" !in claims || claims["sub"].Str?)
    && ("jti" !in claims || claims["jti"].Str?)
    && "aud" !in claims
    && "at_hash" !in claims
    && ("iat" !in claims || claims["iat"].Int?)
    && ("nbf" !in claims || (claims["nbf"].Int? && claims["nbf"].n <= now))
  }

  /** The claim sets python-jose's `decode` accepts at time `now`. */
  predicate JoseAccepts(claims: Claims, now: int) {
    NotExpired(claims, now) && RegisteredClaimsOk(claims, now)
  }

  /** Claim sets python-jose's `decode` certainly refuses at time `now`: an integer `exp` in the past,
      a `sub` that is not a string, any `aud`, or an integer `nbf` in the future. */
  predicate JoseRefuses(claims: Claims, now: int) {
    || ("exp" in claims && claims["exp"].Int? && now > claims["exp"].n)
    || ("sub" in claims && !claims["sub"].Str?)
    || "aud" in claims
    || ("nbf" in claims && claims["nbf"].Int? && claims["nbf"].n > now)
  }

  /** What the model assumes of the codec:
      - a token it issued decodes, under the same key, to exactly the claims it was made from when
        python-jose accepts them, and is refused when python-jose refuses them;
      - a decoded payload never carries a non-string `sub`;
      - a token is never the empty string. */
  ghost predicate SoundCodec(c: JwtCodec) {
    && (forall claims, key, now :: JoseAccepts(claims, now) ==> c.decode(c.encode(claims, key), key, now) == Some(claims))
    && (forall claims, key, now :: JoseRefuses(claims, now) ==> c.decode(c.encode(claims, key), key, now) == None)
    && (forall token, key, now :: c.decode(token, key, now).Some? ==>
          var p := c.decode(token, key, now).value; "sub" in p ==> p["sub"].Str?)
    && (forall claims, key :: |c.encode(claims, key)| > 0)
  }

  /** The expiry of a token issued at `now`: a truthy delta is added to `now`; no delta, or a zero
      (falsy) delta, gives the 30-minute default. */
  function ExpiryTime(now: int, expiresDelta: Option<int>): (exp: int)
    ensures expiresDelta.Some? && expiresDelta.value != 0 ==> exp == now + expiresDelta.value
    ensures expiresDelta.None? || expiresDelta.value == 0 ==> exp == now + 30 * 60
  {
    if expiresDelta.Some? && expiresDelta.value != 0 then now + expiresDelta.value else now + DefaultTtl
  }

  /** The claim set `create_access_token` encodes: a copy of the caller's claims with `exp` added or
      overwritten. The caller's map is a value and is not changed. */
  function TokenClaims(data: Claims, now: int, expiresDelta: Option<int>): (r: Claims)
    ensures r.Keys == data.Keys + {"exp"}
    ensures r["exp"] == Int(ExpiryTime(now, expiresDelta))
    ensures forall k :: k in data && k != "exp" ==> r[k] == data[k]
  {
    data["exp" := Int(ExpiryTime(now, expiresDelta))]
  }

  /** `create_access_token`: the encoding of TokenClaims; what decoding it gives back is
      IssuedTokenVerifies. */
  function CreateAccessToken(codec: JwtCodec, key: SecretKey, data: Claims, now: int, expiresDelta: Option<int>): (token: string)
    ensures SoundCodec(codec) ==> |token| > 0
  {
    codec.encode(TokenClaims(data, now, expiresDelta), key)
  }

  /** The 401 `verify_token` raises, with the Bearer challenge of section 3 of RFC 6750. */
  const InvalidCredentials: HttpError :=
    HttpError(Unauthorized, "Invalid authentication credentials", map["WWW-Authenticate" := "Bearer"])

  /** `verify_token`: the decoded payload, or the one 401 carrying a Bearer challenge. */
  function VerifyToken(codec: JwtCodec, key: SecretKey, token: string, now: int): (r: Result<Claims, HttpError>)
    ensures r.Success? <==> codec.decode(token, key, now).Some?
    ensures r.Success? ==> Some(r.value) == codec.decode(token, key, now)
    ensures r.Failure? ==> r.error == InvalidCredentials
  {
    match codec.decode(token, key, now)
    case Some(payload) => Success(payload)
    case None => Failure(InvalidCredentials)
  }

  /** A token this module issued for claims python-jose accepts verifies, at any time up to its
      expiry, to exactly the claims it was issued with, and is rejected with the Bearer 401 after it. */
  lemma IssuedTokenVerifies(codec: JwtCodec, key: SecretKey, data: Claims, issuedAt: int, expiresDelta: Option<int>, now: int)
    requires SoundCodec(codec)
    requires RegisteredClaimsOk(data, now)
    ensures var token := CreateAccessToken(codec, key, data, issuedAt, expiresDelta);
      && |token| > 0
      && (now <= ExpiryTime(issuedAt, expiresDelta) ==>
            VerifyToken(codec, key, token, now) == Success(TokenClaims(data, issuedAt, expiresDelta)))
      && (now > ExpiryTime(issuedAt, expiresDelta) ==>
            VerifyToken(codec, key, token, now) == Failure(InvalidCredentials))
  {
    var claims := TokenClaims(data, issuedAt, expiresDelta);
    assert RegisteredClaimsOk(claims, now);
    if now <= ExpiryTime(issuedAt, expiresDelta) {
      assert JoseAccepts(claims, now);
      assert codec.decode(codec.encode(claims, key), key, now) == Some(claims);
    } else {
      assert JoseRefuses(claims, now);
      assert codec.decode(codec.encode(claims, key), key, now) == None;
    }
  }

  /** A token issued with a `sub` that is not a string never verifies: python-jose refuses it. */
  lemma NonStringSubjectRefused(codec: JwtCodec, key: SecretKey, data: Claims, issuedAt: int, expiresDelta: Option<int>, now: int)
    requires SoundCodec(codec)
    requires "sub" in data && !data["sub"].Str?
    ensures VerifyToken(codec, key, CreateAccessToken(codec, key, data, issuedAt, expiresDelta), now) == Failure(InvalidCredentials)
  {
    assert JoseRefuses(TokenClaims(data, issuedAt, expiresDelta), now);
  }

  /** Issuing for a subject carries it in `sub` (section 4.1.2 of RFC 7519) unchanged. */
  lemma IssuedSubject(data: Claims, now: int, expiresDelta: Option<int>, subject: string)
    requires "sub" in data && data["sub"] == Str(subject)
    ensures "sub" in TokenClaims(data, now, expiresDelta)
    ensures TokenClaims(data, now, expiresDelta)["sub"] == Str(subject)
  {
  }
}
