/** auth/user_auth.py: `get_current_user`, the gate in front of every task route. The token is read
    from the `access_token` cookie only; the decoded claims resolve to a stored user by username. */
module UserAuth {
  import opened Common
  import opened Models
  import opened Jwt
  import Crud

  const TokenNotFound: HttpError := HttpError(Unauthorized, "Token not found", map[])
  const CouldNotValidate: HttpError := HttpError(Unauthorized, "Could not validate credentials", map[])
  const InvalidToken: HttpError := HttpError(Unauthorized, "Invalid token", map[])
  const UserNotFound: HttpError := HttpError(Unauthorized, "User not found", map[])

  /** The username a claim value can name. Only a JSON string names one. */
  function SubjectName(v: ClaimValue): Option<string> {
    if v.Str? then Some(v.s) else None
  }

  /** `get_current_user`: a missing or empty cookie is refused before anything is decoded; a token
      that does not decode (bad signature, malformed, expired) is refused by the JWTError handler; a
      payload without `sub` is refused with its own 401, which passes through that handler; a `sub`
      naming no stored user is refused; otherwise the user is returned. */
  function GetCurrentUser(accessToken: Option<string>, codec: JwtCodec, key: SecretKey, now: int, users: seq<User>)
    : (r: Result<User, HttpError>)
    ensures r.Failure? ==> r.error.status == 401
    ensures r.Failure? ==> r.error in {TokenNotFound, CouldNotValidate, InvalidToken, UserNotFound}
    ensures accessToken.None? || accessToken == Some("") <==> r == Failure(TokenNotFound)
    ensures r == Failure(CouldNotValidate) <==>
      accessToken.Some? && accessToken.value != "" && codec.decode(accessToken.value, key, now).None?
    ensures r == Failure(InvalidToken) <==>
      && accessToken.Some? && accessToken.value != ""
      && codec.decode(accessToken.value, key, now).Some?
      && var payload := codec.decode(accessToken.value, key, now).value;
         "sub" !in payload || payload["sub"] == Null
    ensures r.Success? ==>
      && accessToken.Some?
      && codec.decode(accessToken.value, key, now).Some?
      && var payload := codec.decode(accessToken.value, key, now).value;
         "sub" in payload && payload["sub"] == Str(r.value.username) && r.value in users
  {
    if accessToken.None? || accessToken.value == "" then Failure(TokenNotFound)
    else
      match codec.decode(accessToken.value, key, now)
      case None => Failure(CouldNotValidate)
      case Some(payload) =>
        if "sub" !in payload || payload["sub"] == Null then Failure(InvalidToken)
        else
          var user := match SubjectName(payload["sub"])
                      case None => None
                      case Some(name) => Crud.GetUserByUsername(users, name);
          if user.None? then Failure(UserNotFound) else Success(user.value)
  }

  /** The four rejections are told apart by their detail. */
  lemma RejectionsDistinct()
    ensures |{TokenNotFound.detail, CouldNotValidate.detail, InvalidToken.detail, UserNotFound.detail}| == 4
  {
  }

  /** Without a token the gate answers the same whatever the codec and the store would say. */
  lemma MissingTokenNeverDecoded(accessToken: Option<string>, c1: JwtCodec, c2: JwtCodec, key: SecretKey, now: int,
                                 users1: seq<User>, users2: seq<User>)
    requires accessToken.None? || accessToken == Some("")
    ensures GetCurrentUser(accessToken, c1, key, now, users1) == GetCurrentUser(accessToken, c2, key, now, users2)
  {
  }

  /** Login followed by a request: a token issued for {"sub": username} of a stored user admits that
      user at any time up to its expiry, and is refused as "Could not validate credentials" after it. */
  lemma IssuedTokenAdmitsUser(codec: JwtCodec, key: SecretKey, users: seq<User>, u: User,
                              issuedAt: int, expiresDelta: Option<int>, now: int)
    requires SoundCodec(codec)
    requires UniqueUsernames(users) && u in users
    ensures var token := CreateAccessToken(codec, key, map["sub" := Str(u.username)], issuedAt, expiresDelta);
      && (now <= ExpiryTime(issuedAt, expiresDelta) ==> GetCurrentUser(Some(token), codec, key, now, users) == Success(u))
      && (now > ExpiryTime(issuedAt, expiresDelta) ==> GetCurrentUser(Some(token), codec, key, now, users) == Failure(CouldNotValidate))
  {
    IssuedTokenVerifies(codec, key, map["sub" := Str(u.username)], issuedAt, expiresDelta, now);
  }

  /** There is no revocation, but once the subject's user is gone (deleted, or renamed) the token
      admits no one. */
  lemma TokenOfRemovedUserRefused(codec: JwtCodec, key: SecretKey, users: seq<User>, name: string,
                                  issuedAt: int, expiresDelta: Option<int>, now: int)
    requires SoundCodec(codec)
    requires forall u :: u in users ==> u.username != name
    requires now <= ExpiryTime(issuedAt, expiresDelta)
    ensures GetCurrentUser(Some(CreateAccessToken(codec, key, map["sub" := Str(name)], issuedAt, expiresDelta)),
                           codec, key, now, users) == Failure(UserNotFound)
  {
    IssuedTokenVerifies(codec, key, map["sub" := Str(name)], issuedAt, expiresDelta, now);
  }

  /** A token whose `sub` is not a string (a number, say) never reaches the username lookup: the
      decoder refuses it, so it ends as "Could not validate credentials". */
  lemma NonStringSubjectTokenRefused(codec: JwtCodec, key: SecretKey, users: seq<User>, data: Claims,
                                     issuedAt: int, expiresDelta: Option<int>, now: int)
    requires SoundCodec(codec)
    requires "sub" in data && !data["sub"].Str?
    ensures GetCurrentUser(Some(CreateAccessToken(codec, key, data, issuedAt, expiresDelta)), codec, key, now, users)
         == Failure(CouldNotValidate)
  {
    NonStringSubjectRefused(codec, key, data, issuedAt, expiresDelta, now);
  }
}
