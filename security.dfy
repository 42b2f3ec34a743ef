/**
 * Token creation and decoding, and the password hasher. The signing library and the
 * password hashing library are collaborators: each is a pair of functions the model takes as
 * a parameter, with the contract the service relies on stated as a ghost predicate.
 */
module Security {
  import opened Wrappers
  import opened Env

  datatype TokenType = Access | Refresh

  /** The enum's value, stored in the `type` claim. */
  function TypeValue(t: TokenType): string {
    match t
    case Access => "Access"
    case Refresh => "Refresh"
  }

  /** A claim value: the service puts strings and integers in tokens. */
  datatype ClaimValue = Str(s: string) | Int(n: int)

  /** The claims dictionary of a token. */
  type Claims = map<string, ClaimValue>

  /** A compact signed token is never empty. */
  type Jwt = s: string | |s| > 0 witness "."

  /**
   * The signing library: `encode(claims, key, algorithm)` and `decode(token, key, algorithm, now)`;
   * None stands for a raised `jwt.PyJWTError`. A cookie that is absent reaches decode as None.
   */
  datatype Signer = Signer(
    encode: (Claims, string, string) -> Option<Jwt>,
    decode: (Option<string>, string, string, int) -> Option<Claims>)

  /** The `exp` claim is an integer later than `now`. */
  predicate Unexpired(c: Claims, now: int) {
    "exp" in c && c["exp"].Int? && now < c["exp"].n
  }

  /**
   * What the service assumes of the signing library under one key and algorithm: a token it
   * signed decodes, before its expiry, to exactly the claims it was given; and no token at all
   * never decodes.
   */
  ghost predicate SignerContract(s: Signer, key: string, algorithm: string) {
    && (forall c: Claims, now: int ::
          Unexpired(c, now) && s.encode(c, key, algorithm).Some? ==>
          s.decode(Some(s.encode(c, key, algorithm).value), key, algorithm, now) == Some(c))
    && (forall now: int :: s.decode(None, key, algorithm, now).None?)
  }

  /** The password hashing library: `hash(password)` and `verify(plain, hashed)`. */
  datatype PasswordHasher = PasswordHasher(
    getPasswordHash: string -> string,
    verifyPassword: (string, string) -> bool)

  /** A bcrypt hash, `$2b$` with the cost and the salted digest, is 60 characters whatever the password. */
  const BcryptHashLength := 60

  /**
   * What the service relies on of bcrypt: a password verifies against its own hash, and every
   * hash has bcrypt's fixed length.
   */
  ghost predicate HasherContract(h: PasswordHasher) {
    forall p: string :: |h.getPasswordHash(p)| == BcryptHashLength && h.verifyPassword(p, h.getPasswordHash(p))
  }

  /**
   * How long a token of each type lives, in seconds, under the given settings:
   * `timedelta(minutes=ACCESS_TOKEN_EXPIRE_MIN)` for Access and
   * `timedelta(days=REFRESH_TOKEN_EXPIRE_DAY)` for Refresh. The cookies' max-age uses the same
   * conversion.
   */
  function Lifetime(t: TokenType, auth: AuthSettings): int {
    match t
    case Access => auth.accessTokenExpireMin * 60
    case Refresh => auth.refreshTokenExpireDay * 60 * 60 * 24
  }

  /**
   * The dictionary `create_token` hands to the signer: a copy of the caller's claims with
   * `type` set to the type's value and `exp` set to `now` plus the type's lifetime. Every other
   * claim is the caller's, unchanged, and nothing else (no `iss`, `jti` or `iat`) is added.
   */
  function TokenPayload(tokenData: Claims, t: TokenType, now: int, auth: AuthSettings): (data: Claims)
    ensures data.Keys == tokenData.Keys + {"type", "exp"}
    ensures forall k :: k in tokenData && k != "type" && k != "exp" ==> data[k] == tokenData[k]
    ensures data["type"] == Str(TypeValue(t))
    ensures data["exp"] == Int(now + Lifetime(t, auth))
  {
    var data := tokenData;
    var data := data["type" := Str(TypeValue(t))];
    data["exp" := Int(now + Lifetime(t, auth))]
  }

  /** With valid settings a token of either type expires strictly after it is created. */
  lemma ExpiresAfterCreation(tokenData: Claims, t: TokenType, now: int, auth: AuthSettings)
    requires ValidAuth(auth)
    ensures Unexpired(TokenPayload(tokenData, t, now, auth), now)
  {
  }

  /**
   * `create_token`: sign the payload. A signing failure is a 403 "Incorrect token data";
   * no other failure comes out.
   */
  function CreateToken(tokenData: Claims, t: TokenType, now: int, auth: AuthSettings, signer: Signer): (r: Result<Jwt>)
    ensures r.Ok? <==> signer.encode(TokenPayload(tokenData, t, now, auth), auth.secretKey, auth.algorithm).Some?
    ensures r.Ok? ==> Some(r.value) == signer.encode(TokenPayload(tokenData, t, now, auth), auth.secretKey, auth.algorithm)
    ensures r.Err? ==> r.error == HttpException(403, "Incorrect token data")
  {
    match signer.encode(TokenPayload(tokenData, t, now, auth), auth.secretKey, auth.algorithm)
    case Some(token) => Ok(token)
    case None => Err(HttpException(403, "Incorrect token data"))
  }

  /**
   * `decode_token`: one argument, and no check of the `type` claim. A decoding failure is a
   * 403 "Incorrect token"; no other failure comes out.
   */
  function DecodeToken(token: Option<string>, now: int, auth: AuthSettings, signer: Signer): (r: Result<Claims>)
    ensures r.Ok? <==> signer.decode(token, auth.secretKey, auth.algorithm, now).Some?
    ensures r.Ok? ==> Some(r.value) == signer.decode(token, auth.secretKey, auth.algorithm, now)
    ensures r.Err? ==> r.error == HttpException(403, "Incorrect token")
  {
    match signer.decode(token, auth.secretKey, auth.algorithm, now)
    case Some(claims) => Ok(claims)
    case None => Err(HttpException(403, "Incorrect token"))
  }

  /**
   * Round trip: a token created at `issued` and decoded at `now` before its expiry gives back
   * the caller's claims plus the `type` of its creation: decoding does not look at the type,
   * so a token of either type decodes wherever the other is expected.
   */
  lemma DecodeCreatedToken(tokenData: Claims, t: TokenType, issued: int, now: int, auth: AuthSettings, signer: Signer)
    requires SignerContract(signer, auth.secretKey, auth.algorithm)
    requires CreateToken(tokenData, t, issued, auth, signer).Ok?
    requires now < issued + Lifetime(t, auth)
    ensures DecodeToken(Some(CreateToken(tokenData, t, issued, auth, signer).value), now, auth, signer)
            == Ok(TokenPayload(tokenData, t, issued, auth))
    ensures var c := DecodeToken(Some(CreateToken(tokenData, t, issued, auth, signer).value), now, auth, signer).value;
            c["type"] == Str(TypeValue(t)) &&
            forall k :: k in tokenData && k != "type" && k != "exp" ==> k in c && c[k] == tokenData[k]
  {
    var payload := TokenPayload(tokenData, t, issued, auth);
    assert Unexpired(payload, now);
    assert signer.encode(payload, auth.secretKey, auth.algorithm).Some?;
    assert signer.decode(Some(signer.encode(payload, auth.secretKey, auth.algorithm).value),
                         auth.secretKey, auth.algorithm, now) == Some(payload);
  }

  /** Decoding an absent token always fails with 403, under the signer's contract. */
  lemma DecodeAbsentToken(now: int, auth: AuthSettings, signer: Signer)
    requires SignerContract(signer, auth.secretKey, auth.algorithm)
    ensures DecodeToken(None, now, auth, signer) == Err(HttpException(403, "Incorrect token"))
  {
  }
}
