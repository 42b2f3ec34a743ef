/**
 * The HTTP handlers of the user and token routers. A handler's answer is a `Result`: `Ok` is the
 * body or the response the handler returns, `Err` the exception that leaves it, which the
 * framework turns into the status `StatusCode` gives.
 */
module Routes {
  import opened Wrappers
  import opened Env
  import opened Models
  import opened Security
  import opened Http
  import opened Schemas
  import opened Repository
  import opened Service

  // ---------------------------------------------------------------- user router

  /**
   * GET /{user_id}/: the stored user, shaped by the `BaseUserSchema` response model; 404 when no
   * user has the id, and a validation failure (500) when the stored username is too short for
   * the response model.
   */
  function GetUserById(service: UserService, userId: int): (r: Result<BaseUserSchema>)
    reads service.repo
    requires service.repo.Valid()
    ensures r.Ok? <==> userId in service.repo.users && |service.repo.users[userId].username| >= 4
    ensures r.Ok? ==> r.value == BaseUserSchema(service.repo.users[userId].username)
    ensures userId !in service.repo.users ==> r == Err(HttpException(404, "User not found"))
    ensures userId in service.repo.users && |service.repo.users[userId].username| < 4 ==>
            r.Err? && StatusCode(r.error) == 500
  {
    var dbUser :- service.GetOr404(Some(userId));
    ValidateBaseUser(dbUser.username)
  }

  /**
   * POST /create/: the body is validated against `UserCreateSchema` (422 with every problem when
   * it fails, and nothing stored); a valid body goes to the service, which stores the user.
   */
  method CreateUser(service: UserService, username: string, password: string, passwordRetry: string,
                    hasher: PasswordHasher) returns (r: Result<BaseUserSchema>)
    requires service.repo.Valid()
    modifies service.repo
    ensures service.repo.Valid()
    ensures !IsValidUserCreate(UserCreateSchema(username, password, passwordRetry)) ==>
              && r.Err? && r.error.RequestValidationError? && StatusCode(r.error) == 422
              && r.error.problems == ValidateUserCreate(username, password, passwordRetry).error.problems
              && service.repo.users == old(service.repo.users)
    ensures r.Ok? <==>
              && IsValidUserCreate(UserCreateSchema(username, password, passwordRetry))
              && Admissible(old(service.repo.users), NewUser(old(service.repo.nextId), username, hasher.getPasswordHash(password)))
    ensures IsValidUserCreate(UserCreateSchema(username, password, passwordRetry)) &&
            !Admissible(old(service.repo.users), NewUser(old(service.repo.nextId), username, hasher.getPasswordHash(password))) ==>
              r.Err? && r.error.DatabaseError? && StatusCode(r.error) == 500
    ensures r.Err? ==> service.repo.nextId == old(service.repo.nextId)
    ensures r.Ok? ==> r.value == BaseUserSchema(username)
    ensures r.Ok? ==>
              exists id :: id !in old(service.repo.users) &&
                service.repo.users == old(service.repo.users)[id := NewUser(id, username, hasher.getPasswordHash(password))]
    ensures r.Err? ==> service.repo.users == old(service.repo.users)
    ensures service.repo.groups == old(service.repo.groups) && service.repo.memberships == old(service.repo.memberships)
  {
    var body := ValidateUserCreate(username, password, passwordRetry);
    if body.Err? {
      r := Err(RequestValidationError(body.error.problems));
      return;
    }
    r := service.CreateUser(body.value, hasher);
  }

  /** PATCH /{user_id}/: the fields set in the request body go to the service's update. */
  method UpdateUser(service: UserService, updateFields: seq<Kwarg>, userId: int) returns (r: Result<BaseUserSchema>)
    requires service.repo.Valid()
    modifies service.repo
    ensures service.repo.Valid()
    ensures userId !in old(service.repo.users) ==>
              r == Err(HttpException(404, "User not found")) && service.repo.users == old(service.repo.users)
    ensures userId in old(service.repo.users) ==>
              var merged := Merged(old(service.repo.users)[userId], updateFields);
              if Admissible(old(service.repo.users), merged) then
                service.repo.users == old(service.repo.users)[userId := merged] && r == ValidateBaseUser(merged.username)
              else
                service.repo.users == old(service.repo.users) && r.Err? && StatusCode(r.error) == 500
    ensures service.repo.groups == old(service.repo.groups) && service.repo.memberships == old(service.repo.memberships)
    ensures service.repo.nextId == old(service.repo.nextId)
  {
    r := service.UpdateUser(userId, updateFields);
  }

  /** DELETE /{user_id}/: the user is deactivated (not removed) and the answer is true; 404 for an unknown id. */
  method DeactivateUser(service: UserService, userId: int) returns (r: Result<bool>)
    requires service.repo.Valid()
    modifies service.repo
    ensures service.repo.Valid()
    ensures r.Ok? <==> userId in old(service.repo.users)
    ensures r.Ok? ==> r.value && service.repo.users.Keys == old(service.repo.users.Keys) &&
                      service.repo.users == old(service.repo.users)[userId := old(service.repo.users)[userId].(isActive := false)]
    ensures r.Err? ==> r == Err(HttpException(404, "User not found")) && service.repo.users == old(service.repo.users)
    ensures service.repo.groups == old(service.repo.groups) && service.repo.memberships == old(service.repo.memberships)
    ensures service.repo.nextId == old(service.repo.nextId)
  {
    r := service.DeactivateUser(userId);
  }

  // ---------------------------------------------------------------- token router

  /**
   * POST /token/create/: a login body with a username shorter than 4 characters is a 422;
   * otherwise the credentials are checked (404 unknown user, 401 wrong password) and, when they
   * pass, the response sets an `access` and a `refresh` cookie holding the two tokens issued for
   * that stored user.
   */
  method CreateToken(service: UserService, username: string, password: string, hasher: PasswordHasher,
                     now: int, auth: AuthSettings, signer: Signer) returns (r: Result<Response>)
    requires service.repo.Valid()
    ensures |username| < 4 ==> r == Err(RequestValidationError([TooShort("username", 4)]))
    ensures |username| >= 4 ==>
              var login := service.GetUserByCredentials(UserLoginSchema(username, password), hasher);
              && (login.Err? ==> r == Err(login.error))
              && (login.Ok? ==> (r.Ok? <==> EncodeTokenData(login.value, true, now, auth, signer).Ok?))
              && (login.Ok? && EncodeTokenData(login.value, true, now, auth, signer).Err? ==>
                    r == Err(HttpException(403, "Incorrect token data")))
    ensures r.Err? ==> StatusCode(r.error) in {422, 404, 401, 403}
    ensures r.Ok? ==>
              exists id :: id in service.repo.users && service.repo.users[id].username == username &&
                hasher.verifyPassword(password, service.repo.users[id].password) &&
                var claims := SubjectClaims(service.repo.users[id]);
                && CookieFor(r.value.cookies, "access") ==
                   Some(Cookie("access", Security.CreateToken(claims, Access, now, auth, signer).value, Lifetime(Access, auth), true, Lax, false))
                && CookieFor(r.value.cookies, "refresh") ==
                   Some(Cookie("refresh", Security.CreateToken(claims, Refresh, now, auth, signer).value, Lifetime(Refresh, auth), true, Lax, false))
    ensures r.Ok? ==> r.value.statusCode == 200
  {
    var credentials := ValidateUserLogin(username, password);
    if credentials.Err? {
      r := Err(RequestValidationError(credentials.error.problems));
      return;
    }
    var dbUser :- service.GetUserByCredentials(credentials.value, hasher);
    var tokenSchema :- EncodeTokenData(dbUser, true, now, auth, signer);
    var response := GenerateCookieResponse(tokenSchema, auth);
    r := Ok(response);
  }

  /** `request.cookies.get(key)`: the cookie the request carries under that name, if any. */
  function RequestCookie(cookies: map<string, string>, key: string): (r: Option<string>)
    ensures r.Some? <==> key in cookies
    ensures r.Some? ==> r.value == cookies[key]
  {
    if key in cookies then Some(cookies[key]) else None
  }

  /**
   * `decoded.get('sub')` used as a primary key: the integer the token names; a missing `sub`,
   * or one that is not an integer, matches no row.
   */
  function SubjectId(claims: Claims): (r: Option<int>)
    ensures r.Some? <==> "sub" in claims && claims["sub"].Int?
    ensures r.Some? ==> claims["sub"] == Int(r.value)
  {
    if "sub" in claims && claims["sub"].Int? then Some(claims["sub"].n) else None
  }

  /**
   * A Python call of `decode_token`, a static method of one parameter, with `extraArguments`
   * positional arguments after the token: with none it decodes; with any more the call itself
   * raises `TypeError` before the body runs.
   */
  function CallDecodeToken(token: Option<string>, extraArguments: nat, now: int, auth: AuthSettings, signer: Signer): (r: Result<Claims>)
    ensures extraArguments == 0 ==> r == DecodeToken(token, now, auth, signer)
    ensures extraArguments > 0 ==> r.Err? && r.error.TypeError? && StatusCode(r.error) == 500
  {
    if extraArguments == 0 then DecodeToken(token, now, auth, signer)
    else
      Err(TypeError("JwtToken.decode_token() takes 1 positional argument but " +
                    NatToString(1 + extraArguments) + " were given"))
  }

  /**
   * The body of the refresh handler, with `extraArguments` arguments passed to `decode_token`
   * after the cookie: decode the `refresh` cookie, look up the user its `sub` names, and encode
   * an access token only.
   */
  function RefreshHandler(cookies: map<string, string>, extraArguments: nat, service: UserService,
                          now: int, auth: AuthSettings, signer: Signer): (r: Result<JwtTokenSchema>)
    reads service.repo
    requires service.repo.Valid()
    ensures extraArguments > 0 ==> r.Err? && r.error.TypeError?
    ensures extraArguments == 0 && r.Err? ==> StatusCode(r.error) in {403, 404}
    ensures r.Ok? ==> extraArguments == 0 && r.value.refresh.None?
  {
    var decodedRefreshToken :- CallDecodeToken(RequestCookie(cookies, "refresh"), extraArguments, now, auth, signer);
    var dbUser :- service.GetOr404(SubjectId(decodedRefreshToken));
    EncodeTokenData(dbUser, false, now, auth, signer)
  }

  /**
   * POST /token/refresh/ as written: the token type is passed to `decode_token` as a second
   * argument.
   */
  function RefreshTokensAsWritten(cookies: map<string, string>, service: UserService,
                                  now: int, auth: AuthSettings, signer: Signer): (r: Result<JwtTokenSchema>)
    reads service.repo
    requires service.repo.Valid()
    ensures r.Err? && r.error.TypeError? && StatusCode(r.error) == 500
  {
    RefreshHandler(cookies, 1, service, now, auth, signer)
  }

  /**
   * Every refresh request fails with a server error under the handler as written, whatever the
   * cookies, the users and the signer: no refresh token is ever accepted.
   */
  lemma RefreshAsWrittenAlwaysFails(cookies: map<string, string>, service: UserService,
                                    now: int, auth: AuthSettings, signer: Signer)
    requires service.repo.Valid()
    ensures RefreshTokensAsWritten(cookies, service, now, auth, signer) ==
            Err(TypeError("JwtToken.decode_token() takes 1 positional argument but 2 were given"))
    ensures StatusCode(RefreshTokensAsWritten(cookies, service, now, auth, signer).error) == 500
  {
    assert NatToString(2) == "2";
  }

  /**
   * POST /token/refresh/ as intended, `decode_token` called with the cookie alone: decode the
   * `refresh` cookie (403 "Incorrect token" exactly when it is missing or does not decode), look
   * up the user its `sub` names (404 exactly when there is none), and issue a new access token
   * only (403 "Incorrect token data" exactly when that fails to sign).
   */
  function RefreshTokens(cookies: map<string, string>, service: UserService,
                         now: int, auth: AuthSettings, signer: Signer): (r: Result<JwtTokenSchema>)
    reads service.repo
    requires service.repo.Valid()
    ensures var decoded := DecodeToken(RequestCookie(cookies, "refresh"), now, auth, signer);
            r == Err(HttpException(403, "Incorrect token")) <==> decoded.Err?
    ensures var decoded := DecodeToken(RequestCookie(cookies, "refresh"), now, auth, signer);
            r == Err(HttpException(404, "User not found")) <==>
              decoded.Ok? && !(SubjectId(decoded.value).Some? && SubjectId(decoded.value).value in service.repo.users)
    ensures var decoded := DecodeToken(RequestCookie(cookies, "refresh"), now, auth, signer);
            r.Ok? <==>
              && decoded.Ok? && SubjectId(decoded.value).Some? && SubjectId(decoded.value).value in service.repo.users
              && Security.CreateToken(SubjectClaims(service.repo.users[SubjectId(decoded.value).value]), Access, now, auth, signer).Ok?
    ensures r.Ok? ==> r.value.refresh.None?
    ensures r.Ok? ==>
              exists claims :: DecodeToken(RequestCookie(cookies, "refresh"), now, auth, signer) == Ok(claims) &&
                SubjectId(claims).Some? && SubjectId(claims).value in service.repo.users &&
                Security.CreateToken(SubjectClaims(service.repo.users[SubjectId(claims).value]), Access, now, auth, signer).Ok? &&
                r.value.access == Security.CreateToken(SubjectClaims(service.repo.users[SubjectId(claims).value]), Access, now, auth, signer).value
    ensures r.Err? ==> r.error in {HttpException(403, "Incorrect token"), HttpException(404, "User not found"),
                                   HttpException(403, "Incorrect token data")}
  {
    RefreshHandler(cookies, 0, service, now, auth, signer)
  }

  /**
   * The response of the corrected refresh handler (`RefreshTokens`): a new `access` cookie, and
   * no `refresh` cookie. The handler as written fails before it reaches `generate_cookie_response`.
   */
  method RefreshToken(cookies: map<string, string>, service: UserService,
                      now: int, auth: AuthSettings, signer: Signer) returns (r: Result<Response>)
    requires service.repo.Valid()
    ensures r.Ok? <==> RefreshTokens(cookies, service, now, auth, signer).Ok?
    ensures r.Err? ==> r.error == RefreshTokens(cookies, service, now, auth, signer).error
    ensures r.Ok? ==>
              && CookieFor(r.value.cookies, "access") ==
                 Some(Cookie("access", RefreshTokens(cookies, service, now, auth, signer).value.access, Lifetime(Access, auth), true, Lax, false))
              && CookieFor(r.value.cookies, "refresh").None?
              && r.value.statusCode == 200
  {
    var tokenSchema :- RefreshTokens(cookies, service, now, auth, signer);
    var response := GenerateCookieResponse(tokenSchema, auth);
    r := Ok(response);
  }

  /** POST /token/delete/: expire both cookies; no token is revoked. */
  method DeleteToken() returns (response: Response)
    ensures CookieFor(response.cookies, "access") == Some(Expired("access"))
    ensures CookieFor(response.cookies, "refresh") == Some(Expired("refresh"))
    ensures forall c :: c in response.cookies ==> c.value == "" && c.maxAge == 0 && c.expiresNow
    ensures response.statusCode == 200
  {
    response := new Response();
    response.DeleteCookie("access");
    response.DeleteCookie("refresh");
  }

  // ---------------------------------------------------------------- flows across handlers

  /**
   * The refresh token a login sets, sent back before it expires, gets a new access token for
   * the same stored user: exactly the one `encode_token_data(user, False)` issues at that time.
   */
  lemma LoginThenRefresh(service: UserService, user: User, issued: int, now: int, auth: AuthSettings, signer: Signer)
    requires service.repo.Valid()
    requires user.id in service.repo.users && service.repo.users[user.id] == user
    requires SignerContract(signer, auth.secretKey, auth.algorithm)
    requires EncodeTokenData(user, true, issued, auth, signer).Ok?
    requires now < issued + Lifetime(Refresh, auth)
    ensures var refreshToken := EncodeTokenData(user, true, issued, auth, signer).value.refresh.value;
            RefreshTokens(map["refresh" := refreshToken], service, now, auth, signer) ==
            EncodeTokenData(user, false, now, auth, signer)
  {
    var refreshToken := EncodeTokenData(user, true, issued, auth, signer).value.refresh.value;
    DecodeCreatedToken(SubjectClaims(user), Refresh, issued, now, auth, signer);
    var decoded := DecodeToken(RequestCookie(map["refresh" := refreshToken], "refresh"), now, auth, signer);
    assert decoded == Ok(TokenPayload(SubjectClaims(user), Refresh, issued, auth));
    assert SubjectId(decoded.value) == Some(user.id);
  }

  /**
   * Because decoding ignores the `type` claim, an unexpired ACCESS token placed in the refresh
   * cookie is accepted just the same and yields a new access token.
   */
  lemma RefreshAcceptsAccessToken(service: UserService, user: User, issued: int, now: int, auth: AuthSettings, signer: Signer)
    requires service.repo.Valid()
    requires user.id in service.repo.users && service.repo.users[user.id] == user
    requires SignerContract(signer, auth.secretKey, auth.algorithm)
    requires EncodeTokenData(user, false, issued, auth, signer).Ok?
    requires now < issued + Lifetime(Access, auth)
    ensures var accessToken := EncodeTokenData(user, false, issued, auth, signer).value.access;
            RefreshTokens(map["refresh" := accessToken], service, now, auth, signer) ==
            EncodeTokenData(user, false, now, auth, signer)
  {
    var accessToken := EncodeTokenData(user, false, issued, auth, signer).value.access;
    DecodeCreatedToken(SubjectClaims(user), Access, issued, now, auth, signer);
    var decoded := DecodeToken(RequestCookie(map["refresh" := accessToken], "refresh"), now, auth, signer);
    assert decoded == Ok(TokenPayload(SubjectClaims(user), Access, issued, auth));
    assert SubjectId(decoded.value) == Some(user.id);
  }

  /** Without a refresh cookie the corrected handler answers 403, under the signer's contract. */
  lemma RefreshWithoutCookie(cookies: map<string, string>, service: UserService, now: int, auth: AuthSettings, signer: Signer)
    requires service.repo.Valid()
    requires "refresh" !in cookies
    requires SignerContract(signer, auth.secretKey, auth.algorithm)
    ensures RefreshTokens(cookies, service, now, auth, signer) == Err(HttpException(403, "Incorrect token"))
  {
    DecodeAbsentToken(now, auth, signer);
  }

  /**
   * Registration is refused by the database only for the username: the password column holds
   * the hash, whose length is fixed, so a password of any length (the 300 characters of the
   * registration tests included) is stored once the schema accepts it.
   */
  lemma RegistrationAdmissible(users: map<int, User>, id: int, username: string, password: string, hasher: PasswordHasher)
    requires HasherContract(hasher)
    requires id !in users
    ensures Admissible(users, NewUser(id, username, hasher.getPasswordHash(password))) <==>
            |username| <= UsernameLength && forall other :: other in users ==> users[other].username != username
  {
  }

  /**
   * Login does not look at `is_active`: a deactivated user with the right password still gets
   * tokens exactly as an active one would.
   */
  lemma DeactivatedUserCanStillLogIn(service: UserService, id: int, password: string, hasher: PasswordHasher)
    requires service.repo.Valid()
    requires id in service.repo.users && !service.repo.users[id].isActive
    requires hasher.verifyPassword(password, service.repo.users[id].password)
    ensures service.GetUserByCredentials(UserLoginSchema(service.repo.users[id].username, password), hasher)
            == Ok(service.repo.users[id])
  {
    var login := service.GetUserByCredentials(UserLoginSchema(service.repo.users[id].username, password), hasher);
    assert login.Ok?;
    UsernameIsKey(service.repo.users, id, login.value.id);
  }

  /**
   * Registration followed by login: once POST /create/ has stored a user, the same username and
   * password pass the credentials check, provided the hasher verifies its own hashes.
   */
  method RegisterThenLogin(service: UserService, username: string, password: string, hasher: PasswordHasher)
    returns (registered: Result<BaseUserSchema>)
    requires service.repo.Valid()
    requires HasherContract(hasher)
    modifies service.repo
    ensures service.repo.Valid()
    ensures registered.Ok? ==> service.GetUserByCredentials(UserLoginSchema(username, password), hasher).Ok?
  {
    registered := CreateUser(service, username, password, password, hasher);
    if registered.Ok? {
      ghost var id :| id !in old(service.repo.users) &&
                service.repo.users == old(service.repo.users)[id := NewUser(id, username, hasher.getPasswordHash(password))];
      assert service.repo.users[id].username == username;
      assert hasher.verifyPassword(password, service.repo.users[id].password);
    }
  }
}
