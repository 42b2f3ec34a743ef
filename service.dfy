/**
 * The user service (lookups, login check, create, update, deactivate over the repository) and
 * the token service (the pair of tokens for a user, and the response that carries them as
 * cookies).
 */
module Service {
  import opened Wrappers
  import opened Env
  import opened Models
  import opened Security
  import opened Http
  import opened Schemas
  import opened Repository

  class UserService {
    const repo: UserRepository

    constructor (repo: UserRepository)
      ensures this.repo == repo
    {
      this.repo := repo;
    }

    /**
     * `get_user_by_credentials`: 404 when no user has the username, 401 when the user's stored
     * hash does not verify the password, and otherwise the stored user with that username.
     */
    function GetUserByCredentials(credentials: UserLoginSchema, hasher: PasswordHasher): (r: Result<User>)
      reads repo
      requires repo.Valid()
      ensures r == Err(HttpException(404, "User not found")) <==>
              forall id :: id in repo.users ==> repo.users[id].username != credentials.username
      ensures r == Err(HttpException(401, "Incorrect credentials")) <==>
              exists id :: id in repo.users && repo.users[id].username == credentials.username &&
                           !hasher.verifyPassword(credentials.password, repo.users[id].password)
      ensures r.Ok? <==>
              exists id :: id in repo.users && repo.users[id].username == credentials.username &&
                           hasher.verifyPassword(credentials.password, repo.users[id].password)
      ensures r.Ok? ==> r.value.id in repo.users && repo.users[r.value.id] == r.value
      ensures r.Ok? ==> r.value.username == credentials.username
    {
      match repo.GetUserByUsername(credentials.username)
      case None => Err(HttpException(404, "User not found"))
      case Some(dbUser) =>
        if !hasher.verifyPassword(credentials.password, dbUser.password) then
          Err(HttpException(401, "Incorrect credentials"))
        else
          Ok(dbUser)
    }

    /**
     * An unknown username fails the same way whatever the password hasher would answer: the
     * hasher is not consulted.
     */
    lemma UnknownUserIgnoresHasher(credentials: UserLoginSchema, h1: PasswordHasher, h2: PasswordHasher)
      requires repo.Valid()
      requires forall id :: id in repo.users ==> repo.users[id].username != credentials.username
      ensures GetUserByCredentials(credentials, h1) == GetUserByCredentials(credentials, h2)
                                                    == Err(HttpException(404, "User not found"))
    {
    }

    /** `_get_or_404`: the user with that id, or 404 when there is none. */
    function GetOr404(userId: Option<int>): (r: Result<User>)
      reads repo
      requires repo.Valid()
      ensures r.Ok? <==> userId.Some? && userId.value in repo.users
      ensures r.Ok? ==> r.value == repo.users[userId.value] && r.value.id == userId.value
      ensures r.Err? ==> r.error == HttpException(404, "User not found")
    {
      match repo.GetUser(userId)
      case None => Err(HttpException(404, "User not found"))
      case Some(dbUser) => Ok(dbUser)
    }

    /**
     * `create_user`: store a new user holding the username and the HASH of the password (never
     * the password itself), and answer with its public view.
     */
    method CreateUser(userData: UserCreateSchema, hasher: PasswordHasher) returns (r: Result<BaseUserSchema>)
      requires repo.Valid() && IsValidUserCreate(userData)
      modifies repo
      ensures repo.Valid()
      ensures r.Ok? <==>
              Admissible(old(repo.users), NewUser(old(repo.nextId), userData.username, hasher.getPasswordHash(userData.password)))
      ensures r.Ok? ==> r.value == BaseUserSchema(userData.username)
      ensures r.Ok? ==> exists id :: id !in old(repo.users) &&
                          repo.users == old(repo.users)[id := NewUser(id, userData.username, hasher.getPasswordHash(userData.password))]
      ensures r.Err? ==> r.error.DatabaseError? && repo.users == old(repo.users) && repo.nextId == old(repo.nextId)
      ensures repo.groups == old(repo.groups) && repo.memberships == old(repo.memberships)
    {
      var passwordHash := hasher.getPasswordHash(userData.password);
      var user :- repo.CreateUser(userData.username, passwordHash);
      r := ValidateBaseUser(user.username);
    }

    /**
     * `update_user`: 404 for an unknown id; otherwise the stored row becomes the merge of the
     * supplied fields into it (when the database accepts it), and the answer is its public view.
     */
    method UpdateUser(userId: int, updateFields: seq<Kwarg>) returns (r: Result<BaseUserSchema>)
      requires repo.Valid()
      modifies repo
      ensures repo.Valid()
      ensures userId !in old(repo.users) ==> r == Err(HttpException(404, "User not found")) && repo.users == old(repo.users)
      ensures userId in old(repo.users) ==>
                var merged := Merged(old(repo.users)[userId], updateFields);
                if Admissible(old(repo.users), merged) then
                  repo.users == old(repo.users)[userId := merged] && r == ValidateBaseUser(merged.username)
                else
                  repo.users == old(repo.users) && r.Err? && r.error.DatabaseError?
      ensures repo.groups == old(repo.groups) && repo.memberships == old(repo.memberships)
      ensures repo.nextId == old(repo.nextId)
    {
      var dbUser :- GetOr404(Some(userId));
      var updated :- repo.UpdateUser(dbUser, updateFields);
      r := ValidateBaseUser(updated.username);
    }

    /** `deactivate_user`: 404 for an unknown id; otherwise clear the user's active flag and answer true. */
    method DeactivateUser(userId: int) returns (r: Result<bool>)
      requires repo.Valid()
      modifies repo
      ensures repo.Valid()
      ensures r.Ok? <==> userId in old(repo.users)
      ensures r.Ok? ==> r.value && repo.users == old(repo.users)[userId := old(repo.users)[userId].(isActive := false)]
      ensures r.Err? ==> r.error == HttpException(404, "User not found") && repo.users == old(repo.users)
      ensures repo.groups == old(repo.groups) && repo.memberships == old(repo.memberships)
      ensures repo.nextId == old(repo.nextId)
    {
      var dbUser :- GetOr404(Some(userId));
      var isDeactivated := repo.DeactivateUser(dbUser);
      r := Ok(isDeactivated);
    }
  }

  // ---------------------------------------------------------------- token service

  /** The pair of tokens handed to the cookie step; `refresh` is None when none was issued. */
  datatype JwtTokenSchema = JwtTokenSchema(access: string, refresh: Option<string>)

  /** The claims both tokens of a user are built from. */
  function SubjectClaims(user: User): Claims {
    map["username" := Str(user.username), "sub" := Int(user.id)]
  }

  /**
   * `encode_token_data`: an access token always, and a refresh token exactly when asked for,
   * both from the user's claims. Failing to sign either is a 403 "Incorrect token data".
   */
  function EncodeTokenData(user: User, hasRefresh: bool, now: int, auth: AuthSettings, signer: Signer): (r: Result<JwtTokenSchema>)
    ensures r.Ok? <==> CreateToken(SubjectClaims(user), Access, now, auth, signer).Ok? &&
                       (hasRefresh ==> CreateToken(SubjectClaims(user), Refresh, now, auth, signer).Ok?)
    ensures r.Ok? ==> r.value.access == CreateToken(SubjectClaims(user), Access, now, auth, signer).value
    ensures r.Ok? ==> (r.value.refresh.Some? <==> hasRefresh)
    ensures r.Ok? && hasRefresh ==> r.value.refresh.value == CreateToken(SubjectClaims(user), Refresh, now, auth, signer).value
    ensures r.Err? ==> r.error == HttpException(403, "Incorrect token data")
  {
    var accessToken :- CreateToken(SubjectClaims(user), Access, now, auth, signer);
    if hasRefresh then
      var refreshToken :- CreateToken(SubjectClaims(user), Refresh, now, auth, signer);
      Ok(JwtTokenSchema(accessToken, Some(refreshToken)))
    else
      Ok(JwtTokenSchema(accessToken, None))
  }

  /**
   * Both tokens name the same user: decoded before they expire, each gives back the user's
   * username and id as `username` and `sub`, and its own type.
   */
  lemma IssuedTokensNameUser(user: User, hasRefresh: bool, issued: int, now: int, auth: AuthSettings, signer: Signer)
    requires SignerContract(signer, auth.secretKey, auth.algorithm)
    requires EncodeTokenData(user, hasRefresh, issued, auth, signer).Ok?
    requires now < issued + Lifetime(Access, auth) && now < issued + Lifetime(Refresh, auth)
    ensures var tokens := EncodeTokenData(user, hasRefresh, issued, auth, signer).value;
            var access := DecodeToken(Some(tokens.access), now, auth, signer);
            && access.Ok?
            && access.value == map["username" := Str(user.username), "sub" := Int(user.id),
                                   "type" := Str("Access"), "exp" := Int(issued + Lifetime(Access, auth))]
    ensures var tokens := EncodeTokenData(user, hasRefresh, issued, auth, signer).value;
            tokens.refresh.Some? ==>
              var refresh := DecodeToken(Some(tokens.refresh.value), now, auth, signer);
              && refresh.Ok?
              && refresh.value == map["username" := Str(user.username), "sub" := Int(user.id),
                                      "type" := Str("Refresh"), "exp" := Int(issued + Lifetime(Refresh, auth))]
  {
    var claims := SubjectClaims(user);
    DecodeCreatedToken(claims, Access, issued, now, auth, signer);
    var payload := TokenPayload(claims, Access, issued, auth);
    assert payload == map["username" := Str(user.username), "sub" := Int(user.id),
                          "type" := Str("Access"), "exp" := Int(issued + Lifetime(Access, auth))];
    if hasRefresh {
      DecodeCreatedToken(claims, Refresh, issued, now, auth, signer);
      var payload' := TokenPayload(claims, Refresh, issued, auth);
      assert payload' == map["username" := Str(user.username), "sub" := Int(user.id),
                             "type" := Str("Refresh"), "exp" := Int(issued + Lifetime(Refresh, auth))];
    }
  }

  /** Python truthiness of the optional refresh token: present and not empty. */
  predicate Truthy(token: Option<string>) {
    token.Some? && token.value != ""
  }

  /**
   * `generate_cookie_response`: a response that sets the `access` cookie always and the
   * `refresh` cookie only when a refresh token is present, each HTTP-only with SameSite=Lax and
   * a max-age equal to its token's lifetime. The response is returned as it is, so its status
   * is the default 200.
   */
  method GenerateCookieResponse(tokenSchema: JwtTokenSchema, auth: AuthSettings) returns (response: Response)
    ensures CookieFor(response.cookies, "access") ==
            Some(Cookie("access", tokenSchema.access, Lifetime(Access, auth), true, Lax, false))
    ensures CookieFor(response.cookies, "refresh").Some? <==> Truthy(tokenSchema.refresh)
    ensures Truthy(tokenSchema.refresh) ==>
              CookieFor(response.cookies, "refresh") ==
              Some(Cookie("refresh", tokenSchema.refresh.value, Lifetime(Refresh, auth), true, Lax, false))
    ensures |response.cookies| == if Truthy(tokenSchema.refresh) then 2 else 1
    ensures forall c :: c in response.cookies ==> c.httpOnly && c.sameSite == Lax && !c.expiresNow
    ensures response.statusCode == 200
  {
    response := new Response();
    response.SetCookie("access", tokenSchema.access, Lifetime(Access, auth), true, Lax);
    assert "refresh" != "access" by { assert "refresh"[0] != "access"[0]; }
    if Truthy(tokenSchema.refresh) {
      response.SetCookie("refresh", tokenSchema.refresh.value, Lifetime(Refresh, auth), true, Lax);
    }
  }

  /**
   * A cookie lives exactly as long as the token it carries: for the tokens issued for a user
   * at `issued` and any cookies set as `GenerateCookieResponse` sets them, the token in each
   * cookie decodes (before it expires) to an `exp` that is `issued` plus the cookie's max-age.
   */
  lemma CookieExpiresWithToken(user: User, issued: int, now: int, auth: AuthSettings, signer: Signer, cookies: seq<Cookie>)
    requires SignerContract(signer, auth.secretKey, auth.algorithm)
    requires EncodeTokenData(user, true, issued, auth, signer).Ok?
    requires now < issued + Lifetime(Access, auth) && now < issued + Lifetime(Refresh, auth)
    requires var tokens := EncodeTokenData(user, true, issued, auth, signer).value;
             && CookieFor(cookies, "access") == Some(Cookie("access", tokens.access, Lifetime(Access, auth), true, Lax, false))
             && CookieFor(cookies, "refresh") == Some(Cookie("refresh", tokens.refresh.value, Lifetime(Refresh, auth), true, Lax, false))
    ensures var access := CookieFor(cookies, "access").value;
            var decoded := DecodeToken(Some(access.value), now, auth, signer);
            decoded.Ok? && decoded.value["exp"] == Int(issued + access.maxAge)
    ensures var refresh := CookieFor(cookies, "refresh").value;
            var decoded := DecodeToken(Some(refresh.value), now, auth, signer);
            decoded.Ok? && decoded.value["exp"] == Int(issued + refresh.maxAge)
  {
    IssuedTokensNameUser(user, true, issued, now, auth, signer);
  }
}
