/**
 * The request and response schemas. pydantic first checks every field's own constraint and
 * reports all the fields that fail; only when all pass does a model validator run.
 */
module Schemas {
  import opened Wrappers

  const UsernameMinLength: nat := 4
  const PasswordMinLength: nat := 8

  datatype BaseUserSchema = BaseUserSchema(username: string)
  datatype UserCreateSchema = UserCreateSchema(username: string, password: string, passwordRetry: string)
  datatype UserLoginSchema = UserLoginSchema(username: string, password: string)

  function MinLength(field: string, value: string, n: nat): seq<Problem> {
    if |value| < n then [TooShort(field, n)] else []
  }

  /** `BaseUserSchema`: the username has at least 4 characters. */
  function ValidateBaseUser(username: string): (r: Result<BaseUserSchema>)
    ensures r.Ok? <==> |username| >= 4
    ensures r.Ok? ==> r.value.username == username
    ensures r.Err? ==> r.error == ValidationError([TooShort("username", 4)])
  {
    var problems := MinLength("username", username, UsernameMinLength);
    if problems != [] then Err(ValidationError(problems)) else Ok(BaseUserSchema(username))
  }

  /** The registration schema's own check: the two passwords agree, and differ from the username. */
  predicate CredentialsAgree(s: UserCreateSchema) {
    s.password == s.passwordRetry && s.password != s.username
  }

  /** `validate_credentials`: the model validator, which returns the schema unchanged when it passes. */
  function ValidateCredentials(s: UserCreateSchema): (r: Result<UserCreateSchema>)
    ensures r.Ok? <==> CredentialsAgree(s)
    ensures r.Ok? ==> r.value == s
    ensures s.password != s.passwordRetry ==> r == Err(ValidationError([ValueError("Passwords need to be same")]))
    ensures s.password == s.passwordRetry && s.password == s.username ==>
            r == Err(ValidationError([ValueError("Password cannot be same as username")]))
  {
    if s.password != s.passwordRetry then
      Err(ValidationError([ValueError("Passwords need to be same")]))
    else if s.password == s.username then
      Err(ValidationError([ValueError("Password cannot be same as username")]))
    else
      Ok(s)
  }

  /** A registration passes every field constraint and the validator. */
  predicate IsValidUserCreate(s: UserCreateSchema) {
    |s.username| >= 4 && |s.password| >= 8 && |s.passwordRetry| >= 8 && CredentialsAgree(s)
  }

  /**
   * `UserCreateSchema`: username of at least 4, both passwords of at least 8 characters, then
   * `validate_credentials`. Input that passes is returned unchanged; every short field is
   * reported; the validator's messages come only once the fields pass. No upper length bound.
   */
  function ValidateUserCreate(username: string, password: string, passwordRetry: string): (r: Result<UserCreateSchema>)
    ensures r.Ok? <==> IsValidUserCreate(UserCreateSchema(username, password, passwordRetry))
    ensures r.Ok? ==> r.value == UserCreateSchema(username, password, passwordRetry)
    ensures r.Err? ==> r.error.ValidationError?
    ensures r.Err? ==> (TooShort("username", 4) in r.error.problems <==> |username| < 4)
    ensures r.Err? ==> (TooShort("password", 8) in r.error.problems <==> |password| < 8)
    ensures r.Err? ==> (TooShort("password_retry", 8) in r.error.problems <==> |passwordRetry| < 8)
    ensures r.Err? && (|username| < 4 || |password| < 8 || |passwordRetry| < 8) ==>
            forall p :: p in r.error.problems ==>
              p in {TooShort("username", 4), TooShort("password", 8), TooShort("password_retry", 8)}
    ensures |username| >= 4 && |password| >= 8 && |passwordRetry| >= 8 && password != passwordRetry ==>
            r == Err(ValidationError([ValueError("Passwords need to be same")]))
    ensures |username| >= 4 && |password| >= 8 && password == passwordRetry && password == username ==>
            r == Err(ValidationError([ValueError("Password cannot be same as username")]))
  {
    var problems := MinLength("username", username, UsernameMinLength)
                    + MinLength("password", password, PasswordMinLength)
                    + MinLength("password_retry", passwordRetry, PasswordMinLength);
    if problems != [] then Err(ValidationError(problems))
    else ValidateCredentials(UserCreateSchema(username, password, passwordRetry))
  }

  /** `UserLoginSchema`: only the username has a length rule; any password, even empty, passes. */
  function ValidateUserLogin(username: string, password: string): (r: Result<UserLoginSchema>)
    ensures r.Ok? <==> |username| >= 4
    ensures r.Ok? ==> r.value == UserLoginSchema(username, password)
    ensures r.Err? ==> r.error == ValidationError([TooShort("username", 4)])
  {
    var problems := MinLength("username", username, UsernameMinLength);
    if problems != [] then Err(ValidationError(problems)) else Ok(UserLoginSchema(username, password))
  }

  /** The registrations the service's own test cases use, with the outcome the schema gives them. */
  lemma RegistrationExamples()
    ensures ValidateUserCreate("user", "password_123", "password_123").Ok?
    ensures ValidateUserCreate("SUPERUSER", "PASSWORDDD", "PASSWORDDD").Ok?
    ensures ValidateUserCreate("use", "password_123", "password_123")
            == Err(ValidationError([TooShort("username", 4)]))
    ensures ValidateUserCreate("USERUSER", "USERUSER", "USERUSER")
            == Err(ValidationError([ValueError("Password cannot be same as username")]))
    ensures ValidateUserCreate("user", "pas", "pas")
            == Err(ValidationError([TooShort("password", 8), TooShort("password_retry", 8)]))
  {
  }
}
