/** POST /login: a token for the configured credentials, 400 for any others. */
module LoginEndpoint {
  import opened Wrappers
  import opened Http
  import opened LoginOptions
  import opened JwtOptions
  import opened Tokens

  const InvalidCredentials: string := "Username or password is incorrect."

  /**
   * The login handler. An exception from token generation reaches the
   * exception handler middleware.
   */
  function Login(login: LoginConfiguration, jwt: JwtConfiguration, request: LoginRequest, jti: string, now: Ticks,
                 write: TokenDescriptor -> Outcome<string>): HttpResult
  {
    if IsValid(login, request) then
      match GenerateToken(jwt, request.login, jti, now, write)
      case Returned(token) => Ok(TokenBody(token.username, token.accessToken, token.expiresIn as int))
      case Threw => UnhandledException
    else BadRequest(InvalidCredentials)
  }

  /**
   * Only the configured pair is answered with a token, issued in the
   * configured login's name; every other request is a 400 with the fixed
   * message.
   */
  lemma LoginAnswers(login: LoginConfiguration, jwt: JwtConfiguration, request: LoginRequest, jti: string, now: Ticks,
                     write: TokenDescriptor -> Outcome<string>)
    ensures var r := Login(login, jwt, request, jti, now, write);
      && (r.Ok? <==> request == LoginRequest(login.login, login.password)
                     && GenerateToken(jwt, request.login, jti, now, write).Returned?)
      && (r.Ok? ==> r.body == TokenBody(login.login,
                                        GenerateToken(jwt, request.login, jti, now, write).value.accessToken,
                                        ExpirationInMilliseconds(jwt) as int))
      && (request != LoginRequest(login.login, login.password) ==>
            r == BadRequest(InvalidCredentials) && StatusCode(r) == 400)
      && (StatusCode(r) == 500 <==> r == UnhandledException)
  {
    AcceptsOnlyConfiguredPair(login, request);
  }
}
