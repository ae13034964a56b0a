/** The configured credentials and the check of a login request against them. */
module LoginOptions {

  /** Body of POST /login. */
  datatype LoginRequest = LoginRequest(login: string, password: string)

  /** The `LoginConfiguration` section: the one accepted login and password. */
  datatype LoginConfiguration = LoginConfiguration(login: string, password: string)

  /** `IsValid`: both fields equal the configured ones, compared ordinally. */
  predicate IsValid(config: LoginConfiguration, request: LoginRequest) {
    request.login == config.login && request.password == config.password
  }

  /** Exactly one request is accepted: the configured pair itself. */
  lemma AcceptsOnlyConfiguredPair(config: LoginConfiguration, request: LoginRequest)
    ensures IsValid(config, request) <==> request == LoginRequest(config.login, config.password)
    ensures request.login != config.login ==> !IsValid(config, request)
    ensures request.password != config.password ==> !IsValid(config, request)
  {
  }
}
