/**
 * The access-token strategy: the bearer token must verify, must not have
 * expired, and must be an access token; its payload becomes `request.user`.
 */
module JwtStrategy {
  import opened Wrappers
  import opened Schema
  import opened Crypto
  import opened HttpErrors

  const InvalidAccessToken: string := "invalid access token"
  const MissingSecret: string := "JWT_SECRET is not set"

  /** The options the strategy is constructed with. */
  datatype StrategyOptions = StrategyOptions(secret: string, ignoreExpiration: bool)

  /** The user record `validate` attaches to the request. */
  datatype AuthUser = AuthUser(userId: int, username: string, role: Role)

  /**
   * The constructor: it throws when `JWT_SECRET` is unset or empty, and
   * otherwise never ignores expiry.
   */
  function NewJwtStrategy(jwtSecret: Option<string>): (r: Result<StrategyOptions, string>)
    ensures r.Err? <==> jwtSecret.None? || jwtSecret.value == ""
    ensures r.Err? ==> r.error == MissingSecret
    ensures r.Ok? ==> r.value.secret == jwtSecret.value && !r.value.ignoreExpiration
  {
    if jwtSecret.None? || jwtSecret.value == "" then Err(MissingSecret)
    else Ok(StrategyOptions(jwtSecret.value, false))
  }

  /**
   * `validate`: a payload whose type is not "access" is refused; an access
   * payload maps unchanged onto `{userId, username, role}`.
   */
  function Validate(payload: Claims): (r: Result<AuthUser, HttpError>)
    ensures r.Err? <==> payload.tokenType != AccessType
    ensures r.Err? ==> r.error == HttpError(Unauthorized, InvalidAccessToken)
    ensures r.Ok? ==> r.value.userId == payload.sub && r.value.username == payload.username
                      && r.value.role == payload.role
  {
    if payload.tokenType != AccessType then Err(HttpError(Unauthorized, InvalidAccessToken))
    else Ok(AuthUser(payload.sub, payload.username, payload.role))
  }

  /**
   * The strategy as the access guard runs it: a missing or unverifiable
   * token is refused before `validate` is called, and with
   * `ignoreExpiration` false an expired token is unverifiable.
   */
  function Authenticate(k: Kit, options: StrategyOptions, bearer: Option<string>, now: int)
    : (r: Result<AuthUser, HttpError>)
    // accepted exactly when a bearer token decodes, is unexpired unless expiry
    // is ignored, and is an access token
    ensures r.Ok? <==>
      && bearer.Some? && k.decode(bearer.value).Some?
      && (options.ignoreExpiration || now < k.decode(bearer.value).value.exp)
      && k.decode(bearer.value).value.tokenType == AccessType
    // the user is taken from the token's claims
    ensures r.Ok? ==> var c := k.decode(bearer.value).value;
      r.value == AuthUser(c.sub, c.username, c.role)
    ensures r.Err? ==> r.error.status == Unauthorized
  {
    if bearer.None? then Err(HttpError(Unauthorized, "Unauthorized"))
    else
      var payload := if options.ignoreExpiration then k.decode(bearer.value) else Verify(k, bearer.value, now);
      if payload.None? then Err(HttpError(Unauthorized, "Unauthorized"))
      else Validate(payload.value)
  }

  /** A refresh token presented as a bearer token is refused. */
  lemma RefreshTokenIsNotAnAccessToken(k: Kit, options: StrategyOptions, token: string, now: int)
    requires k.decode(token).Some? && k.decode(token).value.tokenType == RefreshType
    ensures Authenticate(k, options, Some(token), now).Err?
  {
  }
}
