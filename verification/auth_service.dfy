/**
 * The server's authentication service: password login with the legacy
 * plain-text migration, refresh-token rotation, and logout, as pure
 * functions over the admin table.
 */
module AuthService {
  import opened Wrappers
  import opened Schema
  import opened Crypto

  const IncorrectCredentials: string := "username or password is incorrect"
  const InvalidRefresh: string := "invalid refresh token"
  /** "15m" and "7d", in seconds. */
  const AccessTtl: int := 15 * 60
  const RefreshTtl: int := 7 * 24 * 60 * 60

  /**
   * The admin table keyed by primary key, and a counter standing for the
   * fresh random values (bcrypt salts, `randomUUID` token ids) the service
   * draws: each draw takes the current value and advances it.
   */
  datatype State = State(admins: map<int, Admin>, nonce: nat)

  datatype TokenPair = TokenPair(accessToken: string, refreshToken: string)

  /** `token` is the legacy alias of `accessToken`. */
  datatype AuthTokenResponse = AuthTokenResponse(token: string, accessToken: string, refreshToken: string)

  datatype AuthError = Unauthorized(message: string)

  /** The unique index on `username`. */
  ghost predicate UniqueUsernames(admins: map<int, Admin>) {
    forall i, j | i in admins && j in admins :: admins[i].username == admins[j].username ==> i == j
  }

  /** `findUnique({ where: { username } })` */
  function FindByUsername(admins: map<int, Admin>, username: string): (r: Option<int>)
    requires UniqueUsernames(admins)
    ensures r.None? <==> forall id | id in admins :: admins[id].username != username
    ensures r.Some? ==> r.value in admins && admins[r.value].username == username
  {
    if exists id | id in admins :: admins[id].username == username then
      var id :| id in admins && admins[id].username == username;
      Some(id)
    else
      None
  }

  /**
   * `verifyPassword`: bcrypt comparison first; if it fails but the stored
   * value equals the input (a legacy plain-text row), the login is accepted
   * and the stored password is replaced by a fresh hash of the input.
   */
  function VerifyPassword(k: Kit, s: State, id: int, password: string): (r: (bool, State))
    requires id in s.admins
    ensures var (ok, s') := r;
      && (ok <==> k.compare(password, s.admins[id].password) || s.admins[id].password == password)
      && s'.admins.Keys == s.admins.Keys
      && (forall j | j in s.admins && j != id :: s'.admins[j] == s.admins[j])
      && s.nonce <= s'.nonce
    // the legacy branch rewrites the password and nothing else
    ensures var (ok, s') := r;
      if !k.compare(password, s.admins[id].password) && s.admins[id].password == password then
        s'.admins[id] == s.admins[id].(password := k.hash(password, s.nonce))
      else
        s' == s
  {
    var admin := s.admins[id];
    if k.compare(password, admin.password) then (true, s)
    else if admin.password == password then
      (true, State(s.admins[id := admin.(password := k.hash(password, s.nonce))], s.nonce + 1))
    else (false, s)
  }

  /** The payload both tokens of a pair share. */
  function AccessClaims(s: State, id: int, now: int): Claims
    requires id in s.admins
  {
    Claims(id, s.admins[id].username, s.admins[id].role, AccessType, s.nonce, now, now + AccessTtl)
  }

  function RefreshClaims(s: State, id: int, now: int): Claims
    requires id in s.admins
  {
    Claims(id, s.admins[id].username, s.admins[id].role, RefreshType, s.nonce + 1, now, now + RefreshTtl)
  }

  /**
   * How `refreshTokenHash` holds a refresh token and how `refresh` checks a
   * presented token against it. `WholeTokenBcrypt` is the service as
   * written: a bcrypt hash of the whole token and `bcrypt.compare`.
   * `Sha256Digest` is the correction listed under Findings in README.md: the
   * SHA-256 digest of the token, compared for equality.
   */
  datatype TokenCheck = WholeTokenBcrypt | Sha256Digest

  /** The stored form of `token`; bcrypt draws `salt`. */
  function Seal(k: Kit, check: TokenCheck, token: string, salt: nat): (r: string)
    requires Lawful(k)
    ensures r != ""
    ensures forall t :: Opens(k, check, t, r) <==> Interchangeable(check, t, token)
  {
    match check
    case WholeTokenBcrypt => k.hash(token, salt)
    case Sha256Digest => k.digest(token)
  }

  /** Whether the presented `token` matches the stored value. */
  predicate Opens(k: Kit, check: TokenCheck, token: string, stored: string) {
    match check
    case WholeTokenBcrypt => k.compare(token, stored)
    case Sha256Digest => stored == k.digest(token)
  }

  /**
   * The tokens a check cannot tell apart: under bcrypt, those with the same
   * first 72 characters; under the digest, only the token itself.
   */
  predicate Interchangeable(check: TokenCheck, t: string, u: string) {
    match check
    case WholeTokenBcrypt => BcryptInput(t) == BcryptInput(u)
    case Sha256Digest => t == u
  }

  /**
   * `token` is the signed payload of a refresh token for admin `id`, carrying
   * the `admin` row's username and role, issued at `now` with a token id
   * drawn between the counter values `lo` and `hi`.
   */
  ghost predicate Issued(k: Kit, token: string, id: int, admin: Admin, now: int, lo: nat, hi: nat) {
    && k.decode(token).Some?
    && var c := k.decode(token).value;
       && k.sign(c) == token
       && c.sub == id && c.username == admin.username && c.role == admin.role
       && c.tokenType == RefreshType && c.exp == now + RefreshTtl && lo <= c.tokenId < hi
  }

  /**
   * `issueTokenPair`: signs an access token and a refresh token for the
   * admin and stores the sealed refresh token, replacing any previous one.
   */
  function IssueTokenPair(k: Kit, check: TokenCheck, s: State, id: int, now: int): (r: (TokenPair, State))
    requires Lawful(k)
    requires id in s.admins
    ensures var (pair, s') := r;
      // the access token carries the admin's claims with type "access"
      && k.decode(pair.accessToken) == Some(Claims(id, s.admins[id].username, s.admins[id].role,
                                                   AccessType, s.nonce, now, now + AccessTtl))
      // the refresh token carries the same claims with type "refresh"
      && k.decode(pair.refreshToken) == Some(Claims(id, s.admins[id].username, s.admins[id].role,
                                                    RefreshType, s.nonce + 1, now, now + RefreshTtl))
      && Issued(k, pair.refreshToken, id, s.admins[id], now, s.nonce, s'.nonce)
      && pair.accessToken != pair.refreshToken
    ensures var (pair, s') := r;
      // the stored value is opened by exactly the tokens the check cannot tell from the new one
      && id in s'.admins
      && s'.admins[id].refreshTokenHash.Some?
      && s'.admins[id].refreshTokenHash.value != ""
      && (forall t :: Opens(k, check, t, s'.admins[id].refreshTokenHash.value) <==> Interchangeable(check, t, pair.refreshToken))
      // nothing else of the table changes
      && s'.admins == s.admins[id := s.admins[id].(refreshTokenHash := s'.admins[id].refreshTokenHash)]
      && s'.nonce > s.nonce + 1
  {
    var access := k.sign(AccessClaims(s, id, now));
    var refresh := k.sign(RefreshClaims(s, id, now));
    SignInjective(k, AccessClaims(s, id, now), RefreshClaims(s, id, now));
    var h := Seal(k, check, refresh, s.nonce + 2);
    (TokenPair(access, refresh),
     State(s.admins[id := s.admins[id].(refreshTokenHash := Some(h))], s.nonce + 3))
  }

  /** `toAuthTokenResponse`: the legacy `token` field mirrors `accessToken`. */
  function ToAuthTokenResponse(pair: TokenPair): (r: AuthTokenResponse)
    ensures r.token == r.accessToken == pair.accessToken
    ensures r.refreshToken == pair.refreshToken
  {
    AuthTokenResponse(pair.accessToken, pair.accessToken, pair.refreshToken)
  }

  /**
   * `verifyRefreshToken`: a token that fails verification, and a valid
   * token of any type other than "refresh", are both refused with the
   * same message.
   */
  function VerifyRefreshToken(k: Kit, token: string, now: int): (r: Result<Claims, AuthError>)
    ensures r.Ok? <==> Verify(k, token, now).Some? && Verify(k, token, now).value.tokenType == RefreshType
    ensures r.Ok? ==> Some(r.value) == Verify(k, token, now)
    ensures r.Err? ==> r.error == Unauthorized(InvalidRefresh)
  {
    match Verify(k, token, now)
    case None => Err(Unauthorized(InvalidRefresh))
    case Some(payload) =>
      if payload.tokenType != RefreshType then Err(Unauthorized(InvalidRefresh)) else Ok(payload)
  }

  /** The condition under which `login` succeeds. */
  ghost predicate CredentialsAccepted(k: Kit, s: State, id: int, password: string)
    requires id in s.admins
  {
    k.compare(password, s.admins[id].password) || s.admins[id].password == password
  }

  /**
   * `login`: an unknown username and a wrong password fail with the same
   * message; on success the stored refresh hash is rotated to the returned
   * refresh token.
   */
  function Login(k: Kit, check: TokenCheck, s: State, username: string, password: string, now: int)
    : (r: Result<(AuthTokenResponse, State), AuthError>)
    requires Lawful(k)
    requires UniqueUsernames(s.admins)
    ensures r.Err? <==>
      forall id | id in s.admins && s.admins[id].username == username :: !CredentialsAccepted(k, s, id, password)
    ensures r.Err? ==> r.error == Unauthorized(IncorrectCredentials)
    ensures r.Ok? ==> var (resp, s') := r.value;
      && resp.token == resp.accessToken
      && s'.admins.Keys == s.admins.Keys
      && exists id | id in s.admins && s.admins[id].username == username ::
           && s'.admins[id].username == s.admins[id].username
           && s'.admins[id].role == s.admins[id].role
           // legacy migration: the password is rehashed only on the plain-text branch
           && (k.compare(password, s.admins[id].password) ==> s'.admins[id].password == s.admins[id].password)
           && (!k.compare(password, s.admins[id].password) ==> s'.admins[id].password == k.hash(password, s.nonce))
           && s'.admins[id].refreshTokenHash.Some?
           && (forall t :: Opens(k, check, t, s'.admins[id].refreshTokenHash.value) <==> Interchangeable(check, t, resp.refreshToken))
           && k.decode(resp.accessToken).Some?
           && k.decode(resp.accessToken).value.sub == id
           && k.decode(resp.accessToken).value.tokenType == AccessType
           && Issued(k, resp.refreshToken, id, s.admins[id], now, s.nonce, s'.nonce)
           && (forall j | j in s.admins && j != id :: s'.admins[j] == s.admins[j])
  {
    match FindByUsername(s.admins, username)
    case None => Err(Unauthorized(IncorrectCredentials))
    case Some(id) =>
      var (ok, s1) := VerifyPassword(k, s, id, password);
      if !ok then Err(Unauthorized(IncorrectCredentials))
      else
        var (pair, s2) := IssueTokenPair(k, check, s1, id, now);
        Ok((ToAuthTokenResponse(pair), s2))
  }

  /**
   * `refresh`: the token must verify, be of type "refresh", name an admin
   * whose stored hash is set, and match that hash; every failure carries
   * the same message. On success the pair is reissued and the stored hash
   * rotated.
   */
  function Refresh(k: Kit, check: TokenCheck, s: State, token: string, now: int)
    : (r: Result<(AuthTokenResponse, State), AuthError>)
    requires Lawful(k)
    ensures r.Err? ==> r.error == Unauthorized(InvalidRefresh)
    ensures r.Ok? <==>
      && VerifyRefreshToken(k, token, now).Ok?
      && var id := VerifyRefreshToken(k, token, now).value.sub;
         && id in s.admins
         && s.admins[id].refreshTokenHash.Some?
         && s.admins[id].refreshTokenHash.value != ""
         && Opens(k, check, token, s.admins[id].refreshTokenHash.value)
    ensures r.Ok? ==> var (resp, s') := r.value;
      var id := k.decode(token).value.sub;
      && resp.token == resp.accessToken
      && s'.admins.Keys == s.admins.Keys
      && s'.admins[id].refreshTokenHash.Some?
      && (forall t :: Opens(k, check, t, s'.admins[id].refreshTokenHash.value) <==> Interchangeable(check, t, resp.refreshToken))
      && s'.admins == s.admins[id := s.admins[id].(refreshTokenHash := s'.admins[id].refreshTokenHash)]
      && Issued(k, resp.refreshToken, id, s.admins[id], now, s.nonce, s'.nonce)
  {
    var payload :- VerifyRefreshToken(k, token, now);
    if payload.sub !in s.admins then Err(Unauthorized(InvalidRefresh))
    else
      var admin := s.admins[payload.sub];
      // `!admin?.refreshTokenHash` also rejects an empty stored hash
      if admin.refreshTokenHash.None? || admin.refreshTokenHash.value == "" then Err(Unauthorized(InvalidRefresh))
      else if !Opens(k, check, token, admin.refreshTokenHash.value) then Err(Unauthorized(InvalidRefresh))
      else
        var (pair, s') := IssueTokenPair(k, check, s, payload.sub, now);
        Ok((ToAuthTokenResponse(pair), s'))
  }

  /**
   * `logout`: a conditional update that clears the stored hash of the
   * admin if the row exists and never fails.
   */
  function Logout(s: State, id: int): (s': State)
    ensures s'.admins.Keys == s.admins.Keys && s'.nonce == s.nonce
    ensures UniqueUsernames(s.admins) ==> UniqueUsernames(s'.admins)
    ensures id in s.admins ==> s'.admins[id] == s.admins[id].(refreshTokenHash := None)
    ensures forall j | j in s.admins && j != id :: s'.admins[j] == s.admins[j]
  {
    if id in s.admins then State(s.admins[id := s.admins[id].(refreshTokenHash := None)], s.nonce)
    else s
  }
}
