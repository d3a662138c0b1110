/**
 * The student client's session manager: token storage, the response
 * classifier, and the single-flight refresh slot shared by every request
 * that meets a 401, driven by explicit events instead of promises.
 */
module ClientSession {
  import opened Wrappers
  import opened Text
  import opened Envelope

  const AccessTokenKey: string := "accessToken"
  const RefreshTokenKey: string := "refreshToken"
  const LegacyTokenKey: string := "token"
  const RoleKey: string := "role"
  const LoginPath: string := "/login"
  const RefreshUrl: string := "/auth/refresh"

  /**
   * The browser state the manager touches: `localStorage`, the location's
   * path, and how many "auth:logout" events have been dispatched.
   */
  datatype Browser = Browser(storage: map<string, string>, pathname: string, logoutEvents: nat)

  /** `getAccessToken`: the new key, else the legacy key, else "". */
  function GetAccessToken(storage: map<string, string>): (r: string)
    ensures AccessTokenKey in storage ==> r == storage[AccessTokenKey]
    ensures AccessTokenKey !in storage && LegacyTokenKey in storage ==> r == storage[LegacyTokenKey]
    ensures AccessTokenKey !in storage && LegacyTokenKey !in storage ==> r == ""
  {
    if AccessTokenKey in storage then storage[AccessTokenKey]
    else if LegacyTokenKey in storage then storage[LegacyTokenKey]
    else ""
  }

  /** `getRefreshToken` */
  function GetRefreshToken(storage: map<string, string>): (r: string)
    ensures RefreshTokenKey in storage ==> r == storage[RefreshTokenKey]
    ensures RefreshTokenKey !in storage ==> r == ""
  {
    if RefreshTokenKey in storage then storage[RefreshTokenKey] else ""
  }

  /** The `data` of a refresh response; `token` is the legacy name of `accessToken`. */
  datatype RefreshTokenResult = RefreshTokenResult(token: Option<string>, accessToken: Option<string>, refreshToken: Option<string>)

  /** An `Error` as the caller sees it, with the business `code` when one was attached. */
  datatype ClientError = ClientError(message: string, code: Option<int>)

  /** `x || fallback` for a string `x`. */
  function OrElse(x: string, fallback: string): string {
    if x == "" then fallback else x
  }

  /** The three keys a successful refresh writes. */
  predicate TokenKey(key: string) {
    key == AccessTokenKey || key == LegacyTokenKey || key == RefreshTokenKey
  }

  /**
   * `persistTokens`: takes `accessToken ?? token`; if it or the refresh
   * token is missing or empty it throws, otherwise it stores the access
   * token under both the new and the legacy key and the refresh token
   * under its key, and returns the access token.
   */
  function PersistTokens(storage: map<string, string>, data: RefreshTokenResult)
    : (r: Result<(string, map<string, string>), ClientError>)
    ensures var next := if data.accessToken.Some? then data.accessToken else data.token;
      r.Err? <==> next.None? || next.value == "" || data.refreshToken.None? || data.refreshToken.value == ""
    ensures r.Err? ==> r.error == ClientError("invalid refresh response", None)
    ensures r.Ok? ==> var (token, storage') := r.value;
      && token != ""
      && token == (if data.accessToken.Some? then data.accessToken.value else data.token.value)
      && GetAccessToken(storage') == token
      && LegacyTokenKey in storage' && storage'[LegacyTokenKey] == token
      && GetRefreshToken(storage') == data.refreshToken.value
      && (forall key | !TokenKey(key) :: (key in storage' <==> key in storage))
      && (forall key | !TokenKey(key) && key in storage :: storage'[key] == storage[key])
  {
    var nextAccessToken := if data.accessToken.Some? then data.accessToken else data.token;
    var nextRefreshToken := data.refreshToken;
    if nextAccessToken.None? || nextAccessToken.value == "" || nextRefreshToken.None? || nextRefreshToken.value == "" then
      Err(ClientError("invalid refresh response", None))
    else
      var storage' := storage[AccessTokenKey := nextAccessToken.value]
                             [LegacyTokenKey := nextAccessToken.value]
                             [RefreshTokenKey := nextRefreshToken.value];
      Ok((nextAccessToken.value, storage'))
  }

  /**
   * `clearAuthAndRedirectToLogin`: removes the four auth keys, dispatches
   * the logout event, and moves to "/login" unless already there.
   */
  function ClearAuthAndRedirectToLogin(b: Browser): (b': Browser)
    ensures AccessTokenKey !in b'.storage && LegacyTokenKey !in b'.storage
    ensures RefreshTokenKey !in b'.storage && RoleKey !in b'.storage
    ensures GetAccessToken(b'.storage) == "" && GetRefreshToken(b'.storage) == ""
    ensures forall key | !TokenKey(key) && key != RoleKey ::
              (key in b'.storage <==> key in b.storage) && (key in b.storage ==> b'.storage[key] == b.storage[key])
    ensures b'.logoutEvents == b.logoutEvents + 1
    ensures b'.pathname == LoginPath
  {
    var storage := b.storage - {AccessTokenKey, LegacyTokenKey, RefreshTokenKey, RoleKey};
    Browser(storage, if b.pathname != LoginPath then LoginPath else b.pathname, b.logoutEvents + 1)
  }

  /** The parts of an axios request config the manager reads and writes. */
  datatype Config = Config(url: Option<string>, retry: bool, authorization: Option<string>)

  /** `isRefreshRequest`: the URL contains "/auth/refresh"; no config, or no URL, is not the refresh call. */
  function IsRefreshRequest(config: Option<Config>): (r: bool)
    ensures r <==> config.Some? && config.value.url.Some? && Contains(config.value.url.value, RefreshUrl)
  {
    Contains(if config.Some? then config.value.url.GetOr("") else "", RefreshUrl)
  }

  function Bearer(token: string): string {
    "Bearer " + token
  }

  /** The request interceptor: attaches the stored access token when there is one. */
  function AttachToken(storage: map<string, string>, config: Config): (r: Config)
    ensures r.url == config.url && r.retry == config.retry
    ensures GetAccessToken(storage) != "" ==> r.authorization == Some(Bearer(GetAccessToken(storage)))
    ensures GetAccessToken(storage) == "" ==> r == config
  {
    var accessToken := GetAccessToken(storage);
    if accessToken != "" then config.(authorization := Some(Bearer(accessToken))) else config
  }

  /** A response envelope; its `data` is kept as opaque text. */
  type Payload = ApiResponse<string>

  /**
   * What the transport hands the response interceptor for a request it
   * sent: a 2xx response, or an `AxiosError` with its HTTP status, the
   * envelope message of its response body ("" when absent) and its own
   * message. Which request it answers is carried by the event, and the
   * config it is classified by is the one that request was sent with.
   */
  datatype Reply =
    | Fulfilled(payload: Payload)
    | Rejected(status: Option<int>, dataMessage: string, errorMessage: string)

  /** The response interceptor's decision. */
  datatype Action = Deliver | Throw(error: ClientError) | RefreshThenReplay(config: Config)

  /**
   * The fulfilled branch: code 0 passes, code 401 refreshes and replays
   * unless the request is a retry or the refresh call itself, any other
   * code throws an error carrying it.
   */
  function OnFulfilled(config: Config, payload: Payload): (a: Action)
    ensures a.Deliver? <==> payload.code == 0
    ensures a.RefreshThenReplay? <==> payload.code == 401 && !config.retry && !IsRefreshRequest(Some(config))
    ensures a.RefreshThenReplay? ==> a.config == config
    ensures a.Throw? && payload.code != 401 ==> a.error == ClientError(OrElse(payload.message, "request failed"), Some(payload.code))
    ensures a.Throw? && payload.code == 401 ==> a.error == ClientError(OrElse(payload.message, "unauthorized"), None)
  {
    if payload.code == 0 then Deliver
    else if payload.code == 401 then
      if config.retry || IsRefreshRequest(Some(config)) then Throw(ClientError(OrElse(payload.message, "unauthorized"), None))
      else RefreshThenReplay(config)
    else Throw(ClientError(OrElse(payload.message, "request failed"), Some(payload.code)))
  }

  /**
   * The rejected branch: a transport 401 refreshes and replays unless
   * there is no config, it is the refresh call, or it is a retry; every
   * other failure is rethrown with the envelope message when there is one.
   */
  function OnRejected(config: Option<Config>, status: Option<int>, dataMessage: string, errorMessage: string): (a: Action)
    ensures !a.Deliver?
    ensures a.RefreshThenReplay? <==>
      config.Some? && !IsRefreshRequest(config) && !config.value.retry && status == Some(401)
    ensures a.RefreshThenReplay? ==> a.config == config.value
    ensures a.Throw? ==> a.error == ClientError(OrElse(dataMessage, errorMessage), None)
  {
    if config.None? || IsRefreshRequest(config) || config.value.retry then
      Throw(ClientError(OrElse(dataMessage, errorMessage), None))
    else if status == Some(401) then RefreshThenReplay(config.value)
    else Throw(ClientError(OrElse(dataMessage, errorMessage), None))
  }

  /**
   * The response interceptor on a reply to a request sent with `config`:
   * only a code-0 envelope passes, and a 401 (business code or HTTP status)
   * leads to refresh-then-replay exactly when the request is neither a
   * retry nor the refresh call.
   */
  function Classify(config: Config, reply: Reply): (a: Action)
    ensures a.Deliver? <==> reply.Fulfilled? && reply.payload.code == 0
    ensures a.RefreshThenReplay? <==>
      && !config.retry && !IsRefreshRequest(Some(config))
      && (if reply.Fulfilled? then reply.payload.code == 401 else reply.status == Some(401))
    ensures a.RefreshThenReplay? ==> a.config == config
  {
    match reply
    case Fulfilled(payload) => OnFulfilled(config, payload)
    case Rejected(status, dataMessage, errorMessage) => OnRejected(Some(config), status, dataMessage, errorMessage)
  }

  /** A retried request, and the refresh request, are never sent to refresh again. */
  lemma NoSecondReplay(config: Config, reply: Reply)
    requires config.retry || IsRefreshRequest(Some(config))
    ensures !Classify(config, reply).RefreshThenReplay?
  {
  }

  /** Both 401 signals, the business code and the HTTP status, lead to a refresh. */
  lemma BothUnauthorizedSignalsRefresh(config: Config, message: string, data: string, errorMessage: string)
    requires !config.retry && !IsRefreshRequest(Some(config))
    ensures Classify(config, Fulfilled(ApiResponse(401, message, data))) == RefreshThenReplay(config)
    ensures Classify(config, Rejected(Some(401), message, errorMessage)) == RefreshThenReplay(config)
  {
  }

  /** A request waiting on the shared refresh, and the config it will replay. */
  datatype Waiter = Waiter(id: nat, config: Config)

  /** The `refreshPromise` slot. */
  datatype Slot = Idle | Pending(waiters: seq<Waiter>)

  /**
   * The manager's state: the browser, the slot, the config each request in
   * flight was sent with, the requests replayed and not yet answered, the
   * refresh tokens posted to "/auth/refresh" so far, and how many of those
   * posts have been answered.
   */
  datatype Client = Client(
    browser: Browser,
    slot: Slot,
    configs: map<nat, Config>,
    replaying: set<nat>,
    sent: seq<string>,
    settled: nat)

  /** What a request's caller finally sees, or the replay it sends. */
  datatype Output =
    | Delivered(id: nat, payload: Payload)
    | Failed(id: nat, error: ClientError)
    | Replayed(id: nat, config: Config)

  /**
   * Entering `replayRequestWithNewToken` for a request that met a 401: join
   * the pending refresh if there is one; otherwise fail at once when no
   * refresh token is stored (the caller's catch then clears auth), or post
   * the stored refresh token and open the slot.
   */
  function JoinRefresh(c: Client, w: Waiter): (r: (Client, seq<Output>))
    ensures c.slot.Pending? ==> r == (c.(slot := Pending(c.slot.waiters + [w])), [])
    ensures c.slot.Idle? && GetRefreshToken(c.browser.storage) == "" ==>
      r == (c.(browser := ClearAuthAndRedirectToLogin(c.browser)),
            [Failed(w.id, ClientError("missing refresh token", None))])
    ensures c.slot.Idle? && GetRefreshToken(c.browser.storage) != "" ==>
      r == (c.(slot := Pending([w]), sent := c.sent + [GetRefreshToken(c.browser.storage)]), [])
  {
    if c.slot.Pending? then (c.(slot := Pending(c.slot.waiters + [w])), [])
    else
      var refreshToken := GetRefreshToken(c.browser.storage);
      if refreshToken == "" then
        (c.(browser := ClearAuthAndRedirectToLogin(c.browser)), [Failed(w.id, ClientError("missing refresh token", None))])
      else
        (c.(slot := Pending([w]), sent := c.sent + [refreshToken]), [])
  }

  /**
   * The replayed config: marked as a retry and carrying the new token,
   * after which the request interceptor attaches whatever token is stored.
   */
  function ReplayConfig(storage: map<string, string>, config: Config, token: string): (r: Config)
    ensures r.url == config.url && r.retry
    ensures GetAccessToken(storage) == "" ==> r.authorization == Some(Bearer(token))
    ensures GetAccessToken(storage) != "" ==> r.authorization == Some(Bearer(GetAccessToken(storage)))
  {
    AttachToken(storage, config.(authorization := Some(Bearer(token)), retry := true))
  }

  /** The ids of a list of waiters. */
  function Ids(ws: seq<Waiter>): set<nat> {
    set i | 0 <= i < |ws| :: ws[i].id
  }

  /** The ids of a non-empty list: the first one and those of the rest. */
  lemma IdsCons(ws: seq<Waiter>)
    requires |ws| > 0
    ensures Ids(ws) == {ws[0].id} + Ids(ws[1..])
  {
    forall id | id in Ids(ws) ensures id in {ws[0].id} + Ids(ws[1..]) {
      var i :| 0 <= i < |ws| && ws[i].id == id;
      if i > 0 { assert ws[1..][i - 1] == ws[i]; }
    }
  }

  /**
   * The waiters resuming in order once the shared refresh has settled:
   * each replays its request with the new token, recording the replayed
   * config as the one its request is now in flight with, or, on failure,
   * clears auth in its own catch and fails with the refresh error.
   */
  function Resume(b: Browser, configs: map<nat, Config>, result: Result<string, ClientError>, ws: seq<Waiter>)
    : (r: (Browser, map<nat, Config>, seq<Output>))
    requires result.Ok? ==> GetAccessToken(b.storage) == result.value
    ensures |r.2| == |ws|
    ensures forall i | 0 <= i < |ws| :: r.2[i].id == ws[i].id
    ensures result.Ok? ==> r.0 == b && forall i | 0 <= i < |ws| ::
              r.2[i] == Replayed(ws[i].id, ws[i].config.(authorization := Some(Bearer(result.value)), retry := true))
    // a replayed request is in flight as a retry; no other request's config changes
    ensures result.Ok? ==>
              && r.1.Keys == configs.Keys + Ids(ws)
              && (forall id | id in Ids(ws) :: r.1[id].retry)
              && (forall id | id in configs && id !in Ids(ws) :: r.1[id] == configs[id])
    ensures result.Err? ==> r.1 == configs && forall i | 0 <= i < |ws| :: r.2[i] == Failed(ws[i].id, result.error)
    ensures result.Err? && |ws| > 0 ==>
              r.0.logoutEvents == b.logoutEvents + |ws| && r.0.pathname == LoginPath
              && GetAccessToken(r.0.storage) == "" && GetRefreshToken(r.0.storage) == ""
    ensures result.Err? && |ws| == 0 ==> r.0 == b
    decreases |ws|
  {
    if |ws| == 0 then (b, configs, [])
    else
      var (b1, configs1, first) := match result
        case Ok(token) =>
          var replay := ReplayConfig(b.storage, ws[0].config, token);
          (b, configs[ws[0].id := replay], Replayed(ws[0].id, replay))
        case Err(e) => (ClearAuthAndRedirectToLogin(b), configs, Failed(ws[0].id, e));
      var (b2, configs2, rest) := Resume(b1, configs1, result, ws[1..]);
      IdsCons(ws);
      (b2, configs2, [first] + rest)
  }

  /** The refresh call's outcome: a transport failure, or an answered envelope. */
  datatype RefreshReply =
    | RefreshFailed(errorMessage: string)
    | RefreshAnswered(code: int, message: string, data: Option<RefreshTokenResult>)

  /**
   * The `.then` of the refresh call: a non-zero code fails with the
   * envelope message (default "refresh failed"); code 0 persists the tokens.
   */
  function RefreshResult(storage: map<string, string>, reply: RefreshReply)
    : (r: Result<(string, map<string, string>), ClientError>)
    ensures reply.RefreshAnswered? && reply.code != 0 ==> r == Err(ClientError(OrElse(reply.message, "refresh failed"), None))
    ensures reply.RefreshFailed? ==> r == Err(ClientError(reply.errorMessage, None))
    ensures r.Ok? ==> reply.RefreshAnswered? && reply.code == 0 && GetAccessToken(r.value.1) == r.value.0
  {
    match reply
    case RefreshFailed(m) => Err(ClientError(m, None))
    case RefreshAnswered(code, message, data) =>
      if code != 0 then Err(ClientError(OrElse(message, "refresh failed"), None))
      else PersistTokens(storage, data.GetOr(RefreshTokenResult(None, None, None)))
  }

  /**
   * The refresh call settles: the slot is cleared whatever the outcome and
   * every waiter resumes with the same result.
   */
  function SettleRefresh(c: Client, reply: RefreshReply): (r: (Client, seq<Output>))
    ensures c.slot.Idle? ==> r == (c, [])
    ensures c.slot.Pending? ==> r.0.slot.Idle? && r.0.settled == c.settled + 1 && r.0.sent == c.sent
    ensures c.slot.Pending? ==> |r.1| == |c.slot.waiters|
    ensures c.slot.Pending? && RefreshResult(c.browser.storage, reply).Err? ==>
              && r.0.configs == c.configs && r.0.replaying == c.replaying
              && forall i | 0 <= i < |r.1| :: r.1[i] == Failed(c.slot.waiters[i].id, RefreshResult(c.browser.storage, reply).error)
    ensures c.slot.Pending? && RefreshResult(c.browser.storage, reply).Ok? ==>
              && r.0.replaying == c.replaying + Ids(c.slot.waiters)
              && r.0.configs.Keys == c.configs.Keys + Ids(c.slot.waiters)
              && (forall id | id in Ids(c.slot.waiters) :: r.0.configs[id].retry)
              && (forall id | id in c.configs && id !in Ids(c.slot.waiters) :: r.0.configs[id] == c.configs[id])
  {
    if c.slot.Idle? then (c, [])
    else
      var ws := c.slot.waiters;
      match RefreshResult(c.browser.storage, reply)
      case Ok((token, storage')) =>
        var (b', configs', outs) := Resume(c.browser.(storage := storage'), c.configs, Ok(token), ws);
        (Client(b', Idle, configs', c.replaying + Ids(ws), c.sent, c.settled + 1), outs)
      case Err(e) =>
        var (b', configs', outs) := Resume(c.browser, c.configs, Err(e), ws);
        (Client(b', Idle, configs', c.replaying, c.sent, c.settled + 1), outs)
  }

  /** `id` names a request in flight or one waiting on the refresh. */
  predicate Outstanding(c: Client, id: nat) {
    id in c.configs || (c.slot.Pending? && id in Ids(c.slot.waiters))
  }

  /**
   * `instance.request(config)` by a caller: the request interceptor attaches
   * the stored token and the request goes out under `id`. An id names one
   * outstanding request at a time, so a send under an outstanding id is
   * ignored.
   */
  function Send(c: Client, id: nat, config: Config): (r: Client)
    ensures Outstanding(c, id) ==> r == c
    ensures !Outstanding(c, id) ==> r == c.(configs := c.configs[id := AttachToken(c.browser.storage, config)])
  {
    if Outstanding(c, id) then c else c.(configs := c.configs[id := AttachToken(c.browser.storage, config)])
  }

  /**
   * A reply to request `id` passes the response interceptor, classified by
   * the config the request was sent with; a reply to no request in flight
   * is ignored. When `id` is a replay, a thrown error is caught by the
   * original request's handler, which clears auth whatever the error was.
   */
  function OnReply(c: Client, id: nat, reply: Reply): (r: (Client, seq<Output>))
    ensures id !in c.configs ==> r == (c, [])
    ensures id in c.configs ==>
      var a := Classify(c.configs[id], reply);
      var c1 := c.(configs := c.configs - {id}, replaying := c.replaying - {id});
      && (a.Deliver? ==> r == (c1, [Delivered(id, reply.payload)]))
      && (a.Throw? && id in c.replaying ==>
            r == (c1.(browser := ClearAuthAndRedirectToLogin(c.browser)), [Failed(id, a.error)]))
      && (a.Throw? && id !in c.replaying ==> r == (c1, [Failed(id, a.error)]))
      && (a.RefreshThenReplay? ==> r == JoinRefresh(c1, Waiter(id, c.configs[id])))
  {
    if id !in c.configs then (c, [])
    else
      var inReplay := id in c.replaying;
      var c1 := c.(configs := c.configs - {id}, replaying := c.replaying - {id});
      match Classify(c.configs[id], reply)
      case Deliver => (c1, [Delivered(id, reply.payload)])
      case Throw(e) =>
        if inReplay then (c1.(browser := ClearAuthAndRedirectToLogin(c1.browser)), [Failed(id, e)])
        else (c1, [Failed(id, e)])
      case RefreshThenReplay(config) => JoinRefresh(c1, Waiter(id, config))
  }

  datatype Event = Request(id: nat, config: Config) | Respond(id: nat, reply: Reply) | RefreshSettled(outcome: RefreshReply)

  /**
   * One event. A request produces no output; a reply answers at most its own
   * request; the log of refresh posts only grows, by at most one post.
   */
  function Step(c: Client, e: Event): (r: (Client, seq<Output>))
    ensures e.Request? ==> r.1 == [] && r.0.slot == c.slot && r.0.replaying == c.replaying
    ensures e.Respond? ==> |r.1| <= 1 && forall o | o in r.1 :: o.id == e.id
    ensures c.sent <= r.0.sent && |r.0.sent| <= |c.sent| + 1 && c.settled <= r.0.settled
  {
    match e
    case Request(id, config) => (Send(c, id, config), [])
    case Respond(id, reply) => OnReply(c, id, reply)
    case RefreshSettled(outcome) => SettleRefresh(c, outcome)
  }

  /**
   * The state after a sequence of events, and everything output on the
   * way; refresh posts are only ever appended.
   */
  function Run(c: Client, es: seq<Event>): (r: (Client, seq<Output>))
    ensures c.sent <= r.0.sent && c.settled <= r.0.settled
    decreases |es|
  {
    if |es| == 0 then (c, [])
    else
      var (c1, outs1) := Run(c, es[..|es| - 1]);
      var (c2, outs2) := Step(c1, es[|es| - 1]);
      (c2, outs1 + outs2)
  }
}
