/**
 * The authentication service run over sequences of requests: what a
 * refresh token can still do after it has been rotated away or after
 * its admin has logged out. Rotation is examined twice: as written, where
 * a rotated-out token is still accepted, and with the corrected
 * `Sha256Digest` check, where it never is.
 */
module AuthTraces {
  import opened Wrappers
  import opened Schema
  import opened Crypto
  import opened AuthService

  /** One call into the service, with the time at which it is served. */
  datatype Event =
    | LoginEvent(username: string, password: string, at: int)
    | RefreshEvent(token: string, at: int)
    | LogoutEvent(id: int)

  /** The table after one call; a failed call leaves it as it was. */
  function Step(k: Kit, check: TokenCheck, s: State, e: Event): (s': State)
    requires Lawful(k)
    requires UniqueUsernames(s.admins)
    ensures s'.admins.Keys == s.admins.Keys
    ensures forall id | id in s.admins :: s'.admins[id].username == s.admins[id].username
    ensures UniqueUsernames(s'.admins)
    ensures s.nonce <= s'.nonce
  {
    match e
    case LoginEvent(u, p, now) =>
      var r := Login(k, check, s, u, p, now);
      if r.Ok? then r.value.1 else s
    case RefreshEvent(t, now) =>
      var r := Refresh(k, check, s, t, now);
      if r.Ok? then r.value.1 else s
    case LogoutEvent(id) => Logout(s, id)
  }

  function Run(k: Kit, check: TokenCheck, s: State, es: seq<Event>): (s': State)
    requires Lawful(k)
    requires UniqueUsernames(s.admins)
    ensures s'.admins.Keys == s.admins.Keys
    ensures forall id | id in s.admins :: s'.admins[id].username == s.admins[id].username
    ensures UniqueUsernames(s'.admins)
    ensures s.nonce <= s'.nonce
    decreases |es|
  {
    if |es| == 0 then s else Run(k, check, Step(k, check, s, es[0]), es[1..])
  }

  /** No call of `es`, played from `s`, is a successful login under `username`. */
  ghost predicate NoLoginSucceedsAs(k: Kit, check: TokenCheck, s: State, es: seq<Event>, username: string)
    requires Lawful(k)
    requires UniqueUsernames(s.admins)
    decreases |es|
  {
    |es| == 0 ||
    (&& !(es[0].LoginEvent? && es[0].username == username
          && Login(k, check, s, username, es[0].password, es[0].at).Ok?)
     && NoLoginSucceedsAs(k, check, Step(k, check, s, es[0]), es[1..], username))
  }

  /** Admin `id` holds no refresh hash (or does not exist). */
  predicate SignedOut(s: State, id: int) {
    id in s.admins ==> s.admins[id].refreshTokenHash.None?
  }

  /**
   * Once an admin is signed out, only a successful login under its own
   * username gives it a refresh hash again.
   */
  lemma {:induction false} SignedOutUntilLogin(k: Kit, check: TokenCheck, s: State, id: int, es: seq<Event>)
    requires Lawful(k)
    requires UniqueUsernames(s.admins)
    requires SignedOut(s, id)
    requires id in s.admins ==> NoLoginSucceedsAs(k, check, s, es, s.admins[id].username)
    ensures SignedOut(Run(k, check, s, es), id)
    decreases |es|
  {
    if |es| > 0 {
      var s1 := Step(k, check, s, es[0]);
      if id in s.admins {
        assert s1.admins[id].username == s.admins[id].username;
      }
      SignedOutUntilLogin(k, check, s1, id, es[1..]);
    }
  }

  /**
   * Refresh after logout: once admin `id` has logged out, no refresh token
   * naming it is accepted, whatever calls follow, until it logs in again.
   */
  lemma RefreshAfterLogoutFails(k: Kit, check: TokenCheck, s: State, id: int, es: seq<Event>, token: string, now: int)
    requires Lawful(k)
    requires UniqueUsernames(s.admins)
    requires id in s.admins ==> NoLoginSucceedsAs(k, check, Logout(s, id), es, s.admins[id].username)
    requires k.decode(token).Some? && k.decode(token).value.sub == id
    ensures Refresh(k, check, Run(k, check, Logout(s, id), es), token, now) == Err(Unauthorized(InvalidRefresh))
  {
    var s0 := Logout(s, id);
    if id in s.admins {
      assert s0.admins[id].username == s.admins[id].username;
    }
    SignedOutUntilLogin(k, check, s0, id, es);
  }

  /**
   * Reuse after rotation, as written: exchange a refresh token, then
   * exchange the token it returned. That second token has now been rotated
   * away, yet it is accepted once more until it expires, because bcrypt
   * reads only the first 72 characters and those are the same for every
   * token of one admin.
   */
  lemma RotatedOutTokenStillAccepted(k: Kit, s: State, t: string, now: int, later: int, again: int)
    requires Lawful(k)
    requires Refresh(k, WholeTokenBcrypt, s, t, now).Ok?
    requires later < now + RefreshTtl && again < now + RefreshTtl
    ensures var (r1, s1) := Refresh(k, WholeTokenBcrypt, s, t, now).value;
      && Refresh(k, WholeTokenBcrypt, s1, r1.refreshToken, later).Ok?
      && var (r2, s2) := Refresh(k, WholeTokenBcrypt, s1, r1.refreshToken, later).value;
         && r2.refreshToken != r1.refreshToken
         && Refresh(k, WholeTokenBcrypt, s2, r1.refreshToken, again).Ok?
  {
    var (r1, s1) := Refresh(k, WholeTokenBcrypt, s, t, now).value;
    var id := k.decode(t).value.sub;
    var c1 := k.decode(r1.refreshToken).value;
    assert Opens(k, WholeTokenBcrypt, r1.refreshToken, s1.admins[id].refreshTokenHash.value);
    var (r2, s2) := Refresh(k, WholeTokenBcrypt, s1, r1.refreshToken, later).value;
    var c2 := k.decode(r2.refreshToken).value;
    assert SameSubject(c1, c2);
    assert BcryptInput(r1.refreshToken) == BcryptInput(r2.refreshToken) by {
      assert k.sign(c1) == r1.refreshToken && k.sign(c2) == r2.refreshToken;
    }
    assert c1.tokenId < s1.nonce <= c2.tokenId;
    assert Opens(k, WholeTokenBcrypt, r1.refreshToken, s2.admins[id].refreshTokenHash.value);
  }

  /**
   * Under the corrected check, every stored refresh digest is matched only
   * by tokens whose random id was drawn before the current counter value.
   * The seeded table, with every hash null, satisfies it.
   */
  ghost predicate HashesFromThePast(k: Kit, s: State) {
    forall id, t | id in s.admins && s.admins[id].refreshTokenHash.Some?
                   && Opens(k, Sha256Digest, t, s.admins[id].refreshTokenHash.value) ::
      k.decode(t).Some? && k.decode(t).value.tokenId < s.nonce
  }

  /**
   * Token `t` was drawn before the counter's current value and does not
   * match the stored digest of the admin it names.
   */
  ghost predicate Retired(k: Kit, s: State, t: string) {
    && k.decode(t).Some? && k.decode(t).value.tokenId < s.nonce
    && var id := k.decode(t).value.sub;
       id in s.admins && s.admins[id].refreshTokenHash.Some? ==>
         !Opens(k, Sha256Digest, t, s.admins[id].refreshTokenHash.value)
  }

  lemma StepKeepsHashesFromThePast(k: Kit, s: State, e: Event)
    requires Lawful(k)
    requires UniqueUsernames(s.admins)
    requires HashesFromThePast(k, s)
    ensures HashesFromThePast(k, Step(k, Sha256Digest, s, e))
  {
    var s' := Step(k, Sha256Digest, s, e);
    forall id, t | id in s'.admins && s'.admins[id].refreshTokenHash.Some?
                   && Opens(k, Sha256Digest, t, s'.admins[id].refreshTokenHash.value)
      ensures k.decode(t).Some? && k.decode(t).value.tokenId < s'.nonce
    {
      match e
      case LoginEvent(u, p, now) =>
        if Login(k, Sha256Digest, s, u, p, now).Ok? {
          var (resp, s1) := Login(k, Sha256Digest, s, u, p, now).value;
          var j :| j in s.admins && s.admins[j].username == u
                   && s1.admins[j].refreshTokenHash.Some?
                   && (forall t' :: Opens(k, Sha256Digest, t', s1.admins[j].refreshTokenHash.value) <==> t' == resp.refreshToken)
                   && Issued(k, resp.refreshToken, j, s.admins[j], now, s.nonce, s1.nonce)
                   && (forall i | i in s.admins && i != j :: s1.admins[i] == s.admins[i]);
          if id == j {
            assert t == resp.refreshToken;
          } else {
            assert s1.admins[id] == s.admins[id];
          }
        }
      case RefreshEvent(tok, now) =>
        if Refresh(k, Sha256Digest, s, tok, now).Ok? {
          var (resp, s1) := Refresh(k, Sha256Digest, s, tok, now).value;
          var j := k.decode(tok).value.sub;
          if id == j {
            assert t == resp.refreshToken;
          } else {
            assert s1.admins[id] == s.admins[id];
          }
        }
      case LogoutEvent(j) =>
    }
  }

  lemma StepKeepsRetired(k: Kit, s: State, e: Event, t: string)
    requires Lawful(k)
    requires UniqueUsernames(s.admins)
    requires Retired(k, s, t)
    ensures Retired(k, Step(k, Sha256Digest, s, e), t)
  {
    var s' := Step(k, Sha256Digest, s, e);
    var id := k.decode(t).value.sub;
    if id in s'.admins && s'.admins[id].refreshTokenHash.Some? {
      match e
      case LoginEvent(u, p, now) =>
        if Login(k, Sha256Digest, s, u, p, now).Ok? {
          var (resp, s1) := Login(k, Sha256Digest, s, u, p, now).value;
          var j :| j in s.admins && s.admins[j].username == u
                   && s1.admins[j].refreshTokenHash.Some?
                   && (forall t' :: Opens(k, Sha256Digest, t', s1.admins[j].refreshTokenHash.value) <==> t' == resp.refreshToken)
                   && Issued(k, resp.refreshToken, j, s.admins[j], now, s.nonce, s1.nonce)
                   && (forall i | i in s.admins && i != j :: s1.admins[i] == s.admins[i]);
          if id == j {
            assert t != resp.refreshToken;
          } else {
            assert s1.admins[id] == s.admins[id];
          }
        }
      case RefreshEvent(tok, now) =>
        if Refresh(k, Sha256Digest, s, tok, now).Ok? {
          var (resp, s1) := Refresh(k, Sha256Digest, s, tok, now).value;
          var j := k.decode(tok).value.sub;
          if id == j {
            assert t != resp.refreshToken;
          } else {
            assert s1.admins[id] == s.admins[id];
          }
        }
      case LogoutEvent(j) =>
    }
  }

  lemma {:induction false} RunKeepsRetired(k: Kit, s: State, es: seq<Event>, t: string)
    requires Lawful(k)
    requires UniqueUsernames(s.admins)
    requires Retired(k, s, t)
    ensures Retired(k, Run(k, Sha256Digest, s, es), t)
    decreases |es|
  {
    if |es| > 0 {
      StepKeepsRetired(k, s, es[0], t);
      RunKeepsRetired(k, Step(k, Sha256Digest, s, es[0]), es[1..], t);
    }
  }

  /**
   * Reuse after rotation, corrected: under the digest check a refresh token
   * that has been exchanged once is refused from then on, whatever calls
   * come between.
   */
  lemma ReuseAfterRotationFails(k: Kit, s: State, t: string, now: int, es: seq<Event>, later: int)
    requires Lawful(k)
    requires UniqueUsernames(s.admins)
    requires HashesFromThePast(k, s)
    requires Refresh(k, Sha256Digest, s, t, now).Ok?
    ensures var s1 := Refresh(k, Sha256Digest, s, t, now).value.1;
      UniqueUsernames(s1.admins) && Refresh(k, Sha256Digest, Run(k, Sha256Digest, s1, es), t, later).Err?
  {
    var (resp, s1) := Refresh(k, Sha256Digest, s, t, now).value;
    var id := k.decode(t).value.sub;
    assert UniqueUsernames(s1.admins) by {
      assert forall i | i in s.admins :: s1.admins[i].username == s.admins[i].username;
    }
    assert k.decode(t).value.tokenId < s.nonce;
    assert Retired(k, s1, t) by {
      assert Issued(k, resp.refreshToken, id, s.admins[id], now, s.nonce, s1.nonce);
      assert t != resp.refreshToken;
    }
    RunKeepsRetired(k, s1, es, t);
  }

  lemma {:induction false} RunKeepsHashesFromThePast(k: Kit, s: State, es: seq<Event>)
    requires Lawful(k)
    requires UniqueUsernames(s.admins)
    requires HashesFromThePast(k, s)
    ensures HashesFromThePast(k, Run(k, Sha256Digest, s, es))
    decreases |es|
  {
    if |es| > 0 {
      StepKeepsHashesFromThePast(k, s, es[0]);
      RunKeepsHashesFromThePast(k, Step(k, Sha256Digest, s, es[0]), es[1..]);
    }
  }

  /** The seeded table: every admin's refresh hash is null. */
  predicate Seeded(s: State) {
    forall id | id in s.admins :: s.admins[id].refreshTokenHash.None?
  }

  /**
   * Reuse after rotation from the seeded table, corrected: in any history,
   * a refresh token that is exchanged successfully can never be exchanged
   * again.
   */
  lemma ReuseAfterRotationInAnyHistory(k: Kit, s0: State, before: seq<Event>, t: string, now: int,
                                       after: seq<Event>, later: int)
    requires Lawful(k)
    requires UniqueUsernames(s0.admins)
    requires Seeded(s0)
    requires Refresh(k, Sha256Digest, Run(k, Sha256Digest, s0, before), t, now).Ok?
    ensures var s1 := Refresh(k, Sha256Digest, Run(k, Sha256Digest, s0, before), t, now).value.1;
      UniqueUsernames(s1.admins) && Refresh(k, Sha256Digest, Run(k, Sha256Digest, s1, after), t, later).Err?
  {
    RunKeepsHashesFromThePast(k, s0, before);
    ReuseAfterRotationFails(k, Run(k, Sha256Digest, s0, before), t, now, after, later);
  }

  /** Rotation chain: the refresh token a refresh returns is itself accepted before it expires. */
  lemma RotationChain(k: Kit, check: TokenCheck, s: State, t: string, now: int, later: int)
    requires Lawful(k)
    requires Refresh(k, check, s, t, now).Ok?
    requires later < now + RefreshTtl
    ensures var (resp, s1) := Refresh(k, check, s, t, now).value;
      Refresh(k, check, s1, resp.refreshToken, later).Ok?
  {
    var (resp, s1) := Refresh(k, check, s, t, now).value;
    var id := k.decode(t).value.sub;
    assert Opens(k, check, resp.refreshToken, s1.admins[id].refreshTokenHash.value);
  }

  /** An access token is never accepted by `refresh`. */
  lemma AccessTokenNotARefreshToken(k: Kit, check: TokenCheck, s: State, username: string, password: string,
                                    now: int, s2: State, later: int)
    requires Lawful(k)
    requires UniqueUsernames(s.admins)
    requires Login(k, check, s, username, password, now).Ok?
    ensures Refresh(k, check, s2, Login(k, check, s, username, password, now).value.0.accessToken, later)
              == Err(Unauthorized(InvalidRefresh))
  {
  }

  /**
   * The legacy migration happens once: after a plain-text row has been
   * migrated by a login, the same password logs in again through bcrypt
   * comparison and the stored password stays as it is.
   */
  lemma LegacyMigrationOnce(k: Kit, check: TokenCheck, s: State, id: int, password: string, now: int, later: int)
    requires Lawful(k)
    requires UniqueUsernames(s.admins)
    requires id in s.admins && s.admins[id].password == password
    requires !k.compare(password, s.admins[id].password)
    ensures Login(k, check, s, s.admins[id].username, password, now).Ok?
    ensures var s1 := Login(k, check, s, s.admins[id].username, password, now).value.1;
      && s1.admins[id].password == k.hash(password, s.nonce)
      && UniqueUsernames(s1.admins)
      && Login(k, check, s1, s.admins[id].username, password, later).Ok?
      && Login(k, check, s1, s.admins[id].username, password, later).value.1.admins[id].password
           == s1.admins[id].password
  {
    var u := s.admins[id].username;
    assert CredentialsAccepted(k, s, id, password);
    var s1 := Login(k, check, s, u, password, now).value.1;
    assert forall i | i in s.admins :: s1.admins[i].username == s.admins[i].username;
    assert k.compare(password, s1.admins[id].password);
    assert CredentialsAccepted(k, s1, id, password);
  }
}
