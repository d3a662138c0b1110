/**
 * The client session manager over sequences of events: at most one
 * refresh call is ever outstanding, concurrent 401s share it, each
 * waiting request is replayed exactly once, and a replayed request never
 * waits on a refresh again.
 */
module ClientTraces {
  import opened Wrappers
  import opened Text
  import opened Envelope
  import opened ClientSession

  /** Every refresh post but the one the open slot waits for has been answered. */
  predicate OneRefreshInFlight(c: Client) {
    && |c.sent| == c.settled + (if c.slot.Pending? then 1 else 0)
    && (c.slot.Pending? ==> |c.slot.waiters| > 0)
  }

  lemma StepKeepsOneRefreshInFlight(c: Client, e: Event)
    requires OneRefreshInFlight(c)
    ensures OneRefreshInFlight(Step(c, e).0)
  {
  }

  /** No sequence of events ever has two refresh calls outstanding. */
  lemma {:induction false} RunKeepsOneRefreshInFlight(c: Client, es: seq<Event>)
    requires OneRefreshInFlight(c)
    ensures OneRefreshInFlight(Run(c, es).0)
    decreases |es|
  {
    if |es| > 0 {
      RunKeepsOneRefreshInFlight(c, es[..|es| - 1]);
      StepKeepsOneRefreshInFlight(Run(c, es[..|es| - 1]).0, es[|es| - 1]);
    }
  }

  /**
   * Every replayed request still unanswered is in flight with its retry
   * mark set, and is not waiting on the refresh.
   */
  predicate ReplaysMarked(c: Client) {
    forall id | id in c.replaying ::
      && id in c.configs && c.configs[id].retry
      && (c.slot.Pending? ==> id !in Ids(c.slot.waiters))
  }

  lemma StepKeepsReplaysMarked(c: Client, e: Event)
    requires ReplaysMarked(c)
    ensures ReplaysMarked(Step(c, e).0)
  {
    if e.RefreshSettled? && c.slot.Pending? {
      var c' := Step(c, e).0;
      forall id | id in c'.replaying
        ensures id in c'.configs && c'.configs[id].retry
      {
        if id !in Ids(c.slot.waiters) {
          assert id in c.replaying;
        }
      }
    }
  }

  /** The replay marks hold after any sequence of events. */
  lemma {:induction false} RunKeepsReplaysMarked(c: Client, es: seq<Event>)
    requires ReplaysMarked(c)
    ensures ReplaysMarked(Run(c, es).0)
    decreases |es|
  {
    if |es| > 0 {
      RunKeepsReplaysMarked(c, es[..|es| - 1]);
      StepKeepsReplaysMarked(Run(c, es[..|es| - 1]).0, es[|es| - 1]);
    }
  }

  /**
   * Whatever answers a replayed request, it neither posts a refresh nor
   * joins the pending one: the request leaves the replaying set, and the
   * slot and the posted refresh tokens are unchanged.
   */
  lemma ReplayNeverWaitsAgain(c: Client, id: nat, reply: Reply)
    requires ReplaysMarked(c) && id in c.replaying
    ensures var (c', outs) := Step(c, Respond(id, reply));
      && c'.slot == c.slot && c'.sent == c.sent
      && id !in c'.replaying && id !in c'.configs
      && |outs| == 1 && (outs[0].Delivered? || outs[0].Failed?)
  {
    NoSecondReplay(c.configs[id], reply);
  }

  /**
   * Over any history starting with the marks in place, each reply to a
   * replayed request leaves the refresh slot and the posted tokens alone.
   */
  lemma ReplaysNeverRefreshInAnyHistory(c: Client, es: seq<Event>, id: nat, reply: Reply)
    requires ReplaysMarked(c)
    requires id in Run(c, es).0.replaying
    ensures var (c', _) := Run(c, es + [Respond(id, reply)]);
      c'.slot == Run(c, es).0.slot && c'.sent == Run(c, es).0.sent
  {
    var es' := es + [Respond(id, reply)];
    assert es'[..|es'| - 1] == es;
    RunKeepsReplaysMarked(c, es);
    ReplayNeverWaitsAgain(Run(c, es).0, id, reply);
  }

  /** While a refresh is pending, a further 401 joins it and posts nothing. */
  lemma PendingRefreshIsShared(c: Client, id: nat, message: string, data: string)
    requires c.slot.Pending? && id in c.configs && id !in c.replaying
    requires !c.configs[id].retry && !IsRefreshRequest(Some(c.configs[id]))
    ensures var (c', outs) := Step(c, Respond(id, Fulfilled(ApiResponse(401, message, data))));
      && c'.sent == c.sent
      && c'.slot == Pending(c.slot.waiters + [Waiter(id, c.configs[id])])
      && id !in c'.configs
      && outs == []
  {
  }

  /** With no refresh token stored, a 401 fails at once and leaves the slot and the wire alone. */
  lemma MissingRefreshTokenFailsFast(c: Client, id: nat, message: string, data: string)
    requires c.slot.Idle? && GetRefreshToken(c.browser.storage) == "" && id in c.configs
    requires !c.configs[id].retry && !IsRefreshRequest(Some(c.configs[id]))
    ensures var (c', outs) := Step(c, Respond(id, Fulfilled(ApiResponse(401, message, data))));
      && c'.slot.Idle? && c'.sent == c.sent
      && outs == [Failed(id, ClientError("missing refresh token", None))]
      && c'.browser.pathname == LoginPath
  {
  }

  /** Each waiter's request answered with business code 401. */
  function Unauthorized(ws: seq<Waiter>): (es: seq<Event>)
    ensures |es| == |ws|
    ensures forall i | 0 <= i < |ws| :: es[i] == Respond(ws[i].id, Fulfilled(ApiResponse(401, "", "")))
  {
    seq(|ws|, i requires 0 <= i < |ws| => Respond(ws[i].id, Fulfilled(ApiResponse(401, "", ""))))
  }

  /**
   * Requests that may be replayed: distinct requests in flight with the
   * waiters' configs, originals, not the refresh call, and not replays.
   */
  predicate Replayable(c: Client, ws: seq<Waiter>) {
    && (forall i, j | 0 <= i < j < |ws| :: ws[i].id != ws[j].id)
    && (forall i | 0 <= i < |ws| ::
          && ws[i].id in c.configs && c.configs[ws[i].id] == ws[i].config
          && ws[i].id !in c.replaying
          && !ws[i].config.retry && !IsRefreshRequest(Some(ws[i].config)))
  }

  lemma IdsOfPrefix(ws: seq<Waiter>)
    requires |ws| > 0
    ensures Ids(ws) == Ids(ws[..|ws| - 1]) + {ws[|ws| - 1].id}
  {
    var front := ws[..|ws| - 1];
    forall id | id in Ids(ws) ensures id in Ids(front) + {ws[|ws| - 1].id} {
      var i :| 0 <= i < |ws| && ws[i].id == id;
      if i < |ws| - 1 { assert front[i] == ws[i]; }
    }
    forall id | id in Ids(front) ensures id in Ids(ws) {
      var i :| 0 <= i < |front| && front[i].id == id;
      assert ws[i] == front[i];
    }
  }

  /**
   * From an idle slot with a refresh token stored, any number of requests
   * meeting a 401 open a single refresh call and all wait on it, in order.
   */
  lemma {:induction false} ConcurrentUnauthorizedJoinOneRefresh(c: Client, ws: seq<Waiter>)
    requires c.slot.Idle? && GetRefreshToken(c.browser.storage) != ""
    requires |ws| > 0 && Replayable(c, ws)
    ensures Run(c, Unauthorized(ws))
              == (c.(slot := Pending(ws), configs := c.configs - Ids(ws), sent := c.sent + [GetRefreshToken(c.browser.storage)]), [])
    decreases |ws|
  {
    var es := Unauthorized(ws);
    var front := ws[..|ws| - 1];
    var last := ws[|ws| - 1];
    var rt := GetRefreshToken(c.browser.storage);
    assert es[..|es| - 1] == Unauthorized(front);
    IdsOfPrefix(ws);
    var (c1, outs1) := Run(c, es[..|es| - 1]);
    var reply := Fulfilled(ApiResponse(401, "", ""));
    assert es[|es| - 1] == Respond(last.id, reply);
    if |ws| == 1 {
      assert es[..|es| - 1] == [];
      assert c1 == c && outs1 == [];
      assert Ids(ws) == {last.id};
      assert c1.configs[last.id] == last.config;
      assert c1.replaying - {last.id} == c1.replaying;
      var c2 := c1.(configs := c1.configs - {last.id}, replaying := c1.replaying - {last.id});
      assert c2 == c.(configs := c.configs - Ids(ws));
      assert Step(c1, es[|es| - 1]) == JoinRefresh(c2, last);
      assert JoinRefresh(c2, last) == (c2.(slot := Pending([last]), sent := c.sent + [rt]), []);
      assert Run(c, es) == (JoinRefresh(c2, last).0, outs1 + JoinRefresh(c2, last).1);
      assert [last] == ws;
      assert Run(c, es).1 == [];
      assert Run(c, es).0.slot == Pending(ws);
      assert Run(c, es).0 == c.(slot := Pending(ws), configs := c.configs - Ids(ws), sent := c.sent + [rt]);
    } else {
      assert Replayable(c, front) by {
        forall i, j | 0 <= i < j < |front| ensures front[i].id != front[j].id {
          assert front[i] == ws[i] && front[j] == ws[j];
        }
        forall i | 0 <= i < |front| ensures front[i] == ws[i] { }
      }
      ConcurrentUnauthorizedJoinOneRefresh(c, front);
      assert c1 == c.(slot := Pending(front), configs := c.configs - Ids(front), sent := c.sent + [rt]) && outs1 == [];
      assert last.id !in Ids(front) by {
        forall i | 0 <= i < |front| ensures front[i].id != last.id {
          assert front[i] == ws[i];
        }
      }
      assert c1.configs[last.id] == last.config;
      assert c1.replaying - {last.id} == c1.replaying;
      assert c1.configs - {last.id} == c.configs - Ids(ws);
      assert front + [last] == ws;
    }
  }

  /** The refresh answer carrying a new token pair. */
  function Renewed(accessToken: string, refreshToken: string): RefreshReply {
    RefreshAnswered(0, OkMessage, Some(RefreshTokenResult(None, Some(accessToken), Some(refreshToken))))
  }

  /**
   * A refresh answered with a new token pair stores the pair and replays
   * every waiter, in order, as a retry carrying the new access token.
   */
  lemma RenewedReplaysAllWaiters(c: Client, accessToken: string, refreshToken: string)
    requires c.slot.Pending? && accessToken != "" && refreshToken != ""
    ensures var (c', outs) := SettleRefresh(c, Renewed(accessToken, refreshToken));
      var ws := c.slot.waiters;
      && c'.slot.Idle? && c'.sent == c.sent
      && |outs| == |ws|
      && (forall i | 0 <= i < |ws| ::
            outs[i] == Replayed(ws[i].id, ws[i].config.(authorization := Some(Bearer(accessToken)), retry := true)))
      && (forall i | 0 <= i < |ws| :: ws[i].id in c'.replaying && ws[i].id in c'.configs && c'.configs[ws[i].id].retry)
      && GetAccessToken(c'.browser.storage) == accessToken
      && GetRefreshToken(c'.browser.storage) == refreshToken
  {
    var ws := c.slot.waiters;
    var reply := Renewed(accessToken, refreshToken);
    var result := RefreshResult(c.browser.storage, reply);
    assert result == PersistTokens(c.browser.storage, RefreshTokenResult(None, Some(accessToken), Some(refreshToken)));
    var storage' := result.value.1;
    var (b', configs', outs) := Resume(c.browser.(storage := storage'), c.configs, Ok(accessToken), ws);
    assert SettleRefresh(c, reply) == (Client(b', Idle, configs', c.replaying + Ids(ws), c.sent, c.settled + 1), outs);
    forall i | 0 <= i < |ws| ensures ws[i].id in Ids(ws) { }
  }

  /**
   * Single flight end to end: n requests meet a 401 together; exactly one
   * refresh call goes out, and when it succeeds every request is replayed
   * exactly once, as a retry carrying the new access token, and is in
   * flight again marked as a replay.
   */
  lemma SingleFlightReplaysEachOnce(c: Client, ws: seq<Waiter>, accessToken: string, refreshToken: string)
    requires c.slot.Idle? && GetRefreshToken(c.browser.storage) != ""
    requires |ws| > 0 && Replayable(c, ws)
    requires accessToken != "" && refreshToken != ""
    ensures var (c', outs) := Run(c, Unauthorized(ws) + [RefreshSettled(Renewed(accessToken, refreshToken))]);
      && |c'.sent| == |c.sent| + 1
      && c'.slot.Idle?
      && |outs| == |ws|
      && (forall i | 0 <= i < |ws| ::
            outs[i] == Replayed(ws[i].id, ws[i].config.(authorization := Some(Bearer(accessToken)), retry := true)))
      && (forall i | 0 <= i < |ws| :: ws[i].id in c'.replaying && ws[i].id in c'.configs && c'.configs[ws[i].id].retry)
      && GetAccessToken(c'.browser.storage) == accessToken
      && GetRefreshToken(c'.browser.storage) == refreshToken
  {
    var es := Unauthorized(ws) + [RefreshSettled(Renewed(accessToken, refreshToken))];
    assert es[..|es| - 1] == Unauthorized(ws);
    ConcurrentUnauthorizedJoinOneRefresh(c, ws);
    var c1 := c.(slot := Pending(ws), configs := c.configs - Ids(ws), sent := c.sent + [GetRefreshToken(c.browser.storage)]);
    var reply := Renewed(accessToken, refreshToken);
    assert Run(c, es) == (SettleRefresh(c1, reply).0, [] + SettleRefresh(c1, reply).1);
    RenewedReplaysAllWaiters(c1, accessToken, refreshToken);
  }

  /**
   * A replayed request that fails, for whatever reason, fails its caller
   * and clears auth and redirects to "/login", not only when the refresh
   * fails: the original request's catch handles every replay error.
   */
  lemma FailedReplayLogsOut(c: Client, id: nat, reply: Reply)
    requires ReplaysMarked(c) && id in c.replaying
    requires !(reply.Fulfilled? && reply.payload.code == 0)
    ensures var (c', outs) := Step(c, Respond(id, reply));
      && |outs| == 1 && outs[0].Failed? && outs[0].id == id
      && GetAccessToken(c'.browser.storage) == "" && GetRefreshToken(c'.browser.storage) == ""
      && c'.browser.pathname == LoginPath
      && c'.browser.logoutEvents == c.browser.logoutEvents + 1
  {
    NoSecondReplay(c.configs[id], reply);
  }

  /**
   * A failed refresh, whether the call failed, answered a non-zero code or
   * carried no access token, fails every waiter with its error and logs
   * out once per waiter.
   */
  lemma FailedRefreshFailsAllWaiters(c: Client, reply: RefreshReply)
    requires c.slot.Pending? && |c.slot.waiters| > 0
    requires RefreshResult(c.browser.storage, reply).Err?
    ensures var (c', outs) := Step(c, RefreshSettled(reply));
      && c'.slot.Idle?
      && |outs| == |c.slot.waiters|
      && (forall i | 0 <= i < |outs| ::
            outs[i] == Failed(c.slot.waiters[i].id, RefreshResult(c.browser.storage, reply).error))
      && c'.browser.pathname == LoginPath
      && GetAccessToken(c'.browser.storage) == "" && GetRefreshToken(c'.browser.storage) == ""
      && c'.browser.logoutEvents == c.browser.logoutEvents + |c.slot.waiters|
  {
  }
}
