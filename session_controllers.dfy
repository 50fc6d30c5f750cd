/** Refresh-token rotation: the presented session is deleted, the user's oldest
    unexpired session is evicted when three or more remain, and one new session
    is created. */
module SessionControllers {
  import opened Values
  import opened AuthControllers

  /** The id of an unexpired session carrying `token`, when there is one. */
  predicate Presented(sessions: map<int, Session>, token: string, now: int, id: int)
  {
    id in sessions && sessions[id].refreshToken == token && sessions[id].expiresAt > now
  }

  /** `id` is a session among `ids` that no other session among them predates. */
  predicate Earliest(sessions: map<int, Session>, ids: set<int>, id: int)
    requires ids <= sessions.Keys
  {
    id in ids && forall o :: o in ids ==> sessions[id].createdAt <= sessions[o].createdAt
  }

  /** A set with a positive size has a member. */
  lemma NonEmptyHasMember(ids: set<int>)
    requires |ids| > 0
    ensures exists x :: x in ids
  {
    if forall x :: x !in ids {
      assert false;
    }
  }

  /** A non-empty set of sessions has an earliest one. */
  lemma {:induction false} EarliestExists(sessions: map<int, Session>, ids: set<int>)
    requires ids <= sessions.Keys && |ids| > 0
    ensures exists id :: Earliest(sessions, ids, id)
    decreases |ids|
  {
    NonEmptyHasMember(ids);
    var x :| x in ids;
    if |ids| == 1 {
      assert ids == {x} by {
        assert |ids - {x}| == 0;
      }
      assert Earliest(sessions, ids, x);
    } else {
      var rest := ids - {x};
      EarliestExists(sessions, rest);
      var y :| Earliest(sessions, rest, y);
      if sessions[x].createdAt <= sessions[y].createdAt {
        assert Earliest(sessions, ids, x);
      } else {
        assert Earliest(sessions, ids, y);
      }
    }
  }

  /** The session a refresh token presents; tokens are unique, so there is at
      most one. */
  ghost function PresentedSession(sessions: map<int, Session>, token: string, now: int): (id: int)
    requires exists id :: Presented(sessions, token, now, id)
    ensures Presented(sessions, token, now, id)
  {
    var id :| Presented(sessions, token, now, id); id
  }

  /** The success path of `refreshToken`, once an unexpired session carrying
      `token` has been found. */
  method Rotate(store: AuthStore, token: string, now: int, newToken: string, userAgent: string, ipAddress: string)
    returns (reply: Reply)
    requires store.Valid() && !store.TokenInUse(newToken)
    requires exists id :: Presented(store.sessions, token, now, id)
    modifies store
    ensures store.Valid() && store.users == old(store.users)
    ensures var id := PresentedSession(old(store.sessions), token, now);
      var u := old(store.sessions)[id].userId;
      var remaining := old(store.sessions) - {id};
      var created := Session(u, newToken, userAgent, ipAddress, now + SessionLifetime, now);
      && reply == Reply(200, Tokens(Claims(u, store.users[u].role), newToken))
      && id !in store.sessions
      && (forall a :: a in store.sessions ==> store.sessions[a].refreshToken != token)
      && (|Active(remaining, u, now)| < MaxSessions ==> store.sessions == remaining[old(store.nextSessionId) := created])
      && (|Active(remaining, u, now)| >= MaxSessions ==>
            exists oldest :: Earliest(remaining, Active(remaining, u, now), oldest)
              && store.sessions == (remaining - {oldest})[old(store.nextSessionId) := created])
      && |Active(store.sessions, u, now)| <= old(|Active(store.sessions, u, now)|)
      && (old(|Active(store.sessions, u, now)|) <= MaxSessions ==> |Active(store.sessions, u, now)| <= MaxSessions)
  {
    var id :| id in store.sessions && Presented(store.sessions, token, now, id);
    assert id == PresentedSession(store.sessions, token, now);
    ghost var n := store.nextSessionId;
    var u := store.sessions[id].userId;
    ghost var count := |Active(store.sessions, u, now)|;
    ActiveAfterRemove(store.sessions, id, u, now);
    store.DeleteSession(id);
    ghost var remaining := store.sessions;
    assert id !in remaining && n == store.nextSessionId && id < n;
    var active := Active(store.sessions, u, now);
    assert |active| == count - 1;
    if |active| >= MaxSessions {
      EarliestExists(store.sessions, active);
      var oldest :| Earliest(store.sessions, active, oldest);
      ActiveAfterRemove(store.sessions, oldest, u, now);
      store.DeleteSession(oldest);
      assert store.sessions == remaining - {oldest};
      assert |Active(store.sessions, u, now)| == count - 2;
    } else {
      assert store.sessions == remaining;
      assert |Active(store.sessions, u, now)| == count - 1;
    }
    ghost var evicted := store.sessions;
    assert id !in evicted && id != n;
    assert forall a :: a in evicted ==> a in old(store.sessions) && a != id && evicted[a] == old(store.sessions)[a];
    assert forall a :: a in evicted ==> evicted[a].refreshToken != token;
    var created := Session(u, newToken, userAgent, ipAddress, now + SessionLifetime, now);
    ActiveAfterInsert(store.sessions, store.nextSessionId, created, u, now);
    var _ := store.CreateSession(created);
    assert store.sessions == evicted[n := created];
    assert id !in store.sessions;
    forall a | a in store.sessions ensures store.sessions[a].refreshToken != token {
      if a != n {
        assert a in evicted;
      }
    }
    reply := Reply(200, Tokens(Claims(u, store.users[u].role), newToken));
  }

  /** `refreshToken`: 400 without a token, 500 when the token is not a string
      (the database client rejects it), 401 when no unexpired session
      carries it. Otherwise the presented session is deleted; if the user still
      holds three or more unexpired sessions, the earliest-created one is
      deleted too; then a session with the new token `newToken`, expiring seven
      days after `now`, is created for the same user. The user's count of
      unexpired sessions never grows, so at most three stays at most three. */
  method RefreshToken(store: AuthStore, token: Field, now: int, newToken: string, userAgent: string, ipAddress: string)
    returns (reply: Reply)
    requires store.Valid() && !store.TokenInUse(newToken)
    modifies store
    ensures store.Valid() && store.users == old(store.users)
    ensures !Given(token) ==> reply == Reply(400, Note("Missing refresh token")) && unchanged(store)
    ensures Given(token) && !token.Text? ==> reply == Reply(500, Fault) && unchanged(store)
    ensures Given(token) && token.Text? && !(exists id :: Presented(old(store.sessions), token.value, now, id)) ==>
      reply == Reply(401, Note("Invalid or expired refresh token")) && unchanged(store)
    ensures Given(token) && token.Text? && (exists id :: Presented(old(store.sessions), token.value, now, id)) ==>
      var id := PresentedSession(old(store.sessions), token.value, now);
      var u := old(store.sessions)[id].userId;
      var remaining := old(store.sessions) - {id};
      var created := Session(u, newToken, userAgent, ipAddress, now + SessionLifetime, now);
      && reply == Reply(200, Tokens(Claims(u, store.users[u].role), newToken))
      && id !in store.sessions
      && (forall a :: a in store.sessions ==> store.sessions[a].refreshToken != token.value)
      && (|Active(remaining, u, now)| < MaxSessions ==> store.sessions == remaining[old(store.nextSessionId) := created])
      && (|Active(remaining, u, now)| >= MaxSessions ==>
            exists oldest :: Earliest(remaining, Active(remaining, u, now), oldest)
              && store.sessions == (remaining - {oldest})[old(store.nextSessionId) := created])
      && |Active(store.sessions, u, now)| <= old(|Active(store.sessions, u, now)|)
      && (old(|Active(store.sessions, u, now)|) <= MaxSessions ==> |Active(store.sessions, u, now)| <= MaxSessions)
  {
    if !Given(token) {
      return Reply(400, Note("Missing refresh token"));
    }
    if !token.Text? {
      // the database client refuses a non-string token
      return Reply(500, Fault);
    }
    if !exists id :: id in store.sessions && Presented(store.sessions, token.value, now, id) {
      return Reply(401, Note("Invalid or expired refresh token"));
    }
    reply := Rotate(store, token.value, now, newToken, userAgent, ipAddress);
  }
}
