/** `admit_session` of `account.rs`, on values: one account's limits, and a ranking tried in turn. */
module Admission {
  import opened Prelude
  import opened MemoryStores
  import opened AccountTable
  import opened AccountRanking

  /** What the cache holds about one account. */
  datatype Gate = Gate(activity: Activity, quota: Quota)

  /** Session limit first, then the quota; the second is not asked when the first refuses. */
  function TryOne(g: Gate, s: SessionCall, q: QuotaCall): (Gate, bool) {
    var (activity, ok) := AdmitSession(g.activity, s, SESSION_TTL);
    if !ok then (Gate(activity, g.quota), false)
    else
      var (quota, ok') := AdmitQuota(g.quota, q);
      (Gate(activity, quota), ok')
  }

  /**
   * A refused attempt never changes the quota window, but it may leave the session in the
   * account's live set: exactly when the session limit let it in and the quota did not.
   */
  lemma RefusedAttemptLeavesAtMostTheSession(g: Gate, s: SessionCall, q: QuotaCall)
    requires !TryOne(g, s, q).1
    ensures var after := TryOne(g, s, q).0;
      && Kept(after.quota.devices, q.win) == Kept(g.quota.devices, q.win)
      && Kept(after.quota.sessions, q.win) == Kept(g.quota.sessions, q.win)
      && (s.session in Live(after.activity, s.now, SESSION_TTL) <==> AdmitSession(g.activity, s, SESSION_TTL).1)
      && (forall other :: other != s.session ==>
            (other in Live(after.activity, s.now, SESSION_TTL) <==> other in Live(g.activity, s.now, SESSION_TTL)))
  {
    if AdmitSession(g.activity, s, SESSION_TTL).1 {
      RefusalChangesNothing(g.quota, q);
    }
  }

  /** The refused session then holds a live place of an account that serves it no request. */
  lemma RefusedSessionMayHoldAPlace()
    ensures var g := Gate(map[], Quota(map["d" := 3], map[]));
      var (after, ok) := TryOne(g, SessionCall("s", 1, false, 0), QuotaCall("e", "s", 1, 0, false, 3));
      !ok && !TryOne(after, SessionCall("t", 1, false, 0), QuotaCall("d", "t", 1, 0, false, 3)).1
  {
    var g := Gate(map[], Quota(map["d" := 3], map[]));
    assert Kept(g.quota.devices, 3) == map["d" := 3];
    assert Live(g.activity, 0, SESSION_TTL) == map[];
    var after := TryOne(g, SessionCall("s", 1, false, 0), QuotaCall("e", "s", 1, 0, false, 3)).0;
    assert after.activity == map["s" := 0];
    assert Live(after.activity, 0, SESSION_TTL) == map["s" := 0];
  }

  function AgeHours(a: Account, now: Instant): real {
    (Elapsed(now, a.createdAt) / 1000) as real / 3600.0
  }

  /** The limit a new session meets; bound sessions are forced past it. */
  function SessionLimit(w: World, a: Account): int {
    WarmEffectiveMax(a.maxSessions, if a.warmupSkip then 0 else AgeCap(w.warmup, AgeHours(a, w.now)))
  }

  /** What other requests may have made of the cache. */
  datatype CacheState = CacheState(
    sessions: Bindings, acctSessions: map<AccountId, Activity>,
    quotaDevices: map<AccountId, Members>, quotaSessions: map<AccountId, Members>)

  /** What one round of admission or selection sees; `others` is what happened to the cache just before it. */
  datatype Round = Round(world: World, shuffle: seq<Scored> -> seq<Scored>, others: Option<CacheState>)

  /** Who asks to be admitted. */
  datatype Client = Client(session: string, device: string, hash: string)

  function NewSession(w: World, c: Client, a: Account): SessionCall {
    SessionCall(c.session, SessionLimit(w, a), false, w.now)
  }

  function NewQuota(w: World, c: Client, a: Account): QuotaCall {
    QuotaCall(c.device, c.session, a.deviceQuota, a.sessionQuota, false, Window(w.nowSecs, QUOTA_TTL_SECS))
  }

  function Attempt(w: World, c: Client, a: Account, g: Gate): (Gate, bool) {
    TryOne(g, NewSession(w, c, a), NewQuota(w, c, a))
  }

  /** A bound session is let in whatever the limits. */
  function Force(w: World, c: Client, a: Account, g: Gate): Gate {
    TryOne(g, NewSession(w, c, a).(max := a.maxSessions, force := true), NewQuota(w, c, a).(force := true)).0
  }

  /** Forcing enters the session and its ids, and pushes nobody else out. */
  lemma ForcedSessionIsIn(w: World, c: Client, a: Account, g: Gate)
    ensures var after := Force(w, c, a, g);
      var win := Window(w.nowSecs, QUOTA_TTL_SECS);
      && Live(after.activity, w.now, SESSION_TTL) == Live(g.activity, w.now, SESSION_TTL)[c.session := w.now]
      && Kept(after.quota.devices, win) == Enter(Kept(g.quota.devices, win), c.device, win)
      && Kept(after.quota.sessions, win) == Enter(Kept(g.quota.sessions, win), c.session, win)
  {
  }

  function Bind(sessions: Bindings, hash: string, id: AccountId, now: Instant): Bindings {
    if hash == "" then sessions else sessions[SessionKey(hash) := Binding(id, now + STICKY_SESSION_TTL)]
  }

  /** What looking a hash up leaves of the bindings: an expired one is removed. */
  function Looked(sessions: Bindings, hash: string, now: Instant): Bindings {
    if hash != "" && Bound(sessions, hash, now).None? then sessions - {SessionKey(hash)} else sessions
  }

  /** What selection leaves before it binds anew: a binding that cannot be used is removed too. */
  function Released(w: World, f: Filter, sessions: Bindings, hash: string): Bindings {
    var id := Bound(sessions, hash, w.now);
    if hash != "" && Sticky(w, f, sessions, hash).None? && !(id.Some? && id.value <= 0)
    then sessions - {SessionKey(hash)} else sessions
  }

  /** Asking again at once gets the same refusal. */
  lemma RefusalRepeats(g: Gate, s: SessionCall, q: QuotaCall)
    requires !TryOne(g, s, q).1
    ensures !TryOne(TryOne(g, s, q).0, s, q).1
  {
    var after := TryOne(g, s, q).0;
    if AdmitSession(g.activity, s, SESSION_TTL).1 {
      RefusalChangesNothing(g.quota, q);
    } else {
      assert Live(after.activity, s.now, SESSION_TTL) == Live(g.activity, s.now, SESSION_TTL);
    }
  }

  lemma RefusedAgain(w: World, c: Client, a: Account, g: Gate)
    requires !Attempt(w, c, a, g).1
    ensures !Attempt(w, c, a, Attempt(w, c, a, g).0).1
  {
    RefusalRepeats(g, NewSession(w, c, a), NewQuota(w, c, a));
  }

  /** Looking up uncovers no binding, and removes only one that had expired. */
  lemma LookingUpKeepsTheRest(w: World, f: Filter, sessions: Bindings, hash: string)
    ensures Sticky(w, f, Looked(sessions, hash, w.now), hash) == Sticky(w, f, sessions, hash)
    ensures Sticky(w, f, sessions, hash).Some? ==> Looked(sessions, hash, w.now) == sessions
  {
  }

  /** What the cache holds about every account; an account it has no entry for has an empty gate. */
  type Gates = imap<AccountId, Gate>

  ghost predicate Total(gates: Gates) {
    forall id :: id in gates
  }

  /** Offers the session to the accounts in turn; the first that lets it in keeps it. */
  ghost function Offer(w: World, c: Client, ranked: seq<Account>, gates: Gates): (r: (Gates, Option<Account>))
    requires Total(gates)
    ensures Total(r.0)
  {
    if ranked == [] then (gates, None)
    else
      var a := ranked[0];
      var (gate, ok) := Attempt(w, c, a, gates[a.id]);
      if ok then (gates[a.id := gate], Some(a)) else Offer(w, c, ranked[1..], gates[a.id := gate])
  }

  /** The gates of accounts not offered to stay, and those of accounts that refused keep the refusal. */
  lemma {:induction false} OfferTouchesOnlyTheOffered(w: World, c: Client, ranked: seq<Account>, gates: Gates,
      id: AccountId)
    requires Total(gates) && forall a :: a in ranked ==> a.id != id
    ensures Offer(w, c, ranked, gates).0[id] == gates[id]
  {
    if ranked != [] {
      assert ranked[0] in ranked;
      var next := gates[ranked[0].id := Attempt(w, c, ranked[0], gates[ranked[0].id]).0];
      OfferTouchesOnlyTheOffered(w, c, ranked[1..], next, id);
    }
  }

  /**
   * First fit: the account at `n` is served exactly when it is the first that has room; those
   * before it are left as their refusal left them, those after it are not touched.
   */
  lemma {:induction false} OfferIsFirstFit(w: World, c: Client, ranked: seq<Account>, gates: Gates, n: nat)
    requires Total(gates) && DistinctIds(ranked) && n <= |ranked|
    requires forall k :: 0 <= k < n ==> !Attempt(w, c, ranked[k], gates[ranked[k].id]).1
    requires n < |ranked| ==> Attempt(w, c, ranked[n], gates[ranked[n].id]).1
    ensures var (after, r) := Offer(w, c, ranked, gates);
      && r == (if n < |ranked| then Some(ranked[n]) else None)
      && (forall k :: 0 <= k < |ranked| && k <= n ==>
        after[ranked[k].id] == Attempt(w, c, ranked[k], gates[ranked[k].id]).0)
      && (forall k :: n < k < |ranked| ==> after[ranked[k].id] == gates[ranked[k].id])
  {
    hide Attempt;
    if ranked != [] {
      var a, rest := ranked[0], ranked[1..];
      assert forall x :: x in rest ==> x.id != a.id;
      var next := gates[a.id := Attempt(w, c, a, gates[a.id]).0];
      if n > 0 {
        assert forall k :: 0 <= k < |rest| ==> next[rest[k].id] == gates[ranked[k + 1].id];
        OfferIsFirstFit(w, c, rest, next, n - 1);
        OfferTouchesOnlyTheOffered(w, c, rest, next, a.id);
        var after := Offer(w, c, rest, next).0;
        forall k | 0 <= k < |ranked| && k <= n
          ensures after[ranked[k].id] == Attempt(w, c, ranked[k], gates[ranked[k].id]).0
        {
          if k > 0 {
            assert ranked[k] == rest[k - 1];
          }
        }
        forall k | n < k < |ranked| ensures after[ranked[k].id] == gates[ranked[k].id] {
          assert ranked[k] == rest[k - 1];
        }
      }
    }
  }

  /** Where the first account with room is. */
  lemma FirstWithRoom(w: World, c: Client, ranked: seq<Account>, gates: Gates) returns (n: nat)
    requires Total(gates)
    ensures n <= |ranked|
    ensures forall k :: 0 <= k < n ==> !Attempt(w, c, ranked[k], gates[ranked[k].id]).1
    ensures n < |ranked| ==> Attempt(w, c, ranked[n], gates[ranked[n].id]).1
  {
    hide Attempt;
    n := 0;
    while n < |ranked| && !Attempt(w, c, ranked[n], gates[ranked[n].id]).1
      invariant n <= |ranked|
      invariant forall k :: 0 <= k < n ==> !Attempt(w, c, ranked[k], gates[ranked[k].id]).1
    {
      n := n + 1;
    }
  }

  /** Every usable account that ranks strictly before the one served was full. */
  lemma BetterAccountsWereFull(w: World, c: Client, ranked: seq<Account>, scores: seq<Scored>, gates: Gates, k: nat)
    requires Total(gates) && DistinctIds(ranked) && Sorted(scores) && |scores| == |ranked| && k < |ranked|
    requires forall i :: 0 <= i < |ranked| ==> scores[i].account == ranked[i]
    ensures var r := Offer(w, c, ranked, gates).1;
      r.Some? ==> exists n ::
        && 0 <= n < |ranked| && ranked[n] == r.value
        && (NotAfter(scores[n], scores[k]) || !Attempt(w, c, ranked[k], gates[ranked[k].id]).1)
  {
    hide Attempt;
    var n := FirstWithRoom(w, c, ranked, gates);
    OfferIsFirstFit(w, c, ranked, gates, n);
    if n < |ranked| && n <= k {
      SortedAt(scores, n, k);
    }
  }

  /** A list of exactly the accounts of the tier to choose from, once each. */
  ghost predicate RanksTier(w: World, f: Filter, ranked: seq<Account>) {
    (forall a :: a in ranked <==> InTier(w, f, a)) && DistinctIds(ranked)
  }

  /** Every usable account would refuse the client. */
  ghost predicate AllFull(w: World, c: Client, f: Filter, gates: Gates)
    requires Total(gates)
  {
    forall a :: InTier(w, f, a) ==> !Attempt(w, c, a, gates[a.id]).1
  }

  /** When all are full, all were asked, and each would refuse again. */
  lemma AllRefuseAgain(w: World, c: Client, ranked: seq<Account>, gates: Gates, k: nat)
    requires Total(gates) && DistinctIds(ranked) && Offer(w, c, ranked, gates).1.None? && k < |ranked|
    ensures !Attempt(w, c, ranked[k], gates[ranked[k].id]).1
    ensures !Attempt(w, c, ranked[k], Offer(w, c, ranked, gates).0[ranked[k].id]).1
  {
    hide Attempt;
    var n := FirstWithRoom(w, c, ranked, gates);
    OfferIsFirstFit(w, c, ranked, gates, n);
    RefusedAgain(w, c, ranked[k], gates[ranked[k].id]);
  }

  lemma NobodyHasRoom(w: World, c: Client, f: Filter, ranked: seq<Account>, gates: Gates)
    requires Total(gates) && RanksTier(w, f, ranked) && Offer(w, c, ranked, gates).1.None?
    ensures AllFull(w, c, f, Offer(w, c, ranked, gates).0)
  {
    hide Attempt, InTier, Offer;
    forall a | InTier(w, f, a) ensures !Attempt(w, c, a, Offer(w, c, ranked, gates).0[a.id]).1 {
      var k :| 0 <= k < |ranked| && ranked[k] == a;
      AllRefuseAgain(w, c, ranked, gates, k);
    }
  }

  /** The account served has room, and keeps what letting the session in left. */
  lemma ServedHadRoom(w: World, c: Client, ranked: seq<Account>, gates: Gates)
    requires Total(gates) && DistinctIds(ranked) && Offer(w, c, ranked, gates).1.Some?
    ensures var (after, r) := Offer(w, c, ranked, gates);
      r.value in ranked && (after[r.value.id], true) == Attempt(w, c, r.value, gates[r.value.id])
  {
    hide Attempt;
    var n := FirstWithRoom(w, c, ranked, gates);
    OfferIsFirstFit(w, c, ranked, gates, n);
  }

  /** What admission has arranged for the client with an account. */
  ghost predicate Placed(w: World, f: Filter, c: Client, a: Account, g: Gate, sessions: Bindings) {
    var win := Window(w.nowSecs, QUOTA_TTL_SECS);
    && a in w.accounts && Schedulable(a, w.now) && Passes(a.id, f) && !CostExhausted(a, w.cost(a.id))
    && c.session in Live(g.activity, w.now, SESSION_TTL)
    && (c.session != "" ==> c.session in Kept(g.quota.sessions, win))
    && (c.device != "" ==> c.device in Kept(g.quota.devices, win))
    && (c.hash != "" ==> Sticky(w, f, sessions, c.hash) == Some(a))
  }

  /**
   * A usable binding stays usable while the table, the costs and the binding itself stay, exactly
   * until it expires: what was admitted is what the next selection finds, whatever else changed.
   */
  lemma BindingIsUsableExactlyUntilItExpires(
      w: World, later: World, f: Filter, sessions: Bindings, after: Bindings, hash: string)
    requires Sticky(w, f, sessions, hash).Some?
    requires later.accounts == w.accounts && later.cost == w.cost && w.now <= later.now
    requires SessionKey(hash) in after && after[SessionKey(hash)] == sessions[SessionKey(hash)]
    ensures Sticky(later, f, after, hash) ==
      if later.now <= sessions[SessionKey(hash)].expiresAt then Sticky(w, f, sessions, hash) else None
  {
  }

  lemma ForcedIsPlaced(w: World, f: Filter, c: Client, a: Account, g: Gate, sessions: Bindings)
    requires Sticky(w, f, sessions, c.hash) == Some(a)
    ensures Placed(w, f, c, a, Force(w, c, a, g), sessions)
  {
    ForcedSessionIsIn(w, c, a, g);
  }

  lemma AdmittedIsPlaced(w: World, f: Filter, c: Client, a: Account, g: Gate, sessions: Bindings)
    requires WellFormed(w) && InTier(w, f, a) && Attempt(w, c, a, g).1
    ensures Placed(w, f, c, a, Attempt(w, c, a, g).0, Bind(sessions, c.hash, a.id, w.now))
  {
    GetByIdFinds(w, a);
    assert a.id > 0;
  }
}
