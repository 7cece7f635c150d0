/**
 * Which limit of an account guards which of its sets: admission said over the sets of ids and the
 * account's own fields.
 */
module AdmissionLimits {
  import opened Prelude
  import opened MemoryStores
  import opened AccountTable
  import opened AccountRanking
  import opened Admission

  /** The sessions seen less than a minute ago. */
  ghost function LiveNow(w: World, g: Gate): set<string> {
    set s | s in g.activity && Elapsed(w.now, g.activity[s]) < SESSION_TTL
  }

  ghost function InWindow(m: Members, w: World): set<string> {
    set id | id in m && m[id] == Window(w.nowSecs, QUOTA_TTL_SECS)
  }

  /** The devices and the sessions the account has let in today. */
  ghost function DevicesToday(w: World, g: Gate): set<string> {
    InWindow(g.quota.devices, w)
  }

  ghost function SessionsToday(w: World, g: Gate): set<string> {
    InWindow(g.quota.sessions, w)
  }

  /** A limit that is not positive is none; sizes are compared as 32-bit integers. */
  predicate RoomBeside(n: nat, max: int) {
    max <= 0 || AsI32(n) < max
  }

  function WarmupCap(w: World, a: Account): int {
    if a.warmupSkip then 0 else AgeCap(w.warmup, AgeHours(a, w.now))
  }

  /** The age is in hours, to the second. */
  lemma AgeIsInHours(a: Account, hours: nat, minutes: nat, seconds: nat)
    ensures AgeHours(a, a.createdAt + ((hours * 60 + minutes) * 60 + seconds) * 1000) ==
      hours as real + minutes as real / 60.0 + seconds as real / 3600.0
  {
    var total := (hours * 60 + minutes) * 60 + seconds;
    assert Elapsed(a.createdAt + total * 1000, a.createdAt) / 1000 == total;
    assert total as real == hours as real * 3600.0 + minutes as real * 60.0 + seconds as real;
  }

  /** The account's own maximum and the cap for its age both apply, unless one of them is negative. */
  ghost predicate SessionFits(w: World, c: Client, a: Account, g: Gate) {
    || c.session in LiveNow(w, g)
    || a.maxSessions < 0 || WarmupCap(w, a) < 0
    || (RoomBeside(|LiveNow(w, g)|, a.maxSessions) && RoomBeside(|LiveNow(w, g)|, WarmupCap(w, a)))
  }

  ghost predicate IdFits(ids: set<string>, id: string, max: int) {
    id == "" || id in ids || RoomBeside(|ids|, max)
  }

  /** Whether the account has a place for the client. */
  ghost predicate HasPlace(w: World, c: Client, a: Account, g: Gate) {
    && SessionFits(w, c, a, g)
    && IdFits(DevicesToday(w, g), c.device, a.deviceQuota)
    && IdFits(SessionsToday(w, g), c.session, a.sessionQuota)
  }

  lemma SessionAdmittedExactly(w: World, c: Client, a: Account, g: Gate)
    ensures AdmitSession(g.activity, NewSession(w, c, a), SESSION_TTL).1 <==> SessionFits(w, c, a, g)
  {
    hide AgeCap, AgeHours;
    assert Live(g.activity, w.now, SESSION_TTL).Keys == LiveNow(w, g);
    assert |Live(g.activity, w.now, SESSION_TTL)| == |Live(g.activity, w.now, SESSION_TTL).Keys|;
  }

  lemma QuotaAdmittedExactly(w: World, c: Client, a: Account, g: Gate)
    ensures AdmitQuota(g.quota, NewQuota(w, c, a)).1 <==>
      IdFits(DevicesToday(w, g), c.device, a.deviceQuota) && IdFits(SessionsToday(w, g), c.session, a.sessionQuota)
  {
    hide Window;
    var win := Window(w.nowSecs, QUOTA_TTL_SECS);
    var devices, sessions := Kept(g.quota.devices, win), Kept(g.quota.sessions, win);
    assert devices.Keys == DevicesToday(w, g) && |devices| == |devices.Keys|;
    assert sessions.Keys == SessionsToday(w, g) && |sessions| == |sessions.Keys|;
  }

  /** An account lets a client in exactly when it has a place for it. */
  lemma AttemptSucceedsExactly(w: World, c: Client, a: Account, g: Gate)
    ensures Attempt(w, c, a, g).1 <==> HasPlace(w, c, a, g)
  {
    SessionAdmittedExactly(w, c, a, g);
    QuotaAdmittedExactly(w, c, a, g);
    hide AdmitSession, AdmitQuota, SessionFits, IdFits, NewSession, NewQuota;
  }

  lemma WindowAfter(m: Members, w: World, id: string)
    ensures var kept := Kept(m, Window(w.nowSecs, QUOTA_TTL_SECS));
      && InWindow(kept, w) == InWindow(m, w)
      && InWindow(Enter(kept, id, Window(w.nowSecs, QUOTA_TTL_SECS)), w) ==
        InWindow(m, w) + (if id == "" then {} else {id})
  {
    hide Window;
  }

  /** The live set after asking. */
  ghost predicate LiveAfter(w: World, c: Client, g: Gate, fits: bool, after: Gate) {
    && after.activity.Keys == LiveNow(w, g) + (if fits then {c.session} else {})
    && forall s :: s in after.activity ==>
      after.activity[s] == if s == c.session && fits then w.now else g.activity[s]
  }

  lemma SessionLeaves(w: World, c: Client, a: Account, g: Gate)
    ensures LiveAfter(w, c, g, SessionFits(w, c, a, g), Attempt(w, c, a, g).0)
  {
    SessionAdmittedExactly(w, c, a, g);
    hide SessionFits, AgeCap, AgeHours, SessionLimit, AdmitQuota;
    assert Live(g.activity, w.now, SESSION_TTL).Keys == LiveNow(w, g);
  }

  lemma QuotaLeaves(w: World, c: Client, a: Account, g: Gate)
    ensures var after, place := Attempt(w, c, a, g).0, HasPlace(w, c, a, g);
      && DevicesToday(w, after) == DevicesToday(w, g) + (if place && c.device != "" then {c.device} else {})
      && SessionsToday(w, after) == SessionsToday(w, g) + (if place && c.session != "" then {c.session} else {})
  {
    AttemptSucceedsExactly(w, c, a, g);
    WindowAfter(g.quota.devices, w, c.device);
    WindowAfter(g.quota.sessions, w, c.session);
    hide HasPlace, HasRoom, AdmitSession, SessionLimit, InWindow, Kept, Enter, Window;
  }

  /** What asking leaves: the client's ids join the sets that let them in, and nothing else changes. */
  lemma AttemptLeaves(w: World, c: Client, a: Account, g: Gate)
    ensures var after, place := Attempt(w, c, a, g).0, HasPlace(w, c, a, g);
      && LiveAfter(w, c, g, SessionFits(w, c, a, g), after)
      && DevicesToday(w, after) == DevicesToday(w, g) + (if place && c.device != "" then {c.device} else {})
      && SessionsToday(w, after) == SessionsToday(w, g) + (if place && c.session != "" then {c.session} else {})
  {
    hide *;
    SessionLeaves(w, c, a, g);
    QuotaLeaves(w, c, a, g);
  }

  /** A new binding leads to its account for one day, and leaves those of other clients alone. */
  lemma BoundForADay(sessions: Bindings, hash: string, id: AccountId, now: Instant, other: string, later: Instant)
    requires hash != ""
    ensures Bound(Bind(sessions, hash, id, now), hash, later) ==
      if later <= now + 86_400_000 then Some(id) else None
    ensures other != hash ==> Bound(Bind(sessions, hash, id, now), other, later) == Bound(sessions, other, later)
  {
    assert SessionKey(hash)[8..] == hash && SessionKey(other)[8..] == other;
  }

  /** A binding that cannot be used is removed before a new one is made, and only that. */
  lemma UnusableBindingIsRemoved(w: World, f: Filter, sessions: Bindings, hash: string, other: string)
    requires hash != "" && Sticky(w, f, sessions, hash).None?
    ensures SessionKey(hash) in Released(w, f, sessions, hash) <==>
      SessionKey(hash) in sessions && w.now <= sessions[SessionKey(hash)].expiresAt
      && sessions[SessionKey(hash)].account <= 0
    ensures other != hash ==> Bound(Released(w, f, sessions, hash), other, w.now) == Bound(sessions, other, w.now)
  {
    assert SessionKey(hash)[8..] == hash && SessionKey(other)[8..] == other;
  }

  // ---- A whole round ----

  /** First fit, in those terms: the account served has a place, and none that ranks before it does. */
  lemma ServedIsFirstWithPlace(w: World, c: Client, ranked: seq<Account>, gates: Gates)
    requires Total(gates) && DistinctIds(ranked)
    ensures var r := Offer(w, c, ranked, gates).1;
      if r.None? then forall k :: 0 <= k < |ranked| ==> !HasPlace(w, c, ranked[k], gates[ranked[k].id])
      else exists n :: 0 <= n < |ranked| && IsFirstWithPlace(w, c, ranked, gates, n) && ranked[n] == r.value
  {
    hide Attempt, HasPlace;
    var n := FirstWithRoom(w, c, ranked, gates);
    OfferIsFirstFit(w, c, ranked, gates, n);
    forall k | 0 <= k < |ranked|
      ensures Attempt(w, c, ranked[k], gates[ranked[k].id]).1 <==> HasPlace(w, c, ranked[k], gates[ranked[k].id])
    {
      AttemptSucceedsExactly(w, c, ranked[k], gates[ranked[k].id]);
    }
    if n < |ranked| {
      assert IsFirstWithPlace(w, c, ranked, gates, n);
    }
  }

  ghost predicate IsFirstWithPlace(w: World, c: Client, ranked: seq<Account>, gates: Gates, n: nat)
    requires Total(gates) && n < |ranked|
  {
    && HasPlace(w, c, ranked[n], gates[ranked[n].id])
    && forall k :: 0 <= k < n ==> !HasPlace(w, c, ranked[k], gates[ranked[k].id])
  }

  function GateIn(cache: CacheState, id: AccountId): Gate {
    Gate(if id in cache.acctSessions then cache.acctSessions[id] else map[],
         Quota(if id in cache.quotaDevices then cache.quotaDevices[id] else map[],
               if id in cache.quotaSessions then cache.quotaSessions[id] else map[]))
  }

  /** The client is bound to a usable account, or a usable account has a place. */
  ghost predicate Admissible(w: World, c: Client, f: Filter, cache: CacheState) {
    || Sticky(w, f, cache.sessions, c.hash).Some?
    || exists a :: InTier(w, f, a) && HasPlace(w, c, a, GateIn(cache, a.id))
  }

  lemma OfferServesExactly(w: World, c: Client, f: Filter, ranked: seq<Account>, gates: Gates, cache: CacheState)
    requires Total(gates) && RanksTier(w, f, ranked) && forall id :: gates[id] == GateIn(cache, id)
    ensures Offer(w, c, ranked, gates).1.Some? <==>
      exists a :: InTier(w, f, a) && HasPlace(w, c, a, GateIn(cache, a.id))
  {
    hide HasPlace, InTier, Offer, GateIn, Total;
    ServedIsFirstWithPlace(w, c, ranked, gates);
    if Offer(w, c, ranked, gates).1.None? {
      forall a | InTier(w, f, a) ensures !HasPlace(w, c, a, GateIn(cache, a.id)) {
        var k :| 0 <= k < |ranked| && ranked[k] == a;
      }
    }
  }
}
