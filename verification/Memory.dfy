/** The in-memory cache of `memory.rs`: live sessions, quotas, slots, locks and sticky sessions. */
module MemoryStores {
  import opened Prelude

  type AccountId = int
  type Instant = int

  /** `duration_since`, which saturates at zero. */
  function Elapsed(now: Instant, earlier: Instant): nat {
    if now < earlier then 0 else now - earlier
  }

  /** `len() as i32`. */
  function AsI32(len: nat): int {
    var low := len % 0x1_0000_0000;
    if low >= 0x8000_0000 then low - 0x1_0000_0000 else low
  }

  // ---- Live sessions: a sliding window ----

  type Activity = map<string, Instant>

  function Live(entries: Activity, now: Instant, ttl: nat): Activity {
    map s | s in entries && Elapsed(now, entries[s]) < ttl :: entries[s]
  }

  /** One call of `session_admit` for one account. */
  datatype SessionCall = SessionCall(session: string, max: int, force: bool, now: Instant)

  function AdmitSession(entries: Activity, c: SessionCall, ttl: nat): (Activity, bool) {
    var live := Live(entries, c.now, ttl);
    if c.force || c.max <= 0 || c.session in live || AsI32(|live|) < c.max
    then (live[c.session := c.now], true)
    else (live, false)
  }

  function AfterSessions(calls: seq<SessionCall>, ttl: nat): Activity {
    if calls == [] then map[]
    else AdmitSession(AfterSessions(calls[..|calls| - 1], ttl), calls[|calls| - 1], ttl).0
  }

  predicate Accepted(calls: seq<SessionCall>, ttl: nat, i: nat)
    requires i < |calls|
  {
    AdmitSession(AfterSessions(calls[..i], ttl), calls[i], ttl).1
  }

  ghost predicate Monotone(calls: seq<SessionCall>) {
    forall i, j :: 0 <= i < j < |calls| ==> calls[i].now <= calls[j].now
  }

  /** Some accepted call of this session happened less than `ttl` ago. */
  ghost predicate RecentlyAccepted(calls: seq<SessionCall>, ttl: nat, session: string, now: Instant) {
    exists i ::
      0 <= i < |calls| && calls[i].session == session && Accepted(calls, ttl, i) && Elapsed(now, calls[i].now) < ttl
  }

  /** The last accepted call that names the session. */
  ghost predicate LastAccepted(calls: seq<SessionCall>, ttl: nat, session: string, l: nat) {
    && l < |calls| && calls[l].session == session && Accepted(calls, ttl, l)
    && forall j :: l < j < |calls| && calls[j].session == session ==> !Accepted(calls, ttl, j)
  }

  /** Some later call reads a clock at which the call at `l` has run out. */
  ghost predicate Outrun(calls: seq<SessionCall>, ttl: nat, l: nat)
    requires l < |calls|
  {
    exists j :: l < j < |calls| && Elapsed(calls[j].now, calls[l].now) >= ttl
  }

  lemma AcceptedInPrefix(calls: seq<SessionCall>, ttl: nat, n: nat, i: nat)
    requires i < n <= |calls|
    ensures Accepted(calls[..n], ttl, i) == Accepted(calls, ttl, i)
  {
    assert calls[..n][..i] == calls[..i];
  }

  lemma LastAcceptedInPrefix(calls: seq<SessionCall>, ttl: nat, session: string, l: nat)
    requires LastAccepted(calls, ttl, session, l) && l < |calls| - 1
    ensures LastAccepted(calls[..|calls| - 1], ttl, session, l)
  {
    hide Accepted;
    var n := |calls| - 1;
    AcceptedInPrefix(calls, ttl, n, l);
    forall j | l < j < n && calls[..n][j].session == session ensures !Accepted(calls[..n], ttl, j) {
      AcceptedInPrefix(calls, ttl, n, j);
      assert calls[j].session == session;
    }
  }

  lemma OutrunSnoc(calls: seq<SessionCall>, ttl: nat, l: nat)
    requires l < |calls| - 1
    ensures var n := |calls| - 1;
      Outrun(calls, ttl, l) <==> Outrun(calls[..n], ttl, l) || Elapsed(calls[n].now, calls[l].now) >= ttl
  {
    var n := |calls| - 1;
    if j :| l < j < n && Elapsed(calls[..n][j].now, calls[..n][l].now) >= ttl {
      assert calls[j] == calls[..n][j];
    }
    if j :| l < j < |calls| && Elapsed(calls[j].now, calls[l].now) >= ttl {
      assert j < n ==> calls[..n][j] == calls[j];
    }
  }

  /** What one call leaves of a session that was, or was not, stored before it. */
  lemma OneCallStores(before: Activity, c: SessionCall, ttl: nat, session: string)
    ensures var (after, ok) := AdmitSession(before, c, ttl);
      var live := session in before && Elapsed(c.now, before[session]) < ttl;
      && (c.session == session && ok ==> session in after && after[session] == c.now)
      && (!(c.session == session && ok) ==>
        (session in after <==> live) && (live ==> after[session] == before[session]))
      && (c.session == session && live ==> ok)
  {
  }

  /** For every clock reading: a session is stored exactly when no later call outran its last accepted one. */
  lemma {:induction false} StoredExactly(calls: seq<SessionCall>, ttl: nat, session: string, l: nat)
    requires LastAccepted(calls, ttl, session, l)
    ensures session in AfterSessions(calls, ttl) <==> !Outrun(calls, ttl, l)
    ensures session in AfterSessions(calls, ttl) ==> AfterSessions(calls, ttl)[session] == calls[l].now
    decreases |calls|
  {
    var n := |calls| - 1;
    OneCallStores(AfterSessions(calls[..n], ttl), calls[n], ttl, session);
    assert Accepted(calls, ttl, n) == AdmitSession(AfterSessions(calls[..n], ttl), calls[n], ttl).1;
    assert AfterSessions(calls, ttl) == AdmitSession(AfterSessions(calls[..n], ttl), calls[n], ttl).0;
    hide AdmitSession, AfterSessions, Accepted;
    if l < n {
      LastAcceptedInPrefix(calls, ttl, session, l);
      OutrunSnoc(calls, ttl, l);
      StoredExactly(calls[..n], ttl, session, l);
    }
  }

  /** And a session no call was accepted for is not stored. */
  lemma {:induction false} OnlyAcceptedAreStored(calls: seq<SessionCall>, ttl: nat, session: string)
    requires forall i :: 0 <= i < |calls| && calls[i].session == session ==> !Accepted(calls, ttl, i)
    ensures session !in AfterSessions(calls, ttl)
    decreases |calls|
  {
    if calls != [] {
      var n := |calls| - 1;
      OneCallStores(AfterSessions(calls[..n], ttl), calls[n], ttl, session);
      assert Accepted(calls, ttl, n) == AdmitSession(AfterSessions(calls[..n], ttl), calls[n], ttl).1;
      assert AfterSessions(calls, ttl) == AdmitSession(AfterSessions(calls[..n], ttl), calls[n], ttl).0;
      hide AdmitSession, AfterSessions, Accepted;
      forall i | 0 <= i < n && calls[..n][i].session == session ensures !Accepted(calls[..n], ttl, i) {
        AcceptedInPrefix(calls, ttl, n, i);
        assert calls[i].session == session;
      }
      OnlyAcceptedAreStored(calls[..n], ttl, session);
    }
  }

  /** The live set, for every clock reading: decided by the last accepted call alone. */
  lemma LiveExactly(calls: seq<SessionCall>, ttl: nat, session: string, l: nat, now: Instant)
    requires LastAccepted(calls, ttl, session, l)
    ensures session in Live(AfterSessions(calls, ttl), now, ttl) <==>
      !Outrun(calls, ttl, l) && Elapsed(now, calls[l].now) < ttl
  {
    hide AfterSessions, LastAccepted, Outrun;
    StoredExactly(calls, ttl, session, l);
  }

  /**
   * So the live set agrees with the history for a session, whatever the clocks read, exactly when
   * no recent acceptance is followed by a last one that a later reading, or `now`, has outrun.
   */
  lemma LiveAgreesWithHistoryExactly(calls: seq<SessionCall>, ttl: nat, session: string, l: nat, now: Instant)
    requires LastAccepted(calls, ttl, session, l)
    ensures (session in Live(AfterSessions(calls, ttl), now, ttl) <==> RecentlyAccepted(calls, ttl, session, now)) <==>
      !(RecentlyAccepted(calls, ttl, session, now) && (Outrun(calls, ttl, l) || Elapsed(now, calls[l].now) >= ttl))
  {
    hide AfterSessions, Accepted, Live, Outrun;
    LiveExactly(calls, ttl, session, l, now);
  }

  lemma {:induction false} SomeLastAccepted(calls: seq<SessionCall>, ttl: nat, session: string, i: nat) returns (l: nat)
    requires i < |calls| && calls[i].session == session && Accepted(calls, ttl, i)
    ensures i <= l && LastAccepted(calls, ttl, session, l)
    decreases |calls| - i
  {
    hide Accepted;
    if j :| i < j < |calls| && calls[j].session == session && Accepted(calls, ttl, j) {
      l := SomeLastAccepted(calls, ttl, session, j);
    } else {
      l := i;
    }
  }

  /** For a monotone clock the live set is exactly the sessions with a recent accepted call. */
  lemma LiveSessionsAreRecentlyAccepted(calls: seq<SessionCall>, ttl: nat, session: string, now: Instant)
    requires Monotone(calls) && (calls != [] ==> calls[|calls| - 1].now <= now)
    ensures session in Live(AfterSessions(calls, ttl), now, ttl) <==> RecentlyAccepted(calls, ttl, session, now)
  {
    hide AfterSessions, Accepted;
    if i :| 0 <= i < |calls| && calls[i].session == session && Accepted(calls, ttl, i) {
      var l := SomeLastAccepted(calls, ttl, session, i);
      LiveExactly(calls, ttl, session, l, now);
      if i' :|
        0 <= i' < |calls| && calls[i'].session == session && Accepted(calls, ttl, i')
        && Elapsed(now, calls[i'].now) < ttl
      {
        assert i' <= l;
        assert calls[i'].now <= calls[l].now && forall j :: l < j < |calls| ==> calls[j].now <= calls[|calls| - 1].now;
      }
    } else {
      OnlyAcceptedAreStored(calls, ttl, session);
    }
  }

  /** The sessions with a recent accepted call. */
  ghost function RecentSessions(calls: seq<SessionCall>, ttl: nat, now: Instant): set<string> {
    set i | 0 <= i < |calls| && Accepted(calls, ttl, i) && Elapsed(now, calls[i].now) < ttl :: calls[i].session
  }

  /** What `session_count` reports is, for a monotone clock, the number of those sessions. */
  lemma SessionCountAgreesWithHistory(calls: seq<SessionCall>, ttl: nat, now: Instant)
    requires Monotone(calls) && (calls != [] ==> calls[|calls| - 1].now <= now)
    ensures |Live(AfterSessions(calls, ttl), now, ttl)| == |RecentSessions(calls, ttl, now)|
  {
    hide AfterSessions, Accepted, Live;
    var live := Live(AfterSessions(calls, ttl), now, ttl);
    forall s ensures s in live <==> s in RecentSessions(calls, ttl, now) {
      LiveSessionsAreRecentlyAccepted(calls, ttl, s, now);
    }
    assert live.Keys == RecentSessions(calls, ttl, now);
    assert |live| == |live.Keys|;
  }

  /**
   * With a clock that steps back the refinement fails: a call that read its clock earlier but got
   * the lock later shortens a session's life.
   */
  lemma StaleClockForgetsSession()
    ensures var calls := [SessionCall("s", 0, false, 50), SessionCall("s", 0, false, 10)];
      && RecentlyAccepted(calls, 60, "s", 80)
      && "s" !in Live(AfterSessions(calls, 60), 80, 60)
  {
    var calls := [SessionCall("s", 0, false, 50), SessionCall("s", 0, false, 10)];
    assert calls[..1] == [calls[0]] && calls[..0] == [];
    assert AfterSessions(calls[..0], 60) == map[];
    assert calls[..1][..0] == [];
    assert AfterSessions(calls[..1], 60) == map["s" := 50];
    assert AfterSessions(calls, 60) == map["s" := 10];
    assert Accepted(calls, 60, 0);
  }

  lemma LiveIsNoLarger(entries: Activity, now: Instant, ttl: nat)
    ensures |Live(entries, now, ttl)| <= |entries|
  {
    SubsetSize(Live(entries, now, ttl).Keys, entries.Keys);
  }

  lemma {:induction false} SubsetSize<T>(a: set<T>, b: set<T>)
    requires a <= b
    ensures |a| <= |b|
  {
    if x :| x in a {
      SubsetSize(a - {x}, b - {x});
    }
  }

  /** Without forced calls a fixed positive maximum is never exceeded, whatever the clocks read. */
  lemma {:induction false} MaximumIsNeverExceeded(calls: seq<SessionCall>, ttl: nat, max: int, now: Instant)
    requires 0 < max < 0x8000_0000
    requires forall c :: c in calls ==> !c.force && c.max == max
    ensures |AfterSessions(calls, ttl)| <= max
    ensures |Live(AfterSessions(calls, ttl), now, ttl)| <= max
  {
    LiveIsNoLarger(AfterSessions(calls, ttl), now, ttl);
    if calls != [] {
      var n := |calls| - 1;
      MaximumIsNeverExceeded(calls[..n], ttl, max, now);
      var before := AfterSessions(calls[..n], ttl);
      var live := Live(before, calls[n].now, ttl);
      LiveIsNoLarger(before, calls[n].now, ttl);
      InsertSize(live, calls[n].session, calls[n].now);
    }
  }

  lemma InsertSize<V>(m: map<string, V>, k: string, v: V)
    ensures |m[k := v]| == if k in m then |m| else |m| + 1
  {
    assert m[k := v].Keys == m.Keys + {k};
    assert |m[k := v]| == |m[k := v].Keys|;
  }

  // ---- Quotas: a fixed window ----

  const BEIJING_OFFSET: nat := 8 * 3600

  function Window(nowSecs: nat, ttlSecs: nat): nat {
    (nowSecs + BEIJING_OFFSET) / (if ttlSecs >= 1 then ttlSecs else 1)
  }

  /** Two instants share a daily window exactly when no midnight of UTC+8 lies between them. */
  lemma WindowIsTheDayOfUtcPlusEight(a: nat, b: nat)
    requires a <= b
    ensures Window(a, 86400) == Window(b, 86400) <==>
      forall midnight: int :: midnight % 86400 == 57600 ==> !(a < midnight <= b)
  {
    if Window(a, 86400) != Window(b, 86400) {
      var midnight := 86400 * Window(b, 86400) - BEIJING_OFFSET;
      assert midnight % 86400 == 57600 && a < midnight <= b;
    }
  }

  type Members = map<string, nat>

  function Kept(m: Members, win: nat): Members {
    map id | id in m && m[id] == win :: m[id]
  }

  datatype Quota = Quota(devices: Members, sessions: Members)

  datatype QuotaCall = QuotaCall(device: string, session: string, maxDevices: int, maxSessions: int, force: bool,
    win: nat)

  predicate HasRoom(m: Members, id: string, max: int, force: bool) {
    force || id == "" || max <= 0 || id in m || AsI32(|m|) < max
  }

  function Enter(m: Members, id: string, win: nat): Members {
    if id == "" then m else m[id := win]
  }

  function AdmitQuota(q: Quota, c: QuotaCall): (Quota, bool) {
    var devices, sessions := Kept(q.devices, c.win), Kept(q.sessions, c.win);
    if HasRoom(devices, c.device, c.maxDevices, c.force) && HasRoom(sessions, c.session, c.maxSessions, c.force)
    then (Quota(Enter(devices, c.device, c.win), Enter(sessions, c.session, c.win)), true)
    else (Quota(devices, sessions), false)
  }

  function AfterQuota(calls: seq<QuotaCall>): Quota {
    if calls == [] then Quota(map[], map[])
    else AdmitQuota(AfterQuota(calls[..|calls| - 1]), calls[|calls| - 1]).0
  }

  predicate QuotaAccepted(calls: seq<QuotaCall>, i: nat)
    requires i < |calls|
  {
    AdmitQuota(AfterQuota(calls[..i]), calls[i]).1
  }

  /** A refusal enters nobody, and never changes what the current window holds. */
  lemma RefusalChangesNothing(q: Quota, c: QuotaCall)
    requires !AdmitQuota(q, c).1
    ensures var after := AdmitQuota(q, c).0;
      Kept(after.devices, c.win) == Kept(q.devices, c.win) && Kept(after.sessions, c.win) == Kept(q.sessions, c.win)
  {
  }

  /** Ids already counted in the window are let in again, whatever the limits. */
  lemma MembersAreReadmitted(q: Quota, c: QuotaCall)
    requires c.device == "" || c.device in Kept(q.devices, c.win)
    requires c.session == "" || c.session in Kept(q.sessions, c.win)
    ensures AdmitQuota(q, c).1
    ensures Kept(AdmitQuota(q, c).0.devices, c.win) == Kept(q.devices, c.win)
    ensures Kept(AdmitQuota(q, c).0.sessions, c.win) == Kept(q.sessions, c.win)
  {
  }

  lemma KeptIsNoLarger(m: Members, win: nat)
    ensures |Kept(m, win)| <= |m|
  {
    SubsetSize(Kept(m, win).Keys, m.Keys);
  }

  lemma EnterRespectsLimit(m: Members, id: string, max: int, win: nat)
    requires 0 < max < 0x8000_0000 && |m| <= max && HasRoom(m, id, max, false)
    ensures |Enter(m, id, win)| <= max
  {
    if id != "" {
      InsertSize(m, id, win);
    }
  }

  /** Without forced calls the two stored sets respect fixed positive limits, whatever the clocks read. */
  lemma {:induction false} QuotaLimitsHold(calls: seq<QuotaCall>, maxDevices: int, maxSessions: int, win: nat)
    requires 0 < maxDevices < 0x8000_0000 && 0 < maxSessions < 0x8000_0000
    requires forall c :: c in calls ==> !c.force && c.maxDevices == maxDevices && c.maxSessions == maxSessions
    ensures var q := AfterQuota(calls);
      && |q.devices| <= maxDevices && |q.sessions| <= maxSessions
      && |Kept(q.devices, win)| <= maxDevices && |Kept(q.sessions, win)| <= maxSessions
  {
    var q := AfterQuota(calls);
    KeptIsNoLarger(q.devices, win);
    KeptIsNoLarger(q.sessions, win);
    if calls != [] {
      var n := |calls| - 1;
      var c := calls[n];
      QuotaLimitsHold(calls[..n], maxDevices, maxSessions, c.win);
      var before := AfterQuota(calls[..n]);
      if AdmitQuota(before, c).1 {
        EnterRespectsLimit(Kept(before.devices, c.win), c.device, maxDevices, c.win);
        EnterRespectsLimit(Kept(before.sessions, c.win), c.session, maxSessions, c.win);
      }
    }
  }

  // ---- Slots and locks ----

  type Slots = map<string, int>

  function SlotCount(slots: Slots, key: string): int {
    if key in slots then slots[key] else 0
  }

  function AcquireSlot(slots: Slots, key: string, max: int): (Slots, bool) {
    var val := SlotCount(slots, key) + 1;
    if val > max then (slots[key := val - 1], false) else (slots[key := val], true)
  }

  function ReleaseSlot(slots: Slots, key: string): Slots {
    if key in slots && slots[key] > 0 then slots[key := slots[key] - 1] else slots
  }

  datatype Lock = Lock(owner: string, expiresAt: Instant)

  type Locks = map<string, Lock>

  function AcquireLock(locks: Locks, key: string, owner: string, ttl: nat, now: Instant): (Locks, bool) {
    if key in locks && now <= locks[key].expiresAt then (locks, false)
    else (locks[key := Lock(owner, now + ttl)], true)
  }

  function ReleaseLock(locks: Locks, key: string, owner: string): Locks {
    if key in locks && locks[key].owner == owner then locks - {key} else locks
  }

  // ---- Sticky sessions ----

  datatype Binding = Binding(account: AccountId, expiresAt: Instant)

  type Bindings = map<string, Binding>

  function SessionKey(hash: string): string {
    "session:" + hash
  }

  /** The account a hash is bound to, unless the binding has expired. */
  function Bound(sessions: Bindings, hash: string, now: Instant): Option<AccountId> {
    var key := SessionKey(hash);
    if key in sessions && now <= sessions[key].expiresAt then Some(sessions[key].account) else None
  }

  // ---- The store ----

  lemma MemberCounted<T>(members: set<T>, left: set<T>, x: T)
    requires x in left
    ensures |members * left| == |members * (left - {x})| + if x in members then 1 else 0
  {
    assert members * left == members * (left - {x}) + if x in members then {x} else {};
  }

  /** Counts one by one the entries of a window. */
  method CountWindow(m: Members, win: nat) returns (count: nat)
    ensures count == |Kept(m, win)|
  {
    var left := m.Keys;
    assert Kept(m, win).Keys * left == Kept(m, win).Keys && |Kept(m, win).Keys| == |Kept(m, win)|;
    count := 0;
    while left != {}
      invariant left <= m.Keys
      invariant count + |Kept(m, win).Keys * left| == |Kept(m, win)|
      decreases left
    {
      var id :| id in left;
      MemberCounted(Kept(m, win).Keys, left, id);
      if m[id] == win {
        count := count + 1;
      }
      left := left - {id};
    }
  }

  class MemoryStore {
    var sessions: Bindings
    var slots: Slots
    var locks: Locks
    var acctSessions: map<AccountId, Activity>
    var quotaDevices: map<AccountId, Members>
    var quotaSessions: map<AccountId, Members>

    constructor ()
      ensures sessions == map[] && slots == map[] && locks == map[]
      ensures acctSessions == map[] && quotaDevices == map[] && quotaSessions == map[]
    {
      sessions, slots, locks := map[], map[], map[];
      acctSessions, quotaDevices, quotaSessions := map[], map[], map[];
    }

    function ActivityOf(account: AccountId): Activity
      reads this`acctSessions
    {
      if account in acctSessions then acctSessions[account] else map[]
    }

    function QuotaOf(account: AccountId): Quota
      reads this`quotaDevices, this`quotaSessions
    {
      Quota(if account in quotaDevices then quotaDevices[account] else map[],
            if account in quotaSessions then quotaSessions[account] else map[])
    }

    method GetSessionAccountId(hash: string, now: Instant) returns (account: Option<AccountId>)
      modifies this`sessions
      ensures account == Bound(old(sessions), hash, now)
      ensures sessions == if account.None? then old(sessions) - {SessionKey(hash)} else old(sessions)
    {
      var key := SessionKey(hash);
      if key in sessions {
        if now > sessions[key].expiresAt {
          sessions := sessions - {key};
          return None;
        }
        return Some(sessions[key].account);
      }
      account := None;
    }

    method SetSessionAccountId(hash: string, account: AccountId, ttl: nat, now: Instant)
      modifies this`sessions
      ensures sessions == old(sessions)[SessionKey(hash) := Binding(account, now + ttl)]
    {
      sessions := sessions[SessionKey(hash) := Binding(account, now + ttl)];
    }

    method DeleteSession(hash: string)
      modifies this`sessions
      ensures sessions == old(sessions) - {SessionKey(hash)}
    {
      sessions := sessions - {SessionKey(hash)};
    }

    /** Counts up first and takes the count back when it went over. */
    method TryAcquireSlot(key: string, max: int) returns (ok: bool)
      modifies this`slots
      ensures (slots, ok) == AcquireSlot(old(slots), key, max)
    {
      if key !in slots {
        slots := slots[key := 0];
      }
      slots := slots[key := slots[key] + 1];
      if slots[key] > max {
        slots := slots[key := slots[key] - 1];
        assert slots == old(slots)[key := SlotCount(old(slots), key)];
        return false;
      }
      assert slots == old(slots)[key := SlotCount(old(slots), key) + 1];
      ok := true;
    }

    method GiveBackSlot(key: string)
      modifies this`slots
      ensures slots == ReleaseSlot(old(slots), key)
    {
      if key in slots && slots[key] > 0 {
        slots := slots[key := slots[key] - 1];
      }
    }

    method SessionAdmit(account: AccountId, session: string, max: int, ttl: nat, force: bool, now: Instant)
      returns (ok: bool)
      modifies this`acctSessions
      ensures (ActivityOf(account), ok) ==
        AdmitSession(old(ActivityOf(account)), SessionCall(session, max, force, now), ttl)
      ensures forall a :: a != account ==> ActivityOf(a) == old(ActivityOf(a))
    {
      var entries := Live(ActivityOf(account), now, ttl);
      acctSessions := acctSessions[account := entries];
      ok := force || max <= 0 || session in entries || AsI32(|entries|) < max;
      if ok {
        acctSessions := acctSessions[account := entries[session := now]];
      }
    }

    /** Counts one by one the stored sessions that are still live. */
    method SessionCount(account: AccountId, ttl: nat, now: Instant) returns (count: nat)
      ensures count == |Live(ActivityOf(account), now, ttl)|
    {
      var entries := ActivityOf(account);
      var left := entries.Keys;
      ghost var live := Live(entries, now, ttl);
      assert live.Keys * left == live.Keys && |live.Keys| == |live|;
      count := 0;
      while left != {}
        invariant left <= entries.Keys
        invariant count + |live.Keys * left| == |live|
        decreases left
      {
        var s :| s in left;
        MemberCounted(live.Keys, left, s);
        if Elapsed(now, entries[s]) < ttl {
          count := count + 1;
        }
        left := left - {s};
      }
    }

    method AccountQuotaAdmit(
        account: AccountId, device: string, session: string,
        maxDevices: int, maxSessions: int, ttlSecs: nat, force: bool, nowSecs: nat) returns (ok: bool)
      modifies this`quotaDevices, this`quotaSessions
      ensures (QuotaOf(account), ok) ==
        AdmitQuota(old(QuotaOf(account)), QuotaCall(device, session, maxDevices, maxSessions, force,
          Window(nowSecs, ttlSecs)))
      ensures forall a :: a != account ==> QuotaOf(a) == old(QuotaOf(a))
    {
      var win := Window(nowSecs, ttlSecs);
      var dset, sset := Kept(QuotaOf(account).devices, win), Kept(QuotaOf(account).sessions, win);
      var devOk := HasRoom(dset, device, maxDevices, force);
      var sessOk := HasRoom(sset, session, maxSessions, force);
      ok := devOk && sessOk;
      if ok && device != "" {
        dset := dset[device := win];
      }
      if ok && session != "" {
        sset := sset[session := win];
      }
      quotaDevices, quotaSessions := quotaDevices[account := dset], quotaSessions[account := sset];
    }

    /** Both sets at one instant; the source reads them one after the other, so others may act in between. */
    method QuotaCounts(account: AccountId, ttlSecs: nat, nowSecs: nat) returns (devices: nat, sessionCount: nat)
      ensures devices == |Kept(QuotaOf(account).devices, Window(nowSecs, ttlSecs))|
      ensures sessionCount == |Kept(QuotaOf(account).sessions, Window(nowSecs, ttlSecs))|
    {
      var win := Window(nowSecs, ttlSecs);
      devices := CountWindow(QuotaOf(account).devices, win);
      sessionCount := CountWindow(QuotaOf(account).sessions, win);
    }

    method TryAcquireLock(key: string, owner: string, ttl: nat, now: Instant) returns (ok: bool)
      modifies this`locks
      ensures (locks, ok) == AcquireLock(old(locks), key, owner, ttl, now)
    {
      if key in locks && now <= locks[key].expiresAt {
        return false;
      }
      locks := locks[key := Lock(owner, now + ttl)];
      ok := true;
    }

    method GiveBackLock(key: string, owner: string)
      modifies this`locks
      ensures locks == ReleaseLock(old(locks), key, owner)
    {
      if key in locks && locks[key].owner == owner {
        locks := locks - {key};
      }
    }
  }
}
