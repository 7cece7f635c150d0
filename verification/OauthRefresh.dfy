/**
 * Token refresh of `account.rs` for one account: interleaved requests that share the stored
 * tokens and a lease lock. A request is named by the owner string it takes the lock with.
 */
module OauthRefresh {
  import opened Prelude
  import opened MemoryStores

  const LOCK_KEY := "oauth:refresh:account"
  const OAUTH_LOCK_TTL: nat := 30_000
  const OAUTH_REFRESH_BUFFER: nat := 300_000
  const OAUTH_WAIT_ATTEMPTS: nat := 20

  type Owner = string

  datatype Tokens = Tokens(access: string, refresh: string, expiresAt: Option<Instant>) {
    /** Good for at least `buffer` more milliseconds. */
    predicate ValidFor(now: Instant, buffer: nat) {
      access != "" && expiresAt.Some? && expiresAt.value > now + buffer
    }
  }

  datatype Result = Token(access: string) | Unavailable

  /** Where a request is; `since` is when it took the lock. */
  datatype Request =
    | Idle
    | HasRead(account: Tokens)
    | Locked(since: Instant)
    | Calling(since: Instant, used: Tokens, readAt: Instant)
    | Storing(since: Instant, received: Tokens)
    | Unlocking(since: Instant, result: Result)
    | Waiting(polls: nat)
    | Finished(result: Result)
  {
    /** Between taking the lock and having released it. */
    predicate Critical() {
      Locked? || Calling? || Storing? || Unlocking?
    }
  }

  datatype System = System(now: Instant, locks: Locks, stored: Tokens, requests: map<Owner, Request>) {
    function At(o: Owner): Request {
      if o in requests then requests[o] else Idle
    }

    function Move(o: Owner, r: Request): System {
      this.(requests := requests[o := r])
    }
  }

  datatype Action =
    | Tick(elapsed: nat)
    | Read                          // resolve_upstream_token loads the account
    | TryLock                       // fast paths, then acquire_lock
    | Reread                        // refresh_oauth_access_token loads it again
    | Reply(tokens: Option<Tokens>) // the upstream answers; None is an error
    | Store(ok: bool)               // update_oauth_tokens
    | Unlock
    | Poll
    | Fail                          // the account cannot be loaded, or the lock not be asked for
    | Cancel                        // the request's future is dropped; nothing is released

  function Step(s: System, o: Owner, a: Action): System {
    match (s.At(o), a)
    case (_, Tick(d)) => s.(now := s.now + d)
    case (Idle, Read) => s.Move(o, HasRead(s.stored))
    case (HasRead(account), TryLock) =>
      if account.ValidFor(s.now, OAUTH_REFRESH_BUFFER) then s.Move(o, Finished(Token(account.access)))
      else if account.refresh == "" then s.Move(o, Finished(Unavailable))
      else
        var (locks, acquired) := AcquireLock(s.locks, LOCK_KEY, o, OAUTH_LOCK_TTL, s.now);
        s.(locks := locks).Move(o, if acquired then Locked(s.now) else Waiting(0))
    case (Locked(since), Reread) =>
      if s.stored.ValidFor(s.now, OAUTH_REFRESH_BUFFER) then s.Move(o, Unlocking(since, Token(s.stored.access)))
      else if s.stored.refresh == "" then s.Move(o, Unlocking(since, Unavailable))
      else s.Move(o, Calling(since, s.stored, s.now))
    case (Calling(since, used, readAt), Reply(tokens)) =>
      if tokens.Some? then s.Move(o, Storing(since, tokens.value))
      else s.Move(o, Unlocking(since, if used.ValidFor(readAt, 0) then Token(used.access) else Unavailable))
    case (Storing(since, received), Store(ok)) =>
      if ok then s.(stored := received).Move(o, Unlocking(since, Token(received.access)))
      else s.Move(o, Unlocking(since, Unavailable))
    case (Unlocking(_, result), Unlock) =>
      s.(locks := ReleaseLock(s.locks, LOCK_KEY, o)).Move(o, Finished(result))
    case (Waiting(polls), Poll) =>
      if polls >= OAUTH_WAIT_ATTEMPTS then s.Move(o, Finished(Unavailable))
      else if s.stored.ValidFor(s.now, OAUTH_REFRESH_BUFFER) then s.Move(o, Finished(Token(s.stored.access)))
      else s.Move(o, Waiting(polls + 1))
    case (Locked(since), Fail) => s.Move(o, Unlocking(since, Unavailable))
    case (_, Fail) =>
      if s.At(o).Idle? || s.At(o).HasRead? || s.At(o).Waiting? then s.Move(o, Finished(Unavailable)) else s
    case (_, Cancel) => if s.At(o).Finished? then s else s.Move(o, Finished(Unavailable))
    case (_, _) => s
  }

  // ---- Mutual exclusion ----

  predicate WithinLease(s: System, o: Owner) {
    s.At(o).Critical() ==> s.now <= s.At(o).since + OAUTH_LOCK_TTL
  }

  /** As long as its lease runs, a request in its critical section holds the lock. */
  ghost predicate Leased(s: System, o: Owner) {
    s.At(o).Critical() ==>
      && s.At(o).since <= s.now
      && (WithinLease(s, o) ==>
          LOCK_KEY in s.locks && s.locks[LOCK_KEY] == Lock(o, s.At(o).since + OAUTH_LOCK_TTL))
  }

  ghost predicate Inv(s: System) {
    forall o :: Leased(s, o)
  }

  lemma StepKeepsLease(s: System, o: Owner, a: Action, other: Owner)
    requires Leased(s, other) && Leased(s, o)
    ensures Leased(Step(s, o, a), other)
  {
  }

  /** A lease that still runs is only ever removed by its owner, whatever late requests do. */
  lemma RunningLeaseIsSafeFromOthers(s: System, o: Owner, a: Action)
    requires LOCK_KEY in s.locks && s.locks[LOCK_KEY].owner != o
    requires s.now <= s.locks[LOCK_KEY].expiresAt
    ensures Step(s, o, a).locks == s.locks
  {
  }

  /** Even an expired lock passes to nobody through another request's release. */
  lemma ReleaseRemovesOnlyOwnLock(s: System, o: Owner)
    ensures LOCK_KEY in s.locks && s.locks[LOCK_KEY].owner != o ==> Step(s, o, Unlock).locks == s.locks
    ensures s.At(o).Unlocking? && LOCK_KEY in s.locks && s.locks[LOCK_KEY].owner == o ==>
      LOCK_KEY !in Step(s, o, Unlock).locks
  {
  }

  // ---- Runs ----

  datatype Turn = Turn(owner: Owner, action: Action)

  function After(start: System, turns: seq<Turn>): System {
    if turns == [] then start
    else
      var n := |turns| - 1;
      Step(After(start, turns[..n]), turns[n].owner, turns[n].action)
  }

  function Start(now: Instant, stored: Tokens): System {
    System(now, map[], stored, map[])
  }

  lemma {:induction false} RunKeepsInv(start: System, turns: seq<Turn>)
    requires Inv(start)
    ensures Inv(After(start, turns))
  {
    if turns != [] {
      var n := |turns| - 1;
      RunKeepsInv(start, turns[..n]);
      forall o ensures Leased(After(start, turns), o) {
        assert Leased(After(start, turns[..n]), o) && Leased(After(start, turns[..n]), turns[n].owner);
        StepKeepsLease(After(start, turns[..n]), turns[n].owner, turns[n].action, o);
      }
    }
  }

  /** In every run, at most one request inside its lease is in the critical section. */
  lemma RefreshIsSingleFlight(now: Instant, stored: Tokens, turns: seq<Turn>, a: Owner, b: Owner)
    requires var s := After(Start(now, stored), turns);
      s.At(a).Critical() && s.At(b).Critical() && WithinLease(s, a) && WithinLease(s, b)
    ensures a == b
  {
    RunKeepsInv(Start(now, stored), turns);
    assert Leased(After(Start(now, stored), turns), a) && Leased(After(Start(now, stored), turns), b);
  }

  /** Every request leaves its critical section before its lease ends. */
  ghost predicate Timely(start: System, turns: seq<Turn>) {
    forall i, o :: 0 <= i <= |turns| ==> WithinLease(After(start, turns[..i]), o)
  }

  lemma TimelyPrefix(start: System, turns: seq<Turn>, n: nat)
    requires Timely(start, turns) && n <= |turns|
    ensures Timely(start, turns[..n])
  {
    forall i, o | 0 <= i <= n ensures WithinLease(After(start, turns[..n][..i]), o) {
      assert turns[..n][..i] == turns[..i];
      assert WithinLease(After(start, turns[..i]), o);
    }
  }

  /** What every call in flight was made with, and why. */
  ghost predicate CallIsFresh(s: System, o: Owner) {
    s.At(o).Calling? ==>
      && s.At(o).used == s.stored
      && s.At(o).used.refresh != ""
      && !s.At(o).used.ValidFor(s.At(o).readAt, OAUTH_REFRESH_BUFFER)
  }

  ghost predicate CallsAreFresh(s: System) {
    forall o :: CallIsFresh(s, o)
  }

  lemma StepKeepsCallFresh(s: System, o: Owner, a: Action, p: Owner)
    requires CallIsFresh(s, p) && (s.At(p).Critical() && s.At(o).Critical() ==> p == o)
    ensures CallIsFresh(Step(s, o, a), p)
  {
  }

  /**
   * In a timely run a call in flight always uses the tokens most recently stored, and was made
   * only because those were not valid when read again.
   */
  lemma {:induction false} CallsUseTheLatestTokens(now: Instant, stored: Tokens, turns: seq<Turn>)
    requires Timely(Start(now, stored), turns)
    ensures CallsAreFresh(After(Start(now, stored), turns))
  {
    if turns != [] {
      var n := |turns| - 1;
      var start := Start(now, stored);
      TimelyPrefix(start, turns, n);
      CallsUseTheLatestTokens(now, stored, turns[..n]);
      var s := After(start, turns[..n]);
      var o := turns[n].owner;
      forall p ensures CallIsFresh(After(start, turns), p) {
        assert CallIsFresh(s, p);
        assert WithinLease(After(start, turns[..n]), p) && WithinLease(After(start, turns[..n]), o);
        if s.At(p).Critical() && s.At(o).Critical() {
          RefreshIsSingleFlight(now, stored, turns[..n], p, o);
        }
        StepKeepsCallFresh(s, o, turns[n].action, p);
      }
    }
  }

  /** Two calls overlap only if one of the two requests has outstayed its lease. */
  lemma OverlapNeedsAnExpiredLease(now: Instant, stored: Tokens, turns: seq<Turn>, a: Owner, b: Owner)
    requires a != b
    requires var s := After(Start(now, stored), turns); s.At(a).Calling? && s.At(b).Calling?
    ensures var s := After(Start(now, stored), turns); !WithinLease(s, a) || !WithinLease(s, b)
  {
    var s := After(Start(now, stored), turns);
    if WithinLease(s, a) && WithinLease(s, b) {
      RefreshIsSingleFlight(now, stored, turns, a, b);
    }
  }

  predicate LeaseRuns(s: System) {
    LOCK_KEY in s.locks && s.now <= s.locks[LOCK_KEY].expiresAt
  }

  predicate NeedsRefresh(s: System) {
    !s.stored.ValidFor(s.now, OAUTH_REFRESH_BUFFER) && s.stored.refresh != ""
  }

  /** A request that goes straight through to the upstream, as far as it gets. */
  function Arrive(s: System, b: Owner): System {
    Step(Step(Step(s, b, Read), b, TryLock), b, Reread)
  }

  /** From any state a newcomer reaches the upstream exactly when the tokens need it and no lease runs. */
  lemma NewcomerCallsExactly(s: System, b: Owner)
    requires s.At(b) == Idle
    ensures Arrive(s, b).At(b).Calling? <==> NeedsRefresh(s) && !LeaseRuns(s)
    ensures forall a :: a != b ==> Arrive(s, b).At(a) == s.At(a)
  {
    var read := Step(s, b, Read);
    assert read.At(b) == HasRead(s.stored) && read.locks == s.locks && read.stored == s.stored && read.now == s.now;
    var tried := Step(read, b, TryLock);
    assert tried.stored == s.stored && tried.now == s.now;
    if s.stored.ValidFor(s.now, OAUTH_REFRESH_BUFFER) {
      assert tried.At(b) == Finished(Token(s.stored.access));
    } else if s.stored.refresh == "" {
      assert tried.At(b) == Finished(Unavailable);
    } else if LeaseRuns(s) {
      assert tried.At(b) == Waiting(0);
    } else {
      assert tried.At(b) == Locked(s.now);
    }
  }

  /**
   * In every reachable state with a call in flight: a newcomer can join it at once with a second
   * call exactly when the tokens need a refresh and no lease runs any more. The caller's own
   * lease is one, so that takes a caller that has outstayed it.
   */
  lemma OverlapIsPossibleExactlyWithoutALease(now: Instant, stored: Tokens, turns: seq<Turn>, a: Owner, b: Owner)
    requires var s := After(Start(now, stored), turns); s.At(a).Calling? && s.At(b) == Idle
    ensures var s := After(Start(now, stored), turns);
      var t := Arrive(s, b);
      && (t.At(a).Calling? && t.At(b).Calling? <==> NeedsRefresh(s) && !LeaseRuns(s))
      && (WithinLease(s, a) ==> LeaseRuns(s))
  {
    var s := After(Start(now, stored), turns);
    RunKeepsInv(Start(now, stored), turns);
    assert Leased(s, a);
    hide After, Step, Inv;
    NewcomerCallsExactly(s, b);
  }

  /** And when one does outstay it, a second call with the very same refresh token can start. */
  lemma OutstayedLeaseAllowsOverlap(stored: Tokens, late: nat)
    requires late > OAUTH_LOCK_TTL && stored.refresh != "" && stored.access == ""
    ensures var s := Start(0, stored);
      var one := Step(Step(Step(s, "a", Read), "a", TryLock), "a", Reread);
      var two := Step(Step(Step(Step(one, "a", Tick(late)), "b", Read), "b", TryLock), "b", Reread);
      && two.At("a") == Calling(0, stored, 0) && two.At("b") == Calling(late, stored, late)
      && !WithinLease(two, "a") && WithinLease(two, "b")
  {
    var s := Start(0, stored);
    var one := Step(Step(Step(s, "a", Read), "a", TryLock), "a", Reread);
    assert one.At("a") == Calling(0, stored, 0) && one.locks == map[LOCK_KEY := Lock("a", OAUTH_LOCK_TTL)];
    var ticked := Step(one, "a", Tick(late));
    var locked := Step(Step(ticked, "b", Read), "b", TryLock);
    assert locked.At("b") == Locked(late) && locked.At("a") == Calling(0, stored, 0);
  }
}
