/** The scheduler of `account.rs`: selection and admission over the shared cache. */
module AccountServices {
  import opened Prelude
  import opened MemoryStores
  import opened AccountTable
  import opened AccountRanking
  import opened Admission
  import opened AdmissionLimits
  import opened SelectionRules

  class AccountService {
    const cache: MemoryStore

    constructor (cache: MemoryStore)
      ensures this.cache == cache
    {
      this.cache := cache;
    }

    function LiveCount(a: Account, now: Instant): nat
      reads cache`acctSessions
    {
      |Live(cache.ActivityOf(a.id), now, SESSION_TTL)|
    }

    function Score(a: Account, now: Instant): Scored
      reads cache`acctSessions
    {
      Scored(Occupancy(a, LiveCount(a, now)), a)
    }

    ghost function Scores(accounts: seq<Account>, now: Instant): (scores: seq<Scored>)
      reads cache`acctSessions
      ensures |scores| == |accounts| && forall i :: 0 <= i < |accounts| ==> scores[i] == Score(accounts[i], now)
    {
      if accounts == [] then [] else [Score(accounts[0], now)] + Scores(accounts[1..], now)
    }

    function GateOf(id: AccountId): Gate
      reads cache`acctSessions, cache`quotaDevices, cache`quotaSessions
    {
      Gate(cache.ActivityOf(id), cache.QuotaOf(id))
    }

    ghost function AllGates(): (gates: Gates)
      reads cache`acctSessions, cache`quotaDevices, cache`quotaSessions
      ensures Total(gates)
    {
      imap id: AccountId | true :: GateOf(id)
    }

    function CacheNow(): CacheState
      reads cache`sessions, cache`acctSessions, cache`quotaDevices, cache`quotaSessions
    {
      CacheState(cache.sessions, cache.acctSessions, cache.quotaDevices, cache.quotaSessions)
    }

    /** The client has no usable binding, and every usable account would refuse it. */
    ghost predicate Refusing(w: World, c: Client, f: Filter)
      reads cache`sessions, cache`acctSessions, cache`quotaDevices, cache`quotaSessions
    {
      Sticky(w, f, cache.sessions, c.hash).None? && AllFull(w, c, f, AllGates())
    }

    /** The bound account when usable, and whether there is a binding that is not. */
    method LookUpSticky(w: World, hash: string, f: Filter) returns (usable: Option<Account>, stale: bool)
      modifies cache`sessions
      ensures usable == Sticky(w, f, old(cache.sessions), hash)
      ensures stale == (usable.None? && hash != "" && Bound(old(cache.sessions), hash, w.now).Some?
                        && Bound(old(cache.sessions), hash, w.now).value > 0)
      ensures cache.sessions == Looked(old(cache.sessions), hash, w.now)
    {
      if hash == "" {
        return None, false;
      }
      var bound := cache.GetSessionAccountId(hash, w.now);
      if bound.None? || bound.value <= 0 {
        return None, false;
      }
      var account := GetById(w.accounts, bound.value);
      if account.Some? && Schedulable(account.value, w.now) && Passes(bound.value, f)
         && !CostExhausted(account.value, w.cost(bound.value)) {
        return account, false;
      }
      return None, true;
    }

    /** The two tiers of usable accounts, in table order. */
    method SplitTiers(w: World, f: Filter) returns (primary: seq<Account>, fallback: seq<Account>)
      ensures forall a :: a in primary <==> a in w.accounts && InPrimary(w, f, a)
      ensures forall a :: a in fallback <==> a in w.accounts && Eligible(w, f, a) && !InPrimary(w, f, a)
      ensures WellFormed(w) ==> NoDuplicates(primary) && NoDuplicates(fallback)
    {
      primary, fallback := [], [];
      for i := 0 to |w.accounts|
        invariant forall a :: a in primary <==> a in w.accounts[..i] && InPrimary(w, f, a)
        invariant forall a :: a in fallback <==> a in w.accounts[..i] && Eligible(w, f, a) && !InPrimary(w, f, a)
        invariant WellFormed(w) ==> NoDuplicates(primary) && NoDuplicates(fallback)
      {
        var a := w.accounts[i];
        assert w.accounts[..i + 1] == w.accounts[..i] + [a];
        assert WellFormed(w) ==> a !in w.accounts[..i];
        if !Listed(a, w.now) || !Passes(a.id, f) || CostExhausted(a, w.cost(a.id)) {
          continue;
        }
        if CostSoftLimited(a, w.cost(a.id)) {
          fallback := fallback + [a];
        } else {
          primary := primary + [a];
        }
      }
      assert w.accounts[..|w.accounts|] == w.accounts;
    }

    method ScoreAll(candidates: seq<Account>, now: Instant) returns (scored: seq<Scored>)
      ensures AccountsOf(scored) == candidates
      ensures forall s :: s in scored ==> s == Score(s.account, now)
    {
      scored := [];
      for i := 0 to |candidates|
        invariant |scored| == i
        invariant forall k :: 0 <= k < i ==> scored[k] == Score(candidates[k], now)
      {
        var count := cache.SessionCount(candidates[i].id, SESSION_TTL, now);
        scored := scored + [Scored(Occupancy(candidates[i], count), candidates[i])];
      }
    }

    /** A permutation of the candidates, sorted by priority and then occupancy, for every shuffle. */
    method RankCandidates(candidates: seq<Account>, now: Instant, shuffle: seq<Scored> -> seq<Scored>)
      returns (ranked: seq<Account>)
      requires IsShuffle(shuffle)
      ensures multiset(ranked) == multiset(candidates)
      ensures Sorted(Scores(ranked, now))
    {
      var scored := ScoreAll(candidates, now);
      var sorted := Sort(shuffle(scored));
      SortSorts(shuffle(scored));
      RankingPermutes(scored, sorted);
      ranked := AccountsOf(sorted);
      forall i | 0 <= i < |sorted| ensures sorted[i] == Scores(ranked, now)[i] {
        assert sorted[i] in sorted;
      }
      assert sorted == Scores(ranked, now);
    }

    /** The usable accounts of the first tier that has any, best first. */
    method Candidates(w: World, f: Filter, shuffle: seq<Scored> -> seq<Scored>) returns (ranked: seq<Account>)
      requires WellFormed(w) && IsShuffle(shuffle)
      ensures forall a :: a in ranked <==> InTier(w, f, a)
      ensures ranked == [] <==> forall a :: a in w.accounts ==> !Eligible(w, f, a)
      ensures DistinctIds(ranked) && Sorted(Scores(ranked, w.now))
    {
      var primary, fallback := SplitTiers(w, f);
      TiersAreCandidates(w, f, primary, fallback);
      var candidates := if primary != [] then primary else fallback;
      ranked := RankCandidates(candidates, w.now, shuffle);
      RankedIdsAreDistinct(w, candidates, ranked);
      assert |multiset(ranked)| == |multiset(candidates)|;
    }

    method BindHash(hash: string, id: AccountId, now: Instant)
      modifies cache`sessions
      ensures cache.sessions == Bind(old(cache.sessions), hash, id, now)
    {
      if hash != "" {
        cache.SetSessionAccountId(hash, id, STICKY_SESSION_TTL, now);
      }
    }

    method SelectAccount(w: World, hash: string, f: Filter, shuffle: seq<Scored> -> seq<Scored>)
      returns (r: Option<Account>)
      requires WellFormed(w) && IsShuffle(shuffle)
      modifies cache`sessions
      // A usable sticky account wins and keeps its binding.
      ensures var sticky := Sticky(w, f, old(cache.sessions), hash);
        sticky.Some? ==> r == sticky && cache.sessions == old(cache.sessions)
      // Otherwise the best account of the first tier that has one, and the hash is bound to it.
      ensures Sticky(w, f, old(cache.sessions), hash).None? ==>
        && (r.None? <==> forall a :: a in w.accounts ==> !Eligible(w, f, a))
        && (r.Some? ==> InTier(w, f, r.value))
        && (r.Some? ==> forall a :: InTier(w, f, a) ==> NotAfter(Score(r.value, w.now), Score(a, w.now)))
        && (r.Some? ==> forall a :: InTier(w, f, a) ==>
          Preferred(r.value, LiveCount(r.value, w.now), a, LiveCount(a, w.now)))
      ensures Sticky(w, f, old(cache.sessions), hash).None? ==>
        var released := Released(w, f, old(cache.sessions), hash);
        cache.sessions == if r.Some? then Bind(released, hash, r.value.id, w.now) else released
      ensures r.Some? ==> r.value in w.accounts && Schedulable(r.value, w.now) && Passes(r.value.id, f)
      ensures r.Some? ==> !CostExhausted(r.value, w.cost(r.value.id))
    {
      var sticky, stale := LookUpSticky(w, hash, f);
      if sticky.Some? {
        return sticky;
      }
      if stale {
        cache.DeleteSession(hash);
      }
      assert cache.sessions == Released(w, f, old(cache.sessions), hash);
      var ranked := Candidates(w, f, shuffle);
      if ranked == [] {
        return None;
      }
      var selected := ranked[0];
      assert InTier(w, f, selected);
      forall a | InTier(w, f, a)
        ensures NotAfter(Score(selected, w.now), Score(a, w.now))
        ensures Preferred(selected, LiveCount(selected, w.now), a, LiveCount(a, w.now))
      {
        var k :| 0 <= k < |ranked| && ranked[k] == a;
        SortedAt(Scores(ranked, w.now), 0, k);
        RankingPrefersExactly(selected, LiveCount(selected, w.now), a, LiveCount(a, w.now));
      }
      hide NotAfter, Preferred, Occupancy;
      BindHash(hash, selected.id, w.now);
      r := Some(selected);
    }

    method TryCandidate(w: World, c: Client, a: Account) returns (ok: bool)
      modifies cache`acctSessions, cache`quotaDevices, cache`quotaSessions
      ensures (GateOf(a.id), ok) == Attempt(w, c, a, old(GateOf(a.id)))
      ensures ok <==> HasPlace(w, c, a, old(GateOf(a.id)))
      ensures forall id :: id != a.id ==> GateOf(id) == old(GateOf(id))
    {
      AttemptSucceedsExactly(w, c, a, GateOf(a.id));
      hide HasPlace;
      var warmCap := 0;
      if !a.warmupSkip {
        warmCap := CapForAge(w.warmup, AgeHours(a, w.now));
      }
      var max := WarmEffectiveMax(a.maxSessions, warmCap);
      ok := cache.SessionAdmit(a.id, c.session, max, SESSION_TTL, false, w.now);
      if ok {
        ok := cache.AccountQuotaAdmit(
          a.id, c.device, c.session, a.deviceQuota, a.sessionQuota, QUOTA_TTL_SECS, false, w.nowSecs);
      }
    }

    method ForceIn(w: World, c: Client, a: Account)
      modifies cache`acctSessions, cache`quotaDevices, cache`quotaSessions
      ensures GateOf(a.id) == Force(w, c, a, old(GateOf(a.id)))
      ensures forall id :: id != a.id ==> GateOf(id) == old(GateOf(id))
    {
      var _ := cache.SessionAdmit(a.id, c.session, a.maxSessions, SESSION_TTL, true, w.now);
      var _ := cache.AccountQuotaAdmit(
        a.id, c.device, c.session, a.deviceQuota, a.sessionQuota, QUOTA_TTL_SECS, true, w.nowSecs);
    }

    method OfferInTurn(w: World, c: Client, ranked: seq<Account>) returns (r: Option<Account>)
      modifies cache`acctSessions, cache`quotaDevices, cache`quotaSessions
      ensures (AllGates(), r) == Offer(w, c, ranked, old(AllGates()))
    {
      hide Attempt, HasPlace;
      for i := 0 to |ranked|
        invariant Offer(w, c, ranked, old(AllGates())) == Offer(w, c, ranked[i..], AllGates())
      {
        assert ranked[i..][0] == ranked[i] && ranked[i..][1..] == ranked[i + 1..];
        ghost var before := AllGates();
        var ok := TryCandidate(w, c, ranked[i]);
        assert AllGates() == before[ranked[i].id := Attempt(w, c, ranked[i], before[ranked[i].id]).0];
        if ok {
          return Some(ranked[i]);
        }
      }
      r := None;
    }

    /** A session already bound to a usable account is let in by force. */
    method AdmitBound(w: World, c: Client, f: Filter) returns (r: Option<Account>)
      modifies cache`sessions, cache`acctSessions, cache`quotaDevices, cache`quotaSessions
      ensures r == Sticky(w, f, old(cache.sessions), c.hash)
      ensures cache.sessions == Looked(old(cache.sessions), c.hash, w.now)
      ensures r.Some? ==> AllGates() == old(AllGates())[r.value.id := Force(w, c, r.value, old(AllGates())[r.value.id])]
      ensures r.None? ==>
        unchanged(cache`acctSessions) && unchanged(cache`quotaDevices) && unchanged(cache`quotaSessions)
      ensures r.Some? ==> Placed(w, f, c, r.value, AllGates()[r.value.id], cache.sessions)
    {
      LookingUpKeepsTheRest(w, f, cache.sessions, c.hash);
      var stale;
      r, stale := LookUpSticky(w, c.hash, f);
      if r.Some? {
        ForcedIsPlaced(w, f, c, r.value, GateOf(r.value.id), cache.sessions);
        hide Force, Placed, Sticky, Looked;
        ForceIn(w, c, r.value);
      }
    }

    /** A round for a client without a usable binding: the first of the ranking that has room. */
    method AdmitNew(w: World, c: Client, f: Filter, shuffle: seq<Scored> -> seq<Scored>)
      returns (r: Option<Account>, ranked: seq<Account>)
      requires WellFormed(w) && IsShuffle(shuffle)
      modifies cache`sessions, cache`acctSessions, cache`quotaDevices, cache`quotaSessions
      ensures RanksTier(w, f, ranked) && Sorted(old(Scores(ranked, w.now)))
      ensures (AllGates(), r) == Offer(w, c, ranked, old(AllGates()))
      ensures cache.sessions ==
        if r.Some? then Bind(old(cache.sessions), c.hash, r.value.id, w.now) else old(cache.sessions)
      ensures r.Some? ==> Placed(w, f, c, r.value, AllGates()[r.value.id], cache.sessions)
      ensures r.None? ==> AllFull(w, c, f, AllGates())
    {
      hide Attempt, InTier, Placed, Bind, AllFull, DistinctIds, Sorted, Offer, WellFormed, IsShuffle, Total;
      ranked := Candidates(w, f, shuffle);
      r := OfferInTurn(w, c, ranked);
      if r.Some? {
        ServedHadRoom(w, c, ranked, old(AllGates()));
        AdmittedIsPlaced(w, f, c, r.value, old(AllGates())[r.value.id], cache.sessions);
        BindHash(c.hash, r.value.id, w.now);
      } else {
        NobodyHasRoom(w, c, f, ranked, old(AllGates()));
      }
    }

    /** One round of admission: the bound account by force, or a new one. */
    method TryAdmit(w: World, c: Client, f: Filter, shuffle: seq<Scored> -> seq<Scored>)
      returns (r: Option<Account>, ranked: seq<Account>)
      requires WellFormed(w) && IsShuffle(shuffle)
      modifies cache`sessions, cache`acctSessions, cache`quotaDevices, cache`quotaSessions
      ensures var sticky := Sticky(w, f, old(cache.sessions), c.hash);
        if sticky.Some? then
          && r == sticky && cache.sessions == old(cache.sessions)
          && AllGates() == old(AllGates())[r.value.id := Force(w, c, r.value, old(AllGates())[r.value.id])]
        else
          && RanksTier(w, f, ranked) && Sorted(old(Scores(ranked, w.now)))
          && (AllGates(), r) == Offer(w, c, ranked, old(AllGates()))
          && var looked := Looked(old(cache.sessions), c.hash, w.now);
             cache.sessions == if r.Some? then Bind(looked, c.hash, r.value.id, w.now) else looked
      ensures r.Some? ==> Placed(w, f, c, r.value, AllGates()[r.value.id], cache.sessions)
      ensures r.None? ==> Refusing(w, c, f)
    {
      hide AllFull, RanksTier, Sorted, Attempt, Placed, InTier, Force, Sticky, Looked, Bind, WellFormed, IsShuffle,
        Total, Offer;
      LookingUpKeepsTheRest(w, f, cache.sessions, c.hash);
      ranked := [];
      r := AdmitBound(w, c, f);
      if r.None? {
        r, ranked := AdmitNew(w, c, f, shuffle);
      }
    }

    /** Other requests leave the cache in whatever state they do. */
    method OthersAct(others: Option<CacheState>)
      modifies cache`sessions, cache`acctSessions, cache`quotaDevices, cache`quotaSessions
      ensures others.None? ==> unchanged(cache)
      ensures others.Some? ==> CacheNow() == others.value
    {
      if others.Some? {
        cache.sessions, cache.acctSessions := others.value.sessions, others.value.acctSessions;
        cache.quotaDevices, cache.quotaSessions := others.value.quotaDevices, others.value.quotaSessions;
      }
    }

    /** What others did meanwhile, then one attempt on the cache as `seen`. */
    method OneRound(round: Round, c: Client, f: Filter) returns (r: Option<Account>, ghost seen: CacheState)
      requires WellFormed(round.world) && IsShuffle(round.shuffle)
      modifies cache`sessions, cache`acctSessions, cache`quotaDevices, cache`quotaSessions
      ensures seen == round.others.UnwrapOr(old(CacheNow()))
      ensures r.Some? <==> Admissible(round.world, c, f, seen)
      ensures r.Some? ==> Placed(round.world, f, c, r.value, AllGates()[r.value.id], cache.sessions)
      ensures r.None? ==> Refusing(round.world, c, f)
    {
      hide Refusing, Placed, Sticky, WellFormed, IsShuffle, RanksTier, Sorted, Force, Looked, Bind, Offer, InTier,
        HasPlace, Total;
      OthersAct(round.others);
      seen := CacheNow();
      ghost var gates := AllGates();
      var ranked;
      r, ranked := TryAdmit(round.world, c, f, round.shuffle);
      if Sticky(round.world, f, seen.sessions, c.hash).None? {
        OfferServesExactly(round.world, c, f, ranked, gates, seen);
      }
    }

    /** Up to forty rounds, half a second apart; between them anything may happen to table and cache. */
    method AdmitClient(rounds: seq<Round>, c: Client, f: Filter)
      returns (ok: bool, at: nat, r: Option<Account>, ghost seen: seq<CacheState>)
      requires |rounds| == SESSION_WAIT_ATTEMPTS
      requires forall i :: 0 <= i < |rounds| ==> WellFormed(rounds[i].world) && IsShuffle(rounds[i].shuffle)
      modifies cache`sessions, cache`acctSessions, cache`quotaDevices, cache`quotaSessions
      ensures c.session == "" ==> ok && r.None? && unchanged(cache)
      ensures c.session != "" ==> ok == r.Some?
      ensures r.Some? ==>
        at < |rounds| && Placed(rounds[at].world, f, c, r.value, AllGates()[r.value.id], cache.sessions)
      ensures !ok ==> Refusing(rounds[|rounds| - 1].world, c, f)
      // It succeeds exactly in the first round in which the client can be admitted.
      ensures |seen| <= |rounds|
      ensures c.session != "" ==>
        && at == |seen| - (if ok then 1 else 0) && (!ok ==> |seen| == |rounds|)
        && (ok ==> Admissible(rounds[at].world, c, f, seen[at]))
        && (forall i :: 0 <= i < at ==> !Admissible(rounds[i].world, c, f, seen[i]))
      ensures forall i :: 0 <= i < |seen| && (i == 0 || rounds[i].others.Some?) ==>
        seen[i] == rounds[i].others.UnwrapOr(old(CacheNow()))
    {
      hide Refusing, Placed, Sticky, WellFormed, IsShuffle, Admissible;
      at, r, seen := 0, None, [];
      if c.session == "" {
        return true, at, r, seen;
      }
      while at < |rounds|
        invariant at <= |rounds|
        invariant r.None?
        invariant at > 0 ==> Refusing(rounds[at - 1].world, c, f)
        invariant |seen| == at && (at == 0 ==> CacheNow() == old(CacheNow()))
        invariant forall i :: 0 <= i < at ==> !Admissible(rounds[i].world, c, f, seen[i])
        invariant forall i :: 0 <= i < at && (i == 0 || rounds[i].others.Some?) ==>
          seen[i] == rounds[i].others.UnwrapOr(old(CacheNow()))
      {
        ghost var cacheState;
        r, cacheState := OneRound(rounds[at], c, f);
        seen := seen + [cacheState];
        if r.Some? {
          return true, at, r, seen;
        }
        at := at + 1;
      }
      ok := false;
    }

    /**
     * What a request does first. With no change of the table, the costs and the binding in
     * between, and the binding not expired meanwhile, it is served by the account it was
     * admitted to.
     */
    method AdmitAndSelect(rounds: seq<Round>, c: Client, f: Filter, later: Round)
      returns (ok: bool, at: nat, admitted: Option<Account>, binding: Binding, selected: Option<Account>)
      requires |rounds| == SESSION_WAIT_ATTEMPTS && c.session != "" && c.hash != ""
      requires forall i :: 0 <= i < |rounds| ==> WellFormed(rounds[i].world) && IsShuffle(rounds[i].shuffle)
      requires WellFormed(later.world) && IsShuffle(later.shuffle)
      modifies cache`sessions, cache`acctSessions, cache`quotaDevices, cache`quotaSessions
      ensures ok ==>
        && at < |rounds| && admitted.Some? && binding.account == admitted.value.id
        && binding.expiresAt >= rounds[at].world.now
      ensures ok && Undisturbed(rounds[at].world, later, c, binding) ==> selected == admitted
      ensures selected.Some? ==>
        var a := selected.value;
        && Schedulable(a, later.world.now) && Passes(a.id, f)
        && !CostExhausted(a, later.world.cost(a.id))
    {
      binding, selected := Binding(0, 0), None;
      ghost var seen;
      ok, at, admitted, seen := AdmitClient(rounds, c, f);
      if !ok {
        return;
      }
      ghost var w := rounds[at].world;
      ghost var sessions := cache.sessions;
      binding := cache.sessions[SessionKey(c.hash)];
      OthersAct(later.others);
      ghost var undisturbed := Undisturbed(w, later, c, binding);
      if undisturbed {
        BindingIsUsableExactlyUntilItExpires(w, later.world, f, sessions, cache.sessions, c.hash);
      }
      selected := SelectAccount(later.world, c.hash, f, later.shuffle);
    }
  }

  /** Table, costs and binding are as they were, and the binding has not expired. */
  ghost predicate Undisturbed(w: World, later: Round, c: Client, binding: Binding) {
    && later.world.accounts == w.accounts && later.world.cost == w.cost && w.now <= later.world.now <= binding.expiresAt
    && (later.others.Some? ==>
          && SessionKey(c.hash) in later.others.value.sessions
          && later.others.value.sessions[SessionKey(c.hash)] == binding)
  }
}
