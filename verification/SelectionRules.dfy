/** Who may be selected, and who is preferred, in terms of the fields of an account alone. */
module SelectionRules {
  import opened Prelude
  import opened MemoryStores
  import opened AccountTable
  import opened AccountRanking

  /** What an account has spent, against a share of its cap. */
  ghost predicate HasSpent(w: World, a: Account, share: real) {
    match a.costCap
    case None => false
    case Some(cap) => cap > 0.0 && w.cost(a.id) >= share * cap
  }

  /** Not taken out by this request. */
  ghost predicate Permitted(f: Filter, id: AccountId) {
    (forall x :: x in f.excluded ==> x != id) && (f.allowed != [] ==> exists x :: x in f.allowed && x == id)
  }

  /** A binding leads to an account exactly while it has not expired and the account can be used. */
  lemma StickyExactly(w: World, f: Filter, sessions: Bindings, hash: string, a: Account)
    requires WellFormed(w)
    ensures Sticky(w, f, sessions, hash) == Some(a) <==>
      && hash != "" && a in w.accounts
      && SessionKey(hash) in sessions && sessions[SessionKey(hash)].account == a.id
      && w.now <= sessions[SessionKey(hash)].expiresAt
      && a.active && (a.rateLimitResetAt.Some? ==> a.rateLimitResetAt.value <= w.now)
      && Permitted(f, a.id) && !HasSpent(w, a, 1.0)
  {
    if a in w.accounts {
      GetByIdFinds(w, a);
      assert a.id > 0;
    }
  }

  /** An account can be selected anew: it is active, past any rate limit, permitted, and below its cap. */
  ghost predicate Usable(w: World, f: Filter, a: Account) {
    && a in w.accounts && a.active && (a.rateLimitResetAt.Some? ==> a.rateLimitResetAt.value < w.now)
    && Permitted(f, a.id) && !HasSpent(w, a, 1.0)
  }

  /** Accounts that have spent 85 % of their cap are candidates only when all usable ones have. */
  lemma TierExactly(w: World, f: Filter, a: Account)
    ensures InTier(w, f, a) <==>
      Usable(w, f, a) && (HasSpent(w, a, 0.85) ==> forall b :: Usable(w, f, b) ==> HasSpent(w, b, 0.85))
  {
    forall b ensures Usable(w, f, b) <==> b in w.accounts && Eligible(w, f, b) {
    }
    forall b ensures HasSpent(w, b, 0.85) <==> CostSoftLimited(b, w.cost(b.id)) {
    }
    hide Usable, HasSpent, Eligible, CostSoftLimited;
  }

  /** An account without a session limit counts as having one seat. */
  function Seats(a: Account): nat {
    if a.maxSessions > 0 then a.maxSessions else 1
  }

  /** Lower priority numbers first, then the smaller share of seats taken, compared without dividing. */
  predicate Preferred(a: Account, live: nat, b: Account, liveB: nat) {
    a.priority < b.priority || (a.priority == b.priority && live * Seats(b) <= liveB * Seats(a))
  }

  lemma RatiosCompare(x: nat, m: nat, y: nat, n: nat)
    requires m > 0 && n > 0
    ensures x as real / m as real <= y as real / n as real <==> x * n <= y * m
  {
    var p, q := x as real / m as real, y as real / n as real;
    var mr, nr := m as real, n as real;
    assert p * mr == x as real && q * nr == y as real;
    assert (x * n) as real == p * mr * nr && (y * m) as real == q * nr * mr;
    if p <= q {
      assert p * (mr * nr) <= q * (mr * nr);
    } else {
      assert p * (mr * nr) > q * (mr * nr);
    }
  }

  lemma RankingPrefersExactly(a: Account, live: nat, b: Account, liveB: nat)
    ensures NotAfter(Scored(Occupancy(a, live), a), Scored(Occupancy(b, liveB), b)) <==> Preferred(a, live, b, liveB)
  {
    RatiosCompare(live, Seats(a), liveB, Seats(b));
  }
}
