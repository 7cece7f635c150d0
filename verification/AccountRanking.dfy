/** `rank_candidates` of `account.rs`: a stable sort of scored candidates after a shuffle. */
module AccountRanking {
  import opened Prelude
  import opened MemoryStores
  import opened AccountTable

  datatype Scored = Scored(ratio: real, account: Account)

  function Occupancy(a: Account, count: nat): real {
    if a.maxSessions > 0 then count as real / a.maxSessions as real else count as real
  }

  predicate NotAfter(x: Scored, y: Scored) {
    x.account.priority < y.account.priority || (x.account.priority == y.account.priority && x.ratio <= y.ratio)
  }

  ghost predicate Sorted(s: seq<Scored>) {
    forall i, j :: 0 <= i < j < |s| ==> NotAfter(s[i], s[j])
  }

  function InsertSorted(x: Scored, s: seq<Scored>): seq<Scored> {
    if s == [] || NotAfter(x, s[0]) then [x] + s else [s[0]] + InsertSorted(x, s[1..])
  }

  /** A stable sort: equal scores keep their order, which the shuffle before it makes random. */
  function Sort(s: seq<Scored>): seq<Scored> {
    if s == [] then [] else InsertSorted(s[0], Sort(s[1..]))
  }

  lemma SortedCons(x: Scored, s: seq<Scored>)
    requires Sorted(s) && forall r :: r in s ==> NotAfter(x, r)
    ensures Sorted([x] + s)
  {
    hide NotAfter;
  }

  lemma {:induction false} InsertKeepsSorted(x: Scored, s: seq<Scored>)
    requires Sorted(s)
    ensures Sorted(InsertSorted(x, s)) && multiset(InsertSorted(x, s)) == multiset(s) + multiset{x}
    decreases |s|
  {
    if s == [] {
      assert [x] + s == [x];
    } else if NotAfter(x, s[0]) {
      assert forall r :: r in s ==> NotAfter(x, r);
      SortedCons(x, s);
    } else {
      InsertKeepsSorted(x, s[1..]);
      var rest := InsertSorted(x, s[1..]);
      assert s == [s[0]] + s[1..];
      assert multiset([s[0]] + rest) == multiset{s[0]} + multiset(rest);
      forall r | r in rest ensures NotAfter(s[0], r) {
        assert r in multiset(rest);
        assert r == x || r in s[1..];
      }
      SortedCons(s[0], rest);
    }
  }

  lemma {:induction false} SortSorts(s: seq<Scored>)
    ensures Sorted(Sort(s)) && multiset(Sort(s)) == multiset(s)
  {
    if s != [] {
      SortSorts(s[1..]);
      InsertKeepsSorted(s[0], Sort(s[1..]));
      assert s == [s[0]] + s[1..];
    }
  }

  ghost predicate IsShuffle(shuffle: seq<Scored> -> seq<Scored>) {
    forall s :: multiset(shuffle(s)) == multiset(s)
  }

  function AccountsOf(s: seq<Scored>): (accounts: seq<Account>)
    ensures |accounts| == |s| && forall i :: 0 <= i < |s| ==> accounts[i] == s[i].account
  {
    if s == [] then [] else [s[0].account] + AccountsOf(s[1..])
  }

  lemma SplitMultiset<T>(s: seq<T>, i: nat)
    requires i < |s|
    ensures multiset(s) == multiset(s[..i] + s[i + 1..]) + multiset{s[i]}
    ensures multiset(s[..i] + s[i + 1..]) == multiset(s) - multiset{s[i]}
  {
    assert s == s[..i] + [s[i]] + s[i + 1..];
  }

  lemma SplitHead<T>(s: seq<T>)
    requires s != []
    ensures multiset(s) == multiset(s[1..]) + multiset{s[0]}
    ensures multiset(s[1..]) == multiset(s) - multiset{s[0]}
  {
    assert s == [s[0]] + s[1..];
  }

  lemma AccountsOfSplit(t: seq<Scored>, i: nat)
    requires i < |t|
    ensures AccountsOf(t)[..i] + AccountsOf(t)[i + 1..] == AccountsOf(t[..i] + t[i + 1..])
  {
    hide AccountsOf;
    var rest := t[..i] + t[i + 1..];
    forall k | 0 <= k < |rest| ensures (AccountsOf(t)[..i] + AccountsOf(t)[i + 1..])[k] == AccountsOf(rest)[k] {
      assert AccountsOf(rest)[k] == rest[k].account;
      assert rest[k] == if k < i then t[k] else t[k + 1];
    }
  }

  lemma AccountsWithout(t: seq<Scored>, i: nat)
    requires i < |t|
    ensures multiset(AccountsOf(t)) == multiset(AccountsOf(t[..i] + t[i + 1..])) + multiset{t[i].account}
  {
    AccountsOfSplit(t, i);
    SplitMultiset(AccountsOf(t), i);
  }

  lemma {:induction false} AccountsOfPermutation(s: seq<Scored>, t: seq<Scored>)
    requires multiset(s) == multiset(t)
    ensures multiset(AccountsOf(s)) == multiset(AccountsOf(t))
  {
    if s == [] {
      assert |multiset(t)| == 0;
    } else {
      assert s[0] in multiset(t);
      var i :| 0 <= i < |t| && t[i] == s[0];
      var rest := t[..i] + t[i + 1..];
      SplitHead(s);
      SplitMultiset(t, i);
      AccountsOfPermutation(s[1..], rest);
      SplitHead(AccountsOf(s));
      AccountsWithout(t, i);
    }
  }

  /** What shuffling and sorting the scored candidates yields. */
  lemma RankingPermutes(scored: seq<Scored>, sorted: seq<Scored>)
    requires multiset(sorted) == multiset(scored)
    ensures multiset(AccountsOf(sorted)) == multiset(AccountsOf(scored))
    ensures forall s :: s in sorted ==> s in scored
  {
    AccountsOfPermutation(sorted, scored);
    forall s | s in sorted ensures s in scored {
      assert s in multiset(sorted) && s in multiset(scored);
    }
  }

  lemma {:induction false} DistinctCounts<T>(s: seq<T>, x: T)
    requires NoDuplicates(s)
    ensures multiset(s)[x] <= 1
  {
    if s != [] {
      SplitHead(s);
      assert multiset(s[1..])[s[0]] == 0 by {
        assert s[0] !in s[1..];
      }
      DistinctCounts(s[1..], x);
    }
  }

  lemma CountsDistinct<T>(s: seq<T>, i: nat, j: nat)
    requires i < j < |s| && s[i] == s[j]
    ensures multiset(s)[s[i]] >= 2
  {
    SplitMultiset(s, i);
    var rest := s[..i] + s[i + 1..];
    assert rest[j - 1] == s[j];
    assert s[j] in multiset(rest);
  }

  ghost predicate DistinctIds(s: seq<Account>) {
    forall i, j :: 0 <= i < j < |s| ==> s[i].id != s[j].id
  }

  lemma SortedAt(s: seq<Scored>, i: nat, j: nat)
    requires Sorted(s) && i <= j < |s|
    ensures NotAfter(s[i], s[j])
  {
  }

  /** A ranking of distinct table rows has distinct ids. */
  lemma RankedIdsAreDistinct(w: World, candidates: seq<Account>, ranked: seq<Account>)
    requires WellFormed(w) && NoDuplicates(candidates) && multiset(ranked) == multiset(candidates)
    requires forall a :: a in candidates ==> a in w.accounts
    ensures forall a :: a in ranked <==> a in candidates
    ensures DistinctIds(ranked)
  {
    forall a ensures a in ranked <==> a in candidates {
      assert a in multiset(ranked) <==> a in multiset(candidates);
    }
    forall i, j | 0 <= i < j < |ranked| ensures ranked[i].id != ranked[j].id {
      DistinctCounts(candidates, ranked[i]);
      if ranked[i] == ranked[j] {
        CountsDistinct(ranked, i, j);
      }
      GetByIdFinds(w, ranked[i]);
      GetByIdFinds(w, ranked[j]);
    }
  }

  lemma TiersAreCandidates(w: World, f: Filter, primary: seq<Account>, fallback: seq<Account>)
    requires forall a :: a in primary <==> a in w.accounts && InPrimary(w, f, a)
    requires forall a :: a in fallback <==> a in w.accounts && Eligible(w, f, a) && !InPrimary(w, f, a)
    ensures forall a :: a in (if primary != [] then primary else fallback) <==> InTier(w, f, a)
    ensures primary == [] && fallback == [] <==> forall a :: a in w.accounts ==> !Eligible(w, f, a)
  {
    if primary != [] {
      assert primary[0] in primary;
    } else if fallback != [] {
      assert fallback[0] in fallback;
    }
  }
}
