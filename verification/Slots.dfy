/**
 * Concurrency slots across interleaved requests: `acquire_slot`, the scope guard that spawns a
 * release task when dropped, and the retry path that forgets the guard and releases by hand.
 */
module SlotProtocol {
  import opened Prelude
  import opened MemoryStores

  /** One place in the code that may hold a slot: a request, for its account or for its token. */
  type Holder = nat

  /** `Forgotten` is between `mem::forget` of the guard and the end of `release_slot`. */
  datatype Phase = Outside | Guarded(key: string) | Forgotten(key: string)

  /**
   * `tasks` are spawned releases still to run, `leaked` slots whose release was cancelled,
   * `limit` the largest maximum passed for a key so far; `acquired` and `released` count calls
   * that took a slot and calls that gave one back.
   */
  datatype System = System(
    slots: Slots, phase: map<Holder, Phase>, tasks: multiset<string>, leaked: multiset<string>,
    limit: map<string, int>, acquired: multiset<string>, released: multiset<string>)
  {
    function At(h: Holder): Phase {
      if h in phase then phase[h] else Outside
    }

    function Move(h: Holder, p: Phase): System {
      this.(phase := phase[h := p])
    }

    function GiveBack(key: string): System {
      this.(slots := ReleaseSlot(slots, key), released := released + multiset{key})
    }
  }

  const START := System(map[], map[], multiset{}, multiset{}, map[], multiset{}, multiset{})

  datatype Action =
    | Acquire(key: string, max: int)
    | DropGuard            // any return, error or cancellation while guarded
    | Forget               // the retry paths
    | Release              // the hand-written release that follows
    | CancelRelease        // the request future dropped before that release ran
    | RunTask(key: string) // a spawned release runs; the holder does not matter

  function Limit(s: System, key: string): int {
    if key in s.limit then s.limit[key] else 0
  }

  function Step(s: System, h: Holder, a: Action): System {
    match (s.At(h), a)
    case (Outside, Acquire(key, max)) =>
      var (slots, ok) := AcquireSlot(s.slots, key, max);
      var t := s.(slots := slots, limit := s.limit[key := if max > Limit(s, key) then max else Limit(s, key)]);
      if ok then t.Move(h, Guarded(key)).(acquired := s.acquired + multiset{key}) else t
    case (Guarded(key), DropGuard) => s.Move(h, Outside).(tasks := s.tasks + multiset{key})
    case (Guarded(key), Forget) => s.Move(h, Forgotten(key))
    case (Forgotten(key), Release) => s.Move(h, Outside).GiveBack(key)
    case (Forgotten(key), CancelRelease) => s.Move(h, Outside).(leaked := s.leaked + multiset{key})
    case (_, RunTask(key)) => if key in s.tasks then s.(tasks := s.tasks - multiset{key}).GiveBack(key) else s
    case (_, _) => s
  }

  ghost predicate Occupies(p: Phase, key: string) {
    p == Guarded(key) || p == Forgotten(key)
  }

  ghost function Holders(phase: map<Holder, Phase>, key: string): set<Holder> {
    set h | h in phase && Occupies(phase[h], key)
  }

  /** Conservation for one key. */
  ghost predicate Balanced(s: System, key: string) {
    var taken := |Holders(s.phase, key)| + s.tasks[key] + s.leaked[key];
    && SlotCount(s.slots, key) == taken <= Limit(s, key)
    && s.acquired[key] == s.released[key] + taken
  }

  ghost predicate Inv(s: System) {
    forall key :: Balanced(s, key)
  }

  lemma HoldersAfterMove(phase: map<Holder, Phase>, h: Holder, p: Phase, key: string)
    ensures var was := h in phase && Occupies(phase[h], key);
      |Holders(phase[h := p], key)| == |Holders(phase, key)|
        + (if Occupies(p, key) then 1 else 0) - (if was then 1 else 0)
  {
    var before, after := Holders(phase, key), Holders(phase[h := p], key);
    if Occupies(p, key) {
      assert after == before + {h};
    } else {
      assert after == before - {h};
    }
  }

  lemma AcquireKeepsBalance(s: System, h: Holder, k: string, max: int, key: string)
    requires Balanced(s, key) && s.At(h) == Outside
    ensures Balanced(Step(s, h, Acquire(k, max)), key)
  {
    HoldersAfterMove(s.phase, h, Guarded(k), key);
    hide Holders;
  }

  lemma RunTaskKeepsBalance(s: System, h: Holder, k: string, key: string)
    requires Balanced(s, key)
    ensures Balanced(Step(s, h, RunTask(k)), key)
  {
    hide Holders;
  }

  lemma HolderStepKeepsBalance(s: System, h: Holder, a: Action, key: string)
    requires Balanced(s, key) && s.At(h) != Outside && !a.RunTask?
    ensures Balanced(Step(s, h, a), key)
  {
    var k := s.At(h).key;
    HoldersAfterMove(s.phase, h, Outside, key);
    HoldersAfterMove(s.phase, h, Forgotten(k), key);
    hide Holders;
  }

  lemma StepKeepsBalance(s: System, h: Holder, a: Action, key: string)
    requires Balanced(s, key)
    ensures Balanced(Step(s, h, a), key)
  {
    if a.RunTask? {
      RunTaskKeepsBalance(s, h, a.key, key);
    } else if s.At(h) != Outside {
      HolderStepKeepsBalance(s, h, a, key);
    } else if a.Acquire? {
      AcquireKeepsBalance(s, h, a.key, a.max, key);
    }
  }

  // ---- Runs ----

  datatype Turn = Turn(holder: Holder, action: Action)

  function After(turns: seq<Turn>): System {
    if turns == [] then START
    else
      var n := |turns| - 1;
      Step(After(turns[..n]), turns[n].holder, turns[n].action)
  }

  /** In every interleaving: the counter is the slots in use, and taken equals given back plus in use. */
  lemma {:induction false} SlotsAreConserved(turns: seq<Turn>)
    ensures Inv(After(turns))
  {
    if turns == [] {
      forall key ensures Balanced(START, key) {
        assert Holders(START.phase, key) == {};
      }
    } else {
      var n := |turns| - 1;
      SlotsAreConserved(turns[..n]);
      forall key ensures Balanced(After(turns), key) {
        assert Balanced(After(turns[..n]), key);
        StepKeepsBalance(After(turns[..n]), turns[n].holder, turns[n].action, key);
      }
    }
  }

  /**
   * In every interleaving a slot is granted exactly when those held, still to be given back and
   * lost are fewer than the maximum; a refusal leaves the counter as it was.
   */
  lemma SlotIsGrantedExactlyBelowTheMaximum(turns: seq<Turn>, h: Holder, key: string, max: int)
    requires After(turns).At(h) == Outside
    ensures var s := After(turns);
      Step(s, h, Acquire(key, max)).At(h) == Guarded(key) <==>
        |Holders(s.phase, key)| + s.tasks[key] + s.leaked[key] < max
    ensures var s := After(turns);
      var t := Step(s, h, Acquire(key, max));
      t.At(h) != Guarded(key) ==> t.At(h) == Outside && SlotCount(t.slots, key) == SlotCount(s.slots, key)
  {
    SlotsAreConserved(turns);
    assert Balanced(After(turns), key);
    hide After, Holders;
  }

  /** Holders never outnumber the largest limit passed. */
  lemma HoldersStayWithinLimit(turns: seq<Turn>, key: string)
    ensures |Holders(After(turns).phase, key)| <= Limit(After(turns), key)
  {
    SlotsAreConserved(turns);
    assert Balanced(After(turns), key);
  }

  /** Every release finds a positive count, so the saturating decrement never hides a double release. */
  lemma ReleasesNeverSaturate(turns: seq<Turn>, h: Holder, a: Action, key: string)
    ensures var s := After(turns);
      var t := Step(s, h, a);
      t.released[key] != s.released[key] ==> SlotCount(t.slots, key) == SlotCount(s.slots, key) - 1 >= 0
  {
    SlotsAreConserved(turns);
    assert Balanced(After(turns), key);
    hide After, Inv;
    BalancedReleases(After(turns), h, a, key);
  }

  lemma BalancedReleases(s: System, h: Holder, a: Action, key: string)
    requires Balanced(s, key)
    ensures var t := Step(s, h, a);
      t.released[key] != s.released[key] ==> SlotCount(t.slots, key) == SlotCount(s.slots, key) - 1 >= 0
  {
    if s.At(h) == Forgotten(key) {
      assert h in Holders(s.phase, key);
    }
    hide Holders;
  }

  // ---- Leaks ----

  /** A request cancelled between forgetting its guard and releasing. */
  predicate Leaks(s: System, t: Turn, key: string) {
    t.action == CancelRelease && s.At(t.holder) == Forgotten(key)
  }

  predicate LeaksAt(turns: seq<Turn>, i: nat, key: string)
    requires i < |turns|
  {
    Leaks(After(turns[..i]), turns[i], key)
  }

  function Cancellations(turns: seq<Turn>, key: string): nat {
    if turns == [] then 0
    else
      var n := |turns| - 1;
      Cancellations(turns[..n], key) + if LeaksAt(turns, n, key) then 1 else 0
  }

  lemma StepLeaks(s: System, h: Holder, a: Action)
    ensures Step(s, h, a).leaked ==
      s.leaked + if a == CancelRelease && s.At(h).Forgotten? then multiset{s.At(h).key} else multiset{}
  {
    match s.At(h)
    case Outside =>
    case Guarded(_) =>
    case Forgotten(_) =>
  }

  /** What has leaked is exactly the cancelled releases, key by key. */
  lemma {:induction false} LeakedIsTheCancelledReleases(turns: seq<Turn>, key: string)
    ensures After(turns).leaked[key] == Cancellations(turns, key)
  {
    if turns != [] {
      var n := |turns| - 1;
      StepLeaks(After(turns[..n]), turns[n].holder, turns[n].action);
      hide Step;
      LeakedIsTheCancelledReleases(turns[..n], key);
    }
  }

  lemma LeaksAtPrefix(turns: seq<Turn>, n: nat, i: nat, key: string)
    requires i < n <= |turns|
    ensures LeaksAt(turns[..n], i, key) == LeaksAt(turns, i, key)
  {
    assert turns[..n][..i] == turns[..i];
  }

  lemma {:induction false} NothingCountedNothingLeaked(turns: seq<Turn>, i: nat, key: string)
    requires Cancellations(turns, key) == 0 && i < |turns|
    ensures !LeaksAt(turns, i, key)
    decreases |turns|
  {
    var n := |turns| - 1;
    if i < n {
      NothingCountedNothingLeaked(turns[..n], i, key);
      LeaksAtPrefix(turns, n, i, key);
    }
  }

  lemma {:induction false} WhatIsCountedLeaked(turns: seq<Turn>, key: string) returns (i: nat)
    requires Cancellations(turns, key) > 0
    ensures i < |turns| && LeaksAt(turns, i, key)
    decreases |turns|
  {
    i := |turns| - 1;
    if !LeaksAt(turns, i, key) {
      var n := i;
      i := WhatIsCountedLeaked(turns[..n], key);
      LeaksAtPrefix(turns, n, i, key);
    }
  }

  /** Nothing leaks exactly when no release is cancelled after its guard was forgotten. */
  lemma NothingLeaksExactlyWithoutCancelledReleases(turns: seq<Turn>)
    ensures After(turns).leaked == multiset{} <==> forall i, key :: 0 <= i < |turns| ==> !LeaksAt(turns, i, key)
  {
    hide After, LeaksAt, Cancellations;
    if After(turns).leaked == multiset{} {
      forall i, key | 0 <= i < |turns| ensures !LeaksAt(turns, i, key) {
        LeakedIsTheCancelledReleases(turns, key);
        NothingCountedNothingLeaked(turns, i, key);
      }
    } else {
      var key :| key in After(turns).leaked;
      LeakedIsTheCancelledReleases(turns, key);
      var i := WhatIsCountedLeaked(turns, key);
    }
  }

  /**
   * With no request inside and no task pending, a counter is the number of cancelled releases:
   * back at zero exactly when no release of that slot was cancelled.
   */
  lemma IdleCounterIsTheCancelledReleases(turns: seq<Turn>, key: string)
    requires var s := After(turns); s.tasks == multiset{} && forall h :: h in s.phase ==> s.phase[h] == Outside
    ensures SlotCount(After(turns).slots, key) == Cancellations(turns, key)
    ensures SlotCount(After(turns).slots, key) == 0 <==>
      forall i :: 0 <= i < |turns| ==> !LeaksAt(turns, i, key)
  {
    SlotsAreConserved(turns);
    LeakedIsTheCancelledReleases(turns, key);
    var s := After(turns);
    assert Balanced(s, key);
    assert Holders(s.phase, key) == {};
    hide LeaksAt, After, Cancellations, Inv, Balanced;
    if Cancellations(turns, key) == 0 {
      forall i | 0 <= i < |turns| ensures !LeaksAt(turns, i, key) {
        NothingCountedNothingLeaked(turns, i, key);
      }
    } else {
      var i := WhatIsCountedLeaked(turns, key);
    }
  }

  /** And then the slot is gone for good: one cancelled release with a limit of one blocks the key. */
  lemma CancelledReleaseBlocksTheKey(h: Holder, other: Holder, key: string)
    requires h != other
    ensures var s := Step(Step(Step(START, h, Acquire(key, 1)), h, Forget), h, CancelRelease);
      && Holders(s.phase, key) == {} && s.tasks == multiset{}
      && !AcquireSlot(s.slots, key, 1).1
  {
  }
}
