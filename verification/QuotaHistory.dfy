/**
 * The quota sets of `account_quota_admit` against the history of calls. Its clock is read before
 * its locks are taken, so the windows of successive calls may step back.
 */
module QuotaHistory {
  import opened Prelude
  import opened MemoryStores

  /** The two sets are counted alike. */
  datatype Dimension = Devices | Sessions

  function IdOf(c: QuotaCall, d: Dimension): string {
    if d == Devices then c.device else c.session
  }

  function MaxOf(c: QuotaCall, d: Dimension): int {
    if d == Devices then c.maxDevices else c.maxSessions
  }

  function MembersOf(q: Quota, d: Dimension): Members {
    if d == Devices then q.devices else q.sessions
  }

  /** The ids stored for a window. */
  function Counted(calls: seq<QuotaCall>, d: Dimension, win: nat): Members {
    Kept(MembersOf(AfterQuota(calls), d), win)
  }

  /** Call `i` was accepted in the window, and brought the id. */
  predicate Brought(calls: seq<QuotaCall>, d: Dimension, win: nat, id: string, i: nat) {
    i < |calls| && QuotaAccepted(calls, i) && calls[i].win == win && IdOf(calls[i], d) == id != ""
  }

  /** The distinct non-empty ids of the accepted calls in a window. */
  ghost function AcceptedIds(calls: seq<QuotaCall>, d: Dimension, win: nat): set<string> {
    if calls == [] then {}
    else
      var n := |calls| - 1;
      AcceptedIds(calls[..n], d, win) +
      if Brought(calls, d, win, IdOf(calls[n], d), n) then {IdOf(calls[n], d)} else {}
  }

  /** Some later call read another window, which empties the sets. */
  ghost predicate Swept(calls: seq<QuotaCall>, win: nat, i: nat) {
    exists j :: i < j < |calls| && calls[j].win != win
  }

  // ---- What is stored, for every clock reading ----

  /** What one call does to one of its two sets, seen from any window. */
  lemma OneCallCounts(q: Quota, c: QuotaCall, d: Dimension, id: string, win: nat)
    ensures var (after, ok) := AdmitQuota(q, c);
      id in Kept(MembersOf(after, d), win) <==>
        c.win == win && (id in Kept(MembersOf(q, d), win) || (ok && IdOf(c, d) == id != ""))
  {
    hide HasRoom;
  }

  lemma BroughtInPrefix(calls: seq<QuotaCall>, d: Dimension, win: nat, id: string, n: nat, i: nat)
    requires i < n <= |calls|
    ensures Brought(calls[..n], d, win, id, i) == Brought(calls, d, win, id, i)
  {
    assert calls[..n][..i] == calls[..i];
  }

  lemma SweptSnoc(calls: seq<QuotaCall>, win: nat, i: nat)
    requires i < |calls| - 1
    ensures var n := |calls| - 1;
      Swept(calls, win, i) <==> Swept(calls[..n], win, i) || calls[n].win != win
  {
    var n := |calls| - 1;
    if j :| i < j < n && calls[..n][j].win != win {
      assert calls[j].win != win;
    }
    if j :| i < j < |calls| && calls[j].win != win {
      assert j < n ==> calls[..n][j].win != win;
    }
  }

  lemma {:induction false} BroughtAndNotSweptIsCounted(calls: seq<QuotaCall>, d: Dimension, win: nat, id: string,
      i: nat)
    requires Brought(calls, d, win, id, i) && !Swept(calls, win, i)
    ensures id in Counted(calls, d, win)
    decreases |calls|
  {
    var n := |calls| - 1;
    OneCallCounts(AfterQuota(calls[..n]), calls[n], d, id, win);
    assert AfterQuota(calls) == AdmitQuota(AfterQuota(calls[..n]), calls[n]).0;
    if i < n {
      SweptSnoc(calls, win, i);
      BroughtInPrefix(calls, d, win, id, n, i);
      hide AfterQuota, AdmitQuota, Swept, Brought;
      BroughtAndNotSweptIsCounted(calls[..n], d, win, id, i);
    }
  }

  lemma {:induction false} CountedWasBrought(calls: seq<QuotaCall>, d: Dimension, win: nat, id: string) returns (i: nat)
    requires id in Counted(calls, d, win)
    ensures Brought(calls, d, win, id, i) && !Swept(calls, win, i)
    decreases |calls|
  {
    var n := |calls| - 1;
    OneCallCounts(AfterQuota(calls[..n]), calls[n], d, id, win);
    i := n;
    if !Brought(calls, d, win, id, n) {
      hide AdmitQuota, Swept;
      i := CountedWasBrought(calls[..n], d, win, id);
      BroughtInPrefix(calls, d, win, id, n, i);
      SweptSnoc(calls, win, i);
    }
  }

  /**
   * For every clock reading: an id is stored for a window exactly when an accepted call brought
   * it there and no later call read another window.
   */
  lemma CountedExactly(calls: seq<QuotaCall>, d: Dimension, win: nat, id: string)
    ensures id in Counted(calls, d, win) <==> exists i :: Brought(calls, d, win, id, i) && !Swept(calls, win, i)
  {
    hide Counted, Brought, Swept;
    if id in Counted(calls, d, win) {
      var i := CountedWasBrought(calls, d, win, id);
    }
    if i :| Brought(calls, d, win, id, i) && !Swept(calls, win, i) {
      BroughtAndNotSweptIsCounted(calls, d, win, id, i);
    }
  }

  lemma {:induction false} AcceptedIdsWereBrought(calls: seq<QuotaCall>, d: Dimension, win: nat, id: string)
    returns (i: nat)
    requires id in AcceptedIds(calls, d, win)
    ensures Brought(calls, d, win, id, i)
    decreases |calls|
  {
    var n := |calls| - 1;
    i := n;
    if !Brought(calls, d, win, id, n) {
      i := AcceptedIdsWereBrought(calls[..n], d, win, id);
      BroughtInPrefix(calls, d, win, id, n, i);
    }
  }

  lemma {:induction false} BroughtIdsAreAccepted(calls: seq<QuotaCall>, d: Dimension, win: nat, id: string, i: nat)
    requires Brought(calls, d, win, id, i)
    ensures id in AcceptedIds(calls, d, win)
    decreases |calls|
  {
    hide QuotaAccepted;
    var n := |calls| - 1;
    if i < n {
      BroughtInPrefix(calls, d, win, id, n, i);
      BroughtIdsAreAccepted(calls[..n], d, win, id, i);
    }
  }

  lemma CountedIsAccepted(calls: seq<QuotaCall>, d: Dimension, win: nat)
    ensures Counted(calls, d, win).Keys <= AcceptedIds(calls, d, win)
  {
    hide Counted, AcceptedIds;
    forall id | id in Counted(calls, d, win) ensures id in AcceptedIds(calls, d, win) {
      var i := CountedWasBrought(calls, d, win, id);
      BroughtIdsAreAccepted(calls, d, win, id, i);
    }
  }

  /** A call whose id is lost again: swept, and not brought back afterwards. */
  ghost predicate Lost(calls: seq<QuotaCall>, d: Dimension, win: nat, i: nat) {
    && i < |calls| && Brought(calls, d, win, IdOf(calls[i], d), i)
    && forall j :: i <= j && Brought(calls, d, win, IdOf(calls[i], d), j) ==> Swept(calls, win, j)
  }

  /** So the stored set is the whole history of its window exactly when no accepted id is lost. */
  lemma CountedAgreesWithHistoryExactly(calls: seq<QuotaCall>, d: Dimension, win: nat)
    ensures Counted(calls, d, win).Keys == AcceptedIds(calls, d, win) <==> forall i: nat :: !Lost(calls, d, win, i)
  {
    hide Counted, AcceptedIds, Brought;
    CountedIsAccepted(calls, d, win);
    if forall i: nat :: !Lost(calls, d, win, i) {
      forall id | id in AcceptedIds(calls, d, win) ensures id in Counted(calls, d, win) {
        var i := AcceptedIdsWereBrought(calls, d, win, id);
        BroughtIsInRange(calls, d, win, id, i);
        assert !Lost(calls, d, win, i);
        var j :| i <= j && Brought(calls, d, win, id, j) && !Swept(calls, win, j);
        BroughtAndNotSweptIsCounted(calls, d, win, id, j);
      }
    } else {
      var i: nat :| Lost(calls, d, win, i);
      var id := IdOf(calls[i], d);
      BroughtIdsAreAccepted(calls, d, win, id, i);
      if id in Counted(calls, d, win) {
        var j := CountedWasBrought(calls, d, win, id);
        assert false;
      }
    }
  }

  lemma BroughtIsInRange(calls: seq<QuotaCall>, d: Dimension, win: nat, id: string, i: nat)
    requires Brought(calls, d, win, id, i)
    ensures i < |calls| && IdOf(calls[i], d) == id
  {
  }

  ghost predicate WindowsAdvance(calls: seq<QuotaCall>) {
    forall i, j :: 0 <= i < j < |calls| ==> calls[i].win <= calls[j].win
  }

  lemma AdvancingIsNotSwept(calls: seq<QuotaCall>, win: nat, i: nat)
    requires WindowsAdvance(calls) && i < |calls| && calls[i].win == win && calls[|calls| - 1].win <= win
    ensures !Swept(calls, win, i)
  {
    forall j | i < j < |calls| ensures calls[j].win == win {
      assert calls[i].win <= calls[j].win && (j < |calls| - 1 ==> calls[j].win <= calls[|calls| - 1].win);
    }
  }

  /** When the windows never step back, the sets are the history of every window from the last call's on. */
  lemma QuotaSetsAreHistory(calls: seq<QuotaCall>, d: Dimension, win: nat)
    requires WindowsAdvance(calls) && (calls != [] ==> calls[|calls| - 1].win <= win)
    ensures Counted(calls, d, win).Keys == AcceptedIds(calls, d, win)
  {
    hide Counted, AcceptedIds;
    forall i: nat ensures !Lost(calls, d, win, i) {
      if i < |calls| && calls[i].win == win {
        AdvancingIsNotSwept(calls, win, i);
      }
    }
    CountedAgreesWithHistoryExactly(calls, d, win);
  }

  /** What `quota_counts` reports is then the number of distinct ids accepted in the window. */
  lemma QuotaCountsAgreeWithHistory(calls: seq<QuotaCall>, d: Dimension, win: nat)
    requires WindowsAdvance(calls) && (calls != [] ==> calls[|calls| - 1].win <= win)
    ensures |Counted(calls, d, win)| == |AcceptedIds(calls, d, win)|
  {
    hide Counted, AcceptedIds;
    QuotaSetsAreHistory(calls, d, win);
    assert |Counted(calls, d, win)| == |Counted(calls, d, win).Keys|;
  }

  // ---- The limit, over a window's whole history ----

  /** A call for a new device under a limit of one. */
  function OneDevice(device: string, win: nat): QuotaCall {
    QuotaCall(device, "", 1, 0, false, win)
  }

  /** With a clock that steps back over midnight a window lets in more ids than its limit. */
  lemma SteppingBackExceedsTheLimit()
    ensures var calls := [OneDevice("a", 2), OneDevice("b", 1), OneDevice("c", 2)];
      && Limited(calls, Devices, 1)
      && AcceptedIds(calls, Devices, 2) == {"a", "c"} && Counted(calls, Devices, 2).Keys == {"c"}
  {
    hide AfterQuota, AcceptedIds, AdmitQuota;
    assert AfterQuota([]) == Quota(map[], map[]) && AcceptedIds([], Devices, 2) == {} by {
      NothingYet();
    }
    var a, b, c := OneDevice("a", 2), OneDevice("b", 1), OneDevice("c", 2);
    assert [] + [a] == [a] && [a] + [b] == [a, b] && [a, b] + [c] == [a, b, c];
    AlternatingCall([], "a", 2);
    AlternatingCall([a], "b", 1);
    AlternatingCall([a, b], "c", 2);
  }

  lemma NothingYet()
    ensures AfterQuota([]) == Quota(map[], map[]) && AcceptedIds([], Devices, 2) == {}
  {
  }

  /** After a call of another window the next new device is let in again. */
  lemma AlternatingCall(calls: seq<QuotaCall>, device: string, win: nat)
    requires device != "" && AfterQuota(calls).sessions == map[]
    requires forall id :: id in AfterQuota(calls).devices ==> AfterQuota(calls).devices[id] != win
    ensures AfterQuota(calls + [OneDevice(device, win)]) == Quota(map[device := win], map[])
    ensures AcceptedIds(calls + [OneDevice(device, win)], Devices, 2) ==
      AcceptedIds(calls, Devices, 2) + if win == 2 then {device} else {}
  {
    OneMoreCall(calls, OneDevice(device, win), 2);
    FirstOfItsWindow(AfterQuota(calls), OneDevice(device, win));
    hide AfterQuota, AcceptedIds, AdmitQuota;
  }

  /** A call that finds nothing stored for its window is let in, and is all that is stored then. */
  lemma FirstOfItsWindow(q: Quota, c: QuotaCall)
    requires c.device != "" && c.session == "" && !c.force && c.maxDevices == 1 && c.maxSessions == 0
    requires forall id :: id in q.devices ==> q.devices[id] != c.win
    requires forall id :: id !in q.sessions
    ensures AdmitQuota(q, c) == (Quota(map[c.device := c.win], map[]), true)
  {
    assert Kept(q.devices, c.win) == map[] && Kept(q.sessions, c.win) == map[];
  }

  lemma OneMoreCall(calls: seq<QuotaCall>, c: QuotaCall, win: nat)
    ensures var (q, ok) := AdmitQuota(AfterQuota(calls), c);
      && AfterQuota(calls + [c]) == q
      && AcceptedIds(calls + [c], Devices, win) ==
           AcceptedIds(calls, Devices, win) + if ok && c.win == win && c.device != "" then {c.device} else {}
  {
    hide AdmitQuota;
    assert (calls + [c])[..|calls|] == calls;
  }

  /** No call is forced, and one limit holds for all. */
  ghost predicate Limited(calls: seq<QuotaCall>, d: Dimension, max: int) {
    forall c :: c in calls ==> !c.force && MaxOf(c, d) == max
  }

  function WindowsOf(calls: seq<QuotaCall>): (wins: seq<nat>)
    ensures |wins| == |calls| && forall i :: 0 <= i < |calls| ==> wins[i] == calls[i].win
  {
    if calls == [] then [] else WindowsOf(calls[..|calls| - 1]) + [calls[|calls| - 1].win]
  }

  /** How many of the last readings are of the window. */
  function Trailing(wins: seq<nat>, win: nat): nat {
    if wins == [] || wins[|wins| - 1] != win then 0 else Trailing(wins[..|wins| - 1], win) + 1
  }

  /** The most ids the window can let in: in each stretch of readings of it, one a call up to the limit. */
  function Reach(wins: seq<nat>, win: nat, max: nat): nat {
    if wins == [] then 0
    else
      var front := wins[..|wins| - 1];
      Reach(front, win, max) + if wins[|wins| - 1] == win && Trailing(front, win) < max then 1 else 0
  }

  lemma WindowsSnoc(calls: seq<QuotaCall>, win: nat, max: nat)
    requires calls != []
    ensures var n := |calls| - 1;
      var before, after := WindowsOf(calls[..n]), WindowsOf(calls);
      && Trailing(after, win) == (if calls[n].win == win then Trailing(before, win) + 1 else 0)
      && Reach(after, win, max) ==
        Reach(before, win, max) + if calls[n].win == win && Trailing(before, win) < max then 1 else 0
  {
    var n := |calls| - 1;
    assert WindowsOf(calls)[..n] == WindowsOf(calls[..n]);
  }

  /** What the newest call does to what is let in, and to whether an id is stored. */
  lemma NewestAccepts(calls: seq<QuotaCall>, d: Dimension, win: nat)
    requires calls != []
    ensures var n := |calls| - 1;
      var id := IdOf(calls[n], d);
      && AcceptedIds(calls, d, win) ==
        AcceptedIds(calls[..n], d, win) + (if Brought(calls, d, win, id, n) then {id} else {})
      && (Brought(calls, d, win, id, n) ==> calls[n].win == win)
  {
    hide QuotaAccepted;
  }

  lemma NewestStores(calls: seq<QuotaCall>, d: Dimension, win: nat, x: string)
    requires calls != []
    ensures var n := |calls| - 1;
      var id := IdOf(calls[n], d);
      x in Counted(calls, d, win) <==>
        calls[n].win == win && (x in Counted(calls[..n], d, win) || (Brought(calls, d, win, id, n) && x == id))
  {
    var n := |calls| - 1;
    OneCallCounts(AfterQuota(calls[..n]), calls[n], d, x, win);
    assert AfterQuota(calls) == AdmitQuota(AfterQuota(calls[..n]), calls[n]).0;
    assert QuotaAccepted(calls, n) == AdmitQuota(AfterQuota(calls[..n]), calls[n]).1;
    hide AdmitQuota, AfterQuota, QuotaAccepted, Kept;
  }

  lemma NewestCall(calls: seq<QuotaCall>, d: Dimension, win: nat)
    requires calls != []
    ensures var n := |calls| - 1;
      var id := IdOf(calls[n], d);
      Counted(calls, d, win).Keys ==
        if calls[n].win != win then {}
        else Counted(calls[..n], d, win).Keys + (if Brought(calls, d, win, id, n) then {id} else {})
  {
    hide Counted, Brought;
    var n := |calls| - 1;
    var before, after := Counted(calls[..n], d, win).Keys, Counted(calls, d, win).Keys;
    var enters := Brought(calls, d, win, IdOf(calls[n], d), n);
    forall x ensures x in after <==> calls[n].win == win && (x in before || (enters && x == IdOf(calls[n], d))) {
      NewestStores(calls, d, win, x);
    }
  }

  lemma EnteringFindsRoom(calls: seq<QuotaCall>, d: Dimension, win: nat, max: nat)
    requires calls != [] && 0 < max < 0x8000_0000 && Limited(calls, d, max)
    requires var n := |calls| - 1;
      var id := IdOf(calls[n], d);
      && Brought(calls, d, win, id, n) && id !in Counted(calls[..n], d, win) && |Counted(calls[..n], d, win)| <= max
    ensures |Counted(calls[..|calls| - 1], d, win)| < max
  {
    assert calls[|calls| - 1] in calls;
    hide AfterQuota, Kept;
  }

  lemma Joined(ids: set<string>, id: string, enters: bool)
    ensures |ids + (if enters then {id} else {})| == |ids| + if enters && id !in ids then 1 else 0
  {
    if enters && id in ids {
      assert ids + {id} == ids;
    }
  }

  /** The bookkeeping: `a` ids let in, `k` of them stored, `t` trailing readings, `r` the reach. */
  ghost predicate Slack(a: nat, k: nat, t: nat, r: nat, max: nat) {
    a + Min(t, max) <= r + k && k <= Min(t, max)
  }

  /** The newest call in numbers. */
  lemma NewestNumbers(calls: seq<QuotaCall>, d: Dimension, win: nat)
    requires calls != []
    ensures var n := |calls| - 1;
      var id := IdOf(calls[n], d);
      var enters := Brought(calls, d, win, id, n);
      var ids, stored := AcceptedIds(calls[..n], d, win), Counted(calls[..n], d, win).Keys;
      && |AcceptedIds(calls, d, win)| == |ids| + (if enters && id !in ids then 1 else 0)
      && |Counted(calls, d, win).Keys| ==
           (if calls[n].win == win then |stored| + (if enters && id !in stored then 1 else 0) else 0)
      && (enters ==> calls[n].win == win) && stored <= ids
  {
    var n := |calls| - 1;
    var id := IdOf(calls[n], d);
    var enters := Brought(calls, d, win, id, n);
    NewestAccepts(calls, d, win);
    NewestCall(calls, d, win);
    CountedIsAccepted(calls[..n], d, win);
    Joined(AcceptedIds(calls[..n], d, win), id, enters);
    Joined(Counted(calls[..n], d, win).Keys, id, enters);
    hide AcceptedIds, Counted, Brought;
  }

  /** A call adds at most one to what is let in, and only what the limit or the reach allows. */
  lemma SlackStep(a: nat, k: nat, t: nat, r: nat, max: nat, here: bool, added: nat, entered: nat)
    requires Slack(a, k, t, r, max) && added <= entered <= 1
    requires entered == 1 ==> here && k < max
    ensures Slack(a + added, if here then k + entered else 0, if here then t + 1 else 0,
                  r + if here && t < max then 1 else 0, max)
  {
  }

  ghost predicate ReachHolds(calls: seq<QuotaCall>, d: Dimension, win: nat, max: nat) {
    Slack(|AcceptedIds(calls, d, win)|, |Counted(calls, d, win).Keys|,
          Trailing(WindowsOf(calls), win), Reach(WindowsOf(calls), win, max), max)
  }

  /** Ids let in stay within reach; the slack is what the current stretch has not used. */
  lemma {:induction false} WithinReach(calls: seq<QuotaCall>, d: Dimension, win: nat, max: nat)
    requires 0 < max < 0x8000_0000 && Limited(calls, d, max)
    ensures ReachHolds(calls, d, win, max)
    decreases |calls|
  {
    if calls != [] {
      hide ReachHolds, Limited;
      LimitedPrefix(calls, d, max);
      WithinReach(calls[..|calls| - 1], d, win, max);
      OneMoreWithinReach(calls, d, win, max);
    }
  }

  lemma OneMoreWithinReach(calls: seq<QuotaCall>, d: Dimension, win: nat, max: nat)
    requires 0 < max < 0x8000_0000 && Limited(calls, d, max)
    requires calls != [] && ReachHolds(calls[..|calls| - 1], d, win, max)
    ensures ReachHolds(calls, d, win, max)
  {
    hide AcceptedIds, Counted, Trailing, Reach, WindowsOf, Limited, Brought, Slack;
    var n := |calls| - 1;
    var front, id := calls[..n], IdOf(calls[n], d);
    NewestNumbers(calls, d, win);
    WindowsSnoc(calls, win, max);
    var ids, stored := AcceptedIds(front, d, win), Counted(front, d, win).Keys;
    var enters := Brought(calls, d, win, id, n);
    if enters && id !in stored {
      StoredWithinLimit(front, d, win, max);
      EnteringFindsRoom(calls, d, win, max);
      assert |stored| == |Counted(front, d, win)|;
    }
    SlackStep(|ids|, |stored|, Trailing(WindowsOf(front), win), Reach(WindowsOf(front), win, max), max,
      calls[n].win == win,
      if enters && id !in ids then 1 else 0, if enters && id !in stored then 1 else 0);
  }

  lemma StoredWithinLimit(calls: seq<QuotaCall>, d: Dimension, win: nat, max: nat)
    requires ReachHolds(calls, d, win, max)
    ensures |Counted(calls, d, win)| <= max
  {
    hide AcceptedIds, Counted, Trailing, Reach, WindowsOf;
    assert |Counted(calls, d, win)| == |Counted(calls, d, win).Keys|;
  }

  lemma LimitedPrefix(calls: seq<QuotaCall>, d: Dimension, max: int)
    requires calls != [] && Limited(calls, d, max)
    ensures Limited(calls[..|calls| - 1], d, max)
  {
  }

  // ---- The reach is attained ----

  function Name(n: nat): (id: string)
    ensures |id| == n + 1
  {
    if n == 0 then "x" else Name(n - 1) + "x"
  }

  function Newcomer(id: string, d: Dimension, max: nat, win: nat): QuotaCall {
    QuotaCall(if d == Devices then id else "", if d == Sessions then id else "", max, max, false, win)
  }

  /** A history with these readings in which every call brings a new id. */
  function Newcomers(wins: seq<nat>, d: Dimension, max: nat): (calls: seq<QuotaCall>)
    ensures |calls| == |wins|
    ensures forall i :: 0 <= i < |wins| ==> calls[i] == Newcomer(Name(i), d, max, wins[i])
  {
    if wins == [] then []
    else
      var n := |wins| - 1;
      Newcomers(wins[..n], d, max) + [Newcomer(Name(n), d, max, wins[n])]
  }

  lemma NewcomersRead(wins: seq<nat>, d: Dimension, max: nat)
    ensures WindowsOf(Newcomers(wins, d, max)) == wins && Limited(Newcomers(wins, d, max), d, max)
  {
    hide Newcomers, WindowsOf;
    assert WindowsOf(Newcomers(wins, d, max)) == wins;
  }

  lemma NewcomerEntersWhileThereIsRoom(q: Quota, id: string, d: Dimension, max: nat, win: nat)
    requires id != "" && id !in Kept(MembersOf(q, d), win)
    requires |Kept(MembersOf(q, d), win)| <= max < 0x8000_0000 && 0 < max
    ensures AdmitQuota(q, Newcomer(id, d, max, win)).1 <==> |Kept(MembersOf(q, d), win)| < max
  {
    hide Kept;
  }

  /** How newcomers fare in numbers. */
  ghost predicate Fares(wins: seq<nat>, d: Dimension, win: nat, max: nat) {
    var calls := Newcomers(wins, d, max);
    && |AcceptedIds(calls, d, win)| == Reach(wins, win, max)
    && |Counted(calls, d, win).Keys| == Min(Trailing(wins, win), max)
    && forall id :: id in AcceptedIds(calls, d, win) ==> |id| <= |wins|
  }

  lemma {:induction false} NewcomersAttainTheReach(wins: seq<nat>, d: Dimension, win: nat, max: nat)
    requires 0 < max < 0x8000_0000
    ensures Fares(wins, d, win, max)
    decreases |wins|
  {
    if wins != [] {
      hide Fares;
      NewcomersAttainTheReach(wins[..|wins| - 1], d, win, max);
      OneMoreNewcomer(wins, d, win, max);
    }
  }

  /** Whether the last of the newcomers is let in. */
  lemma LastNewcomer(wins: seq<nat>, d: Dimension, win: nat, max: nat)
    requires 0 < max < 0x8000_0000 && wins != [] && Fares(wins[..|wins| - 1], d, win, max)
    ensures var n := |wins| - 1;
      var calls := Newcomers(wins, d, max);
      && calls[..n] == Newcomers(wins[..n], d, max) && calls[n].win == wins[n] && IdOf(calls[n], d) == Name(n)
      && Name(n) !in AcceptedIds(calls[..n], d, win) && Name(n) !in Counted(calls[..n], d, win).Keys
      && (Brought(calls, d, win, Name(n), n) <==> wins[n] == win && Trailing(wins[..n], win) < max)
  {
    var n := |wins| - 1;
    var calls := Newcomers(wins, d, max);
    var front := Newcomers(wins[..n], d, max);
    assert calls[..n] == front && calls[n] == Newcomer(Name(n), d, max, wins[n]);
    CountedIsAccepted(front, d, win);
    hide AcceptedIds, Trailing, Reach, Newcomers, AdmitQuota, AfterQuota, Kept;
    if wins[n] == win {
      assert |Counted(front, d, win)| == |Counted(front, d, win).Keys|;
      NewcomerEntersWhileThereIsRoom(AfterQuota(front), Name(n), d, max, win);
    }
  }

  lemma OneMoreNewcomer(wins: seq<nat>, d: Dimension, win: nat, max: nat)
    requires 0 < max < 0x8000_0000 && wins != [] && Fares(wins[..|wins| - 1], d, win, max)
    ensures Fares(wins, d, win, max)
  {
    var n := |wins| - 1;
    var calls := Newcomers(wins, d, max);
    LastNewcomer(wins, d, win, max);
    NewestNumbers(calls, d, win);
    NewestAccepts(calls, d, win);
    hide AcceptedIds, Counted, Brought, Newcomers;
  }

  /**
   * The limit over a window's whole history, exactly: with these clock readings no history lets in
   * more ids than a limit allows iff the reach of the readings does not pass it.
   */
  lemma LimitHoldsInHistoryExactly(wins: seq<nat>, d: Dimension, win: nat, max: nat)
    requires 0 < max < 0x8000_0000
    ensures (forall calls :: WindowsOf(calls) == wins && Limited(calls, d, max) ==>
      |AcceptedIds(calls, d, win)| <= max) <==>
      Reach(wins, win, max) <= max
  {
    hide AcceptedIds, Counted, Reach, WindowsOf, Trailing, Newcomers;
    if Reach(wins, win, max) <= max {
      forall calls | WindowsOf(calls) == wins && Limited(calls, d, max) ensures |AcceptedIds(calls, d, win)| <= max {
        WithinReach(calls, d, win, max);
      }
    } else {
      NewcomersRead(wins, d, max);
      NewcomersAttainTheReach(wins, d, win, max);
    }
  }

  lemma {:induction false} ReachWhenAdvancing(wins: seq<nat>, win: nat, max: nat)
    requires forall i, j :: 0 <= i < j < |wins| ==> wins[i] <= wins[j]
    ensures Reach(wins, win, max) <= max
    ensures wins == [] || wins[|wins| - 1] <= win ==> Reach(wins, win, max) == Min(Trailing(wins, win), max)
    decreases |wins|
  {
    if wins != [] {
      var n := |wins| - 1;
      ReachWhenAdvancing(wins[..n], win, max);
      if n > 0 {
        assert wins[n - 1] <= wins[n] && wins[..n][n - 1] == wins[n - 1];
      }
    }
  }

  /** So when the windows never step back, every window lets in no more distinct ids than the limit. */
  lemma LimitHoldsWhenWindowsAdvance(calls: seq<QuotaCall>, d: Dimension, win: nat, max: nat)
    requires 0 < max < 0x8000_0000 && Limited(calls, d, max) && WindowsAdvance(calls)
    ensures |AcceptedIds(calls, d, win)| <= max
  {
    hide AcceptedIds, Reach;
    ReachWhenAdvancing(WindowsOf(calls), win, max);
    LimitHoldsInHistoryExactly(WindowsOf(calls), d, win, max);
  }
}
