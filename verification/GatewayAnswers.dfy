/**
 * When the retry loop ends and what the client gets, said over the history of a request: what the
 * upstream answered in its earlier turns, and not over the loop's variables.
 */
module GatewayAnswers {
  import opened Prelude
  import opened MemoryStores
  import opened Gateways

  // ---- What happened in a turn ----

  function Chosen(env: nat -> Circumstances, heads: seq<State>, i: nat): Option<AccountId>
    requires i < |heads|
  {
    env(i).select(heads[i].exclude)
  }

  predicate Forwards(env: nat -> Circumstances, heads: seq<State>, i: nat)
    requires i < |heads|
  {
    && Chosen(env, heads, i).Some? && env(i).allowsType && !env(i).intercepted && !env(i).rpmFull
    && env(i).slot == Free && !env(i).reply.NoToken?
  }

  predicate WrongType(env: nat -> Circumstances, heads: seq<State>, i: nat)
    requires i < |heads|
  {
    Chosen(env, heads, i).Some? && !env(i).allowsType
  }

  predicate MinuteFull(env: nat -> Circumstances, heads: seq<State>, i: nat)
    requires i < |heads|
  {
    Chosen(env, heads, i).Some? && env(i).allowsType && !env(i).intercepted && env(i).rpmFull
  }

  /** Answers after which the account is not asked again. */
  predicate Condemns(r: Reply) {
    r.Answer?
    && (r.status == 401 || r.status == 403 || r.billingReject
        || (r.status == 429 && (r.limit == FiveHourWall || r.limit == SevenDayWall)))
  }

  /** Answers after which the same account is asked again, three times. */
  predicate BurstLimited(r: Reply) {
    r.Answer? && r.status == 429 && !r.billingReject && r.limit == Burst
  }

  // ---- The history of the turns before `n` ----

  function Forwarded(env: nat -> Circumstances, heads: seq<State>, n: nat): nat
    requires n <= |heads|
  {
    if n == 0 then 0 else Forwarded(env, heads, n - 1) + if Forwards(env, heads, n - 1) then 1 else 0
  }

  /** How often the account was answered with a burst limit. */
  function Bursts(env: nat -> Circumstances, heads: seq<State>, n: nat, id: AccountId): nat
    requires n <= |heads|
  {
    if n == 0 then 0
    else
      Bursts(env, heads, n - 1, id)
      + if Forwards(env, heads, n - 1) && Chosen(env, heads, n - 1).value == id && BurstLimited(env(n - 1).reply)
        then 1 else 0
  }

  /** The accounts switched away from: condemned, or burst-limited for a fourth time. */
  ghost function Left(env: nat -> Circumstances, heads: seq<State>, n: nat): set<AccountId>
    requires n <= |heads|
  {
    if n == 0 then {}
    else
      Left(env, heads, n - 1) + if Leaves(env, heads, n - 1) then {Chosen(env, heads, n - 1).value} else {}
  }

  predicate Leaves(env: nat -> Circumstances, heads: seq<State>, i: nat)
    requires i < |heads|
  {
    && Forwards(env, heads, i)
    && (Condemns(env(i).reply)
        || (BurstLimited(env(i).reply) && Bursts(env, heads, i, Chosen(env, heads, i).value) >= 3))
  }

  /** The accounts that do not take this type of client. */
  ghost function Mismatched(env: nat -> Circumstances, heads: seq<State>, n: nat): set<AccountId>
    requires n <= |heads|
  {
    if n == 0 then {}
    else
      Mismatched(env, heads, n - 1)
      + if WrongType(env, heads, n - 1) then {Chosen(env, heads, n - 1).value} else {}
  }

  /** How often there was nobody to select. */
  function Waited(env: nat -> Circumstances, heads: seq<State>, n: nat): nat
    requires n <= |heads|
  {
    if n == 0 then 0 else Waited(env, heads, n - 1) + if Chosen(env, heads, n - 1).None? then 1 else 0
  }

  /** The accounts whose minute was full since then. */
  ghost function Queued(env: nat -> Circumstances, heads: seq<State>, n: nat): set<AccountId>
    requires n <= |heads|
  {
    if n == 0 || Chosen(env, heads, n - 1).None? then {}
    else
      Queued(env, heads, n - 1)
      + if MinuteFull(env, heads, n - 1) then {Chosen(env, heads, n - 1).value} else {}
  }

  // ---- The loop's variables are its history ----

  ghost predicate Remembers(env: nat -> Circumstances, heads: seq<State>, n: nat)
    requires n < |heads|
  {
    var st := heads[n];
    && st.forwards == Forwarded(env, heads, n) && st.waits == Waited(env, heads, n)
    && st.switched == Left(env, heads, n) && st.switches == |st.switched|
    && Ids(st.types) == Mismatched(env, heads, n) && Ids(st.rpm) == Queued(env, heads, n)
    && st.waited == RPM_WAIT_STEP * st.waits
    && forall id :: id !in st.switched ==> st.retried[id] == Bursts(env, heads, n, id)
  }

  lemma ChosenIsNotLeft(env: nat -> Circumstances, blocked: seq<AccountId>, table: set<AccountId>, heads: seq<State>,
      n: nat)
    requires Honest(env, table) && Run(env, blocked, heads) && n < |heads| && Chosen(env, heads, n).Some?
    ensures Chosen(env, heads, n).value !in heads[n].switched
  {
    hide Consistent, Partitioned, Run;
    RunKeepsConsistent(env, blocked, table, heads, n);
    ConsistentIsPartitioned(heads[n], blocked, table);
    ExcludedIsKnown(heads[n], blocked, Chosen(env, heads, n).value);
  }

  lemma {:induction false} RunRemembers(
      env: nat -> Circumstances, blocked: seq<AccountId>, table: set<AccountId>, heads: seq<State>, n: nat)
    requires Honest(env, table) && Run(env, blocked, heads) && n < |heads|
    ensures Remembers(env, heads, n)
  {
    if n == 0 {
      StartRemembers(env, heads);
    } else {
      hide *;
      RunRemembers(env, blocked, table, heads, n - 1);
      RunMoves(env, blocked, table, heads, n - 1);
      NextRemembers(env, heads, n - 1);
    }
  }

  lemma StartRemembers(env: nat -> Circumstances, heads: seq<State>)
    requires heads != [] && exists blocked :: heads[0] == Start(blocked)
    ensures Remembers(env, heads, 0)
  {
    assert Ids([]) == {};
  }

  lemma RunMoves(env: nat -> Circumstances, blocked: seq<AccountId>, table: set<AccountId>, heads: seq<State>, n: nat)
    requires Honest(env, table) && Run(env, blocked, heads) && n + 1 < |heads|
    ensures heads[n + 1] == Next(env(n), heads[n]) && !Ends(env(n), heads[n])
    ensures Chosen(env, heads, n).Some? ==> Chosen(env, heads, n).value !in heads[n].switched
  {
    hide Next, Ends, Honest;
    if Chosen(env, heads, n).Some? {
      ChosenIsNotLeft(env, blocked, table, heads, n);
    }
  }

  lemma NextRemembers(env: nat -> Circumstances, heads: seq<State>, n: nat)
    requires n + 1 < |heads| && Remembers(env, heads, n) && !Ends(env(n), heads[n])
    requires heads[n + 1] == Next(env(n), heads[n])
    requires Chosen(env, heads, n).Some? ==> Chosen(env, heads, n).value !in heads[n].switched
    ensures Remembers(env, heads, n + 1)
  {
    if Chosen(env, heads, n).None? {
      NobodyRemembers(env, heads, n);
    } else if !env(n).allowsType || env(n).rpmFull {
      RejectionRemembers(env, heads, n);
    } else {
      ForwardRemembers(env, heads, n);
    }
  }

  /** One more turn of history, all at once. */
  lemma HistoryStep(env: nat -> Circumstances, heads: seq<State>, n: nat, id: AccountId)
    requires n < |heads|
    ensures Forwarded(env, heads, n + 1) == Forwarded(env, heads, n) + if Forwards(env, heads, n) then 1 else 0
    ensures Waited(env, heads, n + 1) == Waited(env, heads, n) + if Chosen(env, heads, n).None? then 1 else 0
    ensures Left(env, heads, n + 1) ==
      Left(env, heads, n) + if Leaves(env, heads, n) then {Chosen(env, heads, n).value} else {}
    ensures Mismatched(env, heads, n + 1) ==
      Mismatched(env, heads, n) + if WrongType(env, heads, n) then {Chosen(env, heads, n).value} else {}
    ensures Queued(env, heads, n + 1) ==
      if Chosen(env, heads, n).None? then {}
      else Queued(env, heads, n) + if MinuteFull(env, heads, n) then {Chosen(env, heads, n).value} else {}
    ensures Bursts(env, heads, n + 1, id) ==
      Bursts(env, heads, n, id)
      + if Forwards(env, heads, n) && Chosen(env, heads, n).value == id && BurstLimited(env(n).reply) then 1 else 0
  {
    hide Forwards, Leaves, WrongType, MinuteFull, BurstLimited;
  }

  lemma NobodyRemembers(env: nat -> Circumstances, heads: seq<State>, n: nat)
    requires n + 1 < |heads| && Remembers(env, heads, n)
    requires heads[n + 1] == Next(env(n), heads[n]) && Chosen(env, heads, n).None?
    ensures Remembers(env, heads, n + 1)
  {
    hide Retain, Forwarded, Bursts, Left, Mismatched, Queued, Waited;
    assert Ids([]) == {};
    forall id ensures Bursts(env, heads, n + 1, id) == Bursts(env, heads, n, id) {
      HistoryStep(env, heads, n, id);
    }
    HistoryStep(env, heads, n, 0);
  }

  lemma RejectionRemembers(env: nat -> Circumstances, heads: seq<State>, n: nat)
    requires n + 1 < |heads| && Remembers(env, heads, n) && !Ends(env(n), heads[n])
    requires heads[n + 1] == Next(env(n), heads[n]) && Chosen(env, heads, n).Some?
    requires !env(n).allowsType || env(n).rpmFull
    ensures Remembers(env, heads, n + 1)
  {
    hide Retain, Forwarded, Bursts, Left, Mismatched, Queued, Waited, Ids;
    IdsSnoc(heads[n].types, Chosen(env, heads, n).value);
    IdsSnoc(heads[n].rpm, Chosen(env, heads, n).value);
    forall id ensures Bursts(env, heads, n + 1, id) == Bursts(env, heads, n, id) {
      HistoryStep(env, heads, n, id);
    }
    HistoryStep(env, heads, n, 0);
  }

  lemma ForwardRemembers(env: nat -> Circumstances, heads: seq<State>, n: nat)
    requires n + 1 < |heads| && Remembers(env, heads, n) && !Ends(env(n), heads[n])
    requires heads[n + 1] == Next(env(n), heads[n]) && Chosen(env, heads, n).Some?
    requires env(n).allowsType && !env(n).rpmFull && Chosen(env, heads, n).value !in heads[n].switched
    ensures Remembers(env, heads, n + 1)
  {
    GoingOnLeavesOrRetries(env, heads, n);
    hide *;
    if Leaves(env, heads, n) {
      LeavingRemembers(env, heads, n);
    } else {
      RetryRemembers(env, heads, n);
    }
  }

  lemma LeavingRemembers(env: nat -> Circumstances, heads: seq<State>, n: nat)
    requires n + 1 < |heads| && Remembers(env, heads, n) && Chosen(env, heads, n).Some?
    requires var id := Chosen(env, heads, n).value;
      id !in heads[n].switched && heads[n + 1] == AfterSwitch(heads[n], id)
    requires env(n).allowsType && !env(n).rpmFull && Forwards(env, heads, n) && Leaves(env, heads, n)
    ensures Remembers(env, heads, n + 1)
  {
    hide Forwarded, Bursts, Left, Mismatched, Queued, Waited, Ids, Leaves, BurstLimited;
    var id := Chosen(env, heads, n).value;
    forall other | other != id ensures Bursts(env, heads, n + 1, other) == Bursts(env, heads, n, other) {
      HistoryStep(env, heads, n, other);
    }
    HistoryStep(env, heads, n, id);
    assert |heads[n].switched + {id}| == |heads[n].switched| + 1;
  }

  lemma RetryRemembers(env: nat -> Circumstances, heads: seq<State>, n: nat)
    requires n + 1 < |heads| && Remembers(env, heads, n) && Chosen(env, heads, n).Some?
    requires heads[n + 1] == AfterRetry(heads[n], Chosen(env, heads, n).value)
    requires env(n).allowsType && !env(n).rpmFull && Forwards(env, heads, n) && !Leaves(env, heads, n)
    requires BurstLimited(env(n).reply)
    ensures Remembers(env, heads, n + 1)
  {
    hide Forwarded, Bursts, Left, Mismatched, Queued, Waited, Ids, Leaves, BurstLimited;
    var id := Chosen(env, heads, n).value;
    forall other
      ensures Bursts(env, heads, n + 1, other) == Bursts(env, heads, n, other) + if other == id then 1 else 0
    {
      HistoryStep(env, heads, n, other);
    }
    HistoryStep(env, heads, n, id);
  }

  /** A turn that reached the upstream goes on by leaving the account or retrying it. */
  lemma GoingOnLeavesOrRetries(env: nat -> Circumstances, heads: seq<State>, n: nat)
    requires n < |heads| && Remembers(env, heads, n) && !Ends(env(n), heads[n]) && Chosen(env, heads, n).Some?
    requires env(n).allowsType && !env(n).rpmFull && Chosen(env, heads, n).value !in heads[n].switched
    ensures var id := Chosen(env, heads, n).value;
      && Forwards(env, heads, n)
      && (Leaves(env, heads, n) <==> !RetriesSame(env(n), heads[n].retried[id]))
      && (Leaves(env, heads, n) ==> Next(env(n), heads[n]) == AfterSwitch(heads[n], id))
      && (!Leaves(env, heads, n) ==> Next(env(n), heads[n]) == AfterRetry(heads[n], id) && BurstLimited(env(n).reply))
  {
    hide Retain, Forwarded, Bursts, Left, Mismatched, Queued, Waited, Ids;
  }

  // ---- When the request ends, and with what ----

  /** Whether turn `n` is the last, from what happened in it and before it. */
  ghost predicate ShouldEnd(env: nat -> Circumstances, heads: seq<State>, n: nat)
    requires n < |heads|
  {
    var a, c := Chosen(env, heads, n), env(n);
    if a.None? then Queued(env, heads, n) == {} || Waited(env, heads, n) >= 40
    else if !c.allowsType then false
    else if c.intercepted then true
    else if c.rpmFull then false
    else if c.slot != Free || !c.reply.Answer? then true
    else if Condemns(c.reply) then |Left(env, heads, n)| >= 5
    else if BurstLimited(c.reply) then |Left(env, heads, n)| >= 5 && Bursts(env, heads, n, a.value) >= 3
    else true
  }

  /** What the client gets from turn `n` when it is the last. */
  ghost function RightAnswer(env: nat -> Circumstances, heads: seq<State>, n: nat): Result
    requires n < |heads|
  {
    var a, c, forwarded := Chosen(env, heads, n), env(n), Forwarded(env, heads, n);
    if a.None? then
      if forwarded > 0 then Response(forwarded - 1)
      else if Mismatched(env, heads, n) != {} then Forbidden
      else ServiceUnavailable
    else if c.intercepted then Telemetry
    else if c.slot != Free then TooManyRequests
    else if !c.reply.Answer? then Failure
    else Response(forwarded)
  }

  lemma EndsExactly(env: nat -> Circumstances, heads: seq<State>, n: nat)
    requires n < |heads| && Remembers(env, heads, n)
    requires Chosen(env, heads, n).Some? ==> Chosen(env, heads, n).value !in heads[n].switched
    ensures Ends(env(n), heads[n]) <==> ShouldEnd(env, heads, n)
    ensures Ends(env(n), heads[n]) ==> Answered(env(n), heads[n]) == RightAnswer(env, heads, n)
  {
    hide Forwarded, Bursts, Left, Mismatched, Queued, Waited;
    var st := heads[n];
    assert st.rpm != [] ==> st.rpm[0] in Ids(st.rpm);
    assert st.types != [] ==> st.types[0] in Ids(st.types);
  }

  /**
   * Over whole runs: the loop goes on exactly while it should, so an answer that condemns the
   * account reaches the client only after five switches, and one that limits a burst only after
   * three retries of the account as well; and the client gets what is right.
   */
  lemma RequestsAreAnsweredRightly(
      env: nat -> Circumstances, blocked: seq<AccountId>, table: set<AccountId>, heads: seq<State>, r: Result)
    requires Honest(env, table) && Run(env, blocked, heads)
    requires var last := |heads| - 1; Ends(env(last), heads[last]) && r == Answered(env(last), heads[last])
    ensures ShouldEnd(env, heads, |heads| - 1) && r == RightAnswer(env, heads, |heads| - 1)
    ensures forall i :: 0 <= i < |heads| - 1 ==> !ShouldEnd(env, heads, i)
  {
    hide Consistent, Remembers, ShouldEnd, RightAnswer, Ends, Next, Answered;
    forall i | 0 <= i < |heads|
      ensures Ends(env(i), heads[i]) <==> ShouldEnd(env, heads, i)
      ensures Ends(env(i), heads[i]) ==> Answered(env(i), heads[i]) == RightAnswer(env, heads, i)
    {
      RunRemembers(env, blocked, table, heads, i);
      if Chosen(env, heads, i).Some? {
        ChosenIsNotLeft(env, blocked, table, heads, i);
      }
      EndsExactly(env, heads, i);
    }
  }

  /** Where a whole run stands: what each of the four lists and counters has come to. */
  lemma RunIsItsHistory(
      env: nat -> Circumstances, blocked: seq<AccountId>, table: set<AccountId>, heads: seq<State>, id: AccountId)
    requires Honest(env, table) && Run(env, blocked, heads)
    ensures var n := |heads| - 1;
      && heads[n].forwards == Forwarded(env, heads, n) && heads[n].switches == |Left(env, heads, n)|
      && (id in heads[n].exclude <==>
        id in blocked || id in Left(env, heads, n) || id in Mismatched(env, heads, n) || id in Queued(env, heads, n))
  {
    assert heads != [];
    hide Consistent, Partitioned, Run;
    var n := |heads| - 1;
    RunRemembers(env, blocked, table, heads, n);
    RunKeepsConsistent(env, blocked, table, heads, n);
    ConsistentIsPartitioned(heads[n], blocked, table);
    ExcludedIsKnown(heads[n], blocked, id);
    hide Forwarded, Left, Mismatched, Queued, Waited, Bursts;
    assert id in Ids(heads[n].rpm) <==> id in heads[n].rpm;
    assert id in Ids(heads[n].types) <==> id in heads[n].types;
  }

  // ---- Slots, turn by turn ----

  /** Whether the turn is granted a slot of the account it selects, or refused one. */
  predicate Asks(env: nat -> Circumstances, heads: seq<State>, i: nat)
    requires i < |heads|
  {
    Chosen(env, heads, i).Some? && env(i).allowsType && !env(i).intercepted && !env(i).rpmFull
  }

  /**
   * A turn that goes on after taking a slot has released it by hand; the last one drops it with
   * its guard. No other turn touches a slot, and a slot is always that of the account selected.
   */
  lemma SlotsTurnByTurn(
      env: nat -> Circumstances, slotKey: AccountId -> string, blocked: seq<AccountId>, heads: seq<State>, i: nat)
    requires Run(env, blocked, heads) && i < |heads| && (i == |heads| - 1 ==> Ends(env(i), heads[i]))
    ensures TurnEvents(env(i), heads[i], slotKey) ==
      if !Asks(env, heads, i) then []
      else
        var key := slotKey(Chosen(env, heads, i).value);
        if env(i).slot != Free then [Refused(key)]
        else if i == |heads| - 1 then [Taken(key), Dropped]
        else [Taken(key), Forgot, Released]
  {
    hide Ends, Next;
  }
}
