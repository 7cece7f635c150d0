/**
 * The retry loop of `handle_request_inner`: one request against every behaviour of the scheduler
 * and the upstream. What happens outside the loop's own variables comes from `env`, turn by turn.
 */
module Gateways {
  import opened Prelude
  import opened MemoryStores
  import S = SlotProtocol

  const MAX_ACCOUNT_SWITCHES: nat := 5
  const MAX_SAME_ACCOUNT_RETRIES: nat := 3
  const RPM_WAIT_STEP: nat := 500
  const RPM_WAIT_MAX: nat := 20_000

  datatype RateLimit = NotReal | Burst | FiveHourWall | SevenDayWall

  /** What comes of forwarding: no token, no answer, or a status with its classification. */
  datatype Reply = NoToken | NoAnswer | Answer(status: nat, billingReject: bool, limit: RateLimit)

  datatype SlotReply = Free | Busy | Failed

  /** One turn's surroundings; the flags are about the account this turn selects. */
  datatype Circumstances = Circumstances(
    select: seq<AccountId> -> Option<AccountId>,
    allowsType: bool, intercepted: bool, rpmFull: bool, slot: SlotReply, reply: Reply)

  datatype Result =
    | Response(serial: nat) // the upstream's answer to that forward, counted from zero
    | Telemetry | TooManyRequests | Forbidden | ServiceUnavailable | Failure

  /** Selection gives an account of the table that is not excluded, as `SelectAccount` promises. */
  ghost predicate Honest(env: nat -> Circumstances, table: set<AccountId>) {
    forall i: nat, exclude :: var a := env(i).select(exclude); a.Some? ==> a.value in table && a.value !in exclude
  }

  // ---- Slot events of one request ----

  datatype SlotEvent = Taken(key: string) | Refused(key: string) | Dropped | Forgot | Released | Cancelled

  /** The phase a log of slot events leads to; `None` when some event was out of turn. */
  ghost function Track(log: seq<SlotEvent>): Option<S.Phase> {
    if log == [] then Some(S.Outside)
    else
      match (Track(log[..|log| - 1]), log[|log| - 1])
      case (Some(Outside), Taken(key)) => Some(S.Guarded(key))
      case (Some(Outside), Refused(_)) => Some(S.Outside)
      case (Some(Guarded(_)), Dropped) => Some(S.Outside)
      case (Some(Guarded(key)), Forgot) => Some(S.Forgotten(key))
      case (Some(Forgotten(_)), Released) => Some(S.Outside)
      case (_, _) => None
  }

  /** One slot taken and given back, or not taken at all, ends where it began. */
  lemma TrackOneAccount(log: seq<SlotEvent>, events: seq<SlotEvent>, key: string)
    requires Track(log) == Some(S.Outside)
    requires events in {[], [Refused(key)], [Taken(key), Dropped], [Taken(key), Forgot, Released]}
    ensures Track(log + events) == Some(S.Outside)
  {
    var all := log + events;
    assert all[..|log|] == log;
    if |events| > 0 {
      assert all[..|log| + 1][..|log|] == log;
    }
    if |events| > 1 {
      assert all[..|log| + 2][..|log| + 1] == all[..|log| + 1];
    }
    if events == [] {
      assert all == log;
    } else if |events| == 1 {
      assert all == all[..|log| + 1];
    } else if |events| == 2 {
      assert all == all[..|log| + 2] && Track(all[..|log| + 1]) == Some(S.Guarded(key));
    } else {
      assert Track(all[..|log| + 1]) == Some(S.Guarded(key)) && Track(all[..|log| + 2]) == Some(S.Forgotten(key));
      assert all[..|all| - 1] == all[..|log| + 2];
    }
  }

  function Takes(log: seq<SlotEvent>): nat {
    if log == [] then 0 else Takes(log[..|log| - 1]) + if log[|log| - 1].Taken? then 1 else 0
  }

  function Gives(log: seq<SlotEvent>): nat {
    if log == [] then 0
    else Gives(log[..|log| - 1]) + if log[|log| - 1].Dropped? || log[|log| - 1].Released? then 1 else 0
  }

  /** A log in turn has one giving back for every taking, but for a slot still held. */
  lemma {:induction false} TakenIsGivenBackOnce(log: seq<SlotEvent>)
    requires Track(log).Some?
    ensures Takes(log) == Gives(log) + if Track(log) == Some(S.Outside) then 0 else 1
  {
    if log != [] {
      TakenIsGivenBackOnce(log[..|log| - 1]);
    }
  }

  // ---- The loop's variables ----

  /**
   * The variables at a loop head. The code does not keep `switched`, the accounts switched away
   * from, `retried`, one entry for every same-account retry, and `rpmFulls`, all rejections for a
   * full minute quota.
   */
  datatype State = State(
    exclude: seq<AccountId>, rpm: seq<AccountId>, types: seq<AccountId>, switched: set<AccountId>,
    switches: nat, retried: multiset<AccountId>, waits: nat, waited: nat, rpmFulls: nat, forwards: nat)

  function Ids(s: seq<AccountId>): set<AccountId> {
    set x | x in s
  }

  function SaturatingSub(a: nat, b: nat): nat {
    if a < b then 0 else a - b
  }

  function AttemptNumber(st: State, blocked: seq<AccountId>): nat {
    SaturatingSub(SaturatingSub(SaturatingSub(|st.exclude|, |blocked|), |st.rpm|), |st.types|)
  }

  /** The exclude list is the disjoint union of its four sources. */
  ghost predicate Partitioned(st: State, blocked: seq<AccountId>) {
    && multiset(st.exclude) == multiset(blocked) + multiset(st.switched) + multiset(st.rpm) + multiset(st.types)
    && multiset(st.rpm) == multiset(Ids(st.rpm)) && multiset(st.types) == multiset(Ids(st.types))
    && Ids(blocked) !! st.switched !! Ids(st.rpm) !! Ids(st.types)
  }

  /** The counters say how much of each allowance is spent. */
  ghost predicate Counted(
      switched: set<AccountId>, switches: nat, retried: multiset<AccountId>, waits: nat, waited: nat, forwards: nat,
      table: set<AccountId>) {
    && |switched| == switches <= MAX_ACCOUNT_SWITCHES
    && (forall id :: retried[id] <= MAX_SAME_ACCOUNT_RETRIES && (id in retried ==> id in table))
    && forwards == switches + |retried|
    && waited == RPM_WAIT_STEP * waits <= RPM_WAIT_MAX
  }

  ghost predicate Consistent(st: State, blocked: seq<AccountId>, table: set<AccountId>) {
    && Partitioned(st, blocked)
    && st.switched <= table && Ids(st.rpm) <= table && Ids(st.types) <= table
    && Counted(st.switched, st.switches, st.retried, st.waits, st.waited, st.forwards, table)
  }

  /** The number the code logs as its retry attempt is the number of switches. */
  lemma AttemptIsSwitchCount(st: State, blocked: seq<AccountId>, table: set<AccountId>)
    requires Consistent(st, blocked, table)
    ensures AttemptNumber(st, blocked) == st.switches
  {
    assert |st.exclude| == |multiset(st.exclude)|;
    assert |multiset(blocked)| == |blocked| && |multiset(st.rpm)| == |st.rpm| && |multiset(st.types)| == |st.types|;
  }

  lemma {:induction false} RetriesAreBounded(retried: multiset<AccountId>, table: set<AccountId>)
    requires forall id :: retried[id] <= MAX_SAME_ACCOUNT_RETRIES && (id in retried ==> id in table)
    ensures |retried| <= MAX_SAME_ACCOUNT_RETRIES * |table|
  {
    if x :| x in table {
      var rest := retried[x := 0];
      RetriesAreBounded(rest, table - {x});
      assert |rest| == |retried| - retried[x];
    } else {
      assert forall id :: id !in table && retried[id] == 0;
      assert retried == multiset{};
    }
  }

  lemma ExcludedIsKnown(st: State, blocked: seq<AccountId>, id: AccountId)
    requires Partitioned(st, blocked)
    ensures id in st.exclude <==> id in blocked || id in st.switched || id in st.rpm || id in st.types
  {
    assert id in st.exclude <==> id in multiset(st.exclude);
  }

  lemma IdsSnoc(s: seq<AccountId>, id: AccountId)
    ensures Ids(s + [id]) == Ids(s) + {id}
    ensures id !in s ==> id !in Ids(s)
    ensures id !in s && multiset(s) == multiset(Ids(s)) ==> multiset(s + [id]) == multiset(Ids(s + [id]))
  {
  }

  function AfterTypeRejection(st: State, id: AccountId): State {
    st.(exclude := st.exclude + [id], types := st.types + [id])
  }

  function AfterRpmRejection(st: State, id: AccountId): State {
    st.(exclude := st.exclude + [id], rpm := st.rpm + [id], rpmFulls := st.rpmFulls + 1)
  }

  function AfterSwitch(st: State, id: AccountId): State {
    st.(exclude := st.exclude + [id], switched := st.switched + {id}, switches := st.switches + 1,
      forwards := st.forwards + 1)
  }

  function AfterRetry(st: State, id: AccountId): State {
    st.(retried := st.retried + multiset{id}, forwards := st.forwards + 1)
  }

  function AfterWait(st: State): State {
    st.(exclude := Retain(st.exclude, st.rpm), rpm := [], waits := st.waits + 1, waited := st.waited + RPM_WAIT_STEP)
  }

  lemma RejectionPartitions(st: State, blocked: seq<AccountId>, id: AccountId)
    requires Partitioned(st, blocked) && id !in st.exclude
    ensures Partitioned(AfterTypeRejection(st, id), blocked)
    ensures Partitioned(AfterRpmRejection(st, id), blocked)
  {
    ExcludedIsKnown(st, blocked, id);
    IdsSnoc(st.types, id);
    IdsSnoc(st.rpm, id);
    assert multiset(st.exclude + [id]) == multiset(st.exclude) + multiset{id};
  }

  lemma SwitchPartitions(st: State, blocked: seq<AccountId>, id: AccountId)
    requires Partitioned(st, blocked) && id !in st.exclude
    ensures Partitioned(AfterSwitch(st, id), blocked) && id !in st.switched
  {
    ExcludedIsKnown(st, blocked, id);
    assert multiset(st.switched + {id}) == multiset(st.switched) + multiset{id};
    assert multiset(st.exclude + [id]) == multiset(st.exclude) + multiset{id};
  }

  lemma TypeRejectionKeeps(st: State, blocked: seq<AccountId>, table: set<AccountId>, id: AccountId)
    requires Consistent(st, blocked, table) && id in table && id !in st.exclude
    ensures Consistent(AfterTypeRejection(st, id), blocked, table)
    ensures |Ids(st.types + [id])| == |Ids(st.types)| + 1
  {
    ExcludedIsKnown(st, blocked, id);
    IdsSnoc(st.types, id);
    hide Partitioned, Counted, Ids;
    RejectionPartitions(st, blocked, id);
  }

  lemma RpmRejectionKeeps(st: State, blocked: seq<AccountId>, table: set<AccountId>, id: AccountId)
    requires Consistent(st, blocked, table) && id in table && id !in st.exclude
    ensures Consistent(AfterRpmRejection(st, id), blocked, table)
    ensures |Ids(st.rpm + [id])| == |Ids(st.rpm)| + 1
  {
    ExcludedIsKnown(st, blocked, id);
    IdsSnoc(st.rpm, id);
    hide Partitioned, Counted, Ids;
    RejectionPartitions(st, blocked, id);
  }

  lemma SwitchKeeps(st: State, blocked: seq<AccountId>, table: set<AccountId>, id: AccountId)
    requires Consistent(st, blocked, table) && id in table && id !in st.exclude && st.switches < MAX_ACCOUNT_SWITCHES
    ensures Consistent(AfterSwitch(st, id), blocked, table)
  {
    hide Partitioned;
    SwitchPartitions(st, blocked, id);
  }

  lemma RetryKeeps(st: State, blocked: seq<AccountId>, table: set<AccountId>, id: AccountId)
    requires Consistent(st, blocked, table) && id in table && st.retried[id] < MAX_SAME_ACCOUNT_RETRIES
    ensures Consistent(AfterRetry(st, id), blocked, table)
  {
  }

  /** `exclude_ids.retain(|id| !gone.contains(id))`. */
  function Retain(ids: seq<AccountId>, gone: seq<AccountId>): seq<AccountId> {
    if ids == [] then []
    else (if ids[0] in gone then [] else [ids[0]]) + Retain(ids[1..], gone)
  }

  lemma {:induction false} RetainCounts(ids: seq<AccountId>, gone: seq<AccountId>, x: AccountId)
    ensures multiset(Retain(ids, gone))[x] == if x in gone then 0 else multiset(ids)[x]
  {
    if ids != [] {
      RetainCounts(ids[1..], gone, x);
      assert ids == [ids[0]] + ids[1..];
    }
  }

  /** Taking the queue out of the exclude list leaves its other three sources. */
  lemma RetainLeavesTheOthers(st: State, blocked: seq<AccountId>)
    requires Partitioned(st, blocked)
    ensures multiset(Retain(st.exclude, st.rpm)) == multiset(blocked) + multiset(st.switched) + multiset(st.types)
  {
    var others := multiset(blocked) + multiset(st.switched) + multiset(st.types);
    forall x ensures multiset(Retain(st.exclude, st.rpm))[x] == others[x] {
      RetainCounts(st.exclude, st.rpm, x);
      if x in st.rpm {
        assert x in Ids(st.rpm);
        assert x !in Ids(blocked) && x !in st.switched && x !in Ids(st.types);
      }
    }
  }

  lemma QueueEmptied(st: State, blocked: seq<AccountId>, after: State)
    requires Partitioned(st, blocked)
    requires multiset(after.exclude) == multiset(blocked) + multiset(st.switched) + multiset(st.types)
    requires after.switched == st.switched && after.types == st.types && after.rpm == []
    ensures Partitioned(after, blocked)
  {
    assert Ids([]) == {};
    assert multiset(after.exclude) == multiset(blocked) + multiset(st.switched) + multiset{} + multiset(st.types);
  }

  lemma WaitKeeps(st: State, blocked: seq<AccountId>, table: set<AccountId>)
    requires Consistent(st, blocked, table) && st.waited < RPM_WAIT_MAX
    ensures Consistent(AfterWait(st), blocked, table)
  {
    hide Partitioned, Retain;
    assert Partitioned(AfterWait(st), blocked) by {
      RetainLeavesTheOthers(st, blocked);
      QueueEmptied(st, blocked, AfterWait(st));
    }
    assert Ids([]) == {};
  }

  /** What consistency says in numbers. */
  lemma Bounds(st: State, blocked: seq<AccountId>, table: set<AccountId>)
    requires Consistent(st, blocked, table)
    ensures st.switches <= MAX_ACCOUNT_SWITCHES && |st.retried| <= MAX_SAME_ACCOUNT_RETRIES * |table|
    ensures st.forwards == st.switches + |st.retried|
    ensures st.waited == RPM_WAIT_STEP * st.waits && st.waits <= 40
    ensures |st.switched| + |Ids(st.rpm)| + |Ids(st.types)| <= |table|
    ensures forall id :: st.retried[id] <= MAX_SAME_ACCOUNT_RETRIES
  {
    RetriesAreBounded(st.retried, table);
    var own := st.switched + Ids(st.rpm) + Ids(st.types);
    assert |own| == |st.switched| + |Ids(st.rpm)| + |Ids(st.types)|;
    SubsetSize(own, table);
  }

  // ---- One turn ----

  function Retries(retries: map<AccountId, nat>, id: AccountId): nat {
    if id in retries then retries[id] else 0
  }

  /** Whether an upstream answer goes to the client, given the switches made and the account's retries. */
  predicate Delivers(status: nat, billingReject: bool, limit: RateLimit, switches: nat, retries: nat) {
    if status == 401 || status == 403 || billingReject then switches >= MAX_ACCOUNT_SWITCHES
    else
      status == 429 && limit != NotReal ==>
        switches >= MAX_ACCOUNT_SWITCHES && (limit == Burst ==> retries >= MAX_SAME_ACCOUNT_RETRIES)
  }

  /** Whether a 429 is retried on the same account. */
  predicate RetriesSame(c: Circumstances, retries: nat) {
    && c.slot == Free && c.reply.Answer?
    && c.reply.status == 429 && !c.reply.billingReject && c.reply.limit == Burst && retries < MAX_SAME_ACCOUNT_RETRIES
  }

  /** Whether what follows selection ends the request. */
  predicate Concludes(c: Circumstances, switches: nat, retries: nat) {
    c.slot == Free && c.reply.Answer? ==>
      Delivers(c.reply.status, c.reply.billingReject, c.reply.limit, switches, retries)
  }

  /** Whether this turn is the last. */
  ghost predicate Ends(c: Circumstances, st: State) {
    var a := c.select(st.exclude);
    if a.None? then st.rpm == [] || st.waited >= RPM_WAIT_MAX
    else c.allowsType && (c.intercepted || (!c.rpmFull && Concludes(c, st.switches, st.retried[a.value])))
  }

  /** The variables after a turn that is not the last. */
  ghost function Next(c: Circumstances, st: State): State {
    var a := c.select(st.exclude);
    if a.None? then AfterWait(st)
    else if !c.allowsType then AfterTypeRejection(st, a.value)
    else if c.rpmFull then AfterRpmRejection(st, a.value)
    else if RetriesSame(c, st.retried[a.value]) then AfterRetry(st, a.value)
    else AfterSwitch(st, a.value)
  }

  /** What the client gets from what follows selection. */
  function Concluded(c: Circumstances, serial: nat): Result {
    if c.slot != Free then TooManyRequests
    else if c.reply.Answer? then Response(serial)
    else Failure
  }

  /** What the client gets from the last turn. */
  ghost function Answered(c: Circumstances, st: State): Result {
    if c.select(st.exclude).None? then
      if st.forwards > 0 then Response(st.forwards - 1)
      else if st.types != [] then Forbidden
      else ServiceUnavailable
    else if c.intercepted then Telemetry
    else Concluded(c, st.forwards)
  }

  /** How many turns there have been, by what they were. */
  ghost predicate Paced(st: State, turns: nat, table: set<AccountId>) {
    && turns == st.forwards + st.waits + |Ids(st.types)| + st.rpmFulls
    && st.rpmFulls <= st.waits * |table| + |Ids(st.rpm)|
  }

  ghost function Used(st: State): nat {
    |st.switched| + |Ids(st.rpm)| + |Ids(st.types)|
  }

  lemma NextKeepsConsistent(c: Circumstances, st: State, blocked: seq<AccountId>, table: set<AccountId>)
    requires Consistent(st, blocked, table) && !Ends(c, st)
    requires var a := c.select(st.exclude); a.Some? ==> a.value in table && a.value !in st.exclude
    ensures Consistent(Next(c, st), blocked, table)
  {
    hide Consistent;
    Bounds(st, blocked, table);
    var a := c.select(st.exclude);
    if a.None? {
      WaitKeeps(st, blocked, table);
    } else if !c.allowsType {
      TypeRejectionKeeps(st, blocked, table, a.value);
    } else if c.rpmFull {
      RpmRejectionKeeps(st, blocked, table, a.value);
    } else if RetriesSame(c, st.retried[a.value]) {
      RetryKeeps(st, blocked, table, a.value);
    } else {
      SwitchKeeps(st, blocked, table, a.value);
    }
  }

  /** The lexicographic measure: switches, then retries, then waits, then accounts used up. */
  lemma NextMakesProgress(c: Circumstances, st: State, turns: nat, blocked: seq<AccountId>, table: set<AccountId>)
    requires Consistent(st, blocked, table) && !Ends(c, st) && Paced(st, turns, table)
    requires var a := c.select(st.exclude); a.Some? ==> a.value in table && a.value !in st.exclude
    ensures var next := Next(c, st);
      || next.switches > st.switches
      || (next.switches == st.switches && |next.retried| > |st.retried|)
      || (next.switches == st.switches && next.retried == st.retried && next.waits > st.waits)
      || (next.switches == st.switches && next.retried == st.retried && next.waits == st.waits && Used(next) > Used(st))
    ensures Paced(Next(c, st), turns + 1, table)
  {
    hide Consistent, Retain;
    Bounds(st, blocked, table);
    var a := c.select(st.exclude);
    if a.None? {
      assert Ids([]) == {};
      assert (st.waits + 1) * |table| == st.waits * |table| + |table|;
    } else if !c.allowsType {
      TypeRejectionKeeps(st, blocked, table, a.value);
    } else if c.rpmFull {
      RpmRejectionKeeps(st, blocked, table, a.value);
    }
  }

  lemma StartIsConsistent(blocked: seq<AccountId>, table: set<AccountId>)
    ensures Consistent(Start(blocked), blocked, table) && Paced(Start(blocked), 0, table)
  {
    assert Ids([]) == {};
    assert multiset(blocked) + multiset{} + multiset{} + multiset{} == multiset(blocked);
  }

  function Start(blocked: seq<AccountId>): State {
    State(blocked, [], [], {}, 0, multiset{}, 0, 0, 0, 0)
  }

  // ---- Whole runs ----

  /** A run of the loop: `heads` are the states at the loop heads so far, the last one current. */
  ghost predicate Run(env: nat -> Circumstances, blocked: seq<AccountId>, heads: seq<State>) {
    && heads != [] && heads[0] == Start(blocked)
    && forall i :: 0 <= i < |heads| - 1 ==> !Ends(env(i), heads[i]) && heads[i + 1] == Next(env(i), heads[i])
  }

  lemma RunGoesOn(env: nat -> Circumstances, blocked: seq<AccountId>, heads: seq<State>)
    requires Run(env, blocked, heads)
    requires var n := |heads| - 1; !Ends(env(n), heads[n])
    ensures Run(env, blocked, heads + [Next(env(|heads| - 1), heads[|heads| - 1])])
  {
  }

  /** Every head of every run is consistent and paced. */
  lemma {:induction false} RunKeepsConsistent(
      env: nat -> Circumstances, blocked: seq<AccountId>, table: set<AccountId>, heads: seq<State>, i: nat)
    requires Honest(env, table) && Run(env, blocked, heads) && i < |heads|
    ensures Consistent(heads[i], blocked, table) && Paced(heads[i], i, table)
  {
    if i == 0 {
      StartIsConsistent(blocked, table);
    } else {
      RunKeepsConsistent(env, blocked, table, heads, i - 1);
      NextKeepsConsistent(env(i - 1), heads[i - 1], blocked, table);
      NextMakesProgress(env(i - 1), heads[i - 1], i - 1, blocked, table);
      assert heads[i - 1 + 1] == Next(env(i - 1), heads[i - 1]);
    }
  }

  /** An account switched away from or refused for its type is excluded for the rest of the request. */
  lemma {:induction false} AbandonedStayExcluded(
      env: nat -> Circumstances, blocked: seq<AccountId>, table: set<AccountId>, heads: seq<State>, i: nat, j: nat,
      id: AccountId)
    requires Honest(env, table) && Run(env, blocked, heads) && i <= j < |heads|
    requires id in blocked || id in heads[i].switched || id in heads[i].types
    ensures id in heads[j].exclude && env(j).select(heads[j].exclude) != Some(id)
  {
    hide Partitioned, Consistent;
    AbandonedStay(env, blocked, heads, i, j, id);
    RunKeepsConsistent(env, blocked, table, heads, j);
    ConsistentIsPartitioned(heads[j], blocked, table);
    ExcludedIsKnown(heads[j], blocked, id);
  }

  lemma {:induction false} AbandonedStay(
      env: nat -> Circumstances, blocked: seq<AccountId>, heads: seq<State>, i: nat, j: nat, id: AccountId)
    requires Run(env, blocked, heads) && i <= j < |heads|
    requires id in blocked || id in heads[i].switched || id in heads[i].types
    ensures id in blocked || id in heads[j].switched || id in heads[j].types
    decreases j
  {
    if i < j {
      AbandonedStay(env, blocked, heads, i, j - 1, id);
      assert heads[j - 1 + 1] == Next(env(j - 1), heads[j - 1]);
    }
  }

  lemma ConsistentIsPartitioned(st: State, blocked: seq<AccountId>, table: set<AccountId>)
    requires Consistent(st, blocked, table)
    ensures Partitioned(st, blocked)
  {
  }

  /** A turn that is not the last brings the run strictly closer to its end. */
  lemma TurnMakesProgress(env: nat -> Circumstances, blocked: seq<AccountId>, table: set<AccountId>, heads: seq<State>)
    requires Honest(env, table) && Run(env, blocked, heads)
    requires var n := |heads| - 1; !Ends(env(n), heads[n])
    ensures var n := |heads| - 1;
      Smaller(Measure(Next(env(n), heads[n]), table), Measure(heads[n], table))
  {
    var n := |heads| - 1;
    var st, next := heads[n], Next(env(n), heads[n]);
    hide Consistent, Next, Ends, Run, Paced, Used;
    RunKeepsConsistent(env, blocked, table, heads, n);
    NextKeepsConsistent(env(n), st, blocked, table);
    NextMakesProgress(env(n), st, n, blocked, table);
    Bounds(st, blocked, table);
    Bounds(next, blocked, table);
  }

  /** What is left: switches, retries, waits, and accounts not yet used up. */
  ghost function Measure(st: State, table: set<AccountId>): (int, int, int, int) {
    (MAX_ACCOUNT_SWITCHES - st.switches, MAX_SAME_ACCOUNT_RETRIES * |table| - |st.retried|, 40 - st.waits,
      |table| - Used(st))
  }

  /** The lexicographic order, on measures that have not run out. */
  ghost predicate Smaller(a: (int, int, int, int), b: (int, int, int, int)) {
    && b.0 >= 0 && b.1 >= 0 && b.2 >= 0 && b.3 >= 0
    && a.0 >= 0 && a.1 >= 0 && a.2 >= 0 && a.3 >= 0
    && (a.0 < b.0 || (a.0 == b.0 && (a.1 < b.1 || (a.1 == b.1 && (a.2 < b.2 || (a.2 == b.2 && a.3 < b.3))))))
  }

  lemma PaceBoundsTurns(st: State, turns: nat, table: set<AccountId>)
    requires Paced(st, turns, table) && |Ids(st.rpm)| + |Ids(st.types)| <= |table|
    ensures turns <= st.forwards + st.waits + (st.waits + 1) * |table|
  {
    var size := |table|;
    assert (st.waits + 1) * size == st.waits * size + size;
  }

  /** The most forwards a request makes, and the most turns it takes, over a table of accounts. */
  lemma RunIsBounded(env: nat -> Circumstances, blocked: seq<AccountId>, table: set<AccountId>, heads: seq<State>)
    requires Honest(env, table) && Run(env, blocked, heads)
    ensures var st := heads[|heads| - 1];
      && st.forwards <= MAX_ACCOUNT_SWITCHES + MAX_SAME_ACCOUNT_RETRIES * |table|
      && st.waits <= 40 && st.waited <= RPM_WAIT_MAX
      && |heads| <= st.forwards + st.waits + (st.waits + 1) * |table| + 1
  {
    assert heads != [];
    hide Consistent, Run, Honest, Paced;
    var n := |heads| - 1;
    RunKeepsConsistent(env, blocked, table, heads, n);
    Bounds(heads[n], blocked, table);
    PaceBoundsTurns(heads[n], n, table);
  }

  // ---- The request ----

  datatype Verdict = Conclude(result: Result) | SwitchAccount | RetryAccount

  /** What happens to the slot of one selected account. */
  function AccountEvents(c: Circumstances, key: string, concluded: bool): seq<SlotEvent> {
    if c.slot != Free then [Refused(key)]
    else if concluded then [Taken(key), Dropped]
    else [Taken(key), Forgot, Released]
  }

  /** Whether a turn gets as far as asking for a slot, and as far as the upstream. */
  predicate AsksForSlot(c: Circumstances, exclude: seq<AccountId>) {
    c.select(exclude).Some? && c.allowsType && !c.intercepted && !c.rpmFull
  }

  predicate ReachesUpstream(c: Circumstances, exclude: seq<AccountId>) {
    AsksForSlot(c, exclude) && c.slot == Free && !c.reply.NoToken?
  }

  ghost function TurnEvents(c: Circumstances, st: State, slotKey: AccountId -> string): seq<SlotEvent> {
    if AsksForSlot(c, st.exclude) then AccountEvents(c, slotKey(c.select(st.exclude).value), Ends(c, st)) else []
  }

  /** Everything a run does to slots, turn after turn. */
  ghost function SlotLog(env: nat -> Circumstances, slotKey: AccountId -> string, heads: seq<State>): seq<SlotEvent> {
    if heads == [] then []
    else
      var n := |heads| - 1;
      SlotLog(env, slotKey, heads[..n]) + TurnEvents(env(n), heads[n], slotKey)
  }

  /** On every exit and on every retry path each slot taken is given back exactly once, before the next is taken. */
  lemma {:induction false} EverySlotIsGivenBackOnce(env: nat -> Circumstances, slotKey: AccountId -> string,
      heads: seq<State>)
    ensures Track(SlotLog(env, slotKey, heads)) == Some(S.Outside)
    ensures Takes(SlotLog(env, slotKey, heads)) == Gives(SlotLog(env, slotKey, heads))
  {
    if heads != [] {
      hide Track, Ends;
      var n := |heads| - 1;
      EverySlotIsGivenBackOnce(env, slotKey, heads[..n]);
      var a := env(n).select(heads[n].exclude);
      TrackOneAccount(SlotLog(env, slotKey, heads[..n]), TurnEvents(env(n), heads[n], slotKey),
        if a.Some? then slotKey(a.value) else "");
    } else {
      assert Track([]) == Some(S.Outside);
    }
    TakenIsGivenBackOnce(SlotLog(env, slotKey, heads));
  }

  /** One selected account: take its slot, forward, and decide. */
  method TryAccount(c: Circumstances, slotKey: string, serial: nat, switchCount: nat, retries: nat)
    returns (v: Verdict, events: seq<SlotEvent>)
    ensures v.Conclude? <==> Concludes(c, switchCount, retries)
    ensures v.RetryAccount? <==> RetriesSame(c, retries)
    ensures v.Conclude? ==> v.result == Concluded(c, serial)
    ensures events == AccountEvents(c, slotKey, v.Conclude?)
  {
    if c.slot != Free {
      return Conclude(TooManyRequests), [Refused(slotKey)];
    }
    events := [Taken(slotKey)];
    // Every return from here on drops the guard.
    if !c.reply.Answer? {
      return Conclude(Failure), events + [Dropped];
    }
    v := SwitchAccount;
    if c.reply.status == 401 || c.reply.status == 403 || c.reply.billingReject {
      if switchCount >= MAX_ACCOUNT_SWITCHES {
        return Conclude(Response(serial)), events + [Dropped];
      }
    } else if c.reply.status != 429 || c.reply.limit == NotReal {
      return Conclude(Response(serial)), events + [Dropped];
    } else if c.reply.limit == Burst && retries < MAX_SAME_ACCOUNT_RETRIES {
      v := RetryAccount;
    } else if switchCount >= MAX_ACCOUNT_SWITCHES {
      return Conclude(Response(serial)), events + [Dropped];
    }
    // The guard is forgotten instead, and the slot released by hand.
    events := events + [Forgot] + [Released];
  }

  /** The variables the loop keeps. */
  datatype Variables = Variables(
    exclude: seq<AccountId>, lastResp: Option<nat>, switchCount: nat, sameAccountRetries: map<AccountId, nat>,
    rpmRejected: seq<AccountId>, rpmWaited: nat, typeRejected: seq<AccountId>, forwards: nat)

  ghost predicate Shows(st: State, v: Variables) {
    && st.exclude == v.exclude && st.rpm == v.rpmRejected && st.types == v.typeRejected
    && st.switches == v.switchCount && st.waited == v.rpmWaited && st.forwards == v.forwards
    && (forall id :: st.retried[id] == Retries(v.sameAccountRetries, id))
    && v.lastResp == if v.forwards == 0 then None else Some(v.forwards - 1)
  }

  /** The body of the loop; `forwarded` is whether this turn reached the upstream. */
  method TakeTurn(c: Circumstances, v: Variables, slotKey: AccountId -> string, ghost st: State)
    returns (result: Option<Result>, v': Variables, forwarded: bool, events: seq<SlotEvent>)
    requires Shows(st, v)
    ensures result.Some? <==> Ends(c, st)
    ensures result.Some? ==> result.value == Answered(c, st)
    ensures result.None? ==> Shows(Next(c, st), v')
    ensures forwarded <==> ReachesUpstream(c, st.exclude)
    ensures events == TurnEvents(c, st, slotKey)
  {
    hide Retain;
    v', forwarded, events := v, false, [];
    var selected := c.select(v.exclude);
    if selected.None? {
      if v.rpmRejected != [] && v.rpmWaited < RPM_WAIT_MAX {
        v' := v.(rpmWaited := v.rpmWaited + RPM_WAIT_STEP, exclude := Retain(v.exclude, v.rpmRejected),
          rpmRejected := []);
        return None, v', false, [];
      }
      result := Some(
        if v.lastResp.Some? then Response(v.lastResp.value)
        else if v.typeRejected != [] then Forbidden
        else ServiceUnavailable);
      return;
    }
    var account := selected.value;
    if !c.allowsType {
      v' := v.(exclude := v.exclude + [account], typeRejected := v.typeRejected + [account]);
      return None, v', false, [];
    }
    if c.intercepted {
      return Some(Telemetry), v, false, [];
    }
    if c.rpmFull {
      v' := v.(exclude := v.exclude + [account], rpmRejected := v.rpmRejected + [account]);
      return None, v', false, [];
    }
    var retries := Retries(v.sameAccountRetries, account);
    var verdict;
    verdict, events := TryAccount(c, slotKey(account), v.forwards, v.switchCount, retries);
    forwarded := c.slot == Free && !c.reply.NoToken?;
    if verdict.Conclude? {
      result := Some(verdict.result);
      return;
    }
    v' := v.(lastResp := Some(v.forwards), forwards := v.forwards + 1);
    if verdict.RetryAccount? {
      v' := v'.(sameAccountRetries := v.sameAccountRetries[account := retries + 1]);
    } else {
      v' := v'.(exclude := v.exclude + [account], switchCount := v.switchCount + 1);
    }
    result := None;
  }

  method HandleRequest(
      env: nat -> Circumstances, blocked: seq<AccountId>, slotKey: AccountId -> string, ghost table: set<AccountId>)
      returns (r: Result, forwards: nat, ghost heads: seq<State>, slotLog: seq<SlotEvent>)
    requires Honest(env, table)
    // The loop goes on exactly as long as it should, and answers with the right thing.
    ensures Run(env, blocked, heads)
    ensures var last := |heads| - 1; Ends(env(last), heads[last]) && r == Answered(env(last), heads[last])
    // Bounded work, whatever the upstream does.
    ensures var last := |heads| - 1;
      forwards == heads[last].forwards + if ReachesUpstream(env(last), heads[last].exclude) then 1 else 0
    ensures forwards <= 1 + MAX_ACCOUNT_SWITCHES + MAX_SAME_ACCOUNT_RETRIES * |table|
    // Every slot taken, for the account selected, was given back exactly once.
    ensures slotLog == SlotLog(env, slotKey, heads)
    ensures Track(slotLog) == Some(S.Outside) && Takes(slotLog) == Gives(slotLog)
  {
    var turn: nat := 0;
    var v := Variables(blocked, None, 0, map[], [], 0, [], 0);
    var result: Option<Result> := None;
    heads, slotLog := [Start(blocked)], [];
    assert Run(env, blocked, heads) && heads[..0] == [];
    forwards := 0;
    hide Partitioned, Consistent, Track, Retain, Paced, Run, Ends, Next, Answered, Shows, Measure, Honest, TurnEvents,
      Takes, Gives, Used, ReachesUpstream;
    while true
      invariant |heads| == turn + 1 && Run(env, blocked, heads)
      invariant Shows(heads[turn], v) && forwards == v.forwards == heads[turn].forwards
      invariant slotLog == SlotLog(env, slotKey, heads[..turn])
      decreases Measure(heads[turn], table).0, Measure(heads[turn], table).1,
        Measure(heads[turn], table).2, Measure(heads[turn], table).3
    {
      ghost var st := heads[turn];
      RunIsBounded(env, blocked, table, heads);
      var forwarded, events;
      result, v, forwarded, events := TakeTurn(env(turn), v, slotKey, st);
      slotLog := slotLog + events;
      assert slotLog == SlotLog(env, slotKey, heads);
      if result.Some? {
        EverySlotIsGivenBackOnce(env, slotKey, heads);
        return result.value, if forwarded then forwards + 1 else forwards, heads, slotLog;
      }
      TurnMakesProgress(env, blocked, table, heads);
      RunGoesOn(env, blocked, heads);
      heads := heads + [Next(env(turn), st)];
      assert heads[..turn + 1] == heads[..|heads| - 1];
      ShownForwards(heads[turn + 1], v);
      forwards, turn := v.forwards, turn + 1;
    }
  }

  lemma ShownForwards(st: State, v: Variables)
    requires Shows(st, v)
    ensures st.forwards == v.forwards
  {
  }

  // ---- Requests among others ----

  /** What a step of the shared system was for one holder. */
  ghost function EventOf(s: S.System, t: S.Turn, h: S.Holder): seq<SlotEvent> {
    if t.holder != h then []
    else
      match (s.At(h), t.action)
      case (Outside, Acquire(key, max)) => [if AcquireSlot(s.slots, key, max).1 then Taken(key) else Refused(key)]
      case (Guarded(_), DropGuard) => [Dropped]
      case (Guarded(_), Forget) => [Forgot]
      case (Forgotten(_), Release) => [Released]
      case (Forgotten(_), CancelRelease) => [Cancelled]
      case (_, _) => []
  }

  ghost function Events(turns: seq<S.Turn>, h: S.Holder): seq<SlotEvent> {
    if turns == [] then []
    else
      var n := |turns| - 1;
      Events(turns[..n], h) + EventOf(S.After(turns[..n]), turns[n], h)
  }

  lemma EventsSnoc(turns: seq<S.Turn>, h: S.Holder)
    requires turns != []
    ensures var n := |turns| - 1;
      var e := EventOf(S.After(turns[..n]), turns[n], h);
      var before, after := Events(turns[..n], h), Events(turns, h);
      && (e == [] ==> after == before)
      && (e != [] ==> |e| == 1 && after != [] && after[..|after| - 1] == before && after[|after| - 1] == e[0])
  {
  }

  /** In every interleaving a holder is where its own events say it is. */
  lemma {:induction false} EventsTellThePhase(turns: seq<S.Turn>, h: S.Holder)
    ensures var p := Track(Events(turns, h)); p.Some? ==> p.value == S.After(turns).At(h)
  {
    if turns != [] {
      var n := |turns| - 1;
      EventsTellThePhase(turns[..n], h);
      EventsSnoc(turns, h);
      PhaseAfterEvent(S.After(turns[..n]), turns[n], h);
    }
  }

  /** One step of the system moves a holder exactly as its event says. */
  lemma PhaseAfterEvent(s: S.System, t: S.Turn, h: S.Holder)
    ensures var e := EventOf(s, t, h);
      var after := S.Step(s, t.holder, t.action).At(h);
      && (e == [] ==> after == s.At(h))
      && (e != [] && e[0] != Cancelled ==>
            match (s.At(h), e[0])
            case (Outside, Taken(key)) => after == S.Guarded(key)
            case (Outside, Refused(_)) => after == S.Outside
            case (Guarded(_), Dropped) => after == S.Outside
            case (Guarded(key), Forgot) => after == S.Forgotten(key)
            case (Forgotten(_), Released) => after == S.Outside
            case (_, _) => false)
  {
    if t.holder == h {
      match s.At(h)
      case Outside =>
      case Guarded(_) =>
      case Forgotten(_) =>
    }
  }

  lemma DisciplineOfPrefix(turns: seq<S.Turn>, h: S.Holder)
    requires turns != [] && Track(Events(turns, h)).Some?
    ensures var n := |turns| - 1;
      Track(Events(turns[..n], h)).Some? && EventOf(S.After(turns[..n]), turns[n], h) != [Cancelled]
  {
    hide EventOf;
    EventsSnoc(turns, h);
  }

  /** Where every holder keeps to the discipline, nothing leaks. */
  lemma {:induction false} DisciplineLeaksNothing(turns: seq<S.Turn>)
    requires forall h :: Track(Events(turns, h)).Some?
    ensures S.After(turns).leaked == multiset{}
  {
    if turns != [] {
      var n := |turns| - 1;
      hide S.Step, Track, EventOf;
      forall h ensures Track(Events(turns[..n], h)).Some? {
        DisciplineOfPrefix(turns, h);
      }
      DisciplineLeaksNothing(turns[..n]);
      DisciplineOfPrefix(turns, turns[n].holder);
      S.StepLeaks(S.After(turns[..n]), turns[n].holder, turns[n].action);
    }
  }

  /**
   * If every request has finished with a log as `HandleRequest` leaves it, and the spawned
   * releases have run, then every slot counter is back at zero: none was lost, none given back twice.
   */
  lemma FinishedRequestsLeaveZero(turns: seq<S.Turn>, key: string)
    requires forall h :: Track(Events(turns, h)) == Some(S.Outside)
    requires S.After(turns).tasks == multiset{}
    ensures SlotCount(S.After(turns).slots, key) == 0
    ensures S.After(turns).acquired[key] == S.After(turns).released[key]
  {
    var s := S.After(turns);
    DisciplineLeaksNothing(turns);
    forall h | h in s.phase ensures s.phase[h] == S.Outside {
      EventsTellThePhase(turns, h);
      assert Track(Events(turns, h)) == Some(S.Outside);
    }
    S.SlotsAreConserved(turns);
    assert S.Balanced(s, key);
    assert S.Holders(s.phase, key) == {};
  }

  /** Requests whose slot events are those of runs of the loop, however interleaved, leave every counter at zero. */
  lemma RequestsLeaveZero(turns: seq<S.Turn>, key: string)
    requires forall h :: IsSlotLog(Events(turns, h))
    requires S.After(turns).tasks == multiset{}
    ensures SlotCount(S.After(turns).slots, key) == 0
    ensures S.After(turns).acquired[key] == S.After(turns).released[key]
  {
    hide Track, Events;
    forall h ensures Track(Events(turns, h)) == Some(S.Outside) {
      assert IsSlotLog(Events(turns, h));
      var env, slotKey, heads :| Events(turns, h) == SlotLog(env, slotKey, heads);
      EverySlotIsGivenBackOnce(env, slotKey, heads);
    }
    FinishedRequestsLeaveZero(turns, key);
  }

  ghost predicate IsSlotLog(log: seq<SlotEvent>) {
    exists env, slotKey, heads :: log == SlotLog(env, slotKey, heads)
  }
}
