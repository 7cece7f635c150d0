/**
 * `ticketer.rs`: rotation of ticket keys by threads that drop the state lock while generating.
 * A ticketer is a number; every successful generator call yields one never used before.
 */
module Ticketers {
  import opened Prelude

  type Key = nat

  // ---- The shared state and its critical sections ----

  datatype State = State(next: Option<Key>, current: Key, previous: Option<Key>, nextSwitchTime: u64) {
    predicate Holds(k: Key) {
      current == k || previous == Some(k)
    }

    /** Demotes the current ticketer. */
    function Switch(now: u64, lifetime: u64, successor: Key, remaining: Option<Key>): State {
      State(remaining, successor, Some(current), SaturatingAdd(now, lifetime))
    }
  }

  datatype Entry = Usable | MustGenerate | Recovering

  function Enter(s: State, now: u64, lifetime: u64): (State, Entry) {
    if now <= s.nextSwitchTime then (s, Usable)
    else if s.next.Some? then (s.Switch(now, lifetime, s.next.value, None), MustGenerate)
    else (s, Recovering)
  }

  function Recover(s: State, now: u64, lifetime: u64, next: Key, newCurrent: Key): State {
    var t := s.(next := Some(next));
    if now > s.nextSwitchTime then t.Switch(now, lifetime, newCurrent, Some(next)) else t
  }

  class TicketSwitcher {
    const lifetime: u64
    var next: Option<Key>
    var current: Key
    var previous: Option<Key>
    var nextSwitchTime: u64

    ghost function View(): State
      reads this
    {
      State(next, current, previous, nextSwitchTime)
    }

    constructor (lifetime: u64, now: u64, next: Key, current: Key)
      ensures this.lifetime == lifetime && View() == Started(lifetime, now, next, current)
    {
      this.lifetime := lifetime;
      this.next, this.current, this.previous := Some(next), current, None;
      nextSwitchTime := SaturatingAdd(now, lifetime);
    }

    /** The first critical section of `maybe_roll`. */
    method EnterSection(now: u64) returns (entry: Entry)
      modifies this
      ensures (View(), entry) == Enter(old(View()), now, lifetime)
    {
      if now <= nextSwitchTime {
        return Usable;
      }
      if next.Some? {
        previous, current, next := Some(current), next.value, None;
        nextSwitchTime := SaturatingAdd(now, lifetime);
        entry := MustGenerate;
      } else {
        entry := Recovering;
      }
    }

    /** The second critical section after a switch. */
    method PlaceNext(generated: Key)
      modifies this`next
      ensures View() == old(View()).(next := Some(generated))
    {
      next := Some(generated);
    }

    /** The second critical section when `next` was missing; the time is checked again. */
    method RecoverSection(now: u64, generated: Key, newCurrent: Key)
      modifies this
      ensures View() == Recover(old(View()), now, lifetime, generated, newCurrent)
    {
      next := Some(generated);
      if now > nextSwitchTime {
        previous, current := Some(current), newCurrent;
        nextSwitchTime := SaturatingAdd(now, lifetime);
      }
    }

    /** `maybe_roll` when no other thread interferes; `None` when the generator fails. */
    method MaybeRoll(now: u64, first: Option<Key>, second: Option<Key>) returns (ready: bool)
      modifies this
      ensures ready ==> now <= nextSwitchTime
      ensures View() == RollAlone(old(View()), now, lifetime, first, second).0
      ensures ready == RollAlone(old(View()), now, lifetime, first, second).1
    {
      var entry := EnterSection(now);
      match entry {
        case Usable => ready := true;
        case MustGenerate =>
          if first.None? {
            return false;
          }
          PlaceNext(first.value);
          ready := true;
        case Recovering =>
          if first.None? || second.None? {
            return false;
          }
          RecoverSection(now, first.value, second.value);
          ready := true;
      }
    }

    method Encrypt(now: u64, first: Option<Key>, second: Option<Key>, message: seq<byte>)
      returns (ticket: Option<Ticket>)
      modifies this
      ensures View() == RollAlone(old(View()), now, lifetime, first, second).0
      ensures ticket.Some? <==> RollAlone(old(View()), now, lifetime, first, second).1
      ensures ticket.Some? ==> ticket.value == Ticket(current, message)
      ensures ticket.Some? ==> now <= nextSwitchTime
    {
      var ready := MaybeRoll(now, first, second);
      ticket := if ready then Some(Ticket(current, message)) else None;
    }

    /** Tries the current key, then the previous one. */
    method Decrypt(now: u64, first: Option<Key>, second: Option<Key>, ticket: Ticket)
      returns (message: Option<seq<byte>>)
      modifies this
      ensures View() == RollAlone(old(View()), now, lifetime, first, second).0
      ensures message == if RollAlone(old(View()), now, lifetime, first, second).1 && View().Holds(ticket.key)
        then Some(ticket.message) else None
      // One switch since the ticket was sealed does not matter, whether this call made it or an earlier one.
      ensures ticket.key == old(current) && ReadyAfter(now, old(View()), first, second) ==>
        message == Some(ticket.message)
      ensures old(View()).Holds(ticket.key) && now <= old(nextSwitchTime) ==> message == Some(ticket.message)
    {
      var ready := MaybeRoll(now, first, second);
      if !ready {
        return None;
      }
      if current == ticket.key {
        message := Some(ticket.message);
      } else if previous.Some? && previous.value == ticket.key {
        message := Some(ticket.message);
      } else {
        message := None;
      }
    }
  }

  /** What sealing a message leaves behind: which key did it, and the message inside. */
  datatype Ticket = Ticket(key: Key, message: seq<byte>)

  function Started(lifetime: u64, now: u64, next: Key, current: Key): State {
    State(Some(next), current, None, SaturatingAdd(now, lifetime))
  }

  function RollAlone(s: State, now: u64, lifetime: u64, first: Option<Key>, second: Option<Key>): (State, bool) {
    var (t, entry) := Enter(s, now, lifetime);
    match entry
    case Usable => (t, true)
    case MustGenerate => if first.None? then (t, false) else (t.(next := first), true)
    case Recovering =>
      if first.None? || second.None? then (t, false)
      else (Recover(t, now, lifetime, first.value, second.value), true)
  }

  /** Whether the generator does what the call needs of it. */
  predicate ReadyAfter(now: u64, s: State, first: Option<Key>, second: Option<Key>) {
    now <= s.nextSwitchTime || (first.Some? && (s.next.Some? || second.Some?))
  }

  // ---- All threads together ----

  /** Where a thread is inside `maybe_roll`. */
  datatype Thread =
    | Idle
    | Generating(now: u64)
    | GeneratingNext(now: u64)
    | GeneratingCurrent(now: u64, next: Key)
    | PlacingNext(now: u64, next: Key)
    | PlacingBoth(now: u64, next: Key, newCurrent: Key)

  type ThreadId = nat

  /** `supply` numbers the generator's next product. */
  datatype System = System(state: State, threads: map<ThreadId, Thread>, supply: Key) {
    function At(t: ThreadId): Thread {
      if t in threads then threads[t] else Idle
    }

    function With(state: State, t: ThreadId, thread: Thread): System {
      System(state, threads[t := thread], supply)
    }
  }

  /**
   * What one step did. `Acquired` is `maybe_roll` returning the locked state to a caller whose
   * clock read `now`, who then encrypts or decrypts with it.
   */
  datatype Event = Internal | Switched(now: u64) | Acquired(now: u64) | SwitchedAndAcquired(now: u64) {
    predicate IsSwitch() {
      Switched? || SwitchedAndAcquired?
    }

    predicate IsAcquired() {
      Acquired? || SwitchedAndAcquired?
    }
  }

  datatype Action = Call(now: u64) | Generated | GeneratorFailed | Lock

  /** One step of thread `t`; actions that do not fit its position leave everything unchanged. */
  function Step(s: System, lifetime: u64, t: ThreadId, a: Action): (System, Event) {
    match (s.At(t), a)
    case (Idle, Call(now)) =>
      var (state, entry) := Enter(s.state, now, lifetime);
      (match entry
       case Usable => (s, Acquired(now))
       case MustGenerate => (s.With(state, t, Generating(now)), Switched(now))
       case Recovering => (s.With(state, t, GeneratingNext(now)), Internal))
    case (Generating(now), Generated) =>
      (s.With(s.state, t, PlacingNext(now, s.supply)).(supply := s.supply + 1), Internal)
    case (GeneratingNext(now), Generated) =>
      (s.With(s.state, t, GeneratingCurrent(now, s.supply)).(supply := s.supply + 1), Internal)
    case (GeneratingCurrent(now, next), Generated) =>
      (s.With(s.state, t, PlacingBoth(now, next, s.supply)).(supply := s.supply + 1), Internal)
    case (Generating(_), GeneratorFailed) => (s.With(s.state, t, Idle), Internal)
    case (GeneratingNext(_), GeneratorFailed) => (s.With(s.state, t, Idle), Internal)
    case (GeneratingCurrent(_, _), GeneratorFailed) => (s.With(s.state, t, Idle), Internal)
    case (PlacingNext(now, next), Lock) =>
      (s.With(s.state.(next := Some(next)), t, Idle), Acquired(now))
    case (PlacingBoth(now, next, newCurrent), Lock) =>
      (s.With(Recover(s.state, now, lifetime, next, newCurrent), t, Idle),
       if now > s.state.nextSwitchTime then SwitchedAndAcquired(now) else Acquired(now))
    case (_, _) => (s, Internal)
  }

  function Opt(k: Option<Key>): set<Key> {
    if k.Some? then {k.value} else {}
  }

  ghost function Keys(s: State): set<Key> {
    {s.current} + Opt(s.next) + Opt(s.previous)
  }

  /** Keys are never in two places, and no thread is about to place a key the state has held. */
  ghost predicate Inv(s: System) {
    && StateInv(s)
    && (forall t :: t in s.threads ==> ThreadInv(s, t))
    && (forall t, u :: t in s.threads && u in s.threads && t != u ==> Pending(s.threads[t]) !! Pending(s.threads[u]))
  }

  ghost predicate StateInv(s: System) {
    && (forall k :: k in Keys(s.state) ==> k < s.supply)
    && (s.state.next.Some? ==> !s.state.Holds(s.state.next.value))
    && s.state.previous != Some(s.state.current)
  }

  ghost predicate ThreadInv(s: System, t: ThreadId)
    requires t in s.threads
  {
    var thread := s.threads[t];
    && (forall k :: k in Pending(thread) ==> k < s.supply && k !in Keys(s.state))
    && (thread.PlacingBoth? ==> thread.next != thread.newCurrent)
    && (thread.Generating? || thread.PlacingNext? ==> thread.now <= s.state.nextSwitchTime)
  }

  /** Keys a thread has generated and not yet placed. */
  ghost function Pending(thread: Thread): set<Key> {
    match thread
    case GeneratingCurrent(_, next) => {next}
    case PlacingNext(_, next) => {next}
    case PlacingBoth(_, next, newCurrent) => {next, newCurrent}
    case _ => {}
  }

  // ---- Runs ----

  datatype Turn = Turn(thread: ThreadId, action: Action)

  function After(s: System, lifetime: u64, turns: seq<Turn>): System {
    if turns == [] then s
    else
      var last := turns[|turns| - 1];
      Step(After(s, lifetime, turns[..|turns| - 1]), lifetime, last.thread, last.action).0
  }

  function EventAt(s: System, lifetime: u64, turns: seq<Turn>, i: nat): Event
    requires i < |turns|
  {
    Step(After(s, lifetime, turns[..i]), lifetime, turns[i].thread, turns[i].action).1
  }

  function Fresh(lifetime: u64, now: u64): System {
    System(Started(lifetime, now, 0, 1), map[], 2)
  }

  /** A step that only touches thread `t`, and moves its keys or brand-new ones. */
  ghost predicate Touches(s: System, s': System, t: ThreadId) {
    && s.supply <= s'.supply && s.state.nextSwitchTime <= s'.state.nextSwitchTime
    && t in s'.threads && s'.threads == s.threads[t := s'.threads[t]]
    && StateInv(s') && ThreadInv(s', t)
    && Keys(s'.state) <= Keys(s.state) + Pending(s.At(t))
    && (forall k :: k in Pending(s'.threads[t]) ==> (k in Pending(s.At(t)) || k >= s.supply) && k !in Keys(s.state))
  }

  lemma TouchingOneThreadKeepsInv(s: System, s': System, t: ThreadId)
    requires Inv(s) && Touches(s, s', t)
    ensures Inv(s')
  {
    forall u | u in s'.threads && u != t
      ensures ThreadInv(s', u) && Pending(s'.threads[t]) !! Pending(s'.threads[u])
    {
      assert ThreadInv(s, u) && (t in s.threads ==> Pending(s.threads[t]) !! Pending(s.threads[u]));
    }
  }

  lemma CallTouches(s: System, lifetime: u64, t: ThreadId, now: u64)
    requires StateInv(s) && s.At(t) == Idle
    ensures var s' := Step(s, lifetime, t, Call(now)).0; s' == s || Touches(s, s', t)
  {
    var s' := Step(s, lifetime, t, Call(now)).0;
    if s' != s {
      assert s'.threads == s.threads[t := s'.threads[t]];
      assert Pending(s'.threads[t]) == {};
      assert Keys(s'.state) <= Keys(s.state);
      assert StateInv(s');
    }
  }

  lemma GeneratorTouches(s: System, lifetime: u64, t: ThreadId, a: Action)
    requires StateInv(s) && t in s.threads && ThreadInv(s, t) && (a.Generated? || a.GeneratorFailed?)
    ensures var s' := Step(s, lifetime, t, a).0; s' == s || Touches(s, s', t)
  {
    var s' := Step(s, lifetime, t, a).0;
    if s' != s {
      assert s'.state == s.state && s'.threads == s.threads[t := s'.threads[t]];
      assert StateInv(s');
      assert Pending(s'.threads[t]) <= Pending(s.threads[t]) + {s.supply};
      assert s.supply !in Keys(s.state);
    }
  }

  lemma PlacingNextTouches(s: System, lifetime: u64, t: ThreadId)
    requires StateInv(s) && t in s.threads && ThreadInv(s, t) && s.threads[t].PlacingNext?
    ensures Touches(s, Step(s, lifetime, t, Lock).0, t)
  {
    var s' := Step(s, lifetime, t, Lock).0;
    assert s'.threads == s.threads[t := Idle] && Pending(s'.threads[t]) == {};
    var next := s.threads[t].next;
    assert next in Pending(s.threads[t]) && next !in Keys(s.state);
    assert s'.state == s.state.(next := Some(next)) && s'.supply == s.supply;
    assert Keys(s'.state) <= Keys(s.state) + {next};
    assert StateInv(s') && ThreadInv(s', t);
  }

  lemma PlacingBothTouches(s: System, lifetime: u64, t: ThreadId)
    requires StateInv(s) && t in s.threads && ThreadInv(s, t) && s.threads[t].PlacingBoth?
    ensures Touches(s, Step(s, lifetime, t, Lock).0, t)
  {
    var s' := Step(s, lifetime, t, Lock).0;
    assert s'.threads == s.threads[t := Idle] && Pending(s'.threads[t]) == {};
    var next, newCurrent := s.threads[t].next, s.threads[t].newCurrent;
    assert Pending(s.threads[t]) == {next, newCurrent} && next !in Keys(s.state) && newCurrent !in Keys(s.state);
    assert Keys(s'.state) <= Keys(s.state) + {next, newCurrent} && s'.supply == s.supply;
    assert StateInv(s') && ThreadInv(s', t);
  }

  lemma StepKeepsInv(s: System, lifetime: u64, t: ThreadId, a: Action)
    requires Inv(s)
    ensures Inv(Step(s, lifetime, t, a).0)
  {
    var s' := Step(s, lifetime, t, a).0;
    assert t in s.threads ==> ThreadInv(s, t);
    if s.At(t) == Idle && a.Call? {
      CallTouches(s, lifetime, t, a.now);
    } else if s.At(t) != Idle && (a.Generated? || a.GeneratorFailed?) {
      GeneratorTouches(s, lifetime, t, a);
    } else if s.At(t).PlacingNext? && a.Lock? {
      PlacingNextTouches(s, lifetime, t);
    } else if s.At(t).PlacingBoth? && a.Lock? {
      PlacingBothTouches(s, lifetime, t);
    } else {
      assert s' == s;
    }
    hide Step, Inv, Touches;
    if s' != s {
      TouchingOneThreadKeepsInv(s, s', t);
    }
  }

  /** Each kind of event moves the state as its name says. */
  lemma EventsDescribeSteps(s: System, lifetime: u64, t: ThreadId, a: Action)
    requires Inv(s)
    ensures var (s', e) := Step(s, lifetime, t, a);
      && (e.IsSwitch() ==>
          && e.now > s.state.nextSwitchTime
          && s'.state.nextSwitchTime == SaturatingAdd(e.now, lifetime)
          && s'.state.previous == Some(s.state.current)
          && !s.state.Holds(s'.state.current))
      && (!e.IsSwitch() ==> s'.state == s.state.(next := s'.state.next))
      && (e.IsAcquired() ==> e.now <= s'.state.nextSwitchTime)
  {
    assert t in s.threads ==> ThreadInv(s, t);
    assert StateInv(s);
    hide Inv;
    match s.At(t)
    case PlacingBoth(_, _, newCurrent) =>
      assert newCurrent in Pending(s.threads[t]) && newCurrent !in Keys(s.state);
    case _ =>
  }

  lemma {:induction false} RunKeepsInv(s: System, lifetime: u64, turns: seq<Turn>)
    requires Inv(s)
    ensures Inv(After(s, lifetime, turns))
  {
    if turns != [] {
      var n := |turns| - 1;
      RunKeepsInv(s, lifetime, turns[..n]);
      StepKeepsInv(After(s, lifetime, turns[..n]), lifetime, turns[n].thread, turns[n].action);
    }
  }

  lemma StepOfRun(s: System, lifetime: u64, turns: seq<Turn>, i: nat)
    requires Inv(s) && i < |turns|
    ensures var a, b := After(s, lifetime, turns[..i]), After(s, lifetime, turns[..i + 1]);
      var e := EventAt(s, lifetime, turns, i);
      && Inv(a) && Inv(b)
      && Step(a, lifetime, turns[i].thread, turns[i].action) == (b, e)
      && (e.IsSwitch() ==>
          && e.now > a.state.nextSwitchTime
          && b.state.nextSwitchTime == SaturatingAdd(e.now, lifetime)
          && b.state.previous == Some(a.state.current)
          && !a.state.Holds(b.state.current))
      && (!e.IsSwitch() ==> b.state == a.state.(next := b.state.next))
      && (e.IsAcquired() ==> e.now <= b.state.nextSwitchTime)
  {
    assert turns[..i + 1][..i] == turns[..i];
    RunKeepsInv(s, lifetime, turns[..i]);
    RunKeepsInv(s, lifetime, turns[..i + 1]);
    EventsDescribeSteps(After(s, lifetime, turns[..i]), lifetime, turns[i].thread, turns[i].action);
  }

  lemma {:induction false} SwitchTimeGrows(s: System, lifetime: u64, turns: seq<Turn>, i: nat, j: nat)
    requires Inv(s) && i <= j <= |turns|
    ensures After(s, lifetime, turns[..i]).state.nextSwitchTime <= After(s, lifetime, turns[..j]).state.nextSwitchTime
    decreases j - i
  {
    hide *;
    if i < j {
      SwitchTimeGrows(s, lifetime, turns, i, j - 1);
      OneStepGrows(s, lifetime, turns, j - 1);
    }
  }

  lemma OneStepGrows(s: System, lifetime: u64, turns: seq<Turn>, i: nat)
    requires Inv(s) && i < |turns|
    ensures var a, b := After(s, lifetime, turns[..i]).state, After(s, lifetime, turns[..i + 1]).state;
      a.nextSwitchTime <= b.nextSwitchTime
  {
    StepOfRun(s, lifetime, turns, i);
    hide Inv, Step, After;
  }

  /** In every interleaving two switches are more than a lifetime apart. */
  lemma SwitchesAreSpaced(s: System, lifetime: u64, turns: seq<Turn>, i: nat, j: nat)
    requires Inv(s) && i < j < |turns|
    requires EventAt(s, lifetime, turns, i).IsSwitch() && EventAt(s, lifetime, turns, j).IsSwitch()
    ensures EventAt(s, lifetime, turns, j).now > EventAt(s, lifetime, turns, i).now + lifetime
  {
    StepOfRun(s, lifetime, turns, i);
    SwitchTimeGrows(s, lifetime, turns, i + 1, j);
    StepOfRun(s, lifetime, turns, j);
  }

  /**
   * A key that sealed a ticket for a caller with clock `t` still opens it until some switch
   * whose clock is past t + lifetime.
   */
  lemma {:induction false} TicketKeyIsRetained(s: System, lifetime: u64, turns: seq<Turn>, i: nat, j: nat)
    requires Inv(s) && i < j <= |turns|
    requires EventAt(s, lifetime, turns, i).IsAcquired()
    ensures var k := After(s, lifetime, turns[..i + 1]).state.current;
      var t := EventAt(s, lifetime, turns, i).now;
      var final := After(s, lifetime, turns[..j]).state;
      || (final.current == k && t <= final.nextSwitchTime)
      || (final.previous == Some(k) && Min(t + lifetime, U64_MAX) <= final.nextSwitchTime)
      || (exists m ::
        i < m < j && EventAt(s, lifetime, turns, m).IsSwitch() && EventAt(s, lifetime, turns, m).now > t + lifetime)
    decreases j
  {
    hide Step, Inv;
    var t := EventAt(s, lifetime, turns, i).now;
    if j == i + 1 {
      StepOfRun(s, lifetime, turns, i);
    } else {
      TicketKeyIsRetained(s, lifetime, turns, i, j - 1);
      StepOfRun(s, lifetime, turns, j - 1);
    }
  }

  /** A key seals tickets for at most one lifetime of caller clocks after it was installed. */
  lemma CurrentKeySealsForOneLifetime(s: System, lifetime: u64, turns: seq<Turn>, i: nat, j: nat)
    requires Inv(s) && i < j < |turns|
    requires EventAt(s, lifetime, turns, i).IsSwitch() && EventAt(s, lifetime, turns, j).IsAcquired()
    requires forall m :: i < m <= j ==> !EventAt(s, lifetime, turns, m).IsSwitch()
    ensures After(s, lifetime, turns[..j + 1]).state.current == After(s, lifetime, turns[..i + 1]).state.current
    ensures EventAt(s, lifetime, turns, j).now <= EventAt(s, lifetime, turns, i).now + lifetime
  {
    hide Step, Inv, After;
    StepOfRun(s, lifetime, turns, i);
    QuietStretch(s, lifetime, turns, i + 1, j + 1);
    StepOfRun(s, lifetime, turns, j);
  }

  lemma {:induction false} QuietStretch(s: System, lifetime: u64, turns: seq<Turn>, i: nat, j: nat)
    requires Inv(s) && i <= j <= |turns|
    requires forall m :: i <= m < j ==> !EventAt(s, lifetime, turns, m).IsSwitch()
    ensures var a, b := After(s, lifetime, turns[..i]).state, After(s, lifetime, turns[..j]).state;
      a.current == b.current && a.previous == b.previous && a.nextSwitchTime == b.nextSwitchTime
    decreases j - i
  {
    hide *;
    if i < j {
      QuietStretch(s, lifetime, turns, i, j - 1);
      QuietStep(s, lifetime, turns, j - 1);
    }
  }

  lemma QuietStep(s: System, lifetime: u64, turns: seq<Turn>, i: nat)
    requires Inv(s) && i < |turns| && !EventAt(s, lifetime, turns, i).IsSwitch()
    ensures var a, b := After(s, lifetime, turns[..i]).state, After(s, lifetime, turns[..i + 1]).state;
      a.current == b.current && a.previous == b.previous && a.nextSwitchTime == b.nextSwitchTime
  {
    StepOfRun(s, lifetime, turns, i);
    hide Inv, Step, After;
  }

  /** Once a key has been dropped no thread can bring it back. */
  lemma {:induction false} DroppedKeyStaysDropped(s: System, lifetime: u64, turns: seq<Turn>, k: Key, i: nat, j: nat)
    requires Inv(s) && i <= j <= |turns|
    requires Gone(After(s, lifetime, turns[..i]), k)
    ensures Gone(After(s, lifetime, turns[..j]), k)
    decreases j - i
  {
    hide Inv, Gone, Step, After;
    if i < j {
      AfterOneMore(s, lifetime, turns, j);
      DroppedKeyStaysDropped(s, lifetime, turns, k, i, j - 1);
      RunKeepsInv(s, lifetime, turns[..j - 1]);
      GoneIsStable(After(s, lifetime, turns[..j - 1]), lifetime, turns[j - 1].thread, turns[j - 1].action, k);
    }
  }

  lemma AfterOneMore(s: System, lifetime: u64, turns: seq<Turn>, j: nat)
    requires 0 < j <= |turns|
    ensures After(s, lifetime, turns[..j]) ==
      Step(After(s, lifetime, turns[..j - 1]), lifetime, turns[j - 1].thread, turns[j - 1].action).0
  {
    hide Step;
    assert turns[..j][..j - 1] == turns[..j - 1];
  }

  lemma GoneIsStable(s: System, lifetime: u64, t: ThreadId, a: Action, k: Key)
    requires Inv(s) && Gone(s, k)
    ensures Gone(Step(s, lifetime, t, a).0, k)
  {
    assert t in s.threads ==> k !in Pending(s.threads[t]);
    hide Inv;
    match s.At(t)
    case Idle =>
    case Generating(_) =>
    case GeneratingNext(_) =>
    case GeneratingCurrent(_, _) =>
    case PlacingNext(_, _) =>
    case PlacingBoth(_, _, _) =>
  }

  ghost predicate Gone(s: System, k: Key) {
    && k < s.supply && k !in Keys(s.state)
    && (forall t :: t in s.threads ==> k !in Pending(s.threads[t]))
  }

  // ---- The documented bound of twice the lifetime ----

  /**
   * The documentation says a ticket is accepted for no longer than twice the lifetime. Rolling
   * is lazy, so this fails: a ticket made at clock 0 is accepted at any later clock when
   * nothing happens in between.
   */
  lemma AcceptedAfterAnyIdleTime(lifetime: u64, late: u64)
    requires late > 2 * lifetime
    ensures var s := Fresh(lifetime, 0);
      var (sealing, made) := Step(s, lifetime, 0, Call(0));
      var (rolled, _) := Step(sealing, lifetime, 0, Call(late));
      var (generated, _) := Step(rolled, lifetime, 0, Generated);
      var (opening, used) := Step(generated, lifetime, 0, Lock);
      && made == Acquired(0) && used == Acquired(late)
      && opening.state.Holds(sealing.state.current)
  {
  }

  /** A ticketer that has been current is still held, or gone for good. */
  ghost predicate HeldOrGone(s: System, k: Key) {
    s.state.Holds(k) || Gone(s, k)
  }

  /** Gone, or demoted with its last deadline no later than the bound. */
  ghost predicate Retiring(s: System, k: Key, bound: nat) {
    Gone(s, k) || (s.state.Holds(k) && s.state.current != k && s.state.nextSwitchTime <= bound)
  }

  lemma SwitchDropsPrevious(s: System, lifetime: u64, t: ThreadId, a: Action, k: Key)
    requires Inv(s) && s.state.previous == Some(k) && Step(s, lifetime, t, a).1.IsSwitch()
    ensures Gone(Step(s, lifetime, t, a).0, k)
  {
    assert k in Keys(s.state);
    assert forall u :: u in s.threads ==> ThreadInv(s, u);
    match s.At(t)
    case Idle =>
    case PlacingBoth(_, next, newCurrent) =>
      assert next in Pending(s.threads[t]) && newCurrent in Pending(s.threads[t]);
  }

  lemma StepKeepsHeldOrGone(s: System, lifetime: u64, t: ThreadId, a: Action, k: Key)
    requires Inv(s) && HeldOrGone(s, k)
    ensures HeldOrGone(Step(s, lifetime, t, a).0, k)
  {
    EventsDescribeSteps(s, lifetime, t, a);
    if Gone(s, k) {
      GoneIsStable(s, lifetime, t, a, k);
    } else if s.state.previous == Some(k) && Step(s, lifetime, t, a).1.IsSwitch() {
      SwitchDropsPrevious(s, lifetime, t, a, k);
    }
    hide Step, Inv, Gone;
  }

  /** A retiring ticketer stays so, and opens tickets only for clocks within the bound. */
  lemma StepKeepsRetiring(s: System, lifetime: u64, t: ThreadId, a: Action, k: Key, bound: nat)
    requires Inv(s) && Retiring(s, k, bound)
    ensures var (s', e) := Step(s, lifetime, t, a);
      Retiring(s', k, bound) && (e.IsAcquired() && s'.state.Holds(k) ==> e.now <= bound)
  {
    EventsDescribeSteps(s, lifetime, t, a);
    if Gone(s, k) {
      GoneIsStable(s, lifetime, t, a, k);
      GoneIsNotHeld(Step(s, lifetime, t, a).0, k);
    } else if Step(s, lifetime, t, a).1.IsSwitch() {
      SwitchDropsPrevious(s, lifetime, t, a, k);
      GoneIsNotHeld(Step(s, lifetime, t, a).0, k);
    }
    hide Step, Inv, Gone;
  }

  lemma GoneIsNotHeld(s: System, k: Key)
    requires Gone(s, k)
    ensures !s.state.Holds(k)
  {
  }

  /** Whether, in every run from here on, the ticketer is used only for clocks within the bound. */
  ghost predicate UsedOnlyUntil(s: System, lifetime: u64, k: Key, bound: nat) {
    forall more: seq<Turn>, j :: 0 <= j < |more| ==> UsedWithin(s, lifetime, more, j, k, bound)
  }

  ghost predicate UsedWithin(s: System, lifetime: u64, more: seq<Turn>, j: nat, k: Key, bound: nat)
    requires j < |more|
  {
    var e := EventAt(s, lifetime, more, j);
    e.IsAcquired() && After(s, lifetime, more[..j + 1]).state.Holds(k) ==> e.now <= bound
  }

  lemma {:induction false} RetiringStays(s: System, lifetime: u64, more: seq<Turn>, j: nat, k: Key, bound: nat)
    requires Inv(s) && Retiring(s, k, bound) && j <= |more|
    ensures Retiring(After(s, lifetime, more[..j]), k, bound)
  {
    if j > 0 {
      AfterOneMore(s, lifetime, more, j);
      hide Inv, Retiring, Step, After;
      RetiringStays(s, lifetime, more, j - 1, k, bound);
      RunKeepsInv(s, lifetime, more[..j - 1]);
      StepKeepsRetiring(After(s, lifetime, more[..j - 1]), lifetime, more[j - 1].thread, more[j - 1].action, k, bound);
    }
  }

  lemma RetiringIsUsedOnlyUntil(s: System, lifetime: u64, k: Key, bound: nat)
    requires Inv(s) && Retiring(s, k, bound)
    ensures UsedOnlyUntil(s, lifetime, k, bound)
  {
    forall more: seq<Turn>, j | 0 <= j < |more| ensures UsedWithin(s, lifetime, more, j, k, bound) {
      RetiringStays(s, lifetime, more, j, k, bound);
      RunKeepsInv(s, lifetime, more[..j]);
      StepKeepsRetiring(After(s, lifetime, more[..j]), lifetime, more[j].thread, more[j].action, k, bound);
      AfterOneMore(s, lifetime, more, j + 1);
    }
  }

  lemma {:induction false} SomeThreadIsNew(threads: set<ThreadId>, least: ThreadId)
    ensures exists t: ThreadId :: t !in threads && t >= least
  {
    if least in threads {
      SomeThreadIsNew(threads - {least}, least + 1);
      var t: ThreadId :| t !in threads - {least} && t >= least + 1;
      assert t !in threads;
    }
  }

  lemma AfterSnoc(s: System, lifetime: u64, more: seq<Turn>, last: Turn)
    ensures After(s, lifetime, more + [last]) == Step(After(s, lifetime, more), lifetime, last.thread, last.action).0
    ensures EventAt(s, lifetime, more + [last], |more|) ==
      Step(After(s, lifetime, more), lifetime, last.thread, last.action).1
  {
    hide Step;
    assert (more + [last])[..|more|] == more;
  }

  /** One more turn that uses the ticketer past the bound refutes the bound. */
  lemma LateUse(s: System, lifetime: u64, more: seq<Turn>, last: Turn, k: Key, bound: nat)
    requires var (s', e) := Step(After(s, lifetime, more), lifetime, last.thread, last.action);
      e.IsAcquired() && s'.state.Holds(k) && e.now > bound
    ensures !UsedOnlyUntil(s, lifetime, k, bound)
  {
    hide Step;
    AfterSnoc(s, lifetime, more, last);
    var all := more + [last];
    assert all[..|more| + 1] == all;
    assert !UsedWithin(s, lifetime, all, |more|, k, bound);
  }

  /** While a ticketer is held and not retiring, a lone newcomer can still use it past the bound. */
  lemma HeldIsUsedLater(s: System, lifetime: u64, k: Key, bound: nat)
    requires Inv(s) && s.state.Holds(k) && !Retiring(s, k, bound) && bound < U64_MAX
    ensures !UsedOnlyUntil(s, lifetime, k, bound)
  {
    SomeThreadIsNew(s.threads.Keys, 0);
    var t: ThreadId :| t !in s.threads;
    if s.state.nextSwitchTime > bound {
      assert After(s, lifetime, []) == s;
      LateUse(s, lifetime, [], Turn(t, Call(s.state.nextSwitchTime)), k, bound);
    } else {
      NewcomerRollsCurrentOut(s, lifetime, t, k, bound + 1);
    }
  }

  /** Rolling demotes the current ticketer, and the thread that rolled still opens tickets with it. */
  lemma NewcomerRollsCurrentOut(s: System, lifetime: u64, t: ThreadId, k: Key, now: u64)
    requires t !in s.threads && s.state.current == k && 0 < now && now > s.state.nextSwitchTime
    ensures !UsedOnlyUntil(s, lifetime, k, now - 1)
  {
    var call, generated := Turn(t, Call(now)), Turn(t, Generated);
    assert After(s, lifetime, []) == s;
    assert [] + [call] == [call] && [call] + [generated] == [call, generated];
    AfterSnoc(s, lifetime, [], call);
    AfterSnoc(s, lifetime, [call], generated);
    var s1 := Step(s, lifetime, t, Call(now)).0;
    var s2 := Step(s1, lifetime, t, Generated).0;
    if s.state.next.Some? {
      assert s1.At(t) == Generating(now) && s2.At(t) == PlacingNext(now, s1.supply);
      assert s2.state.previous == Some(k);
      LateUse(s, lifetime, [call, generated], Turn(t, Lock), k, now - 1);
    } else {
      assert s1.At(t) == GeneratingNext(now) && s2.At(t) == GeneratingCurrent(now, s1.supply);
      AfterSnoc(s, lifetime, [call, generated], generated);
      var s3 := Step(s2, lifetime, t, Generated).0;
      assert [call, generated] + [generated] == [call, generated, generated];
      assert s3.At(t) == PlacingBoth(now, s1.supply, s2.supply) && s3.state == s.state;
      LateUse(s, lifetime, [call, generated, generated], Turn(t, Lock), k, now - 1);
    }
  }

  lemma UsedOnlyUntilExactly(s: System, lifetime: u64, k: Key, bound: nat)
    requires Inv(s) && HeldOrGone(s, k) && bound < U64_MAX
    ensures UsedOnlyUntil(s, lifetime, k, bound) <==>
      !s.state.Holds(k) || (s.state.current != k && s.state.nextSwitchTime <= bound)
  {
    hide Inv, Gone, UsedOnlyUntil;
    if Gone(s, k) {
      GoneIsNotHeld(s, k);
    }
    if Retiring(s, k, bound) {
      RetiringIsUsedOnlyUntil(s, lifetime, k, bound);
    } else {
      HeldIsUsedLater(s, lifetime, k, bound);
    }
  }

  lemma {:induction false} SealedKeyIsHeldOrGone(s: System, lifetime: u64, turns: seq<Turn>, i: nat, k: Key)
    requires Inv(s) && i <= |turns| && HeldOrGone(After(s, lifetime, turns[..i]), k)
    ensures HeldOrGone(After(s, lifetime, turns), k)
    decreases |turns| - i
  {
    if i == |turns| {
      assert turns[..i] == turns;
    } else {
      AfterOneMore(s, lifetime, turns, i + 1);
      hide Inv, HeldOrGone, Step, After;
      RunKeepsInv(s, lifetime, turns[..i]);
      StepKeepsHeldOrGone(After(s, lifetime, turns[..i]), lifetime, turns[i].thread, turns[i].action, k);
      SealedKeyIsHeldOrGone(s, lifetime, turns, i + 1, k);
    }
  }

  lemma FreshSystemIsInv(lifetime: u64, now: u64)
    ensures Inv(Fresh(lifetime, now))
  {
  }

  /** The ticketer a ticket was sealed with, and the clock of the caller it was sealed for. */
  ghost function SealedWith(s: System, lifetime: u64, turns: seq<Turn>, i: nat): Key
    requires i < |turns|
  {
    After(s, lifetime, turns[..i + 1]).state.current
  }

  ghost predicate SealedAt(s: System, lifetime: u64, turns: seq<Turn>, i: nat, t: u64)
    requires i < |turns|
  {
    var e := EventAt(s, lifetime, turns, i);
    e.IsAcquired() && e.now == t
  }

  /**
   * The bound, exactly. A ticket was sealed at event `i` of a run for a caller with clock `t`.
   * From the end of that run on, its ticketer is used only for clocks up to t + 2 * lifetime iff
   * it is no longer held, or no longer current with its deadline within that bound.
   */
  lemma DocumentedBoundHoldsExactlyWhenRetiring(s: System, lifetime: u64, turns: seq<Turn>, i: nat, t: u64)
    requires Inv(s) && i < |turns| && SealedAt(s, lifetime, turns, i, t) && t + 2 * lifetime < U64_MAX
    ensures var end, k := After(s, lifetime, turns), SealedWith(s, lifetime, turns, i);
      UsedOnlyUntil(end, lifetime, k, t + 2 * lifetime) <==>
        !end.state.Holds(k) || (end.state.current != k && end.state.nextSwitchTime <= t + 2 * lifetime)
  {
    hide Step, Inv, After, UsedOnlyUntil, Gone, SealedAt;
    var k := SealedWith(s, lifetime, turns, i);
    RunKeepsInv(s, lifetime, turns);
    SealedKeyIsHeldOrGone(s, lifetime, turns, i + 1, k);
    UsedOnlyUntilExactly(After(s, lifetime, turns), lifetime, k, t + 2 * lifetime);
  }

  /**
   * So what decides is the switch that demotes the ticketer: in every run of a switcher, the
   * documented bound holds from there on iff that switch came no later than one lifetime after
   * the ticket was sealed.
   */
  lemma BoundHoldsExactlyWhenDemotedInTime(lifetime: u64, start: u64, turns: seq<Turn>, i: nat, m: nat, t: u64)
    requires i < m < |turns| && SealedAt(Fresh(lifetime, start), lifetime, turns, i, t) && t + 2 * lifetime < U64_MAX
    requires EventAt(Fresh(lifetime, start), lifetime, turns, m).IsSwitch()
    requires After(Fresh(lifetime, start), lifetime, turns[..m]).state.current ==
      SealedWith(Fresh(lifetime, start), lifetime, turns, i)
    ensures var k := SealedWith(Fresh(lifetime, start), lifetime, turns, i);
      UsedOnlyUntil(After(Fresh(lifetime, start), lifetime, turns[..m + 1]), lifetime, k, t + 2 * lifetime) <==>
        EventAt(Fresh(lifetime, start), lifetime, turns, m).now <= t + lifetime
  {
    FreshSystemIsInv(lifetime, start);
    DemotionDecides(Fresh(lifetime, start), lifetime, turns, i, m, t);
  }

  lemma DemotionDecides(s: System, lifetime: u64, turns: seq<Turn>, i: nat, m: nat, t: u64)
    requires Inv(s) && i < m < |turns| && SealedAt(s, lifetime, turns, i, t) && t + 2 * lifetime < U64_MAX
    requires EventAt(s, lifetime, turns, m).IsSwitch()
    requires After(s, lifetime, turns[..m]).state.current == SealedWith(s, lifetime, turns, i)
    ensures var k := SealedWith(s, lifetime, turns, i);
      UsedOnlyUntil(After(s, lifetime, turns[..m + 1]), lifetime, k, t + 2 * lifetime) <==>
        EventAt(s, lifetime, turns, m).now <= t + lifetime
  {
    var front := turns[..m + 1];
    assert front[..i] == turns[..i] && front[..i + 1] == turns[..i + 1] && front[i] == turns[i];
    hide Step, Inv, UsedOnlyUntil, After;
    StepOfRun(s, lifetime, turns, m);
    DocumentedBoundHoldsExactlyWhenRetiring(s, lifetime, front, i, t);
  }

  // ---- A switcher no other thread interferes with ----

  /** What the threads of the step system do when `t` is the only one at work. */
  function LoneTurns(s: State, now: u64, t: ThreadId, first: bool, second: bool): seq<Turn> {
    [Turn(t, Call(now))]
    + if now <= s.nextSwitchTime then []
      else if !first then [Turn(t, GeneratorFailed)]
      else if s.next.Some? then [Turn(t, Generated), Turn(t, Lock)]
      else if !second then [Turn(t, Generated), Turn(t, GeneratorFailed)]
      else [Turn(t, Generated), Turn(t, Generated), Turn(t, Lock)]
  }

  /** The generator's next product, and the one after it. */
  function Product(made: bool, key: Key): Option<Key> {
    if made then Some(key) else None
  }

  /** The lone run ends in the state `RollAlone` gives, ready exactly when it ends by acquiring it. */
  ghost predicate LoneRunRolls(s: System, lifetime: u64, now: u64, t: ThreadId, first: bool, second: bool) {
    var turns := LoneTurns(s.state, now, t, first, second);
    var end, e := After(s, lifetime, turns), EventAt(s, lifetime, turns, |turns| - 1);
    var (rolled, ready) := RollAlone(s.state, now, lifetime, Product(first, s.supply), Product(second, s.supply + 1));
    && end.state == rolled && end.At(t) == Idle
    && (ready <==> e.IsAcquired()) && (ready ==> e.now == now)
    && (forall u :: u != t ==> end.At(u) == s.At(u))
  }

  /** `maybe_roll` without interference is a run of the step system in which one thread is at work. */
  lemma RollAloneIsALoneRun(s: System, lifetime: u64, now: u64, t: ThreadId, first: bool, second: bool)
    requires s.At(t) == Idle
    ensures LoneRunRolls(s, lifetime, now, t, first, second)
  {
    if now <= s.state.nextSwitchTime || !first {
      ShortLoneRun(s, lifetime, now, t, first, second);
    } else if s.state.next.Some? {
      LoneRunWithNext(s, lifetime, now, t, second);
    } else {
      LoneRunWithoutNext(s, lifetime, now, t, second);
    }
  }

  lemma ShortLoneRun(s: System, lifetime: u64, now: u64, t: ThreadId, first: bool, second: bool)
    requires s.At(t) == Idle && (now <= s.state.nextSwitchTime || !first)
    ensures LoneRunRolls(s, lifetime, now, t, first, second)
  {
    LoneAfter(s, lifetime, LoneTurns(s.state, now, t, first, second));
    hide After, EventAt;
  }

  lemma LoneRunWithNext(s: System, lifetime: u64, now: u64, t: ThreadId, second: bool)
    requires s.At(t) == Idle && now > s.state.nextSwitchTime && s.state.next.Some?
    ensures LoneRunRolls(s, lifetime, now, t, true, second)
  {
    LoneAfter(s, lifetime, LoneTurns(s.state, now, t, true, second));
    hide After, EventAt;
  }

  lemma LoneRunWithoutNext(s: System, lifetime: u64, now: u64, t: ThreadId, second: bool)
    requires s.At(t) == Idle && now > s.state.nextSwitchTime && s.state.next.None?
    ensures LoneRunRolls(s, lifetime, now, t, true, second)
  {
    LoneAfter(s, lifetime, LoneTurns(s.state, now, t, true, second));
    hide After, EventAt;
  }

  /** At most four turns, one by one. */
  lemma LoneAfter(s: System, lifetime: u64, turns: seq<Turn>)
    requires 0 < |turns| <= 4
    ensures var s1 := Step(s, lifetime, turns[0].thread, turns[0].action);
      && After(s, lifetime, turns[..1]) == s1.0 && EventAt(s, lifetime, turns, 0) == s1.1
      && (|turns| > 1 ==>
        var s2 := Step(s1.0, lifetime, turns[1].thread, turns[1].action);
        && After(s, lifetime, turns[..2]) == s2.0 && EventAt(s, lifetime, turns, 1) == s2.1
        && (|turns| > 2 ==>
          var s3 := Step(s2.0, lifetime, turns[2].thread, turns[2].action);
          && After(s, lifetime, turns[..3]) == s3.0 && EventAt(s, lifetime, turns, 2) == s3.1
          && (|turns| > 3 ==>
            var s4 := Step(s3.0, lifetime, turns[3].thread, turns[3].action);
            After(s, lifetime, turns[..4]) == s4.0 && EventAt(s, lifetime, turns, 3) == s4.1)))
      && turns[..|turns|] == turns
  {
    hide Step;
    assert After(s, lifetime, turns[..0]) == s;
    AfterOneMore(s, lifetime, turns, 1);
    if |turns| > 1 {
      AfterOneMore(s, lifetime, turns, 2);
    }
    if |turns| > 2 {
      AfterOneMore(s, lifetime, turns, 3);
    }
    if |turns| > 3 {
      AfterOneMore(s, lifetime, turns, 4);
    }
  }

  /** One call without interference, with what the generator yields in it. */
  datatype Use = Use(now: u64, first: Option<Key>, second: Option<Key>) {
    /** Whether the call replaces the current ticketer. */
    predicate Switches(s: State) {
      now > s.nextSwitchTime && (s.next.Some? || (first.Some? && second.Some?))
    }
  }

  function AfterUses(s: State, lifetime: u64, uses: seq<Use>): State {
    if uses == [] then s
    else
      var n := |uses| - 1;
      RollAlone(AfterUses(s, lifetime, uses[..n]), uses[n].now, lifetime, uses[n].first, uses[n].second).0
  }

  function SwitchesIn(s: State, lifetime: u64, uses: seq<Use>): nat {
    if uses == [] then 0
    else
      var n := |uses| - 1;
      SwitchesIn(s, lifetime, uses[..n]) + if uses[n].Switches(AfterUses(s, lifetime, uses[..n])) then 1 else 0
  }

  /**
   * Sealed and opened again: the ticketer that sealed a ticket is held, and so opens it in any
   * later call that is ready, as long as at most one call since has switched.
   */
  lemma {:induction false} SealedOpensAcrossOneSwitch(s: State, lifetime: u64, uses: seq<Use>)
    requires SwitchesIn(s, lifetime, uses) <= 1
    ensures AfterUses(s, lifetime, uses).Holds(s.current)
    ensures SwitchesIn(s, lifetime, uses) == 0 ==> AfterUses(s, lifetime, uses).current == s.current
  {
    if uses != [] {
      SealedOpensAcrossOneSwitch(s, lifetime, uses[..|uses| - 1]);
    }
  }

  /** Which is so while the clocks stay within one lifetime of the sealing. */
  lemma {:induction false} OneSwitchWithinALifetime(s: State, lifetime: u64, uses: seq<Use>, sealed: u64)
    requires sealed <= s.nextSwitchTime && forall i :: 0 <= i < |uses| ==> uses[i].now <= sealed + lifetime
    ensures SwitchesIn(s, lifetime, uses) <= 1
    ensures SwitchesIn(s, lifetime, uses) == 0 ==> AfterUses(s, lifetime, uses).nextSwitchTime == s.nextSwitchTime
    ensures SwitchesIn(s, lifetime, uses) == 1 ==>
      AfterUses(s, lifetime, uses).nextSwitchTime >= Min(sealed + lifetime, U64_MAX)
  {
    if uses != [] {
      OneSwitchWithinALifetime(s, lifetime, uses[..|uses| - 1], sealed);
    }
  }

  /** So `Decrypt` gives back what `Encrypt` sealed for any clocks within one lifetime, when it is ready. */
  lemma RoundTripWithinALifetime(s: State, lifetime: u64, seal: Use, uses: seq<Use>)
    requires RollAlone(s, seal.now, lifetime, seal.first, seal.second).1
    requires forall i :: 0 <= i < |uses| ==> uses[i].now <= seal.now + lifetime
    ensures var sealed := RollAlone(s, seal.now, lifetime, seal.first, seal.second).0;
      AfterUses(sealed, lifetime, uses).Holds(sealed.current)
  {
    var sealed := RollAlone(s, seal.now, lifetime, seal.first, seal.second).0;
    OneSwitchWithinALifetime(sealed, lifetime, uses, seal.now);
    SealedOpensAcrossOneSwitch(sealed, lifetime, uses);
  }

  /** A new switcher seals with its first ticketer exactly until one lifetime after its start. */
  lemma FirstTicketerServesOneLifetime(lifetime: u64, start: u64, now: u64)
    ensures var (s, e) := Step(Fresh(lifetime, start), lifetime, 0, Call(now));
      (e == Acquired(now) && s.state.current == 1 <==> now <= start + lifetime) && s.state.Holds(1)
  {
  }
}
