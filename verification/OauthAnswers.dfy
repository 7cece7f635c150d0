/**
 * What a request for an upstream token finishes with, over whole runs of `OauthRefresh`: where a
 * token it hands out came from, and exactly when there is none.
 */
module OauthAnswers {
  import opened Prelude
  import opened MemoryStores
  import opened OauthRefresh

  /** The system before turn `i` of a run. */
  ghost function StateAt(start: System, turns: seq<Turn>, i: nat): System
    requires i <= |turns|
  {
    After(start, turns[..i])
  }

  lemma OneMoreTurn(start: System, turns: seq<Turn>, i: nat)
    requires i < |turns|
    ensures StateAt(start, turns, i + 1) == Step(StateAt(start, turns, i), turns[i].owner, turns[i].action)
  {
    assert turns[..i + 1][..i] == turns[..i];
  }

  // ---- What a request remembers ----

  /** Turn `j` loaded the account for the request, with these tokens. */
  ghost predicate Loaded(start: System, turns: seq<Turn>, o: Owner, j: nat, action: Action, tokens: Tokens) {
    && j < |turns| && turns[j] == Turn(o, action)
    && StateAt(start, turns, j).stored == tokens
  }

  /** Turn `j` was the upstream answering the request's call. */
  ghost predicate Replied(start: System, turns: seq<Turn>, o: Owner, j: nat, tokens: Option<Tokens>) {
    j < |turns| && turns[j] == Turn(o, Reply(tokens)) && StateAt(start, turns, j).At(o).Calling?
  }

  /** Turn `j` was a waiting request looking again. */
  ghost predicate Polled(start: System, turns: seq<Turn>, o: Owner, j: nat) {
    j < |turns| && turns[j] == Turn(o, Poll) && StateAt(start, turns, j).At(o).Waiting?
  }

  /** The stored access token can be handed out. */
  predicate Valid(s: System) {
    s.stored.ValidFor(s.now, OAUTH_REFRESH_BUFFER)
  }

  /** How often a waiting request has looked before turn `i`. */
  ghost function Polls(start: System, turns: seq<Turn>, o: Owner, i: nat): nat
    requires i <= |turns|
  {
    if i == 0 then 0
    else Polls(start, turns, o, i - 1) + if Polled(start, turns, o, i - 1) then 1 else 0
  }

  /** The request's variables hold what its own earlier turns found. */
  ghost predicate Remembers(start: System, turns: seq<Turn>, o: Owner, i: nat)
    requires i <= |turns|
  {
    var s := StateAt(start, turns, i);
    match s.At(o)
    case HasRead(account) =>
      exists j: nat :: j < i && Loaded(start, turns, o, j, Read, account) && StateAt(start, turns, j).now <= s.now
    case Calling(_, used, readAt) =>
      && !used.ValidFor(readAt, OAUTH_REFRESH_BUFFER)
      && exists j: nat :: j < i && Loaded(start, turns, o, j, Reread, used) && StateAt(start, turns, j).now == readAt
    case Storing(_, received) => exists j: nat :: j < i && Replied(start, turns, o, j, Some(received))
    case _ => true
  }

  /** A waiting request counts its looks, none of which found a valid token; others have not looked yet. */
  ghost predicate CountsPolls(start: System, turns: seq<Turn>, o: Owner, i: nat)
    requires i <= |turns|
  {
    var r := StateAt(start, turns, i).At(o);
    r.Idle? || r.HasRead? || r.Waiting? ==>
      && Polls(start, turns, o, i) == (if r.Waiting? then r.polls else 0)
      && forall j: nat :: j < i && Polled(start, turns, o, j) ==> !Valid(StateAt(start, turns, j))
  }

  lemma {:induction false} RequestsCountPolls(now: Instant, stored: Tokens, turns: seq<Turn>, o: Owner, i: nat)
    requires i <= |turns|
    ensures CountsPolls(Start(now, stored), turns, o, i)
  {
    if i > 0 {
      RequestsCountPolls(now, stored, turns, o, i - 1);
      StepCountsPolls(Start(now, stored), turns, o, i - 1);
    }
  }

  lemma StepCountsPolls(start: System, turns: seq<Turn>, o: Owner, i: nat)
    requires i < |turns| && CountsPolls(start, turns, o, i)
    ensures CountsPolls(start, turns, o, i + 1)
  {
    OneMoreTurn(start, turns, i);
    StepMoves(StateAt(start, turns, i), turns[i].owner, turns[i].action, o);
    hide After, Step, StateAt;
  }

  lemma {:induction false} RequestsRemember(now: Instant, stored: Tokens, turns: seq<Turn>, o: Owner, i: nat)
    requires i <= |turns|
    ensures Remembers(Start(now, stored), turns, o, i)
  {
    if i > 0 {
      RequestsRemember(now, stored, turns, o, i - 1);
      StepRemembers(Start(now, stored), turns, o, i - 1);
    }
  }

  /** How one step moves a request to a position that remembers something. */
  lemma StepMoves(s: System, o: Owner, a: Action, p: Owner)
    ensures var t := Step(s, o, a);
      && s.now <= t.now
      && (t.At(p) != s.At(p) ==>
        && p == o
        && (t.At(p).HasRead? ==> a == Read && t.At(p).account == s.stored)
        && (t.At(p).Calling? ==>
          a == Reread && t.At(p).used == s.stored && t.At(p).readAt == s.now && !Valid(s))
        && !t.At(p).Idle? && (t.At(p).HasRead? ==> s.At(p).Idle?)
        && (t.At(p).Waiting? ==>
          || (s.At(p).HasRead? && a == TryLock && t.At(p).polls == 0)
          || (s.At(p).Waiting? && a == Poll && !Valid(s) && t.At(p).polls == s.At(p).polls + 1))
        && (t.At(p).Storing? ==> a == Reply(Some(t.At(p).received)) && s.At(p).Calling?))
      && (p == o && a == Poll && s.At(p).Waiting? ==> t.At(p) != s.At(p))
  {
  }

  lemma StepRemembers(start: System, turns: seq<Turn>, o: Owner, i: nat)
    requires i < |turns| && Remembers(start, turns, o, i)
    ensures Remembers(start, turns, o, i + 1)
  {
    OneMoreTurn(start, turns, i);
    var s, t := StateAt(start, turns, i), StateAt(start, turns, i + 1);
    StepMoves(s, turns[i].owner, turns[i].action, o);
    hide After, Step, StateAt;
    if t.At(o) != s.At(o) {
      match t.At(o)
      case HasRead(account) => assert Loaded(start, turns, o, i, Read, account);
      case Calling(_, used, _) => assert Loaded(start, turns, o, i, Reread, used);
      case Storing(_, received) => assert Replied(start, turns, o, i, Some(received));
      case _ =>
    }
  }

  // ---- Where a token came from ----

  /** It was the stored one, valid for the buffer, when the request looked. */
  ghost predicate Found(start: System, turns: seq<Turn>, o: Owner, access: string, j: nat) {
    && j < |turns| && turns[j].owner == o
    && (turns[j].action == Read || turns[j].action == Reread || turns[j].action == Poll)
    && var s := StateAt(start, turns, j);
       s.stored.access == access && Valid(s)
  }

  /** The upstream gave it to the request at `j`, which stored it at `k`. */
  ghost predicate GivenAndStored(start: System, turns: seq<Turn>, o: Owner, access: string, j: nat, k: nat) {
    && j < k < |turns| && turns[k] == Turn(o, Store(true))
    && var tokens := StateAt(start, turns, k + 1).stored;
       tokens.access == access && Replied(start, turns, o, j, Some(tokens))
  }

  /** The upstream failed at `k`; it was the stored one at `j`, when the request read it again, and had not expired. */
  ghost predicate FellBack(start: System, turns: seq<Turn>, o: Owner, access: string, j: nat, k: nat) {
    && j < k && Replied(start, turns, o, k, None) && turns[j] == Turn(o, Reread)
    && var s := StateAt(start, turns, j);
       s.stored.access == access && s.stored.ValidFor(s.now, 0)
  }

  ghost predicate HasSource(start: System, turns: seq<Turn>, o: Owner, access: string, i: nat) {
    || (exists j: nat :: j < i && Found(start, turns, o, access, j))
    || (exists j: nat, k: nat :: k < i && GivenAndStored(start, turns, o, access, j, k))
    || (exists j: nat, k: nat :: k < i && FellBack(start, turns, o, access, j, k))
  }

  /** What the request has decided to answer with. */
  predicate Decided(r: Request, result: Result) {
    r == Finished(result) || (r.Unlocking? && r.result == result)
  }

  ghost predicate Sourced(start: System, turns: seq<Turn>, o: Owner, i: nat)
    requires i <= |turns|
  {
    var r := StateAt(start, turns, i).At(o);
    forall access :: Decided(r, Token(access)) ==> HasSource(start, turns, o, access, i)
  }

  /** How one step decides on a token. */
  lemma StepDecides(s: System, o: Owner, a: Action, p: Owner, access: string)
    requires Decided(Step(s, o, a).At(p), Token(access)) && !Decided(s.At(p), Token(access))
    ensures p == o
    ensures var t := Step(s, o, a);
      match a
      case TryLock => s.At(p).HasRead? && s.At(p).account.access == access
                      && s.At(p).account.ValidFor(s.now, OAUTH_REFRESH_BUFFER)
      case Reread => s.stored.access == access && Valid(s)
      case Poll => s.stored.access == access && Valid(s)
      case Store(ok) => ok && s.At(p).Storing? && t.stored == s.At(p).received && t.stored.access == access
      case Reply(tokens) =>
        && tokens.None? && s.At(p).Calling? && s.At(p).used.access == access
        && s.At(p).used.ValidFor(s.At(p).readAt, 0)
      case _ => false
  {
  }

  lemma StepIsSourced(start: System, turns: seq<Turn>, o: Owner, i: nat, access: string)
    requires i < |turns| && Remembers(start, turns, o, i) && Sourced(start, turns, o, i)
    requires Decided(StateAt(start, turns, i + 1).At(o), Token(access))
    ensures HasSource(start, turns, o, access, i + 1)
  {
    OneMoreTurn(start, turns, i);
    var s := StateAt(start, turns, i);
    if !Decided(s.At(o), Token(access)) {
      StepDecides(s, turns[i].owner, turns[i].action, o, access);
      hide After, Step, StateAt, Polls, Polled;
      match turns[i].action
      case TryLock =>
        var account := s.At(o).account;
        var j: nat :| j < i && Loaded(start, turns, o, j, Read, account) && StateAt(start, turns, j).now <= s.now;
        assert Found(start, turns, o, access, j);
      case Store(ok) =>
        var j: nat :| j < i && Replied(start, turns, o, j, Some(s.At(o).received));
        assert GivenAndStored(start, turns, o, access, j, i);
      case Reply(tokens) =>
        var used, readAt := s.At(o).used, s.At(o).readAt;
        var j: nat :| j < i && Loaded(start, turns, o, j, Reread, used) && StateAt(start, turns, j).now == readAt;
        assert FellBack(start, turns, o, access, j, i);
      case Reread => assert Found(start, turns, o, access, i);
      case Poll => assert Found(start, turns, o, access, i);
      case _ =>
    } else {
      hide After, Step, StateAt;
    }
  }

  lemma {:induction false} DecisionsAreSourced(now: Instant, stored: Tokens, turns: seq<Turn>, o: Owner, i: nat)
    requires i <= |turns|
    ensures Sourced(Start(now, stored), turns, o, i)
  {
    if i > 0 {
      var start := Start(now, stored);
      DecisionsAreSourced(now, stored, turns, o, i - 1);
      RequestsRemember(now, stored, turns, o, i - 1);
      forall access | Decided(StateAt(start, turns, i).At(o), Token(access))
        ensures HasSource(start, turns, o, access, i)
      {
        StepIsSourced(start, turns, o, i - 1, access);
      }
    }
  }

  /**
   * In every run a request hands out a token only if it found it stored and valid, or the
   * upstream gave it to this very request, which stored it, or the upstream failed and the token
   * it called with had not expired when it was read again.
   */
  lemma TokensHaveASource(now: Instant, stored: Tokens, turns: seq<Turn>, o: Owner, access: string)
    requires After(Start(now, stored), turns).At(o) == Finished(Token(access))
    ensures HasSource(Start(now, stored), turns, o, access, |turns|)
  {
    DecisionsAreSourced(now, stored, turns, o, |turns|);
    assert turns[..|turns|] == turns;
  }

  // ---- When there is none ----

  /**
   * The request is given up, or the store fails under it, or it finds no refresh token, or waits
   * in vain, or its refresh fails for good.
   */
  predicate FailsNow(s: System, o: Owner, a: Action) {
    match (s.At(o), a)
    case (_, Cancel) => !s.At(o).Finished?
    case (r, Fail) => r.Idle? || r.HasRead? || r.Waiting? || r.Locked?
    case (HasRead(account), TryLock) => !account.ValidFor(s.now, OAUTH_REFRESH_BUFFER) && account.refresh == ""
    case (Locked(_), Reread) => !Valid(s) && s.stored.refresh == ""
    case (Waiting(polls), Poll) => polls >= OAUTH_WAIT_ATTEMPTS
    case (Calling(_, used, readAt), Reply(tokens)) => tokens.None? && !used.ValidFor(readAt, 0)
    case (Storing(_, _), Store(ok)) => !ok
    case (_, _) => false
  }

  ghost predicate Fails(start: System, turns: seq<Turn>, o: Owner, i: nat) {
    i < |turns| && turns[i].owner == o && FailsNow(StateAt(start, turns, i), o, turns[i].action)
  }

  lemma StepFails(s: System, o: Owner, a: Action, p: Owner)
    ensures Decided(Step(s, o, a).At(p), Unavailable) <==>
      Decided(s.At(p), Unavailable) || (p == o && FailsNow(s, o, a))
  {
  }

  lemma {:induction false} FailuresDecide(now: Instant, stored: Tokens, turns: seq<Turn>, o: Owner, i: nat)
    requires i <= |turns|
    ensures Decided(StateAt(Start(now, stored), turns, i).At(o), Unavailable) <==>
      exists j: nat :: j < i && Fails(Start(now, stored), turns, o, j)
  {
    if i > 0 {
      hide Fails, StateAt, FailsNow, Decided, Step, Start;
      var start := Start(now, stored);
      FailuresDecide(now, stored, turns, o, i - 1);
      OneMoreTurn(start, turns, i - 1);
      StepFails(StateAt(start, turns, i - 1), turns[i - 1].owner, turns[i - 1].action, o);
      FailsAt(start, turns, o, i - 1);
    }
  }

  /** In every run a finished request has no token exactly when one of those things happened to it. */
  lemma UnavailableExactly(now: Instant, stored: Tokens, turns: seq<Turn>, o: Owner)
    requires After(Start(now, stored), turns).At(o).Finished?
    ensures After(Start(now, stored), turns).At(o) == Finished(Unavailable) <==>
      exists i: nat :: Fails(Start(now, stored), turns, o, i)
  {
    hide Fails, After;
    FailuresDecide(now, stored, turns, o, |turns|);
    assert turns[..|turns|] == turns;
    forall i: nat | Fails(Start(now, stored), turns, o, i) ensures i < |turns| {
      FailsInRange(Start(now, stored), turns, o, i);
    }
  }

  lemma FailsAt(start: System, turns: seq<Turn>, o: Owner, i: nat)
    requires i < |turns|
    ensures Fails(start, turns, o, i) <==>
      turns[i].owner == o && FailsNow(StateAt(start, turns, i), o, turns[i].action)
  {
  }

  lemma FailsInRange(start: System, turns: seq<Turn>, o: Owner, i: nat)
    requires Fails(start, turns, o, i)
    ensures i < |turns|
  {
  }

  // ---- The lock and the stored tokens ----

  /** Cancelled between taking the lock and having released it. */
  ghost predicate CancelledInside(start: System, turns: seq<Turn>, o: Owner, i: nat) {
    i < |turns| && turns[i] == Turn(o, Cancel) && StateAt(start, turns, i).At(o).Critical()
  }

  ghost predicate HoldsOnlyInside(start: System, turns: seq<Turn>, o: Owner, i: nat)
    requires i <= |turns|
  {
    var s := StateAt(start, turns, i);
    LOCK_KEY in s.locks && s.locks[LOCK_KEY].owner == o ==>
      s.At(o).Critical() || exists j: nat :: j < i && CancelledInside(start, turns, o, j)
  }

  lemma StepHoldsOnlyInside(s: System, o: Owner, a: Action, p: Owner)
    ensures var t := Step(s, o, a);
      && (LOCK_KEY in t.locks && t.locks[LOCK_KEY].owner == p && !t.At(p).Critical() ==>
        && LOCK_KEY in s.locks && s.locks[LOCK_KEY].owner == p
        && (s.At(p).Critical() ==> o == p && a == Cancel))
      && (t.stored != s.stored ==> a == Store(true) && s.At(o).Storing? && t.stored == s.At(o).received)
  {
  }

  lemma {:induction false} LockIsHeldOnlyInside(now: Instant, stored: Tokens, turns: seq<Turn>, o: Owner, i: nat)
    requires i <= |turns|
    ensures HoldsOnlyInside(Start(now, stored), turns, o, i)
  {
    if i > 0 {
      var start := Start(now, stored);
      LockIsHeldOnlyInside(now, stored, turns, o, i - 1);
      OneMoreTurn(start, turns, i - 1);
      StepHoldsOnlyInside(StateAt(start, turns, i - 1), turns[i - 1].owner, turns[i - 1].action, o);
      hide Step, StateAt, After;
      if turns[i - 1] == Turn(o, Cancel) && StateAt(start, turns, i - 1).At(o).Critical() {
        assert CancelledInside(start, turns, o, i - 1);
      }
    }
  }

  /** A request that has finished leaves no lock behind, unless it was cancelled while it held it. */
  lemma FinishedRequestsHoldNoLock(now: Instant, stored: Tokens, turns: seq<Turn>, o: Owner)
    requires var s := After(Start(now, stored), turns);
      s.At(o).Finished? && LOCK_KEY in s.locks && s.locks[LOCK_KEY].owner == o
    ensures exists i: nat :: CancelledInside(Start(now, stored), turns, o, i)
  {
    LockIsHeldOnlyInside(now, stored, turns, o, |turns|);
    assert turns[..|turns|] == turns;
    hide After;
  }

  /** The stored tokens are those of the start, or what the upstream gave a request that stored them. */
  lemma {:induction false} StoredTokensAreGiven(now: Instant, stored: Tokens, turns: seq<Turn>, i: nat)
    requires i <= |turns|
    ensures var s := StateAt(Start(now, stored), turns, i);
      || s.stored == stored
      || exists o, j: nat :: j < i && Replied(Start(now, stored), turns, o, j, Some(s.stored))
  {
    if i > 0 {
      var start := Start(now, stored);
      var s := StateAt(start, turns, i - 1);
      var o := turns[i - 1].owner;
      StoredTokensAreGiven(now, stored, turns, i - 1);
      RequestsRemember(now, stored, turns, o, i - 1);
      OneMoreTurn(start, turns, i - 1);
      StepHoldsOnlyInside(s, o, turns[i - 1].action, o);
      hide Step, StateAt, After, Replied, Loaded;
    }
  }
}
