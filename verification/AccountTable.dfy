/** `account.rs`: limits on an account, and who may serve a request. */
module AccountTable {
  import opened Prelude
  import opened MemoryStores

  const SESSION_TTL: nat := 60_000
  const STICKY_SESSION_TTL: nat := 24 * 60 * 60 * 1000
  const QUOTA_TTL_SECS: nat := 24 * 60 * 60
  const SESSION_WAIT_ATTEMPTS: nat := 40

  datatype Account = Account(
    id: AccountId, active: bool, rateLimitResetAt: Option<Instant>, priority: int,
    maxSessions: int, deviceQuota: int, sessionQuota: int,
    costCap: Option<real>, createdAt: Instant, warmupSkip: bool)

  // ---- Limits (pure) ----

  function CostExhausted(a: Account, cost: real): bool {
    a.costCap.Some? && a.costCap.value > 0.0 && cost >= a.costCap.value
  }

  function CostSoftLimited(a: Account, cost: real): bool {
    a.costCap.Some? && a.costCap.value > 0.0 && cost >= a.costCap.value * 0.85
  }

  datatype Tier = Tier(until: real, max: int)
  datatype WarmupConfig = WarmupConfig(enabled: bool, tiers: seq<Tier>)

  /** The first tier the age is below; zero is no limit. */
  method CapForAge(cfg: WarmupConfig, ageHours: real) returns (cap: int)
    ensures cap == AgeCap(cfg, ageHours)
  {
    if !cfg.enabled {
      return 0;
    }
    for i := 0 to |cfg.tiers|
      invariant AgeCap(cfg, ageHours) == AgeCap(cfg.(tiers := cfg.tiers[i..]), ageHours)
    {
      if ageHours < cfg.tiers[i].until {
        return cfg.tiers[i].max;
      }
      assert cfg.tiers[i..][1..] == cfg.tiers[i + 1..];
    }
    cap := 0;
  }

  function AgeCap(cfg: WarmupConfig, ageHours: real): int
    decreases |cfg.tiers|
  {
    if !cfg.enabled || cfg.tiers == [] then 0
    else if ageHours < cfg.tiers[0].until then cfg.tiers[0].max
    else AgeCap(cfg.(tiers := cfg.tiers[1..]), ageHours)
  }

  /** With ascending tiers and caps that grow with age, an older account is never capped tighter. */
  lemma {:induction false} CapsLoosenWithAge(cfg: WarmupConfig, younger: real, older: real)
    requires younger <= older && cfg.enabled
    requires forall i :: 0 <= i < |cfg.tiers| ==> cfg.tiers[i].max > 0
    requires forall i, j :: 0 <= i < j < |cfg.tiers| ==> cfg.tiers[i].max <= cfg.tiers[j].max
    ensures AgeCap(cfg, older) == 0 || 0 < AgeCap(cfg, younger) <= AgeCap(cfg, older)
    decreases |cfg.tiers|
  {
    if cfg.tiers != [] {
      CapsLoosenWithAge(cfg.(tiers := cfg.tiers[1..]), younger, older);
      if younger < cfg.tiers[0].until <= older {
        CapIsFromSomeTier(cfg.(tiers := cfg.tiers[1..]), older);
      }
    }
  }

  lemma {:induction false} CapIsFromSomeTier(cfg: WarmupConfig, age: real)
    ensures AgeCap(cfg, age) == 0 || exists i :: 0 <= i < |cfg.tiers| && AgeCap(cfg, age) == cfg.tiers[i].max
    decreases |cfg.tiers|
  {
    if cfg.tiers != [] && cfg.enabled && age >= cfg.tiers[0].until {
      CapIsFromSomeTier(cfg.(tiers := cfg.tiers[1..]), age);
      if i :| 0 <= i < |cfg.tiers| - 1 && AgeCap(cfg, age) == cfg.tiers[1..][i].max {
        assert cfg.tiers[i + 1].max == AgeCap(cfg, age);
      }
    }
  }

  /** The cap is that of the first tier the age is below. */
  lemma {:induction false} CapIsOfFirstTierAbove(cfg: WarmupConfig, ageHours: real, n: nat)
    requires cfg.enabled && n <= |cfg.tiers|
    requires forall k :: 0 <= k < n ==> ageHours >= cfg.tiers[k].until
    requires n < |cfg.tiers| ==> ageHours < cfg.tiers[n].until
    ensures AgeCap(cfg, ageHours) == if n < |cfg.tiers| then cfg.tiers[n].max else 0
    decreases n
  {
    if n > 0 {
      CapIsOfFirstTierAbove(cfg.(tiers := cfg.tiers[1..]), ageHours, n - 1);
    }
  }

  function WarmEffectiveMax(accountMax: int, warmCap: int): int {
    if accountMax == 0 then warmCap
    else if warmCap == 0 then accountMax
    else if accountMax <= warmCap then accountMax else warmCap
  }

  /** Whether a maximum admits one more session beside `n`. */
  predicate Admits(max: int, n: nat) {
    max <= 0 || n < max
  }

  /**
   * The effective maximum enforces both limits exactly when the two do not have opposite signs:
   * a negative limit means no limit to the cache, but wins the minimum against a positive one.
   */
  lemma EffectiveMaxEnforcesBothExactly(accountMax: int, warmCap: int)
    ensures (forall n: nat :: Admits(WarmEffectiveMax(accountMax, warmCap), n) <==>
      Admits(accountMax, n) && Admits(warmCap, n))
      <==> !(accountMax < 0 < warmCap) && !(warmCap < 0 < accountMax)
  {
    if accountMax < 0 < warmCap {
      assert !Admits(warmCap, warmCap) && Admits(WarmEffectiveMax(accountMax, warmCap), warmCap);
    }
    if warmCap < 0 < accountMax {
      assert !Admits(accountMax, accountMax) && Admits(WarmEffectiveMax(accountMax, warmCap), accountMax);
    }
  }

  // ---- The account table and the filters ----

  /** What a request sees besides the cache: the table, the costs, the warm-up settings, the clocks. */
  datatype World = World(
    accounts: seq<Account>, cost: AccountId -> real, warmup: WarmupConfig, now: Instant, nowSecs: nat)

  datatype Filter = Filter(excluded: seq<AccountId>, allowed: seq<AccountId>)

  /** Primary keys of the table. */
  ghost predicate WellFormed(w: World) {
    && (forall i :: 0 <= i < |w.accounts| ==> w.accounts[i].id > 0)
    && (forall i, j :: 0 <= i < j < |w.accounts| ==> w.accounts[i].id != w.accounts[j].id)
  }

  predicate Schedulable(a: Account, now: Instant) {
    a.active && (a.rateLimitResetAt.Some? ==> a.rateLimitResetAt.value <= now)
  }

  /** The rows `list_schedulable` returns; stricter than `Schedulable` by the instant of the reset. */
  predicate Listed(a: Account, now: Instant) {
    a.active && (a.rateLimitResetAt.Some? ==> a.rateLimitResetAt.value < now)
  }

  predicate Passes(id: AccountId, f: Filter) {
    id !in f.excluded && (f.allowed == [] || id in f.allowed)
  }

  function GetById(accounts: seq<Account>, id: AccountId): (a: Option<Account>)
    ensures a.Some? ==> a.value in accounts && a.value.id == id
  {
    if accounts == [] then None
    else if accounts[0].id == id then Some(accounts[0])
    else GetById(accounts[1..], id)
  }

  lemma {:induction false} GetByIdFinds(w: World, a: Account)
    requires WellFormed(w) && a in w.accounts
    ensures GetById(w.accounts, a.id) == Some(a)
    decreases |w.accounts|
  {
    if w.accounts[0] != a {
      var i :| 0 <= i < |w.accounts| && w.accounts[i] == a;
      GetByIdFinds(w.(accounts := w.accounts[1..]), a);
    }
  }

  predicate Eligible(w: World, f: Filter, a: Account) {
    Listed(a, w.now) && Passes(a.id, f) && !CostExhausted(a, w.cost(a.id))
  }

  predicate InPrimary(w: World, f: Filter, a: Account) {
    Eligible(w, f, a) && !CostSoftLimited(a, w.cost(a.id))
  }

  ghost predicate InTier(w: World, f: Filter, a: Account) {
    && a in w.accounts
    && if exists p :: p in w.accounts && InPrimary(w, f, p) then InPrimary(w, f, a) else Eligible(w, f, a)
  }

  /** The account a hash is bound to, when it may still be used. */
  function Sticky(w: World, f: Filter, sessions: Bindings, hash: string): Option<Account> {
    var id := Bound(sessions, hash, w.now);
    if hash == "" || id.None? || id.value <= 0 then None
    else
      var a := GetById(w.accounts, id.value);
      if a.Some? && Schedulable(a.value, w.now) && Passes(id.value, f) && !CostExhausted(a.value, w.cost(id.value))
      then a else None
  }
}
