/** `usage_store.rs`: the log table, the daily roll-up and the statistics read from it. */
module UsageStores {
  import opened Prelude

  datatype Sums = Sums(input: int, output: int, cacheCreation: int, cacheRead: int, requests: int)

  const ZERO := Sums(0, 0, 0, 0, 0)

  function Plus(a: Sums, b: Sums): Sums {
    Sums(a.input + b.input, a.output + b.output, a.cacheCreation + b.cacheCreation,
         a.cacheRead + b.cacheRead, a.requests + b.requests)
  }

  // ---- Tables with one row per key ----

  datatype Row<K> = Row(key: K, sums: Sums)

  /** The rows in the order they were created. */
  type Table<K> = seq<Row<K>>

  ghost predicate UniqueKeys<K(!new)>(t: Table<K>) {
    t == [] || (t[|t| - 1].key !in KeysOf(t[..|t| - 1]) && UniqueKeys(t[..|t| - 1]))
  }

  ghost function KeysOf<K>(t: Table<K>): set<K> {
    if t == [] then {} else KeysOf(t[..|t| - 1]) + {t[|t| - 1].key}
  }

  /** `INSERT ... ON CONFLICT DO UPDATE`: add to the row with this key, or create it. */
  function Upsert<K(==)>(t: Table<K>, k: K, s: Sums): Table<K> {
    if t == [] then [Row(k, s)]
    else
      var n := |t| - 1;
      if t[n].key == k then t[..n] + [Row(k, Plus(t[n].sums, s))]
      else Upsert(t[..n], k, s) + [t[n]]
  }

  /** `GROUP BY`: one row for each key, holding the sum of that key's rows. */
  function Collapse<K(==)>(rows: Table<K>): Table<K> {
    if rows == [] then []
    else
      var n := |rows| - 1;
      Upsert(Collapse(rows[..n]), rows[n].key, rows[n].sums)
  }

  /** The reference for every aggregate: what the rows with these keys add up to. */
  ghost function SumIn<K(!new)>(t: Table<K>, keys: iset<K>): Sums {
    if t == [] then ZERO
    else
      var n := |t| - 1;
      Plus(SumIn(t[..n], keys), if t[n].key in keys then t[n].sums else ZERO)
  }

  lemma SumInSnoc<K(!new)>(t: Table<K>, r: Row<K>, keys: iset<K>)
    ensures SumIn(t + [r], keys) == Plus(SumIn(t, keys), if r.key in keys then r.sums else ZERO)
    ensures KeysOf(t + [r]) == KeysOf(t) + {r.key}
  {
    assert (t + [r])[..|t|] == t;
  }

  lemma {:induction false} SumInConcat<K(!new)>(a: Table<K>, b: Table<K>, keys: iset<K>)
    ensures SumIn(a + b, keys) == Plus(SumIn(a, keys), SumIn(b, keys))
    decreases |b|
  {
    if b == [] {
      assert a + b == a;
    } else {
      var n := |b| - 1;
      SumInConcat(a, b[..n], keys);
      SumInSnoc(a + b[..n], b[n], keys);
      SumInSnoc(b[..n], b[n], keys);
      hide SumIn;
      assert b == b[..n] + [b[n]];
      ConcatAssociates(a, b[..n], [b[n]]);
    }
  }

  /** An upsert changes the sum over any set of keys by what was added, if its key is in the set. */
  lemma {:induction false} UpsertAddsOnce<K(!new)>(t: Table<K>, k: K, s: Sums, keys: iset<K>)
    ensures SumIn(Upsert(t, k, s), keys) == Plus(SumIn(t, keys), if k in keys then s else ZERO)
    ensures KeysOf(Upsert(t, k, s)) == KeysOf(t) + {k}
  {
    if t == [] {
      SumInSnoc([], Row(k, s), keys);
    } else {
      var n := |t| - 1;
      if t[n].key == k {
        SumInSnoc(t[..n], Row(k, Plus(t[n].sums, s)), keys);
      } else {
        UpsertAddsOnce(t[..n], k, s, keys);
        SumInSnoc(Upsert(t[..n], k, s), t[n], keys);
      }
    }
  }

  lemma {:induction false} KeysOfMeaning<K>(t: Table<K>, k: K)
    ensures k in KeysOf(t) <==> exists i :: 0 <= i < |t| && t[i].key == k
  {
    if t != [] {
      var n := |t| - 1;
      KeysOfMeaning(t[..n], k);
      if i :| 0 <= i < n && t[..n][i].key == k {
        assert t[i].key == k;
      }
      if i :| 0 <= i < |t| && t[i].key == k {
        assert i < n ==> t[..n][i].key == k;
      }
    }
  }

  lemma {:induction false} UniqueKeysMeaning<K(!new)>(t: Table<K>, i: nat, j: nat)
    requires UniqueKeys(t) && i < j < |t|
    ensures t[i].key != t[j].key
  {
    if j == |t| - 1 {
      KeysOfMeaning(t[..j], t[j].key);
      assert t[..j][i] == t[i];
    } else {
      UniqueKeysMeaning(t[..|t| - 1], i, j);
    }
  }

  lemma {:induction false} UpsertKeepsKeysUnique<K(!new)>(t: Table<K>, k: K, s: Sums)
    requires UniqueKeys(t)
    ensures UniqueKeys(Upsert(t, k, s))
  {
    var u := Upsert(t, k, s);
    if t != [] {
      var n := |t| - 1;
      assert u[..|u| - 1] == if t[n].key == k then t[..n] else Upsert(t[..n], k, s);
      UpsertKeepsKeysUnique(t[..n], k, s);
      UpsertAddsOnce(t[..n], k, s, iset{});
    }
  }

  /** Grouping keeps the sum over every set of keys, and has a row for exactly the keys met. */
  lemma {:induction false} CollapseConserves<K(!new)>(rows: Table<K>, keys: iset<K>)
    ensures SumIn(Collapse(rows), keys) == SumIn(rows, keys)
    ensures KeysOf(Collapse(rows)) == KeysOf(rows)
  {
    if rows != [] {
      var n := |rows| - 1;
      CollapseConserves(rows[..n], keys);
      UpsertAddsOnce(Collapse(rows[..n]), rows[n].key, rows[n].sums, keys);
    }
  }

  lemma {:induction false} CollapseHasUniqueKeys<K(!new)>(rows: Table<K>)
    ensures UniqueKeys(Collapse(rows))
  {
    if rows != [] {
      var n := |rows| - 1;
      CollapseHasUniqueKeys(rows[..n]);
      UpsertKeepsKeysUnique(Collapse(rows[..n]), rows[n].key, rows[n].sums);
    }
  }

  lemma {:induction false} UnmetKeysSumToZero<K(!new)>(t: Table<K>, keys: iset<K>)
    requires forall k :: k in KeysOf(t) ==> k !in keys
    ensures SumIn(t, keys) == ZERO
  {
    if t != [] {
      UnmetKeysSumToZero(t[..|t| - 1], keys);
    }
  }

  /** In a table with unique keys the sum over one key is that key's row. */
  lemma {:induction false} SumOfOneKeyIsItsRow<K(!new)>(t: Table<K>, i: nat, keys: iset<K>)
    requires UniqueKeys(t) && i < |t| && keys == iset{t[i].key}
    ensures SumIn(t, keys) == t[i].sums
  {
    var n := |t| - 1;
    if i < n {
      UniqueKeysMeaning(t, i, n);
      SumOfOneKeyIsItsRow(t[..n], i, keys);
    } else {
      UnmetKeysSumToZero(t[..n], keys);
    }
  }

  // ---- The tables of this store ----

  /** A usage record; `details` stands for the columns that are stored but never aggregated. */
  datatype UsageRecord = UsageRecord(
    tokenId: int, accountId: int, model: string,
    input: int, output: int, cacheCreation: int, cacheRead: int, details: string)

  datatype LogRow = LogRow(record: UsageRecord, createdAt: string)

  datatype DayKey = DayKey(day: string, tokenId: int, accountId: int, model: string)

  /** The contribution of one record to the roll-up of a day. */
  function Contribution(day: string, r: UsageRecord): Row<DayKey> {
    Row(DayKey(day, r.tokenId, r.accountId, r.model), Sums(r.input, r.output, r.cacheCreation, r.cacheRead, 1))
  }

  ghost function Contributions(day: string, records: seq<UsageRecord>): Table<DayKey> {
    if records == [] then []
    else Contributions(day, records[..|records| - 1]) + [Contribution(day, records[|records| - 1])]
  }

  ghost function LoggedAt(now: string, records: seq<UsageRecord>): seq<LogRow> {
    if records == [] then []
    else LoggedAt(now, records[..|records| - 1]) + [LogRow(records[|records| - 1], now)]
  }

  /** `a <= b` for strings, as SQL compares them. */
  predicate AtMost(a: string, b: string) {
    a == [] || (b != [] && (a[0] < b[0] || (a[0] == b[0] && AtMost(a[1..], b[1..]))))
  }

  function KeptLogs(logs: seq<LogRow>, cutoff: string): seq<LogRow> {
    if logs == [] then []
    else
      var n := |logs| - 1;
      KeptLogs(logs[..n], cutoff) + if AtMost(cutoff, logs[n].createdAt) then [logs[n]] else []
  }

  /** Exactly the rows from the cutoff on stay, as often as they were there. */
  lemma {:induction false} PruningKeepsExactlyTheRecent(logs: seq<LogRow>, cutoff: string, row: LogRow)
    ensures multiset(KeptLogs(logs, cutoff))[row] == if AtMost(cutoff, row.createdAt) then multiset(logs)[row] else 0
    decreases |logs|
  {
    if logs != [] {
      hide AtMost;
      var n := |logs| - 1;
      PruningKeepsExactlyTheRecent(logs[..n], cutoff, row);
      assert logs == logs[..n] + [logs[n]];
    }
  }

  /** And they stay in their order: pruning works piece by piece. */
  lemma {:induction false} PruningKeepsOrder(a: seq<LogRow>, b: seq<LogRow>, cutoff: string)
    ensures KeptLogs(a + b, cutoff) == KeptLogs(a, cutoff) + KeptLogs(b, cutoff)
    decreases |b|
  {
    hide AtMost;
    if b == [] {
      assert a + b == a;
    } else {
      var n := |b| - 1;
      PruningKeepsOrder(a, b[..n], cutoff);
      assert (a + b)[..|a| + n] == a + b[..n] && (a + b)[|a| + n] == b[n];
      ConcatAssociates(
        KeptLogs(a, cutoff), KeptLogs(b[..n], cutoff), if AtMost(cutoff, b[n].createdAt) then [b[n]] else []);
    }
  }

  /** What the statements for one more record add. */
  lemma OneMoreRecord(
      logs: seq<LogRow>, committed: Table<DayKey>, records: seq<UsageRecord>, day: string, now: string, i: nat)
    requires i < |records|
    ensures logs + LoggedAt(now, records[..i + 1]) == logs + LoggedAt(now, records[..i]) + [LogRow(records[i], now)]
    ensures var c := Contribution(day, records[i]);
      Collapse(committed + Contributions(day, records[..i + 1])) ==
        Upsert(Collapse(committed + Contributions(day, records[..i])), c.key, c.sums)
  {
    hide Upsert, Contribution, Collapse;
    var c, before := Contribution(day, records[i]), Contributions(day, records[..i]);
    assert records[..i + 1][..i] == records[..i];
    ConcatAssociates(logs, LoggedAt(now, records[..i]), [LogRow(records[i], now)]);
    ConcatAssociates(committed, before, [c]);
    CollapseSnoc(committed + before, c);
  }

  lemma CollapseSnoc<K>(rows: Table<K>, row: Row<K>)
    ensures Collapse(rows + [row]) == Upsert(Collapse(rows), row.key, row.sums)
  {
    assert (rows + [row])[..|rows|] == rows;
  }

  // ---- The records themselves ----

  /** A committed record, and the day it was committed on. */
  datatype Dated = Dated(day: string, record: UsageRecord)

  ghost function DatedAll(day: string, records: seq<UsageRecord>): seq<Dated> {
    if records == [] then []
    else DatedAll(day, records[..|records| - 1]) + [Dated(day, records[|records| - 1])]
  }

  /** What a history of records has contributed. */
  ghost function Entries(history: seq<Dated>): Table<DayKey> {
    if history == [] then []
    else
      var n := |history| - 1;
      Entries(history[..n]) + [Contribution(history[n].day, history[n].record)]
  }

  lemma {:induction false} EntriesOfBatch(history: seq<Dated>, day: string, records: seq<UsageRecord>)
    ensures Entries(history + DatedAll(day, records)) == Entries(history) + Contributions(day, records)
    decreases |records|
  {
    hide Contribution;
    if records == [] {
      assert history + [] == history && Entries(history) + [] == Entries(history);
    } else {
      var n := |records| - 1;
      EntriesOfBatch(history, day, records[..n]);
      var front, last := history + DatedAll(day, records[..n]), Dated(day, records[n]);
      ConcatAssociates(history, DatedAll(day, records[..n]), [last]);
      assert (front + [last])[..|front|] == front;
      ConcatAssociates(Entries(history), Contributions(day, records[..n]), [Contribution(day, records[n])]);
    }
  }

  /** A batch is logged and remembered record by record, in order. */
  lemma {:induction false} BatchIsLoggedInOrder(day: string, now: string, records: seq<UsageRecord>, i: nat)
    requires i < |records|
    ensures |LoggedAt(now, records)| == |records| && LoggedAt(now, records)[i] == LogRow(records[i], now)
    ensures |DatedAll(day, records)| == |records| && DatedAll(day, records)[i] == Dated(day, records[i])
    decreases |records|
  {
    if |records| > 1 {
      BatchIsLoggedInOrder(day, now, records[..|records| - 1], if i < |records| - 1 then i else 0);
    }
  }

  lemma NothingCommitted(day: string, now: string)
    ensures DatedAll(day, []) == [] && Contributions(day, []) == [] && LoggedAt(now, []) == []
  {
  }

  /** What the picked records add up to in one of their own columns. */
  ghost function TotalOf(history: seq<Dated>, pick: iset<Dated>, column: UsageRecord -> int): int {
    if history == [] then 0
    else
      var n := |history| - 1;
      TotalOf(history[..n], pick, column) + if history[n] in pick then column(history[n].record) else 0
  }

  /** Column by column, with the picked records counted as requests. */
  ghost predicate SumsUp(sums: Sums, history: seq<Dated>, pick: iset<Dated>) {
    && sums.input == TotalOf(history, pick, (r: UsageRecord) => r.input)
    && sums.output == TotalOf(history, pick, (r: UsageRecord) => r.output)
    && sums.cacheCreation == TotalOf(history, pick, (r: UsageRecord) => r.cacheCreation)
    && sums.cacheRead == TotalOf(history, pick, (r: UsageRecord) => r.cacheRead)
    && sums.requests == TotalOf(history, pick, (r: UsageRecord) => 1)
  }

  /** The records that fall under a daily row. */
  ghost function RecordsUnder(key: DayKey): iset<Dated> {
    iset d: Dated | d.day == key.day && d.record.tokenId == key.tokenId
      && d.record.accountId == key.accountId && d.record.model == key.model
  }

  ghost function RecordsUnderAny(keys: iset<DayKey>): iset<Dated> {
    iset d: Dated | DayKey(d.day, d.record.tokenId, d.record.accountId, d.record.model) in keys
  }

  lemma {:induction false} EntriesSumUp(history: seq<Dated>, keys: iset<DayKey>)
    ensures SumsUp(SumIn(Entries(history), keys), history, RecordsUnderAny(keys))
  {
    if history != [] {
      var n := |history| - 1;
      EntriesSumUp(history[..n], keys);
      SumInSnoc(Entries(history[..n]), Contribution(history[n].day, history[n].record), keys);
      hide SumIn;
    }
  }

  /** Each daily row sums the columns of exactly the records with its day, token, account and model. */
  lemma DailyRowSumsItsRecords(history: seq<Dated>, i: nat)
    requires i < |Collapse(Entries(history))|
    ensures var row := Collapse(Entries(history))[i];
      SumsUp(row.sums, history, RecordsUnder(row.key))
  {
    hide SumsUp, SumIn;
    var row := Collapse(Entries(history))[i];
    DailyRowIsItsRecords(Entries(history), i);
    EntriesSumUp(history, iset{row.key});
    assert RecordsUnderAny(iset{row.key}) == RecordsUnder(row.key);
  }

  class UsageStore {
    var logs: seq<LogRow>
    var daily: Table<DayKey>
    // Every committed record, and what each contributed, in order; pruning does not touch them.
    ghost var history: seq<Dated>
    ghost var committed: Table<DayKey>

    /** The roll-up is the group-by of everything committed. */
    ghost predicate Valid()
      reads this
    {
      daily == Collapse(committed) && committed == Entries(history)
    }

    constructor ()
      ensures Valid() && logs == [] && daily == [] && committed == [] && history == []
    {
      logs, daily, committed, history := [], [], [], [];
    }

    /**
     * The statements of one transaction, numbered from one, two per record; nothing is stored yet.
     * `failAt` is the statement that fails, if any.
     */
    method Execute(records: seq<UsageRecord>, day: string, now: string, failAt: Option<nat>)
      returns (ok: bool, txLogs: seq<LogRow>, txDaily: Table<DayKey>)
      requires Valid() && failAt != Some(0)
      ensures ok <==> failAt.None? || failAt.value > 2 * |records|
      ensures ok ==> txLogs == logs + LoggedAt(now, records)
      ensures ok ==> txDaily == Collapse(committed + Contributions(day, records))
    {
      hide Upsert, Contribution, Collapse;
      txLogs, txDaily := logs, daily;
      assert committed + [] == committed && logs + [] == logs;
      for i := 0 to |records|
        invariant failAt.Some? ==> failAt.value > 2 * i
        invariant txLogs == logs + LoggedAt(now, records[..i])
        invariant txDaily == Collapse(committed + Contributions(day, records[..i]))
      {
        if failAt == Some(2 * i + 1) {
          return false, txLogs, txDaily;
        }
        if failAt == Some(2 * i + 2) {
          return false, txLogs, txDaily;
        }
        var c := Contribution(day, records[i]);
        OneMoreRecord(logs, committed, records, day, now, i);
        txLogs := txLogs + [LogRow(records[i], now)];
        txDaily := Upsert(txDaily, c.key, c.sums);
      }
      assert records[..|records|] == records;
      ok := true;
    }

    /** Begin, the statements, commit: either everything is stored or nothing. */
    method BatchInsertAndRollup(records: seq<UsageRecord>, day: string, now: string, failAt: Option<nat>)
      returns (ok: bool)
      requires Valid()
      modifies this
      ensures Valid()
      ensures ok <==> records == [] || failAt.None? || failAt.value > 2 * |records| + 1
      ensures committed == if ok then old(committed) + Contributions(day, records) else old(committed)
      ensures history == if ok then old(history) + DatedAll(day, records) else old(history)
      ensures logs == if ok then old(logs) + LoggedAt(now, records) else old(logs)
    {
      EntriesOfBatch(history, day, records);
      NothingCommitted(day, now);
      hide Entries, Contributions, DatedAll, LoggedAt, Collapse;
      if records == [] {
        assert logs + [] == logs && committed + [] == committed && history + [] == history;
        return true;
      }
      if failAt == Some(0) {
        return false;
      }
      var executed, txLogs, txDaily := Execute(records, day, now, failAt);
      if !executed || failAt == Some(2 * |records| + 1) {
        return false;
      }
      logs, daily, committed := txLogs, txDaily, committed + Contributions(day, records);
      history := history + DatedAll(day, records);
      ok := true;
    }

    /** Deletes old log rows; the roll-up stays. */
    method PruneLogsBefore(cutoff: string)
      requires Valid()
      modifies this`logs
      ensures Valid() && logs == KeptLogs(old(logs), cutoff)
    {
      logs := KeptLogs(logs, cutoff);
    }

    /** The rows of one grouping, most input tokens first; ties are in no promised order. */
    method Stats(group: Grouping, start: Option<string>, end: Option<string>) returns (rows: Table<GroupKey>)
      requires Valid()
      ensures multiset(rows) == multiset(Statistics(daily, group, start, end)) && Descending(rows)
      ensures UniqueKeys(rows)
      ensures forall keys :: SumIn(rows, keys) == SumIn(committed, Selected(group, start, end, keys))
      // Each row sums the columns of exactly the records of its group.
      ensures forall row :: row in rows ==>
        IsKeyOf(group, row.key) && SumsUp(row.sums, history, RecordsOfGroup(row.key, start, end))
    {
      hide Entries, SumsUp, RecordsOfGroup, IsKeyOf, Collapse, Regrouped, InRange, SumIn, UniqueKeys, Descending,
        Ordered, Selected;
      var grouped := Regrouped(group, InRange(daily, start, end));
      rows := Collapse(grouped);
      if group == Total && rows == [] {
        rows := [Row(TheTotal, ZERO)];
      }
      StatisticsHaveUniqueKeys(daily, group, start, end);
      OrderedArranges(rows);
      forall keys ensures SumIn(Ordered(rows), keys) == SumIn(committed, Selected(group, start, end, keys)) {
        StatisticsAreDirectSums(committed, group, start, end, keys);
        OrderedConserves(rows, keys);
      }
      forall row | row in Ordered(rows)
        ensures IsKeyOf(group, row.key) && SumsUp(row.sums, history, RecordsOfGroup(row.key, start, end))
      {
        assert row in multiset(Ordered(rows)) && row in rows;
        StatisticsSumTheirRecords(history, group, start, end, row);
      }
      rows := Ordered(rows);
    }
  }

  // ---- Statistics ----

  datatype Grouping = ByToken | ByAccount | ByModel | ByDay | Total

  datatype GroupKey = Token(id: int) | Account(id: int) | Model(name: string) | Day(day: string) | TheTotal

  function GroupOf(g: Grouping, k: DayKey): GroupKey {
    match g
    case ByToken => Token(k.tokenId)
    case ByAccount => Account(k.accountId)
    case ByModel => Model(k.model)
    case ByDay => Day(k.day)
    case Total => TheTotal
  }

  predicate DayIn(day: string, start: Option<string>, end: Option<string>) {
    (start.Some? ==> AtMost(start.value, day)) && (end.Some? ==> AtMost(day, end.value))
  }

  function InRange(daily: Table<DayKey>, start: Option<string>, end: Option<string>): Table<DayKey> {
    if daily == [] then []
    else
      var n := |daily| - 1;
      InRange(daily[..n], start, end) + if DayIn(daily[n].key.day, start, end) then [daily[n]] else []
  }

  function Regrouped(g: Grouping, rows: Table<DayKey>): Table<GroupKey> {
    if rows == [] then []
    else
      var n := |rows| - 1;
      Regrouped(g, rows[..n]) + [Row(GroupOf(g, rows[n].key), rows[n].sums)]
  }

  /** Ungrouped totals come as one row even when nothing matches. */
  function Statistics(daily: Table<DayKey>, g: Grouping, start: Option<string>, end: Option<string>): Table<GroupKey> {
    var rows := Collapse(Regrouped(g, InRange(daily, start, end)));
    if g == Total && rows == [] then [Row(TheTotal, ZERO)] else rows
  }

  lemma StatisticsHaveUniqueKeys(daily: Table<DayKey>, g: Grouping, start: Option<string>, end: Option<string>)
    ensures UniqueKeys(Statistics(daily, g, start, end))
  {
    CollapseHasUniqueKeys(Regrouped(g, InRange(daily, start, end)));
  }

  // ---- `ORDER BY` the input tokens, descending ----

  ghost predicate Descending<K>(t: Table<K>) {
    forall i, j :: 0 <= i < j < |t| ==> t[i].sums.input >= t[j].sums.input
  }

  function Placed<K>(t: Table<K>, r: Row<K>): Table<K> {
    if t == [] then [r]
    else
      var n := |t| - 1;
      if t[n].sums.input >= r.sums.input then t + [r] else Placed(t[..n], r) + [t[n]]
  }

  function Ordered<K>(t: Table<K>): Table<K> {
    if t == [] then [] else Placed(Ordered(t[..|t| - 1]), t[|t| - 1])
  }

  lemma DescendingSnoc<K>(t: Table<K>, last: Row<K>)
    requires Descending(t) && forall x :: x in t ==> x.sums.input >= last.sums.input
    ensures Descending(t + [last])
  {
  }

  lemma DescendingFront<K>(t: Table<K>)
    requires Descending(t) && t != []
    ensures Descending(t[..|t| - 1])
  {
  }

  lemma {:induction false} PlacedDescends<K>(t: Table<K>, r: Row<K>)
    requires Descending(t)
    ensures Descending(Placed(t, r)) && multiset(Placed(t, r)) == multiset(t) + multiset{r}
    decreases |t|
  {
    if t != [] {
      var n := |t| - 1;
      assert t == t[..n] + [t[n]];
      assert forall x :: x in t ==> x.sums.input >= t[n].sums.input;
      if t[n].sums.input >= r.sums.input {
        DescendingSnoc(t, r);
        hide Descending;
      } else {
        hide Descending;
        var front := Placed(t[..n], r);
        DescendingFront(t);
        PlacedDescends(t[..n], r);
        forall x | x in front ensures x.sums.input >= t[n].sums.input {
          assert x in multiset(front);
          assert x == r || x in t[..n];
        }
        DescendingSnoc(front, t[n]);
      }
    }
  }

  lemma {:induction false} PlacedKeys<K(!new)>(t: Table<K>, r: Row<K>)
    ensures KeysOf(Placed(t, r)) == KeysOf(t) + {r.key}
    ensures UniqueKeys(t) && r.key !in KeysOf(t) ==> UniqueKeys(Placed(t, r))
    decreases |t|
  {
    if t != [] {
      var n := |t| - 1;
      if t[n].sums.input >= r.sums.input {
        assert (t + [r])[..|t|] == t;
      } else {
        var front := Placed(t[..n], r);
        PlacedKeys(t[..n], r);
        assert (front + [t[n]])[..|front|] == front;
      }
    } else {
      assert [r][..0] == [];
    }
  }

  lemma OrderedArranges<K(!new)>(t: Table<K>)
    ensures Descending(Ordered(t)) && multiset(Ordered(t)) == multiset(t) && KeysOf(Ordered(t)) == KeysOf(t)
    ensures UniqueKeys(t) ==> UniqueKeys(Ordered(t))
  {
    hide *;
    OrderedDescends(t);
    OrderedKeepsKeys(t);
  }

  lemma {:induction false} OrderedDescends<K>(t: Table<K>)
    ensures Descending(Ordered(t)) && multiset(Ordered(t)) == multiset(t)
    decreases |t|
  {
    if t != [] {
      hide Placed, Descending;
      var n := |t| - 1;
      OrderedDescends(t[..n]);
      PlacedDescends(Ordered(t[..n]), t[n]);
      assert t == t[..n] + [t[n]];
    }
  }

  lemma {:induction false} OrderedKeepsKeys<K(!new)>(t: Table<K>)
    ensures KeysOf(Ordered(t)) == KeysOf(t)
    ensures UniqueKeys(t) ==> UniqueKeys(Ordered(t))
    decreases |t|
  {
    if t != [] {
      hide Placed;
      var n := |t| - 1;
      OrderedKeepsKeys(t[..n]);
      PlacedKeys(Ordered(t[..n]), t[n]);
    }
  }

  lemma {:induction false} PlacedAddsOnce<K(!new)>(t: Table<K>, r: Row<K>, keys: iset<K>)
    ensures SumIn(Placed(t, r), keys) == SumIn(t + [r], keys)
    decreases |t|
  {
    if t != [] {
      var n := |t| - 1;
      if t[n].sums.input < r.sums.input {
        PlacedAddsOnce(t[..n], r, keys);
        SumInSnoc(Placed(t[..n], r), t[n], keys);
        SumInSnoc(t[..n], r, keys);
        SumInSnoc(t, r, keys);
      }
    } else {
      assert [] + [r] == [r];
    }
  }

  lemma {:induction false} OrderedConserves<K(!new)>(t: Table<K>, keys: iset<K>)
    ensures SumIn(Ordered(t), keys) == SumIn(t, keys)
    decreases |t|
  {
    if t != [] {
      var n := |t| - 1;
      OrderedConserves(t[..n], keys);
      PlacedAddsOnce(Ordered(t[..n]), t[n], keys);
      SumInSnoc(Ordered(t[..n]), t[n], keys);
      hide Placed;
    }
  }

  /** The daily keys a set of groups stands for. */
  ghost function Selected(g: Grouping, start: Option<string>, end: Option<string>, keys: iset<GroupKey>): iset<DayKey> {
    iset k: DayKey | DayIn(k.day, start, end) && GroupOf(g, k) in keys
  }

  lemma {:induction false} RegroupingConserves(t: Table<DayKey>, g: Grouping, start: Option<string>,
      end: Option<string>, keys: iset<GroupKey>)
    ensures SumIn(Regrouped(g, InRange(t, start, end)), keys) == SumIn(t, Selected(g, start, end, keys))
  {
    if t != [] {
      var n := |t| - 1;
      RegroupingConserves(t[..n], g, start, end, keys);
      var front := InRange(t[..n], start, end);
      if DayIn(t[n].key.day, start, end) {
        assert InRange(t, start, end) == front + [t[n]] && (front + [t[n]])[..|front|] == front;
        SumInSnoc(Regrouped(g, front), Row(GroupOf(g, t[n].key), t[n].sums), keys);
      } else {
        assert InRange(t, start, end) == front;
      }
    }
  }

  lemma StatisticsConserve(daily: Table<DayKey>, g: Grouping, start: Option<string>, end: Option<string>,
      keys: iset<GroupKey>)
    ensures SumIn(Statistics(daily, g, start, end), keys) == SumIn(daily, Selected(g, start, end, keys))
  {
    var grouped := Regrouped(g, InRange(daily, start, end));
    CollapseConserves(grouped, keys);
    RegroupingConserves(daily, g, start, end, keys);
    if Collapse(grouped) == [] {
      SumInSnoc([], Row(TheTotal, ZERO), keys);
      assert [] + [Row(TheTotal, ZERO)] == [Row(TheTotal, ZERO)];
    }
  }

  /**
   * Two levels of grouping equal one: whatever groups are picked, the statistics read from the
   * roll-up add up to exactly the committed records that fall into them.
   */
  lemma StatisticsAreDirectSums(committed: Table<DayKey>, g: Grouping, start: Option<string>, end: Option<string>,
      keys: iset<GroupKey>)
    ensures SumIn(Statistics(Collapse(committed), g, start, end), keys) ==
      SumIn(committed, Selected(g, start, end, keys))
  {
    var daily := Collapse(committed);
    CollapseConserves(committed, Selected(g, start, end, keys));
    StatisticsConserve(daily, g, start, end, keys);
  }

  predicate AnyGroup(k: GroupKey) {
    true
  }

  ghost function Everything(): iset<GroupKey> {
    iset k: GroupKey | AnyGroup(k)
  }

  /** The key a grouping gives its rows. */
  predicate IsKeyOf(g: Grouping, key: GroupKey) {
    match g
    case ByToken => key.Token?
    case ByAccount => key.Account?
    case ByModel => key.Model?
    case ByDay => key.Day?
    case Total => key.TheTotal?
  }

  predicate BelongsTo(d: Dated, key: GroupKey) {
    match key
    case Token(id) => d.record.tokenId == id
    case Account(id) => d.record.accountId == id
    case Model(name) => d.record.model == name
    case Day(day) => d.day == day
    case TheTotal => true
  }

  /** The records in range that fall into a group. */
  ghost function RecordsOfGroup(key: GroupKey, start: Option<string>, end: Option<string>): iset<Dated> {
    iset d: Dated | (start.Some? ==> AtMost(start.value, d.day)) && (end.Some? ==> AtMost(d.day, end.value))
      && BelongsTo(d, key)
  }

  lemma {:induction false} RegroupedKeys(t: Table<DayKey>, g: Grouping, key: GroupKey)
    requires key in KeysOf(Regrouped(g, t))
    ensures IsKeyOf(g, key)
  {
    if t != [] {
      var n := |t| - 1;
      SumInSnoc(Regrouped(g, t[..n]), Row(GroupOf(g, t[n].key), t[n].sums), iset{});
      if key in KeysOf(Regrouped(g, t[..n])) {
        RegroupedKeys(t[..n], g, key);
      }
    }
  }

  lemma StatisticsKeys(daily: Table<DayKey>, g: Grouping, start: Option<string>, end: Option<string>, i: nat)
    requires i < |Statistics(daily, g, start, end)|
    ensures IsKeyOf(g, Statistics(daily, g, start, end)[i].key)
  {
    hide InRange, Regrouped;
    var grouped := Regrouped(g, InRange(daily, start, end));
    if Collapse(grouped) != [] {
      var key := Collapse(grouped)[i].key;
      CollapseConserves(grouped, iset{});
      KeysOfMeaning(Collapse(grouped), key);
      RegroupedKeys(InRange(daily, start, end), g, key);
    }
  }

  lemma SelectedRecords(g: Grouping, start: Option<string>, end: Option<string>, key: GroupKey)
    requires IsKeyOf(g, key)
    ensures RecordsUnderAny(Selected(g, start, end, iset{key})) == RecordsOfGroup(key, start, end)
  {
    hide AtMost;
  }

  /** Each row of the statistics sums the columns of exactly the records in range that fall into its group. */
  lemma StatisticsSumTheirRecords(
      history: seq<Dated>, g: Grouping, start: Option<string>, end: Option<string>, row: Row<GroupKey>)
    requires row in Statistics(Collapse(Entries(history)), g, start, end)
    ensures IsKeyOf(g, row.key) && SumsUp(row.sums, history, RecordsOfGroup(row.key, start, end))
  {
    hide SumsUp, SumIn, Statistics, Selected, RecordsUnderAny, RecordsOfGroup, IsKeyOf, Collapse, Entries;
    var t := Statistics(Collapse(Entries(history)), g, start, end);
    var i :| 0 <= i < |t| && t[i] == row;
    StatisticsHaveUniqueKeys(Collapse(Entries(history)), g, start, end);
    SumOfOneKeyIsItsRow(t, i, iset{row.key});
    StatisticsAreDirectSums(Entries(history), g, start, end, iset{row.key});
    StatisticsKeys(Collapse(Entries(history)), g, start, end, i);
    SelectedRecords(g, start, end, row.key);
    EntriesSumUp(history, Selected(g, start, end, iset{row.key}));
  }

  lemma GroupHasItsRow(daily: Table<DayKey>, g: Grouping, start: Option<string>, end: Option<string>, k: DayKey)
    requires k in KeysOf(daily) && DayIn(k.day, start, end)
    ensures exists j ::
      0 <= j < |Statistics(daily, g, start, end)| && Statistics(daily, g, start, end)[j].key == GroupOf(g, k)
  {
    var rows := Regrouped(g, InRange(daily, start, end));
    RegroupedHasKey(daily, g, start, end, k);
    hide Regrouped, InRange, DayIn, Collapse, KeysOf, SumIn;
    CollapseConserves(rows, iset{});
    KeysOfMeaning(Collapse(rows), GroupOf(g, k));
    var j :| 0 <= j < |Collapse(rows)| && Collapse(rows)[j].key == GroupOf(g, k);
    assert Statistics(daily, g, start, end)[j].key == GroupOf(g, k);
  }

  /** And no record in range is without its row. */
  lemma EveryRecordHasItsRow(history: seq<Dated>, g: Grouping, start: Option<string>, end: Option<string>, i: nat)
    requires i < |history| && DayIn(history[i].day, start, end)
    ensures exists row :: row in Statistics(Collapse(Entries(history)), g, start, end) && BelongsTo(history[i], row.key)
  {
    hide Entries, DayIn, Collapse, KeysOf, SumIn, Statistics;
    var d := history[i];
    var k := DayKey(d.day, d.record.tokenId, d.record.accountId, d.record.model);
    EntryOf(history, i);
    var t := Collapse(Entries(history));
    CollapseConserves(Entries(history), iset{});
    GroupHasItsRow(t, g, start, end, k);
    var j :| 0 <= j < |Statistics(t, g, start, end)| && Statistics(t, g, start, end)[j].key == GroupOf(g, k);
    assert Statistics(t, g, start, end)[j] in Statistics(t, g, start, end);
  }

  lemma {:induction false} EntryOf(history: seq<Dated>, i: nat)
    requires i < |history|
    ensures DayKey(history[i].day, history[i].record.tokenId, history[i].record.accountId, history[i].record.model)
            in KeysOf(Entries(history))
  {
    var n := |history| - 1;
    SumInSnoc(Entries(history[..n]), Contribution(history[n].day, history[n].record), iset{});
    if i < n {
      EntryOf(history[..n], i);
    }
  }

  lemma {:induction false} RegroupedHasKey(
      t: Table<DayKey>, g: Grouping, start: Option<string>, end: Option<string>, k: DayKey)
    requires k in KeysOf(t) && DayIn(k.day, start, end)
    ensures GroupOf(g, k) in KeysOf(Regrouped(g, InRange(t, start, end)))
  {
    var n := |t| - 1;
    var front := InRange(t[..n], start, end);
    if DayIn(t[n].key.day, start, end) {
      assert InRange(t, start, end) == front + [t[n]] && (front + [t[n]])[..|front|] == front;
      SumInSnoc(Regrouped(g, front), Row(GroupOf(g, t[n].key), t[n].sums), iset{});
    } else {
      assert InRange(t, start, end) == front;
    }
    if k != t[n].key {
      RegroupedHasKey(t[..n], g, start, end, k);
    }
  }

  /** Every grouping of the same range adds up to the same total. */
  lemma GroupingsAgreeOnTheTotal(committed: Table<DayKey>, g: Grouping, h: Grouping, start: Option<string>,
      end: Option<string>)
    ensures SumIn(Statistics(Collapse(committed), g, start, end), Everything()) ==
      SumIn(Statistics(Collapse(committed), h, start, end), Everything())
  {
    StatisticsAreDirectSums(committed, g, start, end, Everything());
    StatisticsAreDirectSums(committed, h, start, end, Everything());
    assert Selected(g, start, end, Everything()) == Selected(h, start, end, Everything());
  }

  /** Each daily row holds the sums and the count of the committed records with its key. */
  lemma DailyRowIsItsRecords(committed: Table<DayKey>, i: nat)
    requires i < |Collapse(committed)|
    ensures var row := Collapse(committed)[i];
      row.sums == SumIn(committed, iset{row.key}) && exists j :: 0 <= j < |committed| && committed[j].key == row.key
  {
    var t := Collapse(committed);
    CollapseConserves(committed, iset{t[i].key});
    CollapseHasUniqueKeys(committed);
    SumOfOneKeyIsItsRow(t, i, iset{t[i].key});
    KeysOfMeaning(t, t[i].key);
    KeysOfMeaning(committed, t[i].key);
  }
}

/** `writer_loop` and `flush` of `usage_recorder.rs`. */
module UsageWriters {
  import opened Prelude
  import opened UsageStores

  const BATCH_SIZE: nat := 100

  /** A flushed batch, the day it was flushed on, and whether the database took it. */
  datatype Batch = Batch(records: seq<UsageRecord>, day: string, taken: bool)

  ghost function RecordsOf(batches: seq<Batch>): seq<UsageRecord> {
    if batches == [] then [] else RecordsOf(batches[..|batches| - 1]) + batches[|batches| - 1].records
  }

  /** What the batches the database took contribute to the roll-up. */
  ghost function TakenBy(batches: seq<Batch>): Table<DayKey> {
    if batches == [] then []
    else
      var last := batches[|batches| - 1];
      TakenBy(batches[..|batches| - 1]) + if last.taken then Contributions(last.day, last.records) else []
  }

  /** Whether the database takes a batch, given the statement that fails. */
  ghost predicate Takes(batch: seq<UsageRecord>, failAt: Option<nat>) {
    failAt.None? || failAt.value > 2 * |batch| + 1
  }

  /** The batches after a flush: none more when nothing was buffered. */
  ghost function Flushed(batches: seq<Batch>, buf: seq<UsageRecord>, day: string, failAt: Option<nat>): seq<Batch> {
    if buf == [] then batches else batches + [Batch(buf, day, Takes(buf, failAt))]
  }

  ghost predicate Accounts(
      base: Table<DayKey>, received: seq<UsageRecord>, flushed: seq<Batch>, buf: seq<UsageRecord>,
      committed: Table<DayKey>) {
    && received == RecordsOf(flushed) + buf
    && (forall b :: b in flushed ==> 0 < |b.records| <= BATCH_SIZE)
    && committed == base + TakenBy(flushed)
  }

  lemma FlushKeepsAccounts(
      base: Table<DayKey>, received: seq<UsageRecord>, flushed: seq<Batch>, committed: Table<DayKey>, b: Batch)
    requires Accounts(base, received, flushed, b.records, committed) && 0 < |b.records| <= BATCH_SIZE
    ensures Accounts(base, received, flushed + [b], [],
                     if b.taken then committed + Contributions(b.day, b.records) else committed)
  {
    hide Contributions;
    BatchSnoc(flushed, b);
    hide RecordsOf, TakenBy;
    ConcatAssociates(base, TakenBy(flushed), Contributions(b.day, b.records));
    assert TakenBy(flushed) + [] == TakenBy(flushed);
    assert RecordsOf(flushed + [b]) + [] == RecordsOf(flushed + [b]);
  }

  class UsageWriter {
    const store: UsageStore
    // What the store held before this writer.
    ghost const base: Table<DayKey>
    var buf: seq<UsageRecord>
    // Everything received, and the batches flushed.
    ghost var received: seq<UsageRecord>
    ghost var flushed: seq<Batch>

    /**
     * Each received record is in exactly one flushed batch or still buffered, in arrival order,
     * and the store holds exactly what the taken batches contribute.
     */
    ghost predicate Accounted()
      reads this, store
    {
      store.Valid() && Accounts(base, received, flushed, buf, store.committed)
    }

    ghost predicate Valid()
      reads this, store
    {
      Accounted() && |buf| < BATCH_SIZE
    }

    constructor (store: UsageStore)
      requires store.Valid()
      ensures Valid() && this.store == store && base == store.committed && buf == [] && received == [] && flushed == []
    {
      this.store := store;
      base := store.committed;
      buf, received, flushed := [], [], [];
    }

    /** The buffer is cleared whether or not the database took the batch. */
    method Flush(day: string, now: string, failAt: Option<nat>)
      requires Accounted() && |buf| <= BATCH_SIZE
      modifies this`buf, this`flushed, store
      ensures Valid() && buf == []
      ensures flushed == Flushed(old(flushed), old(buf), day, failAt)
    {
      if buf == [] {
        return;
      }
      hide RecordsOf, TakenBy, Contributions, Collapse, Accounts, Entries, DatedAll, LoggedAt;
      var ok := store.BatchInsertAndRollup(buf, day, now, failAt);
      FlushKeepsAccounts(base, received, flushed, old(store.committed), Batch(buf, day, ok));
      flushed := flushed + [Batch(buf, day, ok)];
      buf := [];
    }

    method OnRecord(r: UsageRecord, day: string, now: string, failAt: Option<nat>)
      requires Valid()
      modifies this`buf, this`received, this`flushed, store
      ensures Valid() && received == old(received) + [r]
      ensures |old(buf)| + 1 < BATCH_SIZE ==> buf == old(buf) + [r] && flushed == old(flushed)
      ensures |old(buf)| + 1 == BATCH_SIZE ==>
        buf == [] && flushed == Flushed(old(flushed), old(buf) + [r], day, failAt)
    {
      ConcatAssociates(RecordsOf(flushed), buf, [r]);
      buf := buf + [r];
      received := received + [r];
      if |buf| >= BATCH_SIZE {
        Flush(day, now, failAt);
      }
    }

    method OnTick(day: string, now: string, failAt: Option<nat>)
      requires Valid()
      modifies this`buf, this`flushed, store
      ensures Valid() && buf == [] && received == RecordsOf(flushed) == old(received)
      ensures flushed == Flushed(old(flushed), old(buf), day, failAt)
    {
      if buf != [] {
        Flush(day, now, failAt);
      }
      assert RecordsOf(flushed) + [] == RecordsOf(flushed);
    }

    /** The channel closed: nothing stays behind in the buffer. */
    method OnClose(day: string, now: string, failAt: Option<nat>)
      requires Valid()
      modifies this`buf, this`flushed, store
      ensures Valid() && buf == [] && received == RecordsOf(flushed) == old(received)
      ensures flushed == Flushed(old(flushed), old(buf), day, failAt)
    {
      Flush(day, now, failAt);
      assert RecordsOf(flushed) + [] == RecordsOf(flushed);
    }
  }

  lemma BatchSnoc(batches: seq<Batch>, b: Batch)
    ensures RecordsOf(batches + [b]) == RecordsOf(batches) + b.records
    ensures TakenBy(batches + [b]) == TakenBy(batches) + if b.taken then Contributions(b.day, b.records) else []
  {
    assert (batches + [b])[..|batches|] == batches;
  }

  /**
   * Received to roll-up: each daily row holds what was there before and what the taken batches
   * contribute to its key.
   */
  lemma DailyRowsAreTheTakenBatches(base: Table<DayKey>, batches: seq<Batch>, i: nat)
    requires i < |Collapse(base + TakenBy(batches))|
    ensures var row := Collapse(base + TakenBy(batches))[i];
      row.sums == Plus(SumIn(base, iset{row.key}), SumIn(TakenBy(batches), iset{row.key}))
  {
    var row := Collapse(base + TakenBy(batches))[i];
    DailyRowIsItsRecords(base + TakenBy(batches), i);
    SumInConcat(base, TakenBy(batches), iset{row.key});
  }
}
