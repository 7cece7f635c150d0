/** `limited_cache.rs`: a map that forgets its oldest insertion, refined by one ordered list. */
module LimitedCaches {
  import opened Prelude

  // ---- The reference: entries in insertion order ----

  datatype Entry<K, V> = Entry(key: K, value: V)

  type Fifo<K, V> = seq<Entry<K, V>>

  function Position<K(==), V>(f: Fifo<K, V>, k: K): (i: nat)
    ensures i <= |f|
    ensures i < |f| ==> f[i].key == k
    ensures forall j :: 0 <= j < i ==> f[j].key != k
  {
    if f == [] || f[0].key == k then 0 else 1 + Position(f[1..], k)
  }

  function Lookup<K(==), V>(f: Fifo<K, V>, k: K): Option<V> {
    var i := Position(f, k);
    if i < |f| then Some(f[i].value) else None
  }

  /** Overwrites in place, or joins the back of the line and pushes the front out when that fills it. */
  function Put<K(==), V>(f: Fifo<K, V>, capacity: nat, k: K, v: V): Fifo<K, V> {
    var i := Position(f, k);
    if i < |f| then f[i := Entry(k, v)]
    else if |f| + 1 == capacity then (f + [Entry(k, v)])[1..]
    else f + [Entry(k, v)]
  }

  function Without<K(==), V>(f: Fifo<K, V>, k: K): Fifo<K, V> {
    var i := Position(f, k);
    if i < |f| then f[..i] + f[i + 1..] else f
  }

  ghost predicate DistinctKeys<K, V>(f: Fifo<K, V>) {
    forall i, j :: 0 <= i < j < |f| ==> f[i].key != f[j].key
  }

  lemma PositionIs<K, V>(f: Fifo<K, V>, i: nat)
    requires DistinctKeys(f) && i < |f|
    ensures Position(f, f[i].key) == i
  {
  }

  // ---- How the implementation's fields mirror the list ----

  /** The queue holds exactly the map's keys, once each, in the order of the list. */
  ghost predicate Same<K, V>(m: map<K, V>, queue: seq<K>, f: Fifo<K, V>) {
    && DistinctKeys(f)
    && |queue| == |f|
    && (forall i :: 0 <= i < |f| ==> queue[i] == f[i].key)
    && (forall i :: 0 <= i < |f| ==> f[i].key in m && m[f[i].key] == f[i].value)
    && (forall k :: k in m ==> k in queue)
  }

  /** `born[i]` is when the i-th entry was inserted as new: the front has been resident longest. */
  ghost predicate Ages(born: seq<nat>, clock: nat) {
    && (forall i :: 0 <= i < |born| ==> born[i] < clock)
    && (forall i, j :: 0 <= i < j < |born| ==> born[i] < born[j])
  }

  ghost predicate Current<K, V>(f: Fifo<K, V>, written: map<K, V>) {
    forall i :: 0 <= i < |f| ==> f[i].key in written && written[f[i].key] == f[i].value
  }

  lemma SameAfterPush<K, V>(m: map<K, V>, queue: seq<K>, f: Fifo<K, V>, k: K, v: V)
    requires Same(m, queue, f) && k !in m
    ensures Same(m[k := v], queue + [k], f + [Entry(k, v)])
  {
    forall x | x in m[k := v] ensures x in queue + [k] {
      if x != k {
        var i :| 0 <= i < |queue| && queue[i] == x;
        assert (queue + [k])[i] == x;
      } else {
        assert (queue + [k])[|queue|] == k;
      }
    }
  }

  lemma SameAfterDrop<K, V>(m: map<K, V>, queue: seq<K>, f: Fifo<K, V>, i: nat)
    requires Same(m, queue, f) && i < |f|
    ensures Same(m - {f[i].key}, queue[..i] + queue[i + 1..], f[..i] + f[i + 1..])
  {
    var rest := queue[..i] + queue[i + 1..];
    forall x | x in m - {f[i].key} ensures x in rest {
      var j :| 0 <= j < |queue| && queue[j] == x;
      assert rest[if j < i then j else j - 1] == x;
    }
  }

  lemma SameAfterOverwrite<K, V>(m: map<K, V>, queue: seq<K>, f: Fifo<K, V>, i: nat, v: V)
    requires Same(m, queue, f) && i < |f|
    ensures Same(m[f[i].key := v], queue, f[i := Entry(f[i].key, v)])
  {
  }

  lemma CurrentAfterDrop<K, V>(f: Fifo<K, V>, written: map<K, V>, i: nat)
    requires Current(f, written) && i < |f|
    ensures Current(f[..i] + f[i + 1..], written)
  {
  }

  lemma FrontMayGo<K, V>(m: map<K, V>, queue: seq<K>, f: Fifo<K, V>, written: map<K, V>)
    requires Same(m, queue, f) && Current(f, written) && f != []
    ensures Same(m - {f[0].key}, queue[1..], f[1..]) && Current(f[1..], written)
  {
    SameAfterDrop(m, queue, f, 0);
    CurrentAfterDrop(f, written, 0);
    assert queue[..0] + queue[1..] == queue[1..] && f[..0] + f[1..] == f[1..];
  }

  lemma FrontIsOldest(born: seq<nat>, clock: nat)
    requires Ages(born, clock) && born != []
    ensures Ages(born[1..], clock) && forall i :: 0 <= i < |born[1..]| ==> born[0] < born[1..][i]
  {
  }

  lemma AgesAfterPush(born: seq<nat>, clock: nat)
    requires Ages(born, clock)
    ensures Ages(born + [clock], clock + 1)
  {
  }

  lemma AgesAfterDrop(born: seq<nat>, clock: nat, i: nat)
    requires Ages(born, clock) && i < |born|
    ensures Ages(born[..i] + born[i + 1..], clock)
  {
  }

  lemma CurrentAfterPush<K, V>(f: Fifo<K, V>, written: map<K, V>, k: K, v: V)
    requires Current(f, written) && forall i :: 0 <= i < |f| ==> f[i].key != k
    ensures Current(f + [Entry(k, v)], written[k := v])
  {
  }

  lemma CurrentAfterOverwrite<K, V>(f: Fifo<K, V>, written: map<K, V>, i: nat, v: V)
    requires DistinctKeys(f) && Current(f, written) && i < |f|
    ensures Current(f[i := Entry(f[i].key, v)], written[f[i].key := v])
  {
  }

  // ---- The implementation ----

  class LimitedCache<K(==), V> {
    var entries: map<K, V>
    var oldest: seq<K>
    // The allocated capacity of `oldest`; a push into a full queue enlarges it.
    var capacity: nat
    ghost var fifo: Fifo<K, V>
    // When each resident entry was inserted as new, and the last value written to any key.
    ghost var clock: nat
    ghost var born: seq<nat>
    ghost var written: map<K, V>

    ghost predicate Valid()
      reads this
    {
      && Agrees() && Aged()
      && (|oldest| < capacity || |oldest| == capacity == 0)
    }

    ghost predicate Agrees()
      reads this`entries, this`oldest, this`fifo
    {
      Same(entries, oldest, fifo)
    }

    ghost predicate Aged()
      reads this`fifo, this`clock, this`born, this`written
    {
      |born| == |fifo| && Ages(born, clock) && Current(fifo, written)
    }

    constructor (granted: nat)
      ensures Valid() && fifo == [] && capacity == granted
    {
      entries, oldest, capacity := map[], [], granted;
      fifo, clock, born, written := [], 0, [], map[];
    }

    method Get(k: K) returns (v: Option<V>)
      requires Valid()
      ensures v == Lookup(fifo, k)
      ensures v.Some? ==> k in written && v.value == written[k]
    {
      v := if k in entries then Some(entries[k]) else None;
      if k in entries {
        ghost var i :| 0 <= i < |oldest| && oldest[i] == k;
        PositionIs(fifo, i);
      }
    }

    /** `grown` is the capacity the allocator provides when the queue was full. */
    method Insert(k: K, v: V, grown: nat)
      requires Valid() && grown > |oldest|
      modifies this
      ensures Valid()
      ensures capacity == if old(k !in entries && |oldest| == capacity) then grown else old(capacity)
      ensures fifo == Put(old(fifo), capacity, k, v)
      ensures old(k in entries) ==> oldest == old(oldest) && born == old(born) && clock == old(clock)
      ensures old(k !in entries) ==> var line := old(born) + [old(clock)];
        born == (if |line| == capacity then line[1..] else line) && clock == old(clock) + 1
      ensures written == old(written)[k := v]
    {
      if k in entries {
        Overwrite(k, v);
      } else {
        PushNew(k, v, grown);
      }
    }

    /** Editing starts from the default value when the key is absent. */
    method GetOrInsertDefaultAndEdit(k: K, default: V, edit: V -> V, grown: nat)
      requires Valid() && grown > |oldest|
      modifies this
      ensures Valid()
      ensures capacity == if old(k !in entries && |oldest| == capacity) then grown else old(capacity)
      ensures var before := Lookup(old(fifo), k);
        fifo == Put(old(fifo), capacity, k, edit(if before.Some? then before.value else default))
      ensures old(k in entries) ==> oldest == old(oldest) && born == old(born) && clock == old(clock)
      ensures old(k !in entries) ==> var line := old(born) + [old(clock)];
        born == (if |line| == capacity then line[1..] else line) && clock == old(clock) + 1
      ensures var before := Lookup(old(fifo), k);
        written == old(written)[k := edit(if before.Some? then before.value else default)]
    {
      var before := Get(k);
      if before.Some? {
        PositionInMap(k);
        Overwrite(k, edit(before.value));
      } else {
        PositionInMap(k);
        PushNew(k, edit(default), grown);
      }
    }

    lemma PositionInMap(k: K)
      requires Valid()
      ensures k in entries <==> Position(fifo, k) < |fifo|
      ensures k in entries ==> Lookup(fifo, k) == Some(entries[k])
    {
      if k in entries {
        var i :| 0 <= i < |oldest| && oldest[i] == k;
        PositionIs(fifo, i);
      }
    }

    method Overwrite(k: K, v: V)
      requires Valid() && k in entries
      modifies this`entries, this`fifo, this`written
      ensures Valid() && fifo == Put(old(fifo), capacity, k, v)
      ensures written == old(written)[k := v]
    {
      PositionInMap(k);
      ghost var i := Position(fifo, k);
      SameAfterOverwrite(entries, oldest, fifo, i, v);
      CurrentAfterOverwrite(fifo, written, i, v);
      hide Same, Current, Ages;
      entries := entries[k := v];
      written := written[k := v];
      fifo := fifo[i := Entry(k, v)];
    }

    method PushNew(k: K, v: V, grown: nat)
      requires Valid() && k !in entries && grown > |oldest|
      modifies this
      ensures Valid()
      ensures capacity == if old(|oldest| == capacity) then grown else old(capacity)
      ensures fifo == Put(old(fifo), capacity, k, v)
      ensures var line := old(born) + [old(clock)];
        born == (if |line| == capacity then line[1..] else line) && clock == old(clock) + 1
      ensures written == old(written)[k := v]
    {
      PositionInMap(k);
      SameAfterPush(entries, oldest, fifo, k, v);
      AgesAfterPush(born, clock);
      CurrentAfterPush(fifo, written, k, v);
      hide Same, Current, Ages;
      if |oldest| == capacity {
        capacity := grown;
      }
      oldest, entries := oldest + [k], entries[k := v];
      fifo, written := fifo + [Entry(k, v)], written[k := v];
      born, clock := born + [clock], clock + 1;
      if capacity == |oldest| {
        EvictOldest();
      }
    }

    /** Drops the key that has been resident longest. */
    method EvictOldest()
      requires Agrees() && Aged() && oldest != []
      modifies this`oldest, this`entries, this`fifo, this`born
      ensures Agrees() && Aged() && fifo == old(fifo)[1..] && born == old(born)[1..]
      ensures entries == old(entries) - {old(fifo)[0].key}
      ensures forall i :: 0 <= i < |born| ==> old(born)[0] < born[i]
    {
      var oldestKey := oldest[0];
      FrontIsOldest(born, clock);
      assert |fifo| == |oldest| && oldestKey == fifo[0].key;
      hide Same, Current, Ages;
      FrontMayGo(entries, oldest, fifo, written);
      oldest, entries, fifo := oldest[1..], entries - {oldestKey}, fifo[1..];
      born := born[1..];
    }

    /** Editing in place, as far as the key is present; ages stay. */
    method GetMut(k: K, edit: V -> V) returns (found: bool)
      requires Valid()
      modifies this`entries, this`fifo, this`written
      ensures Valid() && found == Lookup(old(fifo), k).Some?
      ensures found ==> fifo == Put(old(fifo), capacity, k, edit(Lookup(old(fifo), k).value))
      ensures found ==> written == old(written)[k := edit(Lookup(old(fifo), k).value)]
      ensures !found ==> unchanged(this)
    {
      PositionInMap(k);
      found := k in entries;
      if found {
        Overwrite(k, edit(entries[k]));
      }
    }

    method Remove(k: K) returns (v: Option<V>)
      requires Valid()
      modifies this`oldest, this`entries, this`fifo, this`born
      ensures Valid() && v == Lookup(old(fifo), k)
      ensures fifo == Without(old(fifo), k) && k !in entries
      ensures var i := Position(old(fifo), k);
        born == if i < |old(fifo)| then old(born)[..i] + old(born)[i + 1..] else old(born)
    {
      PositionInMap(k);
      if k !in entries {
        return None;
      }
      v := Some(entries[k]);
      var index := 0;
      while oldest[index] != k
        invariant 0 <= index <= Position(fifo, k) < |oldest|
        decreases |oldest| - index
      {
        index := index + 1;
      }
      PositionIs(fifo, index);
      SameAfterDrop(entries, oldest, fifo, index);
      CurrentAfterDrop(fifo, written, index);
      AgesAfterDrop(born, clock, index);
      hide Current, DistinctKeys, Ages;
      entries := entries - {k};
      oldest := oldest[..index] + oldest[index + 1..];
      fifo, born := fifo[..index] + fifo[index + 1..], born[..index] + born[index + 1..];
    }
  }

  // ---- What the reference list does over runs ----

  datatype Op<K, V> = PutOp(key: K, value: V) | RemoveOp(key: K)

  function Run<K(==), V>(capacity: nat, ops: seq<Op<K, V>>): Fifo<K, V> {
    if ops == [] then []
    else
      var f := Run(capacity, ops[..|ops| - 1]);
      match ops[|ops| - 1]
      case PutOp(k, v) => Put(f, capacity, k, v)
      case RemoveOp(k) => Without(f, k)
  }

  /** The last operation that named `k`, if any. */
  function LastWrite<K(==), V>(ops: seq<Op<K, V>>, k: K): Option<V> {
    if ops == [] then None
    else
      var last := ops[|ops| - 1];
      if last.key == k then (if last.PutOp? then Some(last.value) else None)
      else LastWrite(ops[..|ops| - 1], k)
  }

  lemma LookupAfterPut<K, V>(f: Fifo<K, V>, capacity: nat, k: K, v: V, other: K)
    requires DistinctKeys(f) && capacity >= 2
    ensures Lookup(Put(f, capacity, k, v), k) == Some(v)
    ensures other != k && Lookup(Put(f, capacity, k, v), other).Some? ==>
      Lookup(Put(f, capacity, k, v), other) == Lookup(f, other)
    ensures DistinctKeys(Put(f, capacity, k, v))
  {
    var g := Put(f, capacity, k, v);
    var i := Position(f, k);
    PositionIs(g, if i < |f| then i else |g| - 1);
    var j := Position(g, other);
    if other != k && j < |g| {
      PositionIs(f, if |f| == |g| && i == |f| then j + 1 else j);
    }
  }

  lemma LookupAfterRemove<K, V>(f: Fifo<K, V>, k: K, other: K)
    requires DistinctKeys(f)
    ensures Lookup(Without(f, k), k) == None && DistinctKeys(Without(f, k))
    ensures other != k ==> Lookup(Without(f, k), other) == Lookup(f, other)
  {
    var g := Without(f, k);
    var i := Position(f, k);
    var j := Position(f, other);
    if other != k && j < |f| && i < |f| {
      PositionIs(g, if j < i then j else j - 1);
    }
  }

  /** Over every run: bounded size, no duplicate keys, and a hit is always the last value written. */
  lemma {:induction false} RunsNeverShowStaleValues<K, V>(capacity: nat, ops: seq<Op<K, V>>, k: K)
    requires capacity >= 2
    ensures DistinctKeys(Run(capacity, ops)) && |Run(capacity, ops)| < capacity
    ensures Lookup(Run(capacity, ops), k).Some? ==> Lookup(Run(capacity, ops), k) == LastWrite(ops, k)
  {
    if ops != [] {
      var f := Run(capacity, ops[..|ops| - 1]);
      RunsNeverShowStaleValues(capacity, ops[..|ops| - 1], k);
      match ops[|ops| - 1]
      case PutOp(key, v) => LookupAfterPut(f, capacity, key, v, k);
      case RemoveOp(key) => LookupAfterRemove(f, key, k);
    }
  }

  /** A key that was just inserted as new survives until capacity - 1 other new keys came after it. */
  lemma {:induction false} NewKeySurvives<K, V>(f: Fifo<K, V>, capacity: nat, k: K, later: seq<Entry<K, V>>)
    requires DistinctKeys(f) && |f| < capacity && Position(f, k) < |f|
    requires |later| <= Position(f, k) + (capacity - 1 - |f|)
    requires forall i :: 0 <= i < |later| ==> later[i].key != k
    ensures Lookup(PutAll(f, capacity, later), k) == Lookup(f, k)
    decreases |later|
  {
    if later != [] {
      var e := later[0];
      var g := Put(f, capacity, e.key, e.value);
      var p := Position(f, k);
      assert capacity >= 2;
      LookupAfterPut(f, capacity, e.key, e.value, k);
      if Position(f, e.key) < |f| || |f| + 1 < capacity {
        PositionIs(g, p);
      } else {
        PositionIs(g, p - 1);
      }
      NewKeySurvives(g, capacity, k, later[1..]);
    }
  }

  function PutAll<K(==), V>(f: Fifo<K, V>, capacity: nat, entries: seq<Entry<K, V>>): Fifo<K, V>
    decreases |entries|
  {
    if entries == [] then f else PutAll(Put(f, capacity, entries[0].key, entries[0].value), capacity, entries[1..])
  }
}
