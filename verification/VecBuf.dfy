/** The chunked byte queue of `vecbuf.rs`. */
module VecBuf {
  import opened Prelude

  /** How many of `len` offered bytes fit when `stored` bytes are held already. */
  function Allowance(limit: Option<nat>, stored: nat, len: nat): (take: nat)
    ensures take <= len
    ensures limit == None ==> take == len
    ensures limit.Some? ==> (take == 0 || stored + take <= limit.value)
    ensures limit.Some? && take < len ==> stored + take >= limit.value
  {
    if limit.None? then len
    else Min(len, if stored <= limit.value then limit.value - stored else 0)
  }

  /** The number of buffers handed to one vectored write. */
  const MAX_IOV: nat := 64

  method CopyInto(buf: array<byte>, at: nat, bytes: seq<byte>)
    requires at + |bytes| <= buf.Length
    modifies buf
    ensures buf[..] == old(buf[..])[..at] + bytes + old(buf[..])[at + |bytes|..]
  {
    forall k | 0 <= k < |bytes| {
      buf[at + k] := bytes[k];
    }
  }

  /**
   * A read under way: `n` bytes of `stored` are in the buffer `now`, whose rest is `untouched`;
   * they have joined what was `gone`, and the rest is `left`.
   */
  ghost predicate Filling(
      stored: seq<byte>, untouched: seq<byte>, gone: seq<byte>, n: nat, now: seq<byte>, left: seq<byte>,
      removed: seq<byte>) {
    && n <= |stored| && n <= |untouched|
    && now == stored[..n] + untouched[n..] && left == stored[n..] && removed == gone + stored[..n]
  }

  lemma FillingStarts(stored: seq<byte>, untouched: seq<byte>, gone: seq<byte>)
    ensures Filling(stored, untouched, gone, 0, untouched, stored, gone)
  {
  }

  lemma FillingGoesOn(
      stored: seq<byte>, untouched: seq<byte>, gone: seq<byte>, n: nat, now: seq<byte>, left: seq<byte>,
      removed: seq<byte>, used: nat)
    requires Filling(stored, untouched, gone, n, now, left, removed) && used <= |left| && n + used <= |now|
    ensures Filling(stored, untouched, gone, n + used, now[..n] + left[..used] + now[n + used..], left[used..],
      removed + left[..used])
  {
    assert now[..n] == stored[..n] && now[n + used..] == untouched[n + used..];
    assert stored[..n] + left[..used] == stored[..n + used];
    ConcatAssociates(gone, stored[..n], left[..used]);
  }

  lemma FillingEnds(
      stored: seq<byte>, untouched: seq<byte>, gone: seq<byte>, n: nat, now: seq<byte>, left: seq<byte>,
      removed: seq<byte>)
    requires Filling(stored, untouched, gone, n, now, left, removed) && (n == |now| || left == [])
    ensures n == Min(|untouched|, |stored|) && |now| == |untouched|
    ensures now == stored[..n] + untouched[n..] && left == stored[n..] && removed == gone + stored[..n]
  {
  }

  /** Moving a cursor over all the stored bytes past the first chunk, or into it. */
  lemma AllOfFirst(whole: seq<byte>, at: nat, chunks: seq<seq<byte>>)
    requires chunks != [] && at <= |whole| && whole[at..] == Flatten(chunks)
    ensures at + |chunks[0]| <= |whole| && whole[at + |chunks[0]|..] == Flatten(chunks[1..])
  {
    Advance(whole, at, chunks[0], Flatten(chunks[1..]));
  }

  lemma PartOfFirst(whole: seq<byte>, at: nat, chunks: seq<seq<byte>>, left: nat)
    requires chunks != [] && left <= |chunks[0]| && at <= |whole| && whole[at..] == Flatten(chunks)
    ensures at + left <= |whole| && whole[at + left..] == Flatten([chunks[0][left..]] + chunks[1..])
    ensures whole[..at + left] == whole[..at] + chunks[0][..left]
  {
    var first, rest := chunks[0], Flatten(chunks[1..]);
    assert first + rest == first[..left] + (first[left..] + rest);
    Advance(whole, at, first[..left], first[left..] + rest);
    FlattenHead([first[left..]] + chunks[1..]);
  }

  class ChunkVecBuffer {
    var chunks: seq<seq<byte>>
    var limit: Option<nat>
    // Everything ever appended, and everything ever taken out again.
    ghost var appended: seq<byte>
    ghost var removed: seq<byte>

    ghost function Bytes(): seq<byte>
      reads this`chunks
    {
      Flatten(chunks)
    }

    ghost predicate Valid()
      reads this
    {
      && (forall i :: 0 <= i < |chunks| ==> chunks[i] != [])
      && appended == removed + Bytes()
    }

    constructor (limit: Option<nat>)
      ensures Valid() && chunks == [] && this.limit == limit
      ensures appended == [] && removed == []
    {
      chunks, this.limit := [], limit;
      appended, removed := [], [];
    }

    method SetLimit(newLimit: Option<nat>)
      requires Valid()
      modifies this`limit
      ensures Valid() && limit == newLimit
    {
      limit := newLimit;
    }

    method Len() returns (len: nat)
      ensures len == |Bytes()|
    {
      len := 0;
      for i := 0 to |chunks|
        invariant len == |Flatten(chunks[..i])|
      {
        assert chunks[..i + 1] == chunks[..i] + [chunks[i]];
        FlattenSnoc(chunks[..i], chunks[i]);
        len := len + |chunks[i]|;
      }
      assert chunks[..|chunks|] == chunks;
    }

    method IsFull() returns (full: bool)
      ensures full <==> limit.Some? && |Bytes()| > limit.value
    {
      var len := Len();
      full := limit.Some? && len > limit.value;
    }

    method ApplyLimit(len: nat) returns (take: nat)
      ensures take == Allowance(limit, |Bytes()|, len)
    {
      if limit.Some? {
        var stored := Len();
        take := Min(len, if stored <= limit.value then limit.value - stored else 0);
      } else {
        take := len;
      }
    }

    method Append(bytes: seq<byte>) returns (len: nat)
      requires Valid()
      modifies this`chunks, this`appended
      ensures Valid() && len == |bytes|
      ensures chunks == if bytes == [] then old(chunks) else old(chunks) + [bytes]
      ensures Bytes() == old(Bytes()) + bytes && appended == old(appended) + bytes
    {
      len := |bytes|;
      FlattenSnoc(chunks, bytes);
      if bytes != [] {
        chunks := chunks + [bytes];
      }
      appended := appended + bytes;
    }

    /** Appends the longest prefix of `bytes` that the limit leaves room for. */
    method AppendLimitedCopy(bytes: seq<byte>) returns (take: nat)
      requires Valid()
      modifies this`chunks, this`appended
      ensures Valid() && take == Allowance(limit, |old(Bytes())|, |bytes|)
      ensures Bytes() == old(Bytes()) + bytes[..take] && appended == old(appended) + bytes[..take]
    {
      take := ApplyLimit(|bytes|);
      var _ := Append(bytes[..take]);
    }

    method Pop() returns (chunk: Option<seq<byte>>)
      requires Valid()
      modifies this`chunks, this`removed
      ensures Valid()
      ensures old(chunks) == [] ==> chunk == None && chunks == [] && removed == old(removed)
      ensures old(chunks) != [] ==>
        && chunk == Some(old(chunks)[0]) && chunks == old(chunks)[1..]
        && old(Bytes()) == chunk.value + Bytes() && removed == old(removed) + chunk.value
    {
      if chunks == [] {
        return None;
      }
      chunk := Some(chunks[0]);
      removed := removed + chunks[0];
      chunks := chunks[1..];
    }

    /** Drops the first `used` stored bytes, or all of them when fewer are stored. */
    method Consume(used: nat)
      requires Valid()
      modifies this`chunks, this`removed
      ensures Valid()
      ensures var n := Min(used, |old(Bytes())|);
        Bytes() == old(Bytes())[n..] && removed == old(removed) + old(Bytes())[..n]
    {
      var left: nat := used;
      ghost var before := Bytes();
      FlattenNothing<byte>();
      hide Flatten;
      while chunks != []
        invariant forall i :: 0 <= i < |chunks| ==> chunks[i] != []
        invariant left <= used && used - left <= |before|
        invariant removed == old(removed) && Bytes() == before[used - left..]
        decreases |chunks|
      {
        var buf := chunks[0];
        if left < |buf| {
          PartOfFirst(before, used - left, chunks, left);
          chunks := [buf[left..]] + chunks[1..];
          left := 0;
          break;
        } else {
          AllOfFirst(before, used - left, chunks);
          chunks := chunks[1..];
          left := left - |buf|;
        }
      }
      assert before == before[..used - left] + before[used - left..];
      removed := removed + before[..used - left];
    }

    /** Fills `buf` from the front of the queue; stops when either runs out. */
    method Read(buf: array<byte>) returns (n: nat)
      requires Valid()
      modifies this`chunks, this`removed, buf
      ensures Valid() && n == Min(buf.Length, |old(Bytes())|)
      ensures buf[..] == old(Bytes())[..n] + old(buf[..])[n..]
      ensures Bytes() == old(Bytes())[n..] && removed == old(removed) + old(Bytes())[..n]
    {
      n := 0;
      ghost var stored, untouched, gone := Bytes(), buf[..], removed;
      FillingStarts(stored, untouched, gone);
      FlattenNothing<byte>();
      hide Flatten, Filling, Valid, Min;
      while n < buf.Length && chunks != []
        invariant Valid() && n <= buf.Length
        invariant Filling(stored, untouched, gone, n, buf[..], Bytes(), removed)
        decreases buf.Length - n
      {
        var used := ReadChunk(buf, n, stored, untouched, gone);
        n := n + used;
      }
      ghost var final := buf[..];
      assert n == |final| || Bytes() == [];
      FillingEnds(stored, untouched, gone, n, final, Bytes(), removed);
    }

    /** The body of the loop: as much of the first chunk as the buffer still takes. */
    method ReadChunk(
        buf: array<byte>, n: nat, ghost stored: seq<byte>, ghost untouched: seq<byte>, ghost gone: seq<byte>)
      returns (used: nat)
      requires Valid() && n < buf.Length && chunks != []
      requires Filling(stored, untouched, gone, n, buf[..], Bytes(), removed)
      modifies this`chunks, this`removed, buf
      ensures Valid() && 0 < used && n + used <= buf.Length
      ensures Filling(stored, untouched, gone, n + used, buf[..], Bytes(), removed)
    {
      var first := chunks[0];
      used := Min(|first|, buf.Length - n);
      FlattenHead(chunks);
      ghost var now, left, before := buf[..], Bytes(), removed;
      hide Flatten, Filling;
      FillingGoesOn(stored, untouched, gone, n, now, left, before, used);
      CopyInto(buf, n, first[..used]);
      assert first[..used] == left[..used];
      Consume(used);
    }

    /** The prefix of the queue offered to one vectored write. */
    ghost function Offered(): seq<byte>
      reads this`chunks
    {
      Flatten(chunks[..Min(MAX_IOV, |chunks|)])
    }

    /** One `write_vectored` call; the writer's answer is an input, `None` for an I/O error. */
    method WriteTo(accepted: Option<nat>) returns (used: Option<nat>)
      requires Valid()
      requires accepted.Some? ==> accepted.value <= |Offered()|
      modifies this`chunks, this`removed
      ensures Valid()
      ensures used == if old(chunks) == [] then Some(0) else accepted
      ensures used.Some? ==> used.value <= |old(Offered())| && old(Offered()) <= old(Bytes())
      ensures var n := if used.Some? then used.value else 0;
        && n <= |old(Bytes())| && Bytes() == old(Bytes())[n..]
        && removed == old(removed) + old(Bytes())[..n]
    {
      var len := Min(MAX_IOV, |chunks|);
      assert chunks == chunks[..len] + chunks[len..];
      FlattenConcat(chunks[..len], chunks[len..]);
      if chunks == [] {
        return Some(0);
      }
      if accepted.None? {
        return None;
      }
      Consume(accepted.value);
      used := accepted;
    }
  }
}
