/** The sending side of `common_state.rs`: plaintext in, fragments sealed, records queued. */
module CommonStates {
  import opened Prelude
  import opened VecBuf
  import opened RecordLayers

  datatype ContentType = ApplicationData | Handshake | Alert

  datatype Fragment = Fragment(typ: ContentType, payload: seq<byte>)

  /** A fragment on the wire: sealed under a nonce, or sent in clear before keys exist. */
  datatype Record = Record(nonce: Option<Nonce>, fragment: Fragment)

  /** The bytes of one encoded record; the cipher behind them is left abstract. */
  type Encoder = Record -> seq<byte>

  // ---- Fragmentation (fragmenter.rs) ----

  function Chunks(payload: seq<byte>, maxFrag: nat): (parts: seq<seq<byte>>)
    requires maxFrag > 0
    ensures Flatten(parts) == payload
    ensures forall i :: 0 <= i < |parts| ==> 0 < |parts[i]| <= maxFrag
    ensures forall i :: 0 <= i < |parts| - 1 ==> |parts[i]| == maxFrag
  {
    if payload == [] then []
    else if |payload| <= maxFrag then [payload]
    else
      var rest := Chunks(payload[maxFrag..], maxFrag);
      assert Flatten(rest) == payload[maxFrag..] && rest != [];
      [payload[..maxFrag]] + rest
  }

  // ---- What was sent ----

  ghost function AppData(records: seq<Record>): seq<byte> {
    if records == [] then []
    else
      var last := records[|records| - 1].fragment;
      AppData(records[..|records| - 1]) + if last.typ == ApplicationData then last.payload else []
  }

  ghost function Wire(encode: Encoder, records: seq<Record>): seq<byte> {
    if records == [] then []
    else Wire(encode, records[..|records| - 1]) + encode(records[|records| - 1])
  }

  /** The parts of one message sealed in order under consecutive sequence numbers. */
  ghost function Sealed(encrypter: Cipher, from: nat, typ: ContentType, parts: seq<seq<byte>>): (records: seq<Record>)
    ensures |records| == |parts|
  {
    if parts == [] then []
    else
      var n := |parts| - 1;
      Sealed(encrypter, from, typ, parts[..n]) + [Record(Some(Nonce(encrypter, from + n)), Fragment(typ, parts[n]))]
  }

  /** The parts of one message queued before there are keys. */
  ghost function InClear(typ: ContentType, parts: seq<seq<byte>>): seq<Record> {
    if parts == [] then []
    else
      var n := |parts| - 1;
      InClear(typ, parts[..n]) + [Record(None, Fragment(typ, parts[n]))]
  }

  /** One record in the clear for every fragment, in order. */
  lemma {:induction false} ClearRecordAt(typ: ContentType, parts: seq<seq<byte>>, i: nat)
    requires i < |parts|
    ensures |InClear(typ, parts)| == |parts| && InClear(typ, parts)[i] == Record(None, Fragment(typ, parts[i]))
    decreases |parts|
  {
    if |parts| > 1 {
      ClearRecordAt(typ, parts[..|parts| - 1], if i < |parts| - 1 then i else 0);
    }
  }

  lemma InClearSnoc(before: seq<Record>, typ: ContentType, parts: seq<seq<byte>>, i: nat)
    requires i < |parts|
    ensures before + InClear(typ, parts[..i + 1]) ==
      before + InClear(typ, parts[..i]) + [Record(None, Fragment(typ, parts[i]))]
  {
    assert parts[..i + 1][..i] == parts[..i];
  }

  lemma SentOneMore(encode: Encoder, records: seq<Record>, r: Record)
    ensures Wire(encode, records + [r]) == Wire(encode, records) + encode(r)
    ensures AppData(records + [r]) ==
      AppData(records) + if r.fragment.typ == ApplicationData then r.fragment.payload else []
  {
    assert (records + [r])[..|records|] == records;
  }

  /** Application data carries exactly its payload, other messages carry none. */
  lemma {:induction false} SealedCarriesPayload(before: seq<Record>, encrypter: Cipher, from: nat, typ: ContentType,
      parts: seq<seq<byte>>)
    ensures AppData(before + Sealed(encrypter, from, typ, parts)) ==
      AppData(before) + if typ == ApplicationData then Flatten(parts) else []
  {
    hide AppData, Wire, Flatten;
    FlattenNothing<byte>();
    if parts == [] {
      assert before + Sealed(encrypter, from, typ, parts) == before;
    } else {
      var n := |parts| - 1;
      var init := Sealed(encrypter, from, typ, parts[..n]);
      var last := Record(Some(Nonce(encrypter, from + n)), Fragment(typ, parts[n]));
      SealedCarriesPayload(before, encrypter, from, typ, parts[..n]);
      assert before + (init + [last]) == (before + init) + [last];
      SentOneMore(r => [], before + init, last);
      FlattenSnoc(parts[..n], parts[n]);
      assert parts == parts[..n] + [parts[n]];
    }
  }

  /** One sealed record for every fragment, in order, under consecutive sequence numbers. */
  lemma {:induction false} SealedRecordAt(encrypter: Cipher, from: nat, typ: ContentType, parts: seq<seq<byte>>, i: nat)
    requires i < |parts|
    ensures |Sealed(encrypter, from, typ, parts)| == |parts|
    ensures Sealed(encrypter, from, typ, parts)[i] == Record(Some(Nonce(encrypter, from + i)), Fragment(typ, parts[i]))
    decreases |parts|
  {
    if |parts| > 1 {
      SealedRecordAt(encrypter, from, typ, parts[..|parts| - 1], if i < |parts| - 1 then i else 0);
    }
  }

  lemma {:induction false} SealedCons(encrypter: Cipher, from: nat, typ: ContentType, parts: seq<seq<byte>>)
    requires parts != []
    ensures Sealed(encrypter, from, typ, parts) ==
      [Record(Some(Nonce(encrypter, from)), Fragment(typ, parts[0]))] + Sealed(encrypter, from + 1, typ, parts[1..])
    decreases |parts|
  {
    var n := |parts| - 1;
    if n > 0 {
      SealedCons(encrypter, from, typ, parts[..n]);
      assert parts[..n][1..] == parts[1..][..n - 1];
      assert from + n == from + 1 + (n - 1);
    }
  }

  // ---- One fragment at a time: send_single_fragment with its re-entrant close_notify ----

  datatype Sender = Sender(encrypter: Cipher, writeSeq: nat, sent: seq<Record>)

  const CLOSE_NOTIFY := Fragment(Alert, [1, 0])

  /** Past the soft-limit check: seal and queue, or drop once the key is exhausted. */
  function SealOne(s: Sender, m: Fragment): Sender {
    if s.writeSeq >= SEQ_HARD_LIMIT then s
    else s.(writeSeq := s.writeSeq + 1, sent := s.sent + [Record(Some(Nonce(s.encrypter, s.writeSeq)), m)])
  }

  /** While encrypting, with at most `depth` nested calls; `None` when they do not suffice. */
  function SendFragment(s: Sender, m: Fragment, depth: nat): Option<Sender>
    decreases depth
  {
    if depth == 0 then None
    else
      var warned := if s.writeSeq == SEQ_SOFT_LIMIT then SendFragment(s, CLOSE_NOTIFY, depth - 1) else Some(s);
      if warned.None? then None else Some(SealOne(warned.value, m))
  }

  function SendFragments(s: Sender, typ: ContentType, parts: seq<seq<byte>>, depth: nat): Option<Sender>
    decreases |parts|
  {
    if parts == [] then Some(s)
    else
      var t := SendFragment(s, Fragment(typ, parts[0]), depth);
      if t.None? then None else SendFragments(t.value, typ, parts[1..], depth)
  }

  /** Sending `n` fragments meets the soft limit, where the alert re-enters without progress. */
  predicate Loops(writeSeq: nat, n: nat) {
    writeSeq <= SEQ_SOFT_LIMIT < writeSeq + n
  }

  /** Nothing is in the way of `n` fragments. */
  predicate Delivers(writeSeq: nat, n: nat) {
    n == 0 || writeSeq + n <= SEQ_SOFT_LIMIT || (SEQ_SOFT_LIMIT < writeSeq && writeSeq + n <= SEQ_HARD_LIMIT)
  }

  /** Every fragment sealed, in order, under consecutive sequence numbers. */
  ghost function SentAll(s: Sender, typ: ContentType, parts: seq<seq<byte>>): Sender {
    Sender(s.encrypter, s.writeSeq + |parts|, s.sent + Sealed(s.encrypter, s.writeSeq, typ, parts))
  }

  /** How many of `n` fragments are sealed before the hard limit silently drops the rest. */
  function Kept(writeSeq: nat, n: nat): nat {
    if writeSeq >= SEQ_HARD_LIMIT then 0 else Min(n, SEQ_HARD_LIMIT - writeSeq)
  }

  lemma OneCallSealsOne(s: Sender, m: Fragment, depth: nat)
    requires depth > 0 && s.writeSeq != SEQ_SOFT_LIMIT
    ensures SendFragment(s, m, depth) == Some(SealOne(s, m))
  {
  }

  lemma {:induction false} StuckAtSoftLimit(s: Sender, m: Fragment, depth: nat)
    requires s.writeSeq == SEQ_SOFT_LIMIT
    ensures SendFragment(s, m, depth) == None
    decreases depth
  {
    if depth > 0 {
      StuckAtSoftLimit(s, CLOSE_NOTIFY, depth - 1);
    }
  }

  /** The result of sending fragments, for every starting counter and every depth. */
  lemma {:induction false} SendFragmentsOutcome(s: Sender, typ: ContentType, parts: seq<seq<byte>>, depth: nat)
    requires depth > 0
    ensures SendFragments(s, typ, parts, depth) ==
      if Loops(s.writeSeq, |parts|) then None
      else Some(SentAll(s, typ, parts[..Kept(s.writeSeq, |parts|)]))
    decreases |parts|
  {
    hide Sealed, SendFragment;
    var kept := parts[..Kept(s.writeSeq, |parts|)];
    if parts == [] {
      assert SentAll(s, typ, kept).sent == s.sent;
    } else if s.writeSeq == SEQ_SOFT_LIMIT {
      StuckAtSoftLimit(s, Fragment(typ, parts[0]), depth);
    } else {
      var t := SealOne(s, Fragment(typ, parts[0]));
      OneCallSealsOne(s, Fragment(typ, parts[0]), depth);
      SendFragmentsOutcome(t, typ, parts[1..], depth);
      if s.writeSeq < SEQ_HARD_LIMIT {
        SealedCons(s.encrypter, s.writeSeq, typ, kept);
        assert kept[1..] == parts[1..][..Kept(t.writeSeq, |parts| - 1)];
        assert SentAll(s, typ, kept).sent == SentAll(t, typ, kept[1..]).sent;
      } else {
        assert kept == parts[1..][..Kept(t.writeSeq, |parts| - 1)] == [];
      }
    }
  }

  /** One more call: one more fragment kept, or dropped once the key is exhausted. */
  lemma SentOneFurther(s: Sender, typ: ContentType, parts: seq<seq<byte>>, i: nat)
    requires i < |parts|
    ensures SealOne(SentAll(s, typ, parts[..Kept(s.writeSeq, i)]), Fragment(typ, parts[i])) ==
      SentAll(s, typ, parts[..Kept(s.writeSeq, i + 1)])
  {
    if Kept(s.writeSeq, i + 1) == i + 1 {
      assert parts[..i + 1][..i] == parts[..i];
    }
  }

  /** No number of nested calls finishes exactly when the run of fragments crosses the soft limit. */
  lemma SendingLoopsExactlyAcrossSoftLimit(s: Sender, typ: ContentType, parts: seq<seq<byte>>)
    ensures (forall depth: nat :: SendFragments(s, typ, parts, depth).None?) <==> Loops(s.writeSeq, |parts|)
  {
    forall depth: nat | Loops(s.writeSeq, |parts|)
      ensures SendFragments(s, typ, parts, depth).None?
    {
      if depth > 0 {
        SendFragmentsOutcome(s, typ, parts, depth);
      }
    }
    SendFragmentsOutcome(s, typ, parts, 1);
  }

  /** Every fragment is sealed in order, under consecutive numbers, exactly when `Delivers` holds. */
  lemma SendingDeliversExactly(s: Sender, typ: ContentType, parts: seq<seq<byte>>, depth: nat)
    requires depth > 0
    ensures SendFragments(s, typ, parts, depth) == Some(SentAll(s, typ, parts)) <==> Delivers(s.writeSeq, |parts|)
  {
    SendFragmentsOutcome(s, typ, parts, depth);
    assert parts[..|parts|] == parts;
  }

  // ---- The connection state ----

  datatype Limit = Yes | No

  class CommonState {
    const encode: Encoder
    const recordLayer: RecordLayer
    const sendablePlaintext: ChunkVecBuffer
    const sendableTls: ChunkVecBuffer
    var maySendApplicationData: bool
    var maxFrag: nat
    var queuedKeyUpdateMessage: Option<Record>
    // Bytes the writer was told are accepted, and records queued for the peer.
    ghost var accepted: seq<byte>
    ghost var sent: seq<Record>

    ghost predicate WellFormed()
      reads this, recordLayer, sendablePlaintext, sendableTls
    {
      && sendablePlaintext != sendableTls
      && recordLayer.Valid() && sendablePlaintext.Valid() && sendableTls.Valid()
      && maxFrag > 0
      && (maySendApplicationData ==> recordLayer.IsEncrypting())
      && sendableTls.appended == Wire(encode, sent)
      && (queuedKeyUpdateMessage.Some? ==> queuedKeyUpdateMessage.value.fragment.typ == Handshake)
    }

    /** Plaintext conservation: what was accepted is on its way in order, or waiting for traffic keys. */
    ghost predicate Conserving()
      reads this, recordLayer, sendablePlaintext, sendableTls
    {
      WellFormed() && accepted == AppData(sent) + sendablePlaintext.Bytes()
    }

    ghost predicate Valid()
      reads this, recordLayer, sendablePlaintext, sendableTls
    {
      && Conserving()
      && (maySendApplicationData ==> sendablePlaintext.chunks == [])
    }

    /** How much of `n` bytes a write takes, with `ahead` bytes of TLS output still to be queued before it. */
    ghost function Taken(limit: Limit, ahead: nat, n: nat): (taken: nat)
      reads this`maySendApplicationData, sendablePlaintext`chunks, sendablePlaintext`limit, sendableTls`chunks,
        sendableTls`limit
      ensures taken <= n
    {
      if limit == No then n
      else if maySendApplicationData then Allowance(sendableTls.limit, |sendableTls.Bytes()| + ahead, n)
      else Allowance(sendablePlaintext.limit, |sendablePlaintext.Bytes()|, n)
    }

    /** The bytes of a key update that waits to be written. */
    ghost function Ahead(): nat
      reads this`queuedKeyUpdateMessage
    {
      if queuedKeyUpdateMessage.Some? then |encode(queuedKeyUpdateMessage.value)| else 0
    }

    ghost function Sending(): Sender
      reads this`sent, recordLayer`messageEncrypter, recordLayer`writeSeq
    {
      Sender(recordLayer.messageEncrypter, recordLayer.writeSeq, sent)
    }

    constructor (encode: Encoder, invalid: Cipher, bufferLimit: Option<nat>, maxFrag: nat)
      requires maxFrag > 0
      ensures Valid() && accepted == [] && sent == [] && !maySendApplicationData
      ensures fresh(recordLayer) && fresh(sendablePlaintext) && fresh(sendableTls)
    {
      this.encode := encode;
      recordLayer := new RecordLayer(invalid);
      sendablePlaintext := new ChunkVecBuffer(bufferLimit);
      sendableTls := new ChunkVecBuffer(bufferLimit);
      maySendApplicationData, this.maxFrag := false, maxFrag;
      queuedKeyUpdateMessage := None;
      accepted, sent := [], [];
    }

    method QueueTlsMessage(r: Record)
      requires WellFormed()
      modifies this`sent, sendableTls`chunks, sendableTls`appended
      ensures WellFormed() && sent == old(sent) + [r] && sendableTls.Bytes() == old(sendableTls.Bytes()) + encode(r)
      ensures AppData(sent) == AppData(old(sent)) + if r.fragment.typ == ApplicationData then r.fragment.payload else []
    {
      var _ := sendableTls.Append(encode(r));
      SentOneMore(encode, sent, r);
      sent := sent + [r];
    }

    /** Below or above the soft limit one call suffices; at the limit the source does not return. */
    method SendSingleFragment(m: Fragment)
      requires WellFormed() && recordLayer.IsEncrypting()
      requires !recordLayer.WantsCloseBeforeEncrypt()
      modifies this`sent, recordLayer`writeSeq, recordLayer`used, sendableTls`chunks, sendableTls`appended
      ensures WellFormed()
      ensures Sending() == SealOne(old(Sending()), m)
    {
      hide AppData, Wire;
      if recordLayer.EncryptExhausted() {
        return;
      }
      var nonce := recordLayer.EncryptOutgoing();
      QueueTlsMessage(Record(Some(nonce), m));
    }

    /** Sends what the counter allows; past the hard limit the rest is dropped without a word. */
    method SendEachFragment(typ: ContentType, parts: seq<seq<byte>>)
      requires WellFormed() && recordLayer.IsEncrypting()
      requires !Loops(recordLayer.writeSeq, |parts|)
      modifies this`sent, recordLayer`writeSeq, recordLayer`used, sendableTls`chunks, sendableTls`appended
      ensures WellFormed()
      ensures Sending() == SentAll(old(Sending()), typ, parts[..Kept(old(recordLayer.writeSeq), |parts|)])
    {
      hide AppData, Wire, Sealed;
      ghost var start := Sending();
      for i := 0 to |parts|
        invariant WellFormed()
        invariant Sending() == SentAll(start, typ, parts[..Kept(start.writeSeq, i)])
      {
        SentOneFurther(start, typ, parts, i);
        SendSingleFragment(Fragment(typ, parts[i]));
      }
    }

    method SendAppdataEncrypt(payload: seq<byte>, limit: Limit) returns (len: nat)
      requires WellFormed() && maySendApplicationData
      requires Delivers(recordLayer.writeSeq, |Chunks(payload[..Taken(limit, 0, |payload|)], maxFrag)|)
      modifies this`sent, recordLayer`writeSeq, recordLayer`used, sendableTls`chunks, sendableTls`appended
      ensures WellFormed() && old(sent) <= sent
      ensures len == old(Taken(limit, 0, |payload|))
      ensures AppData(sent) == AppData(old(sent)) + payload[..len]
      ensures recordLayer.writeSeq == old(recordLayer.writeSeq) + |Chunks(payload[..len], maxFrag)|
    {
      hide AppData, Wire, Sealed, Chunks, Flatten;
      len := |payload|;
      if limit == Yes {
        len := sendableTls.ApplyLimit(|payload|);
      }
      var parts := Chunks(payload[..len], maxFrag);
      SealedCarriesPayload(sent, recordLayer.messageEncrypter, recordLayer.writeSeq, ApplicationData, parts);
      assert parts[..|parts|] == parts;
      SendEachFragment(ApplicationData, parts);
    }

    /** Plaintext written before traffic keys exist waits in `sendable_plaintext`. */
    method BufferPlain(data: seq<byte>, limit: Limit) returns (len: nat)
      requires Valid() && !maySendApplicationData
      modifies this`accepted, sendablePlaintext`chunks, sendablePlaintext`appended
      ensures Valid() && len <= |data| && accepted == old(accepted) + data[..len]
      ensures len ==
        if limit == No then |data|
        else Allowance(sendablePlaintext.limit, |old(sendablePlaintext.Bytes())|, |data|)
    {
      if limit == Yes {
        len := sendablePlaintext.AppendLimitedCopy(data);
      } else {
        len := sendablePlaintext.Append(data);
        assert data[..len] == data;
      }
      ConcatAssociates(AppData(sent), old(sendablePlaintext.Bytes()), data[..len]);
      accepted := accepted + data[..len];
    }

    method SendPlain(data: seq<byte>, limit: Limit) returns (len: nat)
      requires Valid()
      requires maySendApplicationData ==>
        Delivers(recordLayer.writeSeq, |Chunks(data[..Taken(limit, 0, |data|)], maxFrag)|)
      modifies this`sent, this`accepted, recordLayer`writeSeq, recordLayer`used
      modifies sendableTls`chunks, sendableTls`appended, sendablePlaintext`chunks, sendablePlaintext`appended
      ensures Valid() && old(sent) <= sent
      ensures len == old(Taken(limit, 0, |data|)) && accepted == old(accepted) + data[..len]
      ensures !maySendApplicationData ==> sent == old(sent)
    {
      if !maySendApplicationData {
        len := BufferPlain(data, limit);
        return;
      }
      assert accepted == AppData(sent);
      hide AppData, Wire, Chunks, Flatten, Delivers, Allowance;
      len := 0;
      if data != [] {
        len := SendAppdataEncrypt(data, limit);
      }
      accepted := accepted + data[..len];
    }

    method SendSomePlaintext(data: seq<byte>) returns (len: nat)
      requires Valid()
      requires maySendApplicationData ==>
        Delivers(recordLayer.writeSeq, |Chunks(data[..Taken(Yes, Ahead(), |data|)], maxFrag)|)
      modifies this`sent, this`accepted, this`queuedKeyUpdateMessage, recordLayer`writeSeq, recordLayer`used
      modifies sendableTls`chunks, sendableTls`appended, sendablePlaintext`chunks, sendablePlaintext`appended
      ensures Valid() && old(sent) <= sent
      ensures len == old(Taken(Yes, Ahead(), |data|)) && accepted == old(accepted) + data[..len]
      ensures queuedKeyUpdateMessage == None
    {
      hide AppData, Wire, Chunks, Flatten, Delivers;
      PerhapsWriteKeyUpdate();
      len := SendPlain(data, Yes);
    }

    method StartOutgoingTraffic()
      requires Valid() && recordLayer.IsEncrypting()
      requires Delivers(recordLayer.writeSeq, TotalChunks(sendablePlaintext.chunks, maxFrag))
      modifies this`maySendApplicationData, this`sent, recordLayer`writeSeq, recordLayer`used
      modifies sendableTls`chunks, sendableTls`appended, sendablePlaintext`chunks, sendablePlaintext`removed
      ensures Valid() && maySendApplicationData && sendablePlaintext.chunks == [] && old(sent) <= sent
      ensures AppData(sent) == accepted == old(accepted)
    {
      maySendApplicationData := true;
      FlushPlaintext();
    }

    /** Sends what was buffered during the handshake, however full `sendable_tls` is. */
    method FlushPlaintext()
      requires Conserving()
      requires maySendApplicationData ==>
        Delivers(recordLayer.writeSeq, TotalChunks(sendablePlaintext.chunks, maxFrag))
      modifies this`sent, recordLayer`writeSeq, recordLayer`used
      modifies sendableTls`chunks, sendableTls`appended, sendablePlaintext`chunks, sendablePlaintext`removed
      ensures Valid() && old(sent) <= sent
      ensures !maySendApplicationData ==> sent == old(sent) && sendablePlaintext.chunks == old(sendablePlaintext.chunks)
    {
      assert maxFrag > 0;
      hide AppData, Wire, Chunks, Flatten, Delivers, TotalChunks, Conserving;
      if !maySendApplicationData {
        return;
      }
      while sendablePlaintext.chunks != []
        invariant maxFrag > 0 && Conserving() && maySendApplicationData && old(sent) <= sent
        invariant Delivers(recordLayer.writeSeq, TotalChunks(sendablePlaintext.chunks, maxFrag))
        decreases |sendablePlaintext.chunks|
      {
        SendBuffered();
      }
    }

    /** The body of the flush: one buffered chunk, whatever the buffer limits. */
    method SendBuffered()
      requires Conserving() && maySendApplicationData && sendablePlaintext.chunks != []
      requires maxFrag > 0 && Delivers(recordLayer.writeSeq, TotalChunks(sendablePlaintext.chunks, maxFrag))
      modifies this`sent, recordLayer`writeSeq, recordLayer`used
      modifies sendableTls`chunks, sendableTls`appended, sendablePlaintext`chunks, sendablePlaintext`removed
      ensures Conserving() && old(sent) <= sent
      ensures sendablePlaintext.chunks == old(sendablePlaintext.chunks)[1..]
      ensures Delivers(recordLayer.writeSeq, TotalChunks(sendablePlaintext.chunks, maxFrag))
    {
      hide AppData, Wire, Chunks, Flatten, Delivers, TotalChunks;
      DeliversOneByOne(recordLayer.writeSeq, sendablePlaintext.chunks, maxFrag);
      var popped := sendablePlaintext.Pop();
      var buf := popped.value;
      ConcatAssociates(AppData(sent), buf, sendablePlaintext.Bytes());
      assert buf[..|buf|] == buf;
      var len := SendAppdataEncrypt(buf, No);
      assert buf[..len] == buf;
    }

    /** A handshake message or an alert, sealed when `mustEncrypt`. */
    method SendMsg(m: Fragment, mustEncrypt: bool)
      requires Valid() && m.typ != ApplicationData
      requires mustEncrypt ==>
        recordLayer.IsEncrypting() && !Loops(recordLayer.writeSeq, |Chunks(m.payload, maxFrag)|)
      modifies this`sent, recordLayer`writeSeq, recordLayer`used, sendableTls`chunks, sendableTls`appended
      ensures Valid() && AppData(sent) == AppData(old(sent)) && old(sent) <= sent
      ensures mustEncrypt ==>
        var parts := Chunks(m.payload, maxFrag);
        Sending() == SentAll(old(Sending()), m.typ, parts[..Kept(old(recordLayer.writeSeq), |parts|)])
      ensures !mustEncrypt ==>
        && sent == old(sent) + InClear(m.typ, Chunks(m.payload, maxFrag))
        && recordLayer.writeSeq == old(recordLayer.writeSeq)
    {
      hide AppData, Wire, Chunks, Flatten, Sealed;
      var parts := Chunks(m.payload, maxFrag);
      if mustEncrypt {
        ghost var kept := parts[..Kept(recordLayer.writeSeq, |parts|)];
        SealedCarriesPayload(sent, recordLayer.messageEncrypter, recordLayer.writeSeq, m.typ, kept);
        SendEachFragment(m.typ, parts);
      } else {
        SendInClear(m.typ, parts);
      }
    }

    method SendInClear(typ: ContentType, parts: seq<seq<byte>>)
      requires Valid() && typ != ApplicationData
      modifies this`sent, sendableTls`chunks, sendableTls`appended
      ensures Valid() && AppData(sent) == AppData(old(sent)) && sent == old(sent) + InClear(typ, parts)
    {
      hide AppData, Wire, Flatten;
      ghost var before := sent;
      assert before + [] == before;
      for i := 0 to |parts|
        invariant Valid() && AppData(sent) == AppData(before) && sent == before + InClear(typ, parts[..i])
      {
        InClearSnoc(before, typ, parts, i);
        QueueTlsMessage(Record(None, Fragment(typ, parts[i])));
      }
      assert parts[..|parts|] == parts;
    }

    /** Seals a key-update notification under the current key; the source panics when exhausted. */
    method EnqueueKeyUpdateNotification(payload: seq<byte>)
      requires Valid() && recordLayer.IsEncrypting() && recordLayer.writeSeq < SEQ_HARD_LIMIT
      modifies this`queuedKeyUpdateMessage, recordLayer`writeSeq, recordLayer`used
      ensures Valid()
      ensures var nonce := Nonce(recordLayer.messageEncrypter, old(recordLayer.writeSeq));
        queuedKeyUpdateMessage == Some(Record(Some(nonce), Fragment(Handshake, payload)))
    {
      var nonce := recordLayer.EncryptOutgoing();
      queuedKeyUpdateMessage := Some(Record(Some(nonce), Fragment(Handshake, payload)));
    }

    method PerhapsWriteKeyUpdate()
      requires Valid()
      modifies this`queuedKeyUpdateMessage, this`sent, sendableTls`chunks, sendableTls`appended
      ensures Valid() && queuedKeyUpdateMessage == None
      ensures sent == old(sent) + if old(queuedKeyUpdateMessage).Some? then [old(queuedKeyUpdateMessage).value] else []
      ensures |sendableTls.Bytes()| == |old(sendableTls.Bytes())| + old(Ahead())
    {
      if queuedKeyUpdateMessage.Some? {
        var message := queuedKeyUpdateMessage.value;
        queuedKeyUpdateMessage := None;
        QueueTlsMessage(message);
      }
    }

    method SetBufferLimit(limit: Option<nat>)
      requires Valid()
      modifies sendablePlaintext`limit, sendableTls`limit
      ensures Valid() && sendablePlaintext.limit == limit && sendableTls.limit == limit
    {
      sendablePlaintext.SetLimit(limit);
      sendableTls.SetLimit(limit);
    }

    /** A key change while running: the new cipher is active at once. */
    method SetMessageEncrypter(cipher: Cipher)
      requires Valid() && cipher !in recordLayer.installed
      modifies recordLayer
      ensures Valid() && recordLayer.IsEncrypting() && recordLayer.messageEncrypter == cipher
    {
      recordLayer.SetMessageEncrypter(cipher);
    }

    /** `write_tls`: what the writer takes leaves the front of the encoded records, in order. */
    method WriteTls(writer: Option<nat>) returns (used: Option<nat>)
      requires Valid()
      requires writer.Some? ==> writer.value <= |sendableTls.Offered()|
      modifies sendableTls`chunks, sendableTls`removed
      ensures Valid()
      ensures used == if old(sendableTls.chunks) == [] then Some(0) else writer
      ensures var n := if used.Some? then used.value else 0;
        && n <= |old(sendableTls.Bytes())| && sendableTls.Bytes() == old(sendableTls.Bytes())[n..]
        && sendableTls.removed == old(sendableTls.removed) + old(sendableTls.Bytes())[..n]
      ensures Wire(encode, sent) == sendableTls.removed + sendableTls.Bytes()
    {
      used := sendableTls.WriteTo(writer);
    }
  }

  ghost function TotalChunks(bufs: seq<seq<byte>>, maxFrag: nat): nat
    requires maxFrag > 0
  {
    if bufs == [] then 0 else |Chunks(bufs[0], maxFrag)| + TotalChunks(bufs[1..], maxFrag)
  }

  /** Nothing in the way of all the buffers is nothing in the way of the first, nor of the rest after it. */
  lemma DeliversOneByOne(writeSeq: nat, bufs: seq<seq<byte>>, maxFrag: nat)
    requires maxFrag > 0 && bufs != [] && Delivers(writeSeq, TotalChunks(bufs, maxFrag))
    ensures Delivers(writeSeq, |Chunks(bufs[0], maxFrag)|)
    ensures Delivers(writeSeq + |Chunks(bufs[0], maxFrag)|, TotalChunks(bufs[1..], maxFrag))
  {
    hide Chunks;
  }

  lemma {:induction false} ShorterPayloadFewerChunks(a: seq<byte>, b: seq<byte>, maxFrag: nat)
    requires maxFrag > 0 && |a| <= |b|
    ensures |Chunks(a, maxFrag)| <= |Chunks(b, maxFrag)|
    decreases |a|
  {
    if |a| > maxFrag {
      ShorterPayloadFewerChunks(a[maxFrag..], b[maxFrag..], maxFrag);
    }
  }

  /** A counter clear of the limits for all the data is clear for whatever prefix of it is taken. */
  lemma ClearForAllIsClearForAPrefix(writeSeq: nat, data: seq<byte>, n: nat, maxFrag: nat)
    requires maxFrag > 0 && n <= |data| && Delivers(writeSeq, |Chunks(data, maxFrag)|)
    ensures Delivers(writeSeq, |Chunks(data[..n], maxFrag)|)
  {
    hide Chunks;
    ShorterPayloadFewerChunks(data[..n], data, maxFrag);
  }
}
