/** `usage_recorder.rs`: token counts sniffed from a response stream. */
module UsageParsers {
  import opened Prelude
  import opened JsonValues

  const NEWLINE: byte := 0x0A
  const PARSER_BUF_CAP: nat := 512 * 1024

  // ---- Lines of a byte stream ----

  /** The first newline, or the length. */
  function NewlineAt(s: seq<byte>): (i: nat)
    ensures i <= |s|
    ensures forall j :: 0 <= j < i ==> s[j] != NEWLINE
    ensures i < |s| ==> s[i] == NEWLINE
  {
    if s == [] || s[0] == NEWLINE then 0 else 1 + NewlineAt(s[1..])
  }

  /** The newline-terminated lines of a stream, without their newlines. */
  function Lines(s: seq<byte>): seq<seq<byte>>
    decreases |s|
  {
    var i := NewlineAt(s);
    if i == |s| then [] else [s[..i]] + Lines(s[i + 1..])
  }

  /** What follows the last newline. */
  function Pending(s: seq<byte>): (rest: seq<byte>)
    ensures NEWLINE !in rest
    decreases |s|
  {
    var i := NewlineAt(s);
    if i == |s| then s else Pending(s[i + 1..])
  }

  /** The first line off the front of a stream that has one. */
  lemma OneLine(s: seq<byte>)
    ensures var i := NewlineAt(s);
      if i < |s| then Lines(s) == [s[..i]] + Lines(s[i + 1..]) && Pending(s) == Pending(s[i + 1..])
      else Lines(s) == [] && Pending(s) == s
  {
    hide NewlineAt;
  }

  lemma NewlineAfterPrefix(a: seq<byte>, b: seq<byte>)
    requires NewlineAt(a) < |a|
    ensures var i := NewlineAt(a);
      NewlineAt(a + b) == i && (a + b)[..i] == a[..i] && (a + b)[i + 1..] == a[i + 1..] + b
  {
    hide NewlineAt;
    var i, j := NewlineAt(a), NewlineAt(a + b);
    assert (a + b)[i] == NEWLINE;
    assert j < |a| ==> (a + b)[j] == a[j];
    assert forall k :: 0 <= k < i ==> (a + b)[k] == a[k];
  }

  /** Splitting a stream anywhere gives the same lines, as long as the pending bytes are carried over. */
  lemma {:induction false} LinesOfConcat(a: seq<byte>, b: seq<byte>)
    ensures Lines(a + b) == Lines(a) + Lines(Pending(a) + b)
    ensures Pending(a + b) == Pending(Pending(a) + b)
    decreases |a|
  {
    hide Lines, Pending, NewlineAt;
    var i := NewlineAt(a);
    OneLine(a);
    if i < |a| {
      NewlineAfterPrefix(a, b);
      OneLine(a + b);
      LinesOfConcat(a[i + 1..], b);
      ConcatAssociates([a[..i]], Lines(a[i + 1..]), Lines(Pending(a) + b));
    } else {
      assert [] + Lines(a + b) == Lines(a + b);
    }
  }

  // ---- What events add up to ----

  datatype Tally = Tally(
    input: i64, output: i64, cacheCreate: i64, cacheRead: i64, cc5m: i64, cc1h: i64,
    model: string, requestId: string)

  const EMPTY := Tally(0, 0, 0, 0, 0, 0, "", "")

  function SetMeta(t: Tally, node: Json): Tally {
    t.(model := if t.model == "" then StringOr(Get(node, "model")) else t.model,
       requestId := if t.requestId == "" then StringOr(Get(node, "id")) else t.requestId)
  }

  function KeepUnlessPositive(was: i64, reported: i64): i64 {
    if reported > 0 then reported else was
  }

  function AbsorbUsage(t: Tally, u: Json, withInput: bool): Tally {
    var s := t.(output := KeepUnlessPositive(t.output, I64Or(Get(u, "output_tokens"))));
    var input := I64Or(Get(u, "input_tokens"));
    var cacheCreate := I64Or(Get(u, "cache_creation_input_tokens"));
    var cacheRead := I64Or(Get(u, "cache_read_input_tokens"));
    if withInput then
      var r := s.(input := input, cacheCreate := cacheCreate, cacheRead := cacheRead);
      var split := Get(u, "cache_creation");
      if split.None? then r
      else r.(cc5m := I64Or(Get(split.value, "ephemeral_5m_input_tokens")),
              cc1h := I64Or(Get(split.value, "ephemeral_1h_input_tokens")))
    else
      s.(input := KeepUnlessPositive(s.input, input),
         cacheCreate := KeepUnlessPositive(s.cacheCreate, cacheCreate),
         cacheRead := KeepUnlessPositive(s.cacheRead, cacheRead))
  }

  function AbsorbEvent(t: Tally, v: Json): Tally {
    var ty := Get(v, "type");
    if ty == Some(String("message_start")) then
      var msg := Get(v, "message");
      if msg.None? then t else AbsorbNode(t, msg.value)
    else if ty == Some(String("message_delta")) then
      var u := Get(v, "usage");
      if u.None? then t else AbsorbUsage(t, u.value, false)
    else AbsorbNode(t, v)
  }

  /** A message, or a whole non-streamed response. */
  function AbsorbNode(t: Tally, node: Json): Tally {
    var s := SetMeta(t, node);
    var u := Get(node, "usage");
    if u.None? then s else AbsorbUsage(s, u.value, true)
  }

  /** The usage object an event carries, if any. */
  function UsageOf(v: Json): Option<Json> {
    var ty := Get(v, "type");
    if ty == Some(String("message_start")) then
      var msg := Get(v, "message");
      if msg.None? then None else Get(msg.value, "usage")
    else Get(v, "usage")
  }

  function AbsorbAll(t: Tally, events: seq<Json>): Tally {
    if events == [] then t
    else AbsorbEvent(AbsorbAll(t, events[..|events| - 1]), events[|events| - 1])
  }

  /** The positive output counts reported, in order. */
  ghost function OutputReports(events: seq<Json>): (reports: seq<i64>)
    ensures forall i :: 0 <= i < |reports| ==> reports[i] > 0
  {
    if events == [] then []
    else
      var n := |events| - 1;
      var out := OutputReport(events[n]);
      OutputReports(events[..n]) + if out > 0 then [out] else []
  }

  ghost function OutputReport(v: Json): i64 {
    var u := UsageOf(v);
    if u.Some? then I64Or(Get(u.value, "output_tokens")) else 0
  }

  lemma EventSetsPositiveOutput(t: Tally, v: Json)
    ensures AbsorbEvent(t, v).output == KeepUnlessPositive(t.output, OutputReport(v))
  {
  }

  /** The output count is cumulative upstream, so the last positive report wins. */
  lemma {:induction false} OutputIsLastPositiveReport(t: Tally, events: seq<Json>)
    ensures var reports := OutputReports(events);
      AbsorbAll(t, events).output == if reports == [] then t.output else reports[|reports| - 1]
  {
    if events != [] {
      var n := |events| - 1;
      OutputIsLastPositiveReport(t, events[..n]);
      EventSetsPositiveOutput(AbsorbAll(t, events[..n]), events[n]);
    }
  }

  /** The first model and id seen stay; later events cannot change them. */
  lemma {:induction false} MetadataIsStable(t: Tally, events: seq<Json>)
    ensures t.model != "" ==> AbsorbAll(t, events).model == t.model
    ensures t.requestId != "" ==> AbsorbAll(t, events).requestId == t.requestId
  {
    if events != [] {
      MetadataIsStable(t, events[..|events| - 1]);
    }
  }

  // ---- What every field ends up as, over the events' own keys ----

  predicate IsDelta(v: Json) {
    Get(v, "type") == Some(String("message_delta"))
  }

  /** What an event says of a count: a start or a whole body always says it, a delta only when positive. */
  ghost function Report(v: Json, key: string): Option<i64> {
    var u := UsageOf(v);
    if u.None? then None
    else
      var count := I64Or(Get(u.value, key));
      if IsDelta(v) && count <= 0 then None else Some(count)
  }

  /** What an event says of how long cached tokens are kept: nothing without the object that splits them. */
  ghost function SplitReport(v: Json, key: string): Option<i64> {
    var u := UsageOf(v);
    if u.None? || IsDelta(v) then None
    else
      var split := Get(u.value, "cache_creation");
      if split.None? then None else Some(I64Or(Get(split.value, key)))
  }

  ghost function LastReport(events: seq<Json>, key: string, was: i64): i64 {
    if events == [] then was
    else
      var n := |events| - 1;
      var said := Report(events[n], key);
      if said.Some? then said.value else LastReport(events[..n], key, was)
  }

  ghost function LastSplitReport(events: seq<Json>, key: string, was: i64): i64 {
    if events == [] then was
    else
      var n := |events| - 1;
      var said := SplitReport(events[n], key);
      if said.Some? then said.value else LastSplitReport(events[..n], key, was)
  }

  /** What an event names; deltas name nothing. */
  ghost function NameIn(v: Json, key: string): string {
    if IsDelta(v) then ""
    else if Get(v, "type") != Some(String("message_start")) then StringOr(Get(v, key))
    else
      var msg := Get(v, "message");
      if msg.None? then "" else StringOr(Get(msg.value, key))
  }

  ghost function FirstName(events: seq<Json>, key: string, was: string): string {
    if events == [] then was
    else
      var n := |events| - 1;
      var earlier := FirstName(events[..n], key, was);
      if earlier != "" then earlier else NameIn(events[n], key)
  }

  /** Every count is the one its own key had in the last event that set it; names are the first ones. */
  ghost predicate TellsOf(was: Tally, events: seq<Json>, now: Tally) {
    var reports := OutputReports(events);
    && now.output == (if reports == [] then was.output else reports[|reports| - 1])
    && now.input == LastReport(events, "input_tokens", was.input)
    && now.cacheCreate == LastReport(events, "cache_creation_input_tokens", was.cacheCreate)
    && now.cacheRead == LastReport(events, "cache_read_input_tokens", was.cacheRead)
    && now.cc5m == LastSplitReport(events, "ephemeral_5m_input_tokens", was.cc5m)
    && now.cc1h == LastSplitReport(events, "ephemeral_1h_input_tokens", was.cc1h)
    && now.model == FirstName(events, "model", was.model)
    && now.requestId == FirstName(events, "id", was.requestId)
  }

  lemma OneEventTells(t: Tally, v: Json)
    ensures var s := AbsorbEvent(t, v);
      && s.input == Report(v, "input_tokens").UnwrapOr(t.input)
      && s.cacheCreate == Report(v, "cache_creation_input_tokens").UnwrapOr(t.cacheCreate)
      && s.cacheRead == Report(v, "cache_read_input_tokens").UnwrapOr(t.cacheRead)
      && s.cc5m == SplitReport(v, "ephemeral_5m_input_tokens").UnwrapOr(t.cc5m)
      && s.cc1h == SplitReport(v, "ephemeral_1h_input_tokens").UnwrapOr(t.cc1h)
  {
    hide SetMeta;
    SettingNamesKeepsCounts(t, v);
    if Get(v, "message").Some? {
      SettingNamesKeepsCounts(t, Get(v, "message").value);
    }
  }

  lemma SettingNamesKeepsCounts(t: Tally, node: Json)
    ensures var s := SetMeta(t, node); s == t.(model := s.model, requestId := s.requestId)
  {
  }

  lemma OneEventNames(t: Tally, v: Json)
    ensures var s := AbsorbEvent(t, v);
      && s.model == (if t.model != "" then t.model else NameIn(v, "model"))
      && s.requestId == (if t.requestId != "" then t.requestId else NameIn(v, "id"))
  {
    hide I64Or, AbsorbUsage, StringOr;
    AbsorbNodeNames(t, v);
    if Get(v, "message").Some? {
      AbsorbNodeNames(t, Get(v, "message").value);
    }
    if Get(v, "usage").Some? {
      UsageNamesNothing(t, Get(v, "usage").value, false);
    }
    hide AbsorbNode;
  }

  lemma AbsorbNodeNames(t: Tally, node: Json)
    ensures var s := AbsorbNode(t, node);
      && s.model == (if t.model != "" then t.model else StringOr(Get(node, "model")))
      && s.requestId == (if t.requestId != "" then t.requestId else StringOr(Get(node, "id")))
  {
    hide AbsorbUsage, StringOr;
    if Get(node, "usage").Some? {
      UsageNamesNothing(SetMeta(t, node), Get(node, "usage").value, true);
    }
  }

  lemma UsageNamesNothing(t: Tally, u: Json, withInput: bool)
    ensures AbsorbUsage(t, u, withInput).model == t.model && AbsorbUsage(t, u, withInput).requestId == t.requestId
  {
  }

  /** Over any events, whatever the tally was before them. */
  lemma {:induction false} TallyTellsOfTheEvents(t: Tally, events: seq<Json>)
    ensures TellsOf(t, events, AbsorbAll(t, events))
  {
    OutputIsLastPositiveReport(t, events);
    if events != [] {
      var n := |events| - 1;
      TallyTellsOfTheEvents(t, events[..n]);
      OneEventTells(AbsorbAll(t, events[..n]), events[n]);
      OneEventNames(AbsorbAll(t, events[..n]), events[n]);
      hide AbsorbEvent, Report, SplitReport, NameIn, OutputReports;
    }
  }

  /** Decodes one line: UTF-8, trimming, the `data:` prefix and JSON parsing, all left abstract. */
  type LineDecoder = seq<byte> -> Option<Json>

  function ProcessLine(t: Tally, line: seq<byte>, decode: LineDecoder): Tally {
    var v := decode(line);
    if v.None? then t else AbsorbEvent(t, v.value)
  }

  function ProcessLines(t: Tally, lines: seq<seq<byte>>, decode: LineDecoder): Tally
    decreases |lines|
  {
    if lines == [] then t else ProcessLines(ProcessLine(t, lines[0], decode), lines[1..], decode)
  }

  lemma {:induction false} ProcessLinesConcat(t: Tally, a: seq<seq<byte>>, b: seq<seq<byte>>, decode: LineDecoder)
    ensures ProcessLines(t, a + b, decode) == ProcessLines(ProcessLines(t, a, decode), b, decode)
    decreases |a|
  {
    if a == [] {
      assert a + b == b;
    } else {
      assert (a + b)[0] == a[0] && (a + b)[1..] == a[1..] + b;
      ProcessLinesConcat(ProcessLine(t, a[0], decode), a[1..], b, decode);
    }
  }

  /** The events the lines carry. */
  function Decoded(lines: seq<seq<byte>>, decode: LineDecoder): seq<Json> {
    if lines == [] then []
    else
      var n := |lines| - 1;
      var v := decode(lines[n]);
      Decoded(lines[..n], decode) + if v.Some? then [v.value] else []
  }

  lemma OneMoreLine(t: Tally, front: seq<seq<byte>>, line: seq<byte>, decode: LineDecoder)
    ensures ProcessLines(t, front + [line], decode) == ProcessLine(ProcessLines(t, front, decode), line, decode)
  {
    hide ProcessLine;
    ProcessLinesConcat(t, front, [line], decode);
    assert [line][1..] == [];
  }

  lemma OneMoreEvent(t: Tally, events: seq<Json>, v: Json)
    ensures AbsorbAll(t, events + [v]) == AbsorbEvent(AbsorbAll(t, events), v)
  {
    hide AbsorbEvent;
    assert (events + [v])[..|events|] == events;
  }

  lemma {:induction false} LinesAreTheirEvents(t: Tally, lines: seq<seq<byte>>, decode: LineDecoder)
    ensures ProcessLines(t, lines, decode) == AbsorbAll(t, Decoded(lines, decode))
  {
    if lines != [] {
      hide AbsorbEvent, AbsorbAll, ProcessLines;
      var n := |lines| - 1;
      LinesAreTheirEvents(t, lines[..n], decode);
      assert lines == lines[..n] + [lines[n]];
      OneMoreLine(t, lines[..n], lines[n], decode);
      var v, front := decode(lines[n]), Decoded(lines[..n], decode);
      if v.Some? {
        OneMoreEvent(t, front, v.value);
      } else {
        assert front + [] == front;
      }
    } else {
      assert Decoded(lines, decode) == [];
    }
  }

  lemma LinesTellOfTheirEvents(t: Tally, lines: seq<seq<byte>>, decode: LineDecoder)
    ensures TellsOf(t, Decoded(lines, decode), ProcessLines(t, lines, decode))
  {
    hide TellsOf;
    LinesAreTheirEvents(t, lines, decode);
    TallyTellsOfTheEvents(t, Decoded(lines, decode));
  }

  /** A whole stream, however it is cut: the tally tells of the events of its lines. */
  lemma StreamIsTalliedByItsEvents(chunks: seq<seq<byte>>, decode: LineDecoder)
    requires NeverOverflows(Parsing([], EMPTY), chunks, decode)
    ensures TellsOf(EMPTY, Decoded(Lines(Flatten(chunks)), decode), FeedAll(Parsing([], EMPTY), chunks, decode).tally)
  {
    hide TellsOf, Lines, Pending;
    ChunkingIsIrrelevant(chunks, decode);
    LinesTellOfTheirEvents(EMPTY, Lines(Flatten(chunks)), decode);
  }

  lemma FirstLine(t: Tally, s: seq<byte>, decode: LineDecoder)
    requires NewlineAt(s) < |s|
    ensures var i := NewlineAt(s);
      && Pending(s) == Pending(s[i + 1..])
      && ProcessLines(t, Lines(s), decode) == ProcessLines(ProcessLine(t, s[..i], decode), Lines(s[i + 1..]), decode)
  {
    hide ProcessLine, NewlineAt;
    assert Lines(s)[1..] == Lines(s[NewlineAt(s) + 1..]);
  }

  // ---- Feeding chunks ----

  datatype Parsing = Parsing(pending: seq<byte>, tally: Tally)

  /** A feed loses nothing when the cap is respected or there was nothing pending to drop. */
  predicate KeepsPending(pending: seq<byte>, chunk: seq<byte>) {
    pending == [] || |pending| + |chunk| <= PARSER_BUF_CAP
  }

  function Fed(p: Parsing, chunk: seq<byte>, decode: LineDecoder): Parsing {
    var buffer := (if |p.pending| + |chunk| > PARSER_BUF_CAP then [] else p.pending) + chunk;
    Parsing(Pending(buffer), ProcessLines(p.tally, Lines(buffer), decode))
  }

  function FeedAll(p: Parsing, chunks: seq<seq<byte>>, decode: LineDecoder): Parsing {
    if chunks == [] then p
    else Fed(FeedAll(p, chunks[..|chunks| - 1], decode), chunks[|chunks| - 1], decode)
  }

  /** Every feed of the sequence respects the cap. */
  ghost predicate NeverOverflows(p: Parsing, chunks: seq<seq<byte>>, decode: LineDecoder) {
    forall i :: 0 <= i < |chunks| ==> KeepsPending(FeedAll(p, chunks[..i], decode).pending, chunks[i])
  }

  /** The whole stream read line by line. */
  function ReadWhole(stream: seq<byte>, decode: LineDecoder): Parsing {
    Parsing(Pending(stream), ProcessLines(EMPTY, Lines(stream), decode))
  }

  /** However a stream is cut into chunks, the result is that of reading its lines once, in order. */
  lemma {:induction false} ChunkingIsIrrelevant(chunks: seq<seq<byte>>, decode: LineDecoder)
    requires NeverOverflows(Parsing([], EMPTY), chunks, decode)
    ensures FeedAll(Parsing([], EMPTY), chunks, decode) == ReadWhole(Flatten(chunks), decode)
    decreases |chunks|
  {
    hide *;
    if chunks != [] {
      var n := |chunks| - 1;
      var front, chunk := chunks[..n], chunks[n];
      NeverOverflowsPrefix(Parsing([], EMPTY), chunks, decode);
      FeedAllSnoc(Parsing([], EMPTY), chunks, decode);
      ChunkingIsIrrelevant(front, decode);
      assert chunks == front + [chunk];
      FlattenSnoc(front, chunk);
      OneMoreChunk(Flatten(front), chunk, decode);
    } else {
      NothingRead(decode);
    }
  }

  lemma NothingRead(decode: LineDecoder)
    ensures FeedAll(Parsing([], EMPTY), [], decode) == ReadWhole(Flatten([]), decode)
  {
    assert Lines([]) == [] && Pending([]) == [];
  }

  lemma FeedAllSnoc(p: Parsing, chunks: seq<seq<byte>>, decode: LineDecoder)
    requires chunks != []
    ensures var n := |chunks| - 1; FeedAll(p, chunks, decode) == Fed(FeedAll(p, chunks[..n], decode), chunks[n], decode)
  {
  }

  lemma NeverOverflowsPrefix(p: Parsing, chunks: seq<seq<byte>>, decode: LineDecoder)
    requires chunks != [] && NeverOverflows(p, chunks, decode)
    ensures var n := |chunks| - 1;
      NeverOverflows(p, chunks[..n], decode) && KeepsPending(FeedAll(p, chunks[..n], decode).pending, chunks[n])
  {
    hide FeedAll, KeepsPending;
    var front := chunks[..|chunks| - 1];
    forall i | 0 <= i < |front| ensures KeepsPending(FeedAll(p, front[..i], decode).pending, front[i]) {
      assert front[..i] == chunks[..i];
    }
  }

  lemma OneMoreChunk(stream: seq<byte>, chunk: seq<byte>, decode: LineDecoder)
    requires KeepsPending(ReadWhole(stream, decode).pending, chunk)
    ensures Fed(ReadWhole(stream, decode), chunk, decode) == ReadWhole(stream + chunk, decode)
  {
    hide Lines, Pending, ProcessLines;
    LinesOfConcat(stream, chunk);
    ProcessLinesConcat(EMPTY, Lines(stream), Lines(Pending(stream) + chunk), decode);
    if Pending(stream) == [] {
      assert [] + chunk == chunk;
    }
  }

  /** Reading on as if nothing were ever dropped. */
  function ReadOn(p: Parsing, chunk: seq<byte>, decode: LineDecoder): Parsing {
    Parsing(Pending(p.pending + chunk), ProcessLines(p.tally, Lines(p.pending + chunk), decode))
  }

  /** A decoder for which the first of two lines it sees decides the model for good. */
  function TellApart(a: seq<byte>, b: seq<byte>): LineDecoder {
    line => if line == a then Some(Object(map["model" := String("a")]))
            else if line == b then Some(Object(map["model" := String("b")]))
            else None
  }

  lemma FirstLineDecidesModel(a: seq<byte>, b: seq<byte>, lines: seq<seq<byte>>)
    requires a != b && lines != [] && (lines[0] == a || lines[0] == b)
    ensures ProcessLines(EMPTY, lines, TellApart(a, b)).model == if lines[0] == a then "a" else "b"
  {
    var t := ProcessLine(EMPTY, lines[0], TellApart(a, b));
    assert t.model == if lines[0] == a then "a" else "b";
    ModelSticks(t, lines[1..], TellApart(a, b));
  }

  lemma {:induction false} ModelSticks(t: Tally, lines: seq<seq<byte>>, decode: LineDecoder)
    requires t.model != ""
    ensures ProcessLines(t, lines, decode).model == t.model
    decreases |lines|
  {
    if lines != [] {
      ModelSticks(ProcessLine(t, lines[0], decode), lines[1..], decode);
    }
  }

  lemma NewlineAfterPending(pending: seq<byte>, chunk: seq<byte>)
    requires NEWLINE !in pending
    ensures NewlineAt(pending + chunk) == |pending| + NewlineAt(chunk)
  {
    hide NewlineAt;
    var i, whole := NewlineAt(chunk), pending + chunk;
    assert forall k :: 0 <= k < |pending| + i ==> whole[k] != NEWLINE;
    assert i < |chunk| ==> whole[|pending| + i] == NEWLINE;
  }

  lemma OverflowShows(pending: seq<byte>, chunk: seq<byte>)
    requires NEWLINE !in pending && !KeepsPending(pending, chunk)
    ensures exists decode: LineDecoder ::
      Fed(Parsing(pending, EMPTY), chunk, decode) != ReadOn(Parsing(pending, EMPTY), chunk, decode)
  {
    hide AbsorbEvent;
    var i := NewlineAt(chunk);
    var whole := pending + chunk;
    assert [] + chunk == chunk;
    NewlineAfterPending(pending, chunk);
    hide ProcessLines;
    var a, b := whole[..|pending| + i], chunk[..i];
    var decode := TellApart(a, b);
    if i < |chunk| {
      FirstLineDecidesModel(a, b, Lines(whole));
      FirstLineDecidesModel(a, b, Lines(chunk));
    }
    assert Fed(Parsing(pending, EMPTY), chunk, decode) != ReadOn(Parsing(pending, EMPTY), chunk, decode);
  }

  /** A feed reads on faithfully, whatever the lines mean, exactly when `KeepsPending` holds. */
  lemma FeedIsFaithfulExactly(pending: seq<byte>, chunk: seq<byte>)
    requires NEWLINE !in pending
    ensures KeepsPending(pending, chunk) <==> forall t: Tally, decode: LineDecoder ::
      Fed(Parsing(pending, t), chunk, decode) == ReadOn(Parsing(pending, t), chunk, decode)
  {
    if !KeepsPending(pending, chunk) {
      OverflowShows(pending, chunk);
    }
  }

  class UsageParser {
    const isStream: bool
    const decode: LineDecoder
    // Parsing a whole body, used when the response is not streamed.
    const parseBody: LineDecoder
    var lineBuf: seq<byte>
    var bodyBuf: seq<byte>
    var tally: Tally

    ghost predicate Valid()
      reads this
    {
      NEWLINE !in lineBuf
    }

    constructor (isStream: bool, decode: LineDecoder, parseBody: LineDecoder)
      ensures Valid() && this.isStream == isStream && this.decode == decode && this.parseBody == parseBody
      ensures lineBuf == [] && bodyBuf == [] && tally == EMPTY
    {
      this.isStream, this.decode, this.parseBody := isStream, decode, parseBody;
      lineBuf, bodyBuf, tally := [], [], EMPTY;
    }

    method Feed(chunk: seq<byte>)
      requires Valid()
      modifies this
      ensures Valid()
      ensures var before := old(Parsing(lineBuf, tally));
        Parsing(lineBuf, tally) == if isStream then Fed(before, chunk, decode) else before
      ensures isStream ==>
        var read := (if |old(lineBuf)| + |chunk| > PARSER_BUF_CAP then [] else old(lineBuf)) + chunk;
        TellsOf(old(tally), Decoded(Lines(read), decode), tally)
      ensures bodyBuf == if !isStream && |old(bodyBuf)| < PARSER_BUF_CAP then old(bodyBuf) + chunk else old(bodyBuf)
    {
      if isStream {
        if |lineBuf| + |chunk| > PARSER_BUF_CAP {
          lineBuf := [];
        }
        lineBuf := lineBuf + chunk;
        ghost var buffer := lineBuf;
        LinesTellOfTheirEvents(tally, Lines(buffer), decode);
        hide TellsOf;
        var pos := NewlineAt(lineBuf);
        while pos < |lineBuf|
          invariant pos == NewlineAt(lineBuf)
          invariant Pending(lineBuf) == Pending(buffer) && bodyBuf == old(bodyBuf)
          invariant ProcessLines(tally, Lines(lineBuf), decode) == ProcessLines(old(tally), Lines(buffer), decode)
          decreases |lineBuf|
        {
          var line := lineBuf[..pos];
          FirstLine(tally, lineBuf, decode);
          lineBuf := lineBuf[pos + 1..];
          tally := ProcessLine(tally, line, decode);
          pos := NewlineAt(lineBuf);
        }
      } else if |bodyBuf| < PARSER_BUF_CAP {
        bodyBuf := bodyBuf + chunk;
      }
    }

    /** A streamed response ends with whatever its terminated lines said; a body is parsed here. */
    method Finish()
      requires Valid()
      modifies this`tally
      ensures Valid()
      ensures tally == if isStream || bodyBuf == [] then old(tally) else ProcessLine(old(tally), bodyBuf, parseBody)
      ensures !isStream && bodyBuf != [] ==> TellsOf(old(tally), Decoded([bodyBuf], parseBody), tally)
    {
      if !isStream && bodyBuf != [] {
        var v := parseBody(bodyBuf);
        LinesTellOfTheirEvents(tally, [bodyBuf], parseBody);
        hide TellsOf;
        if v.Some? {
          tally := AbsorbEvent(tally, v.value);
        }
      }
    }
  }
}
