/** The URL codec of `oauth_flow.rs`. Strings are their UTF-8 bytes. */
module OauthFlow {
  import opened Prelude
  import opened Utf8

  const PERCENT: byte := 0x25
  const PLUS: byte := 0x2B
  const SPACE: byte := 0x20
  const QUESTION: byte := 0x3F
  const AMPERSAND: byte := 0x26
  const EQUALS: byte := 0x3D

  /** The unreserved characters of RFC 3986, section 2.3. */
  predicate Unreserved(b: byte) {
    0x41 <= b <= 0x5A || 0x61 <= b <= 0x7A || 0x30 <= b <= 0x39 || b == 0x2D || b == 0x5F || b == 0x2E || b == 0x7E
  }

  function UpperHex(d: nat): (b: byte)
    requires d < 16
    ensures Unreserved(b) && HexValue(b) == Some(d) && (0x30 <= b <= 0x39 || 0x41 <= b <= 0x46)
  {
    if d < 10 then 0x30 + d else 0x41 + d - 10
  }

  function HexValue(b: byte): Option<nat> {
    if 0x30 <= b <= 0x39 then Some(b - 0x30)
    else if 0x41 <= b <= 0x46 then Some(b - 0x41 + 10)
    else if 0x61 <= b <= 0x66 then Some(b - 0x61 + 10)
    else None
  }

  /** `u8::from_str_radix` on two characters: a leading plus sign is allowed. */
  function FromHexPair(hi: byte, lo: byte): (v: Option<byte>)
    ensures v.Some? <==> HexValue(lo).Some? && (HexValue(hi).Some? || hi == PLUS)
    ensures HexValue(hi).Some? && HexValue(lo).Some? ==> v == Some(HexValue(hi).value * 16 + HexValue(lo).value)
  {
    if HexValue(lo).None? then None
    else if hi == PLUS then Some(HexValue(lo).value)
    else if HexValue(hi).None? then None
    else Some(HexValue(hi).value * 16 + HexValue(lo).value)
  }

  // ---- Encoding ----

  function EncodeByte(b: byte): seq<byte> {
    if Unreserved(b) then [b] else [PERCENT, UpperHex(b / 16), UpperHex(b % 16)]
  }

  function Encode(input: seq<byte>): seq<byte> {
    if input == [] then [] else EncodeByte(input[0]) + Encode(input[1..])
  }

  lemma {:induction false} EncodeSnoc(a: seq<byte>, b: byte)
    ensures Encode(a + [b]) == Encode(a) + EncodeByte(b)
  {
    if a == [] {
      assert Encode([b]) == EncodeByte(b) + Encode([]);
    } else {
      EncodeSnoc(a[1..], b);
      assert (a + [b])[1..] == a[1..] + [b];
      ConcatAssociates(EncodeByte(a[0]), Encode(a[1..]), EncodeByte(b));
    }
  }

  method PercentEncode(input: seq<byte>) returns (result: seq<byte>)
    ensures result == Encode(input)
  {
    result := [];
    for i := 0 to |input|
      invariant result == Encode(input[..i])
    {
      assert input[..i + 1] == input[..i] + [input[i]];
      EncodeSnoc(input[..i], input[i]);
      if Unreserved(input[i]) {
        result := result + [input[i]];
      } else {
        result := result + [PERCENT, UpperHex(input[i] / 16), UpperHex(input[i] % 16)];
      }
    }
    assert input[..|input|] == input;
  }

  /** Encoded text holds unreserved characters and percent signs, so no delimiter at all. */
  lemma {:induction false} EncodingHasNoDelimiters(input: seq<byte>)
    ensures forall i :: 0 <= i < |Encode(input)| ==> Unreserved(Encode(input)[i]) || Encode(input)[i] == PERCENT
  {
    if input != [] {
      EncodingHasNoDelimiters(input[1..]);
    }
  }

  /** Nothing is escaped that need not be: text stays as it is exactly when it is all unreserved. */
  lemma {:induction false} EncodingIsMinimal(input: seq<byte>)
    ensures (forall i :: 0 <= i < |input| ==> Unreserved(input[i])) <==> Encode(input) == input
    ensures |Encode(input)| >= |input|
  {
    if input != [] {
      EncodingIsMinimal(input[1..]);
      assert input == [input[0]] + input[1..];
    }
  }

  // ---- Decoding ----

  /** Bytes in front of an outcome that may be a panic. */
  function Prepend(front: seq<byte>, rest: Option<seq<byte>>): Option<seq<byte>> {
    if rest.None? then None else Some(front + rest.value)
  }

  lemma PrependTwice(a: seq<byte>, b: seq<byte>, rest: Option<seq<byte>>)
    ensures Prepend(a, Prepend(b, rest)) == Prepend(a + b, rest)
  {
    if rest.Some? {
      ConcatAssociates(a, b, rest.value);
    }
  }

  lemma PrependNothing(rest: Option<seq<byte>>)
    ensures Prepend([], rest) == rest
  {
    if rest.Some? {
      assert [] + rest.value == rest.value;
    }
  }

  /**
   * One turn of the loop: the byte produced and how much input is used; `None` is a panic, of a slice
   * that splits a character.
   */
  datatype Turn = Turn(out: byte, used: nat)

  function DecodeTurn(input: seq<byte>): (t: Option<Turn>)
    requires input != []
    ensures t.Some? ==> 0 < t.value.used <= |input|
  {
    if input[0] == PERCENT && 2 < |input| then
      if 3 < |input| && Continuation(input[3]) then None
      else
        var pair := FromHexPair(input[1], input[2]);
        Some(if pair.Some? then Turn(pair.value, 3) else Turn(PERCENT, 1))
    else Some(Turn(if input[0] == PLUS then SPACE else input[0], 1))
  }

  /** The decoded bytes; `None` when a slice would split a character. */
  function Decode(input: seq<byte>): Option<seq<byte>>
    decreases |input|
  {
    if input == [] then Some([])
    else
      var t := DecodeTurn(input);
      if t.None? then None else Prepend([t.value.out], Decode(input[t.value.used..]))
  }

  /** The decoded string: what is not UTF-8 among the decoded bytes is replaced. */
  function DecodeString(input: seq<byte>): Option<seq<byte>> {
    var bytes := Decode(input);
    if bytes.None? then None else Some(Lossy(bytes.value))
  }

  method PercentDecode(input: seq<byte>) returns (result: Option<seq<byte>>)
    ensures result == DecodeString(input)
  {
    hide Lossy;
    var out: seq<byte> := [];
    var i := 0;
    assert input[0..] == input;
    PrependNothing(Decode(input));
    while i < |input|
      invariant 0 <= i <= |input|
      invariant Decode(input) == Prepend(out, Decode(input[i..]))
      decreases |input| - i
    {
      ghost var turn := DecodeTurn(input[i..]);
      if turn.Some? {
        PrependTwice(out, [turn.value.out], Decode(input[i + turn.value.used..]));
        assert input[i..][turn.value.used..] == input[i + turn.value.used..];
      }
      if input[i] == PERCENT && i + 2 < |input| {
        if i + 3 < |input| && Continuation(input[i + 3]) {
          return None;
        }
        var pair := FromHexPair(input[i + 1], input[i + 2]);
        if pair.Some? {
          out := out + [pair.value];
          i := i + 3;
        } else {
          out := out + [input[i]];
          i := i + 1;
        }
      } else if input[i] == PLUS {
        out := out + [SPACE];
        i := i + 1;
      } else {
        out := out + [input[i]];
        i := i + 1;
      }
    }
    assert out + [] == out;
    result := Some(Lossy(out));
  }

  /** A percent sign with a slice after it that would end inside a character. */
  predicate PanicsAt(input: seq<byte>, i: nat) {
    i + 3 < |input| && input[i] == PERCENT && Continuation(input[i + 3])
  }

  lemma PanicMovesWithTheCursor(input: seq<byte>, used: nat, i: nat)
    requires used <= i && used <= |input|
    ensures PanicsAt(input, i) <==> PanicsAt(input[used..], i - used)
  {
  }

  /** No turn skips a percent sign: an escape holds hex digits or a plus sign. */
  lemma TurnSkipsNoPercent(input: seq<byte>, i: nat)
    requires input != [] && DecodeTurn(input).Some? && 0 < i < DecodeTurn(input).value.used
    ensures input[i] != PERCENT
  {
  }

  lemma {:induction false} PanicIsReached(input: seq<byte>, i: nat)
    requires PanicsAt(input, i)
    ensures Decode(input).None?
    decreases |input|
  {
    var t := DecodeTurn(input);
    if t.Some? {
      if 0 < i < t.value.used {
        TurnSkipsNoPercent(input, i);
      }
      PanicMovesWithTheCursor(input, t.value.used, i);
      PanicIsReached(input[t.value.used..], i - t.value.used);
    }
  }

  lemma {:induction false} PanicHasACause(input: seq<byte>) returns (i: nat)
    requires Decode(input).None?
    ensures PanicsAt(input, i)
    decreases |input|
  {
    var t := DecodeTurn(input);
    i := 0;
    if t.Some? {
      i := PanicHasACause(input[t.value.used..]);
      i := i + t.value.used;
      PanicMovesWithTheCursor(input, t.value.used, i);
    }
  }

  /** Decoding panics exactly when the third byte after some percent sign continues a character. */
  lemma PanicsExactly(input: seq<byte>)
    ensures Decode(input).None? <==> exists i :: PanicsAt(input, i)
  {
    if Decode(input).None? {
      var i := PanicHasACause(input);
    }
    if i :| PanicsAt(input, i) {
      PanicIsReached(input, i);
    }
  }

  ghost predicate Ascii(input: seq<byte>) {
    forall i :: 0 <= i < |input| ==> input[i] < 0x80
  }

  /** So it never does on ASCII text, which covers everything an encoder produces. */
  lemma AsciiNeverPanics(input: seq<byte>)
    requires Ascii(input)
    ensures Decode(input).Some?
  {
    if Decode(input).None? {
      var i := PanicHasACause(input);
    }
  }

  lemma DecodeTurnOfEncodedByte(b: byte, rest: seq<byte>)
    requires rest != [] ==> !Continuation(rest[0])
    ensures DecodeTurn(EncodeByte(b) + rest) == Some(Turn(b, |EncodeByte(b)|))
  {
    var text := EncodeByte(b) + rest;
    if !Unreserved(b) {
      assert text[1] == UpperHex(b / 16) && text[2] == UpperHex(b % 16);
      assert |text| > 3 ==> text[3] == rest[0];
    }
  }

  /** Decoding past an encoded prefix yields the prefix's plain bytes first. */
  lemma {:induction false} DecodeEncodedPrefix(plain: seq<byte>, after: seq<byte>)
    requires after != [] ==> !Continuation(after[0])
    ensures Decode(Encode(plain) + after) == Prepend(plain, Decode(after))
  {
    if plain == [] {
      assert Encode(plain) + after == after;
      PrependNothing(Decode(after));
    } else {
      var head := EncodeByte(plain[0]);
      var rest := Encode(plain[1..]) + after;
      EncodingHasNoDelimiters(plain[1..]);
      ConcatAssociates(head, Encode(plain[1..]), after);
      DecodeTurnOfEncodedByte(plain[0], rest);
      assert (head + rest)[|head|..] == rest;
      DecodeEncodedPrefix(plain[1..], after);
      PrependTwice([plain[0]], plain[1..], Decode(after));
      assert [plain[0]] + plain[1..] == plain;
    }
  }

  /** Round trip: of the bytes always, of the string exactly when the bytes are one. */
  lemma DecodeInvertsEncode(plain: seq<byte>)
    ensures Decode(Encode(plain)) == Some(plain)
    ensures DecodeString(Encode(plain)) == Some(Lossy(plain))
    ensures DecodeString(Encode(plain)) == Some(plain) <==> Valid(plain)
  {
    LossyKeepsExactlyTheValid(plain);
    hide Lossy, Valid;
    DecodeEncodedPrefix(plain, []);
    assert Encode(plain) + [] == Encode(plain) && plain + [] == plain;
  }

  /** Decoding is lenient: text that no encoder produces decodes to bytes that have another encoding. */
  lemma DecodeIsLenient(d: nat)
    requires d < 16
    ensures Decode([PERCENT, PLUS, UpperHex(d)]) == Decode([PERCENT, UpperHex(0), UpperHex(d)]) == Some([d])
  {
    var odd, plain := [PERCENT, PLUS, UpperHex(d)], [PERCENT, UpperHex(0), UpperHex(d)];
    assert DecodeTurn(odd) == DecodeTurn(plain) == Some(Turn(d, 3));
    assert odd[3..] == plain[3..] == [];
    assert Decode(odd[3..]) == Decode(plain[3..]) == Some([]);
    assert [d] + [] == [d];
    assert Decode(odd) == Some([d]) && Decode(plain) == Some([d]);
  }

  // ---- What other encoders write ----

  /** One byte as some encoder writes it: as it is, a space as a plus sign, or an escape in either case. */
  datatype Piece = Literal(b: byte) | PlusForSpace | Escape(hi: nat, lo: nat, hiLower: bool, loLower: bool) {
    predicate Fits() {
      match this
      case Literal(b) => b < 0x80 && b != PERCENT && b != PLUS
      case PlusForSpace => true
      case Escape(hi, lo, _, _) => hi < 16 && lo < 16
    }

    function Plain(): byte
      requires Fits()
    {
      match this
      case Literal(b) => b
      case PlusForSpace => 0x20
      case Escape(hi, lo, _, _) => 16 * hi + lo
    }

    function Text(): (text: seq<byte>)
      requires Fits()
      ensures text != [] && text[0] < 0x80
    {
      match this
      case Literal(b) => [b]
      case PlusForSpace => [PLUS]
      case Escape(hi, lo, hiLower, loLower) => [PERCENT, Digit(hi, hiLower), Digit(lo, loLower)]
    }
  }

  function Digit(d: nat, lower: bool): byte
    requires d < 16
  {
    if d < 10 then 0x30 + d else (if lower then 0x61 else 0x41) + d - 10
  }

  ghost predicate AllFit(pieces: seq<Piece>) {
    forall i :: 0 <= i < |pieces| ==> pieces[i].Fits()
  }

  function PlainOf(pieces: seq<Piece>): seq<byte>
    requires AllFit(pieces)
  {
    if pieces == [] then [] else [pieces[0].Plain()] + PlainOf(pieces[1..])
  }

  function Spelled(pieces: seq<Piece>): (text: seq<byte>)
    requires AllFit(pieces)
    ensures text != [] ==> text[0] < 0x80
  {
    if pieces == [] then [] else pieces[0].Text() + Spelled(pieces[1..])
  }

  lemma DecodeTurnOfPiece(p: Piece, rest: seq<byte>)
    requires p.Fits() && (rest != [] ==> rest[0] < 0x80)
    ensures DecodeTurn(p.Text() + rest) == Some(Turn(p.Plain(), |p.Text()|))
  {
    var text := p.Text() + rest;
    if p.Escape? {
      assert text[1] == Digit(p.hi, p.hiLower) && text[2] == Digit(p.lo, p.loLower);
      assert HexValue(text[1]) == Some(p.hi) && HexValue(text[2]) == Some(p.lo);
      assert |text| > 3 ==> text[3] == rest[0];
    }
  }

  lemma {:induction false} DecodeSpelledPrefix(pieces: seq<Piece>, after: seq<byte>)
    requires AllFit(pieces) && (after != [] ==> after[0] < 0x80)
    ensures Decode(Spelled(pieces) + after) == Prepend(PlainOf(pieces), Decode(after))
    decreases |pieces|
  {
    hide DecodeTurn;
    if pieces == [] {
      assert Spelled(pieces) + after == after;
      PrependNothing(Decode(after));
    } else {
      var head, rest := pieces[0].Text(), Spelled(pieces[1..]) + after;
      ConcatAssociates(head, Spelled(pieces[1..]), after);
      DecodeTurnOfPiece(pieces[0], rest);
      assert (head + rest)[|head|..] == rest;
      DecodeSpelledPrefix(pieces[1..], after);
      PrependTwice([pieces[0].Plain()], PlainOf(pieces[1..]), Decode(after));
    }
  }

  /** However an encoder writes it, the text decodes to what was meant. */
  lemma EverySpellingDecodes(pieces: seq<Piece>)
    requires AllFit(pieces)
    ensures Decode(Spelled(pieces)) == Some(PlainOf(pieces))
  {
    DecodeSpelledPrefix(pieces, []);
    assert Spelled(pieces) + [] == Spelled(pieces) && PlainOf(pieces) + [] == PlainOf(pieces);
  }

  /** A percent sign that begins no escape stays, whatever comes before it. */
  lemma StrayPercentStays(pieces: seq<Piece>, after: seq<byte>)
    requires AllFit(pieces) && Ascii(after)
    requires |after| < 2 || FromHexPair(after[0], after[1]).None?
    ensures var rest := Decode(after);
      rest.Some? && Decode(Spelled(pieces) + [PERCENT] + after) == Some(PlainOf(pieces) + [PERCENT] + rest.value)
  {
    var text := [PERCENT] + after;
    AsciiNeverPanics(after);
    assert text[1..] == after && DecodeTurn(text) == Some(Turn(PERCENT, 1));
    DecodeSpelledPrefix(pieces, text);
    ConcatAssociates(Spelled(pieces), [PERCENT], after);
    ConcatAssociates(PlainOf(pieces), [PERCENT], Decode(after).value);
  }

  /** A form-style encoder: a plus sign for a space, lower-case escapes. */
  function FormPiece(b: byte): (p: Piece)
    ensures p.Fits() && p.Plain() == b
  {
    if b == SPACE then PlusForSpace else if Unreserved(b) then Literal(b) else Escape(b / 16, b % 16, true, true)
  }

  function FormPieces(plain: seq<byte>): (pieces: seq<Piece>)
    ensures AllFit(pieces)
  {
    if plain == [] then [] else [FormPiece(plain[0])] + FormPieces(plain[1..])
  }

  lemma {:induction false} FormRoundTrip(plain: seq<byte>)
    ensures Decode(Spelled(FormPieces(plain))) == Some(plain)
    ensures DecodeString(Spelled(FormPieces(plain))) == Some(plain) <==> Valid(plain)
  {
    EverySpellingDecodes(FormPieces(plain));
    FormPiecesMeanThePlain(plain);
    LossyKeepsExactlyTheValid(plain);
    hide Lossy, Valid;
  }

  lemma {:induction false} FormPiecesMeanThePlain(plain: seq<byte>)
    ensures PlainOf(FormPieces(plain)) == plain
  {
    if plain != [] {
      FormPiecesMeanThePlain(plain[1..]);
      assert FormPieces(plain)[1..] == FormPieces(plain[1..]);
    }
  }

  // ---- Query parameters ----

  /** The first position of `c` at or after `from`, or the length. */
  function Find(s: seq<byte>, c: byte, from: nat): (i: nat)
    requires from <= |s|
    ensures from <= i <= |s|
    ensures forall j :: from <= j < i ==> s[j] != c
    ensures i < |s| ==> s[i] == c
    decreases |s| - from
  {
    if from == |s| || s[from] == c then from else Find(s, c, from + 1)
  }

  datatype Pair = Pair(key: seq<byte>, value: seq<byte>)

  /** `split_once`. */
  function SplitOnce(s: seq<byte>, c: byte): (r: Option<Pair>)
    ensures r.Some? <==> c in s
    ensures r.Some? ==> s == r.value.key + [c] + r.value.value && c !in r.value.key
  {
    var i := Find(s, c, 0);
    if i < |s| then Some(Pair(s[..i], s[i + 1..])) else None
  }

  /** The raw value of the first `key=value` piece of the query that names `key`. */
  function RawParam(query: seq<byte>, key: seq<byte>): Option<seq<byte>>
    decreases |query|
  {
    var end := Find(query, AMPERSAND, 0);
    var pair := SplitOnce(query[..end], EQUALS);
    if pair.Some? && pair.value.key == key then Some(pair.value.value)
    else if end == |query| then None
    else RawParam(query[end + 1..], key)
  }

  datatype Param = Absent | Panic | Found(value: seq<byte>)

  function Decoded(raw: seq<byte>): Param {
    var s := DecodeString(raw);
    if s.None? then Panic else Found(s.value)
  }

  function QueryParam(uri: seq<byte>, key: seq<byte>): Param {
    var split := SplitOnce(uri, QUESTION);
    if split.None? then Absent
    else
      var raw := RawParam(split.value.value, key);
      if raw.None? then Absent else Decoded(raw.value)
  }

  method ExtractQueryParam(uri: seq<byte>, key: seq<byte>) returns (r: Param)
    ensures r == QueryParam(uri, key)
  {
    var split := SplitOnce(uri, QUESTION);
    if split.None? {
      return Absent;
    }
    // What the iterator over the pieces between ampersands has left.
    var left := Some(split.value.value);
    while left.Some?
      invariant RawParam(split.value.value, key) == if left.Some? then RawParam(left.value, key) else None
      decreases left.Some?, if left.Some? then |left.value| else 0
    {
      var rest := left.value;
      var end := Find(rest, AMPERSAND, 0);
      var pair := SplitOnce(rest[..end], EQUALS);
      if pair.Some? && pair.value.key == key {
        var s := PercentDecode(pair.value.value);
        return if s.None? then Panic else Found(s.value);
      }
      left := if end == |rest| then None else Some(rest[end + 1..]);
    }
    r := Absent;
  }

  /** A query as a client builds it: keys as they are, values encoded. */
  function BuildQuery(params: seq<Pair>): seq<byte> {
    if params == [] then []
    else
      var first := params[0].key + [EQUALS] + Encode(params[0].value);
      if |params| == 1 then first else first + [AMPERSAND] + BuildQuery(params[1..])
  }

  function FirstValue(params: seq<Pair>, key: seq<byte>): Option<seq<byte>> {
    if params == [] then None
    else if params[0].key == key then Some(params[0].value)
    else FirstValue(params[1..], key)
  }

  ghost predicate PlainKey(k: seq<byte>) {
    AMPERSAND !in k && EQUALS !in k
  }

  lemma FindAfter(prefix: seq<byte>, c: byte, rest: seq<byte>)
    requires c !in prefix
    ensures Find(prefix + [c] + rest, c, 0) == |prefix|
    ensures Find(prefix, c, 0) == |prefix|
  {
    var s := prefix + [c] + rest;
    assert s[|prefix|] == c;
    assert forall i :: 0 <= i < |prefix| ==> s[i] == prefix[i];
  }

  lemma {:induction false} RawParamOfBuiltQuery(params: seq<Pair>, key: seq<byte>)
    requires forall i :: 0 <= i < |params| ==> PlainKey(params[i].key)
    requires params != []
    ensures var v := FirstValue(params, key);
      RawParam(BuildQuery(params), key) == if v.None? then None else Some(Encode(v.value))
    decreases |params|
  {
    var value := Encode(params[0].value);
    var first := params[0].key + [EQUALS] + value;
    EncodingHasNoDelimiters(params[0].value);
    assert AMPERSAND !in first;
    FindAfter(params[0].key, EQUALS, value);
    assert first[..|params[0].key|] == params[0].key && first[|params[0].key| + 1..] == value;
    assert SplitOnce(first, EQUALS) == Some(Pair(params[0].key, value));
    var query := BuildQuery(params);
    if |params| == 1 {
      FindAfter(query, AMPERSAND, []);
      assert query[..|query|] == query;
      assert FirstValue(params[1..], key) == None;
    } else {
      FindAfter(first, AMPERSAND, BuildQuery(params[1..]));
      assert query[..|first|] == first && query[|first| + 1..] == BuildQuery(params[1..]);
      RawParamOfBuiltQuery(params[1..], key);
    }
  }

  /** Extraction finds the first value given for the key, decoded, and nothing when no value is given. */
  lemma ExtractRecoversFirstValue(prefix: seq<byte>, params: seq<Pair>, key: seq<byte>)
    requires QUESTION !in prefix && params != []
    requires forall i :: 0 <= i < |params| ==> PlainKey(params[i].key)
    ensures var v := FirstValue(params, key);
      QueryParam(prefix + [QUESTION] + BuildQuery(params), key) == if v.None? then Absent else Found(Lossy(v.value))
    ensures var v := FirstValue(params, key);
      v.Some? && Valid(v.value) ==> QueryParam(prefix + [QUESTION] + BuildQuery(params), key) == Found(v.value)
  {
    hide Lossy, Valid;
    var uri := prefix + [QUESTION] + BuildQuery(params);
    FindAfter(prefix, QUESTION, BuildQuery(params));
    assert uri[|prefix| + 1..] == BuildQuery(params);
    RawParamOfBuiltQuery(params, key);
    var v := FirstValue(params, key);
    if v.Some? {
      DecodeInvertsEncode(v.value);
    }
  }
}
