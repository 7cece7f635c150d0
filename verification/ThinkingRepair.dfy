/**
 * `thinking_repair.rs`: rewriting a request body so that the upstream accepts it again.
 * Stage one (`downgrade` false) turns thinking into text; stage two also turns tool blocks into text.
 */
module ThinkingRepair {
  import opened Prelude
  import opened JsonValues

  function BlockType(b: Json): string {
    StringOr(Get(b, "type"))
  }

  /** The block types the repair tells apart; `Untyped` is a missing, empty or non-string type. */
  datatype Kind = Text | Thinking | Redacted | ToolUse | ToolResult | Untyped | Other

  function KindOf(b: Json): Kind {
    var ty := BlockType(b);
    if ty == "text" then Text
    else if ty == "thinking" then Thinking
    else if ty == "redacted_thinking" then Redacted
    else if ty == "tool_use" then ToolUse
    else if ty == "tool_result" then ToolResult
    else if ty == "" then Untyped
    else Other
  }

  function TextOf(b: Json): string {
    StringOr(Get(b, "text"))
  }

  function TextBlock(text: string): (b: Json)
    ensures KindOf(b) == Text && TextOf(b) == text
  {
    Object(map["type" := String("text"), "text" := String(text)])
  }

  function WithContent(b: Json, content: seq<Json>): (r: Json)
    requires b.Object?
    ensures ArrayOr(Get(r, "content")) == Some(content) && KindOf(r) == KindOf(b)
    ensures forall key :: key != "content" ==> Get(r, key) == Get(b, key)
  {
    var r := Object(b.fields["content" := Array(content)]);
    assert Get(r, "type") == Get(b, "type");
    r
  }

  // ---- Blocks ----

  predicate EmptyText(b: Json) {
    KindOf(b) == Text && TextOf(b) == ""
  }

  function Stripped(blocks: seq<Json>): seq<Json> {
    if blocks == [] then []
    else
      var n := |blocks| - 1;
      Stripped(blocks[..n]) + if EmptyText(blocks[n]) then [] else [blocks[n]]
  }

  ghost predicate NoEmptyText(blocks: seq<Json>) {
    forall i :: 0 <= i < |blocks| ==> !EmptyText(blocks[i])
  }

  lemma {:induction false} StrippedHasNoEmptyText(blocks: seq<Json>)
    ensures NoEmptyText(Stripped(blocks))
    ensures NoEmptyText(blocks) <==> |Stripped(blocks)| == |blocks|
    ensures NoEmptyText(blocks) ==> Stripped(blocks) == blocks
    ensures |Stripped(blocks)| <= |blocks|
  {
    hide EmptyText;
    if blocks != [] {
      var n := |blocks| - 1;
      StrippedHasNoEmptyText(blocks[..n]);
      assert blocks == blocks[..n] + [blocks[n]];
      if NoEmptyText(blocks) {
        assert NoEmptyText(blocks[..n]);
      }
    }
  }

  method StripEmptyTextBlocks(blocks: seq<Json>) returns (out: seq<Json>, changed: bool)
    ensures out == Stripped(blocks)
    ensures changed <==> !NoEmptyText(blocks)
  {
    hide EmptyText;
    out, changed := [], false;
    for i := 0 to |blocks|
      invariant out == Stripped(blocks[..i])
      invariant changed <==> !NoEmptyText(blocks[..i])
    {
      assert blocks[..i + 1][..i] == blocks[..i];
      assert blocks[..i + 1] == blocks[..i] + [blocks[i]];
      if EmptyText(blocks[i]) {
        assert EmptyText(blocks[..i + 1][i]);
        changed := true;
      } else {
        out := out + [blocks[i]];
      }
    }
    assert blocks[..|blocks|] == blocks;
  }

  function ToolUseText(b: Json, ser: Serializer): string {
    var input := Get(b, "input");
    "[tool_use name=" + StringOr(Get(b, "name")) + " id=" + StringOr(Get(b, "id"))
    + " input=" + (if input.Some? then ser(input.value) else "") + "]"
  }

  function ToolResultText(b: Json, ser: Serializer): string {
    "[tool_result tool_use_id=" + StringOr(Get(b, "tool_use_id")) + " " + Rendered(Get(b, "content"), ser) + "]"
  }

  /** A string as it is, any other value serialised, nothing for nothing. */
  function Rendered(v: Option<Json>, ser: Serializer): string {
    if v.None? then "" else if v.value.String? then v.value.s else ser(v.value)
  }

  function TextUnlessEmpty(text: string): seq<Json> {
    if text == "" then [] else [TextBlock(text)]
  }

  /** What takes the place of one content block, and whether that counts as a change. */
  function Rewrite(b: Json, downgrade: bool, ser: Serializer): (seq<Json>, bool) {
    match KindOf(b)
    case Text => if TextOf(b) == "" then ([], true) else ([b], false)
    case Thinking => (TextUnlessEmpty(StringOr(Get(b, "thinking"))), true)
    case Redacted => ([], true)
    case ToolUse => if downgrade then ([TextBlock(ToolUseText(b, ser))], true) else ([b], false)
    case ToolResult =>
      if downgrade then ([TextBlock(ToolResultText(b, ser))], true)
      else
        var nested := ArrayOr(Get(b, "content"));
        if nested.Some? && |Stripped(nested.value)| < |nested.value|
        then ([WithContent(b, Stripped(nested.value))], true)
        else ([b], false)
    case Untyped =>
      if Get(b, "thinking").Some? then (TextUnlessEmpty(Rendered(Get(b, "thinking"), ser)), true) else ([b], false)
    case Other => ([b], false)
  }

  /** The normal form of a block. */
  ghost predicate Clean(b: Json, downgrade: bool) {
    match KindOf(b)
    case Text => TextOf(b) != ""
    case Thinking => false
    case Redacted => false
    case ToolUse => !downgrade
    case ToolResult =>
      var nested := ArrayOr(Get(b, "content"));
      !downgrade && (nested.Some? ==> NoEmptyText(nested.value))
    case Untyped => Get(b, "thinking") == None
    case Other => true
  }

  ghost predicate AllClean(content: seq<Json>, downgrade: bool) {
    forall i :: 0 <= i < |content| ==> Clean(content[i], downgrade)
  }

  lemma AllCleanConcat(a: seq<Json>, b: seq<Json>, downgrade: bool)
    ensures AllClean(a + b, downgrade) <==> AllClean(a, downgrade) && AllClean(b, downgrade)
  {
    hide Clean;
    var all := a + b;
    assert forall i :: 0 <= i < |a| ==> all[i] == a[i];
    assert forall i :: 0 <= i < |b| ==> all[|a| + i] == b[i];
  }

  /** A block counts as changed exactly when it is not in normal form; what replaces it always is. */
  lemma RewriteCleans(b: Json, downgrade: bool, ser: Serializer)
    ensures Rewrite(b, downgrade, ser).1 <==> !Clean(b, downgrade)
    ensures Clean(b, downgrade) ==> Rewrite(b, downgrade, ser).0 == [b]
    ensures AllClean(Rewrite(b, downgrade, ser).0, downgrade)
  {
    var nested := ArrayOr(Get(b, "content"));
    if KindOf(b) == ToolResult && nested.Some? {
      StrippedHasNoEmptyText(nested.value);
    }
  }

  // ---- One message ----

  function RewriteAll(content: seq<Json>, downgrade: bool, ser: Serializer): (seq<Json>, bool) {
    if content == [] then ([], false)
    else
      var n := |content| - 1;
      var (front, changed) := RewriteAll(content[..n], downgrade, ser);
      var (last, touched) := Rewrite(content[n], downgrade, ser);
      (front + last, changed || touched)
  }

  function Placeholder(role: string): string {
    if role == "assistant" then "(assistant content removed)" else "(content removed)"
  }

  function NewContent(role: string, content: seq<Json>): seq<Json> {
    if content == [] then [TextBlock(Placeholder(role))] else content
  }

  function Transformed(msg: Json, downgrade: bool, ser: Serializer): (Json, bool) {
    var content := ArrayOr(Get(msg, "content"));
    if content.None? then (msg, false)
    else
      var (rewritten, changed) := RewriteAll(content.value, downgrade, ser);
      if !changed then (msg, false)
      else (WithContent(msg, NewContent(StringOr(Get(msg, "role")), rewritten)), true)
  }

  method TransformMessage(msg: Json, downgrade: bool, ser: Serializer) returns (out: Json, changed: bool)
    ensures (out, changed) == Transformed(msg, downgrade, ser)
  {
    hide EmptyText, Stripped;
    var role := StringOr(Get(msg, "role"));
    var asArray := ArrayOr(Get(msg, "content"));
    if asArray.None? {
      return msg, false;
    }
    var content := asArray.value;
    var newContent: seq<Json> := [];
    changed := false;
    for i := 0 to |content|
      invariant (newContent, changed) == RewriteAll(content[..i], downgrade, ser)
    {
      assert content[..i + 1][..i] == content[..i];
      var block := content[i];
      var nested := ArrayOr(Get(block, "content"));
      if KindOf(block) == ToolResult && !downgrade && nested.Some? {
        var cleaned, nestedChanged := StripEmptyTextBlocks(nested.value);
        StrippedHasNoEmptyText(nested.value);
        if nestedChanged {
          changed := true;
          newContent := newContent + [WithContent(block, cleaned)];
        } else {
          newContent := newContent + [block];
        }
      } else {
        var (replacement, touched) := Rewrite(block, downgrade, ser);
        changed := changed || touched;
        newContent := newContent + replacement;
      }
    }
    assert content[..|content|] == content;
    if !changed {
      return msg, false;
    }
    out := WithContent(msg, NewContent(role, newContent));
  }

  /** Rewriting puts content in normal form, and leaves content in normal form alone. */
  lemma {:induction false} RewriteAllCleans(content: seq<Json>, downgrade: bool, ser: Serializer)
    ensures Cleans(content, RewriteAll(content, downgrade, ser), downgrade)
    decreases |content|
  {
    if content != [] {
      hide RewriteAll, Cleans;
      RewriteAllCleans(content[..|content| - 1], downgrade, ser);
      OneMoreCleans(content, downgrade, ser);
    }
  }

  /** The result is clean, and counts as changed exactly when the content was not clean already. */
  ghost predicate Cleans(content: seq<Json>, result: (seq<Json>, bool), downgrade: bool) {
    && AllClean(result.0, downgrade)
    && (result.1 <==> !AllClean(content, downgrade))
    && (AllClean(content, downgrade) ==> result.0 == content)
  }

  lemma AllCleanSnoc(content: seq<Json>, downgrade: bool)
    requires content != []
    ensures var n := |content| - 1;
      AllClean(content, downgrade) <==> AllClean(content[..n], downgrade) && Clean(content[n], downgrade)
  {
    hide Clean;
  }

  lemma OneMoreCleans(content: seq<Json>, downgrade: bool, ser: Serializer)
    requires content != []
    requires var front := content[..|content| - 1]; Cleans(front, RewriteAll(front, downgrade, ser), downgrade)
    ensures Cleans(content, RewriteAll(content, downgrade, ser), downgrade)
  {
    hide RewriteAll, Rewrite, AllClean, Clean;
    var n := |content| - 1;
    RewriteAllSnoc(content, downgrade, ser);
    RewriteCleans(content[n], downgrade, ser);
    AllCleanSnoc(content, downgrade);
    AllCleanConcat(RewriteAll(content[..n], downgrade, ser).0, Rewrite(content[n], downgrade, ser).0, downgrade);
    SplitLast(content);
  }

  lemma SplitLast(content: seq<Json>)
    requires content != []
    ensures content == content[..|content| - 1] + [content[|content| - 1]]
  {
  }

  lemma RewriteAllSnoc(content: seq<Json>, downgrade: bool, ser: Serializer)
    requires content != []
    ensures var n := |content| - 1;
      var (front, last) := (RewriteAll(content[..n], downgrade, ser), Rewrite(content[n], downgrade, ser));
      RewriteAll(content, downgrade, ser) == (front.0 + last.0, front.1 || last.1)
  {
    hide Rewrite;
  }

  ghost predicate CleanMessage(msg: Json, downgrade: bool) {
    var content := ArrayOr(Get(msg, "content"));
    content.Some? ==> AllClean(content.value, downgrade)
  }

  /** The result is in normal form; it is the message itself exactly when that was already so. */
  lemma TransformReachesNormalForm(msg: Json, downgrade: bool, ser: Serializer)
    ensures CleanMessage(Transformed(msg, downgrade, ser).0, downgrade)
    ensures Transformed(msg, downgrade, ser).1 <==> !CleanMessage(msg, downgrade)
    ensures CleanMessage(msg, downgrade) ==> Transformed(msg, downgrade, ser).0 == msg
  {
    var content := ArrayOr(Get(msg, "content"));
    if content.Some? {
      RewriteAllCleans(content.value, downgrade, ser);
    }
  }

  /** Nothing but the content changes. */
  lemma TransformKeepsOtherFields(msg: Json, downgrade: bool, ser: Serializer)
    ensures forall key :: key != "content" ==> Get(Transformed(msg, downgrade, ser).0, key) == Get(msg, key)
    ensures ArrayOr(Get(msg, "content")).None? ==> Transformed(msg, downgrade, ser).0 == msg
  {
  }

  /** Content that was there is never emptied. */
  lemma TransformNeverEmpties(msg: Json, downgrade: bool, ser: Serializer)
    requires ArrayOr(Get(msg, "content")).Some?
    ensures var before := ArrayOr(Get(msg, "content"));
      var after := ArrayOr(Get(Transformed(msg, downgrade, ser).0, "content"));
      after.Some? && (after.value == [] <==> before.value == [])
  {
    var before := ArrayOr(Get(msg, "content")).value;
    if before == [] {
      assert RewriteAll(before, downgrade, ser) == ([], false);
    }
  }

  lemma CleanForBothStages(msg: Json)
    requires CleanMessage(msg, true)
    ensures CleanMessage(msg, false)
  {
    var content := ArrayOr(Get(msg, "content"));
    if content.Some? {
      forall i | 0 <= i < |content.value| ensures Clean(content.value[i], false) {
        assert Clean(content.value[i], true);
      }
    }
  }

  // ---- What the content says ----

  /** The text a block contributes to the conversation, in the words of the given stage. */
  ghost function Says(b: Json, downgrade: bool, ser: Serializer): seq<string> {
    NonEmpty(
      match KindOf(b)
      case Text => TextOf(b)
      case Thinking => StringOr(Get(b, "thinking"))
      case Untyped => Rendered(Get(b, "thinking"), ser)
      case ToolUse => if downgrade then ToolUseText(b, ser) else ""
      case ToolResult => if downgrade then ToolResultText(b, ser) else ""
      case _ => "")
  }

  ghost function NonEmpty(s: string): seq<string> {
    if s == "" then [] else [s]
  }

  ghost function SaysAll(content: seq<Json>, downgrade: bool, ser: Serializer): seq<string> {
    if content == [] then []
    else SaysAll(content[..|content| - 1], downgrade, ser) + Says(content[|content| - 1], downgrade, ser)
  }

  lemma {:induction false} SaysAllConcat(a: seq<Json>, b: seq<Json>, downgrade: bool, ser: Serializer)
    ensures SaysAll(a + b, downgrade, ser) == SaysAll(a, downgrade, ser) + SaysAll(b, downgrade, ser)
  {
    hide Says;
    if b == [] {
      assert a + b == a;
    } else {
      var n := |b| - 1;
      SaysAllConcat(a, b[..n], downgrade, ser);
      assert (a + b)[..|a + b| - 1] == a + b[..n];
    }
  }

  lemma OneBlockSays(b: Json, downgrade: bool, ser: Serializer)
    ensures SaysAll([b], downgrade, ser) == Says(b, downgrade, ser)
  {
    assert [b][..0] == [];
  }

  lemma TextBlockSays(text: string, downgrade: bool, ser: Serializer)
    ensures SaysAll(TextUnlessEmpty(text), downgrade, ser) == NonEmpty(text)
    ensures SaysAll([TextBlock(text)], downgrade, ser) == NonEmpty(text)
  {
    OneBlockSays(TextBlock(text), downgrade, ser);
  }

  lemma RewriteKeepsSaying(b: Json, downgrade: bool, ser: Serializer)
    ensures SaysAll(Rewrite(b, downgrade, ser).0, downgrade, ser) == Says(b, downgrade, ser)
  {
    hide Stripped, ToolUseText, ToolResultText, Rendered, Clean;
    OneBlockSays(b, downgrade, ser);
    match KindOf(b)
    case Thinking => TextBlockSays(StringOr(Get(b, "thinking")), downgrade, ser);
    case Untyped => TextBlockSays(Rendered(Get(b, "thinking"), ser), downgrade, ser);
    case ToolUse => TextBlockSays(ToolUseText(b, ser), downgrade, ser);
    case ToolResult =>
      TextBlockSays(ToolResultText(b, ser), downgrade, ser);
      if !downgrade {
        OneBlockSays(Rewrite(b, downgrade, ser).0[0], downgrade, ser);
      }
    case _ =>
  }

  lemma {:induction false} RewriteAllKeepsSaying(content: seq<Json>, downgrade: bool, ser: Serializer)
    ensures SaysAll(RewriteAll(content, downgrade, ser).0, downgrade, ser) == SaysAll(content, downgrade, ser)
  {
    if content != [] {
      var n := |content| - 1;
      RewriteAllKeepsSaying(content[..n], downgrade, ser);
      RewriteKeepsSaying(content[n], downgrade, ser);
      SaysAllConcat(RewriteAll(content[..n], downgrade, ser).0, Rewrite(content[n], downgrade, ser).0, downgrade, ser);
    }
  }

  /** The ordered texts survive exactly when the placeholder is not needed. */
  lemma TextsSurviveExactlyWithoutPlaceholder(msg: Json, downgrade: bool, ser: Serializer)
    requires ArrayOr(Get(msg, "content")).Some?
    ensures var before := ArrayOr(Get(msg, "content")).value;
      var after := ArrayOr(Get(Transformed(msg, downgrade, ser).0, "content")).value;
      SaysAll(after, downgrade, ser) == SaysAll(before, downgrade, ser) <==>
        AllClean(before, downgrade) || RewriteAll(before, downgrade, ser).0 != []
  {
    var before := ArrayOr(Get(msg, "content")).value;
    RewriteAllCleans(before, downgrade, ser);
    RewriteAllKeepsSaying(before, downgrade, ser);
    var filler := TextBlock(Placeholder(StringOr(Get(msg, "role"))));
    OneBlockSays(filler, downgrade, ser);
    assert Says(filler, downgrade, ser) != [];
  }

  // ---- The whole body ----

  const STRATEGY := "clear_thinking_20251015"

  predicate IsThinkingStrategy(edit: Json) {
    var ty := Get(edit, "type");
    ty == Some(String(STRATEGY))
  }

  function KeptEdits(edits: seq<Json>): seq<Json> {
    if edits == [] then []
    else
      var n := |edits| - 1;
      KeptEdits(edits[..n]) + if IsThinkingStrategy(edits[n]) then [] else [edits[n]]
  }

  lemma {:induction false} KeptEditsHaveNoStrategy(edits: seq<Json>)
    ensures forall i :: 0 <= i < |KeptEdits(edits)| ==> !IsThinkingStrategy(KeptEdits(edits)[i])
    ensures (forall i :: 0 <= i < |edits| ==> !IsThinkingStrategy(edits[i])) ==> KeptEdits(edits) == edits
  {
    hide IsThinkingStrategy;
    if edits != [] {
      KeptEditsHaveNoStrategy(edits[..|edits| - 1]);
      assert edits == edits[..|edits| - 1] + [edits[|edits| - 1]];
    }
  }

  function WithoutStrategies(obj: map<string, Json>): map<string, Json> {
    var cm := Get(Object(obj), "context_management");
    var edits := if cm.Some? then ArrayOr(Get(cm.value, "edits")) else None;
    if edits.None? then obj
    else
      var kept := KeptEdits(edits.value);
      var fields := cm.value.fields;
      obj["context_management" := Object(if kept == [] then fields - {"edits"} else fields["edits" := Array(kept)])]
  }

  method RemoveThinkingContextStrategies(obj: map<string, Json>) returns (out: map<string, Json>)
    ensures out == WithoutStrategies(obj)
  {
    var cm := Get(Object(obj), "context_management");
    if cm.None? {
      return obj;
    }
    var asArray := ArrayOr(Get(cm.value, "edits"));
    if asArray.None? {
      return obj;
    }
    var edits := asArray.value;
    var kept: seq<Json> := [];
    for i := 0 to |edits|
      invariant kept == KeptEdits(edits[..i])
    {
      assert edits[..i + 1][..i] == edits[..i];
      if !IsThinkingStrategy(edits[i]) {
        kept := kept + [edits[i]];
      }
    }
    assert edits[..|edits|] == edits;
    var fields := cm.value.fields;
    fields := if kept == [] then fields - {"edits"} else fields["edits" := Array(kept)];
    out := obj["context_management" := Object(fields)];
  }

  function TransformedAll(msgs: seq<Json>, downgrade: bool, ser: Serializer): (r: (seq<Json>, bool))
    ensures |r.0| == |msgs|
  {
    if msgs == [] then ([], false)
    else
      var n := |msgs| - 1;
      var (front, modified) := TransformedAll(msgs[..n], downgrade, ser);
      var (last, changed) := Transformed(msgs[n], downgrade, ser);
      (front + [last], modified || changed)
  }

  function TransformedBody(obj: map<string, Json>, downgrade: bool, ser: Serializer): (map<string, Json>, bool) {
    var disabled := if "thinking" in obj then WithoutStrategies(obj - {"thinking"}) else obj;
    var msgs := ArrayOr(Get(Object(disabled), "messages"));
    if msgs.None? then (disabled, "thinking" in obj)
    else
      var (all, changed) := TransformedAll(msgs.value, downgrade, ser);
      (disabled["messages" := Array(all)], "thinking" in obj || changed)
  }

  /** Disabling thinking also removes the context edits that need it, and an edit list left empty. */
  lemma DisablingThinkingRemovesItsStrategies(obj: map<string, Json>, downgrade: bool, ser: Serializer)
    requires "thinking" in obj
    ensures var cm := Get(Object(TransformedBody(obj, downgrade, ser).0), "context_management");
      var edits := if cm.Some? then ArrayOr(Get(cm.value, "edits")) else None;
      edits.Some? ==> edits.value != [] && forall i :: 0 <= i < |edits.value| ==> !IsThinkingStrategy(edits.value[i])
  {
    var before := obj - {"thinking"};
    var after := TransformedBody(obj, downgrade, ser).0;
    assert Get(Object(after), "context_management") == Get(Object(WithoutStrategies(before)), "context_management");
    var cm := Get(Object(before), "context_management");
    var edits := if cm.Some? then ArrayOr(Get(cm.value, "edits")) else None;
    if edits.Some? {
      KeptEditsHaveNoStrategy(edits.value);
    }
  }

  /** Parsing and printing of JSON text; both are left abstract. */
  datatype Codec = Codec(parse: seq<byte> -> Option<Json>, write: Json -> seq<byte>, ser: Serializer)

  /**
   * What a clean body is written as does not read back as an unclean one. Numbers need not read
   * back exactly, and what was written need not be readable at all.
   */
  ghost predicate KeepsClean(c: Codec, downgrade: bool) {
    forall obj :: CleanBody(obj, downgrade) ==> ReadsBackClean(c, obj, downgrade)
  }

  ghost predicate ReadsBackClean(c: Codec, obj: map<string, Json>, downgrade: bool) {
    var v := c.parse(c.write(Object(obj)));
    v.Some? && v.value.Object? ==> CleanBody(v.value.fields, downgrade)
  }

  function Retry(body: seq<byte>, downgrade: bool, c: Codec): seq<byte> {
    var v := c.parse(body);
    if v.None? || !v.value.Object? then body
    else
      var (obj, modified) := TransformedBody(v.value.fields, downgrade, c.ser);
      if modified then c.write(Object(obj)) else body
  }

  method TransformForRetry(body: seq<byte>, downgrade: bool, c: Codec) returns (out: seq<byte>)
    ensures out == Retry(body, downgrade, c)
  {
    hide Transformed;
    var v := c.parse(body);
    if v.None? || !v.value.Object? {
      return body;
    }
    var obj := v.value.fields;
    var modified := false;
    if "thinking" in obj {
      modified := true;
      obj := RemoveThinkingContextStrategies(obj - {"thinking"});
    }
    var asArray := ArrayOr(Get(Object(obj), "messages"));
    if asArray.Some? {
      var msgs := asArray.value;
      var done: seq<Json> := [];
      var anyChanged := false;
      for i := 0 to |msgs|
        invariant (done, anyChanged) == TransformedAll(msgs[..i], downgrade, c.ser)
      {
        assert msgs[..i + 1][..i] == msgs[..i];
        var msg, changed := TransformMessage(msgs[i], downgrade, c.ser);
        done, anyChanged := done + [msg], anyChanged || changed;
      }
      assert msgs[..|msgs|] == msgs;
      modified := modified || anyChanged;
      obj := obj["messages" := Array(done)];
    }
    if !modified {
      return body;
    }
    out := c.write(Object(obj));
  }

  ghost predicate CleanMessages(msgs: seq<Json>, downgrade: bool) {
    forall i :: 0 <= i < |msgs| ==> CleanMessage(msgs[i], downgrade)
  }

  ghost predicate CleanBody(obj: map<string, Json>, downgrade: bool) {
    && "thinking" !in obj
    && var msgs := ArrayOr(Get(Object(obj), "messages"));
      msgs.Some? ==> CleanMessages(msgs.value, downgrade)
  }

  lemma CleanMessagesSnoc(front: seq<Json>, last: Json, downgrade: bool)
    ensures CleanMessages(front + [last], downgrade) <==>
      CleanMessages(front, downgrade) && CleanMessage(last, downgrade)
  {
    hide CleanMessage;
    var all := front + [last];
    assert all[|front|] == last && forall i :: 0 <= i < |front| ==> all[i] == front[i];
  }

  /** Message by message: same number, same order, each one transformed on its own. */
  lemma {:induction false} MessagesTransformInPlace(msgs: seq<Json>, i: nat, downgrade: bool, ser: Serializer)
    requires i < |msgs|
    ensures TransformedAll(msgs, downgrade, ser).0[i] == Transformed(msgs[i], downgrade, ser).0
  {
    if i < |msgs| - 1 {
      MessagesTransformInPlace(msgs[..|msgs| - 1], i, downgrade, ser);
    }
  }

  lemma TransformedAllSnoc(msgs: seq<Json>, downgrade: bool, ser: Serializer)
    requires msgs != []
    ensures var n := |msgs| - 1;
      TransformedAll(msgs, downgrade, ser) ==
        (TransformedAll(msgs[..n], downgrade, ser).0 + [Transformed(msgs[n], downgrade, ser).0],
         TransformedAll(msgs[..n], downgrade, ser).1 || Transformed(msgs[n], downgrade, ser).1)
  {
    hide Transformed;
  }

  lemma {:induction false} MessagesReachNormalForm(msgs: seq<Json>, downgrade: bool, ser: Serializer)
    ensures CleanMessages(TransformedAll(msgs, downgrade, ser).0, downgrade)
    ensures TransformedAll(msgs, downgrade, ser).1 <==> !CleanMessages(msgs, downgrade)
  {
    if msgs != [] {
      hide *;
      var n := |msgs| - 1;
      TransformedAllSnoc(msgs, downgrade, ser);
      MessagesReachNormalForm(msgs[..n], downgrade, ser);
      TransformReachesNormalForm(msgs[n], downgrade, ser);
      CleanMessagesSnoc(msgs[..n], msgs[n], downgrade);
      assert msgs == msgs[..n] + [msgs[n]];
      CleanMessagesSnoc(TransformedAll(msgs[..n], downgrade, ser).0, Transformed(msgs[n], downgrade, ser).0, downgrade);
    }
  }

  /** Order and roles: the result's i-th message is the i-th message, with at most its content replaced. */
  lemma BodyKeepsMessagesAndRoles(obj: map<string, Json>, downgrade: bool, ser: Serializer)
    requires ArrayOr(Get(Object(obj), "messages")).Some?
    ensures var before := ArrayOr(Get(Object(obj), "messages")).value;
      var after := ArrayOr(Get(Object(TransformedBody(obj, downgrade, ser).0), "messages"));
      && after.Some? && |after.value| == |before|
      && forall i, key :: 0 <= i < |before| && key != "content" ==> Get(after.value[i], key) == Get(before[i], key)
  {
    var before := ArrayOr(Get(Object(obj), "messages")).value;
    forall i | 0 <= i < |before|
      ensures forall key :: key != "content" ==>
        Get(TransformedAll(before, downgrade, ser).0[i], key) == Get(before[i], key)
    {
      MessagesTransformInPlace(before, i, downgrade, ser);
      TransformKeepsOtherFields(before[i], downgrade, ser);
    }
  }

  // ---- The texts of a whole body ----

  ghost function MessageSays(msg: Json, downgrade: bool, ser: Serializer): seq<string> {
    var content := ArrayOr(Get(msg, "content"));
    if content.Some? then SaysAll(content.value, downgrade, ser) else []
  }

  ghost function MessagesSay(msgs: seq<Json>, downgrade: bool, ser: Serializer): seq<string> {
    if msgs == [] then []
    else MessagesSay(msgs[..|msgs| - 1], downgrade, ser) + MessageSays(msgs[|msgs| - 1], downgrade, ser)
  }

  /** Rewriting leaves nothing of a message that was not clean. */
  ghost predicate NeedsPlaceholder(msg: Json, downgrade: bool, ser: Serializer) {
    var content := ArrayOr(Get(msg, "content"));
    content.Some? && !AllClean(content.value, downgrade) && RewriteAll(content.value, downgrade, ser).0 == []
  }

  lemma MessageTexts(msg: Json, downgrade: bool, ser: Serializer)
    ensures var before := MessageSays(msg, downgrade, ser);
      var after := MessageSays(Transformed(msg, downgrade, ser).0, downgrade, ser);
      if NeedsPlaceholder(msg, downgrade, ser) then before == [] && after != [] else after == before
  {
    var content := ArrayOr(Get(msg, "content"));
    if content.Some? {
      TextsSurviveExactlyWithoutPlaceholder(msg, downgrade, ser);
      RewriteAllKeepsSaying(content.value, downgrade, ser);
    }
  }

  ghost predicate NoneNeedsPlaceholder(msgs: seq<Json>, downgrade: bool, ser: Serializer) {
    forall i :: 0 <= i < |msgs| ==> !NeedsPlaceholder(msgs[i], downgrade, ser)
  }

  lemma NoneNeedsSnoc(msgs: seq<Json>, downgrade: bool, ser: Serializer)
    requires msgs != []
    ensures var n := |msgs| - 1;
      NoneNeedsPlaceholder(msgs, downgrade, ser) <==>
        NoneNeedsPlaceholder(msgs[..n], downgrade, ser) && !NeedsPlaceholder(msgs[n], downgrade, ser)
  {
    hide NeedsPlaceholder;
  }

  lemma {:induction false} MessagesTexts(msgs: seq<Json>, downgrade: bool, ser: Serializer)
    ensures var before := MessagesSay(msgs, downgrade, ser);
      var after := MessagesSay(TransformedAll(msgs, downgrade, ser).0, downgrade, ser);
      if NoneNeedsPlaceholder(msgs, downgrade, ser) then after == before else |after| > |before|
    decreases |msgs|
  {
    if msgs != [] {
      var n := |msgs| - 1;
      var front, last := TransformedAll(msgs[..n], downgrade, ser).0, Transformed(msgs[n], downgrade, ser).0;
      var all := TransformedAll(msgs, downgrade, ser).0;
      assert all == front + [last];
      assert all[..|all| - 1] == front && all[|all| - 1] == last;
      hide TransformedAll, Transformed, NoneNeedsPlaceholder, NeedsPlaceholder, MessageSays;
      MessagesTexts(msgs[..n], downgrade, ser);
      MessageTexts(msgs[n], downgrade, ser);
      NoneNeedsSnoc(msgs, downgrade, ser);
    }
  }

  /** The ordered texts of a whole body survive exactly when no message of it needs a placeholder. */
  lemma BodyTextsSurviveExactlyWithoutPlaceholder(obj: map<string, Json>, downgrade: bool, ser: Serializer)
    requires ArrayOr(Get(Object(obj), "messages")).Some?
    ensures var before := ArrayOr(Get(Object(obj), "messages")).value;
      var after := ArrayOr(Get(Object(TransformedBody(obj, downgrade, ser).0), "messages"));
      && after.Some?
      && (MessagesSay(after.value, downgrade, ser) == MessagesSay(before, downgrade, ser) <==>
            NoneNeedsPlaceholder(before, downgrade, ser))
  {
    hide TransformedAll, MessagesSay, NoneNeedsPlaceholder;
    MessagesTexts(ArrayOr(Get(Object(obj), "messages")).value, downgrade, ser);
  }

  /** The body reaches normal form, and is reported unmodified exactly when it was there already. */
  lemma BodyReachesNormalForm(obj: map<string, Json>, downgrade: bool, ser: Serializer)
    ensures CleanBody(TransformedBody(obj, downgrade, ser).0, downgrade)
    ensures TransformedBody(obj, downgrade, ser).1 <==> !CleanBody(obj, downgrade)
  {
    var disabled := if "thinking" in obj then WithoutStrategies(obj - {"thinking"}) else obj;
    var msgs := ArrayOr(Get(Object(disabled), "messages"));
    if msgs.Some? {
      MessagesReachNormalForm(msgs.value, downgrade, ser);
    }
  }

  lemma CleanBodyForBothStages(obj: map<string, Json>)
    requires CleanBody(obj, true)
    ensures CleanBody(obj, false)
  {
    var msgs := ArrayOr(Get(Object(obj), "messages"));
    if msgs.Some? {
      forall i | 0 <= i < |msgs.value| ensures CleanMessage(msgs.value[i], false) {
        CleanForBothStages(msgs.value[i]);
      }
    }
  }

  /** A clean body is returned as it is. */
  lemma CleanIsLeftAlone(body: seq<byte>, downgrade: bool, c: Codec)
    requires var v := c.parse(body); v.Some? && v.value.Object? ==> CleanBody(v.value.fields, downgrade)
    ensures Retry(body, downgrade, c) == body
  {
    hide TransformedBody, CleanBody;
    var v := c.parse(body);
    if v.Some? && v.value.Object? {
      BodyReachesNormalForm(v.value.fields, downgrade, c.ser);
    }
  }

  /** What a stage returns reads as clean for it, if it reads as an object at all. */
  lemma RetryReadsClean(body: seq<byte>, downgrade: bool, c: Codec)
    requires KeepsClean(c, downgrade)
    ensures var v := c.parse(Retry(body, downgrade, c)); v.Some? && v.value.Object? ==>
      CleanBody(v.value.fields, downgrade)
  {
    hide TransformedBody, CleanBody;
    var v := c.parse(body);
    if v.Some? && v.value.Object? {
      BodyReachesNormalForm(v.value.fields, downgrade, c.ser);
      assert ReadsBackClean(c, TransformedBody(v.value.fields, downgrade, c.ser).0, downgrade);
    }
  }

  /** Each stage is idempotent on the bytes it returns. */
  lemma RetryIsIdempotent(body: seq<byte>, downgrade: bool, c: Codec)
    requires KeepsClean(c, downgrade)
    ensures Retry(Retry(body, downgrade, c), downgrade, c) == Retry(body, downgrade, c)
  {
    hide Retry, KeepsClean;
    RetryReadsClean(body, downgrade, c);
    CleanIsLeftAlone(Retry(body, downgrade, c), downgrade, c);
  }

  /** Stage one has nothing left to do after stage two. */
  lemma StageTwoAbsorbsStageOne(body: seq<byte>, c: Codec)
    requires KeepsClean(c, true)
    ensures Retry(Retry(body, true, c), false, c) == Retry(body, true, c)
  {
    hide Retry, KeepsClean, CleanBody;
    var out := Retry(body, true, c);
    RetryReadsClean(body, true, c);
    var v := c.parse(out);
    if v.Some? && v.value.Object? {
      CleanBodyForBothStages(v.value.fields);
    }
    CleanIsLeftAlone(out, false, c);
  }
}
