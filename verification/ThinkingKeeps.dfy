/** What the repair of `ThinkingRepair` leaves as it was, in terms of the JSON itself. */
module ThinkingKeeps {
  import opened Prelude
  import opened JsonValues
  import opened ThinkingRepair

  // ---- What a message consists of ----

  /** A piece of content: a text, or a block held as it is. */
  datatype Item = Said(text: string) | Held(block: Json)

  function TextItem(text: string): seq<Item> {
    if text == "" then [] else [Said(text)]
  }

  /** A string as it is, another value as JSON, nothing for a missing one. */
  function AsText(v: Option<Json>, ser: Serializer): string {
    match v
    case None => ""
    case Some(String(s)) => s
    case Some(other) => ser(other)
  }

  /** The blocks nested in a tool result, but for empty texts. */
  function NestedItems(blocks: seq<Json>): seq<Item> {
    if blocks == [] then []
    else
      var n := |blocks| - 1;
      var empty := Get(blocks[n], "type") == Some(String("text")) && StringOr(Get(blocks[n], "text")) == "";
      NestedItems(blocks[..n]) + if empty then [] else [Held(blocks[n])]
  }

  /** What a block stands for: thinking is its text, and in stage two a tool block is its description. */
  function ItemsOf(b: Json, downgrade: bool, ser: Serializer): seq<Item> {
    var ty := StringOr(Get(b, "type"));
    if ty == "text" then TextItem(StringOr(Get(b, "text")))
    else if ty == "thinking" then TextItem(StringOr(Get(b, "thinking")))
    else if ty == "redacted_thinking" then []
    else if ty == "" && Get(b, "thinking").Some? then TextItem(AsText(Get(b, "thinking"), ser))
    else if ty == "tool_use" && downgrade then
      var input := Get(b, "input");
      [Said("[tool_use name=" + StringOr(Get(b, "name")) + " id=" + StringOr(Get(b, "id"))
            + " input=" + (if input.Some? then ser(input.value) else "") + "]")]
    else if ty == "tool_result" && downgrade then
      [Said("[tool_result tool_use_id=" + StringOr(Get(b, "tool_use_id")) + " " + AsText(Get(b, "content"), ser) + "]")]
    else if ty == "tool_result" && ArrayOr(Get(b, "content")).Some? then
      [Held(Object(b.fields - {"content"}))] + NestedItems(ArrayOr(Get(b, "content")).value)
    else [Held(b)]
  }

  function ItemsOfAll(content: seq<Json>, downgrade: bool, ser: Serializer): seq<Item> {
    if content == [] then []
    else
      var n := |content| - 1;
      ItemsOfAll(content[..n], downgrade, ser) + ItemsOf(content[n], downgrade, ser)
  }

  lemma {:induction false} StrippingKeepsItems(blocks: seq<Json>)
    ensures NestedItems(Stripped(blocks)) == NestedItems(blocks)
  {
    if blocks != [] {
      var n := |blocks| - 1;
      StrippingKeepsItems(blocks[..n]);
      var front := Stripped(blocks[..n]);
      if !EmptyText(blocks[n]) {
        assert (front + [blocks[n]])[..|front|] == front;
      } else {
        assert front + [] == front;
      }
    }
  }

  lemma {:induction false} ItemsConcat(a: seq<Json>, b: seq<Json>, downgrade: bool, ser: Serializer)
    ensures ItemsOfAll(a + b, downgrade, ser) == ItemsOfAll(a, downgrade, ser) + ItemsOfAll(b, downgrade, ser)
    decreases |b|
  {
    hide ItemsOf;
    if b == [] {
      assert a + b == a;
    } else {
      var n := |b| - 1;
      ItemsConcat(a, b[..n], downgrade, ser);
      assert (a + b)[..|a + b| - 1] == a + b[..n];
      ConcatAssociates(
        ItemsOfAll(a, downgrade, ser), ItemsOfAll(b[..n], downgrade, ser), ItemsOf(b[n], downgrade, ser));
    }
  }

  lemma ItemsOfOne(b: Json, downgrade: bool, ser: Serializer)
    ensures ItemsOfAll([b], downgrade, ser) == ItemsOf(b, downgrade, ser)
    ensures ItemsOfAll([], downgrade, ser) == []
  {
    assert [b][..0] == [] && [] + ItemsOf(b, downgrade, ser) == ItemsOf(b, downgrade, ser);
  }

  lemma ToolResultItems(b: Json, nested: seq<Json>, ser: Serializer)
    requires StringOr(Get(b, "type")) == "tool_result" && ArrayOr(Get(b, "content")) == Some(nested)
    ensures ItemsOf(b, false, ser) == [Held(Object(b.fields - {"content"}))] + NestedItems(nested)
  {
    hide NestedItems;
  }

  lemma NestedRewriteKeepsItems(b: Json, nested: seq<Json>, ser: Serializer)
    requires StringOr(Get(b, "type")) == "tool_result" && ArrayOr(Get(b, "content")) == Some(nested)
    ensures ItemsOf(WithContent(b, Stripped(nested)), false, ser) == ItemsOf(b, false, ser)
  {
    hide NestedItems, ItemsOf, Stripped;
    var c := WithContent(b, Stripped(nested));
    StrippingKeepsItems(nested);
    assert Get(c, "type") == Get(b, "type");
    ToolResultItems(b, nested, ser);
    ToolResultItems(c, Stripped(nested), ser);
    assert c.fields - {"content"} == b.fields - {"content"};
  }

  lemma TextBlockItems(text: string, downgrade: bool, ser: Serializer)
    ensures ItemsOfAll([TextBlock(text)], downgrade, ser) == TextItem(text)
    ensures ItemsOfAll(TextUnlessEmpty(text), downgrade, ser) == TextItem(text)
  {
    ItemsOfOne(TextBlock(text), downgrade, ser);
  }

  lemma ToolResultKeepsItems(b: Json, downgrade: bool, ser: Serializer)
    requires KindOf(b) == ToolResult
    ensures ItemsOfAll(Rewrite(b, downgrade, ser).0, downgrade, ser) == ItemsOf(b, downgrade, ser)
  {
    hide *;
    if downgrade {
      DescribedResult(b, ser);
      TextBlockItems(ToolResultText(b, ser), downgrade, ser);
    } else {
      NestedOrKept(b, ser);
      ItemsOfOne(b, downgrade, ser);
    }
  }

  lemma DescribedResult(b: Json, ser: Serializer)
    requires KindOf(b) == ToolResult
    ensures Rewrite(b, true, ser).0 == [TextBlock(ToolResultText(b, ser))]
    ensures ItemsOf(b, true, ser) == TextItem(ToolResultText(b, ser))
  {
    assert AsText(Get(b, "content"), ser) == Rendered(Get(b, "content"), ser);
    hide AsText, Rendered, Stripped, NestedItems;
  }

  lemma NestedOrKept(b: Json, ser: Serializer)
    requires KindOf(b) == ToolResult
    ensures var r := Rewrite(b, false, ser).0;
      r == [b] || ItemsOfAll(r, false, ser) == ItemsOf(b, false, ser)
  {
    hide ItemsOfAll, ItemsOf, Stripped;
    var nested := ArrayOr(Get(b, "content"));
    if nested.Some? {
      NestedRewriteKeepsItems(b, nested.value, ser);
      ItemsOfOne(WithContent(b, Stripped(nested.value)), false, ser);
    }
    hide WithContent;
  }

  lemma ThinkingKeepsItems(b: Json, downgrade: bool, ser: Serializer)
    requires KindOf(b) == Thinking || KindOf(b) == Untyped
    ensures ItemsOfAll(Rewrite(b, downgrade, ser).0, downgrade, ser) == ItemsOf(b, downgrade, ser)
  {
    ItemsOfOne(b, downgrade, ser);
    TextBlockItems(StringOr(Get(b, "thinking")), downgrade, ser);
    TextBlockItems(Rendered(Get(b, "thinking"), ser), downgrade, ser);
    hide NestedItems, Stripped, ItemsOfAll;
  }

  lemma ToolUseKeepsItems(b: Json, downgrade: bool, ser: Serializer)
    requires KindOf(b) == ToolUse
    ensures ItemsOfAll(Rewrite(b, downgrade, ser).0, downgrade, ser) == ItemsOf(b, downgrade, ser)
  {
    ItemsOfOne(b, downgrade, ser);
    TextBlockItems(ToolUseText(b, ser), downgrade, ser);
    hide NestedItems, Stripped, ItemsOfAll, TextBlock, WithContent, ToolResultText;
  }

  /** What takes the place of a block consists of what the block did. */
  lemma RewriteKeepsItems(b: Json, downgrade: bool, ser: Serializer)
    ensures ItemsOfAll(Rewrite(b, downgrade, ser).0, downgrade, ser) == ItemsOf(b, downgrade, ser)
  {
    if KindOf(b) == ToolResult {
      ToolResultKeepsItems(b, downgrade, ser);
    } else if KindOf(b) == Thinking || KindOf(b) == Untyped {
      ThinkingKeepsItems(b, downgrade, ser);
    } else if KindOf(b) == ToolUse {
      ToolUseKeepsItems(b, downgrade, ser);
    } else {
      ItemsOfOne(b, downgrade, ser);
      hide NestedItems, Stripped, ItemsOfAll, TextBlock, WithContent, ToolUseText, ToolResultText;
    }
  }

  lemma {:induction false} RewriteAllKeepsItems(content: seq<Json>, downgrade: bool, ser: Serializer)
    ensures ItemsOfAll(RewriteAll(content, downgrade, ser).0, downgrade, ser) == ItemsOfAll(content, downgrade, ser)
  {
    if content != [] {
      hide Rewrite, ItemsOf;
      var n := |content| - 1;
      RewriteAllKeepsItems(content[..n], downgrade, ser);
      RewriteKeepsItems(content[n], downgrade, ser);
      ItemsConcat(RewriteAll(content[..n], downgrade, ser).0, Rewrite(content[n], downgrade, ser).0, downgrade, ser);
    }
  }

  lemma CleanContentHasItems(content: seq<Json>, downgrade: bool, ser: Serializer)
    requires content != [] && AllClean(content, downgrade)
    ensures ItemsOfAll(content, downgrade, ser) != []
  {
    var last := content[|content| - 1];
    assert Clean(last, downgrade);
    CleanBlockHasItems(last, downgrade, ser);
    hide ItemsOf;
  }

  lemma CleanBlockHasItems(b: Json, downgrade: bool, ser: Serializer)
    requires Clean(b, downgrade)
    ensures ItemsOf(b, downgrade, ser) != []
  {
  }

  /**
   * Everything a message consists of stays, in order: texts, thinking as text, and every other
   * block as it is. When there was nothing, one placeholder says so, by role.
   */
  lemma MessageKeepsItsItems(msg: Json, downgrade: bool, ser: Serializer)
    requires ArrayOr(Get(msg, "content")).Some? && !CleanMessage(msg, downgrade)
    ensures var before := ItemsOfAll(ArrayOr(Get(msg, "content")).value, downgrade, ser);
      var after := ArrayOr(Get(Transformed(msg, downgrade, ser).0, "content"));
      && after.Some?
      && ItemsOfAll(after.value, downgrade, ser) ==
        if before != [] then before
        else if Get(msg, "role") == Some(String("assistant")) then [Said("(assistant content removed)")]
        else [Said("(content removed)")]
  {
    hide *;
    var content := ArrayOr(Get(msg, "content")).value;
    var rewritten := RewriteAll(content, downgrade, ser).0;
    RewriteAllCleans(content, downgrade, ser);
    RewriteAllKeepsItems(content, downgrade, ser);
    UncleanIsRewritten(msg, downgrade, ser);
    ItemsOfOne(msg, downgrade, ser);
    if rewritten == [] {
      PlaceholderItems(msg, downgrade, ser);
    } else {
      CleanContentHasItems(rewritten, downgrade, ser);
    }
  }

  lemma UncleanIsRewritten(msg: Json, downgrade: bool, ser: Serializer)
    requires ArrayOr(Get(msg, "content")).Some? && !CleanMessage(msg, downgrade)
    ensures var rewritten := RewriteAll(ArrayOr(Get(msg, "content")).value, downgrade, ser).0;
      && AllClean(rewritten, downgrade)
      && ArrayOr(Get(Transformed(msg, downgrade, ser).0, "content")) ==
        Some(NewContent(StringOr(Get(msg, "role")), rewritten))
      && (rewritten != [] ==> NewContent(StringOr(Get(msg, "role")), rewritten) == rewritten)
  {
    RewriteAllCleans(ArrayOr(Get(msg, "content")).value, downgrade, ser);
    hide RewriteAll, AllClean;
  }

  lemma PlaceholderItems(msg: Json, downgrade: bool, ser: Serializer)
    ensures ItemsOfAll(NewContent(StringOr(Get(msg, "role")), []), downgrade, ser) ==
      if Get(msg, "role") == Some(String("assistant")) then [Said("(assistant content removed)")]
      else [Said("(content removed)")]
  {
    TextBlockItems(Placeholder(StringOr(Get(msg, "role"))), downgrade, ser);
    hide ItemsOfAll;
  }

  // ---- The rest of the body ----

  predicate ClearsThinking(edit: Json) {
    Get(edit, "type") == Some(String("clear_thinking_20251015"))
  }

  /** Exactly the other edits stay, as often as they were there. */
  lemma {:induction false} OtherEditsStay(edits: seq<Json>, edit: Json)
    ensures multiset(KeptEdits(edits))[edit] == if ClearsThinking(edit) then 0 else multiset(edits)[edit]
    decreases |edits|
  {
    if edits != [] {
      var n := |edits| - 1;
      OtherEditsStay(edits[..n], edit);
      assert edits == edits[..n] + [edits[n]];
      assert IsThinkingStrategy(edits[n]) == ClearsThinking(edits[n]);
      hide ClearsThinking, IsThinkingStrategy;
    }
  }

  /** And in their order: filtering works piece by piece. */
  lemma {:induction false} OtherEditsKeepTheirOrder(a: seq<Json>, b: seq<Json>)
    ensures KeptEdits(a + b) == KeptEdits(a) + KeptEdits(b)
    decreases |b|
  {
    hide IsThinkingStrategy;
    if b == [] {
      assert a + b == a;
    } else {
      var n := |b| - 1;
      OtherEditsKeepTheirOrder(a, b[..n]);
      assert (a + b)[..|a| + n] == a + b[..n] && (a + b)[|a| + n] == b[n];
      ConcatAssociates(KeptEdits(a), KeptEdits(b[..n]), if IsThinkingStrategy(b[n]) then [] else [b[n]]);
    }
  }

  function EditsOf(obj: map<string, Json>): Option<seq<Json>> {
    var cm := Get(Object(obj), "context_management");
    if cm.Some? then ArrayOr(Get(cm.value, "edits")) else None
  }

  /**
   * Every other part of the body stays: each key but `thinking`, `messages` and
   * `context_management`; messages that are no array; and in the context management each key but
   * the edits, which without a `thinking` key stay as well.
   */
  lemma BodyKeepsTheRest(obj: map<string, Json>, downgrade: bool, ser: Serializer, key: string)
    ensures var after := TransformedBody(obj, downgrade, ser).0;
      var cm := Get(Object(obj), "context_management");
      && (key !in {"thinking", "messages", "context_management"} ==> Get(Object(after), key) == Get(Object(obj), key))
      && (ArrayOr(Get(Object(obj), "messages")).None? ==>
        Get(Object(after), "messages") == Get(Object(obj), "messages"))
      && ("thinking" !in obj || EditsOf(obj).None? ==> Get(Object(after), "context_management") == cm)
      && (cm.Some? && key != "edits" ==>
        var cm' := Get(Object(after), "context_management"); cm'.Some? && Get(cm'.value, key) == Get(cm.value, key))
      && "thinking" !in after
  {
    var disabled := if "thinking" in obj then WithoutStrategies(obj - {"thinking"}) else obj;
    assert Get(Object(obj - {"thinking"}), "context_management") == Get(Object(obj), "context_management");
    assert Get(Object(disabled), "messages") == Get(Object(obj), "messages");
    hide TransformedAll, KeptEdits;
  }

  /** With it, exactly the edits that do not clear thinking stay, and no empty list of them. */
  lemma BodyKeepsOtherEdits(obj: map<string, Json>, downgrade: bool, ser: Serializer)
    requires "thinking" in obj && EditsOf(obj).Some?
    ensures var kept := KeptEdits(EditsOf(obj).value);
      EditsOf(TransformedBody(obj, downgrade, ser).0) == if kept == [] then None else Some(kept)
  {
    assert Get(Object(obj - {"thinking"}), "context_management") == Get(Object(obj), "context_management");
    hide TransformedAll, KeptEdits;
  }
}
