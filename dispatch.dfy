/** What `MCPClient.call_mcp_tool` makes of a tool call: the text of a
    result, and the error text that replaces every exception. The loop that
    collects the texts is `Client.MCPClient.CallMcpTool`; this module holds
    the definitions it is proved against. */
module Dispatch {

  import opened Values
  import opened PyStr
  import Directive

  /** One item of a result's `content`; `text` is `None` for an item that has
      no `text` attribute (an image or an embedded resource). */
  datatype ContentItem = ContentItem(text: Option<string>)

  /** What `call_tool` returns: `content` is `None` when the result has no
      `content` attribute, and `rendered` is `str(result)`. */
  datatype ToolResult = ToolResult(content: Option<seq<ContentItem>>, rendered: string)

  /** The remote call returns a result or raises an exception with message `str(e)`. */
  datatype CallOutcome = Returned(result: ToolResult) | Raised(message: string)

  /** The `params` dictionary of `call_mcp_tool`; an absent key is `None`. */
  datatype Params = Params(serverName: Option<string>, toolName: Option<string>, arguments: Option<Json>)

  /** The dictionary the chat loop passes: the parsed request, all three keys
      present, so neither the `'unknown'` label nor the `{}` arguments apply. */
  function RequestParams(request: Directive.ToolRequest): (p: Params)
    ensures p.serverName == Some(request.serverName)
    ensures ToolLabel(p) == request.toolName && ArgumentsOf(p) == request.arguments
  {
    Params(Some(request.serverName), Some(request.toolName), Some(request.arguments))
  }

  /** `params.get('arguments', {})`. */
  function ArgumentsOf(p: Params): (a: Json)
    ensures p.arguments.None? ==> a == JObject(map[])
    ensures p.arguments.Some? ==> a == p.arguments.value
  {
    match p.arguments
    case None => JObject(map[])
    case Some(a) => a
  }

  /** `params.get('tool_name', 'unknown')`. */
  function ToolLabel(p: Params): (shown: string)
    ensures p.toolName.None? ==> shown == "unknown"
    ensures p.toolName.Some? ==> shown == p.toolName.value
  {
    match p.toolName
    case None => "unknown"
    case Some(t) => t
  }

  /** `str(KeyError(key))`: the `repr` of the missing key. */
  function KeyErrorMessage(key: Option<string>): (m: string)
    ensures key.None? ==> m == "None"
    ensures key.Some? ==> |m| >= 2 && (m[0] == '\'' || m[0] == '"') && m[|m| - 1] == m[0]
    ensures key.Some? && (forall i :: 0 <= i < |key.value| ==> PlainChar(key.value[i])) ==> m == "'" + key.value + "'"
  {
    match key
    case None => "None"
    case Some(k) => Repr(k)
  }

  /** The text that replaces any exception raised while calling the tool. */
  function ErrorText(p: Params, message: string): (r: string)
    ensures |r| >= 19 && r[..19] == "Error calling tool " && EndsWith(r, ": " + message)
    ensures p.toolName.None? ==> r == "Error calling tool unknown: " + message
    ensures p.toolName.Some? ==> r == "Error calling tool " + p.toolName.value + ": " + message
  {
    "Error calling tool " + ToolLabel(p) + ": " + message
  }

  /** The texts of the items that carry one, in their order. */
  function Texts(items: seq<ContentItem>): (r: seq<string>)
    ensures |r| <= |items|
  {
    if items == [] then []
    else
      var last := items[|items| - 1];
      Texts(items[..|items| - 1]) + (if last.text.Some? then [last.text.value] else [])
  }

  /** The text of a returned result: its item texts joined by newlines, or
      `str(result)` when no item carries text (no content, empty content, or
      only items without text). */
  function ResultText(result: ToolResult): (r: string)
    ensures result.content.None? || (forall k :: 0 <= k < |result.content.value| ==> result.content.value[k].text.None?)
            ==> r == result.rendered
    ensures result.content.Some? && (exists k :: 0 <= k < |result.content.value| && result.content.value[k].text.Some?)
            ==> r == Join("\n", Texts(result.content.value))
  {
    if result.content.Some? then
      TextsEmpty(result.content.value);
      if Texts(result.content.value) != [] then Join("\n", Texts(result.content.value)) else result.rendered
    else result.rendered
  }

  /** No text is collected exactly when no item carries one. */
  lemma {:induction false} TextsEmpty(items: seq<ContentItem>)
    ensures Texts(items) == [] <==> forall k :: 0 <= k < |items| ==> items[k].text.None?
  {
    if items != [] {
      var init := items[..|items| - 1];
      TextsEmpty(init);
      assert forall k :: 0 <= k < |init| ==> init[k] == items[k];
    }
  }

  /** Collecting texts distributes over concatenation: the texts keep the order of their items. */
  lemma {:induction false} TextsConcat(a: seq<ContentItem>, b: seq<ContentItem>)
    ensures Texts(a + b) == Texts(a) + Texts(b)
    decreases |b|
  {
    if b == [] {
      assert a + b == a;
    } else {
      var c := a + b;
      assert c[..|c| - 1] == a + b[..|b| - 1];
      TextsConcat(a, b[..|b| - 1]);
    }
  }

  /** A text is collected exactly when some item carries it. */
  lemma {:induction false} TextsMembers(items: seq<ContentItem>, t: string)
    ensures t in Texts(items) <==> exists k :: 0 <= k < |items| && items[k].text == Some(t)
  {
    if items != [] {
      var init := items[..|items| - 1];
      TextsMembers(init, t);
      assert forall k :: 0 <= k < |init| ==> init[k] == items[k];
    }
  }

  /** Items without text are skipped: removing them changes nothing. */
  lemma SkipsItemsWithoutText(a: seq<ContentItem>, b: seq<ContentItem>, item: ContentItem)
    requires item.text.None?
    ensures Texts(a + [item] + b) == Texts(a + b)
  {
    TextsConcat(a + [item], b);
    TextsConcat(a, [item]);
    assert [item][..0] == [];
    TextsConcat(a, b);
  }

  /** Two text items `"a"` and `"b"` give `"a\nb"`. */
  lemma TwoTextItems(rendered: string)
    ensures ResultText(ToolResult(Some([ContentItem(Some("a")), ContentItem(Some("b"))]), rendered)) == "a\nb"
  {
    var items := [ContentItem(Some("a")), ContentItem(Some("b"))];
    TwoTexts(items);
    JoinTwo();
  }

  lemma JoinTwo()
    ensures Join("\n", ["a", "b"]) == "a\nb"
  {
    assert ["a", "b"][1..] == ["b"];
  }

  lemma TwoTexts(items: seq<ContentItem>)
    requires items == [ContentItem(Some("a")), ContentItem(Some("b"))]
    ensures Texts(items) == ["a", "b"]
  {
    assert items[..1] == [ContentItem(Some("a"))];
    assert [ContentItem(Some("a"))][..0] == [];
    assert Texts(items[..1]) == ["a"];
  }

  /** When the item texts have no newline of their own, splitting the result
      text at newlines gives back exactly the item texts, in order. */
  lemma ResultTextSplits(result: ToolResult)
    requires result.content.Some? && Texts(result.content.value) != []
    requires forall t :: t in Texts(result.content.value) ==> '\n' !in t
    ensures Split(ResultText(result), '\n') == Texts(result.content.value)
  {
    SplitJoin(Texts(result.content.value), '\n');
  }

  /** The error text for a server name that is not registered names it in
      quotes, when the name needs no escaping. */
  lemma UnknownServerText(p: Params)
    requires p.serverName.Some?
    requires forall i :: 0 <= i < |p.serverName.value| ==> PlainChar(p.serverName.value[i])
    ensures ErrorText(p, KeyErrorMessage(p.serverName)) ==
            "Error calling tool " + ToolLabel(p) + ": '" + p.serverName.value + "'"
  {
  }
}
