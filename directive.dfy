/** Extraction of a tool-call directive from the model's reply
    (`MCPClient.parse_tool_request`).

    The reply is searched for the first `<use_mcp_tool>…</use_mcp_tool>`
    block; the block is parsed as XML, the texts of its `server_name`,
    `tool_name` and `arguments` children are stripped, and the arguments
    text is decoded as JSON. XML parsing and JSON decoding are done by
    libraries outside this model: they are passed in as functions. */
module Directive {

  import opened Values
  import opened PyStr

  const OpenTag := "<use_mcp_tool>"
  const CloseTag := "</use_mcp_tool>"

  /** A block: the opening tag at `start`, the closing tag at `close`. */
  datatype Span = Span(start: nat, close: nat)

  /** One child element of the block's root: its tag and its `.text`, which
      is `None` for an element without text. */
  datatype Child = Child(tag: string, text: Option<string>)

  /** The parsed block: its root element's children, in document order. */
  datatype Element = Element(children: seq<Child>)

  /** Why reading a block raised instead of returning: the XML library
      refused it, a field is missing (`.find` gave `None`), or a field has no
      text (`.text` is `None`, so `.strip()` fails). */
  datatype ParseError = MalformedXml | MissingField(field: string) | FieldWithoutText(field: string)

  /** The three stripped leaf texts of a block. */
  datatype Fields = Fields(serverName: string, toolName: string, argumentsText: string)

  /** The request handed to the dispatcher. */
  datatype ToolRequest = ToolRequest(serverName: string, toolName: string, arguments: Json)

  /** An opening tag at `start` and a closing tag at `close`, after it. */
  ghost predicate IsBlock(s: string, start: nat, close: nat) {
    OccursAt(s, OpenTag, start) && start + |OpenTag| <= close && OccursAt(s, CloseTag, close)
  }

  /** The match `re.search(r'(<use_mcp_tool>.*?</use_mcp_tool>)', s, re.DOTALL)`
      finds: the leftmost block, closed by the nearest closing tag. The dot
      matches every character, newlines included. */
  function FindBlock(s: string): (r: Option<Span>)
    ensures r.None? ==> forall i: nat, j: nat :: !IsBlock(s, i, j)
    ensures r.Some? ==> IsBlock(s, r.value.start, r.value.close)
    ensures r.Some? ==> forall i: nat, j: nat :: i < r.value.start ==> !IsBlock(s, i, j)
    ensures r.Some? ==> forall j: nat :: r.value.start + |OpenTag| <= j < r.value.close ==> !OccursAt(s, CloseTag, j)
  {
    match IndexOf(s, OpenTag, 0)
    case None => None
    case Some(i) =>
      match IndexOf(s, CloseTag, i + |OpenTag|)
      case None =>
        forall i': nat, j: nat ensures !IsBlock(s, i', j) {
          if OccursAt(s, OpenTag, i') && i' + |OpenTag| <= j {
            assert i <= i';
            assert !OccursAt(s, CloseTag, j);
          }
        }
        None
      case Some(j) =>
        assert IsBlock(s, i, j);
        Some(Span(i, j))
  }

  /** `root.find(tag)`: the index of the first child with that tag. */
  function Find(children: seq<Child>, tag: string): (r: Option<nat>)
    ensures r.Some? ==> r.value < |children| && children[r.value].tag == tag
    ensures forall k :: 0 <= k < |children| && (r.None? || k < r.value) ==> children[k].tag != tag
  {
    if children == [] then None
    else if children[0].tag == tag then Some(0)
    else match Find(children[1..], tag)
      case None => None
      case Some(k) => Some(k + 1)
  }

  /** `root.find(field).text.strip()`. */
  function LeafText(root: Element, field: string): (r: Result<string, ParseError>)
    ensures r.Success? ==> Trimmed(r.value)
    ensures r.Failure? ==> r.error == MissingField(field) || r.error == FieldWithoutText(field)
    ensures r == Failure(MissingField(field)) <==> forall k :: 0 <= k < |root.children| ==> root.children[k].tag != field
    ensures Find(root.children, field).Some? ==>
              var c := root.children[Find(root.children, field).value];
              && (c.text.None? ==> r == Failure(FieldWithoutText(field)))
              && (c.text.Some? ==> r == Success(Strip(c.text.value)))
  {
    match Find(root.children, field)
    case None => Failure(MissingField(field))
    case Some(k) =>
      match root.children[k].text
      case None => Failure(FieldWithoutText(field))
      case Some(t) => Success(Strip(t))
  }

  /** The field read is the stripped text of the first child with the field's tag. */
  lemma LeafTextOfFirst(root: Element, field: string, k: nat)
    requires k < |root.children| && root.children[k].tag == field
    requires forall j :: 0 <= j < k ==> root.children[j].tag != field
    ensures root.children[k].text.None? ==> LeafText(root, field) == Failure(FieldWithoutText(field))
    ensures root.children[k].text.Some? ==> LeafText(root, field) == Success(Strip(root.children[k].text.value))
  {
    assert Find(root.children, field) == Some(k);
  }

  /** The three leaf texts, read in the order the source reads them: the
      first one that fails decides the error. */
  function ReadFields(root: Element): (r: Result<Fields, ParseError>)
    ensures r.Success? ==> Trimmed(r.value.serverName) && Trimmed(r.value.toolName) && Trimmed(r.value.argumentsText)
    ensures r.Success? <==> LeafText(root, "server_name").Success? && LeafText(root, "tool_name").Success?
                            && LeafText(root, "arguments").Success?
    ensures r.Success? ==> r.value == Fields(LeafText(root, "server_name").value, LeafText(root, "tool_name").value,
                                             LeafText(root, "arguments").value)
    ensures LeafText(root, "server_name").Failure? ==> r == Failure(LeafText(root, "server_name").error)
    ensures LeafText(root, "server_name").Success? && LeafText(root, "tool_name").Failure? ==>
              r == Failure(LeafText(root, "tool_name").error)
    ensures (LeafText(root, "server_name").Success? && LeafText(root, "tool_name").Success?
             && LeafText(root, "arguments").Failure?) ==> r == Failure(LeafText(root, "arguments").error)
    ensures r.Failure? ==> !r.error.MalformedXml?
  {
    var serverName :- LeafText(root, "server_name");
    var toolName :- LeafText(root, "tool_name");
    var argumentsText :- LeafText(root, "arguments");
    Success(Fields(serverName, toolName, argumentsText))
  }

  /** `match.group(0)`: the text of the block the search finds, both tags included. */
  function BlockText(reply: string): (r: Option<string>)
    ensures r.None? <==> FindBlock(reply).None?
  {
    match FindBlock(reply)
    case None => None
    case Some(sp) => Some(reply[sp.start..sp.close + |CloseTag|])
  }

  /** A block's text starts with the opening tag and ends with the closing tag. */
  lemma BlockEnds(s: string, start: nat, close: nat)
    requires IsBlock(s, start, close)
    ensures var t := s[start..close + |CloseTag|];
            |t| >= |OpenTag| + |CloseTag| && t[..|OpenTag|] == OpenTag && t[|t| - |CloseTag|..] == CloseTag
  {
    var t := s[start..close + |CloseTag|];
    assert t[..|OpenTag|] == s[start..start + |OpenTag|];
    assert t[|t| - |CloseTag|..] == s[close..close + |CloseTag|];
  }

  /** Everything `parse_tool_request` does before `json.loads`: `None` when
      the reply holds no block. */
  function ReadBlock(reply: string, xml: string -> Option<Element>): (r: Option<Result<Fields, ParseError>>)
    ensures r.None? <==> FindBlock(reply).None?
    ensures r.Some? ==> BlockText(reply).Some? && (r.value == Failure(MalformedXml) <==> xml(BlockText(reply).value).None?)
    ensures r.Some? && xml(BlockText(reply).value).Some? ==> r.value == ReadFields(xml(BlockText(reply).value).value)
    ensures r.Some? && r.value.Success? ==> Trimmed(r.value.value.serverName) && Trimmed(r.value.value.toolName)
  {
    match BlockText(reply)
    case None => None
    case Some(t) =>
      match xml(t)
      case None => Some(Failure(MalformedXml))
      case Some(root) => Some(ReadFields(root))
  }

  /** `parse_tool_request`: `Success(None)` when there is no block or its
      arguments are not valid JSON; `Failure` when the block cannot be read
      (the exception the chat loop catches); otherwise the whole request. */
  function ParseToolRequest(reply: string, xml: string -> Option<Element>, json: string -> Option<Json>)
    : (r: Result<Option<ToolRequest>, ParseError>)
    ensures (forall i: nat, j: nat :: !IsBlock(reply, i, j)) ==> r == Success(None)
    ensures var read := ReadBlock(reply, xml);
            read.Some? && read.value.Failure? ==> r == Failure(read.value.error)
    ensures var read := ReadBlock(reply, xml);
            read.Some? && read.value.Success? ==>
              var f := read.value.value;
              && r.Success?
              && (r.value.Some? <==> json(f.argumentsText).Some?)
              && (r.value.Some? ==> r.value.value == ToolRequest(f.serverName, f.toolName, json(f.argumentsText).value))
  {
    match ReadBlock(reply, xml)
    case None => Success(None)
    case Some(Failure(e)) => Failure(e)
    case Some(Success(f)) =>
      match json(f.argumentsText)
      case None => Success(None)
      case Some(arguments) => Success(Some(ToolRequest(f.serverName, f.toolName, arguments)))
  }

  /** `OpenTag` and `CloseTag` contain `<` only as their first character. */
  lemma TagsStartWithTheirOnlyAngle()
    ensures forall k :: 0 < k < |OpenTag| ==> OpenTag[k] != '<'
    ensures forall k :: 0 < k < |CloseTag| ==> CloseTag[k] != '<'
  {
  }

  /** Text without `<` holds neither tag. */
  lemma NoTagInPlainText(pre: string, tag: string)
    requires '<' !in pre && |tag| > 0 && tag[0] == '<'
    ensures !Contains(pre, tag)
  {
    forall j: nat ensures !OccursAt(pre, tag, j) {
      if j + |tag| <= |pre| {
        assert pre[j..j + |tag|][0] == pre[j] != '<';
      }
    }
  }

  /** After text without `<`, the first opening tag is the one that follows it. */
  lemma OpenTagFirst(pre: string, body: string, post: string)
    requires '<' !in pre
    ensures IndexOf(pre + OpenTag + body + CloseTag + post, OpenTag, 0) == Some(|pre|)
  {
    TagsStartWithTheirOnlyAngle();
    NoTagInPlainText(pre, OpenTag);
    var rest := body + CloseTag + post;
    assert pre + OpenTag + body + CloseTag + post == [] + pre + OpenTag + rest;
    FirstOccurrence([], pre, OpenTag, rest);
  }

  /** After a body without the closing tag, the first closing tag is the one that follows it. */
  lemma CloseTagFirst(pre: string, body: string, post: string)
    requires !Contains(body, CloseTag)
    ensures IndexOf(pre + OpenTag + body + CloseTag + post, CloseTag, |pre| + |OpenTag|)
            == Some(|pre| + |OpenTag| + |body|)
  {
    TagsStartWithTheirOnlyAngle();
    var x := pre + OpenTag;
    assert pre + OpenTag + body + CloseTag + post == x + body + CloseTag + post;
    FirstOccurrence(x, body, CloseTag, post);
  }

  /** Both searches of a framed reply stop at the tags that frame the body. */
  lemma FramedSearches(s: string, pre: string, body: string, post: string)
    requires s == pre + OpenTag + body + CloseTag + post
    requires '<' !in pre && !Contains(body, CloseTag)
    ensures IndexOf(s, OpenTag, 0) == Some(|pre|)
    ensures IndexOf(s, CloseTag, |pre| + |OpenTag|) == Some(|pre| + |OpenTag| + |body|)
  {
    OpenTagFirst(pre, body, post);
    CloseTagFirst(pre, body, post);
  }

  lemma FramedBounds(s: string, pre: string, body: string, post: string)
    requires s == pre + OpenTag + body + CloseTag + post
    requires '<' !in pre && !Contains(body, CloseTag)
    ensures FindBlock(s).Some? && FindBlock(s).value.start == |pre|
    ensures FindBlock(s).value.close == |pre| + |OpenTag| + |body|
  {
    FramedSearches(s, pre, body, post);
  }

  /** A reply made of text without `<`, an opening tag, a body without the
      closing tag, the closing tag and any trailing text holds its block
      exactly there. */
  lemma FindBlockFramed(s: string, pre: string, body: string, post: string)
    requires s == pre + OpenTag + body + CloseTag + post
    requires '<' !in pre && !Contains(body, CloseTag)
    ensures FindBlock(s) == Some(Span(|pre|, |pre| + |OpenTag| + |body|))
  {
    FramedBounds(s, pre, body, post);
  }

  /** Text after the first complete block does not change the block found. */
  lemma FindBlockIgnoresTrailingText(a: string, b: string)
    requires FindBlock(a).Some?
    ensures FindBlock(a + b) == FindBlock(a)
  {
    var sp := FindBlock(a).value;
    IndexOfPrefix(a, b, OpenTag, 0);
    IndexOfPrefix(a, b, CloseTag, sp.start + |OpenTag|);
  }

  lemma BlockTextOf(s: string, sp: Span)
    requires FindBlock(s) == Some(sp)
    ensures sp.close + |CloseTag| <= |s| && BlockText(s) == Some(s[sp.start..sp.close + |CloseTag|])
  {
  }

  /** The text handed to the XML parser starts with the opening tag and ends
      with the closing tag. */
  lemma BlockTextTagged(reply: string)
    requires BlockText(reply).Some?
    ensures var t := BlockText(reply).value;
            |t| >= |OpenTag| + |CloseTag| && t[..|OpenTag|] == OpenTag && t[|t| - |CloseTag|..] == CloseTag
  {
    var sp := FindBlock(reply).value;
    BlockTextOf(reply, sp);
    BlockEnds(reply, sp.start, sp.close);
  }

  /** Text after the first complete block does not change the text handed to the XML parser. */
  lemma BlockTextIgnoresTrailingText(a: string, b: string)
    requires FindBlock(a).Some?
    ensures BlockText(a + b) == BlockText(a)
  {
    FindBlockIgnoresTrailingText(a, b);
    var sp := FindBlock(a).value;
    BlockTextOf(a, sp);
    BlockTextOf(a + b, sp);
    assert OccursAt(a, CloseTag, sp.close);
    SliceOfLeft(a, b, sp.start, sp.close + |CloseTag|);
  }

  lemma ReadBlockIgnoresTrailingText(a: string, b: string, xml: string -> Option<Element>)
    requires FindBlock(a).Some?
    ensures ReadBlock(a + b, xml) == ReadBlock(a, xml)
  {
    BlockTextIgnoresTrailingText(a, b);
  }

  /** Only the first block counts: appending text to a reply that already
      holds a block does not change what is parsed. */
  lemma ParseIgnoresTrailingText(a: string, b: string, xml: string -> Option<Element>, json: string -> Option<Json>)
    requires exists i: nat, j: nat :: IsBlock(a, i, j)
    ensures ParseToolRequest(a + b, xml, json) == ParseToolRequest(a, xml, json)
  {
    ReadBlockIgnoresTrailingText(a, b, xml);
  }

  /** The root of the directive `<server_name> s </server_name><tool_name>t</tool_name><arguments>{"a":1}</arguments>`. */
  function ExampleRoot(): Element {
    Element([Child("server_name", Some(" s ")), Child("tool_name", Some("t")), Child("arguments", Some("{\"a\":1}"))])
  }

  lemma ExampleServerName()
    ensures LeafText(ExampleRoot(), "server_name") == Success("s")
  {
    assert Find(ExampleRoot().children, "server_name") == Some(0);
    assert " s " == " " + "s" + " ";
    StripUnique(" ", "s", " ");
  }

  lemma ExampleToolName()
    ensures LeafText(ExampleRoot(), "tool_name") == Success("t")
  {
    var cs := ExampleRoot().children;
    assert cs[0].tag[0] == 's';
    assert Find(cs, "tool_name") == Some(1);
    assert "t" == "" + "t" + "";
    StripUnique("", "t", "");
  }

  lemma ExampleArguments()
    ensures LeafText(ExampleRoot(), "arguments") == Success("{\"a\":1}")
  {
    var cs := ExampleRoot().children;
    assert cs[0].tag[0] == 's' && cs[1].tag[0] == 't';
    assert Find(cs, "arguments") == Some(2);
    assert "{\"a\":1}" == "" + "{\"a\":1}" + "";
    StripUnique("", "{\"a\":1}", "");
  }

  /** The fields of the example directive, stripped. */
  lemma ExampleFields()
    ensures ReadFields(ExampleRoot()) == Success(Fields("s", "t", "{\"a\":1}"))
  {
    ExampleServerName();
    ExampleToolName();
    ExampleArguments();
  }

  /** The XML parser is handed the framed block, tags included. */
  lemma FramedBlockText(s: string, pre: string, body: string, post: string)
    requires s == pre + OpenTag + body + CloseTag + post
    requires '<' !in pre && !Contains(body, CloseTag)
    ensures BlockText(s) == Some(OpenTag + body + CloseTag)
  {
    FindBlockFramed(s, pre, body, post);
    assert s == pre + (OpenTag + body + CloseTag) + post;
    assert s[|pre|..|pre| + |OpenTag| + |body| + |CloseTag|] == OpenTag + body + CloseTag;
  }

  /** A well-formed directive whose fields read ` s `, `t` and `{"a":1}`
      gives exactly the request for server `s`, tool `t` and the decoded
      arguments; text before (without `<`) and after the block is ignored. */
  lemma ParseWellFormedDirective(pre: string, body: string, post: string,
                                 xml: string -> Option<Element>, json: string -> Option<Json>, arguments: Json)
    requires '<' !in pre && !Contains(body, CloseTag)
    requires xml(OpenTag + body + CloseTag) == Some(ExampleRoot())
    requires json("{\"a\":1}") == Some(arguments)
    ensures ParseToolRequest(pre + OpenTag + body + CloseTag + post, xml, json) ==
            Success(Some(ToolRequest("s", "t", arguments)))
  {
    var s := pre + OpenTag + body + CloseTag + post;
    FramedBlockText(s, pre, body, post);
    ExampleFields();
    assert ReadBlock(s, xml) == Some(Success(Fields("s", "t", "{\"a\":1}")));
  }

  /** A directive whose arguments do not decode yields no request at all,
      never a partial one. */
  lemma ParseInvalidArguments(reply: string, xml: string -> Option<Element>, json: string -> Option<Json>)
    requires ReadBlock(reply, xml).Some? && ReadBlock(reply, xml).value.Success?
    requires json(ReadBlock(reply, xml).value.value.argumentsText).None?
    ensures ParseToolRequest(reply, xml, json) == Success(None)
  {
  }
}
