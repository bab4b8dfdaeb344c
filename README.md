# MCP client tool-call path, modelled in Dafny

This project models the tool-call path of a small Model Context Protocol
(MCP) chat client, `MCPClient` in `mcp_client/client.py`. The client
connects to tool servers over stdio. It splices each server's tool catalogue
into the system prompt. It sends the user's line, framed, to a language model.
It then looks for a `<use_mcp_tool>` directive in the reply and dispatches the
directive to the named server's session. Every outcome of that call is turned
into text.

Modules, one per concern of the client:

- `Values` (`values.dfy`): `Option`, `Result` (a value or a raised
  exception), `Json` values and opaque `Session` handles.
- `PyStr` (`pystr.dfy`): the Python `str` built-ins the client calls:
  `strip`, `lower`, `endswith`, `replace` and `join`, and `repr`, which
  `str` of a `KeyError` uses. It also holds `IndexOf`, the left-to-right
  substring scan from which the `re.search` for a directive is built, and
  `Split`, which the client never calls: it is the reference inverse used to
  state what `"\n".join` preserves.
- `Directive` (`directive.dfy`): `parse_tool_request`. The regular-expression
  search is a string function proved to find the leftmost block, closed by the
  nearest closing tag. The lxml parse and `json.loads` are function
  parameters.
- `Prompt` (`prompt.dfy`): the catalogue text and the marker splice of
  `connect_to_stdio_server`. It proves that catalogues accumulate in
  connection order before the marker.
- `Dispatch` (`dispatch.dfy`): what `call_mcp_tool` returns: a result's
  texts joined by newlines or `str(result)`, and the error text that replaces
  every exception.
- `Conversation` (`conversation.dfy`): the chat loop's quit/skip/process
  decision and the two-message list sent to the model.
- `Client` (`client.dfy`): the `MCPClient` class. Its `sessions` map and
  `systemPrompt` string are updated in place by `ConnectToStdioServer`.
  `CallMcpTool` collects the content texts in a loop and is proved against
  `Dispatch`.

Foreign code is passed in as functions, so every lemma holds for all of its
possible behaviours. This covers the XML parser, the JSON decoder and encoder,
process launching with the opening of the session, the MCP handshake together
with `list_tools` (the handshake runs after the session is stored, so a failed
handshake leaves the session registered), and `call_tool`. A
foreign call that raises is an `Option`/`Result` failure, never a precondition.

Behaviour of the code that the model keeps:

- The arguments payload may be any JSON value; nothing checks that it is an
  object.
- A missing or text-less field in the directive raises an exception that
  `parse_tool_request` does not catch; the chat loop catches it and prints
  `Error in chat loop: …`. The model returns `Failure(MissingField(…))` or
  `Failure(FieldWithoutText(…))`.
- The error text for an unknown server is the `str` of the `KeyError`, that
  is the `repr` of the name, in quotes.

## Model

| member | source | states |
|---|---|---|
| PyStr.Strip | mcp_client/client.py:67-69 | `strip()` leaves no whitespace at either end, and the result is the part of the input between two whitespace runs |
| PyStr.StripUnique | mcp_client/client.py:67-69 | conversely, any trimmed text between two whitespace runs is exactly what `strip()` returns |
| PyStr.StripPadded | mcp_client/client.py:144 | whitespace added around a line does not change its stripped form |
| PyStr.StripTrimmed | mcp_client/client.py:67-69 | a text without whitespace at its ends is its own `strip()` |
| PyStr.StripEmpty | mcp_client/client.py:144-151 | `strip()` gives the empty string iff the text is all whitespace |
| PyStr.IndexOf | mcp_client/client.py:62-64 | the search returns the first occurrence at or after the start index, and `None` only when there is none |
| PyStr.Lower | mcp_client/client.py:146 | `lower()` keeps the length, maps each ASCII capital to its small letter, leaves every other character alone, and leaves no ASCII capital |
| PyStr.EndsWith | mcp_client/client.py:27-32 | `endswith(suffix)` holds iff the text is some text followed by the suffix |
| PyStr.Join | mcp_client/client.py:107 | joining no texts gives the empty text, and the result starts with the first text; `SplitJoin` shows that it can be undone |
| PyStr.IndexOfPrefix | mcp_client/client.py:62-64 | text appended after an occurrence does not change what the search returns |
| PyStr.FirstOccurrence | mcp_client/client.py:62-64 | searching from the start of a body without the pattern stops at the pattern that follows the body, when the pattern's first character does not recur in it |
| PyStr.SplitJoin | mcp_client/client.py:107 | joining newline-free texts with `"\n"` and splitting again gives the texts back, in order |
| PyStr.ReplaceAll | mcp_client/client.py:55 | `replace` leaves a string in which the pattern does not occur unchanged |
| PyStr.ReplaceAtOccurrence | mcp_client/client.py:55 | an occurrence at the start is replaced and the scan goes on after it; with `ReplaceAfterPrefix`, every occurrence is replaced, not only the first |
| PyStr.ReplaceAfterPrefix | mcp_client/client.py:55 | `replace` copies a prefix where no occurrence starts unchanged |
| PyStr.ReplaceKeeps | mcp_client/client.py:55 | if the pattern occurs and the replacement contains a text, the result contains that text |
| PyStr.Repr | mcp_client/client.py:111-112 | `repr` quotes with `'`, or with `"` exactly when the text holds `'` and no `"`; a text of printable ASCII characters other than quote and backslash is rendered between single quotes as it is |
| Directive.FindBlock | mcp_client/client.py:62-64 | the non-greedy DOTALL search finds a block iff an opening tag is followed somewhere by a closing tag; it finds the leftmost opening tag and the nearest closing tag after it |
| Directive.BlockText | mcp_client/client.py:64-66 | there is text for the XML parser iff the search finds a block |
| Directive.BlockTextTagged | mcp_client/client.py:62-66 | the text handed to the XML parser starts with the opening tag and ends with the closing tag |
| Directive.Find | mcp_client/client.py:67-69 | `find(tag)` gives the first child with that tag, and `None` only when no child has it |
| Directive.LeafText | mcp_client/client.py:67-69 | the field is `MissingField` exactly when no child has the tag; otherwise, for the first such child `find` gives, it is `FieldWithoutText` when that child has no text and the stripped text when it has one |
| Directive.LeafTextOfFirst | mcp_client/client.py:67-69 | the value read for a field is decided by the first child carrying its tag: its stripped text, or `FieldWithoutText` |
| Directive.ReadFields | mcp_client/client.py:67-69 | reading succeeds iff all three fields have text, and then gives exactly the three stripped texts; otherwise the first failing field, in the order server name, tool name, arguments, decides the error, which is never `MalformedXml` |
| Directive.ReadBlock | mcp_client/client.py:62-69 | there is nothing to read iff the search finds no block; otherwise the block's text is parsed as XML, `MalformedXml` occurs iff the parser refuses it, and a parsed root gives exactly its fields |
| Directive.ParseToolRequest | mcp_client/client.py:60-82 | no block gives `None`; a read failure is raised; otherwise a request exists iff the arguments decode, and it is exactly the stripped names and the decoded arguments |
| Directive.FindBlockFramed | mcp_client/client.py:62-64 | a directive preceded by text without `<` and whose body has no closing tag is found exactly where it stands, newlines and trailing text notwithstanding |
| Directive.FindBlockIgnoresTrailingText | mcp_client/client.py:62-64 | text appended after a complete block does not move the block found |
| Directive.BlockTextIgnoresTrailingText | mcp_client/client.py:62-66 | text appended after a complete block does not change the text handed to the XML parser |
| Directive.ReadBlockIgnoresTrailingText | mcp_client/client.py:62-69 | text appended after a complete block does not change the fields read |
| Directive.ParseIgnoresTrailingText | mcp_client/client.py:60-82 | only the first block matters: appending text to a reply with a block does not change the parse |
| Directive.ParseWellFormedDirective | mcp_client/client.py:60-82 | a directive with fields ` s `, `t` and `{"a":1}` parses to exactly server `s`, tool `t` and the decoded arguments |
| Directive.ParseInvalidArguments | mcp_client/client.py:71-80 | arguments that do not decode give `None`, never a partial request |
| Prompt.ToolEntry | mcp_client/client.py:50-54 | a tool's entry exists iff the tool has a description; it starts with `##` and the server name, then holds the tool name, the description and the dumped input schema at their places, the schema last |
| Prompt.Entries | mcp_client/client.py:50-54 | the catalogue has one entry per tool, in the server's order, and fails iff some tool lacks a description |
| Prompt.Catalogue | mcp_client/client.py:50-55 | the catalogue is `None` iff some tool lacks a description; otherwise it is the tools' entries, in order, joined by newlines: empty exactly for a server without tools, starting with `#` otherwise |
| Prompt.Splice | mcp_client/client.py:55 | a prompt without the `<$MCP_INFO$>` marker is left unchanged by a connect; a prompt with it still holds it afterwards, so later servers can be added |
| Prompt.SpliceAtMarker | mcp_client/client.py:55 | with a single marker, a connect inserts the catalogue and a newline just before it |
| Prompt.SpliceBeforeMarker | mcp_client/client.py:55 | the text before the first marker is copied, that marker gets the catalogue and a newline before it, and the splice goes on after it |
| Prompt.SpliceEveryMarker | mcp_client/client.py:55 | in a prompt of marker-free pieces separated by markers, every marker gets the catalogue and a newline before it |
| Prompt.SpliceAllAccumulates | mcp_client/client.py:50-55 | successive connects leave the catalogues before the one marker in connection order, and no second marker appears |
| Dispatch.RequestParams | mcp_client/client.py:156-162 | for the dictionary built from a parsed request, the server lookup uses its server name, and neither the `unknown` label nor the `{}` arguments default ever applies: the label is the request's tool name and the arguments are its arguments |
| Dispatch.ArgumentsOf | mcp_client/client.py:95 | `params.get('arguments', {})`: the arguments when the key is present, the empty object otherwise |
| Dispatch.ToolLabel | mcp_client/client.py:112 | `params.get('tool_name', 'unknown')`: the tool name when the key is present, `unknown` otherwise |
| Dispatch.KeyErrorMessage | mcp_client/client.py:98-112 | `str` of the `KeyError` for a missing key is `None` for no name, and otherwise a quoted text, single-quoted around the name itself when the name is plain |
| Dispatch.ErrorText | mcp_client/client.py:111-112 | every exception gives `Error calling tool `, then the tool name when one is given and `unknown` otherwise, then `: ` and the message |
| Dispatch.Texts | mcp_client/client.py:103-106 | no more texts are collected than there are items; `TextsConcat`, `TextsMembers` and `TextsEmpty` state what is collected, in which order |
| Dispatch.TextsEmpty | mcp_client/client.py:103-107 | no text is collected iff no item carries one |
| Dispatch.ResultText | mcp_client/client.py:101-109 | a result without content or whose items carry no text gives `str(result)`; otherwise its item texts joined by newlines |
| Dispatch.TextsConcat | mcp_client/client.py:103-106 | collecting texts distributes over concatenation, so texts keep their items' order |
| Dispatch.TextsMembers | mcp_client/client.py:103-106 | a text is collected iff some content item carries it |
| Dispatch.SkipsItemsWithoutText | mcp_client/client.py:104-106 | items without text are skipped |
| Dispatch.TwoTextItems | mcp_client/client.py:107 | two text items `a` and `b` give `"a\nb"` |
| Dispatch.ResultTextSplits | mcp_client/client.py:107 | the result text splits back into exactly the item texts when these hold no newline |
| Dispatch.UnknownServerText | mcp_client/client.py:93-112 | for a server name made only of printable ASCII characters other than quote and backslash, an unknown server gives `Error calling tool <tool>: '<server>'` |
| Conversation.Classify | mcp_client/client.py:144-151 | a processed line is the stripped input, non-empty and not an exit word |
| Conversation.LowerSpells | mcp_client/client.py:146 | a line lower-cases to a lower-case word iff it spells the word in any mix of cases |
| Conversation.ExitWordSpelling | mcp_client/client.py:146 | a line is in `["quit", "exit", "bye"]` after `lower()` iff it spells one of them in any case |
| Conversation.QuitWords | mcp_client/client.py:144-148 | the loop ends iff the stripped line spells `quit`, `exit` or `bye` in any case |
| Conversation.SkipBlank | mcp_client/client.py:150-151 | a line is skipped iff it is empty or all whitespace |
| Conversation.ClassifyPadded | mcp_client/client.py:144 | whitespace around a line does not change the decision |
| Conversation.QuitInCapitals | mcp_client/client.py:144-148 | `"  QUIT\n"` ends the loop |
| Conversation.BlankSkipped | mcp_client/client.py:150-151 | a line of blanks and a tab is skipped |
| Conversation.Frame | mcp_client/client.py:119 | the user message is the fixed prefix, the input and the fixed suffix, so the input can be read back between them |
| Conversation.Unframe | mcp_client/client.py:119 | the input recovered from a user message, framed again, is that message |
| Conversation.BuildMessages | mcp_client/client.py:117-120 | exactly two messages: the system prompt first, then a user message from which the input is recovered |
| Client.CommandFor | mcp_client/client.py:27-32 | the command is `python` iff the script ends in `.py`, otherwise `node` for `.js` |
| Client.IsServerScript | mcp_client/client.py:27-32 | a script is accepted iff its path is some name followed by `.py` or by `.js` |
| Client.MCPClient.constructor | mcp_client/client.py:14-24 | a new client has no sessions and the prompt file's text as its prompt |
| Client.MCPClient.ConnectToStdioServer | mcp_client/client.py:26-55 | a non-`.py`/`.js` script is rejected before any change; a launched session is stored under its name with every other entry unchanged; the catalogue is spliced into the prompt only when it was listed and written |
| Client.MCPClient.Register | mcp_client/client.py:46-55 | the session is stored under its name; the catalogue is spliced in iff the tools were listed and every one has a description, otherwise the prompt is unchanged |
| Client.MCPClient.AddCatalogue | mcp_client/client.py:55 | the prompt becomes the splice of the old prompt, and the catalogue is recorded after the earlier ones |
| Client.MCPClient.CallMcpTool | mcp_client/client.py:84-112 | never raises: an unknown server or a failing call gives the error text with `unknown` for a missing tool name; a result gives its texts joined by newlines, or `str(result)` |
| Client.ConnectedPrompt | mcp_client/client.py:50-55 | a valid client's prompt holds its catalogues in connection order before the single marker; the catalogues being empty or headed is part of the client's invariant |

## Left out

- The DeepSeek/OpenAI completion call and its `Error processing with AI` text (mcp_client/client.py:16-19, 122-134) are a network client. Only the two-message list given to it is modelled.
- The stdio transport, the `ClientSession` handshake, `list_tools`, `call_tool` and `AsyncExitStack` with `cleanup` (mcp_client/client.py:33-49, 174-187) are asynchronous I/O. They appear as function parameters. The release of transports in reverse order on exit is not modelled.
- Reading `mcp_client/MCP_Prompt.txt`, `print`, `input`, `KeyboardInterrupt` and `asyncio.run` are I/O. The prompt text is the constructor's parameter.
- The chat loop after the decision (mcp_client/client.py:153-172) only prints: the request it shows, or the raw reply. It calls `ParseToolRequest` and `CallMcpTool` as modelled here.
- The internals of lxml and of `json.loads`/`json.dumps` are not modelled. The model keeps only the children of the block's root (tag and text), as lxml reports them. JSON numbers are integers.
- Exception messages of the connect path are not modelled. `ConnectToStdioServer` reports only which step raised.
- Dispatch.ResultText: `str(result)` is an input of the result, so the model does not show that this fallback text is never empty.
- PyStr.Lower: only ASCII letters are lower-cased. For the words `quit`, `exit` and `bye` this decides the same as Python's `lower()`. The only non-ASCII characters that lower-case to ASCII letters are the Kelvin sign, which gives `k`, and the dotted capital I, which gives two characters.
- PyStr.Repr: non-ASCII characters that Python's `repr` escapes are kept as they are; the single-quote rendering is proved only for printable ASCII names. ASCII control characters, quotes and backslashes are escaped as Python does.
- The unused `self.messages` field is not modelled.
- Dispatch.Params: a `tool_name` key that is present with the value `None` is not told apart from an absent one. `params.get('tool_name', 'unknown')` gives `None` for the first and `unknown` for the second. The chat loop always passes all three keys with values.
- mcp_server/server_sse.py, mcp_server/server_test.py and mcp_server/server_stdio_integration_test.py are not part of this model. They hold the weather server's HTTP client, its floating-point formatting and its tests.
