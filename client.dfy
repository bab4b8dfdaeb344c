/** The client object (`MCPClient`): its registry of open sessions, keyed
    by server name, and its system prompt, both updated in place when a
    server is connected; and the tool call that looks a session up and turns
    whatever happens into text. Process launching, the protocol handshake,
    `list_tools`, `call_tool` and `json.dumps` are outside this model and
    are passed in as functions. */
module Client {

  import opened Values
  import opened PyStr
  import opened Prompt
  import opened Dispatch

  /** What `connect_to_stdio_server` did. */
  datatype ConnectOutcome =
      /** `ValueError`: the script is neither `.py` nor `.js`; nothing changed. */
    | Rejected
      /** The server process or its session could not be opened; nothing changed. */
    | LaunchFailed(command: string)
      /** The session is registered, but its catalogue could not be fetched or written. */
    | ListFailed(command: string)
    | Connected(command: string)
  {
    predicate Registered() { ListFailed? || Connected? }
  }

  /** A script the client knows how to run: a `.py` or a `.js` file. */
  predicate IsServerScript(path: string): (r: bool)
    ensures r <==> (exists name :: path == name + ".py") || (exists name :: path == name + ".js")
  {
    EndsWith(path, ".py") || EndsWith(path, ".js")
  }

  /** The interpreter that runs the script. */
  function CommandFor(path: string): (command: string)
    requires IsServerScript(path)
    ensures command == "python" <==> EndsWith(path, ".py")
    ensures command == "node" <==> !EndsWith(path, ".py") && EndsWith(path, ".js")
  {
    if EndsWith(path, ".py") then "python" else "node"
  }

  class MCPClient {
    /** `self.sessions`: the open session of each connected server. */
    var sessions: map<string, Session>
    /** `self.system_prompt`. */
    var systemPrompt: string
    /** The prompt text read at start-up, and the catalogues spliced into it
        since, in connection order. */
    ghost var template: string
    ghost var catalogues: seq<string>

    /** The prompt is the template with the catalogues spliced in, and every
        catalogue is one `Catalogue` can write: empty or starting with `#`. */
    ghost predicate Valid()
      reads this`systemPrompt, this`template, this`catalogues
    {
      && systemPrompt == SpliceAll(template, catalogues)
      && forall k :: 0 <= k < |catalogues| ==> catalogues[k] == [] || catalogues[k][0] == '#'
    }

    /** `__init__`: no sessions yet; the prompt is the text of the prompt file. */
    constructor (promptText: string)
      ensures Valid()
      ensures sessions == map[] && systemPrompt == promptText
      ensures template == promptText && catalogues == []
    {
      sessions := map[];
      systemPrompt := promptText;
      template := promptText;
      catalogues := [];
    }

    /** `connect_to_stdio_server`. `launch` opens the process and the session
        for a command and a script, `listTools` performs the handshake and
        lists the tools; both give `None` when they raise. */
    method ConnectToStdioServer(serverName: string, scriptPath: string,
                                launch: (string, string) -> Option<Session>,
                                listTools: Session -> Option<seq<ToolDescriptor>>,
                                dumps: Json -> string)
      returns (outcome: ConnectOutcome)
      requires Valid()
      modifies this`sessions, this`systemPrompt, this`catalogues
      ensures Valid()
      ensures outcome.Rejected? <==> !IsServerScript(scriptPath)
      ensures outcome.Rejected? || outcome.LaunchFailed? ==>
                sessions == old(sessions) && systemPrompt == old(systemPrompt) && catalogues == old(catalogues)
      ensures !outcome.Rejected? ==>
                && IsServerScript(scriptPath)
                && outcome.command == CommandFor(scriptPath)
                && (outcome.LaunchFailed? <==> launch(outcome.command, scriptPath).None?)
      ensures outcome.Registered() ==>
                var session := launch(outcome.command, scriptPath).value;
                && sessions == old(sessions)[serverName := session]
                && (outcome.ListFailed? <==>
                      listTools(session).None? || Catalogue(serverName, listTools(session).value, dumps).None?)
      ensures outcome.ListFailed? ==> systemPrompt == old(systemPrompt) && catalogues == old(catalogues)
      ensures outcome.Connected? ==>
                var catalogue := Catalogue(serverName, listTools(launch(outcome.command, scriptPath).value).value, dumps).value;
                && catalogues == old(catalogues) + [catalogue]
                && systemPrompt == Splice(old(systemPrompt), catalogue)
    {
      var isPython := EndsWith(scriptPath, ".py");
      var isJs := EndsWith(scriptPath, ".js");
      if !(isPython || isJs) {
        return Rejected;
      }
      var command := if isPython then "python" else "node";
      var handle := launch(command, scriptPath);
      if handle.None? {
        return LaunchFailed(command);
      }
      assert command == CommandFor(scriptPath);
      var listed := Register(serverName, handle.value, listTools, dumps);
      if listed {
        outcome := Connected(command);
      } else {
        outcome := ListFailed(command);
      }
    }

    /** Lines 46-55: store the session, then list its tools and splice their
        catalogue into the prompt; `false` when listing or writing the
        catalogue raised. */
    method Register(serverName: string, session: Session,
                    listTools: Session -> Option<seq<ToolDescriptor>>, dumps: Json -> string)
      returns (listed: bool)
      requires Valid()
      modifies this`sessions, this`systemPrompt, this`catalogues
      ensures Valid()
      ensures sessions == old(sessions)[serverName := session]
      ensures listed <==> listTools(session).Some? && Catalogue(serverName, listTools(session).value, dumps).Some?
      ensures !listed ==> systemPrompt == old(systemPrompt) && catalogues == old(catalogues)
      ensures listed ==>
                var catalogue := Catalogue(serverName, listTools(session).value, dumps).value;
                && catalogues == old(catalogues) + [catalogue]
                && systemPrompt == Splice(old(systemPrompt), catalogue)
    {
      sessions := sessions[serverName := session];
      var tools := listTools(session);
      if tools.None? {
        return false;
      }
      var catalogue := Catalogue(serverName, tools.value, dumps);
      if catalogue.None? {
        return false;
      }
      AddCatalogue(catalogue.value);
      listed := true;
    }

    /** Line 55: splice one catalogue into the prompt. */
    method AddCatalogue(catalogue: string)
      requires Valid()
      requires catalogue == [] || catalogue[0] == '#'
      modifies this`systemPrompt, this`catalogues
      ensures Valid()
      ensures catalogues == old(catalogues) + [catalogue]
      ensures systemPrompt == Splice(old(systemPrompt), catalogue)
    {
      systemPrompt := Splice(systemPrompt, catalogue);
      catalogues := catalogues + [catalogue];
      assert catalogues[..|catalogues| - 1] == old(catalogues);
    }

    /** `call_mcp_tool`: never raises. An unknown server (a dictionary miss)
        or a failing call becomes an error text; a result becomes the texts
        of its content items, joined by newlines, or `str(result)`. `remote`
        stands for `session.call_tool`. */
    method CallMcpTool(params: Params, remote: (Session, Option<string>, Json) -> CallOutcome)
      returns (text: string)
      ensures params.serverName.None? || params.serverName.value !in sessions ==>
                text == ErrorText(params, KeyErrorMessage(params.serverName))
      ensures params.serverName.Some? && params.serverName.value in sessions ==>
                match remote(sessions[params.serverName.value], params.toolName, ArgumentsOf(params))
                case Raised(message) => text == ErrorText(params, message)
                case Returned(result) => text == ResultText(result)
    {
      if params.serverName.None? || params.serverName.value !in sessions {
        return ErrorText(params, KeyErrorMessage(params.serverName));
      }
      var outcome := remote(sessions[params.serverName.value], params.toolName, ArgumentsOf(params));
      match outcome {
        case Raised(message) =>
          text := ErrorText(params, message);
        case Returned(result) =>
          if result.content.Some? && |result.content.value| > 0 {
            var items := result.content.value;
            var textContent: seq<string> := [];
            for i := 0 to |items|
              invariant textContent == Texts(items[..i])
            {
              assert items[..i + 1][..i] == items[..i];
              if items[i].text.Some? {
                textContent := textContent + [items[i].text.value];
              }
            }
            assert items[..|items|] == items;
            text := if |textContent| > 0 then Join("\n", textContent) else result.rendered;
          } else {
            text := result.rendered;
          }
      }
    }
  }

  /** A client connected to one server after another has, in its prompt, the
      catalogues in connection order before the single marker, provided the
      prompt file held exactly one marker and no catalogue text contains one. */
  lemma ConnectedPrompt(c: MCPClient, a: string, b: string)
    requires c.Valid() && c.template == a + Marker + b
    requires !Contains(a, Marker) && !Contains(b, Marker)
    requires forall k :: 0 <= k < |c.catalogues| ==> !Contains(c.catalogues[k], Marker)
    ensures c.systemPrompt == a + Stacked(c.catalogues) + Marker + b
  {
    SpliceAllAccumulates(a, b, c.catalogues);
  }
}
