/** Assembly of the system prompt: each connected server's tool catalogue is
    spliced into the prompt text at the `<$MCP_INFO$>` marker, and the marker
    is put back after it, so that the next server's catalogue lands after
    this one (`MCPClient.connect_to_stdio_server`, lines 50-55). */
module Prompt {

  import opened Values
  import opened PyStr

  const Marker := "<$MCP_INFO$>"

  /** A tool as a server advertises it; MCP allows the description to be absent. */
  datatype ToolDescriptor = ToolDescriptor(name: string, description: Option<string>, inputSchema: Json)

  /** The text written for one tool, or `None` when the tool has no
      description (adding `None` to a string raises `TypeError`).
      `dumps` stands for `json.dumps`. */
  function ToolEntry(server: string, tool: ToolDescriptor, dumps: Json -> string): (r: Option<string>)
    ensures r.Some? <==> tool.description.Some?
    ensures r.Some? ==> |r.value| > 2 && r.value[..2] == "##"
    ensures r.Some? ==>
              var head, d, schema := EntryHead(server), tool.description.value, dumps(tool.inputSchema);
              && |r.value| == |head| + |tool.name| + 1 + |d| + 1 + |schema|
              && r.value[..|head|] == head
              && r.value[|head|..|head| + |tool.name|] == tool.name
              && r.value[|head| + |tool.name| + 1..|head| + |tool.name| + 1 + |d|] == d
              && r.value[|r.value| - |schema|..] == schema
  {
    match tool.description
    case None => None
    case Some(d) =>
      var schema := dumps(tool.inputSchema);
      EntryParts(EntryHead(server), tool.name, d, schema);
      Some(EntryHead(server) + tool.name + "\n" + d + "\n" + schema)
  }

  /** The heading of a tool's entry: the server's name, then the tool list's heading. */
  function EntryHead(server: string): (head: string)
    ensures |head| > 2 + |server| && head[..2 + |server|] == "##" + server
  {
    "##" + server + "\n### Available Tools\n- "
  }

  /** Where each part of an entry sits. */
  lemma EntryParts(head: string, name: string, d: string, schema: string)
    ensures var e := head + name + "\n" + d + "\n" + schema;
            && |e| == |head| + |name| + 1 + |d| + 1 + |schema|
            && e[..|head|] == head
            && e[|head|..|head| + |name|] == name
            && e[|head| + |name| + 1..|head| + |name| + 1 + |d|] == d
            && e[|e| - |schema|..] == schema
  {
  }

  /** The entries of all tools in the server's order, or `None` when one of
      them cannot be written. */
  function Entries(server: string, tools: seq<ToolDescriptor>, dumps: Json -> string): (r: Option<seq<string>>)
    ensures r.None? <==> exists k :: 0 <= k < |tools| && tools[k].description.None?
    ensures r.Some? ==> |r.value| == |tools|
    ensures r.Some? ==> forall k :: 0 <= k < |tools| ==> ToolEntry(server, tools[k], dumps) == Some(r.value[k])
  {
    if tools == [] then Some([])
    else
      match (ToolEntry(server, tools[0], dumps), Entries(server, tools[1..], dumps))
      case (Some(e), Some(es)) =>
        assert forall k :: 1 <= k < |tools| ==> tools[k] == tools[1..][k - 1];
        Some([e] + es)
      case (None, _) => None
      case (_, None) =>
        assert forall k :: 0 <= k < |tools| - 1 ==> tools[1..][k] == tools[k + 1];
        None
  }

  /** `"\n".join(available_tools)`: `None` when some tool has no description;
      otherwise empty (a server without tools) or starting with `##`. */
  function Catalogue(server: string, tools: seq<ToolDescriptor>, dumps: Json -> string): (r: Option<string>)
    ensures r.None? <==> exists k :: 0 <= k < |tools| && tools[k].description.None?
    ensures r.Some? ==> (r.value == [] <==> tools == [])
    ensures r.Some? ==> r.value == [] || r.value[0] == '#'
    ensures r.Some? ==> r.value == Join("\n", Entries(server, tools, dumps).value)
  {
    match Entries(server, tools, dumps)
    case None => None
    case Some(es) =>
      JoinedEntriesStartWithHeading(server, tools, dumps, es);
      Some(Join("\n", es))
  }

  /** The joined entries are empty exactly when there are no tools, and start with `##` otherwise. */
  lemma JoinedEntriesStartWithHeading(server: string, tools: seq<ToolDescriptor>, dumps: Json -> string, es: seq<string>)
    requires Entries(server, tools, dumps) == Some(es)
    ensures Join("\n", es) == [] <==> tools == []
    ensures Join("\n", es) == [] || Join("\n", es)[0] == '#'
  {
    if |es| > 0 {
      assert ToolEntry(server, tools[0], dumps) == Some(es[0]);
      assert es[0][..2] == "##";
    }
  }

  /** One connect's edit: `prompt.replace(Marker, catalogue + "\n" + Marker)`.
      A prompt without the marker is left unchanged; otherwise the marker
      survives, so later servers can still be added. */
  function Splice(prompt: string, catalogue: string): (r: string)
    ensures !Contains(prompt, Marker) ==> r == prompt
    ensures Contains(prompt, Marker) ==> Contains(r, Marker)
  {
    MarkerKept(prompt, catalogue + "\n");
    ReplaceAll(prompt, Marker, catalogue + "\n" + Marker)
  }

  lemma MarkerKept(prompt: string, before: string)
    ensures Contains(prompt, Marker) ==> Contains(ReplaceAll(prompt, Marker, before + Marker), Marker)
  {
    if Contains(prompt, Marker) {
      assert OccursAt(Marker, Marker, 0);
      ContainsInRight(before, Marker, Marker);
      ReplaceKeeps(prompt, Marker, before + Marker, Marker);
    }
  }

  /** The prompt after splicing `catalogues` one after the other. */
  function SpliceAll(prompt: string, catalogues: seq<string>): string {
    if catalogues == [] then prompt
    else Splice(SpliceAll(prompt, catalogues[..|catalogues| - 1]), catalogues[|catalogues| - 1])
  }

  /** The catalogues in connection order, each followed by a newline. */
  function Stacked(catalogues: seq<string>): string {
    if catalogues == [] then ""
    else Stacked(catalogues[..|catalogues| - 1]) + catalogues[|catalogues| - 1] + "\n"
  }

  /** No occurrence of the marker starts inside a marker-free prefix that the
      marker follows: `<` occurs in the marker only as its first character. */
  lemma MarkerFirstAfter(a: string, b: string)
    requires !Contains(a, Marker)
    ensures forall i: nat :: i < |a| ==> !OccursAt(a + Marker + b, Marker, i)
  {
    var s := a + Marker + b;
    forall i: nat | i < |a| ensures !OccursAt(s, Marker, i) {
      if i + |Marker| <= |a| {
        assert s[i..i + |Marker|] == a[i..i + |Marker|];
        assert !OccursAt(a, Marker, i);
      } else {
        assert s[i..i + |Marker|][|a| - i] == s[|a|] == '<';
        assert forall k :: 0 < k < |Marker| ==> Marker[k] != '<';
      }
    }
  }

  /** Every marker receives the catalogue: a prompt made of marker-free
      pieces separated by markers gets the catalogue and a newline before
      each of its markers. */
  lemma {:induction false} SpliceEveryMarker(pieces: seq<string>, catalogue: string)
    requires forall k :: 0 <= k < |pieces| ==> !Contains(pieces[k], Marker)
    ensures Splice(Join(Marker, pieces), catalogue) == Join(catalogue + "\n" + Marker, pieces)
  {
    if |pieces| == 1 {
    } else if |pieces| >= 2 {
      var rest := Join(Marker, pieces[1..]);
      SpliceEveryMarker(pieces[1..], catalogue);
      calc {
        Splice(Join(Marker, pieces), catalogue);
        { assert Join(Marker, pieces) == pieces[0] + Marker + rest; }
        Splice(pieces[0] + Marker + rest, catalogue);
        { SpliceBeforeMarker(pieces[0], rest, catalogue); }
        pieces[0] + (catalogue + "\n" + Marker) + Splice(rest, catalogue);
      }
    }
  }

  /** The text before the first marker is copied, the marker becomes the
      catalogue, a newline and the marker, and the splice goes on after it. */
  lemma SpliceBeforeMarker(a: string, rest: string, catalogue: string)
    requires !Contains(a, Marker)
    ensures Splice(a + Marker + rest, catalogue) == a + (catalogue + "\n" + Marker) + Splice(rest, catalogue)
  {
    var replacement := catalogue + "\n" + Marker;
    MarkerFirstAfter(a, rest);
    assert a + Marker + rest == a + (Marker + rest);
    ReplaceAfterPrefix(a, Marker + rest, Marker, replacement);
    assert (Marker + rest)[|Marker|..] == rest;
    ReplaceAtOccurrence(Marker + rest, Marker, replacement);
  }

  /** With exactly one marker, a connect inserts the catalogue and a newline
      just before it. */
  lemma SpliceAtMarker(a: string, b: string, catalogue: string)
    requires !Contains(a, Marker) && !Contains(b, Marker)
    ensures Splice(a + Marker + b, catalogue) == a + catalogue + "\n" + Marker + b
  {
    SpliceBeforeMarker(a, b, catalogue);
  }

  /** A catalogue and its newline joined to a marker-free prefix leave it marker-free. */
  lemma MarkerFreeStep(prefix: string, c: string)
    requires !Contains(prefix, Marker) && !Contains(c, Marker)
    requires c == [] || c[0] == '#'
    ensures !Contains(prefix + (c + "\n"), Marker)
  {
    NoStraddle(c, "\n", Marker);
    assert (c + "\n")[0] == '#' || (c + "\n")[0] == '\n';
    NoStraddle(prefix, c + "\n", Marker);
  }

  /** The stacked catalogues, after a marker-free text, hold no marker. */
  lemma {:induction false} StackedMarkerFree(a: string, catalogues: seq<string>)
    requires !Contains(a, Marker)
    requires forall k :: 0 <= k < |catalogues| ==> !Contains(catalogues[k], Marker)
    requires forall k :: 0 <= k < |catalogues| ==> catalogues[k] == [] || catalogues[k][0] == '#'
    ensures !Contains(a + Stacked(catalogues), Marker)
  {
    if catalogues == [] {
      assert a + Stacked(catalogues) == a;
    } else {
      var init, c := catalogues[..|catalogues| - 1], catalogues[|catalogues| - 1];
      StackedMarkerFree(a, init);
      MarkerFreeStep(a + Stacked(init), c);
      assert a + Stacked(catalogues) == (a + Stacked(init)) + (c + "\n");
    }
  }

  /** Successive connects accumulate: starting from a prompt with one marker,
      the catalogues end up before the marker, in connection order, and the
      text before them never gains a marker. */
  lemma {:induction false} SpliceAllAccumulates(a: string, b: string, catalogues: seq<string>)
    requires !Contains(a, Marker) && !Contains(b, Marker)
    requires forall k :: 0 <= k < |catalogues| ==> !Contains(catalogues[k], Marker)
    requires forall k :: 0 <= k < |catalogues| ==> catalogues[k] == [] || catalogues[k][0] == '#'
    ensures SpliceAll(a + Marker + b, catalogues) == a + Stacked(catalogues) + Marker + b
    ensures !Contains(a + Stacked(catalogues), Marker)
  {
    StackedMarkerFree(a, catalogues);
    if catalogues != [] {
      var init, c := catalogues[..|catalogues| - 1], catalogues[|catalogues| - 1];
      var prefix := a + Stacked(init);
      calc {
        SpliceAll(a + Marker + b, catalogues);
        Splice(SpliceAll(a + Marker + b, init), c);
        { SpliceAllAccumulates(a, b, init); }
        Splice(prefix + Marker + b, c);
        { StackedMarkerFree(a, init); SpliceAtMarker(prefix, b, c); }
        prefix + c + "\n" + Marker + b;
        { assert a + Stacked(catalogues) == prefix + c + "\n"; }
        a + Stacked(catalogues) + Marker + b;
      }
    }
  }
}
