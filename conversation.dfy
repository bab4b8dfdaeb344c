/** The two pure steps of a conversation turn: deciding what a line typed
    by the user means (`MCPClient.chat_loop`, lines 144-151), and building
    the messages sent to the language model
    (`MCPClient.process_natural_language`, lines 117-120). */
module Conversation {

  import opened Values
  import opened PyStr

  /** End the loop, read the next line, or process this (stripped) text. */
  datatype InputKind = Quit | Skip | Process(text: string)

  const ExitWords: seq<string> := ["quit", "exit", "bye"]

  /** `line` spells the lower-case ASCII word `w` in any mix of cases. */
  ghost predicate SpellsIgnoringCase(line: string, w: string) {
    |line| == |w| && forall i :: 0 <= i < |w| ==> line[i] == w[i] || line[i] as int == w[i] as int - 32
  }

  /** The chat loop's decision for one raw input line. */
  function Classify(raw: string): (k: InputKind)
    ensures k.Process? ==> k.text == Strip(raw) && k.text != [] && Trimmed(k.text)
    ensures k.Process? ==> Lower(k.text) !in ExitWords
  {
    var line := Strip(raw);
    if Lower(line) in ExitWords then Quit
    else if line == [] then Skip
    else Process(line)
  }

  lemma LowerSpells(line: string, w: string)
    requires forall i :: 0 <= i < |w| ==> 'a' <= w[i] <= 'z'
    ensures Lower(line) == w <==> SpellsIgnoringCase(line, w)
  {
    if SpellsIgnoringCase(line, w) {
      assert forall i :: 0 <= i < |w| ==> Lower(line)[i] == w[i];
    }
    if Lower(line) == w {
      forall i | 0 <= i < |w| ensures line[i] == w[i] || line[i] as int == w[i] as int - 32 {
        assert LowerChar(line[i]) == w[i];
      }
    }
  }

  lemma InExitWords(s: string)
    ensures s in ExitWords <==> s == "quit" || s == "exit" || s == "bye"
  {
  }

  lemma ExitWordSpelling(line: string)
    ensures Lower(line) in ExitWords <==>
            SpellsIgnoringCase(line, "quit") || SpellsIgnoringCase(line, "exit") || SpellsIgnoringCase(line, "bye")
  {
    InExitWords(Lower(line));
    LowerSpells(line, "quit");
    LowerSpells(line, "exit");
    LowerSpells(line, "bye");
  }

  /** A line ends the loop exactly when, stripped, it spells `quit`, `exit`
      or `bye` in any case. */
  lemma QuitWords(raw: string)
    ensures Classify(raw) == Quit <==>
            (SpellsIgnoringCase(Strip(raw), "quit") || SpellsIgnoringCase(Strip(raw), "exit")
             || SpellsIgnoringCase(Strip(raw), "bye"))
  {
    ExitWordSpelling(Strip(raw));
  }

  /** A line is skipped exactly when it is empty or all whitespace. */
  lemma SkipBlank(raw: string)
    ensures Classify(raw) == Skip <==> AllSpace(raw)
  {
    StripEmpty(raw);
    if Strip(raw) == [] {
      assert Lower(Strip(raw)) == [];
      InExitWords([]);
    }
  }

  /** Whitespace around a line does not change the decision. */
  lemma ClassifyPadded(p: string, raw: string, q: string)
    requires AllSpace(p) && AllSpace(q)
    ensures Classify(p + raw + q) == Classify(raw)
  {
    StripPadded(p, raw, q);
  }

  lemma QuitUpperLowers()
    ensures Lower("QUIT") in ExitWords
  {
    ExitWordSpelling("QUIT");
    assert SpellsIgnoringCase("QUIT", "quit");
  }

  /** `QUIT` on its own ends the loop. */
  lemma QuitUpper()
    ensures Classify("QUIT") == Quit
  {
    StripTrimmed("QUIT");
    QuitUpperLowers();
  }

  /** `"  QUIT\n"` ends the loop. */
  lemma QuitInCapitals()
    ensures Classify("  QUIT\n") == Quit
  {
    assert AllSpace("  ") && AllSpace("\n");
    assert "  QUIT\n" == "  " + "QUIT" + "\n";
    ClassifyPadded("  ", "QUIT", "\n");
    QuitUpper();
  }

  /** A line of blanks and tabs is skipped. */
  lemma BlankSkipped()
    ensures Classify(" \t ") == Skip
  {
    assert AllSpace(" \t ");
    SkipBlank(" \t ");
  }

  /** Who speaks a message. */
  datatype Role = System | User

  datatype Message = Message(role: Role, content: string)

  const UserPrefix := "User asks: "
  const UserSuffix := "\n\nPlease respond with the appropriate tool call if needed, or provide a helpful response."

  /** The user message's frame around the input: the input can be read
      back between the prefix and the suffix. */
  function Frame(input: string): (content: string)
    ensures |content| == |UserPrefix| + |input| + |UserSuffix|
    ensures content[..|UserPrefix|] == UserPrefix && content[|content| - |UserSuffix|..] == UserSuffix
    ensures content[|UserPrefix|..|content| - |UserSuffix|] == input
  {
    UserPrefix + input + UserSuffix
  }

  /** The input inside a user message, if the message has the frame. */
  function Unframe(content: string): (r: Option<string>)
    ensures r.Some? ==> Frame(r.value) == content
  {
    if |content| >= |UserPrefix| + |UserSuffix|
       && content[..|UserPrefix|] == UserPrefix
       && content[|content| - |UserSuffix|..] == UserSuffix
    then
      Reframe(content);
      Some(content[|UserPrefix|..|content| - |UserSuffix|])
    else None
  }

  lemma Reframe(content: string)
    requires |content| >= |UserPrefix| + |UserSuffix|
    requires content[..|UserPrefix|] == UserPrefix && content[|content| - |UserSuffix|..] == UserSuffix
    ensures Frame(content[|UserPrefix|..|content| - |UserSuffix|]) == content
  {
    var input := content[|UserPrefix|..|content| - |UserSuffix|];
    assert content == content[..|UserPrefix|] + input + content[|content| - |UserSuffix|..];
  }

  /** The messages sent for one turn: the system prompt, then the framed input. */
  function BuildMessages(systemPrompt: string, input: string): (ms: seq<Message>)
    ensures |ms| == 2
    ensures ms[0] == Message(System, systemPrompt)
    ensures ms[1].role == User && Unframe(ms[1].content) == Some(input)
  {
    [Message(System, systemPrompt), Message(User, Frame(input))]
  }
}
