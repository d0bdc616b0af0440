/**
 * The turn loop of the command-line agent: the message history seeded with
 * one system message, and per iteration one user message, the streamed
 * reply accumulated delta by delta and echoed to the terminal, and one
 * assistant message. The model's stream is given as a sequence of deltas.
 */
module Agent {

  datatype Role = System | User | Assistant

  datatype Message = Message(role: Role, content: string)

  /** A tool the model may call: one advertised by the MCP server, or the local shell tool. */
  datatype Tool = RemoteTool(name: string) | LocalShell   // LocalShell: the map entry for `shellTool`

  /** What one `streamText` call is given. */
  datatype Request = Request(history: seq<Message>, tools: map<string, Tool>)

  const ShellName := "shell"

  /** `{ ...tools, shell: shellTool }`. */
  function MergeTools(remote: map<string, Tool>): (r: map<string, Tool>)
    ensures r.Keys == remote.Keys + {ShellName}
    ensures r[ShellName] == LocalShell
    ensures forall k :: k in remote && k != ShellName ==> r[k] == remote[k]
  {
    remote[ShellName := LocalShell]
  }

  /** The deltas joined in the order they arrived; nothing is lost or added. */
  function Concat(deltas: seq<string>): (r: string)
    ensures |r| == TotalLength(deltas)
  {
    if |deltas| == 0 then "" else Concat(deltas[..|deltas| - 1]) + deltas[|deltas| - 1]
  }

  /** Total length of some strings. */
  function TotalLength(deltas: seq<string>): nat
  {
    if |deltas| == 0 then 0 else TotalLength(deltas[..|deltas| - 1]) + |deltas[|deltas| - 1]|
  }

  /** Concatenation distributes over splitting the stream. */
  lemma {:induction false} ConcatSplit(a: seq<string>, b: seq<string>)
    ensures Concat(a + b) == Concat(a) + Concat(b)
  {
    if |b| == 0 {
      assert a + b == a;
    } else {
      var b' := b[..|b| - 1];
      assert (a + b)[..|a + b| - 1] == a + b';
      ConcatSplit(a, b');
    }
  }

  /** Every delta is in the reply, at the offset where the earlier deltas end. */
  lemma DeltaInPlace(deltas: seq<string>, i: nat)
    requires i < |deltas|
    ensures var start := |Concat(deltas[..i])|;
            start + |deltas[i]| <= |Concat(deltas)| &&
            Concat(deltas)[start..start + |deltas[i]|] == deltas[i]
  {
    var before, d, after := Concat(deltas[..i]), deltas[i], Concat(deltas[i + 1..]);
    assert deltas == deltas[..i] + ([d] + deltas[i + 1..]);
    ConcatSplit(deltas[..i], [d] + deltas[i + 1..]);
    ConcatSplit([d], deltas[i + 1..]);
    assert Concat([d]) == d by {
      assert [d][..0] == [];
    }
    assert Concat(deltas) == before + d + after;
  }

  /** The history after the given turns: the system message, then one user/assistant pair per turn. */
  function Transcript(systemPrompt: string, inputs: seq<string>, streams: seq<seq<string>>): seq<Message>
    requires |inputs| == |streams|
  {
    if |inputs| == 0 then [Message(System, systemPrompt)]
    else
      var n := |inputs| - 1;
      Transcript(systemPrompt, inputs[..n], streams[..n]) +
      [Message(User, inputs[n]), Message(Assistant, Concat(streams[n]))]
  }

  /** One system message first, then user and assistant messages strictly alternating, in pairs. */
  ghost predicate WellFormed(history: seq<Message>)
  {
    |history| % 2 == 1 &&
    history[0].role == System &&
    forall i :: 1 <= i < |history| ==> history[i].role == (if i % 2 == 1 then User else Assistant)
  }

  /** Message 2k+1 is turn k's input and message 2k+2 its reply. */
  lemma {:induction false} TranscriptAt(systemPrompt: string, inputs: seq<string>, streams: seq<seq<string>>, k: nat)
    requires |inputs| == |streams| && k < |inputs|
    ensures |Transcript(systemPrompt, inputs, streams)| == 1 + 2 * |inputs|
    ensures Transcript(systemPrompt, inputs, streams)[0] == Message(System, systemPrompt)
    ensures Transcript(systemPrompt, inputs, streams)[2 * k + 1] == Message(User, inputs[k])
    ensures Transcript(systemPrompt, inputs, streams)[2 * k + 2] == Message(Assistant, Concat(streams[k]))
  {
    var n := |inputs| - 1;
    if k < n {
      TranscriptAt(systemPrompt, inputs[..n], streams[..n], k);
    } else if n > 0 {
      TranscriptAt(systemPrompt, inputs[..n], streams[..n], 0);
    }
  }

  /** Every history the loop produces is well formed. */
  lemma {:induction false} TranscriptWellFormed(systemPrompt: string, inputs: seq<string>, streams: seq<seq<string>>)
    requires |inputs| == |streams|
    ensures WellFormed(Transcript(systemPrompt, inputs, streams))
  {
    var h := Transcript(systemPrompt, inputs, streams);
    if |inputs| == 0 {
      return;
    }
    TranscriptAt(systemPrompt, inputs, streams, 0);
    forall i | 1 <= i < |h| ensures h[i].role == (if i % 2 == 1 then User else Assistant) {
      TranscriptAt(systemPrompt, inputs, streams, (i - 1) / 2);
    }
  }

  /** The agent's mutable state: the `messages` array and what it has written to the terminal. */
  class Conversation {
    var messages: seq<Message>
    var screen: string
    const remoteTools: map<string, Tool>

    /** `const messages = [{ role: "system", content: systemPrompt }]`. */
    constructor (systemPrompt: string, tools: map<string, Tool>)
      ensures messages == [Message(System, systemPrompt)]
      ensures screen == ""
      ensures remoteTools == tools
    {
      messages := [Message(System, systemPrompt)];
      screen := "";
      remoteTools := tools;
    }

    /**
     * One iteration of the `while (true)` loop: push the user's input, stream
     * the reply to the terminal while accumulating it, then push the reply.
     * Returns what was handed to `streamText`.
     */
    method Turn(userInput: string, deltas: seq<string>) returns (request: Request)
      modifies this
      ensures messages == old(messages) + [Message(User, userInput), Message(Assistant, Concat(deltas))]
      ensures screen == old(screen) + "\nAssistant: " + Concat(deltas) + "\n\n"
      ensures request == Request(old(messages) + [Message(User, userInput)], MergeTools(remoteTools))
    {
      messages := messages + [Message(User, userInput)];
      request := Request(messages, MergeTools(remoteTools));
      var fullResponse := "";
      screen := screen + "\nAssistant: ";
      var i := 0;
      while i < |deltas|
        invariant 0 <= i <= |deltas|
        invariant fullResponse == Concat(deltas[..i])
        invariant screen == old(screen) + "\nAssistant: " + fullResponse
        invariant messages == old(messages) + [Message(User, userInput)]
      {
        assert deltas[..i + 1][..i] == deltas[..i];
        fullResponse := fullResponse + deltas[i];
        screen := screen + deltas[i];
        i := i + 1;
      }
      assert deltas[..i] == deltas;
      screen := screen + "\n\n";
      messages := messages + [Message(Assistant, fullResponse)];
    }
  }

  /**
   * The first `|inputs|` iterations of the loop, turn k reading `inputs[k]`
   * and receiving the deltas `streams[k]`. Returns the final history.
   */
  method Run(systemPrompt: string, remoteTools: map<string, Tool>,
             inputs: seq<string>, streams: seq<seq<string>>) returns (history: seq<Message>)
    requires |inputs| == |streams|
    ensures history == Transcript(systemPrompt, inputs, streams)
    ensures WellFormed(history)
    ensures |history| == 1 + 2 * |inputs|
  {
    var conversation := new Conversation(systemPrompt, remoteTools);
    var k := 0;
    while k < |inputs|
      invariant 0 <= k <= |inputs|
      invariant conversation.messages == Transcript(systemPrompt, inputs[..k], streams[..k])
    {
      var _ := conversation.Turn(inputs[k], streams[k]);
      assert inputs[..k + 1][..k] == inputs[..k];
      assert streams[..k + 1][..k] == streams[..k];
      k := k + 1;
    }
    assert inputs[..k] == inputs && streams[..k] == streams;
    history := conversation.messages;
    TranscriptWellFormed(systemPrompt, inputs, streams);
    if |inputs| > 0 {
      TranscriptAt(systemPrompt, inputs, streams, 0);
    }
  }
}
