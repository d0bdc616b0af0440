/**
 * The shell tool: it joins the command and its arguments into one command
 * line, asks the user on a freshly created readline interface, and only after
 * a "y"/"Y" answer closes that interface and hands the line to
 * `child_process.exec`. The user's answer and the outcome of exec are inputs.
 */
module Shell {
  import opened Base
  import opened Gate

  /** `parts.join(" ")`. */
  function Join(parts: seq<string>): (r: string)
    ensures |parts| >= 1 ==> |parts[0]| <= |r| && r[..|parts[0]|] == parts[0]
    ensures |parts| >= 1 ==> |parts[|parts| - 1]| <= |r| && r[|r| - |parts[|parts| - 1]|..] == parts[|parts| - 1]
  {
    if |parts| == 0 then ""
    else if |parts| == 1 then parts[0]
    else parts[0] + " " + Join(parts[1..])
  }

  /** `[command, ...(args || [])].join(" ")`. */
  function FullCommand(command: string, args: Option<seq<string>>): (r: string)
    ensures |command| <= |r| && r[..|command|] == command
    ensures args.Some? && |args.value| > 0 ==>
              var last := args.value[|args.value| - 1];
              |last| <= |r| && r[|r| - |last|..] == last
  {
    var parts := [command] + (if args.Some? then args.value else []);
    assert args.Some? && |args.value| > 0 ==> parts[|parts| - 1] == args.value[|args.value| - 1];
    Join(parts)
  }

  /** `s.split(" ")`: the pieces of `s` between single spaces; never empty. */
  function Split(s: string): (r: seq<string>)
    ensures |r| >= 1
  {
    if |s| == 0 then [""]
    else if s[0] == ' ' then [""] + Split(s[1..])
    else
      var rest := Split(s[1..]);
      [[s[0]] + rest[0]] + rest[1..]
  }

  /** A word with no space in it comes back as the first piece, the rest is split on. */
  lemma {:induction false} SplitAfterWord(word: string, rest: string)
    requires ' ' !in word
    ensures Split(word + " " + rest) == [word] + Split(rest)
  {
    if |word| == 0 {
      assert word + " " + rest == [' '] + rest;
    } else {
      assert word + " " + rest == [word[0]] + (word[1..] + " " + rest);
      SplitAfterWord(word[1..], rest);
      assert [word[0]] + word[1..] == word;
    }
  }

  /** A space-free word splits to itself. */
  lemma {:induction false} SplitWord(word: string)
    requires ' ' !in word
    ensures Split(word) == [word]
  {
    if |word| > 0 {
      SplitWord(word[1..]);
      assert [word[0]] + word[1..] == word;
    }
  }

  /** Splitting the joined line gives the parts back when none of them holds a space. */
  lemma {:induction false} SplitJoin(parts: seq<string>)
    requires |parts| >= 1
    requires forall i :: 0 <= i < |parts| ==> ' ' !in parts[i]
    ensures Split(Join(parts)) == parts
  {
    if |parts| == 1 {
      SplitWord(parts[0]);
    } else {
      SplitAfterWord(parts[0], Join(parts[1..]));
      SplitJoin(parts[1..]);
    }
  }

  /** Without arguments the command line is the command itself. */
  lemma FullCommandAlone(command: string)
    ensures FullCommand(command, None) == command
    ensures FullCommand(command, Some([])) == command
  {
  }

  /** Each further argument is appended after one single space. */
  lemma {:induction false} FullCommandAppend(command: string, args: seq<string>, arg: string)
    ensures FullCommand(command, Some(args + [arg])) == FullCommand(command, Some(args)) + " " + arg
  {
    JoinAppend([command] + args, arg);
    assert [command] + (args + [arg]) == ([command] + args) + [arg];
  }

  lemma {:induction false} JoinAppend(parts: seq<string>, last: string)
    requires |parts| >= 1
    ensures Join(parts + [last]) == Join(parts) + " " + last
  {
    if |parts| == 1 {
      assert (parts + [last])[1..] == [last];
    } else {
      assert (parts + [last])[1..] == parts[1..] + [last];
      JoinAppend(parts[1..], last);
    }
  }

  /**
   * The command line holds the command and every argument, in order: when no
   * word contains a space, splitting it on spaces recovers them.
   */
  lemma WordsRecovered(command: string, args: seq<string>)
    requires ' ' !in command
    requires forall i :: 0 <= i < |args| ==> ' ' !in args[i]
    ensures Split(FullCommand(command, Some(args))) == [command] + args
  {
    var parts := [command] + args;
    forall i | 0 <= i < |parts| ensures ' ' !in parts[i] {
      if i > 0 {
        assert parts[i] == args[i - 1];
      }
    }
    SplitJoin(parts);
  }

  /** No quoting: an argument holding one space becomes two words of the command line. */
  lemma NoQuoting(command: string, first: string, second: string)
    requires ' ' !in command && ' ' !in first && ' ' !in second
    ensures Split(FullCommand(command, Some([first + " " + second]))) == [command, first, second]
  {
    FullCommandAppend(command, [], first + " " + second);
    assert [] + [first + " " + second] == [first + " " + second];
    SplitAfterWord(command, first + " " + second);
    SplitAfterWord(first, second);
    SplitWord(second);
  }

  /** The outcome of `execAsync(fullCommand, { cwd })`. */
  datatype ExecOutcome =
    | Completed(stdout: string, stderr: string)
    | Failed(error: string)   // the rejection, as `${error}` renders it

  /** A command line handed to `exec`, with its working directory. */
  datatype Invocation = Invocation(commandLine: string, cwd: Option<string>)

  const Cancelled := "Command execution cancelled because of user confirmation."
  const ErrorPrefix := "Error executing command: "

  /** `stdout || stderr`: the empty string is falsy. */
  function OutputOf(stdout: string, stderr: string): (r: string)
    ensures r == stdout || r == stderr
    ensures r == "" <==> stdout == "" && stderr == ""
    ensures stdout != "" ==> r == stdout
  {
    if stdout != "" then stdout else stderr
  }

  /** A readline interface on standard input and output. */
  class Interface {
    var open: bool

    /** `readline.createInterface`: a new interface is open. */
    constructor ()
      ensures open
    {
      open := true;
    }

    /** `terminal.close()`. */
    method Close()
      modifies this
      ensures !open
    {
      open := false;
    }
  }

  /** The shell tool, with every command line it has handed to `exec`. */
  class ShellTool {
    var executed: seq<Invocation>

    constructor ()
      ensures executed == []
    {
      executed := [];
    }

    /**
     * `shellTool.execute`: returns the tool's result and the interface it
     * created for the question, which stays open when the user declines.
     */
    method Execute(command: string, args: Option<seq<string>>, cwd: Option<string>,
                   answer: string, outcome: ExecOutcome) returns (result: string, terminal: Interface)
      requires |command| >= 1
      modifies this
      ensures fresh(terminal)
      ensures terminal.open <==> !Affirmative(answer)
      ensures !Affirmative(answer) ==> result == Cancelled && executed == old(executed)
      ensures Affirmative(answer) ==>
                executed == old(executed) + [Invocation(FullCommand(command, args), cwd)]
      ensures Affirmative(answer) && outcome.Completed? ==>
                result == OutputOf(outcome.stdout, outcome.stderr)
      ensures Affirmative(answer) && outcome.Failed? ==> result == ErrorPrefix + outcome.error
    {
      var fullCommand := FullCommand(command, args);
      terminal := new Interface();
      var confirmation := answer;
      if !Affirmative(confirmation) {
        return Cancelled, terminal;
      }
      terminal.Close();
      executed := executed + [Invocation(fullCommand, cwd)];
      match outcome
      case Completed(stdout, stderr) =>
        result := OutputOf(stdout, stderr);
      case Failed(error) =>
        result := ErrorPrefix + error;
    }
  }
}
