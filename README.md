# Command-line agent: tools, turn loop and primality check

A model of the core of a small TypeScript command-line agent. The agent reads a line from the
user and sends the conversation to a language model. It streams the model's reply to the
terminal. The model may call tools. The agent registers the local `shell` tool, which asks the
user for a "y" first. It also registers the tools of an MCP filesystem server, which run
without any confirmation.

The model covers these parts of the code:

- **Filesystem tools** (`src/tools/filesystem.ts`), module `FileSystem`. The class `Disk`
  holds the disk: a map from path to file content plus a set of directories. `list_directory`,
  `read_file`, `write_file`, `create_directory` and `edit_file` are methods on `Disk`. Each
  takes the user's raw answer and the failure, if any, of each system call it makes. The
  methods follow the source step by step. `write_file` runs a recursive `mkdir` of the parent
  directory, then a `writeFile`. `edit_file` reads the file, replaces text, compares, and then
  writes conditionally. These five tools ask for a "y" too. `src/tools/filesystem.ts` exports
  them, but `src/index.ts` imports only `shellTool` (line 10), so the running agent does not
  offer them.
- **The confirmation gate** (module `Gate`). An answer is affirmative when its lower-cased form
  is `"y"`. Lemma `AffirmativeIff` shows this means exactly `"y"` or `"Y"`.
- **First-occurrence replace** (module `Replace`). This is JavaScript's
  `String.prototype.replace` with a string pattern, as ECMA-262 defines it. StringIndexOf finds
  the first occurrence; the empty pattern occurs at 0. GetSubstitution then expands `$$`, `$&`,
  `` $` `` and `$'` in the replacement. The model keeps this expansion because the source calls
  `content.replace(search_text, replace_with)` as written. The lemmas give the plain literal
  behaviour for a replacement without `$`. `DollarExample`, `BeforeReferenceExample` and `AfterReferenceExample`
  show what
  each of the four `$` references does.
- **The shell tool** (`src/tools/shell.ts`), module `Shell`. It joins the command line with
  single spaces and applies the y/Y gate. It closes the readline interface only on the
  confirmed path. It returns `stdout || stderr`, or `"Error executing command: "` followed by
  the error.
- **The turn loop** (`src/index.ts`), module `Agent`. Class `Conversation` holds the `messages`
  history, seeded with one system message, and the text written to the terminal. Method `Turn`
  is one iteration of the `while (true)` loop. Method `Run` is the first n iterations.
  `MergeTools` is the `{ ...tools, shell: shellTool }` spread.
- **`isPrime`** (`src/isPrime.ts`), module `Primes`. A trial-division method, proved equal to
  the predicate `Prime`.

Inputs stand in for the outside world:

- the user's answers and input lines;
- the faults of `fs` calls (`Option<Fault>`, a code and a message);
- the outcome of `child_process.exec`;
- the model's streamed deltas (one `seq<string>` per turn);
- the MCP server's tool map.

Paths are resolved component sequences (`seq<string>`). `[]` is the working directory, and
messages render it as `.`.

Notes on the code's behaviour:

- Only `edit_file` returns the user's answer as feedback. The other tools return a fixed
  cancellation string.
- The shell tool returns `stdout || stderr`, not the two streams combined.
- The shell tool's readline interface stays open when the user declines.
- `shell` silently overrides a remote tool of the same name. There is no duplicate-name error.
- The `messages` array the code keeps holds only system, user and assistant messages.
- `edit_file` passes `replace_with` through `$` expansion. A `replace_with` of `$&` leaves the
  content unchanged, so the tool reports the search text as not found even when it is present.

## Model

| member | source | states |
|---|---|---|
| Gate.Affirmative | src/tools/filesystem.ts:29 | `answer.toLowerCase() === "y"`: an answer that passes has length 1 and is "y" or "Y" |
| Gate.AffirmativeIff | src/tools/filesystem.ts:29 | `answer.toLowerCase() === "y"` holds exactly for the answers "y" and "Y" (both directions) |
| Gate.LongOrEmptyDeclines | src/tools/filesystem.ts:29 | an answer whose length is not 1, the empty answer included, never lets a tool proceed |
| Replace.IndexFrom | src/tools/filesystem.ts:139 | StringIndexOf: the result is an occurrence at or after `from` with no earlier one, or there is no occurrence at all |
| Replace.Expand | src/tools/filesystem.ts:139 | GetSubstitution for a string pattern: `$$`, `$&`, `` $` `` and `$'` expand, every other character stands for itself, so a template without `$` is inserted verbatim |
| Replace.ReplaceFirst | src/tools/filesystem.ts:139 | `content.replace(search_text, replace_with)`: without an occurrence the content is returned as is; otherwise the text before the first occurrence and the text after it are kept around the expanded replacement |
| Replace.ReplaceAbsent | src/tools/filesystem.ts:138-143 | when the search text does not occur, `replace` returns the content unchanged, whatever the replacement |
| Replace.ReplaceFirstOccurrence | src/tools/filesystem.ts:139 | only the first occurrence is replaced; the text before and after it is kept |
| Replace.ReplaceUnchangedIff | src/tools/filesystem.ts:138-143 | for a `$`-free replacement, the content is unchanged iff the search text is absent or the replacement equals it |
| Replace.FirstOccurrenceExample | src/tools/filesystem.ts:139 | "foo bar foo" with foo→baz becomes "baz bar foo" |
| Replace.DollarExample | src/tools/filesystem.ts:139 | `$$` and `$&` in `replace_with` are expanded even though the pattern is a plain string |
| Replace.BeforeReferenceExample | src/tools/filesystem.ts:139 | `` $` `` in `replace_with` expands to the text before the match |
| Replace.AfterReferenceExample | src/tools/filesystem.ts:139 | `$'` in `replace_with` expands to the text after the match |
| Replace.MatchedReferenceUnchanged | src/tools/filesystem.ts:138-143 | a `replace_with` of `$&` gives back the content unchanged even where the search text occurs, so edit_file then answers that the search text was not found |
| FileSystem.Parent | src/tools/filesystem.ts:80 | `path.dirname`: the path with its last component removed; the working directory is its own parent |
| FileSystem.Ancestors | src/tools/filesystem.ts:81 | recursive mkdir creates the path and every prefix of it, a set closed under taking the parent; every member is a prefix of the path, so nothing else is created |
| FileSystem.EditCancelledCarriesFeedback | src/tools/filesystem.ts:129-134 | the declined edit_file result contains the user's raw answer verbatim |
| FileSystem.EditCancelledIsDistinct | src/tools/filesystem.ts:130-149 | the declined edit_file result differs from the success, not-found and error results |
| FileSystem.Disk.constructor | src/tools/filesystem.ts:3 | a valid, empty starting disk holding only the working directory; every tool method accepts any `Valid()` disk |
| FileSystem.Disk.ReadDir | src/tools/filesystem.ts:33 | `fs.readdir`: succeeds exactly when no fault is given and the directory exists; a missing directory fails with ENOENT; every entry is a file or directory one level below, as its `isDirectory` flag says |
| FileSystem.Disk.ReadFile | src/tools/filesystem.ts:56 | `fs.readFile`: succeeds exactly when no fault is given and the file exists, returning its content; a missing file fails with ENOENT |
| FileSystem.Disk.ChildrenSound | src/tools/filesystem.ts:33-37 | every entry of a listing names a file or directory of that kind one level below the listed path |
| FileSystem.Disk.ChildrenExact | src/tools/filesystem.ts:33-37 | a listed entry is exactly a file (isDirectory false) or a directory (true) one level below the listed path |
| FileSystem.Disk.MakeDirectory | src/tools/filesystem.ts:103 | `fs.mkdir(p, {recursive: true})`: on success the path and its prefixes are directories; files unchanged; the invariant is kept |
| FileSystem.Disk.WriteFileAt | src/tools/filesystem.ts:83 | `fs.writeFile`: on success exactly that path gets the content; directories unchanged |
| FileSystem.Disk.ListDirectory | src/tools/filesystem.ts:25-42 | declined: the cancellation string; otherwise the entries of the directory, or "Error listing directory …: message" for a fault or a missing directory |
| FileSystem.Disk.ReadFileTool | src/tools/filesystem.ts:50-61 | declined: the cancellation string; otherwise the file's content, or "Error reading file …: message" |
| FileSystem.Disk.WriteFile | src/tools/filesystem.ts:71-88 | declined: cancellation and nothing changes; mkdir of the parent then write; on success the parent exists, the path holds exactly the content, other files are unchanged; each failure becomes an "Error writing file" text |
| FileSystem.Disk.CreateDirectory | src/tools/filesystem.ts:97-111 | declined: cancellation and nothing changes; EEXIST gives "Directory already exists at …"; other faults give an error text; success adds the directory and its prefixes |
| FileSystem.Disk.EditFile | src/tools/filesystem.ts:122-150 | declined: the feedback text and no change; read faults give an error text; unchanged content gives the not-found warning with no write; otherwise exactly the target file gets the replaced content or the write fault is reported |
| FileSystem.WriteThenRead | src/tools/filesystem.ts:80-84 | on any valid disk, content written by write_file reads back unchanged through read_file, and the disk stays valid |
| FileSystem.EditFirstOccurrence | src/tools/filesystem.ts:136-146 | editing "foo bar foo" with foo→baz succeeds and the file then holds "baz bar foo" |
| FileSystem.DeclinedToolsChangeNothing | src/tools/filesystem.ts:29-134 | on any valid disk, with any answer other than "y"/"Y" and any arguments and faults, all five tools return their cancellation texts and no file or directory changes |
| FileSystem.CreateTwice | src/tools/filesystem.ts:103-104 | on any valid disk, creating the same directory twice reports success both times, and the directory is then listed in its parent as a directory |
| Shell.Join | src/tools/shell.ts:22 | `join(" ")`: the line starts with the first part and ends with the last |
| Shell.FullCommand | src/tools/shell.ts:22 | `[command, ...(args \|\| [])].join(" ")`: the line starts with the command and ends with the last argument |
| Shell.SplitJoin | src/tools/shell.ts:22 | the space-joined line splits back into its parts when no part holds a space |
| Shell.WordsRecovered | src/tools/shell.ts:22 | `fullCommand` is the command followed by each argument, in order, separated by single spaces |
| Shell.FullCommandAlone | src/tools/shell.ts:22 | absent (or empty) `args` yields the command alone |
| Shell.FullCommandAppend | src/tools/shell.ts:22 | each further argument is appended after exactly one space |
| Shell.JoinAppend | src/tools/shell.ts:22 | `join(" ")` of parts plus one more is the join of the parts, a space, and the new part |
| Shell.NoQuoting | src/tools/shell.ts:22 | no quoting: an argument holding a space, such as "my dir", becomes two words of the command line |
| Shell.OutputOf | src/tools/shell.ts:38 | `stdout \|\| stderr`: stdout when non-empty, otherwise stderr; empty only if both are |
| Shell.Interface.constructor | src/tools/shell.ts:23-26 | a newly created readline interface is open |
| Shell.Interface.Close | src/tools/shell.ts:34 | `terminal.close()` leaves the interface closed |
| Shell.ShellTool.Execute | src/tools/shell.ts:20-42 | requires a non-empty command; declined: the cancellation message, nothing executed, the interface left open; confirmed: the interface closed, the joined line executed once in `cwd`, result `stdout \|\| stderr` or "Error executing command: " + error |
| Agent.MergeTools | src/index.ts:64-67 | every remote tool plus `shell`; on a name clash the local shell tool wins |
| Agent.ConcatSplit | src/index.ts:78-82 | accumulating with `+=` over two parts of the stream is the concatenation of the two accumulations |
| Agent.DeltaInPlace | src/index.ts:78-82 | each delta appears in the reply in arrival order, where the earlier deltas end |
| Agent.Concat | src/index.ts:78-82 | `fullResponse += delta` over the stream: the reply is exactly as long as all deltas together |
| Agent.TranscriptAt | src/index.ts:53-87 | after n turns the history holds 1 + 2n messages: the system message, then turn k's input at 2k+1 and its reply at 2k+2 |
| Agent.TranscriptWellFormed | src/index.ts:53-87 | after the system message, roles strictly alternate user, assistant |
| Agent.Conversation.constructor | src/index.ts:22-27 | the history starts as exactly one system message holding the system prompt |
| Agent.Conversation.Turn | src/index.ts:55-86 | one turn appends exactly a user message (the input) and an assistant message (the in-order concatenation of the deltas) and keeps all earlier messages; the terminal gets "\nAssistant: ", the deltas, "\n\n"; the request carries the history with the new user message and the merged tools |
| Agent.Run | src/index.ts:53-87 | n loop iterations produce the transcript of the n inputs and replies, which is well formed |
| Primes.SmallFactor | src/isPrime.ts:21-22 | a composite number has a divisor whose square is at most the number, so the search may stop at the square root |
| Primes.OddDivisor | src/isPrime.ts:17-19 | after even numbers are excluded, only odd divisors need trying |
| Primes.NoSmallDivisorMeansPrime | src/isPrime.ts:22-28 | an odd number with no odd divisor in [3, i) and i·i above it is prime (the loop invariant at exit) |
| Primes.IsPrime | src/isPrime.ts:7-29 | for every integer the result is true iff the number is at least 2 with no divisor in [2, num); num ≤ 1 gives false, 2 gives true, even numbers above 2 give false |
| Primes.Examples | src/isPrime.ts:32-36 | 2, 3 and 17 are prime; 4 and 100 are not |

## Left out

- Real I/O is not modelled: `readline`, `fs/promises`, `child_process.exec` and the `SIGINT`/`SIGTERM` handlers. The answers, system-call faults, exec outcomes and input lines are parameters.
- `confirm` in the filesystem tools opens and always closes its own interface. Only its returned answer is modelled. The prompt texts are not modelled.
- `streamText`, the Gemini provider and the MCP client are foreign libraries and are not modelled. The same goes for the step budget (`maxSteps: 20`), tool-call dispatch and the order of tool results, which live in the `ai` library. Tool and tool-result messages that library adds are not modelled.
- The `onStepFinish` logging is not modelled. Neither are the "You: " prompt and the echo of the user's line; `screen` holds only what `terminal.write` writes.
- `Agent.Run` models a finite prefix of the `while (true)` loop, one stream of deltas per input line.
- Zod validation is not modelled. Only `command` non-empty (`min(1)`) remains, as a precondition of `Execute`.
- Path strings are not parsed or normalised: `.`, `..`, absolute paths and repeated separators are not modelled. Messages render a path as its components joined by "/".
- `FileSystem.Disk.ListDirectory` returns the entries as a set. `readdir` order depends on the operating system.
- `FileSystem.Disk.ReadFileTool` and `FileSystem.Disk.EditFile` report a path that is not in the file map as ENOENT, even when it names a directory (Node reports EISDIR). Node's other error codes (EISDIR, ENOTDIR, EEXIST, EACCES, …) come in only as the fault parameter and are not derived from the map, so the file map and the directory set are not kept disjoint.
- `FileSystem.Disk.MakeDirectory` models Node's recursive `mkdir` only by its outcome. A failed call is modelled as creating nothing, although a real one may have created some prefixes.
- UTF-8 decoding of file contents is not modelled; contents are strings.
- `Gate.LowerChar` lower-cases only ASCII letters. No other character lower-cases to "y", so the gate's decision is exact.
- The other characters `toLowerCase` changes are not modelled, since only the comparison with "y" uses them.
- `Primes.IsPrime` works over integers only: `i * i <= num` replaces `i <= Math.sqrt(num)`. Fractional, NaN and infinite inputs and floating-point rounding are not modelled.
- The `console.log` calls in `src/isPrime.ts` are not modelled; `Primes.Examples` states their values.
- `./prompts/system` is not part of this model; the system prompt is a parameter.
