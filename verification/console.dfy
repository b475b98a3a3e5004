/**
 The console handler of an SSH session: incoming data is buffered, every line of
 the buffered text (the carried-over incomplete line with the new data appended)
 is scanned for the handler's prompt, and a pending wait for the prompt is
 released when one appears; only the last, incomplete line is carried over.  Commands are written to the session's
 channel, here an append-only log, and their output is what arrived between the
 echoed command line and the next prompt.
 */
module SshConsole {
  import opened Text
  import opened Results

  /** The prompt pattern of the handler class; the plain console class has none. */
  datatype PromptPattern = NoPattern | RailsPattern | PsqlPattern

  /** The future a prompt wait blocks on: none, not yet set, or set but not yet resumed. */
  datatype Waiter = NoWaiter | Pending | Fired

  datatype Console = Console(pattern: PromptPattern, lineBuffer: string, outBuffer: string, atPrompt: bool, waiter: Waiter)

  /** A handler just after construction. */
  function NewConsole(pattern: PromptPattern): (c: Console)
    ensures c.pattern == pattern && c.lineBuffer == "" && c.outBuffer == ""
    ensures !c.atPrompt && c.waiter == NoWaiter
  {
    Console(pattern, "", "", false, NoWaiter)
  }

  const RailsHead := "irb(main):"
  const RailsTail := ":0> "

  /** The Rails prompt `irb\(main\):\d+:0> ` starts at position `i` of the line. */
  predicate RailsPromptAt(line: string, i: nat)
  {
    && i + |RailsHead| <= |line| && line[i..i + |RailsHead|] == RailsHead
    && exists j :: i + |RailsHead| < j <= |line| && AllDigits(line[i + |RailsHead|..j]) && StartsWith(line[j..], RailsTail)
  }

  /** The psql prompt `\S+=# ` ends at position `i + 4`: a non-blank character followed by `=# `. */
  predicate PsqlPromptAt(line: string, i: nat)
  {
    i + 4 <= |line| && !IsSpace(line[i]) && line[i + 1..i + 4] == "=# "
  }

  /** `_PROMPT_MATCHER.search(line)` finds a match, for a class that has a pattern. */
  predicate Matches(pattern: PromptPattern, line: string)
    requires pattern != NoPattern
  {
    match pattern
    case RailsPattern => exists i: nat :: i <= |line| && RailsPromptAt(line, i)
    case PsqlPattern => exists i: nat :: i <= |line| && PsqlPromptAt(line, i)
  }

  /** Some line of the list shows the prompt. */
  predicate AnyPrompt(pattern: PromptPattern, lines: seq<string>)
    requires pattern != NoPattern
  {
    exists k :: 0 <= k < |lines| && Matches(pattern, lines[k])
  }

  const NoPatternMessage := "'NoneType' object has no attribute 'search'"

  /**
   `data_received`: the chunk is added to both buffers, the line buffer keeps the
   text after the last newline, and a waiting future is set when some line of the
   buffered text shows the prompt.  The plain console class has no pattern, and
   setting an already set future fails; in both cases the buffers are already
   updated when the error is raised.
   */
  function DataReceived(c: Console, data: string): (r: (Console, Option<PyError>))
    ensures r.0.pattern == c.pattern && r.0.atPrompt == c.atPrompt
    ensures r.0.outBuffer == c.outBuffer + data
    ensures var all := c.lineBuffer + data; var rest := r.0.lineBuffer;
      && '\n' !in rest && |rest| <= |all| && all[|all| - |rest|..] == rest
      && (|rest| == |all| || all[|all| - |rest| - 1] == '\n')
    ensures c.waiter == NoWaiter ==> r == (r.0, None) && r.0.waiter == NoWaiter
    ensures c.waiter != NoWaiter && c.pattern == NoPattern ==>
      r.1 == Some(AttributeError(NoPatternMessage)) && r.0.waiter == c.waiter
    ensures c.waiter != NoWaiter && c.pattern != NoPattern ==>
      var shown := AnyPrompt(c.pattern, Split(c.lineBuffer + data, '\n'));
      && (r.0.waiter == Fired <==> shown || c.waiter == Fired)
      && (r.1.Some? <==> shown && c.waiter == Fired)
      && (r.1.Some? ==> r.1 == Some(InvalidStateError))
  {
    SplitLastSuffix(c.lineBuffer + data, '\n');
    var lines := Split(c.lineBuffer + data, '\n');
    var buffered := c.(outBuffer := c.outBuffer + data, lineBuffer := lines[|lines| - 1]);
    if c.waiter == NoWaiter then (buffered, None)
    else if c.pattern == NoPattern then (buffered, Some(AttributeError(NoPatternMessage)))
    else if !AnyPrompt(c.pattern, lines) then (buffered, None)
    else if c.waiter == Pending then (buffered.(waiter := Fired), None)
    else (buffered, Some(InvalidStateError))
  }

  /**
   `_wait_for_prompt`, first half: at the prompt it returns at once (true); otherwise
   a fresh future is installed and the handler waits for the prompt.
   */
  function WaitForPrompt(c: Console): (r: (Console, bool))
    ensures r.1 <==> c.atPrompt
    ensures r.1 ==> r.0 == c
    ensures !r.1 ==> r.0 == c.(waiter := Pending)
  {
    if c.atPrompt then (c, true) else (c.(waiter := Pending), false)
  }

  /** `_wait_for_prompt`, second half: the future was set, so the handler is at the prompt. */
  function PromptReached(c: Console): (r: Console)
    requires c.waiter == Fired
    ensures r.atPrompt && r.waiter == NoWaiter
    ensures r == c.(atPrompt := true, waiter := NoWaiter)
  {
    c.(atPrompt := true, waiter := NoWaiter)
  }

  /**
   `run_command`, once the first prompt wait has returned: both buffers are cleared,
   the command and a newline are written, and the handler waits for the next prompt.
   */
  function SendCommand(c: Console, written: seq<string>, command: string): (r: (Console, seq<string>))
    requires c.atPrompt
    ensures r.1 == written + [command + "\n"]
    ensures r.0 == Console(c.pattern, "", "", false, Pending)
  {
    (Console(c.pattern, "", "", false, Pending), written + [command + "\n"])
  }

  /** The output buffer without its first line (the echoed command) and its last (the prompt). */
  function CommandOutput(out: string): (r: string)
    ensures |Split(out, '\n')| <= 2 ==> r == ""
  {
    var lines := Split(out, '\n');
    if |lines| < 2 then "" else Join(lines[1..|lines| - 1], '\n')
  }

  /** The output between an echoed command line and a prompt line is returned exactly. */
  lemma CommandOutputTrimmed(echo: string, body: string, prompt: string)
    requires '\n' !in echo && '\n' !in prompt
    ensures CommandOutput(echo + "\n" + body + "\n" + prompt) == body
  {
    var out := echo + "\n" + body + "\n" + prompt;
    assert out == echo + ['\n'] + (body + ['\n'] + prompt);
    SplitAppend(echo, '\n', body + ['\n'] + prompt);
    SplitAppend(body, '\n', prompt);
    SplitNoSep(echo, '\n');
    SplitNoSep(prompt, '\n');
    var lines := Split(out, '\n');
    assert lines == [echo] + Split(body, '\n') + [prompt];
    assert lines[1..|lines| - 1] == Split(body, '\n');
    JoinSplit(body, '\n');
  }

  /**
   A whole command exchange: the command is written, the remote side echoes it and
   answers with the output and a prompt in one chunk, the wait is released, and the
   command's result is exactly the output.
   */
  lemma CommandExchange(c: Console, written: seq<string>, command: string, body: string, prompt: string)
    requires c.atPrompt && c.pattern != NoPattern
    requires '\n' !in command && '\n' !in prompt && Matches(c.pattern, prompt)
    ensures var (sent, log) := SendCommand(c, written, command);
      var (received, error) := DataReceived(sent, command + "\n" + body + "\n" + prompt);
      && log == written + [command + "\n"]
      && error.None? && received.waiter == Fired
      && PromptReached(received).atPrompt
      && CommandOutput(PromptReached(received).outBuffer) == body
  {
    var (sent, log) := SendCommand(c, written, command);
    var chunk := command + "\n" + body + "\n" + prompt;
    assert sent.lineBuffer + chunk == chunk;
    assert chunk == command + ['\n'] + (body + ['\n'] + prompt);
    SplitAppend(command, '\n', body + ['\n'] + prompt);
    SplitAppend(body, '\n', prompt);
    SplitNoSep(prompt, '\n');
    var lines := Split(chunk, '\n');
    assert lines[|lines| - 1] == prompt;
    assert AnyPrompt(c.pattern, lines);
    CommandOutputTrimmed(command, body, prompt);
    assert sent.outBuffer + chunk == chunk;
  }

  /** The usual prompts of the two consoles match their patterns. */
  lemma KnownPrompts()
    ensures Matches(RailsPattern, "irb(main):001:0> ")
    ensures Matches(PsqlPattern, "postgres=# ")
    ensures !Matches(PsqlPattern, "=# ")
  {
    var rails := "irb(main):001:0> ";
    assert AllDigits(rails[10..13]);
    assert StartsWith(rails[13..], RailsTail);
    assert RailsPromptAt(rails, 0);
    assert PsqlPromptAt("postgres=# ", 7);
  }

  const OutputMarker := "to.sh>"

  /** The Ruby line `get_object` runs: print the marker and the value as JSON. */
  function ObjectCommand(command: string): string
  {
    "puts '" + OutputMarker + "' + (" + command + ").to_json"
  }

  /** The first line carrying the marker at its start. */
  function FirstMarked(lines: seq<string>): (r: Option<nat>)
    ensures r.Some? ==> r.value < |lines| && StartsWith(lines[r.value], OutputMarker)
    ensures r.Some? ==> forall k :: 0 <= k < r.value ==> !StartsWith(lines[k], OutputMarker)
    ensures r.None? ==> forall k :: 0 <= k < |lines| ==> !StartsWith(lines[k], OutputMarker)
    decreases |lines|
  {
    if |lines| == 0 then None
    else if StartsWith(lines[0], OutputMarker) then Some(0)
    else
      match FirstMarked(lines[1..])
      case Some(k) => Some(k + 1)
      case None => None
  }

  /**
   `get_object` given the command's output: the first marked line, without the
   marker, is decoded as JSON (`decode` stands for `json.loads`); without a marked
   line the command returned nothing usable.
   */
  function GetObject<J>(result: string, decode: string -> Result<J>): (r: Result<J>)
    ensures FirstMarked(Split(result, '\n')).None? ==> r == Err(RuntimeError("Command returned no results: " + result))
    ensures FirstMarked(Split(result, '\n')).Some? ==>
      var line := Split(result, '\n')[FirstMarked(Split(result, '\n')).value];
      r == decode(line[|OutputMarker|..])
  {
    var lines := Split(result, '\n');
    match FirstMarked(lines)
    case None => Err(RuntimeError("Command returned no results: " + result))
    case Some(k) => decode(lines[k][|OutputMarker|..])
  }

  /**
   Whatever the console prints before it, the payload of the first marked line is
   what gets decoded.
   */
  lemma MarkedPayloadDecoded<J>(lines: seq<string>, k: nat, payload: string, decode: string -> Result<J>)
    requires forall i :: 0 <= i < |lines| ==> '\n' !in lines[i]
    requires k < |lines| && lines[k] == OutputMarker + payload
    requires forall i :: 0 <= i < k ==> !StartsWith(lines[i], OutputMarker)
    ensures GetObject(Join(lines, '\n'), decode) == decode(payload)
  {
    SplitJoin(lines, '\n');
    FirstMarkedAt(lines, k);
    assert lines[k][|OutputMarker|..] == payload;
  }

  /** A marked line with no marked line before it is the first marked line. */
  lemma FirstMarkedAt(lines: seq<string>, k: nat)
    requires k < |lines| && StartsWith(lines[k], OutputMarker)
    requires forall i :: 0 <= i < k ==> !StartsWith(lines[i], OutputMarker)
    ensures FirstMarked(lines) == Some(k)
  {
  }

  const ReadOnlyCommand := "SET default_transaction_read_only = on;"

  /** The psql meta-command that switches database. */
  function ConnectCommand(dbname: string): string
  {
    "\\c " + dbname
  }

  /**
   `connect_db`, with `run` the output `run_command` returns for a command: the
   database is switched, a `FATAL` anywhere in the answer means it does not exist,
   and otherwise the session is made read-only.  The result lists the commands run.
   */
  function ConnectDb(dbname: string, run: string -> string): (r: (seq<string>, Option<PyError>))
    ensures |r.0| >= 1 && r.0[0] == ConnectCommand(dbname)
    ensures Contains(run(ConnectCommand(dbname)), "FATAL") <==> r.1.Some?
    ensures r.1.Some? ==>
      r.0 == [ConnectCommand(dbname)] && r.1 == Some(RuntimeError("Database does not exist: " + run(ConnectCommand(dbname))))
    ensures r.1.None? ==> r.0 == [ConnectCommand(dbname), ReadOnlyCommand]
  {
    var result := run(ConnectCommand(dbname));
    if Contains(result, "FATAL") then ([ConnectCommand(dbname)], Some(RuntimeError("Database does not exist: " + result)))
    else ([ConnectCommand(dbname), ReadOnlyCommand], None)
  }

  /** psql's answer for a missing database stops the connection before the read-only switch. */
  lemma MissingDatabase(dbname: string, run: string -> string, rest: string)
    requires run(ConnectCommand(dbname)) == "FATAL: " + rest
    ensures ConnectDb(dbname, run).0 == [ConnectCommand(dbname)]
    ensures ConnectDb(dbname, run).1 == Some(RuntimeError("Database does not exist: FATAL: " + rest))
  {
    var answer := "FATAL: " + rest;
    assert StartsWith(answer, "FATAL");
    assert "Database does not exist: " + answer == "Database does not exist: FATAL: " + rest;
  }
}
