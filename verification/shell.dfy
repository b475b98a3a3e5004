/**
 The shell's line dispatch: every non-empty entered line becomes one new entry of
 the task list, either the parsed statement (and the line goes to the history) or
 an error statement showing the parse failure.  Starting the statement's run is
 scheduling and is not modelled; the entry is the statement as it is appended.
 */
module Shell {
  import opened Results
  import opened Tasks
  import opened Lexer
  import opened Highlight
  import opened Parser
  import opened Statements

  /**
   What the shell does with a line's text: parse it into a statement, and highlight
   it for a status line.  `FrontendOf(ctx)` is the parser and highlighter of this
   model in the shell's current context.
   */
  datatype Frontend = Frontend(parse: string -> Result<Statement>, title: string -> Line)

  function FrontendOf(ctx: Context): (fe: Frontend)
    ensures forall line :: fe.parse(line) == Parse(ctx, line)
    ensures forall line :: fe.title(line) == StatementTitle(ctx, line)
  {
    Frontend(line => Parse(ctx, line), line => StatementTitle(ctx, line))
  }

  /** One task of the list, with the statement it was parsed into (none for an error statement). */
  datatype Entry = Entry(task: Task, statement: Option<Statement>)

  datatype Shell = Shell(entries: seq<Entry>, history: seq<string>)

  /** A parsed statement before it runs: waiting, with the highlighted line as its status line. */
  function StatementEntry(title: Line, st: Statement): (e: Entry)
    ensures e.task.status == Waiting && e.task.children == [] && e.task.output == []
    ensures e.task.title == title && e.statement == Some(st)
  {
    Entry(NewTask(title), Some(st))
  }

  /**
   `Tosh.run_command`: an empty line does nothing; a line that parses is appended as
   its statement and saved to the history; a line whose parse raises is appended as
   an error statement showing the traceback, and is not saved.
   */
  function RunCommand(fe: Frontend, sh: Shell, line: string): (r: Shell)
    ensures line == "" ==> r == sh
    ensures line != "" ==> |r.entries| == |sh.entries| + 1 && r.entries[..|sh.entries|] == sh.entries
    ensures line != "" ==> r.entries[|sh.entries|].task.title == fe.title(line)
    ensures line != "" && fe.parse(line).Ok? ==>
      (&& r.history == sh.history + [line]
       && r.entries[|sh.entries|] == StatementEntry(fe.title(line), fe.parse(line).value))
    ensures line != "" && fe.parse(line).Err? ==>
      (&& r.history == sh.history
       && r.entries[|sh.entries|].statement.None?
       && r.entries[|sh.entries|].task.status == Error
       && r.entries[|sh.entries|].task.children == []
       && OutputString(r.entries[|sh.entries|].task.output) == FormatExc(fe.parse(line).error))
  {
    if line == "" then sh
    else
      match fe.parse(line)
      case Ok(st) => Shell(sh.entries + [StatementEntry(fe.title(line), st)], sh.history + [line])
      case Err(e) => sh.(entries := sh.entries + [Entry(ErrorStatementTask(fe.title(line), FormatExc(e)), None)])
  }

  /**
   With this model's parser, the new entry of a non-empty line holds the statement the
   line parses into.  It is titled with the line itself when the line lexes, and with
   the line and its unlexed rest when it does not (such a line never parses).
   */
  lemma RunCommandParses(ctx: Context, sh: Shell, line: string)
    requires line != ""
    ensures var r := RunCommand(FrontendOf(ctx), sh, line);
      && (LexAll(ctx, line).error.None? ==> TokensText(r.entries[|sh.entries|].task.title) == line)
      && (LexAll(ctx, line).error.Some? ==>
           && TokensText(r.entries[|sh.entries|].task.title) == line + line[LexAll(ctx, line).end..]
           && Parse(ctx, line).Err? && r.entries[|sh.entries|].statement.None?)
      && (Parse(ctx, line).Ok? ==> r.entries[|sh.entries|].statement == Some(Parse(ctx, line).value))
      && (Parse(ctx, line).Err? ==> r.entries[|sh.entries|].task == ErrorStatement(ctx, line, FormatExc(Parse(ctx, line).error)))
  {
  }

  /**
   Entering `$` appends an error statement whose status line reads `$$`: the illegal
   character is shown as the error token and again as the rest of the line.  The line
   is not saved to the history.
   */
  lemma IllegalLineEntry(ctx: Context, sh: Shell)
    ensures var r := RunCommand(FrontendOf(ctx), sh, "$");
      && TokensText(r.entries[|sh.entries|].task.title) == "$$"
      && r.entries[|sh.entries|].task.status == Error
      && r.history == sh.history
  {
    IllegalCharacterShownTwice(ctx);
    RunCommandParses(ctx, sh, "$");
  }

  /** The shell after a sequence of entered lines. */
  function RunLines(fe: Frontend, sh: Shell, lines: seq<string>): Shell
    decreases |lines|
  {
    if |lines| == 0 then sh else RunLines(fe, RunCommand(fe, sh, lines[0]), lines[1..])
  }

  function NonEmptyCount(lines: seq<string>): nat
    decreases |lines|
  {
    if |lines| == 0 then 0 else (if lines[0] == "" then 0 else 1) + NonEmptyCount(lines[1..])
  }

  /** The lines, in order, that are non-empty and parse. */
  function Accepted(fe: Frontend, lines: seq<string>): seq<string>
    decreases |lines|
  {
    if |lines| == 0 then []
    else (if lines[0] != "" && fe.parse(lines[0]).Ok? then [lines[0]] else []) + Accepted(fe, lines[1..])
  }

  /**
   Over any sequence of entered lines: exactly one entry per non-empty line, earlier
   entries untouched, and the history grows by exactly the lines that parsed, in order.
   */
  lemma {:induction false} RunLinesBookkeeping(fe: Frontend, sh: Shell, lines: seq<string>)
    ensures |RunLines(fe, sh, lines).entries| == |sh.entries| + NonEmptyCount(lines)
    ensures RunLines(fe, sh, lines).entries[..|sh.entries|] == sh.entries
    ensures RunLines(fe, sh, lines).history == sh.history + Accepted(fe, lines)
    decreases |lines|
  {
    if |lines| == 0 {
      assert sh.entries[..|sh.entries|] == sh.entries;
    } else {
      var next := RunCommand(fe, sh, lines[0]);
      RunLinesBookkeeping(fe, next, lines[1..]);
      var r := RunLines(fe, next, lines[1..]);
      assert r.entries[..|sh.entries|] == r.entries[..|next.entries|][..|sh.entries|];
      assert next.entries[..|sh.entries|] == sh.entries;
    }
  }

  /**
   The autostart loop of `Tosh.run`: every configured command is parsed and appended
   in order, without touching the history; the first command that does not parse
   aborts the start with its error.
   */
  method Autostart(fe: Frontend, sh: Shell, cmds: seq<string>) returns (r: Result<Shell>)
    ensures r.Ok? <==> forall i :: 0 <= i < |cmds| ==> fe.parse(cmds[i]).Ok?
    ensures r.Err? ==>
      exists i :: (0 <= i < |cmds| && fe.parse(cmds[i]).Err? && r.error == fe.parse(cmds[i]).error
                   && forall j :: 0 <= j < i ==> fe.parse(cmds[j]).Ok?)
    ensures r.Ok? ==> (&& r.value.history == sh.history
      && |r.value.entries| == |sh.entries| + |cmds| && r.value.entries[..|sh.entries|] == sh.entries
      && forall i :: 0 <= i < |cmds| ==>
           r.value.entries[|sh.entries| + i] == StatementEntry(fe.title(cmds[i]), fe.parse(cmds[i]).value))
  {
    var added: seq<Entry> := [];
    var k := 0;
    while k < |cmds|
      invariant 0 <= k <= |cmds| && |added| == k
      invariant forall i :: 0 <= i < k ==> fe.parse(cmds[i]).Ok?
      invariant forall i :: 0 <= i < k ==> added[i] == StatementEntry(fe.title(cmds[i]), fe.parse(cmds[i]).value)
    {
      var parsed := fe.parse(cmds[k]);
      if parsed.Err? {
        return Err(parsed.error);
      }
      added := added + [StatementEntry(fe.title(cmds[k]), parsed.value)];
      k := k + 1;
    }
    var entries := sh.entries + added;
    assert entries[..|sh.entries|] == sh.entries;
    return Ok(sh.(entries := entries));
  }
}
