/**
 Statements: the top-level tasks of the shell, one per entered line.  A statement
 runs its command or expression as a child and never lets an exception escape: a
 failure marks it Error, with a traceback as its output unless a command below has
 already shown one.
 */
module Statements {
  import opened Text
  import opened Results
  import opened Dicts
  import opened Tasks
  import opened Types
  import opened VariableTasks
  import opened Lexer
  import opened Highlight
  import opened Commands

  /**
   `Statement.set_cmdline`: the status line is the line as `lex_cmdline` highlights it,
   without error messages.  A line that lexes reads back as itself; one that fails to
   lex shows its unlexed rest a second time.
   */
  function StatementTitle(ctx: Context, line: string): (title: Line)
    ensures LexAll(ctx, line).error.None? ==> title == LexCmdline(ctx, line, false) && TokensText(title) == line
    ensures LexAll(ctx, line).error.Some? ==>
      TokensText(title) == line + line[LexAll(ctx, line).end..] && TokensText(title) != line
  {
    LexCmdlineText(ctx, line);
    if LexAll(ctx, line).error.Some? then
      LexCmdlineAsWrittenRepeats(ctx, line);
      LexCmdlineAsWritten(ctx, line, false)
    else
      LexCmdlineAsWritten(ctx, line, false)
  }

  /**
   `Statement.run`: the body's result on success; on failure the statement is Error,
   the exception is swallowed (the caller always gets a result, None for a failure),
   and the traceback becomes the output unless the failure was already reported.
   */
  function StatementRun<T>(t: Task, body: Body<T>): (r: Run<Option<T>>)
    ensures r.observed == [Running, r.task.status] && Finished(r.task.status)
    ensures r.outcome.Returned?
    ensures r.task.status == Success <==> body.outcome.Returned?
    ensures r.outcome.value.Some? <==> body.outcome.Returned?
    ensures body.outcome.Returned? ==> r.outcome.value == Some(body.outcome.value)
    ensures body.outcome.Failed? && body.outcome.exc.Raised? ==>
      r.task.output == OutputText(FormatExc(body.outcome.exc.error))
    ensures !(body.outcome.Failed? && body.outcome.exc.Raised?) ==> r.task.output == t.output
    ensures r.task.children == t.children + body.children && r.task.title == t.title
  {
    var swallowed: Outcome<Option<T>> := if body.outcome.Returned? then Returned(Some(body.outcome.value)) else Returned(None);
    var ran := Body(body.children, swallowed);
    match body.outcome
    case Returned(_) => Finish(t, ran, Success, t.output, swallowed)
    case Failed(AlreadyReported) => Finish(t, ran, Error, t.output, swallowed)
    case Failed(Raised(e)) => Finish(t, ran, Error, OutputText(FormatExc(e)), swallowed)
  }

  /**
   A statement over a failing command: the command shows the traceback and the
   statement keeps its own output, so the traceback is shown exactly once.
   */
  lemma {:induction false} CommandFailureShownOnce<T>(statement: Task, command: Task, body: Body<T>, e: PyError)
    requires body.outcome == Failed(Raised(e))
    ensures var c := CommandRun(command, body);
      var s := StatementRun(statement, Body([c.task], c.outcome));
      && c.task.output == OutputText(FormatExc(e)) && c.task.status == Error
      && s.task.output == statement.output && s.task.status == Error && s.outcome == Returned(None)
  {
    var c := CommandRun(command, body);
    assert c.outcome == Failed(AlreadyReported);
  }

  /** `CommandStatement._run`: the command task runs as the only child and its result is dropped. */
  function CommandStatementRun<T>(t: Task, child: Task, childOutcome: Outcome<T>): (r: Run<Option<PyValue>>)
    ensures r.task.children == t.children + [child]
    ensures r.task.status == Success <==> childOutcome.Returned?
    ensures childOutcome.Returned? ==> r.outcome == Returned(Some(PyNone)) && r.task.output == t.output
    ensures childOutcome == Failed(AlreadyReported) ==> r.outcome == Returned(None) && r.task.output == t.output
  {
    var s := Sub(t, child, childOutcome);
    var out: Outcome<PyValue> := match s.outcome
      case Returned(_) => Returned(PyNone)
      case Failed(e) => Failed(e);
    StatementRun(t, Body([child], out))
  }

  const NoVariableMessage := "Right hand side expression does not returns a variable"

  /** The line an assignment shows: `name = ` followed by the value's tokens. */
  function AssignmentLine(name: string, v: Value): Line
  {
    [Plain(name + " = ")] + ValueTokens(v)
  }

  /**
   `AssignmentStatement._run`: a right-hand side without a return type fails before
   it runs; otherwise it runs as the child, and its variable is bound under the
   name, renamed to it, and shown as `name = value`.
   */
  function AssignmentRun(t: Task, scope: Scope, name: string, hasReturnType: bool, child: Task, childOutcome: Outcome<PyValue>)
    : (r: (Run<Option<PyValue>>, Scope))
    requires scope.Valid()
    ensures r.1.Valid()
    ensures r.0.outcome.Returned? && Finished(r.0.task.status)
    ensures r.0.task.status == Success <==> (hasReturnType && childOutcome.Returned? && childOutcome.value.PyVar?)
    ensures r.0.task.status == Success ==>
      (&& r.1.Has(name) && r.1.entries[name] == WithName(childOutcome.value.v, name)
       && (forall k :: k != name && scope.Has(k) ==> r.1.Has(k) && r.1.entries[k] == scope.entries[k])
       && r.0.task.output == [AssignmentLine(name, r.1.entries[name])])
    ensures r.0.task.status != Success ==> r.1 == scope
    ensures !hasReturnType ==>
      r.0.task.children == t.children && r.0.task.output == OutputText(FormatExc(AttributeError(NoVariableMessage)))
    ensures hasReturnType ==> r.0.task.children == t.children + [child]
    ensures hasReturnType && childOutcome.Returned? && !childOutcome.value.PyVar? ==>
      r.0.task.output == OutputText(FormatExc(AttributeError("'" + PyTypeName(childOutcome.value) + "' object has no attribute 'var_name'")))
  {
    if !hasReturnType then
      (StatementRun<PyValue>(t, Body([], Failed(Raised(AttributeError(NoVariableMessage))))), scope)
    else
      match childOutcome
      case Failed(e) => (StatementRun<PyValue>(t, Body([child], Failed(e))), scope)
      case Returned(x) =>
        if !x.PyVar? then
          var e := AttributeError("'" + PyTypeName(x) + "' object has no attribute 'var_name'");
          (StatementRun<PyValue>(t, Body([child], Failed(Raised(e)))), scope)
        else
          var bound := WithName(x.v, name);
          var after := scope.Put(name, bound);
          (StatementRun(t.(output := [AssignmentLine(name, bound)]), Body([child], Returned(PyNone))), after)
  }

  /**
   After a successful assignment, fetching the name gives back the variable that
   was assigned, carrying its new name and its original type.
   */
  lemma AssignThenGet(t: Task, scope: Scope, name: string, child: Task, v: Value, get: Task)
    requires scope.Valid()
    ensures var (_, after) := AssignmentRun(t, scope, name, true, child, Returned(PyVar(v)));
      && GetVariableType(after, name) == Ok(TypeOf(v))
      && GetVariableRun(get, after, name).outcome == Returned(PyVar(WithName(v, name)))
  {
  }

  /** The text of an output written by `_set_output_text`, read back line by line. */
  function OutputString(out: seq<Line>): string
  {
    Join(seq(|out|, i requires 0 <= i < |out| => TokensText(out[i])), '\n')
  }

  lemma OutputStringRoundTrip(text: string)
    ensures OutputString(OutputText(text)) == text
  {
    var out := OutputText(text);
    var parts := Split(text, '\n');
    var texts := seq(|out|, i requires 0 <= i < |out| => TokensText(out[i]));
    forall i | 0 <= i < |out|
      ensures texts[i] == parts[i]
    {
      assert out[i] == [Plain(parts[i])];
      assert out[i][1..] == [];
      assert TokensText(out[i][1..]) == "";
      assert TokensText(out[i]) == parts[i] + TokensText(out[i][1..]);
    }
    assert texts == parts;
    JoinSplit(text, '\n');
  }

  /**
   `ErrorStatement`: a line that did not parse is shown as a failed statement whose
   output is the error text, under the given status line.
   */
  function ErrorStatementTask(title: Line, error: string): (t: Task)
    ensures t.status == Error && t.children == [] && t.title == title
    ensures OutputString(t.output) == error
  {
    OutputStringRoundTrip(error);
    Task(Error, title, [], OutputText(error))
  }

  /**
   An error statement's status line is the highlighted line: the line itself when only
   the parser rejected it, the line and its unlexed rest when lexing failed.
   */
  function ErrorStatement(ctx: Context, line: string, error: string): (t: Task)
    ensures t.status == Error && t.children == []
    ensures LexAll(ctx, line).error.None? ==> TokensText(t.title) == line
    ensures LexAll(ctx, line).error.Some? ==> TokensText(t.title) == line + line[LexAll(ctx, line).end..]
    ensures OutputString(t.output) == error
  {
    ErrorStatementTask(StatementTitle(ctx, line), error)
  }
}
