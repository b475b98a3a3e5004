/**
 Commands: classes registered by their `command` word, and the run wrapper that
 reports a failure's traceback exactly once.
 */
module Commands {
  import opened Results
  import opened Dicts
  import opened Tasks
  import opened Types

  /**
   A command class: its command word, its title, its return type (None unless the
   class declares one) and its static argument completions (empty unless declared).
   */
  datatype CommandClass = CommandClass(command: string, title: string, returnType: Option<TypeRef>, completions: seq<string>)

  /** A class created with the command metaclass; only classes with a `command` attribute register. */
  datatype CommandDecl = CommandDecl(command: Option<string>, title: string, returnType: Option<TypeRef>, completions: seq<string>)

  /** `_CommandMeta.all_commands`, in registration order. */
  type Commands = Dict<string, CommandClass>

  /** Every class is registered under its own command word. */
  ghost predicate Keyed(all: Commands)
  {
    forall n :: all.Has(n) ==> all.entries[n].command == n
  }

  /** `_CommandMeta.__init__`: a later class with the same command word replaces the earlier one in place. */
  function RegisterCommand(all: Commands, d: CommandDecl): (r: Commands)
    ensures d.command.None? ==> r == all
    ensures d.command.Some? ==> (r.Has(d.command.value)
      && r.entries[d.command.value] == CommandClass(d.command.value, d.title, d.returnType, d.completions))
    ensures forall n :: (d.command.None? || n != d.command.value) ==>
      (r.Has(n) <==> all.Has(n)) && (all.Has(n) ==> r.entries[n] == all.entries[n])
    ensures all.Valid() ==> r.Valid()
    ensures d.command.Some? && all.Has(d.command.value) ==> r.keys == all.keys
    ensures Keyed(all) ==> Keyed(r)
  {
    match d.command
    case None => all
    case Some(c) => all.Put(c, CommandClass(c, d.title, d.returnType, d.completions))
  }

  /** `Command["name"]`: an unknown command word raises KeyError. */
  function CommandNamed(all: Commands, name: string): (r: Result<CommandClass>)
    ensures r.Ok? <==> all.Has(name)
    ensures r.Ok? ==> r.value == all.entries[name]
    ensures r.Err? ==> r.error == KeyError(name)
  {
    if all.Has(name) then Ok(all.entries[name]) else Err(KeyError(name))
  }

  /** A registered class can be found by its command word, which is also its bare word. */
  lemma RegisteredCommandFound(all: Commands, d: CommandDecl)
    requires d.command.Some?
    ensures CommandNamed(RegisterCommand(all, d), d.command.value).Ok?
    ensures BareWord(CommandNamed(RegisterCommand(all, d), d.command.value).value) == d.command.value
  {
  }

  /** `_CommandMeta.bare_word`: what the user types for the command. */
  function BareWord(c: CommandClass): string
  {
    c.command
  }

  /** `Command.__init__`: a waiting task whose status line is the command's title. */
  function NewCommandTask(c: CommandClass): (t: Task)
    ensures t == NewTask([Plain(c.title)])
  {
    NewTask([Plain(c.title)])
  }

  /**
   `Command.run`: Success with the body's result; a failure already reported below only
   sets Error; any other failure sets Error and shows its traceback as the output.  Either
   way the caller sees a failure that has been reported.
   */
  function CommandRun<T>(t: Task, body: Body<T>): (r: Run<T>)
    ensures r.observed == [Running, r.task.status] && Finished(r.task.status)
    ensures r.task.status == Success <==> body.outcome.Returned?
    ensures body.outcome.Returned? ==> r.outcome == body.outcome && r.task.output == t.output
    ensures body.outcome.Failed? ==> r.outcome == Failed(AlreadyReported)
    ensures body.outcome == Failed(AlreadyReported) ==> r.task.output == t.output
    ensures body.outcome.Failed? && body.outcome.exc.Raised? ==>
      r.task.output == OutputText(FormatExc(body.outcome.exc.error))
    ensures r.task.children == t.children + body.children && r.task.title == t.title
  {
    match body.outcome
    case Returned(_) => Finish(t, body, Success, t.output, body.outcome)
    case Failed(AlreadyReported) => Finish(t, body, Error, t.output, Failed(AlreadyReported))
    case Failed(Raised(e)) => Finish(t, body, Error, OutputText(FormatExc(e)), Failed(AlreadyReported))
  }

  /**
   Nested commands: when a command fails because a sub-command failed, only the
   innermost command that raised shows a traceback; the outer one keeps its output.
   */
  lemma {:induction false} TracebackShownOnce<T, U>(outer: Task, inner: Task, innerBody: Body<T>, before: seq<Task>)
    requires innerBody.outcome.Failed?
    ensures var i := CommandRun(inner, innerBody);
      var o := CommandRun<U>(outer, Body(before + [i.task], Failed(i.outcome.exc)));
      o.task.output == outer.output && o.task.status == Error && i.task.status == Error
  {
    var i := CommandRun(inner, innerBody);
    assert i.outcome == Failed(AlreadyReported);
  }
}
