/**
 The task tree: status-tracked units of work that own an append-only list of
 children and render themselves as a tree of token lines.

 Running a task is asynchronous in the shell; here a run is a step function that
 receives what the task body did (the children it started, already finished, and
 how it ended) and returns the finished task, the statuses a refresh observed and
 the outcome handed to the caller.
 */
module Tasks {
  import opened Text
  import opened Results

  datatype Status = Waiting | Running | Success | Error

  predicate Finished(s: Status)
  {
    s == Success || s == Error
  }

  /** Token kinds produced by the command-line lexer for highlighting. */
  datatype LexKind =
    | BareWordKind | VariableKind | CommandKind | LiteralKind | StringKind | IntegerKind
    | AssignKind | AccessKind | StartSubCommandKind | EndSubCommandKind
    | ErrorKind | InterTokenKind

  /**
   A display token.  The glyph of a status is a template of the style sheet, so it
   stays symbolic here.
   */
  datatype Token = Plain(text: string) | StatusGlyph(status: Status) | Lexed(kind: LexKind, text: string)

  type Line = seq<Token>

  datatype Task = Task(status: Status, title: Line, children: seq<Task>, output: seq<Line>)

  /** A fresh task: waiting, childless, without output. */
  function NewTask(title: Line): (t: Task)
    ensures t.status == Waiting && t.children == [] && t.output == [] && t.title == title
  {
    Task(Waiting, title, [], [])
  }

  /** The exception a task body can end with. */
  datatype Exc =
    | AlreadyReported      // a failure whose trace a task below has already shown
    | Raised(error: PyError) // any other failure

  datatype Outcome<T> = Returned(value: T) | Failed(exc: Exc)

  // ---------------------------------------------------------------- rendering

  function StatusLine(t: Task): Line
  {
    [StatusGlyph(t.status), Plain(" ")] + t.title
  }

  /** `_token_lines`: the status line, the child block, then the output lines. */
  function Lines(t: Task): (lines: seq<Line>)
    ensures |lines| >= 1
    decreases t, 2
  {
    [StatusLine(t)] + ChildLines(t) + t.output
  }

  predicate AllSucceeded(cs: seq<Task>)
  {
    forall i :: 0 <= i < |cs| ==> cs[i].status == Success
  }

  /** `_children_token_lines`: empty unless some child has not succeeded. */
  function ChildLines(t: Task): seq<Line>
    decreases t, 1
  {
    if |t.children| > 0 && !AllSucceeded(t.children) then Block(t, 0) else []
  }

  /** The connector in front of line `k` of child `j` out of `n` children. */
  function Connector(j: nat, n: nat, k: nat): string
  {
    if j + 1 == n then (if k == 0 then "└╴" else "  ")
    else (if k == 0 then "├╴" else "│ ")
  }

  /** Prefix every line of a child's render with the connectors of child `j` of `n`. */
  function Indent(lines: seq<Line>, j: nat, n: nat): (r: seq<Line>)
    ensures |r| == |lines|
    ensures forall k :: 0 <= k < |lines| ==> r[k] == [Plain(Connector(j, n, k))] + lines[k]
  {
    seq(|lines|, k requires 0 <= k < |lines| => [Plain(Connector(j, n, k))] + lines[k])
  }

  /** The rendered block of children `i..` of `t`. */
  function Block(t: Task, i: nat): seq<Line>
    requires i < |t.children|
    decreases t, 0, |t.children| - i
  {
    var n := |t.children|;
    var mine := Indent(Lines(t.children[i]), i, n);
    if i + 1 == n then mine else mine + Block(t, i + 1)
  }

  /** Number of lines the children `i..j` of `t` render to. */
  function Height(t: Task, i: nat, j: nat): nat
    requires i <= j <= |t.children|
    decreases j - i
  {
    if i == j then 0 else |Lines(t.children[i])| + Height(t, i + 1, j)
  }

  /**
   Shape of the child block: line `k` of child `j` sits at offset `Height(t, i, j) + k`
   and is that child's own line behind its connector; the block is exactly as long as
   the children's renders together.
   */
  lemma {:induction false} BlockShape(t: Task, i: nat, j: nat, k: nat)
    requires i <= j < |t.children|
    requires k < |Lines(t.children[j])|
    ensures |Block(t, i)| == Height(t, i, |t.children|)
    ensures Height(t, i, j) + k < |Block(t, i)|
    ensures Block(t, i)[Height(t, i, j) + k] == [Plain(Connector(j, |t.children|, k))] + Lines(t.children[j])[k]
    decreases |t.children| - i
  {
    var n := |t.children|;
    var mine := Indent(Lines(t.children[i]), i, n);
    if i + 1 == n {
      assert Height(t, i + 1, n) == 0;
    } else if i == j {
      BlockShape(t, i + 1, i + 1, 0);
      assert Block(t, i) == mine + Block(t, i + 1);
    } else {
      BlockShape(t, i + 1, j, k);
      assert Block(t, i) == mine + Block(t, i + 1);
      assert Height(t, i, j) == |mine| + Height(t, i + 1, j);
    }
  }

  /** The child block collapses exactly when there are no children or all succeeded. */
  lemma ChildBlockCollapses(t: Task)
    ensures ChildLines(t) == [] <==> (|t.children| == 0 || AllSucceeded(t.children))
  {
    if |t.children| > 0 && !AllSucceeded(t.children) {
      BlockShape(t, 0, 0, 0);
    }
  }

  /** A rendered task: its status line first, its own output lines last. */
  lemma RenderLayout(t: Task)
    ensures Lines(t)[0] == [StatusGlyph(t.status), Plain(" ")] + t.title
    ensures |Lines(t)| == 1 + |ChildLines(t)| + |t.output|
    ensures Lines(t)[1 + |ChildLines(t)|..] == t.output
  {
  }

  /** `tokens()`: every rendered line followed by one newline token. */
  function Flatten(lines: seq<Line>): seq<Token>
    decreases |lines|
  {
    if |lines| == 0 then [] else lines[0] + [Plain("\n")] + Flatten(lines[1..])
  }

  function TaskTokens(t: Task): seq<Token>
  {
    Flatten(Lines(t))
  }

  lemma {:induction false} FlattenAppend(a: seq<Line>, b: seq<Line>)
    ensures Flatten(a + b) == Flatten(a) + Flatten(b)
    decreases |a|
  {
    if |a| == 0 {
      assert a + b == b;
    } else {
      assert (a + b)[1..] == a[1..] + b;
      FlattenAppend(a[1..], b);
    }
  }

  /** Line `k` of a render appears in the token stream, closed by its own newline token. */
  lemma FlattenLine(lines: seq<Line>, k: nat)
    requires k < |lines|
    ensures Flatten(lines) == Flatten(lines[..k]) + lines[k] + [Plain("\n")] + Flatten(lines[k + 1..])
  {
    assert lines == lines[..k] + lines[k..];
    FlattenAppend(lines[..k], lines[k..]);
    assert lines[k..][1..] == lines[k + 1..];
  }

  /** `_set_output_text`: one single-token line per newline-separated segment. */
  function OutputText(text: string): (out: seq<Line>)
    ensures |out| == |Split(text, '\n')|
    ensures forall i :: 0 <= i < |out| ==> out[i] == [Plain(Split(text, '\n')[i])]
  {
    var parts := Split(text, '\n');
    seq(|parts|, i requires 0 <= i < |parts| => [Plain(parts[i])])
  }

  /** The output lines hold the text: joined with newlines they give it back, and none contains a newline. */
  lemma OutputTextRoundTrip(text: string)
    ensures Join(seq(|OutputText(text)|, i requires 0 <= i < |OutputText(text)| => OutputText(text)[i][0].text), '\n') == text
    ensures forall i :: 0 <= i < |OutputText(text)| ==> '\n' !in OutputText(text)[i][0].text
  {
    var parts := Split(text, '\n');
    var texts := seq(|OutputText(text)|, i requires 0 <= i < |OutputText(text)| => OutputText(text)[i][0].text);
    assert texts == parts;
    JoinSplit(text, '\n');
    SplitPartsFree(text, '\n');
  }

  // ---------------------------------------------------------------- composition

  /** `p2` is `p1` with possibly more children appended, nothing else changed. */
  ghost predicate Extends(p1: Task, p2: Task)
  {
    && p2.status == p1.status && p2.title == p1.title && p2.output == p1.output
    && |p1.children| <= |p2.children| && p2.children[..|p1.children|] == p1.children
  }

  lemma ExtendsTransitive(a: Task, b: Task, c: Task)
    requires Extends(a, b) && Extends(b, c)
    ensures Extends(a, c)
  {
    assert c.children[..|a.children|] == c.children[..|b.children|][..|a.children|];
  }

  datatype SubResult<T> = SubResult(parent: Task, outcome: Outcome<T>)

  /**
   `sub`: the child is appended before it runs and stays the parent's last child;
   its result or failure is handed back unchanged.
   */
  function Sub<T>(parent: Task, child: Task, childOutcome: Outcome<T>): (r: SubResult<T>)
    ensures Extends(parent, r.parent)
    ensures r.parent.children == parent.children + [child]
    ensures r.outcome == childOutcome
  {
    SubResult(parent.(children := parent.children + [child]), childOutcome)
  }

  datatype ParallelResult<T> = ParallelResult(parent: Task, results: seq<Outcome<T>>)

  /**
   `parallel`: every child is appended in input order, and the result list has one
   result-or-exception per input, position by position.
   */
  function Parallel<T>(parent: Task, children: seq<Task>, outcomes: seq<Outcome<T>>): (r: ParallelResult<T>)
    requires |children| == |outcomes|
    ensures Extends(parent, r.parent)
    ensures |r.parent.children| == |parent.children| + |children|
    ensures forall i :: 0 <= i < |children| ==> r.parent.children[|parent.children| + i] == children[i]
    ensures |r.results| == |children|
    ensures forall i :: 0 <= i < |children| ==> r.results[i] == outcomes[i]
  {
    ParallelResult(parent.(children := parent.children + children), outcomes)
  }

  /** What a task body did: the children it ran (in order) and how it ended. */
  datatype Body<T> = Body(children: seq<Task>, outcome: Outcome<T>)

  /** A finished run: the task after it, the statuses the two refreshes saw, and the outcome. */
  datatype Run<T> = Run(task: Task, observed: seq<Status>, outcome: Outcome<T>)

  /** The common run shape: Running, body, then Success or Error, with a refresh at each end. */
  function Finish<T>(t: Task, body: Body<T>, final: Status, output: seq<Line>, outcome: Outcome<T>): Run<T>
  {
    Run(t.(status := final, children := t.children + body.children, output := output), [Running, final], outcome)
  }

  /** `CoroutineTask.run`: Success with the body's result, or Error re-raising the same exception. */
  function CoroutineRun<T>(t: Task, body: Body<T>): (r: Run<T>)
    ensures r.observed == [Running, r.task.status] && Finished(r.task.status)
    ensures r.outcome == body.outcome
    ensures r.task.status == Success <==> body.outcome.Returned?
    ensures r.task.children == t.children + body.children && r.task.output == t.output && r.task.title == t.title
  {
    match body.outcome
    case Returned(_) => Finish(t, body, Success, t.output, body.outcome)
    case Failed(_) => Finish(t, body, Error, t.output, body.outcome)
  }

  /** The parent a `@task` function receives: a real task, or `FakeTask` when called outside the tree. */
  datatype Host = RealHost(task: Task) | FakeHost

  /** `sub` on the host: a real host records the child, `FakeTask.sub` only runs it. */
  function HostSub<T>(host: Host, child: Task, childOutcome: Outcome<T>): (r: (Host, Outcome<T>))
    ensures r.1 == childOutcome
    ensures host.FakeHost? ==> r.0 == FakeHost
    ensures host.RealHost? ==> r.0.RealHost? && r.0.task.children == host.task.children + [child]
  {
    match host
    case FakeHost => (FakeHost, childOutcome)
    case RealHost(p) => (RealHost(Sub(p, child, childOutcome).parent), childOutcome)
  }

  /**
   The `@task` decorator: called with the shell handle it builds a waiting coroutine
   task with the formatted title; called without, it runs the body on a `FakeTask`.
   */
  function Decorated(withShell: bool, title: string): (h: Host)
    ensures withShell ==> h.RealHost? && h.task == NewTask([Plain(title)])
    ensures !withShell ==> h.FakeHost?
  {
    if withShell then RealHost(NewTask([Plain(title)])) else FakeHost
  }

  /** A new task renders as its status line alone: the waiting glyph, a space and its title. */
  lemma NewTaskRenders(title: Line)
    ensures Lines(NewTask(title)) == [[StatusGlyph(Waiting), Plain(" ")] + title]
  {
    RenderLayout(NewTask(title));
    ChildBlockCollapses(NewTask(title));
  }

  /**
   A `@task` function hands its caller the same result with the shell handle as
   without it; only with the handle is the child it runs recorded, on the task that
   `@task` builds with the formatted title (shown here with the status it is built
   with).  That task is then run by `CoroutineRun`, which marks it Running before the
   body starts and Success or Error after it: a body that runs one child and returns
   the child's result leaves the task finished, with that child as its only child.
   */
  lemma DecoratedSub<T>(title: string, child: Task, o: Outcome<T>)
    ensures HostSub(Decorated(true, title), child, o).1 == o && HostSub(Decorated(false, title), child, o).1 == o
    ensures HostSub(Decorated(true, title), child, o).0 == RealHost(Task(Waiting, [Plain(title)], [child], []))
    ensures HostSub(Decorated(false, title), child, o).0 == FakeHost
    ensures var run := CoroutineRun(Decorated(true, title).task, Body([child], o));
      && run.observed == [Running, run.task.status]
      && (run.task.status == Success <==> o.Returned?) && run.task.status != Waiting
      && run.task.children == [child] && run.task.title == [Plain(title)]
      && run.outcome == o
  {
  }
}
