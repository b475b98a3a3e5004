# tosh, modelled in Dafny

tosh is an interactive shell for operations work. Each line typed at its
prompt goes through the same steps:

- A context-sensitive lexer reads the line. It knows the registered commands,
  the bound variables and the literal prefixes of the variable types.
- A small grammar turns the tokens into a statement: an assignment, or a
  command run for its side effects.
- The statement runs as a tree of status-tracked tasks. The tree is rendered
  as token lines under the prompt.
- Variables are typed. Types are looked up by name, `"[T]"` meaning a list of
  `T`. Attribute access runs further tasks whose plain results are boxed into
  variables.
- Behind the commands sits an SSH layer. It keeps a pool of connections keyed
  by `host[:port]` and a list of sessions per connection. Console sessions
  recognise the remote prompt in the incoming text and cut command output out
  of the stream.
- Around all of this are:
  - a YAML configuration with an index of clouds by public name;
  - tab completion of the line being typed;
  - the tab bar of the main window;
  - the follow-the-bottom scroll position of a task list.

This project models that core as immutable datatypes and pure functions, one
module per part of the program:

- Lexing and highlighting: `Lexer`, `Highlight`.
- Parsing: `Parser`.
- Tasks: `Tasks`.
- Commands and statements: `Commands`, `Statements`.
- Variable types and the tasks that produce variables: `Types`,
  `VariableTasks`, `Links`.
- Line dispatch and autostart: `Shell`.
- Completion: `Completer`.
- Configuration: `Configuration`.
- The SSH connection and session bookkeeping: `Ssh`.
- The console prompt state machine: `SshConsole`.
- The tab bar and the scroll position: `Tabs`, `Scroll`.
- Support modules: `Text` for string splitting and digits, `Results` for
  Python's errors as a `Result`, and `Dicts` for Python's insertion-ordered
  `dict`.

Asynchronous runs are step functions. A task's run receives what its body did:
the children it started, already finished, and whether it returned a value or
raised. It gives back the finished task, the statuses the two refreshes saw,
and the outcome its caller gets. Locks are booleans, and a pending asyncio
future is a state of the console. Remote input arrives as chunks of text, and
what is written to the channel is an append-only log.

## Model

| member | source | states |
|---|---|---|
| Lexer.LiteralAction | tosh/parser.py:91-99 | `prefix"payload"` becomes a LITERAL load task for the payload, of the type registered for the prefix. An unregistered prefix fails with KeyError "Unknown literal prefix <prefix>". When the registered class loads through `Link.load_task`, whatever its name, the payload goes to the link class that claims it. A KeyError from that dispatch is reported as an unknown prefix, and any other error passes through. |
| Lexer.LinkSubclassLiteral | tosh/vars/link.py:47-60 | A registered `Link` subclass, which inherits the prefix and `Link.load_task`, takes the prefix over. A literal under it is still loaded by the link class that claims the URL, never as the subclass itself. |
| Lexer.RegisteredLinkLexes | tosh/parser.py:101-105 | After a link class is registered, a URL that it claims and no earlier class claims lexes to a LITERAL. The literal is loaded by that class, with the type the class claims and the URL as argument. |
| Lexer.LexFrom | tosh/parser.py:46-136 | The lexemes concatenate to exactly the consumed part of the line, and none is empty. Without an error only spaces and tabs follow. With an error the lexer stopped at a character that is not ignored. |
| Lexer.LexWord | tosh/parser.py:116-128 | A line holding one word lexes to exactly that word. It is a COMMAND when it names a registered command, else a VARIABLE of the binding's type when it is bound, else a BARE_WORD. |
| Lexer.LexWordDot | tosh/parser.py:32-128 | `word.` lexes to exactly that word, classified the same way, followed by one `.` token. |
| Lexer.LexDigits | tosh/parser.py:130-133 | A run of digits lexes to one Integer load task that carries the digit string. |
| Lexer.LexQuoted | tosh/parser.py:107-114 | A line holding one quoted string lexes to the token the string rule makes of it, or fails with its error. |
| Lexer.LexLiteral | tosh/parser.py:91-99 | A line `prefix"payload"` splits into exactly that prefix and payload and lexes to what the literal rule makes of them. |
| Lexer.LexIllegal | tosh/parser.py:135-136 | A character that no rule accepts stops the lexer with SyntaxError "Illegal character 'c'" and no tokens. |
| Lexer.LexPunct | tosh/parser.py:32 | Each of `= . ( )` is a token of its own. |
| Highlight.LexCmdline | tosh/parser.py:78-87 | The highlighting agrees with the code as written on every line that lexes. After an error it shows the rest of the line once. |
| Highlight.LexCmdlineText | tosh/parser.py:78-87 | Without error messages, the highlighted tokens spell out exactly the input line. |
| Highlight.LexCmdlineShowsError | tosh/parser.py:81-84 | With error messages, a line that fails to lex is shown in full, followed by the parenthesised message. |
| Highlight.LexCmdlineAsWrittenRepeats | tosh/parser.py:81-86 | As written, a line that fails to lex is shown with its unlexed rest twice, so the text differs from the line. |
| Highlight.IllegalCharacterShownTwice | tosh/parser.py:81-86 | The line `$` raises "Illegal character '$'". It is shown as `$$` as written and as `$` when corrected. |
| Parser.ParseStatement | tosh/parser.py:153-174 | `VARIABLE =` or `BARE_WORD =` assigns to that name, and a bare word can only start an assignment. A command becomes a command statement exactly when its return type is falsy. Otherwise, and for a bare expression, the statement assigns to the default variable name of the return type. Success means the line lexed and had tokens. |
| Parser.ParamsOfTokens | tosh/parser.py:184-190 | A run of one-token parameters up to the end of the line is parsed into exactly those parameters, in the order written, after the ones already collected. Each parameter is a word, a command used as a word, or an expression of one token. |
| Parser.CommandWithParams | tosh/parser.py:168-190 | `command p1 ... pn` with one-token parameters is that command with exactly those parameters, in order. It runs as a command statement, or is auto-assigned when its return type is truthy. |
| Parser.AssignCommand | tosh/parser.py:153-160 | `name = command p1 ... pn` binds the name to that command with exactly those parameters, in order. |
| Parser.AccessChainSnoc | tosh/parser.py:201-203 | Accesses nest to the left: the last name is applied, outermost, to the chain of the names before it. The chain fails at the first access that cannot be built. |
| Parser.ParseAccessChain | tosh/parser.py:192-203 | From any primary, `.n1 .n2 ... .nk` parses to the left-nested chain of those accesses, for every k, and parsing resumes after the last name. |
| Parser.AssignExpression | tosh/parser.py:153-160 | `name = e.n1 ... .nk` binds the name to the access chain, or fails with the first access that cannot be built. |
| Parser.ExpressionStatement | tosh/parser.py:162-166 | A line that is an expression `e.n1 ... .nk` is auto-assigned to the default variable name of the chain's type, or fails with the chain's error. |
| Parser.ParseOneWord | tosh/parser.py:116-128 | A line of one word runs the command of that name with no parameters, or auto-assigns a bound variable to its type's default name. Any other word is "Syntax error", since a bare word can only start an assignment. |
| Parser.ParseQuotedString | tosh/parser.py:107-114 | A quoted text not starting with `http` is auto-assigned to `_string`. Its load yields the text with its quotes kept. |
| Parser.ParseDigits | tosh/parser.py:130-133 | A run of digits is auto-assigned to `_integer`. Its load yields an Integer holding the digit string itself. |
| Parser.ParseErrors | tosh/parser.py:227-231 | An empty token stream is a generic syntax error, or the lexing error. A line opening with `=`, `.` or `)` is a syntax error naming that token. |
| Parser.ParseEmptyLine | tosh/parser.py:149-151 | The empty line does not parse. |
| Tasks.NewTaskRenders | tosh/tasks.py:33-51 | A new task renders as a single line: the Waiting glyph, a space, then the title. It has no child block and no output lines. |
| Tasks.BlockShape | tosh/tasks.py:53-68 | In the child block, line `k` of child `j` sits at the sum of the earlier children's heights plus `k`. It is the child's own line behind `├╴`/`│ `, or behind `└╴`/two spaces for the last child. The block is exactly as long as the children's renders together. |
| Tasks.ChildBlockCollapses | tosh/tasks.py:53-56 | The child block is empty exactly when there are no children or every child succeeded. |
| Tasks.RenderLayout | tosh/tasks.py:49-51 | The first line is the status glyph, a space, then the title. The output lines come last, after the child block. |
| Tasks.FlattenLine | tosh/tasks.py:43-47 | Every rendered line appears in the token stream in order, closed by its own newline token. |
| Tasks.OutputTextRoundTrip | tosh/tasks.py:40-41 | The output lines of a text joined with newlines give the text back, and none contains a newline. |
| Tasks.Sub | tosh/tasks.py:92-100 | `sub` appends the child after the existing children, changes nothing else, and hands back the child's result or failure unchanged. |
| Tasks.Parallel | tosh/tasks.py:102-111 | `parallel` appends every child in input order and returns one result-or-exception per input, position by position. |
| Tasks.CoroutineRun | tosh/tasks.py:119-130 | The run goes Running, then Success with the body's result or Error re-raising the same exception. Children, output and title are kept. |
| Tasks.HostSub | tosh/tasks.py:133-138 | On a real task the child is recorded. `FakeTask.sub` only runs it. Either way the result comes back unchanged. |
| Tasks.DecoratedSub | tosh/tasks.py:133-153 | Called with the shell handle, `@task` builds a task with the given title, and the child the function runs is recorded on it. Running that task marks it Running, then Success or Error. It ends with the child as its only child, and the caller gets the child's outcome. Called without the handle, the function runs on a `FakeTask` and nothing is recorded. Either way the caller gets the child's outcome unchanged. |
| Commands.RegisterCommand | tosh/command.py:33-39 | A class with a `command` word is registered under it and replaces an earlier class of that word in place. A class without one changes nothing, and other entries are kept. |
| Commands.RegisteredCommandFound | tosh/command.py:20-27 | A registered class is found by its word, and its bare word is that word. |
| Commands.CommandRun | tosh/command.py:58-74 | Success with the body's result. Any failure sets Error and reaches the caller as an already-reported failure. The traceback becomes the output only when the cause was not already reported. |
| Commands.TracebackShownOnce | tosh/command.py:66-72 | With nested failing commands, only the innermost shows a traceback; the outer command keeps its output. |
| Statements.StatementTitle | tosh/statements.py:14-15 | A statement's status line is the line as `lex_cmdline` highlights it. A line that lexes reads back as itself. One that fails to lex reads back as the line followed by its unlexed rest, which is not the line. |
| Statements.StatementRun | tosh/statements.py:17-30 | A statement never raises. It ends Success with the result, or Error with None. Only a failure not already reported replaces the output with the traceback. |
| Statements.CommandFailureShownOnce | tosh/statements.py:24-28 | Over a failing command, the command shows the traceback and the statement keeps its own output. |
| Statements.CommandStatementRun | tosh/statements.py:37-38 | The wrapped task runs as the only new child, its result is dropped, and the statement succeeds exactly when the child did. |
| Statements.AssignmentRun | tosh/statements.py:46-53 | Without a return type it fails before any child runs. On success the name is bound to the result renamed to it, other bindings are unchanged, and the output is exactly `name = ` followed by the value's tokens. On failure the scope is unchanged. |
| Statements.AssignThenGet | tosh/statements.py:49-51 | After an assignment, fetching the name returns the assigned variable under its new name and with its type. |
| Statements.ErrorStatement | tosh/statements.py:55-60 | An error statement is Error and childless, and its output reads back as the error text. Its status line reads back as the line when the line lexes, and as the line followed by its unlexed rest when it does not. |
| Types.SnakeName | tosh/variable.py:150-152 | The default name inserts `_` before each capital: one character more per capital, and no capital remains. |
| Types.SnakeNameAppend | tosh/variable.py:152 | Snake-casing distributes over concatenation. |
| Types.IntegerNames | tosh/variable.py:150-152 | The Integer type is named `Integer` with default variable name `_integer`. |
| Types.StringNames | tosh/variable.py:150-152 | The String type is named `String` with default variable name `_string`. |
| Types.DeclaredType | tosh/variable.py:140-152 | A declared class keeps its name, prefix, attributes and whether it loads through `Link.load_task`. Without its own naming, its class name is its name and its default variable name is the snake-cased name. |
| Types.Register | tosh/variable.py:144-147 | A class is registered under its name, and under its prefix when it has one. Other names are unaffected. |
| Types.LookupObject | tosh/variable.py:127-128 | A type object is returned unchanged. |
| Types.LookupList | tosh/variable.py:129-133 | `[T]` and `"[T]"` denote the same type. It is the list of what `T` denotes, and it fails exactly when `T` fails. |
| Types.LookupNamed | tosh/variable.py:134 | A plain name resolves exactly when registered, to the registered type; otherwise KeyError. |
| Types.ListClassName | tosh/vars/basic.py:34-42 | Looking up `"[n]"` gives a list named `"[n]"` whose default variable name is the item's with an `s`. |
| Types.DeclaredAttributes | tosh/variable.py:44-48 | After a class is registered, its name resolves to it. An attribute lookup on it finds exactly the attributes it declared, and any other key is KeyError. |
| Types.VarNameAfterAssign | tosh/variable.py:201-212 | Reading the name back after setting it gives the name set, or the default for the empty name. |
| Types.LoadedLiteralShows | tosh/vars/basic.py:86-105 | A String or Integer load renders as exactly its argument. It has the loaded type and, while unnamed, that type's default variable name. |
| Types.Pad2Value | tosh/vars/basic.py:64 | The zero-padded item index reads back as the index. |
| Types.ListItemShape | tosh/vars/basic.py:60-67 | Item `j` of a list renders, in order, as its padded-index header, exactly its own tokens, then a newline token. |
| Types.Autobox | tosh/variable.py:223-230 | `str` becomes a String and `int` an Integer; anything else passes through; nothing plain remains. |
| Types.AutoboxFaithful | tosh/variable.py:223-230 | Boxing is idempotent, and a boxed string or integer renders as its text. |
| VariableTasks.ClassLoadTask | tosh/variable.py:179-182 | A class's own load task never fails, under any registry. |
| VariableTasks.LoadRun | tosh/variable.py:20-32 | String and Integer loads succeed with the wrapped argument. Other loads end as the external load does. The run goes Running, then finishes. |
| VariableTasks.ListAccessTyped | tosh/variable.py:46-49 | With the corrected `count`, on a list whose items all have the item type, a successful attribute call returns a variable of exactly the type the access task declares for it. |
| VariableTasks.AttributeCall | tosh/variable.py:214-240 | An unknown attribute raises KeyError. A `@task` accessor runs as a new child of a real host, and a plain one is called directly. The result is never a plain `str` or `int`. An item or `count` access on a value that is not a list raises AttributeError naming the value's class and `_items`; on a list it returns a value or raises IndexError "list index out of range". This is the corrected call, which boxes a list's `count`. |
| VariableTasks.CountAsWrittenRaises | tosh/variable.py:223-229 | As written, boxing reads the list's `_tosh`, which `List.__init__` never sets. So `count` on a list raises AttributeError "'List' object has no attribute '_tosh'", where the corrected call yields the number of items as an Integer. That is the only access on which the two calls differ. |
| VariableTasks.ListAttributeCall | tosh/vars/basic.py:44-58 | On a list, a digit key fetches that item, and an index past the end fails. The corrected `count` yields the number of items as an Integer. Other keys raise KeyError. |
| VariableTasks.CountDeclaredType | tosh/vars/basic.py:13-15 | Corrected, `count` yields an Integer and its table entry declares Integer. As written, the entry declares String, and the call raises AttributeError `_tosh` before any value exists. |
| VariableTasks.AccessRun | tosh/variable.py:54-67 | The base runs as the next child, and a failing base fails the access with the same exception. A base that returns a plain `str`, `int` or None raises AttributeError "'<type>' object has no attribute 'attribute'", with the Python type name. Otherwise the outcome is the attribute call on the base's result. It succeeds exactly when a value comes back. |
| Links.LinkType | tosh/vars/link.py:38-45 | The first class in registration order that claims the URL wins, with the type it claims. It fails with ValueError "Don't know what to do with link <url>" exactly when no class claims it. |
| Links.RegisterKeepsEarlierClaims | tosh/vars/link.py:41-44 | Registering another class never changes where an already claimed URL goes. |
| Completer.Expressions | tosh/completer.py:22-31 | One suggestion per bound variable, per command and per literal prefix, all at the given start. |
| Completer.OffersVariables | tosh/completer.py:23-24 | Every bound variable is offered before the commands. |
| Completer.OffersCommands | tosh/completer.py:26-28 | Every command is offered after the variables, with `(` in front when asked. |
| Completer.OffersPrefixes | tosh/completer.py:30-31 | Every literal prefix is offered last, as an empty literal `p""`. |
| Completer.ExpressionsSound | tosh/completer.py:22-31 | Every expression suggestion names a bound variable, a command (with `(` or not), or the empty literal `p""` of a registered prefix. |
| Completer.SuggestSound | tosh/completer.py:59-95 | Every suggestion for the tokens before the typed word is an expression suggestion, or an attribute or argument offered by one of those tokens. |
| Completer.CompleteSound | tosh/completer.py:38-95 | Every completion is placed over the typed word or at the cursor. It is a bound variable, a command, a literal prefix's empty literal, or an attribute or argument offered by a token of the line. |
| Completer.CompleteWord | tosh/completer.py:38-62 | While a word is typed at the start of a line, every variable, command and literal prefix is offered in place of that word, whatever the word is. |
| Completer.AttributesAfterDot | tosh/completer.py:38-80 | After `x.` the attributes of the type of `x` are offered in declaration order, at the cursor. A word whose type has no attribute table gets nothing. |
| Completer.CommandNamesAfterParenthesis | tosh/completer.py:69-72 | As written, the code agrees with the corrected one everywhere except after `(`. There it fails while any command exists; the corrected one offers every command. |
| Completer.OpeningParenthesis | tosh/completer.py:69-72 | Completing `(` fails as written and offers the command names when corrected. |
| Configuration.Get | tosh/config.py:25-32 | No path gives the whole value. A missing key or a None on the way gives None. A non-mapping raises AttributeError. |
| Configuration.GetAppend | tosh/config.py:25-32 | Looking up a path in two parts is looking up the first part, then the rest in its result. |
| Configuration.PutAll | tosh/config.py:16-17 | Every listed public name maps to the cloud; other names are unchanged. |
| Configuration.IndexStep | tosh/config.py:14-17 | Indexing one more cloud keeps the invariant: a name is indexed exactly when some cloud lists it, and maps to the last cloud that does. |
| Configuration.IndexOfIndexes | tosh/config.py:14-17 | The index built cloud by cloud satisfies that invariant. |
| Configuration.IndexClouds | tosh/config.py:13-17 | Indexing succeeds exactly when every cloud is well-formed, and otherwise fails with some cloud's error. On success the index satisfies the invariant. |
| Configuration.Load | tosh/config.py:8-17 | Loading fails with the clouds node's or a cloud's error. Otherwise the index satisfies the invariant and the clouds under `servers.clouds` are named. |
| Configuration.NamedClouds | tosh/config.py:15 | Every cloud keeps its key and gets its key as `name`. |
| Configuration.GetClouds | tosh/config.py:19-20 | The clouds' values, in order. |
| Configuration.LoadedClouds | tosh/config.py:14-20 | After loading, the clouds read back are the named clouds, in order. |
| Configuration.LoadedLookup | tosh/config.py:13-23 | After loading, a public name resolves exactly when some cloud lists it, and to the last such cloud with its name. |
| Ssh.ParseInt | tosh/lib/ssh.py:30 | A port parses exactly when it is a non-empty run of digits, to its value; otherwise ValueError naming the port. |
| Ssh.ParseHost | tosh/lib/ssh.py:26-32 | Two or more colons raise "Hostname invalid: <hostname>" exactly. No colon gives port 22. A parsed host has no colon and its port is not negative. |
| Ssh.HostPortRoundTrip | tosh/lib/ssh.py:26-30 | `host:port` parses back to that host and port. |
| Ssh.GetConnection | tosh/lib/ssh.py:21-35 | A cached hostname gives its connection and leaves the pool alone. Otherwise the hostname is parsed and connected, and then cached. |
| Ssh.ConnectionReused | tosh/lib/ssh.py:25-35 | Asking again for a hostname gives the same connection without connecting again. |
| Ssh.FirstInstance | tosh/lib/ssh.py:73 | It finds the first session whose handler is an instance of the class, if any. |
| Ssh.GetSession | tosh/lib/ssh.py:68-77 | It reuses the first session of the requested kind, else creates one and appends it; the connection stays well-formed. |
| Ssh.SessionReused | tosh/lib/ssh.py:71-77 | Asking again for the same kind gives the same session and connection. |
| Ssh.RemoveFirst | tosh/lib/ssh.py:81-82 | A listed session is removed once; an unlisted one changes nothing. |
| Ssh.RemoveFirstIsWithout | tosh/lib/ssh.py:81-82 | With unique ids, removing the first listing removes the session entirely. |
| Ssh.RemoveSession | tosh/lib/ssh.py:79-82 | The session is no longer listed and everything else is kept. |
| Ssh.AddThenRemove | tosh/lib/ssh.py:79-86 | Adding a session that is not listed keeps the connection well-formed, and removing it again gives back the connection unchanged. |
| Ssh.SwitchHandler | tosh/lib/ssh.py:111-121 | Without the lock it raises RuntimeError, exactly. With it, the session has the new handler and is last in the list after all other sessions, in their order. |
| Ssh.SwitchTwice | tosh/lib/ssh.py:111-121 | Switching twice equals switching once to the second handler. |
| Ssh.ConnectionLost | tosh/lib/ssh.py:129-131 | A lost session is no longer listed. |
| Ssh.EnterAfterSwitch | tosh/lib/ssh.py:111-141 | With the lock held, entering a session gives the handler it was last switched to. Without the lock entering raises RuntimeError, exactly. |
| SshConsole.DataReceived | tosh/lib/ssh.py:227-242 | The output buffer grows by exactly the chunk. The line buffer keeps the text after the last newline. The waiter fires exactly when some split line shows the prompt. A second firing is InvalidStateError, and a missing pattern is AttributeError. |
| SshConsole.CommandOutputTrimmed | tosh/lib/ssh.py:224-225 | The result drops the echoed first line and the prompt line. |
| SshConsole.CommandExchange | tosh/lib/ssh.py:212-242 | When the echo, the body and then the prompt arrive, the waiter fires and the result is exactly the body. |
| SshConsole.KnownPrompts | tosh/lib/ssh.py:250 | The Rails prompt `irb(main):001:0> ` and the psql prompt `postgres=# ` are recognised; `=# ` is not. |
| SshConsole.FirstMarked | tosh/lib/ssh.py:276 | It finds the first line starting with the marker, if any. |
| SshConsole.MarkedPayloadDecoded | tosh/lib/ssh.py:273-277 | The payload of the first marked line is what gets decoded. |
| SshConsole.MissingDatabase | tosh/lib/ssh.py:305-307 | A `FATAL` reply stops after the connect command with that error. |
| Shell.RunCommand | tosh/tosh.py:80-96 | An empty line does nothing. Otherwise exactly one entry is appended. A parsed line becomes its statement and goes to the history. A failing parse becomes an error statement with the traceback and stays out of the history. |
| Shell.RunCommandParses | tosh/tosh.py:84-95 | With this model's parser, the new entry holds the statement the line parses into. It is titled with the line when the line lexes. A line that fails to lex never parses, and its error statement is titled with the line followed by its unlexed rest. |
| Shell.IllegalLineEntry | tosh/tosh.py:93-95 | Entering `$` appends an Error entry whose status line reads `$$`, and leaves the history unchanged. |
| Shell.RunLinesBookkeeping | tosh/tosh.py:80-96 | Over any sequence of lines there is one entry per non-empty line and earlier entries are untouched. The history grows by exactly the lines that parsed, in order. |
| Shell.Autostart | tosh/tosh.py:68-72 | Autostart commands are appended in configuration order without touching the history. The first command that does not parse aborts with its error. |
| Tabs.NewWindow | tosh/ui/main_window.py:16-17 | The window starts with one tab, active. |
| Tabs.SwitchTab | tosh/ui/main_window.py:36-41 | An index out of range is ignored; otherwise it becomes the active index. |
| Tabs.AddTab | tosh/ui/main_window.py:30-34 | The tab is appended, and made active only when asked to. |
| Tabs.NextTab | tosh/ui/main_window.py:43-44 | The next tab, wrapping from the last to the first; no tabs is ZeroDivisionError. |
| Tabs.PrevTab | tosh/ui/main_window.py:46-47 | The previous tab, wrapping from the first to the last. |
| Tabs.NextThenPrev | tosh/ui/main_window.py:43-47 | Next then previous returns to the same window. |
| Tabs.NextTimesWraps | tosh/ui/main_window.py:43-44 | `k` steps forward move the active index `k` places, wrapping once past the end. |
| Tabs.FullRound | tosh/ui/main_window.py:43-44 | A full round of next_tab comes back to the start. |
| Tabs.ActiveTab | tosh/ui/main_window.py:49-50 | The active tab exists exactly when the index is in range; otherwise IndexError. |
| Tabs.CloseTabAsWritten | tosh/ui/main_window.py:52-58 | Closing the active tab first moves to the previous index (a no-op at 0), then the first listing of the tab goes. The active index is not adjusted, and the window exits when no tab is left. |
| Tabs.StaleActiveIndex | tosh/ui/main_window.py:52-55 | Closing the first of two tabs while the second is active leaves an index past the end, after which no tab can be closed. |
| Tabs.ActiveTabShifts | tosh/ui/main_window.py:52-55 | Closing a tab before the active one makes a different tab active. |
| Tabs.CloseTab | tosh/ui/main_window.py:52-58 | Same errors and removal, and the window stays well-formed unless it exits. |
| Tabs.CloseTabKeepsActive | tosh/ui/main_window.py:52-55 | Closing another tab keeps the active tab. Closing the active tab activates the tab before it, or the next one at the front. Distinct tabs stay distinct. |
| Scroll.NewScroll | tosh/ui/scroll_window.py:10-11 | A new window follows the bottom, with last position 0. |
| Scroll.ScrollDown | tosh/ui/scroll_window.py:13-15 | While following it does nothing; otherwise it moves three lines down. |
| Scroll.ScrollUp | tosh/ui/scroll_window.py:17-20 | It moves three lines up from the position, or from the last bottom position when following, and never goes above 0. |
| Scroll.CopyBody | tosh/ui/scroll_window.py:26-30 | The bottom position is the total line height minus the window height, and a position past it returns to following. The line shown first is never past the bottom. |
| Scroll.UpThenDown | tosh/ui/scroll_window.py:13-20 | Up then down shows the same first line again, away from the top. |
| Scroll.DownPastBottomFollows | tosh/ui/scroll_window.py:13-30 | Scrolling down past the bottom returns to following at the next redraw. |

## Left out

- Concurrency. asyncio scheduling, `ensure_future`, `gather` and the locks are
  not modelled. A run is one step, a lock is a boolean, and the race in
  creating the per-host connection lock (`tosh/lib/ssh.py:23`) is not modelled.
- The SSH transport. `asyncssh.connect`, `create_session` and `channel.write`
  are not modelled. A connection or session failure is an input error, and
  writes go to a log.
- `_SSHInteractiveHandler` only forwards data to a tab; it is not modelled.
- The `asyncio.sleep(2)` in `connect_db` and the refresh calls are timing and
  display only.
- The regular-expression engine. The two prompt patterns are written out as
  predicates. `\w`, `\d`, `\s` and `\S` are taken over ASCII.
- JSON decoding is a function parameter of `GetObject`.
- `urlparse` is not modelled. A link class's `return_type(urlparse(url))` is a
  function of the URL.
- YAML parsing is not modelled; a configuration is a YAML value tree.
- PLY's table construction and its `parser.pickle` cache are not modelled. The
  grammar is parsed by recursive descent. The descent takes the LALR table's
  choices, an expression over `name` for VARIABLE and INTEGER parameters, and
  reports errors in the order the table meets them.
- Display details are kept symbolic. Status glyph templates, token styles,
  mouse handlers, tab-bar tokens and layouts are not modelled, and completion
  display strings are built but not stated.
- Python object reprs are abstract. `Parser.ValueRepr` keeps only the kind of
  object in a "Syntax error at" message. A parenthesised sub-command is marked
  but its `_cmdline` text is not kept.
- `Results.FormatExc` stands for `traceback.format_exc()` with the exception
  line only, without the stack frames.
- Ssh.ParseInt: signs, surrounding whitespace and digit-group underscores,
  which `int()` accepts, are not modelled; such a port is rejected. Non-ASCII
  decimal digits, which `int()` also accepts, are rejected too. The error
  message always quotes the port with `'`, where Python's `repr` switches to
  `"` for a port containing `'` and escapes backslashes.
- Types.Autobox: `bool` results are not modelled. Python boxes `True` and
  `False` as Integer, since `bool` is a subclass of `int`; the model's plain
  values have no booleans.
- Tasks.DecoratedSub: the title is taken already formatted.
  `title.format(pos=args, kw=kwargs)` is not modelled. Nor is a KeyError raised
  by that formatting, which the `except KeyError` also catches, so that the
  function then runs on a `FakeTask`.
- Types.SnakeName: lowering is ASCII only. Python's `.lower()` also folds
  non-ASCII capitals, so "no capital remains" is stated for ASCII capitals.
- A value whose type is not String, Integer or a list type always has a
  class type. A list-typed value is always a `List`, as in the source, where
  only `List` has list types.
- Parser.ParseStatement: its own contract states the statement kind and the
  name bound. The trees are stated by `Parser.CommandWithParams`,
  `Parser.AssignCommand`, `Parser.AssignExpression` and
  `Parser.ExpressionStatement`, for lines of one-token parameters and for access
  chains.
- Parser.ParseParams: the parameter trees are stated only for runs of one-token
  parameters. An access chain or a parenthesised command used as a parameter is
  parsed in order, but its tree is not stated.
- Tabs.NextTab: the ZeroDivisionError message with no tabs depends on the Python
  version.
- Statements.AssignmentRun: a right-hand side that returns something other than
  a variable is bound in the source before setting its `var_name` fails. The
  model's scope only holds variables, so that binding is not made.
- Shell.RunCommand: the source's "Parser returned no task" branch cannot happen,
  because a parse returns a statement or raises. It is not modelled.
- Shell.Autostart: a missing `autostart` key makes the source iterate over None
  and raise TypeError; the model takes the list of commands as given.
- `Variable.load` and `Link.load` are the `@task` wrappers of a type's `_load`.
  They are the same run as `VariableTasks.LoadRun` inside `Tasks.CoroutineRun`
  and are not modelled separately. `_LoadLinkTask.run` (`tosh/vars/link.py:14-25`)
  is `LoadRun` with a link loader.
- Variable aliasing is not modelled. Setting `var_name` changes the object
  wherever it is bound; here values are immutable and only the new binding
  carries the name.
- `load_in_box` and the rendering of types outside the core are not modelled;
  such a value's tokens are an input.
- The `finally` that clears a cancelled waiter in `_wait_for_prompt` is not
  modelled, because cancellation is not.
- The highlighter's `except IndexError: return []` is not modelled, because
  nothing in the lexer raises IndexError.

## Findings

| source | as written | input that shows it | evidently intended | confidence | as-written member | corrected member |
|---|---|---|---|---|---|---|
| tosh/parser.py:81-86 | After a lexing error the unlexed rest is added as the error token, and added again by the `pos < len(cmdline)` branch | the line `$`: the status line of its error statement reads `$$` | the rest of the line shown once, so the status line spells the entered line | not executed | Highlight.LexCmdlineAsWritten | Highlight.LexCmdline |
| tosh/ui/main_window.py:52-55 | Closing a tab before the active one leaves the active index unchanged | tabs `[1, 2]` with the second active, close tab 1: the active index is 1 in a one-tab list, and closing tab 2 then raises IndexError | the active index moves down with the tabs, so the same tab stays active | not executed | Tabs.CloseTabAsWritten | Tabs.CloseTab |
| tosh/vars/basic.py:13-15 | The list attribute `count` declares return type String, but what it yields is an `int` | `xs.count` for any list `xs`: the access task's type is String, so the line is auto-assigned to `_string` | `count` declares Integer | not executed | Types.ListAttributeAsWritten | Types.ListAttribute |
| tosh/vars/basic.py:23-32 | `List.__init__` never calls `Variable.__init__`, so a list has no `_tosh`; `_autobox` boxes `count`'s `int` with `Integer(self._tosh, result)` | `xs.count` for any list `xs`: the access raises AttributeError "'List' object has no attribute '_tosh'", before any value exists | `count` yields the number of items as an Integer | not executed | VariableTasks.AttributeCallAsWritten | VariableTasks.AttributeCall |
| tosh/completer.py:69-72 | After `(` the command names are plain strings, and `_add_space` sets `start_position` on each | the text `(` with any command registered: AttributeError instead of suggestions | the command names offered as completions | not executed | Completer.CompleteAsWritten | Completer.Complete |

The discrepancies are exhibited by these lemmas:

- `Highlight.IllegalCharacterShownTwice` and `Highlight.LexCmdlineAsWrittenRepeats`
  for the first row. The corrected property is `Highlight.LexCmdlineText`.
- `Tabs.StaleActiveIndex` and `Tabs.ActiveTabShifts` for the second row. The
  corrected property is `Tabs.CloseTabKeepsActive`.
- `VariableTasks.CountDeclaredType` for the third row, which states both halves.
- `VariableTasks.CountAsWrittenRaises` for the fourth row, which also states the
  corrected result. `VariableTasks.CountDeclaredType` states both halves too.
- `Completer.OpeningParenthesis` and `Completer.CommandNamesAfterParenthesis`
  for the fifth row.

The rest of the model uses the corrected members, with one exception:

- attribute lookup on lists uses `ListAttribute`;
- attribute access runs `AttributeCall`, which boxes a list's `count`;
- `Complete` offers the command names.

The exception is a statement's status line. It is built by `lex_cmdline` as
written, because that is what the shell shows. On a line that lexes, the two
highlighters agree, as the contract of `Highlight.LexCmdline` states.
`Statements.StatementTitle` states both cases, and `Shell.IllegalLineEntry` shows
the input of the first row.
