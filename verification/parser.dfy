/**
 The command-line grammar, parsed by recursive descent over the lexed tokens:

   statement  : (VARIABLE | BARE_WORD) '=' (expression | command) | expression | command
   command    : COMMAND param*
   param      : expression | COMMAND | BARE_WORD
   expression : (VARIABLE | STRING | LITERAL | INTEGER | '(' command ')') ('.' name)*
   name       : COMMAND | VARIABLE | BARE_WORD | INTEGER

 A VARIABLE or INTEGER parameter is always an expression (the LALR table prefers the
 expression rule over `name` in that reduce/reduce conflict).  Errors come out in the
 order the table-driven parser meets them: a token is lexed when it is needed as
 lookahead, an attribute access is built as soon as the token after its name has been
 lexed and is not `=`, and a statement's default variable name is computed once the
 whole line has been read.
 */
module Parser {
  import opened Text
  import opened Results
  import opened Tasks
  import opened Types
  import opened VariableTasks
  import opened Commands
  import opened Lexer

  /** A command parameter: an expression task, a bare word, or a command class used as a word. */
  datatype Param = ExprParam(node: Node) | WordParam(word: string) | CommandWordParam(command: CommandClass)

  /** The tasks an expression or command builds. */
  datatype Node =
    | Load(load: LoadTask)                      // STRING, LITERAL or INTEGER
    | GetVar(name: string, vtype: VarType)
    | Access(base: Node, attr: string, vtype: VarType)
    | Cmd(command: CommandClass, args: seq<Param>, parenthesised: bool)

  datatype Statement = Assignment(name: string, rhs: Node) | CommandStatement(command: Node)

  /** A task's `return_type`: a type object for variable tasks, the declared value for commands. */
  function ReturnType(n: Node): Option<TypeRef>
  {
    match n
    case Load(l) => Some(TypeObj(l.returnType))
    case GetVar(_, t) => Some(TypeObj(t))
    case Access(_, _, t) => Some(TypeObj(t))
    case Cmd(c, _, _) => c.returnType
  }

  /** Python truthiness of a return type: None and the empty name are false. */
  predicate Truthy(r: Option<TypeRef>)
  {
    r.Some? && r.value != Named("")
  }

  /** `Variable[task.return_type]`, where a missing return type fails on `None.startswith`. */
  function TypeOfReturn(reg: Registry, r: Option<TypeRef>): (t: Result<VarType>)
    ensures r.None? ==> t.Err? && t.error.AttributeError?
    ensures r.Some? ==> t == Lookup(reg, r.value)
  {
    match r
    case None => Err(AttributeError("'NoneType' object has no attribute 'startswith'"))
    case Some(ref) => Lookup(reg, ref)
  }

  // ---------------------------------------------------------------- the token stream

  /** What the parser sees at a position: a token, the lexing error, or the end of the line. */
  datatype Look = Token(tok: Tok) | LexFailure(error: PyError) | EndOfLine

  function Peek(lx: Lexing, i: nat): (l: Look)
    ensures l.EndOfLine? <==> i >= |lx.lexemes| && lx.error.None?
    ensures l.LexFailure? <==> i >= |lx.lexemes| && lx.error.Some?
    ensures l.Token? <==> i < |lx.lexemes|
  {
    if i < |lx.lexemes| then Token(lx.lexemes[i].tok)
    else if lx.error.Some? then LexFailure(lx.error.value)
    else EndOfLine
  }

  /**
   How a token value prints in a syntax error: punctuation is its character; for the
   other tokens only the kind of object is kept (Python prints its class path and address).
   */
  function ValueRepr(t: Tok): string
  {
    match t
    case AssignTok => "="
    case AccessTok => "."
    case OpenTok => "("
    case CloseTok => ")"
    case BareWordTok(_) => "<BareWord object>"
    case VariableTok(_, _) => "<GetVariableTask object>"
    case CommandTok(c) => "<class " + c.command + ">"
    case LiteralTok(l) => if l.loader.LinkLoad? then "<_LoadLinkTask object>" else "<LoadVariableTask object>"
    case StringTok(_) => "<LoadVariableTask object>"
    case IntegerTok(_) => "<LoadVariableTask object>"
  }

  /** `p_error`, or the lexing error when the offending token could not be lexed. */
  function Unexpected<T>(l: Look): (r: Result<T>)
    ensures r.Err?
    ensures l.Token? ==> r.error == SyntaxError("Syntax error at '" + ValueRepr(l.tok) + "'")
    ensures l.EndOfLine? ==> r.error == SyntaxError("Syntax error")
    ensures l.LexFailure? ==> r.error == l.error
  {
    match l
    case Token(t) => Err(SyntaxError("Syntax error at '" + ValueRepr(t) + "'"))
    case EndOfLine => Err(SyntaxError("Syntax error"))
    case LexFailure(e) => Err(e)
  }

  /** The bare word of a token that can be an attribute name. */
  function NameWord(t: Tok): Option<string>
  {
    match t
    case CommandTok(c) => Some(BareWord(c))
    case VariableTok(n, _) => Some(n)
    case BareWordTok(w) => Some(w)
    case IntegerTok(l) => Some(l.argument)
    case _ => None
  }

  predicate StartsExpression(t: Tok)
  {
    t.VariableTok? || t.StringTok? || t.LiteralTok? || t.IntegerTok? || t.OpenTok?
  }

  // ---------------------------------------------------------------- descent

  /** `p_expression_access`: `AttributeAccessTask.__init__` checks the attribute and resolves its type. */
  function BuildAccess(reg: Registry, base: Node, attr: string): (r: Result<Node>)
    ensures r.Ok? <==> AccessReturnType(reg, ReturnType(base), attr).Ok?
    ensures r.Ok? ==> r.value == Access(base, attr, AccessReturnType(reg, ReturnType(base), attr).value)
    ensures r.Err? ==> r.error == AccessReturnType(reg, ReturnType(base), attr).error
  {
    var t :- AccessReturnType(reg, ReturnType(base), attr);
    Ok(Access(base, attr, t))
  }

  /** A primary expression starting at `i`, and the position after it. */
  function ParsePrimary(reg: Registry, lx: Lexing, i: nat): (r: Result<(Node, nat)>)
    ensures r.Ok? ==> i < r.value.1 <= |lx.lexemes|
    decreases |lx.lexemes| - i, 1
  {
    match Peek(lx, i)
    case Token(VariableTok(n, t)) => Ok((GetVar(n, t), i + 1))
    case Token(StringTok(l)) => Ok((Load(l), i + 1))
    case Token(LiteralTok(l)) => Ok((Load(l), i + 1))
    case Token(IntegerTok(l)) => Ok((Load(l), i + 1))
    case Token(OpenTok) =>
      if Peek(lx, i + 1).Token? && Peek(lx, i + 1).tok.CommandTok? then
        var (cmd, k) :- ParseCommand(reg, lx, i + 1);
        if Peek(lx, k) == Token(CloseTok) then Ok((cmd.(parenthesised := true), k + 1))
        else Unexpected(Peek(lx, k))
      else Unexpected(Peek(lx, i + 1))
    case _ => Unexpected(Peek(lx, i))
  }

  /** An expression: a primary followed by any number of `.name` accesses, nesting to the left. */
  function ParseExpression(reg: Registry, lx: Lexing, i: nat): (r: Result<(Node, nat)>)
    ensures r.Ok? ==> i < r.value.1 <= |lx.lexemes|
    decreases |lx.lexemes| - i, 2
  {
    var (base, j) :- ParsePrimary(reg, lx, i);
    ParseAccesses(reg, lx, base, j)
  }

  /** The accesses after `base`; stops at the first token that is not `.`. */
  function ParseAccesses(reg: Registry, lx: Lexing, base: Node, j: nat): (r: Result<(Node, nat)>)
    ensures r.Ok? ==> j <= r.value.1 <= |lx.lexemes| || (j == r.value.1 && Peek(lx, j).EndOfLine?)
    ensures r.Ok? ==> Peek(lx, r.value.1) != Token(AccessTok) && !Peek(lx, r.value.1).LexFailure?
    decreases |lx.lexemes| - j
  {
    match Peek(lx, j)
    case LexFailure(e) => Err(e)
    case Token(AccessTok) =>
      if Peek(lx, j + 1).Token? && NameWord(Peek(lx, j + 1).tok).Some? then
        var attr := NameWord(Peek(lx, j + 1).tok).value;
        var after := Peek(lx, j + 2);
        if after.LexFailure? || after == Token(AssignTok) then Unexpected(after)
        else
          var access :- BuildAccess(reg, base, attr);
          ParseAccesses(reg, lx, access, j + 2)
      else Unexpected(Peek(lx, j + 1))
    case _ => Ok((base, j))
  }

  /** `command : COMMAND params`, with the command at `i`; stops before `)` or at the end. */
  function ParseCommand(reg: Registry, lx: Lexing, i: nat): (r: Result<(Node, nat)>)
    requires Peek(lx, i).Token? && Peek(lx, i).tok.CommandTok?
    ensures r.Ok? ==> i < r.value.1 <= |lx.lexemes| || (r.value.1 > i && Peek(lx, r.value.1).EndOfLine?)
    ensures r.Ok? ==> Peek(lx, r.value.1) == Token(CloseTok) || Peek(lx, r.value.1).EndOfLine?
    ensures r.Ok? ==> r.value.0.Cmd? && r.value.0.command == Peek(lx, i).tok.command && !r.value.0.parenthesised
    decreases |lx.lexemes| - i, 0
  {
    var (args, k) :- ParseParams(reg, lx, i + 1, []);
    Ok((Cmd(Peek(lx, i).tok.command, args, false), k))
  }

  /** `params`: parameters in left-to-right order after those already in `acc`. */
  function ParseParams(reg: Registry, lx: Lexing, i: nat, acc: seq<Param>): (r: Result<(seq<Param>, nat)>)
    ensures r.Ok? ==> i <= r.value.1
    ensures r.Ok? ==> r.value.1 <= |lx.lexemes| || Peek(lx, r.value.1).EndOfLine?
    ensures r.Ok? ==> Peek(lx, r.value.1) == Token(CloseTok) || Peek(lx, r.value.1).EndOfLine?
    ensures r.Ok? ==> |r.value.0| >= |acc| && r.value.0[..|acc|] == acc
    decreases |lx.lexemes| - i, 3
  {
    match Peek(lx, i)
    case LexFailure(e) => Err(e)
    case EndOfLine => Ok((acc, i))
    case Token(CloseTok) => Ok((acc, i))
    case Token(CommandTok(c)) => ParseParams(reg, lx, i + 1, acc + [CommandWordParam(c)])
    case Token(BareWordTok(w)) => ParseParams(reg, lx, i + 1, acc + [WordParam(w)])
    case Token(t) =>
      if StartsExpression(t) then
        var (e, j) :- ParseExpression(reg, lx, i);
        ParseParams(reg, lx, j, acc + [ExprParam(e)])
      else Unexpected(Peek(lx, i))
  }

  // ---------------------------------------------------------------- statements

  /**
   `p_autoassignment_statement` and the typed branch of `p_command_statement`: assign to
   the default variable name of the task's return type.
   */
  function AutoAssign(reg: Registry, n: Node): (r: Result<Statement>)
    ensures r.Ok? <==> TypeOfReturn(reg, ReturnType(n)).Ok?
    ensures r.Ok? ==> r.value == Assignment(DefaultVarName(TypeOfReturn(reg, ReturnType(n)).value), n)
  {
    var t :- TypeOfReturn(reg, ReturnType(n));
    Ok(Assignment(DefaultVarName(t), n))
  }

  /** `p_command_statement`: a command with a return type is auto-assigned, any other runs as a statement. */
  function CommandStatementFor(reg: Registry, cmd: Node): (r: Result<Statement>)
    requires cmd.Cmd?
    ensures !Truthy(cmd.command.returnType) ==> r == Ok(CommandStatement(cmd))
    ensures Truthy(cmd.command.returnType) ==> r == AutoAssign(reg, cmd)
  {
    if Truthy(cmd.command.returnType) then AutoAssign(reg, cmd) else Ok(CommandStatement(cmd))
  }

  /** The right-hand side of an assignment, starting at `i`, which must run to the end of the line. */
  function ParseRhs(reg: Registry, lx: Lexing, i: nat): (r: Result<Node>)
    ensures r.Ok? ==> lx.error.None?
  {
    var look := Peek(lx, i);
    if look.Token? && look.tok.CommandTok? then
      var (cmd, k) :- ParseCommand(reg, lx, i);
      if Peek(lx, k).EndOfLine? then Ok(cmd) else Unexpected(Peek(lx, k))
    else
      var (e, k) :- ParseExpression(reg, lx, i);
      if Peek(lx, k).EndOfLine? then Ok(e) else Unexpected(Peek(lx, k))
  }

  /** `statement`, over the whole token stream of a line. */
  function ParseStatement(reg: Registry, lx: Lexing): (r: Result<Statement>)
    ensures r.Ok? ==> lx.error.None? && |lx.lexemes| > 0
    ensures r.Ok? && Peek(lx, 1) == Token(AssignTok) && lx.lexemes[0].tok.VariableTok? ==>
      r.value.Assignment? && r.value.name == lx.lexemes[0].tok.name
    ensures r.Ok? && lx.lexemes[0].tok.BareWordTok? ==>
      Peek(lx, 1) == Token(AssignTok) && r.value.Assignment? && r.value.name == lx.lexemes[0].tok.word
    ensures r.Ok? && lx.lexemes[0].tok.CommandTok? ==>
      (&& (r.value.CommandStatement? <==> !Truthy(lx.lexemes[0].tok.command.returnType))
       && (r.value.CommandStatement? ==> r.value.command.Cmd?)
       && (r.value.Assignment? ==> (r.value.rhs.Cmd?
             && Lookup(reg, lx.lexemes[0].tok.command.returnType.value).Ok?
             && r.value.name == DefaultVarName(Lookup(reg, lx.lexemes[0].tok.command.returnType.value).value))))
    ensures r.Ok? && StartsExpression(lx.lexemes[0].tok) && Peek(lx, 1) != Token(AssignTok) ==>
      (&& r.value.Assignment?
       && TypeOfReturn(reg, ReturnType(r.value.rhs)).Ok?
       && r.value.name == DefaultVarName(TypeOfReturn(reg, ReturnType(r.value.rhs)).value))
  {
    match Peek(lx, 0)
    case LexFailure(e) => Err(e)
    case EndOfLine => Unexpected(EndOfLine)
    case Token(first) =>
      if (first.VariableTok? || first.BareWordTok?) && Peek(lx, 1) == Token(AssignTok) then
        var rhs :- ParseRhs(reg, lx, 2);
        Ok(Assignment(if first.VariableTok? then first.name else first.word, rhs))
      else if first.BareWordTok? then Unexpected(Peek(lx, 1))
      else if first.CommandTok? then
        var (cmd, k) :- ParseCommand(reg, lx, 0);
        var st :- CommandStatementFor(reg, cmd);
        if Peek(lx, k).EndOfLine? then Ok(st) else Unexpected(Peek(lx, k))
      else
        var (e, k) :- ParseExpression(reg, lx, 0);
        if Peek(lx, k).EndOfLine? then AutoAssign(reg, e) else Unexpected(Peek(lx, k))
  }

  /** `CommandLineParser.parse`: lex the line in the current context and parse its statement. */
  function Parse(ctx: Context, line: string): Result<Statement>
  {
    ParseStatement(ctx.reg, LexAll(ctx, line))
  }

  // ---------------------------------------------------------------- properties

  /** An empty token stream, or one opening with `=`, `.` or `)`, is a syntax error (or the lexing error). */
  lemma ParseErrors(reg: Registry, lx: Lexing)
    ensures |lx.lexemes| == 0 && lx.error.None? ==> ParseStatement(reg, lx) == Err(SyntaxError("Syntax error"))
    ensures |lx.lexemes| == 0 && lx.error.Some? ==> ParseStatement(reg, lx) == Err(lx.error.value)
    ensures |lx.lexemes| > 0 && lx.lexemes[0].tok in {AssignTok, AccessTok, CloseTok} ==>
      ParseStatement(reg, lx) == Err(SyntaxError("Syntax error at '" + ValueRepr(lx.lexemes[0].tok) + "'"))
  {
    if |lx.lexemes| > 0 && lx.lexemes[0].tok in {AssignTok, AccessTok, CloseTok} {
      assert Peek(lx, 0) == Token(lx.lexemes[0].tok);
      assert ParsePrimary(reg, lx, 0) == Unexpected(Peek(lx, 0));
    }
  }

  /**
   An empty line does not parse (the shell skips it before parsing, but an empty
   autostart command reaches the parser).
   */
  lemma ParseEmptyLine(ctx: Context)
    ensures Parse(ctx, "") == Err(SyntaxError("Syntax error"))
  {
    assert LexAll(ctx, "").lexemes == [] && LexAll(ctx, "").error.None?;
    ParseErrors(ctx.reg, LexAll(ctx, ""));
  }

  // ---------------------------------------------------------------- reference trees

  /** The node a one-token primary builds. */
  function PrimaryNode(t: Tok): Option<Node>
  {
    match t
    case VariableTok(n, ty) => Some(GetVar(n, ty))
    case StringTok(l) => Some(Load(l))
    case LiteralTok(l) => Some(Load(l))
    case IntegerTok(l) => Some(Load(l))
    case _ => None
  }

  /** The parameter a token makes on its own: a word, a command used as a word, or a one-token expression. */
  function SimpleParam(t: Tok): Option<Param>
  {
    match t
    case BareWordTok(w) => Some(WordParam(w))
    case CommandTok(c) => Some(CommandWordParam(c))
    case _ => if PrimaryNode(t).Some? then Some(ExprParam(PrimaryNode(t).value)) else None
  }

  /** The name an assignment binds: the first token's variable name or bare word. */
  function AssignTarget(t: Tok): Option<string>
  {
    match t
    case VariableTok(n, _) => Some(n)
    case BareWordTok(w) => Some(w)
    case _ => None
  }

  /** `base.n1.n2 ...` built access by access, each applied to the one before; the first access that cannot be built fails it. */
  function AccessChain(reg: Registry, base: Node, names: seq<string>): Result<Node>
    decreases |names|
  {
    if |names| == 0 then Ok(base)
    else
      var b :- BuildAccess(reg, base, names[0]);
      AccessChain(reg, b, names[1..])
  }

  /** A parse result for a node that ends at `pos`. */
  function EndingAt(r: Result<Node>, pos: nat): Result<(Node, nat)>
  {
    match r
    case Ok(n) => Ok((n, pos))
    case Err(e) => Err(e)
  }

  /** The accesses nest to the left: the last name is applied, outermost, to the chain of the others. */
  lemma {:induction false} AccessChainSnoc(reg: Registry, base: Node, names: seq<string>, last: string)
    ensures AccessChain(reg, base, names + [last]) ==
      (if AccessChain(reg, base, names).Ok? then BuildAccess(reg, AccessChain(reg, base, names).value, last)
       else AccessChain(reg, base, names))
    ensures AccessChain(reg, base, names + [last]).Ok? ==>
      && AccessChain(reg, base, names + [last]).value.Access?
      && AccessChain(reg, base, names + [last]).value.base == AccessChain(reg, base, names).value
      && AccessChain(reg, base, names + [last]).value.attr == last
    decreases |names|
  {
    if |names| == 0 {
      assert names + [last] == [last];
      assert [last][1..] == [];
    } else {
      assert (names + [last])[0] == names[0];
      assert (names + [last])[1..] == names[1..] + [last];
      var b := BuildAccess(reg, base, names[0]);
      if b.Ok? {
        AccessChainSnoc(reg, b.value, names[1..], last);
      }
    }
  }

  // ---------------------------------------------------------------- token runs

  /** The tokens from `j` on begin with the accesses `.n1 .n2 ...`, one `.` and one name token each. */
  ghost predicate NamesFrom(lx: Lexing, j: nat, names: seq<string>)
    decreases |names|
  {
    if |names| == 0 then j <= |lx.lexemes|
    else
      && j + 1 < |lx.lexemes|
      && lx.lexemes[j].tok == AccessTok && NameWord(lx.lexemes[j + 1].tok) == Some(names[0])
      && NamesFrom(lx, j + 2, names[1..])
  }

  /** What may follow an access chain: not another `.`, not a lexing failure, and not `=` after a name. */
  predicate EndsChain(l: Look, accessed: bool)
  {
    l != Token(AccessTok) && !l.LexFailure? && (accessed ==> l != Token(AssignTok))
  }

  /** One access `.name`, not followed by `=` or a lexing failure, is built and parsing goes on after it. */
  lemma AccessStep(reg: Registry, lx: Lexing, base: Node, j: nat, name: string)
    requires j + 1 < |lx.lexemes| && lx.lexemes[j].tok == AccessTok && NameWord(lx.lexemes[j + 1].tok) == Some(name)
    requires !Peek(lx, j + 2).LexFailure? && Peek(lx, j + 2) != Token(AssignTok)
    ensures ParseAccesses(reg, lx, base, j) ==
      (if BuildAccess(reg, base, name).Ok? then ParseAccesses(reg, lx, BuildAccess(reg, base, name).value, j + 2)
       else Err(BuildAccess(reg, base, name).error))
  {
    assert Peek(lx, j) == Token(AccessTok);
    assert Peek(lx, j + 1) == Token(lx.lexemes[j + 1].tok);
  }

  /** Before a token that ends a chain, there are no more accesses. */
  lemma ChainEnd(reg: Registry, lx: Lexing, base: Node, j: nat)
    requires EndsChain(Peek(lx, j), false)
    ensures ParseAccesses(reg, lx, base, j) == Ok((base, j))
  {
  }

  /**
   The accesses `.n1 ... .nk` after a parsed `base` give the access chain of those
   names, or the error of the first access that cannot be built.
   */
  lemma {:induction false} ParseAccessChain(reg: Registry, lx: Lexing, base: Node, j: nat, names: seq<string>)
    requires NamesFrom(lx, j, names) && EndsChain(Peek(lx, j + 2 * |names|), |names| > 0)
    ensures ParseAccesses(reg, lx, base, j) == EndingAt(AccessChain(reg, base, names), j + 2 * |names|)
    decreases |names|
  {
    if |names| == 0 {
      ChainEnd(reg, lx, base, j);
    } else {
      if |names| > 1 {
        assert Peek(lx, j + 2) == Token(AccessTok);
      } else {
        assert j + 2 == j + 2 * |names|;
      }
      AccessStep(reg, lx, base, j, names[0]);
      var b := BuildAccess(reg, base, names[0]);
      if b.Ok? {
        assert j + 2 + 2 * |names[1..]| == j + 2 * |names|;
        ParseAccessChain(reg, lx, b.value, j + 2, names[1..]);
      }
    }
  }

  /** A one-token primary at `i` followed by `.n1 ... .nk` parses to the access chain of those names. */
  lemma ParseExpressionChain(reg: Registry, lx: Lexing, i: nat, names: seq<string>)
    requires i < |lx.lexemes| && PrimaryNode(lx.lexemes[i].tok).Some?
    requires NamesFrom(lx, i + 1, names) && EndsChain(Peek(lx, i + 1 + 2 * |names|), |names| > 0)
    ensures ParseExpression(reg, lx, i)
      == EndingAt(AccessChain(reg, PrimaryNode(lx.lexemes[i].tok).value, names), i + 1 + 2 * |names|)
  {
    assert Peek(lx, i) == Token(lx.lexemes[i].tok);
    assert ParsePrimary(reg, lx, i) == Ok((PrimaryNode(lx.lexemes[i].tok).value, i + 1));
    ParseAccessChain(reg, lx, PrimaryNode(lx.lexemes[i].tok).value, i + 1, names);
  }

  /** The tokens from `i` to the end of the line make the parameters `ps`, one token each. */
  ghost predicate ParamsFrom(lx: Lexing, i: nat, ps: seq<Param>)
  {
    i + |ps| == |lx.lexemes| && forall k :: 0 <= k < |ps| ==> SimpleParam(lx.lexemes[i + k].tok) == Some(ps[k])
  }

  lemma ParamsFromNext(lx: Lexing, i: nat, ps: seq<Param>)
    requires ParamsFrom(lx, i, ps) && |ps| > 0
    ensures SimpleParam(lx.lexemes[i].tok) == Some(ps[0]) && ParamsFrom(lx, i + 1, ps[1..])
  {
    assert SimpleParam(lx.lexemes[i + 0].tok) == Some(ps[0]);
    forall k | 0 <= k < |ps[1..]|
      ensures SimpleParam(lx.lexemes[i + 1 + k].tok) == Some(ps[1..][k])
    {
      assert SimpleParam(lx.lexemes[i + (k + 1)].tok) == Some(ps[k + 1]);
    }
  }

  /** A token that is a parameter on its own, not followed by `.`, is one parameter, and parsing goes on after it. */
  lemma ParamsSimpleStep(reg: Registry, lx: Lexing, i: nat, acc: seq<Param>, p: Param)
    requires i < |lx.lexemes| && SimpleParam(lx.lexemes[i].tok) == Some(p)
    requires EndsChain(Peek(lx, i + 1), false)
    ensures ParseParams(reg, lx, i, acc) == ParseParams(reg, lx, i + 1, acc + [p])
  {
    var t := lx.lexemes[i].tok;
    assert Peek(lx, i) == Token(t);
    if PrimaryNode(t).Some? {
      ParseExpressionChain(reg, lx, i, []);
    }
  }

  /** At the end of a line that lexed, the parameters collected so far are all there are. */
  lemma ParamsEnd(reg: Registry, lx: Lexing, i: nat, acc: seq<Param>)
    requires lx.error.None? && i == |lx.lexemes|
    ensures ParseParams(reg, lx, i, acc) == Ok((acc, i))
  {
    assert Peek(lx, i) == EndOfLine;
  }

  /** One-token parameters running to the end of the line are collected in the order they were written. */
  lemma {:induction false} ParamsOfTokens(reg: Registry, lx: Lexing, i: nat, acc: seq<Param>, ps: seq<Param>)
    requires lx.error.None? && ParamsFrom(lx, i, ps)
    ensures ParseParams(reg, lx, i, acc) == Ok((acc + ps, |lx.lexemes|))
    decreases |ps|
  {
    if |ps| == 0 {
      ParamsEnd(reg, lx, i, acc);
      assert acc + ps == acc;
    } else {
      ParamsFromNext(lx, i, ps);
      if |ps| > 1 {
        ParamsFromNext(lx, i + 1, ps[1..]);
        assert Peek(lx, i + 1) == Token(lx.lexemes[i + 1].tok);
      }
      ParamsSimpleStep(reg, lx, i, acc, ps[0]);
      ParamsOfTokens(reg, lx, i + 1, acc + [ps[0]], ps[1..]);
      assert acc + [ps[0]] + ps[1..] == acc + ps;
    }
  }

  // ---------------------------------------------------------------- statements, by shape

  /**
   A line `command p1 ... pn` of one-token parameters is that command with the
   parameters in the order written, turned into a statement by `p_command_statement`.
   */
  lemma CommandWithParams(reg: Registry, lx: Lexing, c: CommandClass, ps: seq<Param>)
    requires lx.error.None? && |lx.lexemes| > 0 && lx.lexemes[0].tok == CommandTok(c) && ParamsFrom(lx, 1, ps)
    ensures ParseStatement(reg, lx) == CommandStatementFor(reg, Cmd(c, ps, false))
  {
    assert Peek(lx, 0) == Token(CommandTok(c));
    ParamsOfTokens(reg, lx, 1, [], ps);
    assert [] + ps == ps;
  }

  /** `name = command p1 ... pn` assigns that command, with its parameters in order, to the name. */
  lemma AssignCommand(reg: Registry, lx: Lexing, c: CommandClass, ps: seq<Param>)
    requires lx.error.None? && |lx.lexemes| > 2 && AssignTarget(lx.lexemes[0].tok).Some?
    requires lx.lexemes[1].tok == AssignTok && lx.lexemes[2].tok == CommandTok(c) && ParamsFrom(lx, 3, ps)
    ensures ParseStatement(reg, lx) == Ok(Assignment(AssignTarget(lx.lexemes[0].tok).value, Cmd(c, ps, false)))
  {
    StatementOfAssignment(reg, lx);
    assert Peek(lx, 2) == Token(CommandTok(c));
    ParamsOfTokens(reg, lx, 3, [], ps);
    assert [] + ps == ps;
  }

  /** A line opening with `name =` is an assignment of the right-hand side parsed from the third token on. */
  lemma StatementOfAssignment(reg: Registry, lx: Lexing)
    requires |lx.lexemes| > 1 && AssignTarget(lx.lexemes[0].tok).Some? && lx.lexemes[1].tok == AssignTok
    ensures ParseStatement(reg, lx) ==
      (if ParseRhs(reg, lx, 2).Ok? then Ok(Assignment(AssignTarget(lx.lexemes[0].tok).value, ParseRhs(reg, lx, 2).value))
       else Err(ParseRhs(reg, lx, 2).error))
  {
    assert Peek(lx, 0) == Token(lx.lexemes[0].tok) && Peek(lx, 1) == Token(AssignTok);
  }

  /** A line opening with a one-token primary not followed by `=` is the auto-assignment of its expression. */
  lemma StatementOfExpression(reg: Registry, lx: Lexing)
    requires |lx.lexemes| > 0 && PrimaryNode(lx.lexemes[0].tok).Some? && Peek(lx, 1) != Token(AssignTok)
    ensures var e := ParseExpression(reg, lx, 0);
      ParseStatement(reg, lx) ==
        (if e.Err? then Err(e.error)
         else if Peek(lx, e.value.1).EndOfLine? then AutoAssign(reg, e.value.0)
         else Unexpected(Peek(lx, e.value.1)))
  {
    assert Peek(lx, 0) == Token(lx.lexemes[0].tok);
  }

  /**
   `name = e.n1 ... .nk`, for a one-token primary `e`, assigns the access chain to
   the name, or fails with the first access that cannot be built.
   */
  lemma AssignExpression(reg: Registry, lx: Lexing, names: seq<string>)
    requires lx.error.None? && |lx.lexemes| == 3 + 2 * |names|
    requires AssignTarget(lx.lexemes[0].tok).Some? && lx.lexemes[1].tok == AssignTok
    requires PrimaryNode(lx.lexemes[2].tok).Some? && NamesFrom(lx, 3, names)
    ensures var chain := AccessChain(reg, PrimaryNode(lx.lexemes[2].tok).value, names);
      ParseStatement(reg, lx) == (if chain.Ok? then Ok(Assignment(AssignTarget(lx.lexemes[0].tok).value, chain.value))
                                  else Err(chain.error))
  {
    StatementOfAssignment(reg, lx);
    assert Peek(lx, 2) == Token(lx.lexemes[2].tok);
    assert Peek(lx, 3 + 2 * |names|) == EndOfLine;
    ParseExpressionChain(reg, lx, 2, names);
  }

  /**
   A line `e.n1 ... .nk`, for a one-token primary `e`, auto-assigns the access chain
   to the default variable name of its type.
   */
  lemma ExpressionStatement(reg: Registry, lx: Lexing, names: seq<string>)
    requires lx.error.None? && |lx.lexemes| == 1 + 2 * |names|
    requires PrimaryNode(lx.lexemes[0].tok).Some? && NamesFrom(lx, 1, names)
    ensures var chain := AccessChain(reg, PrimaryNode(lx.lexemes[0].tok).value, names);
      ParseStatement(reg, lx) == (if chain.Ok? then AutoAssign(reg, chain.value) else Err(chain.error))
  {
    assert Peek(lx, 1 + 2 * |names|) == EndOfLine;
    if |names| > 0 {
      assert Peek(lx, 1) == Token(AccessTok);
    }
    StatementOfExpression(reg, lx);
    ParseExpressionChain(reg, lx, 0, names);
  }

  // ---------------------------------------------------------------- lines, lexed and parsed

  /**
   A line of one word: a command word runs that command without parameters (or
   auto-assigns it), a bound variable is auto-assigned to its type's default name,
   and any other word is a syntax error, since a bare word can only start an assignment.
   */
  lemma ParseOneWord(ctx: Context, w: string)
    requires |w| > 0 && !IsDigit(w[0]) && forall i :: 0 <= i < |w| ==> IsWordChar(w[i])
    ensures ctx.commands.Has(w) ==> Parse(ctx, w) == CommandStatementFor(ctx.reg, Cmd(ctx.commands.entries[w], [], false))
    ensures !ctx.commands.Has(w) && ctx.scope.Has(w) ==>
      var t := TypeOf(ctx.scope.entries[w]);
      Parse(ctx, w) == Ok(Assignment(DefaultVarName(t), GetVar(w, t)))
    ensures !ctx.commands.Has(w) && !ctx.scope.Has(w) ==> Parse(ctx, w) == Err(SyntaxError("Syntax error"))
  {
    LexWord(ctx, w);
    var lx := LexAll(ctx, w);
    var tok := WordAction(ctx, w);
    if tok.CommandTok? {
      CommandWithParams(ctx.reg, lx, tok.command, []);
    } else if tok.VariableTok? {
      ExpressionStatement(ctx.reg, lx, []);
      LookupObject(ctx.reg, tok.vtype);
    } else {
      assert Peek(lx, 0) == Token(tok) && Peek(lx, 1) == EndOfLine;
    }
  }

  /**
   A quoted text that does not start with `http` is auto-assigned to `_string`, as a
   String load of the text with its quotes kept, and that load yields exactly that text.
   */
  lemma ParseQuotedString(ctx: Context, s: string, t: Task, external: Body<PyValue>)
    requires forall i :: 0 <= i < |s| ==> s[i] != '"' && s[i] != '\n'
    requires !StartsWith(s, "http")
    ensures var line := "\"" + s + "\"";
      && Parse(ctx, line) == Ok(Assignment("_string", Load(LoadTask(StringType, OwnLoad, line))))
      && LoadRun(t, LoadTask(StringType, OwnLoad, line), external).outcome == Returned(PyVar(StringVar(line, "")))
  {
    var line := "\"" + s + "\"";
    assert line[1..|line| - 1] == s;
    LexQuoted(ctx, s);
    ExpressionStatement(ctx.reg, LexAll(ctx, line), []);
    LookupObject(ctx.reg, StringType);
    StringNames();
  }

  /** A run of digits is auto-assigned to `_integer`, as an Integer load that keeps the digit string. */
  lemma ParseDigits(ctx: Context, d: string, t: Task, external: Body<PyValue>)
    requires |d| > 0 && AllDigits(d)
    ensures Parse(ctx, d) == Ok(Assignment("_integer", Load(LoadTask(IntegerType, OwnLoad, d))))
    ensures LoadRun(t, LoadTask(IntegerType, OwnLoad, d), external).outcome == Returned(PyVar(IntegerVar(Digits(d), "")))
  {
    LexDigits(ctx, d);
    ExpressionStatement(ctx.reg, LexAll(ctx, d), []);
    LookupObject(ctx.reg, IntegerType);
    IntegerNames();
  }
}
