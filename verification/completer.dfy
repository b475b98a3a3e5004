/**
 Tab completion: the line is lexed in the current context and the last token
 decides what to offer.  Unless the line ends in a separator, the last token is
 the word being typed: it is dropped and every suggestion replaces it.
 */
module Completer {
  import opened Text
  import opened Results
  import opened Dicts
  import opened Types
  import opened VariableTasks
  import opened Commands
  import opened Lexer

  /** A suggestion: the text inserted, where it starts relative to the cursor, and its display if not the text. */
  datatype Completion = Completion(text: string, startPosition: int, display: Option<string>)

  /** The registries the completer reads are well-formed ordered dictionaries. */
  ghost predicate Registries(ctx: Context)
  {
    ctx.scope.Valid() && ctx.commands.Valid() && ctx.reg.byPrefix.Valid()
  }

  predicate IsSeparator(c: char)
  {
    c == '.' || c == '=' || c == '(' || c == ' '
  }

  /**
   `not re.search(r'[.=( ]$', text)`: whether the text does not end in a separator;
   `$` also matches just before a final newline.
   */
  function Fix(text: string): (fix: bool)
    ensures !fix <==> ((|text| >= 1 && IsSeparator(text[|text| - 1]))
                       || (|text| >= 2 && text[|text| - 1] == '\n' && IsSeparator(text[|text| - 2])))
  {
    var n := |text|;
    !((n >= 1 && IsSeparator(text[n - 1])) || (n >= 2 && text[n - 1] == '\n' && IsSeparator(text[n - 2])))
  }

  /** The text a token stands for: its value's `bare_word`, or the punctuation itself. */
  function TokenWord(t: Tok): string
  {
    match t
    case BareWordTok(w) => w
    case VariableTok(n, _) => n
    case CommandTok(c) => BareWord(c)
    case LiteralTok(l) => l.argument
    case StringTok(l) => l.argument
    case IntegerTok(l) => l.argument
    case AssignTok => "="
    case AccessTok => "."
    case OpenTok => "("
    case CloseTok => ")"
  }

  function Toks(ls: seq<Lexeme>): (ts: seq<Tok>)
    ensures |ts| == |ls| && forall i :: 0 <= i < |ls| ==> ts[i] == ls[i].tok
  {
    seq(|ls|, i requires 0 <= i < |ls| => ls[i].tok)
  }

  /** Plain suggestions for some words, such as attribute names or a command's arguments. */
  function Words(words: seq<string>, start: int): (cs: seq<Completion>)
    ensures |cs| == |words|
    ensures forall i :: 0 <= i < |words| ==> cs[i] == Completion(words[i], start, None)
  {
    seq(|words|, i requires 0 <= i < |words| => Completion(words[i], start, None))
  }

  function VariableCompletions(scope: Scope, start: int): (cs: seq<Completion>)
    requires scope.Valid()
    ensures |cs| == |scope.keys|
    ensures forall i :: 0 <= i < |cs| ==> cs[i].text == scope.keys[i] && cs[i].startPosition == start
  {
    seq(|scope.keys|, i requires 0 <= i < |scope.keys| =>
      var n := scope.keys[i];
      Completion(n, start, Some(n + " (" + ClassName(TypeOf(scope.entries[n])) + ")")))
  }

  function CommandCompletions(commands: Commands, prefixed: bool, start: int): (cs: seq<Completion>)
    requires commands.Valid()
    ensures |cs| == |commands.keys|
    ensures forall i :: 0 <= i < |cs| ==>
      cs[i].text == (if prefixed then "(" else "") + commands.keys[i] && cs[i].startPosition == start
  {
    seq(|commands.keys|, i requires 0 <= i < |commands.keys| =>
      var n := commands.keys[i];
      var cmd := (if prefixed then "(" else "") + n;
      Completion(cmd, start, Some(cmd + " (" + commands.entries[n].title + ")")))
  }

  function PrefixCompletions(byPrefix: Dict<string, VarType>, start: int): (cs: seq<Completion>)
    requires byPrefix.Valid()
    ensures |cs| == |byPrefix.keys|
    ensures forall i :: 0 <= i < |cs| ==> cs[i].text == byPrefix.keys[i] + "\"\"" && cs[i].startPosition == start
  {
    seq(|byPrefix.keys|, i requires 0 <= i < |byPrefix.keys| =>
      var p := byPrefix.keys[i];
      Completion(p + "\"\"", start, Some(p + "\"\" (" + ClassName(byPrefix.entries[p]) + ")")))
  }

  /**
   `_expressions`: the bound variables, then the commands (opening a sub-command
   with `(` when asked), then an empty literal for every literal prefix.
   */
  function Expressions(ctx: Context, prefixCommands: bool, start: int): (cs: seq<Completion>)
    requires Registries(ctx)
    ensures |cs| == |ctx.scope.keys| + |ctx.commands.keys| + |ctx.reg.byPrefix.keys|
    ensures forall c :: c in cs ==> c.startPosition == start
  {
    VariableCompletions(ctx.scope, start) + CommandCompletions(ctx.commands, prefixCommands, start)
      + PrefixCompletions(ctx.reg.byPrefix, start)
  }

  /** Every bound variable is offered, in binding order, before the commands. */
  lemma OffersVariables(ctx: Context, prefixCommands: bool, start: int, n: string)
    requires Registries(ctx) && ctx.scope.Has(n)
    ensures exists i :: 0 <= i < |ctx.scope.keys| && Expressions(ctx, prefixCommands, start)[i].text == n
  {
    var i :| 0 <= i < |ctx.scope.keys| && ctx.scope.keys[i] == n;
    assert Expressions(ctx, prefixCommands, start)[i] == VariableCompletions(ctx.scope, start)[i];
  }

  /** Every command is offered after the variables, opening a sub-command when asked. */
  lemma OffersCommands(ctx: Context, prefixCommands: bool, start: int, n: string)
    requires Registries(ctx) && ctx.commands.Has(n)
    ensures var nv := |ctx.scope.keys|;
      exists i :: nv <= i < nv + |ctx.commands.keys|
        && Expressions(ctx, prefixCommands, start)[i].text == (if prefixCommands then "(" else "") + n
  {
    var nv := |ctx.scope.keys|;
    var i :| 0 <= i < |ctx.commands.keys| && ctx.commands.keys[i] == n;
    var ms := CommandCompletions(ctx.commands, prefixCommands, start);
    assert Expressions(ctx, prefixCommands, start)[nv + i] == ms[i];
  }

  /** Every literal prefix is offered last, as an empty literal. */
  lemma OffersPrefixes(ctx: Context, prefixCommands: bool, start: int, p: string)
    requires Registries(ctx) && ctx.reg.byPrefix.Has(p)
    ensures var cs := Expressions(ctx, prefixCommands, start);
      exists i :: |ctx.scope.keys| + |ctx.commands.keys| <= i < |cs| && cs[i].text == p + "\"\""
  {
    var nvc := |ctx.scope.keys| + |ctx.commands.keys|;
    var i :| 0 <= i < |ctx.reg.byPrefix.keys| && ctx.reg.byPrefix.keys[i] == p;
    var ps := PrefixCompletions(ctx.reg.byPrefix, start);
    assert Expressions(ctx, prefixCommands, start)[nvc + i] == ps[i];
  }

  /**
   The type whose attributes complete after `x.`: the return type of the token's
   task, when it is a Variable class.  A list type, a bare word, punctuation or a
   command without such a return type has no attribute table to offer.
   */
  function AttributeTable(t: Tok): (r: Option<VarType>)
    ensures r.Some? ==> r.value.Class?
  {
    var rt: Option<VarType> := match t
      case VariableTok(_, vt) => Some(vt)
      case LiteralTok(l) => Some(l.returnType)
      case StringTok(l) => Some(l.returnType)
      case IntegerTok(l) => Some(l.returnType)
      case CommandTok(c) => if c.returnType.Some? && c.returnType.value.TypeObj? then Some(c.returnType.value.t) else None
      case _ => None;
    if rt.Some? && rt.value.Class? then rt else None
  }

  const StartPositionError := AttributeError("'str' object has no attribute 'start_position'")

  /**
   The branches of `_get_completions` after the word being typed was dropped, with
   `after` the remaining tokens and `start` the offset every suggestion gets.  After
   `(` the command names are offered, one per registered command.
   */
  function Suggest(ctx: Context, after: seq<Tok>, start: int): (r: seq<Completion>)
    requires Registries(ctx)
    ensures forall c :: c in r ==> c.startPosition == start
    ensures |after| == 0 ==> r == Expressions(ctx, false, start)
    ensures |after| > 0 && after[|after| - 1] == AssignTok ==> r == Expressions(ctx, true, start)
    ensures |after| > 0 && after[|after| - 1] == OpenTok ==> r == Words(ctx.commands.keys, start)
    ensures |after| > 0 && after[|after| - 1] == AccessTok ==>
      (&& (|after| >= 2 && AttributeTable(after[|after| - 2]).Some? ==>
             r == Words(AttributeTable(after[|after| - 2]).value.attributes.keys, start))
       && (|after| < 2 || AttributeTable(after[|after| - 2]).None? ==> r == []))
    ensures |after| > 0 && after[|after| - 1].CommandTok? ==>
      (var c := after[|after| - 1].command;
       r == if |c.completions| > 0 then Words(c.completions, start) else Expressions(ctx, true, start))
    ensures |after| > 0 && !(after[|after| - 1] in {AssignTok, OpenTok, AccessTok}) && !after[|after| - 1].CommandTok? ==>
      r == if start == 0 && |after| > 1 && after[|after| - 2].CommandTok? then Expressions(ctx, true, start) else []
  {
    if |after| == 0 then Expressions(ctx, false, start)
    else
      var last := after[|after| - 1];
      match last
      case AssignTok => Expressions(ctx, true, start)
      case OpenTok => Words(ctx.commands.keys, start)
      case AccessTok =>
        if |after| >= 2 && AttributeTable(after[|after| - 2]).Some? then
          Words(AttributeTable(after[|after| - 2]).value.attributes.keys, start)
        else []
      case CommandTok(c) =>
        if |c.completions| > 0 then Words(c.completions, start) else Expressions(ctx, true, start)
      case _ =>
        if start == 0 && |after| > 1 && after[|after| - 2].CommandTok? then Expressions(ctx, true, start) else []
  }

  /**
   The branch after `(` as written: the command names are plain strings, and
   `_add_space` sets `start_position` on each, which a string does not have.
   */
  function SuggestAsWritten(ctx: Context, after: seq<Tok>, start: int): (r: Result<seq<Completion>>)
    requires Registries(ctx)
  {
    if |after| > 0 && after[|after| - 1] == OpenTok then
      if |ctx.commands.keys| == 0 then Ok([]) else Err(StartPositionError)
    else Ok(Suggest(ctx, after, start))
  }

  /** The word being typed, if any, and the offset the suggestions replace it from. */
  datatype Typed = Typed(after: seq<Tok>, start: int)

  /**
   The `fix` rule: when the text does not end in a separator, the last token is the
   word being typed; it is dropped and suggestions start that many characters back.
   */
  function TypedWord(text: string, toks: seq<Tok>): (t: Typed)
    ensures t.start <= 0
    ensures Fix(text) && |toks| > 0 ==>
      t.after == toks[..|toks| - 1] && t.start == -|TokenWord(toks[|toks| - 1])|
    ensures !(Fix(text) && |toks| > 0) ==> t.after == toks && t.start == 0
  {
    if |toks| > 0 && Fix(text) then Typed(toks[..|toks| - 1], -|TokenWord(toks[|toks| - 1])|)
    else Typed(toks, 0)
  }

  /**
   `get_completions`: a line that does not lex has no suggestions; otherwise the
   suggestions for the tokens before the word being typed, all placed over that word.
   */
  function Complete(ctx: Context, text: string): (r: seq<Completion>)
    requires Registries(ctx)
    ensures LexAll(ctx, text).error.Some? ==> r == []
    ensures LexAll(ctx, text).error.None? ==>
      var typed := TypedWord(text, Toks(LexAll(ctx, text).lexemes));
      r == Suggest(ctx, typed.after, typed.start)
    ensures forall c :: c in r ==> c.startPosition <= 0
  {
    var lx := LexAll(ctx, text);
    if lx.error.Some? then []
    else
      var typed := TypedWord(text, Toks(lx.lexemes));
      Suggest(ctx, typed.after, typed.start)
  }

  /** `get_completions` as written, failing after `(` while any command is registered. */
  function CompleteAsWritten(ctx: Context, text: string): (r: Result<seq<Completion>>)
    requires Registries(ctx)
  {
    var lx := LexAll(ctx, text);
    if lx.error.Some? then Ok([])
    else
      var typed := TypedWord(text, Toks(lx.lexemes));
      SuggestAsWritten(ctx, typed.after, typed.start)
  }

  /**
   The two agree everywhere except right after `(`, where the written code fails as
   soon as there is a command to offer.
   */
  lemma CommandNamesAfterParenthesis(ctx: Context, after: seq<Tok>, start: int)
    requires Registries(ctx)
    ensures !(|after| > 0 && after[|after| - 1] == OpenTok) ==> SuggestAsWritten(ctx, after, start) == Ok(Suggest(ctx, after, start))
    ensures |after| > 0 && after[|after| - 1] == OpenTok && |ctx.commands.keys| > 0 ==>
      SuggestAsWritten(ctx, after, start) == Err(StartPositionError)
      && |Suggest(ctx, after, start)| == |ctx.commands.keys|
      && forall n :: ctx.commands.Has(n) ==> Completion(n, start, None) in Suggest(ctx, after, start)
  {
    if |after| > 0 && after[|after| - 1] == OpenTok {
      forall n | ctx.commands.Has(n)
        ensures Completion(n, start, None) in Suggest(ctx, after, start)
      {
        var i :| 0 <= i < |ctx.commands.keys| && ctx.commands.keys[i] == n;
        assert Suggest(ctx, after, start)[i] == Completion(n, start, None);
      }
    }
  }

  /** The smallest instance: completing right after `(` fails as written while commands exist. */
  lemma OpeningParenthesis(ctx: Context)
    requires Registries(ctx) && |ctx.commands.keys| > 0
    ensures CompleteAsWritten(ctx, "(") == Err(StartPositionError)
    ensures Complete(ctx, "(") == Words(ctx.commands.keys, 0)
  {
    LexPunct(ctx, '(');
    assert Toks(LexAll(ctx, "(").lexemes) == [OpenTok];
  }

  // ---------------------------------------------------------------- what is offered

  /**
   A text the expression suggestions may offer: a bound variable, a command (opening
   a sub-command or not), or an empty literal of a registered prefix.
   */
  predicate ExpressionText(ctx: Context, s: string)
  {
    || ctx.scope.Has(s)
    || ctx.commands.Has(s)
    || (|s| > 0 && s[0] == '(' && ctx.commands.Has(s[1..]))
    || (|s| >= 2 && s[|s| - 2..] == "\"\"" && ctx.reg.byPrefix.Has(s[..|s| - 2]))
  }

  /** A text a token of the line offers: an attribute of its type, or one of its command's arguments. */
  predicate TokenOffers(t: Tok, s: string)
  {
    || (AttributeTable(t).Some? && s in AttributeTable(t).value.attributes.keys)
    || (t.CommandTok? && s in t.command.completions)
  }

  /** Every expression suggestion names something registered. */
  lemma ExpressionsSound(ctx: Context, prefixCommands: bool, start: int)
    requires Registries(ctx)
    ensures forall c :: c in Expressions(ctx, prefixCommands, start) ==> ExpressionText(ctx, c.text)
  {
    var vs := VariableCompletions(ctx.scope, start);
    var ms := CommandCompletions(ctx.commands, prefixCommands, start);
    var ps := PrefixCompletions(ctx.reg.byPrefix, start);
    assert Expressions(ctx, prefixCommands, start) == vs + ms + ps;
    VariablesSound(ctx, start);
    CommandsSound(ctx, prefixCommands, start);
    PrefixesSound(ctx, start);
  }

  lemma VariablesSound(ctx: Context, start: int)
    requires Registries(ctx)
    ensures forall c :: c in VariableCompletions(ctx.scope, start) ==> ExpressionText(ctx, c.text)
  {
    var vs := VariableCompletions(ctx.scope, start);
    forall c: Completion | c in vs ensures ctx.scope.Has(c.text) {
      var i :| 0 <= i < |vs| && vs[i] == c;
      assert ctx.scope.keys[i] in ctx.scope.keys;
    }
  }

  lemma CommandsSound(ctx: Context, prefixCommands: bool, start: int)
    requires Registries(ctx)
    ensures forall c :: c in CommandCompletions(ctx.commands, prefixCommands, start) ==> ExpressionText(ctx, c.text)
  {
    var ms := CommandCompletions(ctx.commands, prefixCommands, start);
    forall c: Completion | c in ms ensures ExpressionText(ctx, c.text) {
      var i :| 0 <= i < |ms| && ms[i] == c;
      var n := ctx.commands.keys[i];
      assert n in ctx.commands.keys;
      assert ctx.commands.Has(n);
      if prefixCommands {
        assert c.text == "(" + n;
        assert c.text[0] == '(' && c.text[1..] == n;
      } else {
        assert c.text == n;
      }
    }
  }

  lemma PrefixesSound(ctx: Context, start: int)
    requires Registries(ctx)
    ensures forall c :: c in PrefixCompletions(ctx.reg.byPrefix, start) ==> ExpressionText(ctx, c.text)
  {
    var ps := PrefixCompletions(ctx.reg.byPrefix, start);
    forall c: Completion | c in ps ensures ExpressionText(ctx, c.text) {
      var i :| 0 <= i < |ps| && ps[i] == c;
      var p := ctx.reg.byPrefix.keys[i];
      assert p in ctx.reg.byPrefix.keys;
      var s := p + "\"\"";
      assert c.text == s;
      assert s[..|s| - 2] == p && s[|s| - 2..] == "\"\"";
    }
  }

  /**
   Every suggestion for the tokens `after` names something registered, or is offered
   by one of those tokens.
   */
  lemma SuggestSound(ctx: Context, after: seq<Tok>, start: int)
    requires Registries(ctx)
    ensures forall c :: c in Suggest(ctx, after, start) ==>
      ExpressionText(ctx, c.text) || exists t :: t in after && TokenOffers(t, c.text)
  {
    ExpressionsSound(ctx, false, start);
    ExpressionsSound(ctx, true, start);
    if |after| > 0 {
      var last := after[|after| - 1];
      var r := Suggest(ctx, after, start);
      forall c: Completion | c in r ensures ExpressionText(ctx, c.text) || exists t :: t in after && TokenOffers(t, c.text) {
        if last == OpenTok {
          var i :| 0 <= i < |r| && r[i] == c;
          assert ctx.commands.keys[i] in ctx.commands.keys;
        } else if last == AccessTok {
          var prev := after[|after| - 2];
          var i :| 0 <= i < |r| && r[i] == c;
          assert c.text in AttributeTable(prev).value.attributes.keys;
          assert TokenOffers(prev, c.text);
        } else if last.CommandTok? && |last.command.completions| > 0 {
          var i :| 0 <= i < |r| && r[i] == c;
          assert c.text in last.command.completions;
          assert TokenOffers(last, c.text);
        }
      }
    }
  }

  /**
   Soundness of completion: every suggestion is placed over the word being typed (or
   at the cursor), and names a bound variable, a command or a literal prefix, or an
   attribute or argument offered by a token of the line.
   */
  lemma CompleteSound(ctx: Context, text: string)
    requires Registries(ctx)
    ensures forall c :: c in Complete(ctx, text) ==>
      && c.startPosition <= 0
      && (|| ExpressionText(ctx, c.text)
          || exists t :: t in Toks(LexAll(ctx, text).lexemes) && TokenOffers(t, c.text))
  {
    var lx := LexAll(ctx, text);
    if lx.error.None? {
      var toks := Toks(lx.lexemes);
      var typed := TypedWord(text, toks);
      SuggestSound(ctx, typed.after, typed.start);
      assert forall t :: t in typed.after ==> t in toks;
    }
  }

  /**
   While typing a word at the start of a line, every variable, command and literal
   prefix is offered in place of what was typed so far, whatever the word is.
   */
  lemma CompleteWord(ctx: Context, w: string)
    requires Registries(ctx) && Keyed(ctx.commands)
    requires |w| > 0 && !IsDigit(w[0]) && forall i :: 0 <= i < |w| ==> IsWordChar(w[i])
    ensures Complete(ctx, w) == Expressions(ctx, false, -|w|)
  {
    WordToks(ctx, w);
    TypingWord(ctx, w);
    var typed := TypedWord(w, Toks(LexAll(ctx, w).lexemes));
    assert typed.after == [] && typed.start == -|w|;
    assert Complete(ctx, w) == Suggest(ctx, [], -|w|);
  }

  lemma WordToks(ctx: Context, w: string)
    requires |w| > 0 && !IsDigit(w[0]) && forall i :: 0 <= i < |w| ==> IsWordChar(w[i])
    ensures LexAll(ctx, w).error.None? && Toks(LexAll(ctx, w).lexemes) == [WordAction(ctx, w)]
  {
    LexWord(ctx, w);
  }

  /** A word being typed is dropped, and suggestions start its length back. */
  lemma TypingWord(ctx: Context, w: string)
    requires Keyed(ctx.commands)
    requires |w| > 0 && forall i :: 0 <= i < |w| ==> IsWordChar(w[i])
    ensures TypedWord(w, [WordAction(ctx, w)]) == Typed([], -|w|)
  {
    assert Fix(w) by {
      assert IsWordChar(w[|w| - 1]);
    }
    assert TokenWord(WordAction(ctx, w)) == w;
  }

  /**
   After `x.` the attributes of `x`'s type are offered, in declaration order; a word
   whose type has no attribute table (a list, a bare word, a command returning no
   class) gets nothing.
   */
  lemma AttributesAfterDot(ctx: Context, x: string)
    requires Registries(ctx)
    requires |x| > 0 && !IsDigit(x[0]) && forall i :: 0 <= i < |x| ==> IsWordChar(x[i])
    ensures Complete(ctx, x + ".") == match AttributeTable(WordAction(ctx, x))
      case Some(t) => Words(t.attributes.keys, 0)
      case None => []
    ensures !ctx.commands.Has(x) && ctx.scope.Has(x) && TypeOf(ctx.scope.entries[x]).Class? ==>
      Complete(ctx, x + ".") == Words(TypeOf(ctx.scope.entries[x]).attributes.keys, 0)
  {
    LexWordDot(ctx, x);
    var toks := Toks(LexAll(ctx, x + ".").lexemes);
    assert toks == [WordAction(ctx, x), AccessTok];
    assert !Fix(x + ".") by {
      assert (x + ".")[|x|] == '.';
    }
  }
}
