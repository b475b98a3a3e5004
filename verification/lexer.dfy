/**
 The command-line lexer.  At each position spaces and tabs are skipped, then the token
 rules are tried in their definition order (literal, link, string, bare word, integer),
 then the one-character literals `= . ( )`; anything else is an illegal character.
 The lexer is context-sensitive: a word is a command, a bound variable or a bare word
 depending on the registries, and literals become load tasks.  Regular-expression
 classes (`\w`, `\d`) are taken over ASCII.
 */
module Lexer {
  import opened Text
  import opened Results
  import opened Dicts
  import opened Tasks
  import opened Types
  import opened VariableTasks
  import opened Links
  import opened Commands

  /** What the token actions consult: types, link classes, commands and bound variables. */
  datatype Context = Context(reg: Registry, links: seq<LinkClass>, commands: Commands, scope: Scope)

  /** A token and its value, as the parser receives it. */
  datatype Tok =
    | BareWordTok(word: string)
    | VariableTok(name: string, vtype: VarType)   // a `GetVariableTask`
    | CommandTok(command: CommandClass)
    | LiteralTok(load: LoadTask)                  // a prefixed literal or a link
    | StringTok(load: LoadTask)
    | IntegerTok(load: LoadTask)
    | AssignTok
    | AccessTok
    | OpenTok
    | CloseTok

  /** A token with the text from the end of the previous token to its own end. */
  datatype Lexeme = Lexeme(tok: Tok, text: string)

  /**
   The tokens of a line up to the first lexing error: `end` is where the last token
   ended and `error` what stopped the lexer, if anything did.
   */
  datatype Lexing = Lexing(lexemes: seq<Lexeme>, end: nat, error: Option<PyError>)

  // ---------------------------------------------------------------- character classes

  predicate IsIgnored(c: char) { c == ' ' || c == '\t' }

  /** The characters of a URL after `://`: `[-\w/?&=%.#:]`. */
  predicate IsLinkChar(c: char)
  {
    c == '-' || IsWordChar(c) || c == '/' || c == '?' || c == '&' || c == '=' || c == '%' || c == '.' || c == '#' || c == ':'
  }

  predicate IsPunct(c: char) { c == '=' || c == '.' || c == '(' || c == ')' }

  /** The end of the longest run of characters satisfying `inRun` starting at `p`. */
  function RunEnd(line: string, p: nat, inRun: char -> bool): (q: nat)
    requires p <= |line|
    ensures p <= q <= |line|
    ensures forall i :: p <= i < q ==> inRun(line[i])
    ensures q == |line| || !inRun(line[q])
    decreases |line| - p
  {
    if p == |line| || !inRun(line[p]) then p else RunEnd(line, p + 1, inRun)
  }

  function SkipIgnored(line: string, p: nat): (q: nat)
    requires p <= |line|
    ensures p <= q <= |line|
    ensures forall i :: p <= i < q ==> IsIgnored(line[i])
    ensures q == |line| || !IsIgnored(line[q])
  {
    RunEnd(line, p, IsIgnored)
  }

  /** `.*?"` from `p`: the first quote with no newline before it (`.` does not match a newline). */
  function QuoteAt(line: string, p: nat): (r: Option<nat>)
    requires p <= |line|
    ensures r.Some? ==> p <= r.value < |line| && line[r.value] == '"'
    ensures r.Some? ==> forall i :: p <= i < r.value ==> line[i] != '"' && line[i] != '\n'
    ensures r.None? ==> forall i :: p <= i < |line| && line[i] == '"' ==> exists j :: p <= j < i && line[j] == '\n'
    decreases |line| - p
  {
    if p == |line| || line[p] == '\n' then None
    else if line[p] == '"' then Some(p)
    else QuoteAt(line, p + 1)
  }

  // ---------------------------------------------------------------- token rules

  /** `\w+".*?"`: the word run must end at the opening quote. */
  function MatchLiteral(line: string, p: nat): (r: Option<nat>)
    requires p <= |line|
    ensures r.Some? ==> p < r.value <= |line|
  {
    var k := RunEnd(line, p, IsWordChar);
    if k == p || k == |line| || line[k] != '"' then None
    else match QuoteAt(line, k + 1)
      case Some(q) => Some(q + 1)
      case None => None
  }

  /** `[a-z]+://[-\w/?&=%.#:]*`. */
  function MatchLink(line: string, p: nat): (r: Option<nat>)
    requires p <= |line|
    ensures r.Some? ==> p < r.value <= |line|
  {
    var k := RunEnd(line, p, IsLower);
    if k > p && StartsWith(line[k..], "://") then Some(RunEnd(line, k + 3, IsLinkChar)) else None
  }

  /** `".*?"`. */
  function MatchString(line: string, p: nat): (r: Option<nat>)
    requires p <= |line|
    ensures r.Some? ==> p < r.value <= |line|
  {
    if p < |line| && line[p] == '"' then
      match QuoteAt(line, p + 1)
      case Some(q) => Some(q + 1)
      case None => None
    else None
  }

  /** `[^\W\d]\w*`. */
  function MatchBareWord(line: string, p: nat): (r: Option<nat>)
    requires p <= |line|
    ensures r.Some? ==> p < r.value <= |line|
  {
    if p < |line| && IsWordChar(line[p]) && !IsDigit(line[p]) then Some(RunEnd(line, p, IsWordChar)) else None
  }

  /** `\d+`. */
  function MatchInteger(line: string, p: nat): (r: Option<nat>)
    requires p <= |line|
    ensures r.Some? ==> p < r.value <= |line|
  {
    if p < |line| && IsDigit(line[p]) then Some(RunEnd(line, p, IsDigit)) else None
  }

  // ---------------------------------------------------------------- token actions

  /**
   `Variable["Link"].load_task(url)`: the class registered as `Link` dispatches the URL to
   the first link class that claims it.
   */
  function LinkLiteral(ctx: Context, url: string): (r: Result<Tok>)
    ensures !ctx.reg.byClassName.Has("Link") ==> r == Err(KeyError("Link"))
    ensures ctx.reg.byClassName.Has("Link") ==>
      (&& (r.Ok? <==> LinkLoadTask(ctx.reg, ctx.links, url).Ok?)
       && (r.Ok? ==> r.value == LiteralTok(LinkLoadTask(ctx.reg, ctx.links, url).value))
       && (r.Err? ==> r.error == LinkLoadTask(ctx.reg, ctx.links, url).error))
  {
    if !ctx.reg.byClassName.Has("Link") then Err(KeyError("Link"))
    else
      var l :- LinkLoadTask(ctx.reg, ctx.links, url);
      Ok(LiteralTok(l))
  }

  /**
   `t_LITERAL`: the class registered for the prefix loads the payload; an unknown prefix,
   or any KeyError while building the load task, is reported as an unknown prefix.  A
   class whose `load_task` is `Link.load_task` hands the payload to the link class that
   claims it, whatever the class is named.
   */
  function LiteralAction(ctx: Context, prefix: string, payload: string): (r: Result<Tok>)
    ensures !ctx.reg.byPrefix.Has(prefix) ==> r == Err(KeyError("Unknown literal prefix " + prefix))
    ensures r.Ok? ==> (r.value.LiteralTok? && r.value.load.argument == payload
      && ctx.reg.byPrefix.Has(prefix))
    ensures r.Ok? && !(ctx.reg.byPrefix.entries[prefix].Class? && ctx.reg.byPrefix.entries[prefix].linkLoader) ==>
      r.value.load == LoadTask(ctx.reg.byPrefix.entries[prefix], OwnLoad, payload)
    ensures ctx.reg.byPrefix.Has(prefix) && ctx.reg.byPrefix.entries[prefix].Class? && ctx.reg.byPrefix.entries[prefix].linkLoader ==>
      r == match LinkLoadTask(ctx.reg, ctx.links, payload)
           case Ok(l) => Ok(LiteralTok(l))
           case Err(KeyError(_)) => Err(KeyError("Unknown literal prefix " + prefix))
           case Err(e) => Err(e)
  {
    if !ctx.reg.byPrefix.Has(prefix) then Err(KeyError("Unknown literal prefix " + prefix))
    else
      var t := ctx.reg.byPrefix.entries[prefix];
      if t.Class? && t.linkLoader then
        match LinkLoadTask(ctx.reg, ctx.links, payload)
        case Ok(l) => Ok(LiteralTok(l))
        case Err(KeyError(_)) => Err(KeyError("Unknown literal prefix " + prefix))
        case Err(e) => Err(e)
      else Ok(LiteralTok(ClassLoadTask(t, payload)))
  }

  /**
   A subclass of `Link` inherits both its prefix and `Link.load_task`.  Registering one
   takes the prefix over, and a literal under that prefix is still handed to the link
   class that claims the payload: never loaded as the subclass itself.
   */
  lemma LinkSubclassLiteral(ctx: Context, d: VariableDecl, payload: string)
    requires d.prefix.Some? && d.linkLoader
    ensures var c := ctx.(reg := Register(ctx.reg, d));
      var r := LiteralAction(c, d.prefix.value, payload);
      && c.reg.byPrefix.entries[d.prefix.value] == DeclaredType(d)
      && (r.Ok? ==> r.value.load.loader.LinkLoad?)
      && (LinkLoadTask(c.reg, c.links, payload).Ok? ==> r == Ok(LiteralTok(LinkLoadTask(c.reg, c.links, payload).value)))
  {
    var c := ctx.(reg := Register(ctx.reg, d));
    var m := LinkType(c.links, payload);
    if m.Ok? {
      assert LinkLoadTask(c.reg, c.links, payload) == NewLoadTask(c.reg, m.value.returnType, LinkLoad(c.links[m.value.index].name), payload);
    }
  }

  /** `t_STRING`: a quoted URL starting with `http` is a link; any other string keeps its quotes. */
  function StringAction(ctx: Context, text: string): (r: Result<Tok>)
    requires |text| >= 2
    ensures StartsWith(text[1..|text| - 1], "http") ==> r == LinkLiteral(ctx, text[1..|text| - 1])
    ensures !StartsWith(text[1..|text| - 1], "http") ==> r == Ok(StringTok(LoadTask(StringType, OwnLoad, text)))
  {
    var inner := text[1..|text| - 1];
    if StartsWith(inner, "http") then LinkLiteral(ctx, inner)
    else Ok(StringTok(ClassLoadTask(StringType, text)))
  }

  /** `t_BARE_WORD`: a command name wins over a bound variable, which wins over a bare word. */
  function WordAction(ctx: Context, w: string): (r: Tok)
    ensures r.CommandTok? <==> ctx.commands.Has(w)
    ensures r.VariableTok? <==> !ctx.commands.Has(w) && ctx.scope.Has(w)
    ensures r.BareWordTok? <==> !ctx.commands.Has(w) && !ctx.scope.Has(w)
    ensures r.CommandTok? ==> r.command == ctx.commands.entries[w] && BareWord(r.command) == ctx.commands.entries[w].command
    ensures r.VariableTok? ==> r.name == w && r.vtype == TypeOf(ctx.scope.entries[w])
    ensures r.BareWordTok? ==> r.word == w
  {
    if ctx.commands.Has(w) then CommandTok(ctx.commands.entries[w])
    else if ctx.scope.Has(w) then VariableTok(w, TypeOf(ctx.scope.entries[w]))
    else BareWordTok(w)
  }

  function PunctTok(c: char): Tok
    requires IsPunct(c)
  {
    if c == '=' then AssignTok else if c == '.' then AccessTok else if c == '(' then OpenTok else CloseTok
  }

  /** The token starting at `p` (not an ignored character) and where it ends. */
  function NextToken(ctx: Context, line: string, p: nat): (r: Result<(Tok, nat)>)
    requires p < |line|
    ensures r.Ok? ==> p < r.value.1 <= |line|
  {
    var lit := MatchLiteral(line, p);
    var link := MatchLink(line, p);
    var str := MatchString(line, p);
    var word := MatchBareWord(line, p);
    var digits := MatchInteger(line, p);
    if lit.Some? then
      var k := RunEnd(line, p, IsWordChar);
      var t :- LiteralAction(ctx, line[p..k], line[k + 1..lit.value - 1]);
      Ok((t, lit.value))
    else if link.Some? then
      var t :- LinkLiteral(ctx, line[p..link.value]);
      Ok((t, link.value))
    else if str.Some? then
      var t :- StringAction(ctx, line[p..str.value]);
      Ok((t, str.value))
    else if word.Some? then
      Ok((WordAction(ctx, line[p..word.value]), word.value))
    else if digits.Some? then
      Ok((IntegerTok(ClassLoadTask(IntegerType, line[p..digits.value])), digits.value))
    else if IsPunct(line[p]) then
      Ok((PunctTok(line[p]), p + 1))
    else
      Err(SyntaxError("Illegal character '" + [line[p]] + "'"))
  }

  function Texts(ls: seq<Lexeme>): string
  {
    if |ls| == 0 then "" else ls[0].text + Texts(ls[1..])
  }

  /**
   Lexing from `pos`: every character up to `end` belongs to exactly one lexeme, in
   order; without an error only ignored characters follow `end`, and with one the
   lexer stopped at a character that is not ignored.
   */
  function LexFrom(ctx: Context, line: string, pos: nat): (r: Lexing)
    requires pos <= |line|
    ensures pos <= r.end <= |line|
    ensures Texts(r.lexemes) == line[pos..r.end]
    ensures r.error.None? ==> forall i :: r.end <= i < |line| ==> IsIgnored(line[i])
    ensures r.error.Some? ==> SkipIgnored(line, r.end) < |line|
    ensures forall i :: 0 <= i < |r.lexemes| ==> r.lexemes[i].text != ""
    decreases |line| - pos
  {
    var p := SkipIgnored(line, pos);
    if p == |line| then Lexing([], pos, None)
    else
      var next := NextToken(ctx, line, p);
      if next.Err? then Lexing([], pos, Some(next.error))
      else
        var e := next.value.1;
        var rest := LexFrom(ctx, line, e);
        SliceConcat(line, pos, e, rest.end);
        Lexing([Lexeme(next.value.0, line[pos..e])] + rest.lexemes, rest.end, rest.error)
  }

  lemma SliceConcat(line: string, i: nat, j: nat, k: nat)
    requires i <= j <= k <= |line|
    ensures line[i..j] + line[j..k] == line[i..k]
  {
  }

  /** Lexing a whole line. */
  function LexAll(ctx: Context, line: string): (r: Lexing)
    ensures r.end <= |line| && Texts(r.lexemes) == line[..r.end]
  {
    LexFrom(ctx, line, 0)
  }

  /** A line that is a single word lexes to that word, classified by `WordAction`. */
  lemma LexWord(ctx: Context, w: string)
    requires |w| > 0 && !IsDigit(w[0]) && forall i :: 0 <= i < |w| ==> IsWordChar(w[i])
    ensures LexAll(ctx, w) == Lexing([Lexeme(WordAction(ctx, w), w)], |w|, None)
  {
    assert SkipIgnored(w, 0) == 0;
    assert RunEnd(w, 0, IsWordChar) == |w|;
    assert MatchLink(w, 0).None?;
    assert w[0..|w|] == w;
    assert LexFrom(ctx, w, |w|) == Lexing([], |w|, None);
  }

  /** A line of digits lexes to an Integer load task carrying the digit string. */
  lemma LexDigits(ctx: Context, d: string)
    requires |d| > 0 && AllDigits(d)
    ensures LexAll(ctx, d) == Lexing([Lexeme(IntegerTok(LoadTask(IntegerType, OwnLoad, d)), d)], |d|, None)
  {
    assert forall i :: 0 <= i < |d| ==> IsDigit(d[i]);
    assert SkipIgnored(d, 0) == 0;
    assert RunEnd(d, 0, IsWordChar) == |d|;
    assert RunEnd(d, 0, IsLower) == 0;
    assert RunEnd(d, 0, IsDigit) == |d|;
    assert d[0..|d|] == d;
    assert LexFrom(ctx, d, |d|) == Lexing([], |d|, None);
  }

  /** A line whose first token spans all of it lexes to that one token, or fails with its error. */
  lemma LexWhole(ctx: Context, line: string)
    requires |line| > 0 && !IsIgnored(line[0])
    requires NextToken(ctx, line, 0).Ok? ==> NextToken(ctx, line, 0).value.1 == |line|
    ensures LexAll(ctx, line) == match NextToken(ctx, line, 0)
      case Ok(t) => Lexing([Lexeme(t.0, line)], |line|, None)
      case Err(e) => Lexing([], 0, Some(e))
  {
    assert SkipIgnored(line, 0) == 0;
    assert line[0..|line|] == line;
    assert LexFrom(ctx, line, |line|) == Lexing([], |line|, None);
  }

  /** The token a quoted string starts with. */
  lemma QuotedToken(ctx: Context, s: string)
    requires forall i :: 0 <= i < |s| ==> s[i] != '"' && s[i] != '\n'
    ensures var line := "\"" + s + "\"";
      NextToken(ctx, line, 0) == match StringAction(ctx, line)
        case Ok(t) => Ok((t, |line|))
        case Err(e) => Err(e)
  {
    var line := "\"" + s + "\"";
    QuotedMatch(s);
    assert line[0..|line|] == line;
  }

  /** Of the token rules, only the string rule matches a quoted string, and it takes all of it. */
  lemma QuotedMatch(s: string)
    requires forall i :: 0 <= i < |s| ==> s[i] != '"' && s[i] != '\n'
    ensures var line := "\"" + s + "\"";
      MatchLiteral(line, 0).None? && MatchLink(line, 0).None? && MatchString(line, 0) == Some(|line|)
  {
    var line := "\"" + s + "\"";
    assert RunEnd(line, 0, IsWordChar) == 0;
    assert RunEnd(line, 0, IsLower) == 0;
    assert QuoteAt(line, 1) == Some(|line| - 1) by {
      assert forall i :: 1 <= i < |line| - 1 ==> line[i] == s[i - 1];
      QuoteAtFirst(line, 1, |line| - 1);
    }
  }

  /**
   A line that is one quoted string lexes to what `StringAction` makes of it (a link or
   a String keeping its quotes), or fails with its error.
   */
  lemma LexQuoted(ctx: Context, s: string)
    requires forall i :: 0 <= i < |s| ==> s[i] != '"' && s[i] != '\n'
    ensures var line := "\"" + s + "\"";
      LexAll(ctx, line) == match StringAction(ctx, line)
        case Ok(t) => Lexing([Lexeme(t, line)], |line|, None)
        case Err(e) => Lexing([], 0, Some(e))
  {
    QuotedToken(ctx, s);
    LexWhole(ctx, "\"" + s + "\"");
  }

  /**
   A line `prefix"payload"` lexes to what `LiteralAction` makes of the prefix and the
   payload, or fails with its error.
   */
  lemma LexLiteral(ctx: Context, prefix: string, payload: string)
    requires |prefix| > 0 && forall i :: 0 <= i < |prefix| ==> IsWordChar(prefix[i])
    requires forall i :: 0 <= i < |payload| ==> payload[i] != '"' && payload[i] != '\n'
    ensures var line := prefix + "\"" + payload + "\"";
      LexAll(ctx, line) == match LiteralAction(ctx, prefix, payload)
        case Ok(t) => Lexing([Lexeme(t, line)], |line|, None)
        case Err(e) => Lexing([], 0, Some(e))
  {
    var line := prefix + "\"" + payload + "\"";
    LiteralMatch(prefix, payload);
    assert SkipIgnored(line, 0) == 0 by { assert !IsIgnored(line[0]); }
    assert line[0..|line|] == line;
    assert LexFrom(ctx, line, |line|) == Lexing([], |line|, None);
  }

  lemma LiteralMatch(prefix: string, payload: string)
    requires |prefix| > 0 && forall i :: 0 <= i < |prefix| ==> IsWordChar(prefix[i])
    requires forall i :: 0 <= i < |payload| ==> payload[i] != '"' && payload[i] != '\n'
    ensures var line := prefix + "\"" + payload + "\"";
      && MatchLiteral(line, 0) == Some(|line|)
      && RunEnd(line, 0, IsWordChar) == |prefix|
      && line[0..|prefix|] == prefix && line[|prefix| + 1..|line| - 1] == payload
  {
    var line := prefix + "\"" + payload + "\"";
    var k := |prefix|;
    assert forall i :: 0 <= i < k ==> line[i] == prefix[i];
    assert line[k] == '"';
    RunEndStops(line, 0, k, IsWordChar);
    assert forall i :: k + 1 <= i < |line| - 1 ==> line[i] == payload[i - k - 1];
    QuoteAtFirst(line, k + 1, |line| - 1);
    assert line[0..k] == prefix && line[k + 1..|line| - 1] == payload;
  }

  /** Any character no rule accepts stops the lexer with "Illegal character". */
  lemma LexIllegal(ctx: Context, c: char, rest: string)
    requires !IsIgnored(c) && !IsWordChar(c) && c != '"' && !IsPunct(c)
    ensures LexAll(ctx, [c] + rest) == Lexing([], 0, Some(SyntaxError("Illegal character '" + [c] + "'")))
  {
    var line := [c] + rest;
    assert line[0] == c;
    assert SkipIgnored(line, 0) == 0;
    assert RunEnd(line, 0, IsWordChar) == 0;
    assert RunEnd(line, 0, IsLower) == 0;
    assert [line[0]] == [c];
  }

  /** A line holding one punctuation character is that one token. */
  lemma LexPunct(ctx: Context, c: char)
    requires IsPunct(c)
    ensures LexAll(ctx, [c]) == Lexing([Lexeme(PunctTok(c), [c])], 1, None)
  {
    var line := [c];
    assert SkipIgnored(line, 0) == 0;
    assert RunEnd(line, 0, IsWordChar) == 0;
    assert RunEnd(line, 0, IsLower) == 0;
    assert NextToken(ctx, line, 0) == Ok((PunctTok(c), 1));
    assert line[0..1] == [c];
    assert LexFrom(ctx, line, 1) == Lexing([], 1, None);
  }

  lemma {:induction false} RunEndStops(line: string, p: nat, k: nat, inRun: char -> bool)
    requires p <= k < |line| && !inRun(line[k])
    requires forall i :: p <= i < k ==> inRun(line[i])
    ensures RunEnd(line, p, inRun) == k
    decreases k - p
  {
    if p < k {
      RunEndStops(line, p + 1, k, inRun);
    }
  }

  lemma {:induction false} QuoteAtFirst(line: string, p: nat, q: nat)
    requires p <= q < |line| && line[q] == '"'
    requires forall i :: p <= i < q ==> line[i] != '"' && line[i] != '\n'
    ensures QuoteAt(line, p) == Some(q)
    decreases q - p
  {
    if p < q {
      QuoteAtFirst(line, p + 1, q);
    }
  }

  /**
   Once a link class that claims a URL is registered, and no earlier class claims it,
   the URL lexes to a literal loaded by that class with the type it claims.
   */
  lemma RegisteredLinkLexes(ctx: Context, c: LinkClass, url: string)
    requires ctx.reg.byClassName.Has("Link")
    requires forall j :: 0 <= j < |ctx.links| ==> !Claims(ctx.links[j], url)
    requires c.claim(url).Some? && Lookup(ctx.reg, c.claim(url).value).Ok?
    ensures LinkLiteral(ctx.(links := RegisterLink(ctx.links, c).0), url)
      == Ok(LiteralTok(LoadTask(Lookup(ctx.reg, c.claim(url).value).value, LinkLoad(c.name), url)))
  {
    var links := RegisterLink(ctx.links, c).0;
    assert links[|ctx.links|] == c;
    assert LinkType(links, url).Ok?;
    assert LinkType(links, url).value.index == |ctx.links|;
  }

  /** A word followed by `.` lexes to that word and an access token. */
  lemma LexWordDot(ctx: Context, w: string)
    requires |w| > 0 && !IsDigit(w[0]) && forall i :: 0 <= i < |w| ==> IsWordChar(w[i])
    ensures LexAll(ctx, w + ".") == Lexing([Lexeme(WordAction(ctx, w), w), Lexeme(AccessTok, ".")], |w| + 1, None)
  {
    var line := w + ".";
    assert line[0..|w|] == w;
    assert line[|w|..|w| + 1] == ".";
    DotLexes(ctx, line, |w|);
    WordBeforeDot(ctx, w);
    assert SkipIgnored(line, 0) == 0;
  }

  /** A `.` that ends the line lexes to one access token. */
  lemma DotLexes(ctx: Context, line: string, p: nat)
    requires p + 1 == |line| && line[p] == '.'
    ensures LexFrom(ctx, line, p) == Lexing([Lexeme(AccessTok, line[p..p + 1])], p + 1, None)
  {
    assert SkipIgnored(line, p) == p;
    assert RunEnd(line, p, IsWordChar) == p;
    assert RunEnd(line, p, IsLower) == p;
    assert NextToken(ctx, line, p) == Ok((AccessTok, p + 1));
    assert LexFrom(ctx, line, p + 1) == Lexing([], p + 1, None);
  }

  /** The first token of `w.` is the word `w`. */
  lemma WordBeforeDot(ctx: Context, w: string)
    requires |w| > 0 && !IsDigit(w[0]) && forall i :: 0 <= i < |w| ==> IsWordChar(w[i])
    ensures NextToken(ctx, w + ".", 0) == Ok((WordAction(ctx, w), |w|))
  {
    var line := w + ".";
    assert forall i :: 0 <= i < |w| ==> line[i] == w[i];
    assert line[0..|w|] == w;
    assert RunEnd(line, 0, IsWordChar) == |w| by {
      RunEndStops(line, 0, |w|, IsWordChar);
    }
    assert MatchLiteral(line, 0).None?;
    assert MatchLink(line, 0).None? by {
      var k := RunEnd(line, 0, IsLower);
      assert k <= |w|;
      if k < |w| {
        assert line[k..][0] == line[k];
      } else {
        assert line[k..] == ".";
      }
    }
  }
}

module Highlight {
  import opened Text
  import opened Results
  import opened Tasks
  import opened Types
  import opened VariableTasks
  import opened Lexer

  function KindOf(t: Tok): LexKind
  {
    match t
    case BareWordTok(_) => BareWordKind
    case VariableTok(_, _) => VariableKind
    case CommandTok(_) => CommandKind
    case LiteralTok(_) => LiteralKind
    case StringTok(_) => StringKind
    case IntegerTok(_) => IntegerKind
    case AssignTok => AssignKind
    case AccessTok => AccessKind
    case OpenTok => StartSubCommandKind
    case CloseTok => EndSubCommandKind
  }

  /** The characters a token line shows (a status glyph shows none of the line's text). */
  function TokensText(ts: seq<Token>): string
  {
    if |ts| == 0 then ""
    else
      var head := match ts[0] case Plain(s) => s case Lexed(_, s) => s case StatusGlyph(_) => "";
      head + TokensText(ts[1..])
  }

  lemma {:induction false} TokensTextAppend(a: seq<Token>, b: seq<Token>)
    ensures TokensText(a + b) == TokensText(a) + TokensText(b)
    decreases |a|
  {
    if |a| == 0 {
      assert a + b == b;
    } else {
      assert (a + b)[1..] == a[1..] + b;
      TokensTextAppend(a[1..], b);
    }
  }

  /** Each lexeme as a highlighted token of its own kind and text. */
  function LexemeTokens(ls: seq<Lexeme>): (r: seq<Token>)
    ensures |r| == |ls|
    ensures forall i :: 0 <= i < |ls| ==> r[i] == Lexed(KindOf(ls[i].tok), ls[i].text)
  {
    seq(|ls|, i requires 0 <= i < |ls| => Lexed(KindOf(ls[i].tok), ls[i].text))
  }

  lemma {:induction false} LexemeTokensText(ls: seq<Lexeme>)
    ensures TokensText(LexemeTokens(ls)) == Texts(ls)
    decreases |ls|
  {
    if |ls| > 0 {
      assert LexemeTokens(ls)[1..] == LexemeTokens(ls[1..]);
      LexemeTokensText(ls[1..]);
    }
  }

  /** The tokens added when the lexer stops on an error: the rest of the line, and the message if asked for. */
  function ErrorTokens(lx: Lexing, line: string, showErrors: bool): seq<Token>
    requires lx.end <= |line|
  {
    match lx.error
    case None => []
    case Some(e) =>
      [Lexed(ErrorKind, line[lx.end..])] + (if showErrors then [Lexed(InterTokenKind, " (" + ExcStr(e) + ")")] else [])
  }

  /**
   `lex_cmdline` as written: after an error token holding the rest of the line, the
   `pos < len(cmdline)` branch appends that same rest again as an inter-token.
   */
  function LexCmdlineAsWritten(ctx: Context, line: string, showErrors: bool): seq<Token>
  {
    ShownAsWritten(LexAll(ctx, line), line, showErrors)
  }

  /** The tokens `lex_cmdline` shows, as written, for a lexing of the line. */
  function ShownAsWritten(lx: Lexing, line: string, showErrors: bool): seq<Token>
    requires lx.end <= |line|
  {
    LexemeTokens(lx.lexemes) + ErrorTokens(lx, line, showErrors)
      + (if lx.end < |line| then [Lexed(InterTokenKind, line[lx.end..])] else [])
  }

  /**
   `lex_cmdline` with the trailing inter-token only for what follows the last token of a
   line that lexed without error (its trailing spaces and tabs).
   */
  function LexCmdline(ctx: Context, line: string, showErrors: bool): (ts: seq<Token>)
    ensures LexAll(ctx, line).error.None? ==> ts == LexCmdlineAsWritten(ctx, line, showErrors)
  {
    Shown(LexAll(ctx, line), line, showErrors)
  }

  /** The tokens the corrected `lex_cmdline` shows for a lexing of the line. */
  function Shown(lx: Lexing, line: string, showErrors: bool): seq<Token>
    requires lx.end <= |line|
  {
    LexemeTokens(lx.lexemes) + ErrorTokens(lx, line, showErrors)
      + (if lx.error.None? && lx.end < |line| then [Lexed(InterTokenKind, line[lx.end..])] else [])
  }

  /** The text of a highlighted line: the lexed part, the error tokens, then anything appended. */
  lemma ShownText(lx: Lexing, line: string, showErrors: bool, extra: seq<Token>)
    requires lx.end <= |line| && Texts(lx.lexemes) == line[..lx.end]
    ensures TokensText(LexemeTokens(lx.lexemes) + ErrorTokens(lx, line, showErrors) + extra)
      == line[..lx.end] + TokensText(ErrorTokens(lx, line, showErrors)) + TokensText(extra)
  {
    TokensTextAppend(LexemeTokens(lx.lexemes) + ErrorTokens(lx, line, showErrors), extra);
    TokensTextAppend(LexemeTokens(lx.lexemes), ErrorTokens(lx, line, showErrors));
    LexemeTokensText(lx.lexemes);
  }

  /** The error tokens show the rest of the line, then the message when asked for. */
  lemma ErrorTokensText(lx: Lexing, line: string, showErrors: bool)
    requires lx.end <= |line| && lx.error.Some?
    ensures TokensText(ErrorTokens(lx, line, showErrors))
      == line[lx.end..] + (if showErrors then " (" + ExcStr(lx.error.value) + ")" else "")
  {
    var msg: seq<Token> := if showErrors then [Lexed(InterTokenKind, " (" + ExcStr(lx.error.value) + ")")] else [];
    TokensTextAppend([Lexed(ErrorKind, line[lx.end..])], msg);
  }

  /** A lexing that covers the start of the line is shown, without messages, as the line itself. */
  lemma ShownLine(lx: Lexing, line: string)
    requires lx.end <= |line| && Texts(lx.lexemes) == line[..lx.end]
    ensures TokensText(Shown(lx, line, false)) == line
  {
    var tail: seq<Token> := if lx.error.None? && lx.end < |line| then [Lexed(InterTokenKind, line[lx.end..])] else [];
    ShownText(lx, line, false, tail);
    if lx.error.Some? {
      ErrorTokensText(lx, line, false);
    }
    assert line[..lx.end] + line[lx.end..] == line;
  }

  /** Without error messages, the highlighted tokens spell out exactly the line. */
  lemma LexCmdlineText(ctx: Context, line: string)
    ensures TokensText(LexCmdline(ctx, line, false)) == line
  {
    ShownLine(LexAll(ctx, line), line);
  }

  /** A failed lexing is shown, with messages, as the line and the parenthesised message. */
  lemma ShownError(lx: Lexing, line: string)
    requires lx.end <= |line| && Texts(lx.lexemes) == line[..lx.end] && lx.error.Some?
    ensures TokensText(Shown(lx, line, true)) == line + " (" + ExcStr(lx.error.value) + ")"
  {
    var message := " (" + ExcStr(lx.error.value) + ")";
    var lexed := LexemeTokens(lx.lexemes);
    var errors := ErrorTokens(lx, line, true);
    assert Shown(lx, line, true) == lexed + errors;
    TokensTextAppend(lexed, errors);
    LexemeTokensText(lx.lexemes);
    ErrorTokensText(lx, line, true);
    calc {
      TokensText(lexed + errors);
      line[..lx.end] + (line[lx.end..] + message);
      (line[..lx.end] + line[lx.end..]) + message;
      { assert line[..lx.end] + line[lx.end..] == line; }
      line + message;
    }
  }

  /** With error messages, the line is followed by the parenthesised message. */
  lemma LexCmdlineShowsError(ctx: Context, line: string)
    requires LexAll(ctx, line).error.Some?
    ensures TokensText(LexCmdline(ctx, line, true)) == line + " (" + ExcStr(LexAll(ctx, line).error.value) + ")"
  {
    ShownError(LexAll(ctx, line), line);
  }

  /** As written, a failed lexing is shown with the unlexed rest twice. */
  lemma ShownAsWrittenRepeats(lx: Lexing, line: string)
    requires lx.end < |line| && Texts(lx.lexemes) == line[..lx.end] && lx.error.Some?
    ensures TokensText(ShownAsWritten(lx, line, false)) == line + line[lx.end..]
  {
    var rest := line[lx.end..];
    assert ShownAsWritten(lx, line, false) == LexemeTokens(lx.lexemes) + ErrorTokens(lx, line, false) + [Lexed(InterTokenKind, rest)];
    ShownText(lx, line, false, [Lexed(InterTokenKind, rest)]);
    ErrorTokensText(lx, line, false);
    assert TokensText([Lexed(InterTokenKind, rest)]) == rest by {
      assert [Lexed(InterTokenKind, rest)][1..] == [];
    }
    assert line[..lx.end] + rest == line;
  }

  /** As written, a line that fails to lex shows its unlexed rest twice. */
  lemma LexCmdlineAsWrittenRepeats(ctx: Context, line: string)
    requires LexAll(ctx, line).error.Some?
    ensures TokensText(LexCmdlineAsWritten(ctx, line, false)) == line + line[LexAll(ctx, line).end..]
    ensures TokensText(LexCmdlineAsWritten(ctx, line, false)) != line
  {
    var lx := LexAll(ctx, line);
    ShownAsWrittenRepeats(lx, line);
    assert |line + line[lx.end..]| > |line|;
  }

  /** The smallest instance: a line holding one illegal character is shown as that character twice. */
  lemma IllegalCharacterShownTwice(ctx: Context)
    ensures LexAll(ctx, "$").error == Some(SyntaxError("Illegal character '$'"))
    ensures TokensText(LexCmdlineAsWritten(ctx, "$", false)) == "$$"
    ensures TokensText(LexCmdline(ctx, "$", false)) == "$"
  {
    var line := "$";
    assert SkipIgnored(line, 0) == 0;
    assert MatchLiteral(line, 0).None? by { assert RunEnd(line, 0, IsWordChar) == 0; }
    assert MatchLink(line, 0).None? by { assert RunEnd(line, 0, IsLower) == 0; }
    assert MatchString(line, 0).None? && MatchBareWord(line, 0).None? && MatchInteger(line, 0).None?;
    assert "Illegal character '" + [line[0]] + "'" == "Illegal character '$'";
    assert NextToken(ctx, line, 0) == Err(SyntaxError("Illegal character '$'"));
    assert LexFrom(ctx, line, 0) == Lexing([], 0, Some(SyntaxError("Illegal character '$'")));
    LexCmdlineAsWrittenRepeats(ctx, line);
    LexCmdlineText(ctx, line);
  }
}
