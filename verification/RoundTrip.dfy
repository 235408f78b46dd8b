/** The front end as a whole: print, lex and parse is the identity on well-formed programs.

    The proof has two halves that meet in SourceRoundTrip. The first shows that the parser reads each
    printed block back and leaves exactly what follows it. The second shows that every token the printer
    writes is one the lexer reads back whole. Both go by the shape of the syntax tree, one lemma a node,
    and neither looks inside the other. */
module RoundTrip {
  import opened Lexer
  import opened LexerProofs
  import opened Options
  import opened Parser
  import opened ParserProofs

  /* ---------- printing statements ---------- */

  function PrintHead(id: Identity, intent: Intent): seq<Lexeme> {
    PrintIdentity(id) + ([Punct(COLONCOLON)] + (PrintIntent(intent) + [Punct(ARROW_INTENT)]))
  }

  function PrintContext(context: Option<seq<Arg>>): seq<Lexeme> {
    if context.None? then [] else PrintBlock("Context", PrintArg, context.value) + [Punct(COMMA)]
  }

  function PrintWork(context: Option<seq<Arg>>, compute: seq<Call>): seq<Lexeme> {
    PrintContext(context) + (PrintBlock("Compute", PrintCall, compute) + [Punct(ARROW_OUT)])
  }

  /** The terminator is optional. */
  function PrintTail(onFail: Option<seq<Handler>>, semi: bool): seq<Lexeme> {
    (if onFail.None? then [] else PrintBlock("OnFail", PrintHandler, onFail.value))
      + (if semi then [Punct(SEMI)] else [])
  }

  function PrintStatement(s: Statement, semi: bool): seq<Lexeme> {
    PrintHead(s.identity, s.intent)
      + (PrintWork(s.context, s.compute) + (PrintBlock("Output", PrintItem, s.output) + PrintTail(s.onFail, semi)))
  }

  function PrintStatements(ss: seq<Statement>, semi: bool): seq<Lexeme> {
    if ss == [] then [] else PrintStatement(ss[0], semi) + PrintStatements(ss[1..], semi)
  }

  function PrintProgram(p: Program, semi: bool): seq<Lexeme> {
    (if p.version.Some? then [Lexeme(PRAGMA, p.version.value)] else []) + PrintStatements(p.statements, semi)
  }

  /** The source text: every token followed by a space. */
  function PrintSource(p: Program, semi: bool): string {
    PrintTokens(PrintProgram(p, semi))
  }

  /* ---------- well-formed programs ---------- */

  predicate GoodStatement(s: Statement) {
    && GoodIdentity(s.identity) && GoodIntent(s.intent)
    && (s.context.Some? ==> forall a :: a in s.context.value ==> GoodArg(a))
    && s.compute != [] && (forall c :: c in s.compute ==> GoodCall(c))
    && s.output != [] && (forall i :: i in s.output ==> GoodItem(i))
    && (s.onFail.Some? ==> forall h :: h in s.onFail.value ==> GoodHandler(h))
  }

  /** A version may be empty: `%igl` alone is a pragma too. */
  predicate GoodProgram(p: Program) {
    && (p.version.Some? ==> All(IsVersionChar, p.version.value))
    && forall s :: s in p.statements ==> GoodStatement(s)
  }

  /* ---------- statements parse back ---------- */

  lemma HeadParses(id: Identity, intent: Intent, rest: seq<Lexeme>)
    requires GoodIdentity(id) && GoodIntent(intent)
    ensures ParseHead(PrintHead(id, intent) + rest) == Ok((id, intent), rest)
  {
    hide ParseIdentity, ParseIntent, PrintIdentity, PrintIntent, Eat, GoodIdentity, GoodIntent;
    var t3 := [Punct(ARROW_INTENT)] + rest;
    var t2 := PrintIntent(intent) + t3;
    var t1 := [Punct(COLONCOLON)] + t2;
    assert PrintHead(id, intent) + rest == PrintIdentity(id) + t1;
    IdentityParses(id, t1);
    EatsPunct(COLONCOLON, t2);
    IntentParses(intent, t3);
    EatsPunct(ARROW_INTENT, rest);
  }

  lemma BlockStarts<T>(word: string, pr: T -> seq<Lexeme>, xs: seq<T>, rest: seq<Lexeme>)
    ensures SeesWord(PrintBlock(word, pr, xs) + rest, KEYWORD, word)
    ensures forall other :: other != word ==> !SeesWord(PrintBlock(word, pr, xs) + rest, KEYWORD, other)
  {
  }

  lemma WorkParses(context: Option<seq<Arg>>, compute: seq<Call>, rest: seq<Lexeme>)
    requires context.Some? ==> forall a :: a in context.value ==> GoodArg(a)
    requires compute != [] && forall c :: c in compute ==> GoodCall(c)
    ensures ParseWork(PrintWork(context, compute) + rest) == Ok((context, compute), rest)
  {
    hide ParseOptionalContext, ParseCompute, PrintBlock, PrintContext, Eat, GoodArg, GoodCall;
    var t2 := [Punct(ARROW_OUT)] + rest;
    var t1 := PrintBlock("Compute", PrintCall, compute) + t2;
    Assoc(PrintContext(context), PrintBlock("Compute", PrintCall, compute) + [Punct(ARROW_OUT)], rest);
    Assoc(PrintBlock("Compute", PrintCall, compute), [Punct(ARROW_OUT)], rest);
    ComputeParses(compute, t2);
    EatsPunct(ARROW_OUT, rest);
    BlockStarts("Compute", PrintCall, compute, t2);
    OptionalContextParses(context, t1);
  }

  lemma OptionalContextParses(context: Option<seq<Arg>>, t1: seq<Lexeme>)
    requires context.Some? ==> forall a :: a in context.value ==> GoodArg(a)
    requires !SeesWord(t1, KEYWORD, "Context")
    ensures ParseOptionalContext(PrintContext(context) + t1) == Ok(context, t1)
  {
    hide ParseContext, PrintBlock, Eat, SeesWord, GoodArg;
    if context.None? {
      assert PrintContext(context) + t1 == t1;
    } else {
      var t0 := [Punct(COMMA)] + t1;
      assert PrintContext(context) + t1 == PrintBlock("Context", PrintArg, context.value) + t0;
      ContextParses(context.value, t0);
      BlockStarts("Context", PrintArg, context.value, t0);
      EatsPunct(COMMA, t1);
    }
  }

  /** What may follow a statement: the next one, or the end. */
  predicate StartsStatement(ts: seq<Lexeme>) {
    Sees(ts, EOF) || SeesWord(ts, KEYWORD, "ID")
  }

  lemma EndParses(output: seq<Item>, onFail: Option<seq<Handler>>, semi: bool, rest: seq<Lexeme>)
    requires output != [] && forall i :: i in output ==> GoodItem(i)
    requires onFail.Some? ==> forall h :: h in onFail.value ==> GoodHandler(h)
    requires StartsStatement(rest)
    ensures ParseEnd(PrintBlock("Output", PrintItem, output) + PrintTail(onFail, semi) + rest)
              == Ok((output, onFail), rest)
  {
    hide ParseOutput, ParseOnFail, PrintBlock, GoodItem, GoodHandler;
    var t2 := (if semi then [Punct(SEMI)] else []) + rest;
    var t1 := PrintTail(onFail, semi) + rest;
    Assoc(PrintBlock("Output", PrintItem, output), PrintTail(onFail, semi), rest);
    OutputParses(output, t1);
    if semi { EatsPunct(SEMI, rest); } else { assert t2 == rest; }
    if onFail.None? {
      assert t1 == t2;
    } else {
      assert t1 == PrintBlock("OnFail", PrintHandler, onFail.value) + t2;
      OnFailParses(onFail.value, t2);
      BlockStarts("OnFail", PrintHandler, onFail.value, t2);
    }
  }

  lemma StatementParses(s: Statement, semi: bool, rest: seq<Lexeme>)
    requires GoodStatement(s) && StartsStatement(rest)
    ensures ParseStatement(PrintStatement(s, semi) + rest) == Ok(s, rest)
  {
    hide ParseHead, ParseWork, ParseEnd, PrintHead, PrintWork, PrintBlock, PrintTail, GoodIdentity, GoodIntent;
    hide GoodArg, GoodCall, GoodItem, GoodHandler;
    var end := PrintBlock("Output", PrintItem, s.output) + PrintTail(s.onFail, semi);
    var t2 := end + rest;
    var t1 := PrintWork(s.context, s.compute) + t2;
    assert PrintStatement(s, semi) + rest == PrintHead(s.identity, s.intent) + t1;
    HeadParses(s.identity, s.intent, t1);
    WorkParses(s.context, s.compute, t2);
    EndParses(s.output, s.onFail, semi, rest);
  }

  lemma StatementStarts(s: Statement, semi: bool, rest: seq<Lexeme>)
    ensures var ts := PrintStatement(s, semi) + rest; ts != [] && ts[0] == Lexeme(KEYWORD, "ID")
  {
  }

  lemma {:induction false} StatementsParse(ss: seq<Statement>, semi: bool)
    requires forall s :: s in ss ==> GoodStatement(s)
    ensures ParseStatements(PrintStatements(ss, semi) + [Lexeme(EOF, "")]) == Ok(ss, [Lexeme(EOF, "")])
    ensures StartsStatement(PrintStatements(ss, semi) + [Lexeme(EOF, "")])
    decreases |ss|
  {
    hide GoodStatement, ParseStatement, PrintStatement, ParseStatements;
    var eof := [Lexeme(EOF, "")];
    if ss == [] {
      assert PrintStatements(ss, semi) + eof == eof;
      NoStatement(eof);
    } else {
      var rest := PrintStatements(ss[1..], semi) + eof;
      StatementsParse(ss[1..], semi);
      StatementParses(ss[0], semi, rest);
      StatementStarts(ss[0], semi, rest);
      Assoc(PrintStatement(ss[0], semi), PrintStatements(ss[1..], semi), eof);
      OneStatement(PrintStatement(ss[0], semi) + rest, ss[0], rest, ss[1..], eof);
      assert ss == [ss[0]] + ss[1..];
    }
  }

  lemma NoStatement(ts: seq<Lexeme>)
    requires Sees(ts, EOF)
    ensures ParseStatements(ts) == Ok([], ts)
  {
  }

  lemma OneStatement(ts: seq<Lexeme>, s: Statement, t1: seq<Lexeme>, more: seq<Statement>, rest: seq<Lexeme>)
    requires ts != [] && !Sees(ts, EOF) && ParseStatement(ts) == Ok(s, t1) && ParseStatements(t1) == Ok(more, rest)
    ensures ParseStatements(ts) == Ok([s] + more, rest)
  {
    hide ParseStatement;
  }

  /** Parsing the printed tokens gives the program back. */
  lemma ProgramParses(p: Program, semi: bool)
    requires GoodProgram(p)
    ensures ParseProgram(PrintProgram(p, semi) + [Lexeme(EOF, "")]) == Ok(p, [Lexeme(EOF, "")])
  {
    hide GoodStatement, ParseStatements, PrintStatements;
    var eof := [Lexeme(EOF, "")];
    var body := PrintStatements(p.statements, semi) + eof;
    StatementsParse(p.statements, semi);
    if p.version.Some? {
      assert PrintProgram(p, semi) + eof == [Lexeme(PRAGMA, p.version.value)] + body;
      Cons(Lexeme(PRAGMA, p.version.value), body);
    } else {
      assert PrintProgram(p, semi) + eof == body;
    }
  }

  /* ---------- printed tokens are lexable ---------- */

  ghost predicate AllLexable(ts: seq<Lexeme>) {
    forall i :: 0 <= i < |ts| ==> Lexable(ts[i])
  }

  lemma PunctLexable(kind: Kind)
    requires Punct(kind).kind == kind
    ensures AllLexable([Punct(kind)])
  {
  }

  lemma NamesLexable()
    ensures IsKeyword("ID") && IsKeyword("Intent") && IsKeyword("Compute") && IsKeyword("Output")
    ensures IsKeyword("OnFail") && IsKeyword("Context")
    ensures forall w :: IsSubsystem(w) ==> IsIdent(w)
    ensures forall w :: IsHandler(w) ==> IsIdent(w)
  {
    hide IsIdent;
    SubsystemNames();
    HandlerNames();
  }

  lemma SubsystemNames()
    ensures IsIdent("UDM") && IsIdent("AI") && IsIdent("IOS")
  {
    hide IsKeyword;
    NotKeyword("UDM");
    NotKeyword("AI");
    NotKeyword("IOS");
  }

  lemma HandlerNames()
    ensures IsIdent("Remediate") && IsIdent("Halt") && IsIdent("Fallback") && IsIdent("Retry")
  {
    hide IsKeyword;
    NotKeyword("Remediate");
    NotKeyword("Halt");
    NotKeyword("Fallback");
    NotKeyword("Retry");
  }

  /** The initials of the keywords are I, C and O, and only two of them start with I. */
  lemma NotKeyword(w: string)
    requires |w| >= 2 && w[0] != 'C' && (w[0] == 'O' ==> w[1] != 'u' && w[1] != 'n')
    requires w[0] == 'I' ==> w[1] != 'D' && w[1] != 'n'
    ensures !IsKeyword(w)
  {
    assert "ID"[1] == 'D' && "Intent"[1] == 'n' && "Output"[1] == 'u' && "OnFail"[1] == 'n';
  }

  lemma {:induction false} ValueLexable(v: Value)
    requires GoodValue(v)
    ensures AllLexable(PrintValue(v))
    decreases v, 1
  {
    hide IsNumber, IsCode, IsIdent, IsName, Lexable;
    WordsLexable();
    match v {
      case ListValue(items) => PunctLexable(LBRACK); PunctLexable(RBRACK); ItemsLexable(items);
      case ApplyValue(fn, args) => NameLexable(fn); ArgsLexable(args);
      case SymbolValue(symbol) => NameLexable(symbol);
      case RefValue(name) => PunctLexable(AT); assert PrintValue(v) == [Punct(AT)] + [Lexeme(IDENT, name)];
      case _ =>
    }
  }

  lemma WordsLexable()
    ensures forall s :: Lexable(Lexeme(STRING, s))
    ensures forall n :: IsNumber(n) ==> Lexable(Lexeme(NUMBER, n))
    ensures forall c :: IsCode(c) ==> Lexable(Lexeme(CODE, c))
    ensures forall w :: IsIdent(w) ==> Lexable(Lexeme(IDENT, w))
    ensures forall w :: IsKeyword(w) ==> Lexable(Lexeme(KEYWORD, w))
  {
    hide IsNumber, IsCode, IsIdent, IsKeyword;
  }

  lemma NameLexable(text: string)
    requires IsName(text)
    ensures Lexable(NameLexeme(text))
  {
  }

  lemma {:induction false} ItemsLexable(items: seq<Value>)
    requires forall v :: v in items ==> GoodValue(v)
    ensures AllLexable(PrintItems(items))
    decreases items, 0
  {
    hide GoodValue, PrintValue, Lexable;
    if items != [] {
      ValueLexable(items[0]);
      PunctLexable(COMMA);
      ItemsLexable(items[1..]);
    }
  }

  lemma {:induction false} ArgsLexable(args: seq<Arg>)
    requires forall a :: a in args ==> GoodArg(a)
    ensures AllLexable(PrintArgs(args)) && AllLexable(PrintArgList(args))
    decreases args, 3
  {
    hide GoodArg, Lexable, PrintArgList;
    ArgListLexable(args);
    PunctLexable(LPAREN);
    PunctLexable(RPAREN);
  }

  lemma {:induction false} ArgListLexable(args: seq<Arg>)
    requires forall a :: a in args ==> GoodArg(a)
    ensures AllLexable(PrintArgList(args))
    decreases args, 2
  {
    hide GoodArg, Lexable, PrintArg;
    if args != [] {
      ArgLexable(args[0]);
      PunctLexable(COMMA);
      ArgListLexable(args[1..]);
    }
  }

  lemma {:induction false} ArgLexable(a: Arg)
    requires GoodArg(a)
    ensures AllLexable(PrintArg(a))
    decreases a, 0
  {
    hide GoodValue, PrintValue, Lexable, IsIdent;
    ValueLexable(a.value);
    WordsLexable();
    PunctLexable(EQ);
    if a.Named? {
      assert PrintArg(a) == [Lexeme(IDENT, a.name)] + ([Punct(EQ)] + PrintValue(a.value));
    }
  }

  lemma {:induction false} SepLexable<T>(sep: Kind, pr: T -> seq<Lexeme>, xs: seq<T>)
    requires Punct(sep).kind == sep && forall x :: x in xs ==> AllLexable(pr(x))
    ensures AllLexable(PrintSep(sep, pr, xs))
    decreases |xs|
  {
    hide Lexable;
    if xs != [] {
      PunctLexable(sep);
      SepLexable(sep, pr, xs[1..]);
    }
  }

  lemma BlockLexable<T>(word: string, pr: T -> seq<Lexeme>, xs: seq<T>)
    requires IsKeyword(word) && forall x :: x in xs ==> AllLexable(pr(x))
    ensures AllLexable(PrintBlock(word, pr, xs))
  {
    hide Lexable, IsKeyword;
    WordsLexable();
    PunctLexable(LBRACK);
    PunctLexable(RBRACK);
    SepLexable(COMMA, pr, xs);
  }

  lemma AnyNameLexable(text: string)
    requires GoodName(text)
    ensures AllLexable(PrintAnyName(text))
  {
    hide IsIdent, IsCode;
  }

  lemma OptionalArgsLexable(args: seq<Arg>)
    requires GoodArgs(args)
    ensures AllLexable(PrintOptionalArgs(args))
  {
    hide Lexable, GoodArg, PrintArgs;
    ArgsLexable(args);
  }

  lemma CallLexable(c: Call)
    requires GoodCall(c)
    ensures AllLexable(PrintCall(c))
  {
    hide Lexable, GoodArgs, PrintOptionalArgs, IsIdent, IsSubsystem;
    NamesLexable();
    WordsLexable();
    PunctLexable(DOT);
    OptionalArgsLexable(c.args);
  }

  lemma ItemLexable(i: Item)
    requires GoodItem(i)
    ensures AllLexable(PrintItem(i))
  {
    hide Lexable, GoodName, GoodValue, PrintValue;
    AnyNameLexable(i.name);
    assert PrintAnyName(i.name)[0] == AnyNameLexeme(i.name);
    PunctLexable(EQ);
    if i.value.Some? { ValueLexable(i.value.value); }
  }

  lemma HandlerLexable(h: Handler)
    requires GoodHandler(h)
    ensures AllLexable(PrintHandler(h))
  {
    hide Lexable, GoodArgs, PrintOptionalArgs, IsIdent, IsHandler;
    NamesLexable();
    WordsLexable();
    OptionalArgsLexable(h.args);
  }

  lemma BoundLexable(b: Bound)
    requires GoodBound(b)
    ensures AllLexable(PrintBound(b))
  {
    hide Lexable, IsIdent;
    WordsLexable();
    PunctLexable(COLON);
  }

  lemma IdentityLexable(id: Identity)
    requires GoodIdentity(id)
    ensures AllLexable(PrintIdentity(id))
  {
    hide Lexable, GoodName, GoodBound, PrintAnyName, PrintBound, PrintSep, IsKeyword, IsSubsystem, IsHandler, IsIdent;
    NamesLexable();
    WordsLexable();
    PunctLexable(LBRACK);
    PunctLexable(RBRACK);
    PunctLexable(PIPE);
    forall x | x in id.actor ensures AllLexable(PrintAnyName(x)) { AnyNameLexable(x); }
    forall b | b in id.boundary ensures AllLexable(PrintBound(b)) { BoundLexable(b); }
    SepLexable(COLON, PrintAnyName, id.actor);
    SepLexable(COMMA, PrintBound, id.boundary);
    var actors, bounds := PrintSep(COLON, PrintAnyName, id.actor), PrintSep(COMMA, PrintBound, id.boundary);
    assert AllLexable([Lexeme(KEYWORD, "ID")]);
    hide AllLexable;
    ConcatLexable(bounds, [Punct(RBRACK)]);
    ConcatLexable([Punct(PIPE)], bounds + [Punct(RBRACK)]);
    ConcatLexable(actors, [Punct(PIPE)] + (bounds + [Punct(RBRACK)]));
    ConcatLexable([Punct(LBRACK)], actors + ([Punct(PIPE)] + (bounds + [Punct(RBRACK)])));
    ConcatLexable([Lexeme(KEYWORD, "ID")], [Punct(LBRACK)] + (actors + ([Punct(PIPE)] + (bounds + [Punct(RBRACK)]))));
  }

  lemma ConcatLexable(a: seq<Lexeme>, b: seq<Lexeme>)
    requires AllLexable(a) && AllLexable(b)
    ensures AllLexable(a + b)
  {
    hide Lexable;
  }

  lemma ParamLexable(p: Param)
    requires GoodParam(p)
    ensures AllLexable(PrintParam(p))
  {
    hide Lexable, IsIdent, GoodValue, PrintValue;
    WordsLexable();
    PunctLexable(EQ);
    ValueLexable(p.value);
  }

  lemma IntentLexable(i: Intent)
    requires GoodIntent(i)
    ensures AllLexable(PrintIntent(i))
  {
    hide Lexable, GoodName, GoodParam, PrintParam, IsKeyword;
    NamesLexable();
    WordsLexable();
    PunctLexable(LBRACK);
    PunctLexable(RBRACK);
    PunctLexable(COMMA);
    AnyNameLexable(i.name);
    assert PrintAnyName(i.name)[0] == AnyNameLexeme(i.name);
    forall p | p in i.params ensures AllLexable(PrintParam(p)) { ParamLexable(p); }
    SepLexable(COMMA, PrintParam, i.params);
  }

  lemma HeadLexable(id: Identity, intent: Intent)
    requires GoodIdentity(id) && GoodIntent(intent)
    ensures AllLexable(PrintHead(id, intent))
  {
    hide Lexable, GoodIdentity, GoodIntent, PrintIdentity, PrintIntent;
    IdentityLexable(id);
    IntentLexable(intent);
    PunctLexable(COLONCOLON);
    PunctLexable(ARROW_INTENT);
  }

  lemma WorkLexable(context: Option<seq<Arg>>, compute: seq<Call>)
    requires context.Some? ==> forall a :: a in context.value ==> GoodArg(a)
    requires forall c :: c in compute ==> GoodCall(c)
    ensures AllLexable(PrintWork(context, compute))
  {
    hide Lexable, GoodArg, GoodCall, PrintBlock, PrintArg, PrintCall, IsKeyword;
    NamesLexable();
    PunctLexable(COMMA);
    PunctLexable(ARROW_OUT);
    if context.Some? {
      forall a | a in context.value ensures AllLexable(PrintArg(a)) { ArgLexable(a); }
      BlockLexable("Context", PrintArg, context.value);
    }
    forall c | c in compute ensures AllLexable(PrintCall(c)) { CallLexable(c); }
    BlockLexable("Compute", PrintCall, compute);
  }

  lemma TailLexable(onFail: Option<seq<Handler>>, semi: bool)
    requires onFail.Some? ==> forall h :: h in onFail.value ==> GoodHandler(h)
    ensures AllLexable(PrintTail(onFail, semi))
  {
    hide Lexable, GoodHandler, PrintBlock, PrintHandler, IsKeyword;
    NamesLexable();
    PunctLexable(SEMI);
    if onFail.Some? {
      forall h | h in onFail.value ensures AllLexable(PrintHandler(h)) { HandlerLexable(h); }
      BlockLexable("OnFail", PrintHandler, onFail.value);
    }
  }

  lemma StatementLexable(s: Statement, semi: bool)
    requires GoodStatement(s)
    ensures AllLexable(PrintStatement(s, semi))
  {
    hide Lexable, PrintHead, PrintWork, PrintBlock, PrintTail, PrintItem, IsKeyword;
    hide GoodIdentity, GoodIntent, GoodArg, GoodCall, GoodItem, GoodHandler;
    NamesLexable();
    HeadLexable(s.identity, s.intent);
    WorkLexable(s.context, s.compute);
    forall i | i in s.output ensures AllLexable(PrintItem(i)) { ItemLexable(i); }
    BlockLexable("Output", PrintItem, s.output);
    TailLexable(s.onFail, semi);
  }

  lemma {:induction false} StatementsLexable(ss: seq<Statement>, semi: bool)
    requires forall s :: s in ss ==> GoodStatement(s)
    ensures AllLexable(PrintStatements(ss, semi))
    decreases |ss|
  {
    hide GoodStatement, PrintStatement;
    if ss != [] {
      StatementLexable(ss[0], semi);
      StatementsLexable(ss[1..], semi);
    }
  }

  /* ---------- the main result ---------- */

  /** A statement's text starts with a letter, so it cannot continue a pragma. */
  predicate EndsPragma(s: string) {
    s == "" || (!IsBlank(s[0]) && !IsVersionChar(s[0]))
  }

  lemma StatementsEndPragma(ss: seq<Statement>, semi: bool)
    ensures EndsPragma(PrintTokens(PrintStatements(ss, semi)))
  {
    hide PrintStatement, EndsPragma, PrintTokens;
    if ss == [] {
      NothingEndsPragma();
    } else {
      StatementStarts(ss[0], semi, PrintStatements(ss[1..], semi));
      WordEndsPragma(PrintStatements(ss, semi));
    }
  }

  lemma NothingEndsPragma()
    ensures EndsPragma(PrintTokens([]))
  {
  }

  lemma WordEndsPragma(ts: seq<Lexeme>)
    requires ts != [] && ts[0] == Lexeme(KEYWORD, "ID")
    ensures EndsPragma(PrintTokens(ts))
  {
    assert PrintTokens(ts)[0] == TokenText(ts[0])[0] == 'I';
  }

  /** A pragma without a version takes the blanks after it and nothing else. */
  lemma ScanEmptyPragma(s: string)
    requires EndsPragma(s)
    ensures Scan("%igl  " + s) == Tok(Lexeme(PRAGMA, ""), 6)
  {
    var u := "%igl  " + s;
    assert "%igl" <= u && u[0] == '%';
    assert u[4..] == "  " + s && ("  " + s)[1..] == " " + s && (" " + s)[1..] == s;
    assert Run(IsBlank, s) == 0;
    assert Run(IsBlank, " " + s) == 1;
    assert Run(IsBlank, u[4..]) == 2;
    assert u[6..] == s && Run(IsVersionChar, s) == 0;
    assert u[6..6] == "";
  }

  lemma SourceLexes(p: Program, semi: bool)
    requires GoodProgram(p)
    ensures LexesTo(LexFrom(PrintSource(p, semi), 1, 1), PrintProgram(p, semi) + [Lexeme(EOF, "")])
  {
    hide GoodStatement, PrintStatements, Scan, LexFrom, LexesTo;
    var body := PrintStatements(p.statements, semi);
    StatementsLexable(p.statements, semi);
    AllLexableIn(body);
    if p.version == Some("") {
      EmptyPragmaLexes(p.statements, semi);
    } else {
      var ts := PrintProgram(p, semi);
      forall t | t in ts ensures Lexable(t) { }
      LexPrinted(ts, 1, 1);
    }
  }

  lemma AllLexableIn(ts: seq<Lexeme>)
    requires AllLexable(ts)
    ensures forall t :: t in ts ==> Lexable(t)
  {
    hide Lexable;
    forall t | t in ts ensures Lexable(t) {
      var i :| 0 <= i < |ts| && ts[i] == t;
    }
  }

  lemma EmptyPragmaLexes(ss: seq<Statement>, semi: bool)
    requires forall s :: s in ss ==> GoodStatement(s)
    ensures var p := Program(Some(""), ss);
            LexesTo(LexFrom(PrintSource(p, semi), 1, 1), PrintProgram(p, semi) + [Lexeme(EOF, "")])
  {
    hide GoodStatement, PrintStatements, Lexable, Scan, LexFrom, LexesTo;
    var pragma, body := Lexeme(PRAGMA, ""), PrintStatements(ss, semi);
    var rest := PrintTokens(body);
    var u := "%igl  " + rest;
    StatementsLexable(ss, semi);
    AllLexableIn(body);
    LexPrinted(body, 1, 7);
    StatementsEndPragma(ss, semi);
    ScanEmptyPragma(rest);
    Cons(pragma, body);
    assert PrintTokens([pragma] + body) == ("%igl " + "") + " " + rest == u;
    assert u[6..] == rest;
    LexPrefix(u, pragma, 6, body + [Lexeme(EOF, "")], 1, 1);
    Assoc([pragma], body, [Lexeme(EOF, "")]);
  }

  /** Lexing and parsing the printed form of a well-formed program gives back that very program,
      with arbitrarily nested lists and calls, with or without terminators. */
  lemma SourceRoundTrip(p: Program, semi: bool)
    requires GoodProgram(p)
    ensures ParseSource(PrintSource(p, semi)) == ParseResult.Parsed(p)
  {
    hide GoodProgram, ParseProgram, PrintProgram, PrintSource, LexFrom;
    SourceLexes(p, semi);
    ProgramParses(p, semi);
  }
}
