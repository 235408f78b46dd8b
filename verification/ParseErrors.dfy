/** Each defect of a program is reported as its own error, at its own token (src/parser.js).

    Everything before the defect is well-formed and anything may follow it. An error is placed by the number of
    tokens left at its token, which `SourceLayout.LayoutParses` turns into a line and a column. */
module ParseErrors {
  import opened Lexer
  import opened LexerProofs
  import opened Options
  import opened Parser
  import opened ParserProofs
  import opened RoundTrip

  /* ---------- lists ---------- */

  /** Elements before the one that fails, each with a separator after it. */
  function Leading<T>(sep: Kind, pr: T -> seq<Lexeme>, xs: seq<T>): seq<Lexeme> {
    if xs == [] then [] else pr(xs[0]) + ([Punct(sep)] + Leading(sep, pr, xs[1..]))
  }

  /** An element that fails fails its list, after any number that do not. */
  lemma {:induction false} SepFails<T(!new)>(sep: Kind, f: seq<Lexeme> -> Parsed<T>, pr: T -> seq<Lexeme>, xs: seq<T>,
                                             bad: seq<Lexeme>, code: Code, left: nat)
    requires Shrinks(f) && Punct(sep).kind == sep && f(bad) == Err(code, left)
    requires forall x, rest :: x in xs && Sees(rest, sep) ==> ParsesBack(f, pr, x, rest)
    ensures SepList(sep, f, Leading(sep, pr, xs) + bad) == Err(code, left)
    decreases |xs|
  {
    if xs == [] {
      assert Leading(sep, pr, xs) + bad == bad;
    } else {
      var more := Leading(sep, pr, xs[1..]) + bad;
      var rest := [Punct(sep)] + more;
      Cons(Punct(sep), more);
      assert xs[0] in xs && ParsesBack(f, pr, xs[0], rest);
      assert Leading(sep, pr, xs) + bad == pr(xs[0]) + rest;
      SepFails(sep, f, pr, xs[1..], bad, code, left);
    }
  }

  lemma BlockFails<T(!new)>(word: string, f: seq<Lexeme> -> Parsed<T>, pr: T -> seq<Lexeme>, xs: seq<T>,
                            bad: seq<Lexeme>, code: Code, left: nat)
    requires Shrinks(f) && f(bad) == Err(code, left)
    requires forall x, rest :: x in xs && Sees(rest, COMMA) ==> ParsesBack(f, pr, x, rest)
    requires !Sees(Leading(COMMA, pr, xs) + bad, RBRACK)
    ensures ParseBlock(word, f, [Lexeme(KEYWORD, word)] + ([Punct(LBRACK)] + (Leading(COMMA, pr, xs) + bad)))
         == Err(code, left)
  {
    hide SepList, Leading;
    var inner := Leading(COMMA, pr, xs) + bad;
    EatsWord(word, [Punct(LBRACK)] + inner);
    EatsPunct(LBRACK, inner);
    SepFails(COMMA, f, pr, xs, bad, code, left);
  }

  /** Well-formed elements keep the list from ending early. */
  lemma LeadingStarts<T>(pr: T -> seq<Lexeme>, xs: seq<T>, bad: seq<Lexeme>)
    requires forall x :: x in xs ==> pr(x) != [] && pr(x)[0].kind != RBRACK
    requires !Sees(bad, RBRACK)
    ensures !Sees(Leading(COMMA, pr, xs) + bad, RBRACK)
  {
    if xs != [] {
      assert xs[0] in xs;
      assert (Leading(COMMA, pr, xs) + bad)[0] == pr(xs[0])[0];
    } else {
      assert Leading(COMMA, pr, xs) + bad == bad;
    }
  }

  /* ---------- the defects ---------- */

  /** An identity that closes after its actor. */
  lemma NoBoundary(actor: seq<string>, rest: seq<Lexeme>)
    requires actor != []
    ensures var ts := [Lexeme(KEYWORD, "ID")]
                        + ([Punct(LBRACK)] + (PrintSep(COLON, PrintAnyName, actor) + ([Punct(RBRACK)] + rest)));
            ParseStatement(ts) == Err(NO_BOUNDARY, |ts|)
  {
    hide SepList, PrintSep, Eat, EatKeyword, Punct, Sees, ParseIntent;
    var t3 := [Punct(RBRACK)] + rest;
    var t2 := PrintSep(COLON, PrintAnyName, actor) + t3;
    PunctKinds();
    EatsWord("ID", [Punct(LBRACK)] + t2);
    EatsPunct(LBRACK, t2);
    EatsPunct(RBRACK, rest);
    ActorParses(actor, t3);
  }

  /** A compute block with no step. */
  lemma EmptyCompute(id: Identity, intent: Intent, context: Option<seq<Arg>>, rest: seq<Lexeme>)
    requires GoodIdentity(id) && GoodIntent(intent)
    requires context.Some? ==> forall a :: a in context.value ==> GoodArg(a)
    ensures var bad := PrintBlock("Compute", PrintCall, []) + rest;
            ParseStatement(PrintHead(id, intent) + (PrintContext(context) + bad)) == Err(EMPTY_COMPUTE, |bad|)
  {
    hide ParseHead, PrintHead, PrintBlock, PrintContext, ParseBlock, ParseOptionalContext, GoodIdentity, GoodIntent,
         GoodArg;
    var bad := PrintBlock("Compute", PrintCall, []) + rest;
    HeadParses(id, intent, PrintContext(context) + bad);
    BlockStarts("Compute", PrintCall, [], rest);
    OptionalContextParses(context, bad);
    BlockParses("Compute", ParseCall, PrintCall, [], rest);
  }

  /** An output block with no item. */
  lemma EmptyOutput(id: Identity, intent: Intent, context: Option<seq<Arg>>, compute: seq<Call>, rest: seq<Lexeme>)
    requires GoodIdentity(id) && GoodIntent(intent)
    requires context.Some? ==> forall a :: a in context.value ==> GoodArg(a)
    requires compute != [] && forall c :: c in compute ==> GoodCall(c)
    ensures var bad := PrintBlock("Output", PrintItem, []) + rest;
            ParseStatement(PrintHead(id, intent) + (PrintWork(context, compute) + bad)) == Err(EMPTY_OUTPUT, |bad|)
  {
    hide ParseHead, PrintHead, PrintBlock, PrintWork, ParseBlock, ParseWork, GoodIdentity, GoodIntent, GoodArg,
         GoodCall;
    var bad := PrintBlock("Output", PrintItem, []) + rest;
    HeadParses(id, intent, PrintWork(context, compute) + bad);
    WorkParses(context, compute, bad);
    BlockParses("Output", ParseItem, PrintItem, [], rest);
  }

  /** A step of no known subsystem, after any steps that are well-formed. */
  lemma UnknownSubsystem(steps: seq<Call>, bad: seq<Lexeme>)
    requires (forall c :: c in steps ==> GoodCall(c)) && !Sees(bad, RBRACK)
    requires Sees(bad, IDENT) ==> !IsSubsystem(bad[0].text)
    ensures ParseCompute([Lexeme(KEYWORD, "Compute")] + ([Punct(LBRACK)] + (Leading(COMMA, PrintCall, steps) + bad)))
         == Err(UNKNOWN_SUBSYSTEM, |bad|)
  {
    hide ParseBlock, GoodCall, IsSubsystem;
    forall x, rest | x in steps && Sees(rest, COMMA) ensures ParsesBack(ParseCall, PrintCall, x, rest) {
      CallParses(x, rest);
    }
    LeadingStarts(PrintCall, steps, bad);
    BlockFails("Compute", ParseCall, PrintCall, steps, bad, UNKNOWN_SUBSYSTEM, |bad|);
  }

  /** A handler of no known name, after any that are well-formed. */
  lemma UnknownHandler(handlers: seq<Handler>, bad: seq<Lexeme>)
    requires (forall h :: h in handlers ==> GoodHandler(h)) && !Sees(bad, RBRACK)
    requires Sees(bad, IDENT) ==> !IsHandler(bad[0].text)
    ensures ParseOnFail([Lexeme(KEYWORD, "OnFail")]
                          + ([Punct(LBRACK)] + (Leading(COMMA, PrintHandler, handlers) + bad)))
         == Err(UNKNOWN_HANDLER, |bad|)
  {
    hide ParseBlock, GoodHandler, IsHandler;
    forall x, rest | x in handlers && Sees(rest, COMMA) ensures ParsesBack(ParseHandler, PrintHandler, x, rest) {
      HandlerParses(x, rest);
    }
    LeadingStarts(PrintHandler, handlers, bad);
    BlockFails("OnFail", ParseHandler, PrintHandler, handlers, bad, UNKNOWN_HANDLER, |bad|);
  }

  /** Arguments with a comma after each. */
  function LeadingArgs(args: seq<Arg>): seq<Lexeme> {
    if args == [] then [] else PrintArg(args[0]) + ([Punct(COMMA)] + LeadingArgs(args[1..]))
  }

  /** A positional argument after a named one: the error is at that argument. */
  lemma ArgumentOrder(args: seq<Arg>, value: Value, rest: seq<Lexeme>)
    requires Ordered(args) && (exists a :: a in args && a.Named?) && (forall a :: a in args ==> GoodArg(a))
    requires GoodValue(value) && Closes(rest)
    ensures var bad := PrintArg(Positional(value)) + rest;
            ParseArgs([Punct(LPAREN)] + (LeadingArgs(args) + bad)) == Err(ARG_ORDER, |bad|)
  {
    hide ParseArgList, PrintArg, GoodArg, GoodValue, Closes, LeadingArgs;
    var bad := PrintArg(Positional(value)) + rest;
    LeadingArgsFail(args, false, value, rest);
    EatsPunct(LPAREN, LeadingArgs(args) + bad);
    LeadingArgsStart(args, bad);
  }

  lemma LeadingArgsStart(args: seq<Arg>, bad: seq<Lexeme>)
    requires args != []
    ensures !Sees(LeadingArgs(args) + bad, RPAREN)
  {
    ValueStarts(args[0].value);
    assert PrintArg(args[0]) != [];
    assert (LeadingArgs(args) + bad)[0] == PrintArg(args[0])[0];
  }

  lemma {:induction false} LeadingArgsFail(args: seq<Arg>, seenNamed: bool, value: Value, rest: seq<Lexeme>)
    requires Ordered(args) && (forall a :: a in args ==> GoodArg(a))
               && (seenNamed ==> forall a :: a in args ==> a.Named?)
    requires seenNamed || exists a :: a in args && a.Named?
    requires GoodValue(value) && Closes(rest)
    ensures var bad := PrintArg(Positional(value)) + rest;
            ParseArgList(LeadingArgs(args) + bad, seenNamed) == Err(ARG_ORDER, |bad|)
    decreases |args|
  {
    hide ParseArg, PrintArg, GoodArg, GoodValue, Closes;
    var bad := PrintArg(Positional(value)) + rest;
    if args == [] {
      assert LeadingArgs(args) + bad == bad;
      PositionalGood(value);
      ArgParses(Positional(value), rest);
    } else {
      var more := LeadingArgs(args[1..]) + bad;
      var after := [Punct(COMMA)] + more;
      assert args[0] in args && args == [args[0]] + args[1..];
      Cons(Punct(COMMA), more);
      CommaCloses(after);
      ArgParses(args[0], after);
      assert LeadingArgs(args) + bad == PrintArg(args[0]) + after;
      if args[0].Named? { assert forall a :: a in args[1..] ==> a.Named?; }
      LeadingArgsFail(args[1..], seenNamed || args[0].Named?, value, rest);
    }
  }

  lemma PositionalGood(value: Value)
    requires GoodValue(value)
    ensures GoodArg(Positional(value))
  {
  }

  lemma CommaCloses(ts: seq<Lexeme>)
    requires Sees(ts, COMMA)
    ensures Closes(ts)
  {
  }

  /* ---------- whole programs ---------- */

  /** A statement that fails fails its program with the same error, after any statements that do not. */
  lemma {:induction false} StatementFails(ss: seq<Statement>, semi: bool, bad: seq<Lexeme>, code: Code, left: nat)
    requires (forall s :: s in ss ==> GoodStatement(s)) && SeesWord(bad, KEYWORD, "ID")
    requires ParseStatement(bad) == Err(code, left)
    ensures ParseStatements(PrintStatements(ss, semi) + bad) == Err(code, left)
    decreases |ss|
  {
    hide ParseStatement, PrintStatement, GoodStatement;
    if ss == [] {
      assert PrintStatements(ss, semi) + bad == bad;
    } else {
      var rest := PrintStatements(ss[1..], semi) + bad;
      StatementFails(ss[1..], semi, bad, code, left);
      NextStarts(ss[1..], semi, bad);
      StatementParses(ss[0], semi, rest);
      StatementStarts(ss[0], semi, rest);
      Assoc(PrintStatement(ss[0], semi), PrintStatements(ss[1..], semi), bad);
    }
  }

  lemma NextStarts(ss: seq<Statement>, semi: bool, bad: seq<Lexeme>)
    requires SeesWord(bad, KEYWORD, "ID")
    ensures StartsStatement(PrintStatements(ss, semi) + bad)
  {
    hide PrintStatement;
    if ss == [] {
      assert PrintStatements(ss, semi) + bad == bad;
    } else {
      StatementStarts(ss[0], semi, PrintStatements(ss[1..], semi) + bad);
      Assoc(PrintStatement(ss[0], semi), PrintStatements(ss[1..], semi), bad);
    }
  }
}
