/** The parser returns the well-formed programs and no others.

    Whatever a source text parses to is well-formed, reprints and parses back to itself, and every well-formed
    program is returned. The proof goes through the parser production by production, for any list of tokens
    the lexer returns. */
module Acceptance {
  /* The one token the lexer makes that would not read back in its place, a whole number before a dot, is
     a code no production accepts there; so an element is good unless a dot follows it, and the tokens
     that close a block are not dots. */

  import opened Lexer
  import opened LexerOutput
  import opened LexerProofs
  import opened Parser
  import opened ParserProofs
  import opened RoundTrip

  lemma LexedTail(ts: seq<Lexeme>, n: nat)
    requires Lexed(ts) && n <= |ts|
    ensures Lexed(ts[n..])
  {
    hide Lexable;
    forall i | 0 <= i < |ts[n..]| ensures TokenAt(ts[n..], i) { assert TokenAt(ts, n + i); }
  }

  lemma FirstLexed(ts: seq<Lexeme>)
    requires Lexed(ts) && ts != []
    ensures Lexable(ts[0]) || ts[0].kind == EOF || ts[0].kind == PRAGMA || (ts[0].kind == CODE && Sees(ts[1..], DOT))
  {
    hide Lexable;
    assert TokenAt(ts, 0);
  }

  lemma EatGood(ts: seq<Lexeme>, kind: Kind)
    requires Lexed(ts) && kind != EOF && kind != PRAGMA && kind != CODE
    ensures var r := Eat(ts, kind);
            r.Ok? ==> Lexed(r.rest) && Lexable(Lexeme(kind, r.value)) && Sees(ts, kind)
  {
    hide Lexable, Lexed;
    if Sees(ts, kind) {
      FirstLexed(ts);
      LexedTail(ts, 1);
    }
  }

  lemma EatWordGood(ts: seq<Lexeme>, word: string)
    requires Lexed(ts)
    ensures EatKeyword(ts, word).Ok? ==> Lexed(EatKeyword(ts, word).rest)
  {
    hide Lexable, Lexed;
    if SeesWord(ts, KEYWORD, word) { LexedTail(ts, 1); }
  }

  lemma IdentGood(w: string)
    ensures Lexable(Lexeme(IDENT, w)) <==> IsIdent(w)
    ensures Lexable(Lexeme(CODE, w)) <==> IsCode(w)
    ensures Lexable(Lexeme(NUMBER, w)) <==> IsNumber(w)
    ensures Lexable(Lexeme(KEYWORD, w)) ==> IsName(w)
  {
    hide IsNumber, IsCode;
  }

  lemma {:induction false} ValueGood(ts: seq<Lexeme>)
    requires Lexed(ts)
    ensures var r := ParseValue(ts); r.Ok? ==> Lexed(r.rest) && (!Sees(r.rest, DOT) ==> GoodValue(r.value))
    decreases |ts|, 0
  {
    hide Lexable, Lexed, IsIdent, IsCode, IsNumber, IsName;
    if ts != [] {
      FirstLexed(ts);
      IdentGood(ts[0].text);
      LexedTail(ts, 1);
      match ts[0].kind {
        case AT => EatGood(ts[1..], IDENT); if Eat(ts[1..], IDENT).Ok? { IdentGood(Eat(ts[1..], IDENT).value); }
        case LBRACK => ListGood(ts);
        case IDENT => SymbolGood(ts);
        case KEYWORD => SymbolGood(ts);
        case _ =>
      }
    }
  }

  lemma {:induction false} ListGood(ts: seq<Lexeme>)
    requires Lexed(ts) && Sees(ts, LBRACK)
    ensures var r := ParseValue(ts); r.Ok? ==> GoodValue(r.value) && Lexed(r.rest)
    decreases |ts| - 1, 3
  {
    hide Lexable, Lexed, ParseItems;
    LexedTail(ts, 1);
    if Sees(ts[1..], RBRACK) {
      LexedTail(ts, 2);
    } else {
      ItemsGood(ts[1..]);
      var r := ParseItems(ts[1..]);
      if r.Ok? { EatGood(r.rest, RBRACK); }
    }
  }

  lemma {:induction false} SymbolGood(ts: seq<Lexeme>)
    requires Lexed(ts) && (Sees(ts, IDENT) || Sees(ts, KEYWORD))
    ensures var r := ParseSymbol(ts); r.Ok? ==> GoodValue(r.value) && Lexed(r.rest)
    decreases |ts| - 1, 3
  {
    hide Lexable, Lexed, IsName, IsIdent, ParseArgs, GoodArg;
    FirstLexed(ts);
    IdentGood(ts[0].text);
    IdentIsName(ts[0].text);
    LexedTail(ts, 1);
    if Sees(ts[1..], LPAREN) { ArgsGood(ts[1..]); }
  }

  lemma IdentIsName(w: string)
    requires IsIdent(w)  || Lexable(Lexeme(KEYWORD, w))
    ensures IsName(w)
  {
  }

  lemma {:induction false} ItemsGood(ts: seq<Lexeme>)
    requires Lexed(ts)
    ensures var r := ParseItems(ts); r.Ok? ==>
              Lexed(r.rest) && (!Sees(r.rest, DOT) ==> forall v :: v in r.value ==> GoodValue(v))
    decreases |ts|, 1
  {
    hide Lexable, Lexed, ParseValue, GoodValue;
    ValueGood(ts);
    var r := ParseValue(ts);
    if r.Ok? && Sees(r.rest, COMMA) {
      LexedTail(r.rest, 1);
      ItemsGood(r.rest[1..]);
    }
  }

  lemma {:induction false} ArgsGood(ts: seq<Lexeme>)
    requires Lexed(ts)
    ensures var r := ParseArgs(ts); r.Ok? ==> GoodArgs(r.value) && Lexed(r.rest)
    decreases |ts|, 0
  {
    hide Lexable, Lexed, ParseArgList, GoodArg;
    EatGood(ts, LPAREN);
    var r := Eat(ts, LPAREN);
    if r.Ok? {
      if Sees(r.rest, RPAREN) {
        LexedTail(r.rest, 1);
      } else {
        ArgListGood(r.rest, false);
        var l := ParseArgList(r.rest, false);
        if l.Ok? { EatGood(l.rest, RPAREN); }
      }
    }
  }

  lemma {:induction false} ArgListGood(ts: seq<Lexeme>, seenNamed: bool)
    requires Lexed(ts)
    ensures var r := ParseArgList(ts, seenNamed);
            r.Ok? ==> Lexed(r.rest) && Ordered(r.value) && (seenNamed ==> forall a :: a in r.value ==> a.Named?)
                      && (!Sees(r.rest, DOT) ==> forall a :: a in r.value ==> GoodArg(a))
    decreases |ts|, 2
  {
    hide Lexable, Lexed, ParseArg, GoodArg;
    ArgGood(ts);
    var r := ParseArg(ts);
    if r.Ok? && !(r.value.Positional? && seenNamed) && Sees(r.rest, COMMA) {
      var seen := seenNamed || r.value.Named?;
      LexedTail(r.rest, 1);
      ArgListGood(r.rest[1..], seen);
      var more := ParseArgList(r.rest[1..], seen);
      if more.Ok? { OrderedCons(r.value, more.value); }
    }
  }

  lemma OrderedCons(a: Arg, args: seq<Arg>)
    requires Ordered(args) && (a.Named? ==> forall b :: b in args ==> b.Named?)
    ensures Ordered([a] + args)
  {
    var all := [a] + args;
    forall i, j | 0 <= i < j < |all| && all[i].Named? ensures all[j].Named? {
      assert all[j] == args[j - 1];
      if i > 0 { assert all[i] == args[i - 1]; }
    }
  }

  lemma {:induction false} ArgGood(ts: seq<Lexeme>)
    requires Lexed(ts)
    ensures var r := ParseArg(ts); r.Ok? ==> Lexed(r.rest) && (!Sees(r.rest, DOT) ==> GoodArg(r.value))
    decreases |ts|, 1
  {
    hide Lexable, Lexed, ParseValue, GoodValue, IsIdent;
    if Sees(ts, IDENT) && Sees(ts[1..], EQ) {
      FirstLexed(ts);
      IdentGood(ts[0].text);
      LexedTail(ts, 2);
      ValueGood(ts[2..]);
    } else {
      ValueGood(ts);
    }
  }

  /* ---------- lists ---------- */

  /** What the element parser returns is good, unless a dot follows. */
  ghost predicate ReturnsGood<T>(r: Parsed<T>, good: T -> bool) {
    r.Ok? ==> Lexed(r.rest) && (!Sees(r.rest, DOT) ==> good(r.value))
  }

  ghost predicate Accepts<T(!new)>(f: seq<Lexeme> -> Parsed<T>, good: T -> bool) {
    forall ts {:trigger f(ts)} :: Lexed(ts) ==> ReturnsGood(f(ts), good)
  }

  lemma {:induction false} SepGood<T(!new)>(sep: Kind, f: seq<Lexeme> -> Parsed<T>, good: T -> bool, ts: seq<Lexeme>)
    requires Shrinks(f) && Accepts(f, good) && Lexed(ts) && sep != DOT
    ensures var r := SepList(sep, f, ts);
            r.Ok? ==> r.value != [] && Lexed(r.rest) && (!Sees(r.rest, DOT) ==> forall x :: x in r.value ==> good(x))
    decreases |ts|
  {
    hide Lexable, Lexed;
    if f(ts).Ok? && Sees(f(ts).rest, sep) {
      LexedTail(f(ts).rest, 1);
      SepGood(sep, f, good, f(ts).rest[1..]);
    }
  }

  lemma BlockGood<T(!new)>(word: string, f: seq<Lexeme> -> Parsed<T>, good: T -> bool, ts: seq<Lexeme>)
    requires Shrinks(f) && Accepts(f, good) && Lexed(ts)
    ensures var r := ParseBlock(word, f, ts); r.Ok? ==> (forall x :: x in r.value ==> good(x)) && Lexed(r.rest)
  {
    hide Lexable, Lexed, SepList, Accepts;
    EatWordGood(ts, word);
    var r1 := EatKeyword(ts, word);
    if r1.Ok? {
      EatGood(r1.rest, LBRACK);
      var r2 := Eat(r1.rest, LBRACK);
      if r2.Ok? {
        if Sees(r2.rest, RBRACK) {
          EatGood(r2.rest, RBRACK);
        } else {
          SepGood(COMMA, f, good, r2.rest);
          var r3 := SepList(COMMA, f, r2.rest);
          if r3.Ok? { EatGood(r3.rest, RBRACK); }
        }
      }
    }
  }

  lemma AnyNamesGood()
    ensures Accepts(ParseAnyName, GoodName)
  {
    forall ts: seq<Lexeme> | Lexed(ts) && ParseAnyName(ts).Ok?
      ensures ReturnsGood(ParseAnyName(ts), GoodName)
    {
      hide Lexable, Lexed, IsIdent, IsCode;
      FirstLexed(ts);
      IdentGood(ts[0].text);
      LexedTail(ts, 1);
    }
  }

  lemma BoundsGood()
    ensures Accepts(ParseBound, GoodBound)
  {
    forall ts: seq<Lexeme> | Lexed(ts) && ParseBound(ts).Ok?
      ensures ReturnsGood(ParseBound(ts), GoodBound)
    {
      hide Lexable, Lexed, IsIdent;
      EatGood(ts, IDENT);
      IdentGood(Eat(ts, IDENT).value);
      var t1 := Eat(ts, IDENT).rest;
      EatGood(t1, COLON);
      var t2 := Eat(t1, COLON).rest;
      FirstLexed(t2);
      LexedTail(t2, 1);
    }
  }

  lemma ParamsGood()
    ensures Accepts(ParseParam, GoodParam)
  {
    forall ts: seq<Lexeme> | Lexed(ts) && ParseParam(ts).Ok?
      ensures ReturnsGood(ParseParam(ts), GoodParam)
    {
      hide Lexable, Lexed, IsIdent, ParseValue, GoodValue;
      EatGood(ts, IDENT);
      IdentGood(Eat(ts, IDENT).value);
      var t1 := Eat(ts, IDENT).rest;
      EatGood(t1, EQ);
      ValueGood(Eat(t1, EQ).rest);
    }
  }

  lemma OptionalArgsGood(ts: seq<Lexeme>)
    requires Lexed(ts)
    ensures var r := OptionalArgs(ts); r.Ok? ==> GoodArgs(r.value) && Lexed(r.rest)
  {
    hide Lexable, Lexed, ParseArgs, GoodArg;
    if Sees(ts, LPAREN) { ArgsGood(ts); }
  }

  lemma CallsGood()
    ensures Accepts(ParseCall, GoodCall)
  {
    forall ts: seq<Lexeme> | Lexed(ts) && ParseCall(ts).Ok?
      ensures ReturnsGood(ParseCall(ts), GoodCall)
    {
      hide Lexable, Lexed, IsIdent, OptionalArgs, GoodArgs, IsSubsystem;
      LexedTail(ts, 1);
      EatGood(ts[1..], DOT);
      var t1 := Eat(ts[1..], DOT).rest;
      EatGood(t1, IDENT);
      IdentGood(Eat(t1, IDENT).value);
      OptionalArgsGood(Eat(t1, IDENT).rest);
    }
  }

  lemma ContextItemsGood()
    ensures Accepts(ParseArg, GoodArg)
  {
    forall ts: seq<Lexeme> | Lexed(ts) && ParseArg(ts).Ok?
      ensures ReturnsGood(ParseArg(ts), GoodArg)
    {
      ArgGood(ts);
    }
  }

  lemma OutputItemsGood()
    ensures Accepts(ParseItem, GoodItem)
  {
    forall ts: seq<Lexeme> | Lexed(ts) && ParseItem(ts).Ok?
      ensures ReturnsGood(ParseItem(ts), GoodItem)
    {
      hide Lexable, Lexed, ParseAnyName, ParseValue, GoodName, GoodValue;
      AnyNamesGood();
      var t1 := ParseAnyName(ts).rest;
      if Sees(t1, EQ) {
        LexedTail(t1, 1);
        ValueGood(t1[1..]);
      }
    }
  }

  lemma HandlersGood()
    ensures Accepts(ParseHandler, GoodHandler)
  {
    forall ts: seq<Lexeme> | Lexed(ts) && ParseHandler(ts).Ok?
      ensures ReturnsGood(ParseHandler(ts), GoodHandler)
    {
      hide Lexable, Lexed, OptionalArgs, GoodArgs, IsHandler;
      LexedTail(ts, 1);
      OptionalArgsGood(ts[1..]);
    }
  }

  /* ---------- statements ---------- */

  lemma BoundaryGood(ts: seq<Lexeme>)
    requires Lexed(ts)
    ensures var r := ParseBoundary(ts);
            r.Ok? ==> && Lexed(r.rest) && (r.value != [] ==> Sees(ts, PIPE))
                      && (!Sees(r.rest, DOT) ==> forall b :: b in r.value ==> GoodBound(b))
  {
    hide Lexable, Lexed, SepList, Accepts, ParseBound, GoodBound;
    if Sees(ts, PIPE) {
      LexedTail(ts, 1);
      BoundsGood();
      SepGood(COMMA, ParseBound, GoodBound, ts[1..]);
    }
  }

  lemma IdentityGood(ts: seq<Lexeme>)
    requires Lexed(ts)
    ensures var r := ParseIdentity(ts); r.Ok? ==> GoodIdentity(r.value) && Lexed(r.rest)
  {
    hide Lexable, Lexed, SepList, Accepts, ParseAnyName, ParseBoundary, GoodName, GoodBound, Eat, EatKeyword;
    if ParseIdentity(ts).Ok? {
      EatWordGood(ts, "ID");
      var t1 := EatKeyword(ts, "ID").rest;
      EatGood(t1, LBRACK);
      var t2 := Eat(t1, LBRACK).rest;
      AnyNamesGood();
      SepGood(COLON, ParseAnyName, GoodName, t2);
      var t3 := SepList(COLON, ParseAnyName, t2).rest;
      BoundaryGood(t3);
      EatGood(ParseBoundary(t3).rest, RBRACK);
    }
  }

  lemma IntentGood(ts: seq<Lexeme>)
    requires Lexed(ts)
    ensures var r := ParseIntent(ts); r.Ok? ==> GoodIntent(r.value) && Lexed(r.rest)
  {
    hide Lexable, Lexed, SepList, ParseAnyName, ParseParam, GoodName, GoodParam;
    if ParseIntent(ts).Ok? {
      EatWordGood(ts, "Intent");
      var t1 := EatKeyword(ts, "Intent").rest;
      EatGood(t1, LBRACK);
      var t2 := Eat(t1, LBRACK).rest;
      AnyNamesGood();
      var t3 := ParseAnyName(t2).rest;
      assert Lexed(t3);
      if Sees(t3, COMMA) {
        LexedTail(t3, 1);
        ParamsGood();
        SepGood(COMMA, ParseParam, GoodParam, t3[1..]);
        EatGood(SepList(COMMA, ParseParam, t3[1..]).rest, RBRACK);
      } else {
        EatGood(t3, RBRACK);
      }
    }
  }

  lemma HeadGood(ts: seq<Lexeme>)
    requires Lexed(ts)
    ensures var r := ParseHead(ts); r.Ok? ==> GoodIdentity(r.value.0) && GoodIntent(r.value.1) && Lexed(r.rest)
  {
    hide Lexable, Lexed, ParseIdentity, ParseIntent, GoodIdentity, GoodIntent;
    if ParseHead(ts).Ok? {
      IdentityGood(ts);
      var t1 := ParseIdentity(ts).rest;
      EatGood(t1, COLONCOLON);
      var t2 := Eat(t1, COLONCOLON).rest;
      IntentGood(t2);
      EatGood(ParseIntent(t2).rest, ARROW_INTENT);
    }
  }

  lemma WorkGood(ts: seq<Lexeme>)
    requires Lexed(ts)
    ensures var r := ParseWork(ts);
            r.Ok? ==> (r.value.0.Some? ==> forall a :: a in r.value.0.value ==> GoodArg(a))
                      && r.value.1 != [] && (forall c :: c in r.value.1 ==> GoodCall(c)) && Lexed(r.rest)
  {
    hide Lexable, Lexed, ParseBlock, GoodArg, GoodCall, SeesWord;
    if ParseWork(ts).Ok? {
      ContextItemsGood();
      CallsGood();
      var t1 := ts;
      if SeesWord(ts, KEYWORD, "Context") {
        BlockGood("Context", ParseArg, GoodArg, ts);
        var c := ParseContext(ts).rest;
        EatGood(c, COMMA);
        t1 := Eat(c, COMMA).rest;
      }
      BlockGood("Compute", ParseCall, GoodCall, t1);
      EatGood(ParseCompute(t1).rest, ARROW_OUT);
    }
  }

  lemma EndGood(ts: seq<Lexeme>)
    requires Lexed(ts)
    ensures var r := ParseEnd(ts);
            r.Ok? ==> r.value.0 != [] && (forall i :: i in r.value.0 ==> GoodItem(i))
                      && (r.value.1.Some? ==> forall h :: h in r.value.1.value ==> GoodHandler(h)) && Lexed(r.rest)
  {
    hide Lexable, Lexed, ParseBlock, GoodItem, GoodHandler, SeesWord;
    if ParseEnd(ts).Ok? {
      OutputItemsGood();
      HandlersGood();
      BlockGood("Output", ParseItem, GoodItem, ts);
      var t1 := ParseOutput(ts).rest;
      var t2 := t1;
      if SeesWord(t1, KEYWORD, "OnFail") {
        BlockGood("OnFail", ParseHandler, GoodHandler, t1);
        t2 := ParseOnFail(t1).rest;
      }
      if Sees(t2, SEMI) { LexedTail(t2, 1); }
    }
  }

  lemma StatementGood(ts: seq<Lexeme>)
    requires Lexed(ts)
    ensures var r := ParseStatement(ts); r.Ok? ==> GoodStatement(r.value) && Lexed(r.rest)
  {
    hide Lexable, Lexed, ParseHead, ParseWork, ParseEnd, GoodIdentity, GoodIntent, GoodArg, GoodCall, GoodItem,
         GoodHandler;
    if ParseStatement(ts).Ok? {
      HeadGood(ts);
      var t1 := ParseHead(ts).rest;
      WorkGood(t1);
      EndGood(ParseWork(t1).rest);
    }
  }

  lemma {:induction false} StatementsGood(ts: seq<Lexeme>)
    requires Lexed(ts)
    ensures var r := ParseStatements(ts); r.Ok? ==> forall s :: s in r.value ==> GoodStatement(s)
    decreases |ts|
  {
    hide Lexable, Lexed, ParseStatement, GoodStatement;
    if ts != [] && !Sees(ts, EOF) {
      StatementGood(ts);
      var r := ParseStatement(ts);
      if r.Ok? { StatementsGood(r.rest); }
    }
  }

  lemma ProgramGood(ts: seq<Lexeme>)
    requires Lexed(ts)
    ensures ParseProgram(ts).Ok? ==> GoodProgram(ParseProgram(ts).value)
  {
    hide Lexed, ParseStatements, GoodStatement;
    if Sees(ts, PRAGMA) {
      FirstPragma(ts);
      LexedTail(ts, 1);
      StatementsGood(ts[1..]);
    } else {
      StatementsGood(ts);
    }
  }

  lemma FirstPragma(ts: seq<Lexeme>)
    requires Lexed(ts) && Sees(ts, PRAGMA)
    ensures All(IsVersionChar, ts[0].text)
  {
    assert TokenAt(ts, 0);
  }

  /* ---------- the main results ---------- */

  /** Whatever a source text parses to is a well-formed program. */
  lemma AcceptedIsGood(src: string)
    ensures ParseSource(src).Parsed? ==> GoodProgram(ParseSource(src).program)
  {
    hide LexFrom, ParseProgram, GoodProgram, Lexed;
    LexerReturnsLexed(src, 1, 1);
    var lexed := LexFrom(src, 1, 1);
    if lexed.Tokens? { ProgramGood(Strip(lexed.toks)); }
  }

  /** Reprinting what any source text parses to and parsing that gives the same program. */
  lemma ReprintStable(src: string, semi: bool)
    ensures ParseSource(src).Parsed? ==> ParseSource(PrintSource(ParseSource(src).program, semi)) == ParseSource(src)
  {
    hide ParseSource, PrintSource, GoodProgram;
    AcceptedIsGood(src);
    if ParseSource(src).Parsed? { SourceRoundTrip(ParseSource(src).program, semi); }
  }

  /** The programs some source text parses to are exactly the well-formed ones. */
  lemma AcceptedExactly(p: Program)
    ensures (exists src :: ParseSource(src) == ParseResult.Parsed(p)) <==> GoodProgram(p)
  {
    hide ParseSource, PrintSource, GoodProgram;
    if src :| ParseSource(src) == ParseResult.Parsed(p) { AcceptedIsGood(src); }
    if GoodProgram(p) { SourceRoundTrip(p, false); }
  }
}
