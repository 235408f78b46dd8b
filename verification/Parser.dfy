/** The recursive-descent parser of src/parser.js: a token cursor that methods advance, specified by
    functions from the remaining tokens to a value and what is left of them.

    The specification functions are the grammar, one a production: each says what a production eats, in
    which order, with which lookahead, and which error it raises where. The class is the program: its
    methods move the field p and push onto sequences inside loops, and each is proved to return what its
    production returns and to leave the cursor at the tokens the production leaves, or to fail with the
    same error at the same place. An error is located by the number of tokens left when it is raised.
    Parse runs the lexer first and stops at its error. */
module Parser {
  import opened Lexer
  import opened Options

  /* ---------- the syntax tree ---------- */

  datatype Value =
    | StringValue(s: string)
    | NumberValue(lexeme: string)
    | CodeValue(code: string)
    | RefValue(name: string)
    | ListValue(items: seq<Value>)
    | ApplyValue(fn: string, args: seq<Arg>)
    | SymbolValue(symbol: string)

  datatype Arg = Positional(value: Value) | Named(name: string, value: Value)

  datatype Bound = Bound(key: string, value: string, valueType: Kind)

  datatype Identity = Identity(actor: seq<string>, boundary: seq<Bound>)

  datatype Param = Param(name: string, value: Value)

  datatype Intent = Intent(name: string, params: seq<Param>)

  datatype Call = Call(subsystem: string, fn: string, args: seq<Arg>)

  datatype Item = Item(name: string, value: Option<Value>)

  datatype Handler = Handler(name: string, args: seq<Arg>)

  datatype Statement = Statement(identity: Identity, intent: Intent, context: Option<seq<Arg>>,
                                 compute: seq<Call>, output: seq<Item>, onFail: Option<seq<Handler>>)

  datatype Program = Program(version: Option<string>, statements: seq<Statement>)

  /* ---------- results ---------- */

  datatype Code =
    | PARSE | ARG_ORDER | NO_BOUNDARY | UNKNOWN_SUBSYSTEM | EMPTY_COMPUTE | EMPTY_OUTPUT | UNKNOWN_HANDLER

  /** A value and the tokens after it; or an error and how many tokens were left at its token. */
  datatype Parsed<+T> = Ok(value: T, rest: seq<Lexeme>) | Err(code: Code, left: nat) {
    predicate IsFailure() { Err? }

    function PropagateFailure<U>(): Parsed<U>
      requires Err?
    {
      Err(code, left)
    }

    function Extract(): (T, seq<Lexeme>)
      requires Ok?
    {
      (value, rest)
    }
  }

  predicate Sees(ts: seq<Lexeme>, kind: Kind) {
    ts != [] && ts[0].kind == kind
  }

  predicate SeesWord(ts: seq<Lexeme>, kind: Kind, text: string) {
    Sees(ts, kind) && ts[0].text == text
  }

  function Eat(ts: seq<Lexeme>, kind: Kind): (r: Parsed<string>)
    ensures r.Ok? ==> |r.rest| + 1 == |ts|
  {
    if Sees(ts, kind) then Ok(ts[0].text, ts[1..]) else Err(PARSE, |ts|)
  }

  function EatKeyword(ts: seq<Lexeme>, text: string): (r: Parsed<string>)
    ensures r.Ok? ==> |r.rest| + 1 == |ts|
  {
    if SeesWord(ts, KEYWORD, text) then Ok(text, ts[1..]) else Err(PARSE, |ts|)
  }

  /* ---------- values and arguments ---------- */

  function ParseValue(ts: seq<Lexeme>): (r: Parsed<Value>)
    ensures r.Ok? ==> |r.rest| < |ts|
    decreases |ts|, 0
  {
    if ts == [] then Err(PARSE, 0)
    else
      match ts[0].kind
      case STRING => Ok(StringValue(ts[0].text), ts[1..])
      case NUMBER => Ok(NumberValue(ts[0].text), ts[1..])
      case CODE => Ok(CodeValue(ts[0].text), ts[1..])
      case AT =>
        var (name, rest) :- Eat(ts[1..], IDENT);
        Ok(RefValue(name), rest)
      case LBRACK =>
        if Sees(ts[1..], RBRACK) then Ok(ListValue([]), ts[2..])
        else
          var (items, t1) :- ParseItems(ts[1..]);
          var (_, rest) :- Eat(t1, RBRACK);
          Ok(ListValue(items), rest)
      case IDENT => ParseSymbol(ts)
      case KEYWORD => ParseSymbol(ts)
      case _ => Err(PARSE, |ts|)
  }

  /** A symbol, or a call used as a value. */
  function ParseSymbol(ts: seq<Lexeme>): (r: Parsed<Value>)
    requires ts != []
    ensures r.Ok? ==> |r.rest| < |ts|
    decreases |ts| - 1, 3
  {
    if Sees(ts[1..], LPAREN) then
      var (args, rest) :- ParseArgs(ts[1..]);
      Ok(ApplyValue(ts[0].text, args), rest)
    else Ok(SymbolValue(ts[0].text), ts[1..])
  }

  function ParseItems(ts: seq<Lexeme>): (r: Parsed<seq<Value>>)
    ensures r.Ok? ==> |r.rest| < |ts|
    decreases |ts|, 1
  {
    var (item, t1) :- ParseValue(ts);
    if Sees(t1, COMMA) then
      var (items, rest) :- ParseItems(t1[1..]);
      Ok([item] + items, rest)
    else Ok([item], t1)
  }

  function ParseArgs(ts: seq<Lexeme>): (r: Parsed<seq<Arg>>)
    ensures r.Ok? ==> |r.rest| < |ts|
    decreases |ts|, 2
  {
    var (_, t1) :- Eat(ts, LPAREN);
    if Sees(t1, RPAREN) then Ok([], t1[1..])
    else
      var (args, t2) :- ParseArgList(t1, false);
      var (_, rest) :- Eat(t2, RPAREN);
      Ok(args, rest)
  }

  function ParseArgList(ts: seq<Lexeme>, seenNamed: bool): (r: Parsed<seq<Arg>>)
    ensures r.Ok? ==> |r.rest| < |ts|
    decreases |ts|, 2
  {
    var (arg, t1) :- ParseArg(ts);
    if arg.Positional? && seenNamed then Err(ARG_ORDER, |ts|)
    else if Sees(t1, COMMA) then
      var (args, rest) :- ParseArgList(t1[1..], seenNamed || arg.Named?);
      Ok([arg] + args, rest)
    else Ok([arg], t1)
  }

  /** `name = value`, or a value alone. */
  function ParseArg(ts: seq<Lexeme>): (r: Parsed<Arg>)
    ensures r.Ok? ==> |r.rest| < |ts|
    decreases |ts|, 1
  {
    if Sees(ts, IDENT) && Sees(ts[1..], EQ) then
      var (value, rest) :- ParseValue(ts[2..]);
      Ok(Named(ts[0].text, value), rest)
    else
      var (value, rest) :- ParseValue(ts);
      Ok(Positional(value), rest)
  }

  /* ---------- separated lists ---------- */

  ghost predicate Shrinks<T(!new)>(p: seq<Lexeme> -> Parsed<T>) {
    forall ts :: p(ts).Ok? ==> |p(ts).rest| < |ts|
  }

  /** One or more elements with a separator between them. */
  ghost function SepList<T(!new)>(sep: Kind, p: seq<Lexeme> -> Parsed<T>, ts: seq<Lexeme>): (r: Parsed<seq<T>>)
    requires Shrinks(p)
    ensures r.Ok? ==> |r.rest| < |ts|
    decreases |ts|
  {
    var (x, t1) :- p(ts);
    if Sees(t1, sep) then
      var (xs, rest) :- SepList(sep, p, t1[1..]);
      Ok([x] + xs, rest)
    else Ok([x], t1)
  }

  function Prefixed<T>(xs: seq<T>, r: Parsed<seq<T>>): Parsed<seq<T>> {
    match r
    case Ok(ys, rest) => Ok(xs + ys, rest)
    case Err(_, _) => r
  }

  /* ---------- blocks ---------- */

  /** Either kind of name: an actor, an intent or an output. */
  function ParseAnyName(ts: seq<Lexeme>): (r: Parsed<string>)
    ensures r.Ok? ==> |r.rest| < |ts|
  {
    if Sees(ts, IDENT) || Sees(ts, CODE) then Ok(ts[0].text, ts[1..]) else Err(PARSE, |ts|)
  }

  predicate IsBoundKind(kind: Kind) {
    kind == IDENT || kind == CODE || kind == NUMBER || kind == STRING
  }

  function ParseBound(ts: seq<Lexeme>): (r: Parsed<Bound>)
    ensures r.Ok? ==> |r.rest| < |ts|
  {
    var (key, t1) :- Eat(ts, IDENT);
    var (_, t2) :- Eat(t1, COLON);
    if t2 != [] && IsBoundKind(t2[0].kind) then Ok(Bound(key, t2[0].text, t2[0].kind), t2[1..])
    else Err(PARSE, |t2|)
  }

  ghost function ParseBoundary(ts: seq<Lexeme>): (r: Parsed<seq<Bound>>)
    ensures r.Ok? ==> |r.rest| <= |ts|
  {
    if Sees(ts, PIPE) then SepList(COMMA, ParseBound, ts[1..]) else Ok([], ts)
  }

  /** The actor and the boundary, in their brackets. */
  ghost function ParseOwner(ts: seq<Lexeme>): (r: Parsed<Identity>)
    ensures r.Ok? ==> |r.rest| < |ts|
  {
    var (_, t1) :- Eat(ts, LBRACK);
    var (actor, t2) :- SepList(COLON, ParseAnyName, t1);
    var (boundary, t3) :- ParseBoundary(t2);
    var (_, rest) :- Eat(t3, RBRACK);
    Ok(Identity(actor, boundary), rest)
  }

  ghost function ParseIdentity(ts: seq<Lexeme>): (r: Parsed<Identity>)
    ensures r.Ok? ==> |r.rest| < |ts|
  {
    var (_, t1) :- EatKeyword(ts, "ID");
    var (identity, rest) :- ParseOwner(t1);
    if identity.boundary == [] then Err(NO_BOUNDARY, |ts|) else Ok(identity, rest)
  }

  function ParseParam(ts: seq<Lexeme>): (r: Parsed<Param>)
    ensures r.Ok? ==> |r.rest| < |ts|
  {
    var (name, t1) :- Eat(ts, IDENT);
    var (_, t2) :- Eat(t1, EQ);
    var (value, rest) :- ParseValue(t2);
    Ok(Param(name, value), rest)
  }

  ghost function ParseParams(ts: seq<Lexeme>): (r: Parsed<seq<Param>>)
    ensures r.Ok? ==> |r.rest| <= |ts|
  {
    if Sees(ts, COMMA) then SepList(COMMA, ParseParam, ts[1..]) else Ok([], ts)
  }

  ghost function ParseIntent(ts: seq<Lexeme>): (r: Parsed<Intent>)
    ensures r.Ok? ==> |r.rest| < |ts|
  {
    var (_, t1) :- EatKeyword(ts, "Intent");
    var (_, t2) :- Eat(t1, LBRACK);
    var (name, t3) :- ParseAnyName(t2);
    var (params, t4) :- ParseParams(t3);
    var (_, rest) :- Eat(t4, RBRACK);
    Ok(Intent(name, params), rest)
  }

  predicate IsSubsystem(text: string) {
    text == "UDM" || text == "AI" || text == "IOS"
  }

  function OptionalArgs(ts: seq<Lexeme>): (r: Parsed<seq<Arg>>)
    ensures r.Ok? ==> |r.rest| <= |ts|
  {
    if Sees(ts, LPAREN) then ParseArgs(ts) else Ok([], ts)
  }

  function ParseCall(ts: seq<Lexeme>): (r: Parsed<Call>)
    ensures r.Ok? ==> |r.rest| < |ts|
  {
    if !(Sees(ts, IDENT) && IsSubsystem(ts[0].text)) then Err(UNKNOWN_SUBSYSTEM, |ts|)
    else
      var (_, t1) :- Eat(ts[1..], DOT);
      var (fn, t2) :- Eat(t1, IDENT);
      var (args, rest) :- OptionalArgs(t2);
      Ok(Call(ts[0].text, fn, args), rest)
  }

  /** A bracketed, possibly empty list after its keyword. */
  ghost function ParseBlock<T(!new)>(word: string, p: seq<Lexeme> -> Parsed<T>, ts: seq<Lexeme>): (r: Parsed<seq<T>>)
    requires Shrinks(p)
    ensures r.Ok? ==> |r.rest| < |ts|
  {
    var (_, t1) :- EatKeyword(ts, word);
    var (_, t2) :- Eat(t1, LBRACK);
    var (xs, t3) :- if Sees(t2, RBRACK) then Ok([], t2) else SepList(COMMA, p, t2);
    var (_, rest) :- Eat(t3, RBRACK);
    Ok(xs, rest)
  }

  ghost function ParseCompute(ts: seq<Lexeme>): (r: Parsed<seq<Call>>)
    ensures r.Ok? ==> |r.rest| < |ts|
  {
    var (steps, rest) :- ParseBlock("Compute", ParseCall, ts);
    if steps == [] then Err(EMPTY_COMPUTE, |ts|) else Ok(steps, rest)
  }

  ghost function ParseContext(ts: seq<Lexeme>): (r: Parsed<seq<Arg>>)
    ensures r.Ok? ==> |r.rest| < |ts|
  {
    ParseBlock("Context", ParseArg, ts)
  }

  function ParseItem(ts: seq<Lexeme>): (r: Parsed<Item>)
    ensures r.Ok? ==> |r.rest| < |ts|
  {
    var (name, t1) :- ParseAnyName(ts);
    if Sees(t1, EQ) then
      var (value, rest) :- ParseValue(t1[1..]);
      Ok(Item(name, Some(value)), rest)
    else Ok(Item(name, None), t1)
  }

  ghost function ParseOutput(ts: seq<Lexeme>): (r: Parsed<seq<Item>>)
    ensures r.Ok? ==> |r.rest| < |ts|
  {
    var (items, rest) :- ParseBlock("Output", ParseItem, ts);
    if items == [] then Err(EMPTY_OUTPUT, |ts|) else Ok(items, rest)
  }

  predicate IsHandler(text: string) {
    text == "Remediate" || text == "Halt" || text == "Fallback" || text == "Retry"
  }

  function ParseHandler(ts: seq<Lexeme>): (r: Parsed<Handler>)
    ensures r.Ok? ==> |r.rest| < |ts|
  {
    if !(Sees(ts, IDENT) && IsHandler(ts[0].text)) then Err(UNKNOWN_HANDLER, |ts|)
    else
      var (args, rest) :- OptionalArgs(ts[1..]);
      Ok(Handler(ts[0].text, args), rest)
  }

  ghost function ParseOnFail(ts: seq<Lexeme>): (r: Parsed<seq<Handler>>)
    ensures r.Ok? ==> |r.rest| < |ts|
  {
    ParseBlock("OnFail", ParseHandler, ts)
  }

  /* ---------- statements ---------- */

  ghost function ParseContextThenComma(ts: seq<Lexeme>): (r: Parsed<seq<Arg>>)
    ensures r.Ok? ==> |r.rest| < |ts|
  {
    var (items, t1) :- ParseContext(ts);
    var (_, rest) :- Eat(t1, COMMA);
    Ok(items, rest)
  }

  function Optionally<T>(r: Parsed<T>): (o: Parsed<Option<T>>)
    ensures o.Ok? <==> r.Ok?
    ensures o.Ok? ==> o.rest == r.rest
  {
    match r
    case Ok(x, rest) => Ok(Some(x), rest)
    case Err(code, left) => Err(code, left)
  }

  /** The identity and intent blocks and their arrow. */
  ghost function ParseHead(ts: seq<Lexeme>): (r: Parsed<(Identity, Intent)>)
    ensures r.Ok? ==> |r.rest| < |ts|
  {
    var (identity, t1) :- ParseIdentity(ts);
    var (_, t2) :- Eat(t1, COLONCOLON);
    var (intent, t3) :- ParseIntent(t2);
    var (_, rest) :- Eat(t3, ARROW_INTENT);
    Ok((identity, intent), rest)
  }

  ghost function ParseOptionalContext(ts: seq<Lexeme>): (r: Parsed<Option<seq<Arg>>>)
    ensures r.Ok? ==> |r.rest| <= |ts|
  {
    if SeesWord(ts, KEYWORD, "Context") then Optionally(ParseContextThenComma(ts)) else Ok(None, ts)
  }

  /** The optional context block, the compute block and its arrow. */
  ghost function ParseWork(ts: seq<Lexeme>): (r: Parsed<(Option<seq<Arg>>, seq<Call>)>)
    ensures r.Ok? ==> |r.rest| < |ts|
  {
    var (context, t1) :- ParseOptionalContext(ts);
    var (compute, t2) :- ParseCompute(t1);
    var (_, rest) :- Eat(t2, ARROW_OUT);
    Ok((context, compute), rest)
  }

  /** The output block, the optional failure block and the optional terminator. */
  ghost function ParseEnd(ts: seq<Lexeme>): (r: Parsed<(seq<Item>, Option<seq<Handler>>)>)
    ensures r.Ok? ==> |r.rest| < |ts|
  {
    var (output, t1) :- ParseOutput(ts);
    var (onFail, t2) :- if SeesWord(t1, KEYWORD, "OnFail") then Optionally(ParseOnFail(t1)) else Ok(None, t1);
    Ok((output, onFail), if Sees(t2, SEMI) then t2[1..] else t2)
  }

  ghost function ParseStatement(ts: seq<Lexeme>): (r: Parsed<Statement>)
    ensures r.Ok? ==> |r.rest| < |ts|
  {
    var (head, t1) :- ParseHead(ts);
    var (work, t2) :- ParseWork(t1);
    var (end, rest) :- ParseEnd(t2);
    Ok(Statement(head.0, head.1, work.0, work.1, end.0, end.1), rest)
  }

  ghost function ParseStatements(ts: seq<Lexeme>): (r: Parsed<seq<Statement>>)
    decreases |ts|
  {
    if ts == [] || Sees(ts, EOF) then Ok([], ts)
    else
      var (statement, t1) :- ParseStatement(ts);
      var (more, rest) :- ParseStatements(t1);
      Ok([statement] + more, rest)
  }

  ghost function ParseProgram(ts: seq<Lexeme>): Parsed<Program> {
    var version := if Sees(ts, PRAGMA) then Some(ts[0].text) else None;
    var (statements, rest) :- ParseStatements(if Sees(ts, PRAGMA) then ts[1..] else ts);
    Ok(Program(version, statements), rest)
  }

  /* ---------- the parser ---------- */

  /** What a parsing method returns; the cursor has moved past what it read. */
  datatype Outcome<+T> = Done(value: T) | Failed(code: Code, left: nat) {
    predicate IsFailure() { Failed? }

    function PropagateFailure<U>(): Outcome<U>
      requires Failed?
    {
      Failed(code, left)
    }

    function Extract(): T
      requires Done?
    {
      value
    }
  }

  /** The method did what the function says: the same value with the cursor before the same tokens,
      or the same error at the same token. */
  ghost predicate Follows<T>(r: Outcome<T>, spec: Parsed<T>, left: seq<Lexeme>) {
    match spec
    case Ok(x, rest) => r == Done(x) && left == rest
    case Err(code, n) => r == Failed(code, n)
  }

  lemma SepStep<T(!new)>(sep: Kind, f: seq<Lexeme> -> Parsed<T>, start: seq<Lexeme>, xs: seq<T>, cur: seq<Lexeme>)
    requires Shrinks(f) && SepList(sep, f, start) == Prefixed(xs, SepList(sep, f, cur))
    ensures match f(cur)
            case Err(code, left) => SepList(sep, f, start) == Err(code, left)
            case Ok(x, t1) =>
              if Sees(t1, sep) then SepList(sep, f, start) == Prefixed(xs + [x], SepList(sep, f, t1[1..]))
              else SepList(sep, f, start) == Ok(xs + [x], t1)
  {
    if f(cur).Ok? && Sees(f(cur).rest, sep) {
      PrefixedTwice(xs, f(cur).value, SepList(sep, f, f(cur).rest[1..]));
    }
  }

  lemma PrefixedTwice<T>(xs: seq<T>, x: T, r: Parsed<seq<T>>)
    ensures r.Ok? ==> Prefixed(xs + [x], r) == Ok(xs + ([x] + r.value), r.rest)
  {
    if r.Ok? { assert (xs + [x]) + r.value == xs + ([x] + r.value); }
  }

  lemma PrefixedNothing<T>(r: Parsed<seq<T>>)
    ensures Prefixed([], r) == r
  {
    if r.Ok? { assert [] + r.value == r.value; }
  }

  class Cursor {
    const toks: seq<Lexeme>
    var p: nat

    /** The lexer ends its tokens with EOF, which no rule eats. */
    ghost predicate Valid()
      reads this
    {
      p < |toks| && toks[|toks| - 1].kind == EOF
    }

    ghost function Left(): seq<Lexeme>
      requires p <= |toks|
      reads this
    {
      toks[p..]
    }

    constructor (toks: seq<Lexeme>)
      requires toks != [] && toks[|toks| - 1].kind == EOF
      ensures Valid() && Left() == toks && this.toks == toks
    {
      this.toks := toks;
      p := 0;
    }

    method Peek(k: nat) returns (t: Lexeme)
      requires Valid()
      ensures t == if p + k < |toks| then toks[p + k] else toks[|toks| - 1]
    {
      t := if p + k < |toks| then toks[p + k] else toks[|toks| - 1];
    }

    method SeesNow(kind: Kind) returns (yes: bool)
      requires Valid() && kind != EOF
      ensures yes <==> Sees(Left(), kind)
    {
      var t := Peek(0);
      yes := t.kind == kind;
    }

    method EatToken(kind: Kind) returns (r: Outcome<string>)
      requires Valid() && kind != EOF
      modifies this`p
      ensures Valid() && Follows(r, Eat(old(Left()), kind), Left())
    {
      var yes := SeesNow(kind);
      if !yes { return Failed(PARSE, |toks| - p); }
      assert Left()[1..] == toks[p + 1..];
      p := p + 1;
      return Done(toks[p - 1].text);
    }

    method EatWord(text: string) returns (r: Outcome<string>)
      requires Valid()
      modifies this`p
      ensures Valid() && Follows(r, EatKeyword(old(Left()), text), Left())
    {
      var yes := SeesNow(KEYWORD);
      if !yes || toks[p].text != text { return Failed(PARSE, |toks| - p); }
      assert Left()[1..] == toks[p + 1..];
      p := p + 1;
      return Done(text);
    }

    method Opt(kind: Kind) returns (eaten: bool)
      requires Valid() && kind != EOF
      modifies this`p
      ensures Valid() && (eaten <==> Sees(old(Left()), kind))
      ensures Left() == if eaten then old(Left())[1..] else old(Left())
    {
      eaten := SeesNow(kind);
      if eaten {
        assert Left()[1..] == toks[p + 1..];
        p := p + 1;
      }
    }

    /* values and arguments */

    method ReadValue() returns (r: Outcome<Value>)
      requires Valid()
      modifies this`p
      ensures Valid() && Follows(r, ParseValue(old(Left())), Left())
      decreases |toks| - p, 0
    {
      hide ParseItems, ParseSymbol;
      var t := Peek(0);
      ghost var start := Left();
      assert start[0] == t && start[1..] == toks[p + 1..];
      match t.kind {
        case STRING => p := p + 1; return Done(StringValue(t.text));
        case NUMBER => p := p + 1; return Done(NumberValue(t.text));
        case CODE => p := p + 1; return Done(CodeValue(t.text));
        case AT =>
          p := p + 1;
          var name :- EatToken(IDENT);
          return Done(RefValue(name));
        case LBRACK => r := ReadList();
        case IDENT => r := ReadSymbol();
        case KEYWORD => r := ReadSymbol();
        case _ => return Failed(PARSE, |toks| - p);
      }
    }

    method ReadList() returns (r: Outcome<Value>)
      requires Valid() && toks[p].kind == LBRACK
      modifies this`p
      ensures Valid() && Follows(r, ParseValue(old(Left())), Left())
      decreases |toks| - p - 1, 3
    {
      hide ParseItems, ParseSymbol;
      assert Left()[0] == toks[p] && Left()[1..] == toks[p + 1..];
      p := p + 1;
      var items: seq<Value> := [];
      var empty := SeesNow(RBRACK);
      if empty {
        assert old(Left())[2..] == Left()[1..];
      } else {
        items :- ReadItems();
      }
      var _ :- EatToken(RBRACK);
      return Done(ListValue(items));
    }

    method ReadSymbol() returns (r: Outcome<Value>)
      requires Valid() && toks[p].kind != EOF
      modifies this`p
      ensures Valid() && Follows(r, ParseSymbol(old(Left())), Left())
      decreases |toks| - p - 1, 3
    {
      var t := toks[p];
      assert Left()[1..] == toks[p + 1..];
      p := p + 1;
      var call := SeesNow(LPAREN);
      if call {
        var args :- ReadArgs();
        return Done(ApplyValue(t.text, args));
      }
      return Done(SymbolValue(t.text));
    }

    method ReadItems() returns (r: Outcome<seq<Value>>)
      requires Valid()
      modifies this`p
      ensures Valid() && Follows(r, ParseItems(old(Left())), Left())
      decreases |toks| - p, 1
    {
      ghost var start := Left();
      var items: seq<Value> := [];
      var more := true;
      PrefixedNothing(ParseItems(start));
      while more
        invariant Valid() && |Left()| <= |start|
        invariant more ==> ParseItems(start) == Prefixed(items, ParseItems(Left()))
        invariant !more ==> ParseItems(start) == Ok(items, Left())
        decreases |toks| - p
      {
        ghost var cur := Left();
        var item :- ReadValue();
        ghost var t1 := Left();
        more := Opt(COMMA);
        if more { PrefixedTwice(items, item, ParseItems(t1[1..])); }
        items := items + [item];
      }
      return Done(items);
    }

    method ReadArgs() returns (r: Outcome<seq<Arg>>)
      requires Valid()
      modifies this`p
      ensures Valid() && Follows(r, ParseArgs(old(Left())), Left())
      decreases |toks| - p, 0
    {
      var _ :- EatToken(LPAREN);
      var args: seq<Arg> := [];
      var empty := SeesNow(RPAREN);
      if !empty { args :- ReadArgList(); }
      var _ :- EatToken(RPAREN);
      return Done(args);
    }

    method ReadArgList() returns (r: Outcome<seq<Arg>>)
      requires Valid()
      modifies this`p
      ensures Valid() && Follows(r, ParseArgList(old(Left()), false), Left())
      decreases |toks| - p, 2
    {
      hide ParseArg;
      ghost var start := Left();
      var args: seq<Arg> := [];
      var seenNamed, more := false, true;
      PrefixedNothing(ParseArgList(start, false));
      while more
        invariant Valid() && |Left()| <= |start|
        invariant more ==> ParseArgList(start, false) == Prefixed(args, ParseArgList(Left(), seenNamed))
        invariant !more ==> ParseArgList(start, false) == Ok(args, Left())
        decreases |toks| - p
      {
        var at := p;
        var arg :- ReadArg();
        if arg.Positional? && seenNamed { return Failed(ARG_ORDER, |toks| - at); }
        seenNamed := seenNamed || arg.Named?;
        ghost var t1 := Left();
        more := Opt(COMMA);
        if more { PrefixedTwice(args, arg, ParseArgList(t1[1..], seenNamed)); }
        args := args + [arg];
      }
      return Done(args);
    }

    method ReadArg() returns (r: Outcome<Arg>)
      requires Valid()
      modifies this`p
      ensures Valid() && Follows(r, ParseArg(old(Left())), Left())
      decreases |toks| - p, 1
    {
      hide ParseValue;
      var t := Peek(0);
      var next := Peek(1);
      ghost var start := Left();
      assert start[0] == t && start[1..] == toks[p + 1..];
      assert p + 1 < |toks| ==> start[1..][0] == next;
      if t.kind == IDENT && next.kind == EQ {
        assert start[2..] == toks[p + 2..];
        p := p + 2;
        var value :- ReadValue();
        return Done(Named(t.text, value));
      }
      var value :- ReadValue();
      return Done(Positional(value));
    }

    /* elements */

    method ReadAnyName() returns (r: Outcome<string>)
      requires Valid()
      modifies this`p
      ensures Valid() && Follows(r, ParseAnyName(old(Left())), Left())
    {
      var t := Peek(0);
      assert Left()[0] == t && Left()[1..] == toks[p + 1..];
      if t.kind != IDENT && t.kind != CODE { return Failed(PARSE, |toks| - p); }
      p := p + 1;
      return Done(t.text);
    }

    method ReadBound() returns (r: Outcome<Bound>)
      requires Valid()
      modifies this`p
      ensures Valid() && Follows(r, ParseBound(old(Left())), Left())
    {
      var key :- EatToken(IDENT);
      var _ :- EatToken(COLON);
      var v := Peek(0);
      assert Left()[0] == v && Left()[1..] == toks[p + 1..];
      if !IsBoundKind(v.kind) { return Failed(PARSE, |toks| - p); }
      p := p + 1;
      return Done(Bound(key, v.text, v.kind));
    }

    method ReadParam() returns (r: Outcome<Param>)
      requires Valid()
      modifies this`p
      ensures Valid() && Follows(r, ParseParam(old(Left())), Left())
    {
      hide ParseValue;
      var name :- EatToken(IDENT);
      var _ :- EatToken(EQ);
      var value :- ReadValue();
      return Done(Param(name, value));
    }

    method ReadOptionalArgs() returns (r: Outcome<seq<Arg>>)
      requires Valid()
      modifies this`p
      ensures Valid() && Follows(r, OptionalArgs(old(Left())), Left())
    {
      hide ParseArgs;
      var given := SeesNow(LPAREN);
      if given { r := ReadArgs(); } else { r := Done([]); }
    }

    method ReadCall() returns (r: Outcome<Call>)
      requires Valid()
      modifies this`p
      ensures Valid() && Follows(r, ParseCall(old(Left())), Left())
    {
      hide Eat, OptionalArgs;
      var sys := Peek(0);
      assert Left()[0] == sys && Left()[1..] == toks[p + 1..];
      if sys.kind != IDENT || !IsSubsystem(sys.text) { return Failed(UNKNOWN_SUBSYSTEM, |toks| - p); }
      p := p + 1;
      var _ :- EatToken(DOT);
      var fn :- EatToken(IDENT);
      var args :- ReadOptionalArgs();
      return Done(Call(sys.text, fn, args));
    }

    method ReadItem() returns (r: Outcome<Item>)
      requires Valid()
      modifies this`p
      ensures Valid() && Follows(r, ParseItem(old(Left())), Left())
    {
      hide ParseValue;
      var name :- ReadAnyName();
      var bound := Opt(EQ);
      if bound {
        var value :- ReadValue();
        return Done(Item(name, Some(value)));
      }
      return Done(Item(name, None));
    }

    method ReadHandler() returns (r: Outcome<Handler>)
      requires Valid()
      modifies this`p
      ensures Valid() && Follows(r, ParseHandler(old(Left())), Left())
    {
      hide Eat, OptionalArgs;
      var t := Peek(0);
      assert Left()[0] == t && Left()[1..] == toks[p + 1..];
      if t.kind != IDENT || !IsHandler(t.text) { return Failed(UNKNOWN_HANDLER, |toks| - p); }
      p := p + 1;
      var args :- ReadOptionalArgs();
      return Done(Handler(t.text, args));
    }

    /* lists */

    /** ActorSpec ::= Identifier (":" Identifier)* */
    method ReadActor() returns (r: Outcome<seq<string>>)
      requires Valid()
      modifies this`p
      ensures Valid() && Follows(r, SepList(COLON, ParseAnyName, old(Left())), Left())
    {
      hide Eat, EatKeyword, SepList, ParseAnyName;
      ghost var start := Left();
      var xs: seq<string> := [];
      var more := true;
      PrefixedNothing(SepList(COLON, ParseAnyName, start));
      while more
        invariant Valid() && |Left()| <= |start|
        invariant more ==> SepList(COLON, ParseAnyName, start) == Prefixed(xs, SepList(COLON, ParseAnyName, Left()))
        invariant !more ==> SepList(COLON, ParseAnyName, start) == Ok(xs, Left())
        decreases |toks| - p
      {
        SepStep(COLON, ParseAnyName, start, xs, Left());
        var x :- ReadAnyName();
        more := Opt(COLON);
        xs := xs + [x];
      }
      return Done(xs);
    }

    /** The boundary keys and values. */
    method ReadBoundary() returns (r: Outcome<seq<Bound>>)
      requires Valid()
      modifies this`p
      ensures Valid() && Follows(r, SepList(COMMA, ParseBound, old(Left())), Left())
    {
      hide Eat, EatKeyword, SepList, ParseBound;
      ghost var start := Left();
      var xs: seq<Bound> := [];
      var more := true;
      PrefixedNothing(SepList(COMMA, ParseBound, start));
      while more
        invariant Valid() && |Left()| <= |start|
        invariant more ==> SepList(COMMA, ParseBound, start) == Prefixed(xs, SepList(COMMA, ParseBound, Left()))
        invariant !more ==> SepList(COMMA, ParseBound, start) == Ok(xs, Left())
        decreases |toks| - p
      {
        SepStep(COMMA, ParseBound, start, xs, Left());
        var x :- ReadBound();
        more := Opt(COMMA);
        xs := xs + [x];
      }
      return Done(xs);
    }

    /** The parameters after an intent name. */
    method ReadParams() returns (r: Outcome<seq<Param>>)
      requires Valid()
      modifies this`p
      ensures Valid() && Follows(r, SepList(COMMA, ParseParam, old(Left())), Left())
    {
      hide Eat, EatKeyword, SepList, ParseParam;
      ghost var start := Left();
      var xs: seq<Param> := [];
      var more := true;
      PrefixedNothing(SepList(COMMA, ParseParam, start));
      while more
        invariant Valid() && |Left()| <= |start|
        invariant more ==> SepList(COMMA, ParseParam, start) == Prefixed(xs, SepList(COMMA, ParseParam, Left()))
        invariant !more ==> SepList(COMMA, ParseParam, start) == Ok(xs, Left())
        decreases |toks| - p
      {
        SepStep(COMMA, ParseParam, start, xs, Left());
        var x :- ReadParam();
        more := Opt(COMMA);
        xs := xs + [x];
      }
      return Done(xs);
    }

    /** The steps of a compute block. */
    method ReadSteps() returns (r: Outcome<seq<Call>>)
      requires Valid()
      modifies this`p
      ensures Valid() && Follows(r, SepList(COMMA, ParseCall, old(Left())), Left())
    {
      hide Eat, EatKeyword, SepList, ParseCall;
      ghost var start := Left();
      var xs: seq<Call> := [];
      var more := true;
      PrefixedNothing(SepList(COMMA, ParseCall, start));
      while more
        invariant Valid() && |Left()| <= |start|
        invariant more ==> SepList(COMMA, ParseCall, start) == Prefixed(xs, SepList(COMMA, ParseCall, Left()))
        invariant !more ==> SepList(COMMA, ParseCall, start) == Ok(xs, Left())
        decreases |toks| - p
      {
        SepStep(COMMA, ParseCall, start, xs, Left());
        var x :- ReadCall();
        more := Opt(COMMA);
        xs := xs + [x];
      }
      return Done(xs);
    }

    /** The items of a context block, in any order. */
    method ReadContextItems() returns (r: Outcome<seq<Arg>>)
      requires Valid()
      modifies this`p
      ensures Valid() && Follows(r, SepList(COMMA, ParseArg, old(Left())), Left())
    {
      hide Eat, EatKeyword, SepList, ParseArg;
      ghost var start := Left();
      var xs: seq<Arg> := [];
      var more := true;
      PrefixedNothing(SepList(COMMA, ParseArg, start));
      while more
        invariant Valid() && |Left()| <= |start|
        invariant more ==> SepList(COMMA, ParseArg, start) == Prefixed(xs, SepList(COMMA, ParseArg, Left()))
        invariant !more ==> SepList(COMMA, ParseArg, start) == Ok(xs, Left())
        decreases |toks| - p
      {
        SepStep(COMMA, ParseArg, start, xs, Left());
        var x :- ReadArg();
        more := Opt(COMMA);
        xs := xs + [x];
      }
      return Done(xs);
    }

    /** The items of an output block. */
    method ReadOutputs() returns (r: Outcome<seq<Item>>)
      requires Valid()
      modifies this`p
      ensures Valid() && Follows(r, SepList(COMMA, ParseItem, old(Left())), Left())
    {
      hide Eat, EatKeyword, SepList, ParseItem;
      ghost var start := Left();
      var xs: seq<Item> := [];
      var more := true;
      PrefixedNothing(SepList(COMMA, ParseItem, start));
      while more
        invariant Valid() && |Left()| <= |start|
        invariant more ==> SepList(COMMA, ParseItem, start) == Prefixed(xs, SepList(COMMA, ParseItem, Left()))
        invariant !more ==> SepList(COMMA, ParseItem, start) == Ok(xs, Left())
        decreases |toks| - p
      {
        SepStep(COMMA, ParseItem, start, xs, Left());
        var x :- ReadItem();
        more := Opt(COMMA);
        xs := xs + [x];
      }
      return Done(xs);
    }

    /** The handlers of a failure block. */
    method ReadHandlers() returns (r: Outcome<seq<Handler>>)
      requires Valid()
      modifies this`p
      ensures Valid() && Follows(r, SepList(COMMA, ParseHandler, old(Left())), Left())
    {
      hide Eat, EatKeyword, SepList, ParseHandler;
      ghost var start := Left();
      var xs: seq<Handler> := [];
      var more := true;
      PrefixedNothing(SepList(COMMA, ParseHandler, start));
      while more
        invariant Valid() && |Left()| <= |start|
        invariant more ==> SepList(COMMA, ParseHandler, start) == Prefixed(xs, SepList(COMMA, ParseHandler, Left()))
        invariant !more ==> SepList(COMMA, ParseHandler, start) == Ok(xs, Left())
        decreases |toks| - p
      {
        SepStep(COMMA, ParseHandler, start, xs, Left());
        var x :- ReadHandler();
        more := Opt(COMMA);
        xs := xs + [x];
      }
      return Done(xs);
    }

    /* blocks */

    method ReadOptionalBoundary() returns (r: Outcome<seq<Bound>>)
      requires Valid()
      modifies this`p
      ensures Valid() && Follows(r, ParseBoundary(old(Left())), Left())
    {
      hide SepList, ParseBound;
      var bounded := Opt(PIPE);
      if !bounded { return Done([]); }
      r := ReadBoundary();
    }

    method ReadIdentity() returns (r: Outcome<Identity>)
      requires Valid()
      modifies this`p
      ensures Valid() && Follows(r, ParseIdentity(old(Left())), Left())
    {
      hide EatKeyword, ParseOwner;
      var at := |toks| - p;
      var _ :- EatWord("ID");
      var identity :- ReadOwner();
      if |identity.boundary| == 0 { return Failed(NO_BOUNDARY, at); }
      return Done(identity);
    }

    method ReadOwner() returns (r: Outcome<Identity>)
      requires Valid()
      modifies this`p
      ensures Valid() && Follows(r, ParseOwner(old(Left())), Left())
    {
      hide Eat, SepList, ParseAnyName, ParseBoundary;
      var _ :- EatToken(LBRACK);
      var actor :- ReadActor();
      var boundary :- ReadOptionalBoundary();
      var _ :- EatToken(RBRACK);
      return Done(Identity(actor, boundary));
    }

    method ReadIntent() returns (r: Outcome<Intent>)
      requires Valid()
      modifies this`p
      ensures Valid() && Follows(r, ParseIntent(old(Left())), Left())
    {
      hide Eat, EatKeyword, ParseParams, ParseAnyName;
      var _ :- EatWord("Intent");
      var _ :- EatToken(LBRACK);
      var name :- ReadAnyName();
      var params :- ReadOptionalParams();
      var _ :- EatToken(RBRACK);
      return Done(Intent(name, params));
    }

    method ReadOptionalParams() returns (r: Outcome<seq<Param>>)
      requires Valid()
      modifies this`p
      ensures Valid() && Follows(r, ParseParams(old(Left())), Left())
    {
      hide SepList, ParseParam;
      var given := Opt(COMMA);
      if !given { return Done([]); }
      r := ReadParams();
    }

    method ReadCompute() returns (r: Outcome<seq<Call>>)
      requires Valid()
      modifies this`p
      ensures Valid() && Follows(r, ParseCompute(old(Left())), Left())
    {
      hide Eat, EatKeyword, SepList, ParseCall;
      var at := |toks| - p;
      var _ :- EatWord("Compute");
      var _ :- EatToken(LBRACK);
      var xs: seq<Call> := [];
      var empty := SeesNow(RBRACK);
      if !empty { xs :- ReadSteps(); }
      var _ :- EatToken(RBRACK);
      if |xs| == 0 { return Failed(EMPTY_COMPUTE, at); }
      return Done(xs);
    }

    method ReadContext() returns (r: Outcome<seq<Arg>>)
      requires Valid()
      modifies this`p
      ensures Valid() && Follows(r, ParseContext(old(Left())), Left())
    {
      hide Eat, EatKeyword, SepList, ParseArg;
      var _ :- EatWord("Context");
      var _ :- EatToken(LBRACK);
      var xs: seq<Arg> := [];
      var empty := SeesNow(RBRACK);
      if !empty { xs :- ReadContextItems(); }
      var _ :- EatToken(RBRACK);
      return Done(xs);
    }

    method ReadOutput() returns (r: Outcome<seq<Item>>)
      requires Valid()
      modifies this`p
      ensures Valid() && Follows(r, ParseOutput(old(Left())), Left())
    {
      hide Eat, EatKeyword, SepList, ParseItem;
      var at := |toks| - p;
      var _ :- EatWord("Output");
      var _ :- EatToken(LBRACK);
      var xs: seq<Item> := [];
      var empty := SeesNow(RBRACK);
      if !empty { xs :- ReadOutputs(); }
      var _ :- EatToken(RBRACK);
      if |xs| == 0 { return Failed(EMPTY_OUTPUT, at); }
      return Done(xs);
    }

    method ReadOnFail() returns (r: Outcome<seq<Handler>>)
      requires Valid()
      modifies this`p
      ensures Valid() && Follows(r, ParseOnFail(old(Left())), Left())
    {
      hide Eat, EatKeyword, SepList, ParseHandler;
      var _ :- EatWord("OnFail");
      var _ :- EatToken(LBRACK);
      var xs: seq<Handler> := [];
      var empty := SeesNow(RBRACK);
      if !empty { xs :- ReadHandlers(); }
      var _ :- EatToken(RBRACK);
      return Done(xs);
    }

    method SeesWordNow(text: string) returns (yes: bool)
      requires Valid()
      ensures yes <==> SeesWord(Left(), KEYWORD, text)
    {
      var t := Peek(0);
      yes := t.kind == KEYWORD && t.text == text;
    }

    method ReadHead() returns (r: Outcome<(Identity, Intent)>)
      requires Valid()
      modifies this`p
      ensures Valid() && Follows(r, ParseHead(old(Left())), Left())
    {
      hide ParseIdentity, ParseIntent;
      var identity :- ReadIdentity();
      var _ :- EatToken(COLONCOLON);
      var intent :- ReadIntent();
      var _ :- EatToken(ARROW_INTENT);
      return Done((identity, intent));
    }

    method ReadOptionalContext() returns (r: Outcome<Option<seq<Arg>>>)
      requires Valid()
      modifies this`p
      ensures Valid() && Follows(r, ParseOptionalContext(old(Left())), Left())
    {
      hide ParseContext;
      var given := SeesWordNow("Context");
      if !given { return Done(None); }
      var items :- ReadContext();
      var _ :- EatToken(COMMA);
      return Done(Some(items));
    }

    method ReadWork() returns (r: Outcome<(Option<seq<Arg>>, seq<Call>)>)
      requires Valid()
      modifies this`p
      ensures Valid() && Follows(r, ParseWork(old(Left())), Left())
    {
      hide ParseOptionalContext, ParseCompute;
      var context :- ReadOptionalContext();
      var compute :- ReadCompute();
      var _ :- EatToken(ARROW_OUT);
      return Done((context, compute));
    }

    method ReadEnd() returns (r: Outcome<(seq<Item>, Option<seq<Handler>>)>)
      requires Valid()
      modifies this`p
      ensures Valid() && Follows(r, ParseEnd(old(Left())), Left())
    {
      hide ParseOutput, ParseOnFail;
      var output :- ReadOutput();
      var onFail: Option<seq<Handler>> := None;
      var given := SeesWordNow("OnFail");
      if given {
        var handlers :- ReadOnFail();
        onFail := Some(handlers);
      }
      var _ := Opt(SEMI);
      return Done((output, onFail));
    }

    method ReadStatement() returns (r: Outcome<Statement>)
      requires Valid()
      modifies this`p
      ensures Valid() && Follows(r, ParseStatement(old(Left())), Left())
    {
      hide ParseHead, ParseWork, ParseEnd;
      var head :- ReadHead();
      var work :- ReadWork();
      var end :- ReadEnd();
      return Done(Statement(head.0, head.1, work.0, work.1, end.0, end.1));
    }

    method ReadProgram() returns (r: Outcome<Program>)
      requires Valid()
      modifies this`p
      ensures Valid() && Follows(r, ParseProgram(old(Left())), Left())
    {
      hide ParseStatements;
      var version: Option<string> := None;
      var t := Peek(0);
      assert Left()[0] == t && Left()[1..] == toks[p + 1..];
      if t.kind == PRAGMA {
        version := Some(t.text);
        p := p + 1;
      }
      var statements :- ReadStatements();
      return Done(Program(version, statements));
    }

    method ReadStatements() returns (r: Outcome<seq<Statement>>)
      requires Valid()
      modifies this`p
      ensures Valid() && Follows(r, ParseStatements(old(Left())), Left())
    {
      hide ParseStatement;
      ghost var start := Left();
      var statements: seq<Statement> := [];
      PrefixedNothing(ParseStatements(start));
      var ended := SeesEof();
      while !ended
        invariant Valid() && |Left()| <= |start|
        invariant ended <==> Sees(Left(), EOF)
        invariant ParseStatements(start) == Prefixed(statements, ParseStatements(Left()))
        decreases |toks| - p
      {
        ghost var cur := Left();
        var statement :- ReadStatement();
        PrefixedTwice(statements, statement, ParseStatements(Left()));
        statements := statements + [statement];
        ended := SeesEof();
      }
      assert statements + [] == statements;
      return Done(statements);
    }

    method SeesEof() returns (yes: bool)
      requires Valid()
      ensures yes <==> Sees(Left(), EOF)
    {
      var t := Peek(0);
      yes := t.kind == EOF;
    }
  }

  /* ---------- from text to tree ---------- */

  datatype ParseResult =
    | Parsed(program: Program)
    | LexFailure(error: ErrorCode, line: nat, col: nat)
    | ParseFailure(code: Code, line: nat, col: nat)

  function AtToken(toks: seq<Token>, code: Code, left: nat): ParseResult
    requires toks != []
  {
    var t := if 1 <= left <= |toks| then toks[|toks| - left] else toks[|toks| - 1];
    ParseFailure(code, t.line, t.col)
  }

  lemma {:induction false} LexEndsInEof(s: string, line: nat, col: nat)
    ensures var r := LexFrom(s, line, col);
            r.Tokens? ==> r.toks != [] && r.toks[|r.toks| - 1].lexeme.kind == EOF
    decreases |s|
  {
    hide Scan;
    if s != "" {
      var step := Scan(s);
      match step {
        case Newline => LexEndsInEof(s[1..], line + 1, 1);
        case Blank => LexEndsInEof(s[1..], line, col + 1);
        case Comment(n) => LexEndsInEof(s[n..], line, col);
        case Tok(_, n) => LexEndsInEof(s[n..], line, col + n);
        case Fail(_, _) =>
      }
    }
  }

  /** The tree a source text denotes, or where it goes wrong. */
  ghost function ParseSource(src: string): ParseResult {
    LexEndsInEof(src, 1, 1);
    match LexFrom(src, 1, 1)
    case LexError(code, line, col) => LexFailure(code, line, col)
    case Tokens(toks) =>
      match ParseProgram(Strip(toks))
      case Ok(program, _) => ParseResult.Parsed(program)
      case Err(code, left) => AtToken(toks, code, left)
  }

  method Parse(src: string) returns (r: ParseResult)
    ensures r == ParseSource(src)
  {
    hide ParseProgram, LexFrom;
    LexEndsInEof(src, 1, 1);
    var lexed := Lex(src);
    match lexed {
      case LexError(code, line, col) => return LexFailure(code, line, col);
      case Tokens(toks) =>
        var cursor := new Cursor(Strip(toks));
        var result := cursor.ReadProgram();
        match result {
          case Done(program) => return ParseResult.Parsed(program);
          case Failed(code, left) => return AtToken(toks, code, left);
        }
    }
  }
}
