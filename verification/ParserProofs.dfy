/** Parsing inverts printing: every well-formed element, printed as its tokens, parses back to itself
    and leaves the tokens that follow it.

    An element may be followed by anything its context can put there, and the parser looks ahead, so the
    lemmas carry what has to be known of the next token: a symbol must not be followed by an opening
    parenthesis, a positional argument must not be followed by an equals sign, a list must be followed by
    what ends it. Separated lists are handled once, for any element parser that inverts its printer
    under the separator and under the closing token, and each block of the grammar is an instance of
    that. Values and arguments nest in each other, so their lemmas are mutually recursive over the
    syntax tree. */
module ParserProofs {
  import opened Lexer
  import opened LexerProofs
  import opened Parser

  /* ---------- printing ---------- */

  function NameLexeme(text: string): Lexeme {
    Lexeme(if IsKeyword(text) then KEYWORD else IDENT, text)
  }

  /** An actor, intent or output name is an identifier or a code. */
  function AnyNameLexeme(text: string): Lexeme {
    Lexeme(if IsIdent(text) then IDENT else CODE, text)
  }

  function Punct(kind: Kind): Lexeme {
    match kind
    case COLONCOLON => Lexeme(COLONCOLON, "::")
    case ARROW_INTENT => Lexeme(ARROW_INTENT, "=>")
    case ARROW_OUT => Lexeme(ARROW_OUT, "->")
    case LBRACK => Lexeme(LBRACK, "[")
    case RBRACK => Lexeme(RBRACK, "]")
    case LPAREN => Lexeme(LPAREN, "(")
    case RPAREN => Lexeme(RPAREN, ")")
    case COMMA => Lexeme(COMMA, ",")
    case SEMI => Lexeme(SEMI, ";")
    case PIPE => Lexeme(PIPE, "|")
    case COLON => Lexeme(COLON, ":")
    case EQ => Lexeme(EQ, "=")
    case DOT => Lexeme(DOT, ".")
    case _ => Lexeme(AT, "@")
  }

  function PrintValue(v: Value): seq<Lexeme> {
    match v
    case StringValue(s) => [Lexeme(STRING, s)]
    case NumberValue(n) => [Lexeme(NUMBER, n)]
    case CodeValue(c) => [Lexeme(CODE, c)]
    case RefValue(name) => [Punct(AT), Lexeme(IDENT, name)]
    case ListValue(items) => [Punct(LBRACK)] + (PrintItems(items) + [Punct(RBRACK)])
    case ApplyValue(fn, args) => [NameLexeme(fn)] + ([Punct(LPAREN)] + (PrintArgList(args) + [Punct(RPAREN)]))
    case SymbolValue(symbol) => [NameLexeme(symbol)]
  }

  function PrintItems(items: seq<Value>): seq<Lexeme> {
    if items == [] then []
    else if |items| == 1 then PrintValue(items[0])
    else PrintValue(items[0]) + ([Punct(COMMA)] + PrintItems(items[1..]))
  }

  function PrintArg(a: Arg): seq<Lexeme> {
    match a
    case Positional(value) => PrintValue(value)
    case Named(name, value) => [Lexeme(IDENT, name), Punct(EQ)] + PrintValue(value)
  }

  function PrintArgList(args: seq<Arg>): seq<Lexeme> {
    if args == [] then []
    else if |args| == 1 then PrintArg(args[0])
    else PrintArg(args[0]) + ([Punct(COMMA)] + PrintArgList(args[1..]))
  }

  function PrintArgs(args: seq<Arg>): seq<Lexeme> {
    [Punct(LPAREN)] + (PrintArgList(args) + [Punct(RPAREN)])
  }

  /* ---------- well-formed values ---------- */

  /** Positional arguments come before named ones. */
  predicate Ordered(args: seq<Arg>) {
    forall i, j :: 0 <= i < j < |args| && args[i].Named? ==> args[j].Named?
  }

  predicate GoodValue(v: Value) {
    match v
    case StringValue(_) => true
    case NumberValue(n) => IsNumber(n)
    case CodeValue(c) => IsCode(c)
    case RefValue(name) => IsIdent(name)
    case ListValue(items) => forall v :: v in items ==> GoodValue(v)
    case ApplyValue(fn, args) => IsName(fn) && Ordered(args) && forall a :: a in args ==> GoodArg(a)
    case SymbolValue(symbol) => IsName(symbol)
  }

  predicate GoodArg(a: Arg) {
    GoodValue(a.value) && (a.Named? ==> IsIdent(a.name))
  }

  /* ---------- values parse back ---------- */

  /** What may follow a value. */
  predicate Closes(ts: seq<Lexeme>) {
    Sees(ts, COMMA) || Sees(ts, RBRACK) || Sees(ts, RPAREN)
  }

  lemma Cons(t: Lexeme, ts: seq<Lexeme>)
    ensures ([t] + ts)[0] == t && ([t] + ts)[1..] == ts
  {
  }

  lemma EatsPunct(kind: Kind, ts: seq<Lexeme>)
    requires Punct(kind).kind == kind
    ensures Eat([Punct(kind)] + ts, kind) == Ok(Punct(kind).text, ts)
    ensures forall k :: Sees([Punct(kind)] + ts, k) <==> k == kind
    ensures ([Punct(kind)] + ts)[1..] == ts
  {
  }

  lemma EatsWord(word: string, ts: seq<Lexeme>)
    ensures EatKeyword([Lexeme(KEYWORD, word)] + ts, word) == Ok(word, ts)
  {
    Cons(Lexeme(KEYWORD, word), ts);
  }

  lemma Assoc(a: seq<Lexeme>, b: seq<Lexeme>, c: seq<Lexeme>)
    ensures (a + b) + c == a + (b + c)
  {
  }

  /** The tokens a value is printed as are never empty and never start with closing punctuation. */
  lemma ValueStarts(v: Value)
    ensures PrintValue(v) != []
    ensures PrintValue(v)[0].kind in {STRING, NUMBER, CODE, AT, LBRACK, IDENT, KEYWORD}
    ensures PrintValue(v)[0].kind == IDENT && |PrintValue(v)| > 1 ==> PrintValue(v)[1].kind == LPAREN
  {
  }

  lemma {:induction false} ValueParses(v: Value, rest: seq<Lexeme>)
    requires GoodValue(v) && Closes(rest)
    ensures ParseValue(PrintValue(v) + rest) == Ok(v, rest)
    decreases v, 1
  {
    hide ParseValue;
    match v {
      case ListValue(items) => ListParses(items, rest);
      case ApplyValue(fn, args) => ApplyParses(fn, args, rest);
      case _ => LeafParses(v, rest);
    }
  }

  lemma LeafParses(v: Value, rest: seq<Lexeme>)
    requires !v.ListValue? && !v.ApplyValue? && Closes(rest)
    ensures ParseValue(PrintValue(v) + rest) == Ok(v, rest)
  {
    hide ParseItems, ParseArgs, IsKeyword;
    if v.RefValue? {
      RefParses(v.name, rest);
    } else {
      var ts := PrintValue(v) + rest;
      assert |PrintValue(v)| == 1 && ts[0] == PrintValue(v)[0] && ts[1..] == rest;
    }
  }

  lemma RefParses(name: string, rest: seq<Lexeme>)
    ensures ParseValue(PrintValue(RefValue(name)) + rest) == Ok(RefValue(name), rest)
  {
    hide ParseItems, ParseArgs, ParseSymbol;
    var tail := [Lexeme(IDENT, name)] + rest;
    Cons(Lexeme(IDENT, name), rest);
    Cons(Punct(AT), tail);
    assert PrintValue(RefValue(name)) + rest == [Punct(AT)] + tail;
  }

  lemma ReadsEmptyList(rest: seq<Lexeme>)
    ensures ParseValue([Punct(LBRACK)] + ([Punct(RBRACK)] + rest)) == Ok(ListValue([]), rest)
  {
    hide ParseItems, ParseSymbol;
    Cons(Punct(LBRACK), [Punct(RBRACK)] + rest);
    assert ([Punct(LBRACK)] + ([Punct(RBRACK)] + rest))[2..] == rest;
  }

  lemma ReadsList(inner: seq<Lexeme>, items: seq<Value>, rest: seq<Lexeme>)
    requires !Sees(inner, RBRACK) && ParseItems(inner) == Ok(items, [Punct(RBRACK)] + rest)
    ensures ParseValue([Punct(LBRACK)] + inner) == Ok(ListValue(items), rest)
  {
    hide ParseItems, ParseSymbol;
    Cons(Punct(LBRACK), inner);
    Cons(Punct(RBRACK), rest);
  }

  lemma {:induction false} ListParses(items: seq<Value>, rest: seq<Lexeme>)
    requires (forall v :: v in items ==> GoodValue(v)) && Closes(rest)
    ensures ParseValue(PrintValue(ListValue(items)) + rest) == Ok(ListValue(items), rest)
    decreases items, 2
  {
    hide ParseItems, ParseValue, PrintItems, GoodValue;
    var after := [Punct(RBRACK)] + rest;
    Assoc([Punct(LBRACK)], PrintItems(items) + [Punct(RBRACK)], rest);
    Assoc(PrintItems(items), [Punct(RBRACK)], rest);
    if items == [] {
      NothingPrinted(after);
      ReadsEmptyList(rest);
    } else {
      ItemsStart(items, after);
      assert Sees(after, RBRACK);
      ItemsParse(items, after);
      ReadsList(PrintItems(items) + after, items, rest);
    }
  }

  lemma NothingPrinted(after: seq<Lexeme>)
    ensures PrintItems([]) + after == after
  {
  }

  lemma ItemsStart(items: seq<Value>, after: seq<Lexeme>)
    requires items != []
    ensures var ts := PrintItems(items) + after; ts != [] && !Sees(ts, RBRACK)
  {
    ValueStarts(items[0]);
    assert (PrintItems(items) + after)[0] == PrintValue(items[0])[0];
  }

  lemma {:induction false} ItemsParse(items: seq<Value>, after: seq<Lexeme>)
    requires items != [] && (forall v :: v in items ==> GoodValue(v)) && Sees(after, RBRACK)
    ensures ParseItems(PrintItems(items) + after) == Ok(items, after)
    decreases items, 0
  {
    hide ParseValue, PrintValue, GoodValue;
    if |items| == 1 {
      ValueParses(items[0], after);
      assert items == [items[0]];
    } else {
      var tail := PrintItems(items[1..]) + after;
      Assoc(PrintValue(items[0]), [Punct(COMMA)] + PrintItems(items[1..]), after);
      Assoc([Punct(COMMA)], PrintItems(items[1..]), after);
      ValueParses(items[0], [Punct(COMMA)] + tail);
      Cons(Punct(COMMA), tail);
      ItemsParse(items[1..], after);
      assert items == [items[0]] + items[1..];
    }
  }

  lemma {:induction false} ApplyParses(fn: string, args: seq<Arg>, rest: seq<Lexeme>)
    requires IsName(fn) && Ordered(args) && (forall a :: a in args ==> GoodArg(a)) && Closes(rest)
    ensures ParseValue(PrintValue(ApplyValue(fn, args)) + rest) == Ok(ApplyValue(fn, args), rest)
    decreases args, 4
  {
    hide ParseArgs, ParseItems, PrintArgList, GoodArg, IsKeyword;
    var inner := PrintArgs(args) + rest;
    assert PrintValue(ApplyValue(fn, args)) == [NameLexeme(fn)] + PrintArgs(args);
    Assoc([NameLexeme(fn)], PrintArgs(args), rest);
    Cons(NameLexeme(fn), inner);
    ArgsParse(args, rest);
    assert inner[0] == Punct(LPAREN);
  }

  lemma ReadsArgs(inner: seq<Lexeme>, args: seq<Arg>, rest: seq<Lexeme>)
    requires if args == [] then inner == [Punct(RPAREN)] + rest
             else !Sees(inner, RPAREN) && ParseArgList(inner, false) == Ok(args, [Punct(RPAREN)] + rest)
    ensures ParseArgs([Punct(LPAREN)] + inner) == Ok(args, rest)
  {
    hide ParseArgList;
    Cons(Punct(LPAREN), inner);
    Cons(Punct(RPAREN), rest);
  }

  lemma {:induction false} ArgsParse(args: seq<Arg>, rest: seq<Lexeme>)
    requires Ordered(args) && forall a :: a in args ==> GoodArg(a)
    ensures ParseArgs(PrintArgs(args) + rest) == Ok(args, rest)
    decreases args, 3
  {
    hide ParseArgs, ParseArgList, GoodArg, PrintArgList;
    var after := [Punct(RPAREN)] + rest;
    var inner := PrintArgList(args) + after;
    Assoc([Punct(LPAREN)], PrintArgList(args) + [Punct(RPAREN)], rest);
    Assoc(PrintArgList(args), [Punct(RPAREN)], rest);
    if args == [] {
      NoArgsPrinted(after);
    } else {
      ArgListStarts(args, after);
      assert Sees(after, RPAREN);
      ArgListParses(args, after, false);
    }
    ReadsArgs(inner, args, rest);
  }

  lemma NoArgsPrinted(after: seq<Lexeme>)
    ensures PrintArgList([]) + after == after
  {
  }

  lemma ArgListStarts(args: seq<Arg>, after: seq<Lexeme>)
    requires args != []
    ensures !Sees(PrintArgList(args) + after, RPAREN)
  {
    ValueStarts(args[0].value);
    assert PrintArg(args[0]) != [] && PrintArgList(args) != [];
    assert (PrintArgList(args) + after)[0] == PrintArg(args[0])[0];
  }

  lemma ReadsArg(ts: seq<Lexeme>, a: Arg, tail: seq<Lexeme>, more: seq<Arg>, after: seq<Lexeme>, seenNamed: bool)
    requires ParseArg(ts) == Ok(a, [Punct(COMMA)] + tail) && (seenNamed ==> a.Named?)
    requires ParseArgList(tail, seenNamed || a.Named?) == Ok(more, after)
    ensures ParseArgList(ts, seenNamed) == Ok([a] + more, after)
  {
    hide ParseArg;
    Cons(Punct(COMMA), tail);
  }

  lemma ReadsLastArg(ts: seq<Lexeme>, a: Arg, after: seq<Lexeme>, seenNamed: bool)
    requires ParseArg(ts) == Ok(a, after) && (seenNamed ==> a.Named?) && !Sees(after, COMMA)
    ensures ParseArgList(ts, seenNamed) == Ok([a], after)
  {
    hide ParseArg;
  }

  lemma {:induction false} ArgListParses(args: seq<Arg>, after: seq<Lexeme>, seenNamed: bool)
    requires args != [] && Ordered(args) && (forall a :: a in args ==> GoodArg(a)) && Sees(after, RPAREN)
    requires seenNamed ==> args[0].Named?
    ensures ParseArgList(PrintArgList(args) + after, seenNamed) == Ok(args, after)
    decreases args, 2
  {
    hide ParseArg, PrintArg, GoodArg, ParseArgList;
    if |args| == 1 {
      ArgParses(args[0], after);
      ReadsLastArg(PrintArg(args[0]) + after, args[0], after, seenNamed);
      assert args == [args[0]];
    } else {
      var tail := PrintArgList(args[1..]) + after;
      Assoc(PrintArg(args[0]), [Punct(COMMA)] + PrintArgList(args[1..]), after);
      Assoc([Punct(COMMA)], PrintArgList(args[1..]), after);
      ArgParses(args[0], [Punct(COMMA)] + tail);
      ArgListParses(args[1..], after, seenNamed || args[0].Named?);
      ReadsArg(PrintArg(args[0]) + ([Punct(COMMA)] + tail), args[0], tail, args[1..], after, seenNamed);
      assert args == [args[0]] + args[1..];
    }
  }

  lemma {:induction false} ArgParses(a: Arg, rest: seq<Lexeme>)
    requires GoodArg(a) && Closes(rest)
    ensures ParseArg(PrintArg(a) + rest) == Ok(a, rest)
    decreases a, 0
  {
    hide ParseValue, PrintValue;
    var ts := PrintArg(a) + rest;
    match a {
      case Positional(value) =>
        ValueStarts(value);
        ValueParses(value, rest);
        assert ts[0] == PrintValue(value)[0];
        if ts[0].kind == IDENT {
          assert ts[1..][0] == if |PrintValue(value)| > 1 then PrintValue(value)[1] else rest[0];
        }
      case Named(name, value) =>
        var tail := PrintValue(value) + rest;
        assert ts == [Lexeme(IDENT, name)] + ([Punct(EQ)] + tail);
        Cons(Lexeme(IDENT, name), [Punct(EQ)] + tail);
        Cons(Punct(EQ), tail);
        assert ts[2..] == tail;
        ValueParses(value, rest);
    }
  }

  /* ---------- separated lists parse back ---------- */

  function PrintSep<T>(sep: Kind, pr: T -> seq<Lexeme>, xs: seq<T>): seq<Lexeme> {
    if xs == [] then []
    else if |xs| == 1 then pr(xs[0])
    else pr(xs[0]) + ([Punct(sep)] + PrintSep(sep, pr, xs[1..]))
  }

  ghost predicate ParsesBack<T>(f: seq<Lexeme> -> Parsed<T>, pr: T -> seq<Lexeme>, x: T, rest: seq<Lexeme>) {
    f(pr(x) + rest) == Ok(x, rest)
  }

  /** The element parses back before a separator, and before what follows the whole list. */
  ghost predicate Inverts<T>(sep: Kind, f: seq<Lexeme> -> Parsed<T>, pr: T -> seq<Lexeme>, x: T, after: seq<Lexeme>) {
    forall rest {:trigger ParsesBack(f, pr, x, rest)} :: rest == after || Sees(rest, sep) ==> ParsesBack(f, pr, x, rest)
  }

  lemma PrintSepCons<T>(sep: Kind, pr: T -> seq<Lexeme>, xs: seq<T>, after: seq<Lexeme>)
    requires |xs| > 1
    ensures PrintSep(sep, pr, xs) + after == pr(xs[0]) + ([Punct(sep)] + (PrintSep(sep, pr, xs[1..]) + after))
  {
    hide Punct;
  }

  lemma {:induction false} SepParses<T(!new)>(sep: Kind, f: seq<Lexeme> -> Parsed<T>, pr: T -> seq<Lexeme>, xs: seq<T>,
                                              after: seq<Lexeme>)
    requires Shrinks(f) && xs != [] && Punct(sep).kind == sep && !Sees(after, sep)
    requires forall x :: x in xs ==> Inverts(sep, f, pr, x, after)
    ensures SepList(sep, f, PrintSep(sep, pr, xs) + after) == Ok(xs, after)
    decreases |xs|
  {
    assert Inverts(sep, f, pr, xs[0], after);
    if |xs| == 1 {
      assert ParsesBack(f, pr, xs[0], after);
      assert xs == [xs[0]];
    } else {
      var tail := PrintSep(sep, pr, xs[1..]) + after;
      var rest := [Punct(sep)] + tail;
      Cons(Punct(sep), tail);
      assert ParsesBack(f, pr, xs[0], rest);
      PrintSepCons(sep, pr, xs, after);
      SepParses(sep, f, pr, xs[1..], after);
      hide PrintSep;
      assert xs == [xs[0]] + xs[1..];
    }
  }

  function PrintBlock<T>(word: string, pr: T -> seq<Lexeme>, xs: seq<T>): seq<Lexeme> {
    [Lexeme(KEYWORD, word)] + ([Punct(LBRACK)] + (PrintSep(COMMA, pr, xs) + [Punct(RBRACK)]))
  }

  lemma BlockParses<T(!new)>(word: string, f: seq<Lexeme> -> Parsed<T>, pr: T -> seq<Lexeme>, xs: seq<T>,
                             rest: seq<Lexeme>)
    requires Shrinks(f)
    requires forall x :: x in xs ==> Inverts(COMMA, f, pr, x, [Punct(RBRACK)] + rest)
    requires forall x :: x in xs ==> pr(x) != [] && pr(x)[0].kind != RBRACK
    ensures ParseBlock(word, f, PrintBlock(word, pr, xs) + rest) == Ok(xs, rest)
  {
    var after := [Punct(RBRACK)] + rest;
    var inner := PrintSep(COMMA, pr, xs) + after;
    var t1 := [Punct(LBRACK)] + inner;
    Assoc(PrintSep(COMMA, pr, xs), [Punct(RBRACK)], rest);
    Assoc([Punct(LBRACK)], PrintSep(COMMA, pr, xs) + [Punct(RBRACK)], rest);
    Assoc([Lexeme(KEYWORD, word)], [Punct(LBRACK)] + (PrintSep(COMMA, pr, xs) + [Punct(RBRACK)]), rest);
    Cons(Lexeme(KEYWORD, word), t1);
    Cons(Punct(LBRACK), inner);
    Cons(Punct(RBRACK), rest);
    if xs == [] {
      assert inner == after;
    } else {
      assert xs[0] in xs && inner[0] == pr(xs[0])[0];
      SepParses(COMMA, f, pr, xs, after);
    }
  }

  /* ---------- elements parse back ---------- */

  predicate GoodName(text: string) {
    IsIdent(text) || IsCode(text)
  }

  function PrintAnyName(text: string): seq<Lexeme> {
    [AnyNameLexeme(text)]
  }

  lemma AnyNameParses(text: string, rest: seq<Lexeme>)
    ensures ParsesBack(ParseAnyName, PrintAnyName, text, rest)
  {
    Cons(AnyNameLexeme(text), rest);
  }

  predicate GoodBound(b: Bound) {
    IsIdent(b.key) && IsBoundKind(b.valueType) && Lexable(Lexeme(b.valueType, b.value))
  }

  function PrintBound(b: Bound): seq<Lexeme> {
    [Lexeme(IDENT, b.key)] + ([Punct(COLON)] + [Lexeme(b.valueType, b.value)])
  }

  lemma BoundParses(b: Bound, rest: seq<Lexeme>)
    requires IsBoundKind(b.valueType)
    ensures ParsesBack(ParseBound, PrintBound, b, rest)
  {
    var t2 := [Lexeme(b.valueType, b.value)] + rest;
    var t1 := [Punct(COLON)] + t2;
    assert PrintBound(b) + rest == [Lexeme(IDENT, b.key)] + t1;
    Cons(Lexeme(IDENT, b.key), t1);
    Cons(Punct(COLON), t2);
    Cons(Lexeme(b.valueType, b.value), rest);
  }

  predicate GoodParam(p: Param) {
    IsIdent(p.name) && GoodValue(p.value)
  }

  function PrintParam(p: Param): seq<Lexeme> {
    [Lexeme(IDENT, p.name)] + ([Punct(EQ)] + PrintValue(p.value))
  }

  lemma ParamParses(p: Param, rest: seq<Lexeme>)
    requires GoodParam(p) && Closes(rest)
    ensures ParsesBack(ParseParam, PrintParam, p, rest)
  {
    hide ParseValue, PrintValue;
    var t2 := PrintValue(p.value) + rest;
    var t1 := [Punct(EQ)] + t2;
    assert PrintParam(p) + rest == [Lexeme(IDENT, p.name)] + t1;
    Cons(Lexeme(IDENT, p.name), t1);
    Cons(Punct(EQ), t2);
    ValueParses(p.value, rest);
  }

  function PrintOptionalArgs(args: seq<Arg>): seq<Lexeme> {
    if args == [] then [] else PrintArgs(args)
  }

  predicate GoodArgs(args: seq<Arg>) {
    Ordered(args) && forall a :: a in args ==> GoodArg(a)
  }

  lemma OptionalArgsParse(args: seq<Arg>, rest: seq<Lexeme>)
    requires GoodArgs(args) && Closes(rest)
    ensures OptionalArgs(PrintOptionalArgs(args) + rest) == Ok(args, rest)
  {
    hide ParseArgs;
    if args == [] {
      assert PrintOptionalArgs(args) + rest == rest;
    } else {
      ArgsParse(args, rest);
      assert (PrintArgs(args) + rest)[0] == Punct(LPAREN);
    }
  }

  predicate GoodCall(c: Call) {
    IsSubsystem(c.subsystem) && IsIdent(c.fn) && GoodArgs(c.args)
  }

  function PrintCall(c: Call): seq<Lexeme> {
    [Lexeme(IDENT, c.subsystem)] + ([Punct(DOT)] + ([Lexeme(IDENT, c.fn)] + PrintOptionalArgs(c.args)))
  }

  lemma Assoc3(a: Lexeme, b: Lexeme, c: Lexeme, s: seq<Lexeme>, t: seq<Lexeme>)
    ensures ([a] + ([b] + ([c] + s))) + t == [a] + ([b] + ([c] + (s + t)))
  {
  }

  lemma CallParses(c: Call, rest: seq<Lexeme>)
    requires GoodCall(c) && Closes(rest)
    ensures ParsesBack(ParseCall, PrintCall, c, rest)
  {
    hide OptionalArgs, PrintOptionalArgs, IsSubsystem;
    var t3 := PrintOptionalArgs(c.args) + rest;
    var t2 := [Lexeme(IDENT, c.fn)] + t3;
    var t1 := [Punct(DOT)] + t2;
    Assoc3(Lexeme(IDENT, c.subsystem), Punct(DOT), Lexeme(IDENT, c.fn), PrintOptionalArgs(c.args), rest);
    Cons(Lexeme(IDENT, c.subsystem), t1);
    Cons(Punct(DOT), t2);
    Cons(Lexeme(IDENT, c.fn), t3);
    OptionalArgsParse(c.args, rest);
  }

  predicate GoodItem(i: Item) {
    GoodName(i.name) && (i.value.Some? ==> GoodValue(i.value.value))
  }

  function PrintItem(i: Item): seq<Lexeme> {
    [AnyNameLexeme(i.name)] + (if i.value.Some? then [Punct(EQ)] + PrintValue(i.value.value) else [])
  }

  lemma ItemParses(i: Item, rest: seq<Lexeme>)
    requires GoodItem(i) && Closes(rest)
    ensures ParsesBack(ParseItem, PrintItem, i, rest)
  {
    hide ParseValue, PrintValue, IsIdent, IsCode, GoodValue;
    if i.value.None? {
      assert PrintItem(i) + rest == [AnyNameLexeme(i.name)] + rest;
      Cons(AnyNameLexeme(i.name), rest);
    } else {
      var t2 := PrintValue(i.value.value) + rest;
      var t1 := [Punct(EQ)] + t2;
      assert PrintItem(i) + rest == [AnyNameLexeme(i.name)] + t1;
      Cons(AnyNameLexeme(i.name), t1);
      Cons(Punct(EQ), t2);
      ValueParses(i.value.value, rest);
    }
  }

  predicate GoodHandler(h: Handler) {
    IsHandler(h.name) && GoodArgs(h.args)
  }

  function PrintHandler(h: Handler): seq<Lexeme> {
    [Lexeme(IDENT, h.name)] + PrintOptionalArgs(h.args)
  }

  lemma HandlerParses(h: Handler, rest: seq<Lexeme>)
    requires GoodHandler(h) && Closes(rest)
    ensures ParsesBack(ParseHandler, PrintHandler, h, rest)
  {
    hide OptionalArgs, PrintOptionalArgs, IsHandler;
    var t1 := PrintOptionalArgs(h.args) + rest;
    Assoc([Lexeme(IDENT, h.name)], PrintOptionalArgs(h.args), rest);
    Cons(Lexeme(IDENT, h.name), t1);
    OptionalArgsParse(h.args, rest);
  }

  /* ---------- blocks parse back ---------- */

  predicate GoodIdentity(id: Identity) {
    && id.actor != [] && (forall a :: a in id.actor ==> GoodName(a))
    && id.boundary != [] && (forall b :: b in id.boundary ==> GoodBound(b))
  }

  function PrintIdentity(id: Identity): seq<Lexeme> {
    [Lexeme(KEYWORD, "ID")] + ([Punct(LBRACK)] + (PrintSep(COLON, PrintAnyName, id.actor)
      + ([Punct(PIPE)] + (PrintSep(COMMA, PrintBound, id.boundary) + [Punct(RBRACK)]))))
  }

  lemma ActorParses(actor: seq<string>, after: seq<Lexeme>)
    requires actor != [] && !Sees(after, COLON)
    ensures SepList(COLON, ParseAnyName, PrintSep(COLON, PrintAnyName, actor) + after) == Ok(actor, after)
  {
    forall x | x in actor ensures Inverts(COLON, ParseAnyName, PrintAnyName, x, after) {
      forall rest { AnyNameParses(x, rest); }
    }
    SepParses(COLON, ParseAnyName, PrintAnyName, actor, after);
  }

  lemma BoundaryParses(boundary: seq<Bound>, after: seq<Lexeme>)
    requires boundary != [] && (forall b :: b in boundary ==> GoodBound(b)) && !Sees(after, COMMA)
    ensures SepList(COMMA, ParseBound, PrintSep(COMMA, PrintBound, boundary) + after) == Ok(boundary, after)
  {
    forall x | x in boundary ensures Inverts(COMMA, ParseBound, PrintBound, x, after) {
      assert GoodBound(x);
      forall rest { BoundParses(x, rest); }
    }
    SepParses(COMMA, ParseBound, PrintBound, boundary, after);
  }

  lemma IdentityParses(id: Identity, rest: seq<Lexeme>)
    requires GoodIdentity(id)
    ensures ParseIdentity(PrintIdentity(id) + rest) == Ok(id, rest)
  {
    hide SepList, PrintSep, GoodBound, GoodName, Eat, EatKeyword, Punct, Sees;
    var t5 := [Punct(RBRACK)] + rest;
    var t4 := PrintSep(COMMA, PrintBound, id.boundary) + t5;
    var t3 := [Punct(PIPE)] + t4;
    var t2 := PrintSep(COLON, PrintAnyName, id.actor) + t3;
    var t1 := [Punct(LBRACK)] + t2;
    assert PrintIdentity(id) + rest == [Lexeme(KEYWORD, "ID")] + t1;
    PunctKinds();
    EatsWord("ID", t1);
    EatsPunct(LBRACK, t2);
    EatsPunct(PIPE, t4);
    EatsPunct(RBRACK, rest);
    ActorParses(id.actor, t3);
    BoundaryParses(id.boundary, t5);
  }

  lemma PunctKinds()
    ensures Punct(LBRACK).kind == LBRACK && Punct(PIPE).kind == PIPE && Punct(RBRACK).kind == RBRACK
    ensures Punct(COMMA).kind == COMMA
  {
  }

  predicate GoodIntent(i: Intent) {
    GoodName(i.name) && forall p :: p in i.params ==> GoodParam(p)
  }

  function PrintIntent(i: Intent): seq<Lexeme> {
    [Lexeme(KEYWORD, "Intent")]
      + ([Punct(LBRACK)] + ([AnyNameLexeme(i.name)] + (PrintParams(i.params) + [Punct(RBRACK)])))
  }

  function PrintParams(params: seq<Param>): seq<Lexeme> {
    if params == [] then [] else [Punct(COMMA)] + PrintSep(COMMA, PrintParam, params)
  }

  lemma ParamsParse(params: seq<Param>, rest: seq<Lexeme>)
    requires params != [] && (forall p :: p in params ==> GoodParam(p))
    ensures var after := [Punct(RBRACK)] + rest;
            SepList(COMMA, ParseParam, PrintSep(COMMA, PrintParam, params) + after) == Ok(params, after)
  {
    var after := [Punct(RBRACK)] + rest;
    forall x | x in params ensures Inverts(COMMA, ParseParam, PrintParam, x, after) {
      assert GoodParam(x);
      forall t | t == after || Sees(t, COMMA) ensures ParsesBack(ParseParam, PrintParam, x, t) { ParamParses(x, t); }
    }
    SepParses(COMMA, ParseParam, PrintParam, params, after);
  }

  lemma IntentParses(i: Intent, rest: seq<Lexeme>)
    requires GoodIntent(i)
    ensures ParseIntent(PrintIntent(i) + rest) == Ok(i, rest)
  {
    hide SepList, PrintSep, GoodParam, GoodName, Eat, EatKeyword, Punct, Sees, ParseAnyName;
    var t4 := [Punct(RBRACK)] + rest;
    var t3 := PrintParams(i.params) + t4;
    var t2 := PrintAnyName(i.name) + t3;
    var t1 := [Punct(LBRACK)] + t2;
    assert PrintIntent(i) + rest == [Lexeme(KEYWORD, "Intent")] + t1;
    PunctKinds();
    EatsWord("Intent", t1);
    EatsPunct(LBRACK, t2);
    AnyNameParses(i.name, t3);
    EatsPunct(RBRACK, rest);
    if i.params == [] {
      assert t3 == t4;
    } else {
      var list := PrintSep(COMMA, PrintParam, i.params) + t4;
      assert t3 == [Punct(COMMA)] + list;
      EatsPunct(COMMA, list);
      ParamsParse(i.params, rest);
    }
  }

  lemma ComputeParses(steps: seq<Call>, rest: seq<Lexeme>)
    requires steps != [] && forall c :: c in steps ==> GoodCall(c)
    ensures ParseCompute(PrintBlock("Compute", PrintCall, steps) + rest) == Ok(steps, rest)
  {
    hide ParseBlock, PrintBlock;
    var after := [Punct(RBRACK)] + rest;
    forall x | x in steps ensures Inverts(COMMA, ParseCall, PrintCall, x, after) {
      assert GoodCall(x);
      forall t | t == after || Sees(t, COMMA) ensures ParsesBack(ParseCall, PrintCall, x, t) { CallParses(x, t); }
    }
    BlockParses("Compute", ParseCall, PrintCall, steps, rest);
  }

  lemma ContextParses(items: seq<Arg>, rest: seq<Lexeme>)
    requires forall a :: a in items ==> GoodArg(a)
    ensures ParseContext(PrintBlock("Context", PrintArg, items) + rest) == Ok(items, rest)
  {
    hide ParseBlock, PrintBlock;
    var after := [Punct(RBRACK)] + rest;
    forall x | x in items ensures Inverts(COMMA, ParseArg, PrintArg, x, after) {
      assert GoodArg(x);
      forall t | t == after || Sees(t, COMMA) ensures ParsesBack(ParseArg, PrintArg, x, t) { ArgParses(x, t); }
    }
    forall x | x in items ensures PrintArg(x) != [] && PrintArg(x)[0].kind != RBRACK { ValueStarts(x.value); }
    BlockParses("Context", ParseArg, PrintArg, items, rest);
  }

  lemma OutputParses(items: seq<Item>, rest: seq<Lexeme>)
    requires items != [] && forall i :: i in items ==> GoodItem(i)
    ensures ParseOutput(PrintBlock("Output", PrintItem, items) + rest) == Ok(items, rest)
  {
    hide ParseBlock, PrintBlock;
    var after := [Punct(RBRACK)] + rest;
    forall x | x in items ensures Inverts(COMMA, ParseItem, PrintItem, x, after) {
      assert GoodItem(x);
      forall t | t == after || Sees(t, COMMA) ensures ParsesBack(ParseItem, PrintItem, x, t) { ItemParses(x, t); }
    }
    BlockParses("Output", ParseItem, PrintItem, items, rest);
  }

  lemma OnFailParses(handlers: seq<Handler>, rest: seq<Lexeme>)
    requires forall h :: h in handlers ==> GoodHandler(h)
    ensures ParseOnFail(PrintBlock("OnFail", PrintHandler, handlers) + rest) == Ok(handlers, rest)
  {
    hide ParseBlock, PrintBlock;
    var after := [Punct(RBRACK)] + rest;
    forall x | x in handlers ensures Inverts(COMMA, ParseHandler, PrintHandler, x, after) {
      assert GoodHandler(x);
      forall t | t == after || Sees(t, COMMA)
        ensures ParsesBack(ParseHandler, PrintHandler, x, t) { HandlerParses(x, t); }
    }
    BlockParses("OnFail", ParseHandler, PrintHandler, handlers, rest);
  }
}
