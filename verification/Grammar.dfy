/** The parser accepts nothing but what is written as the grammar says.

    Round trips show that everything the printer writes is accepted. Here is the other half: the tokens the
    parser takes for an element are those the printer writes for it, in the few forms the grammar leaves open:
    empty parentheses or none after a call or a handler without arguments, either spelling of an arrow, and a
    terminator or none after a statement. */
module Grammar {
  import opened Acceptance
  import opened Lexer
  import opened LexerOutput
  import opened LexerProofs
  import opened Options
  import opened Parser
  import opened ParserProofs
  import opened RoundTrip

  /* ---------- how elements may be written ---------- */

  /** What was taken of the tokens. */
  function Taken(ts: seq<Lexeme>, rest: seq<Lexeme>): seq<Lexeme>
    requires |rest| <= |ts|
  {
    ts[..|ts| - |rest|]
  }

  ghost predicate WritesName(used: seq<Lexeme>, name: string) {
    used == PrintAnyName(name)
  }

  ghost predicate WritesBound(used: seq<Lexeme>, b: Bound) {
    used == PrintBound(b)
  }

  ghost predicate WritesParam(used: seq<Lexeme>, p: Param) {
    used == PrintParam(p)
  }

  ghost predicate WritesArg(used: seq<Lexeme>, a: Arg) {
    used == PrintArg(a)
  }

  ghost predicate WritesItem(used: seq<Lexeme>, i: Item) {
    used == PrintItem(i)
  }

  /** Without arguments, with or without parentheses. */
  ghost predicate WritesArgs(used: seq<Lexeme>, args: seq<Arg>) {
    used == PrintArgs(args) || (args == [] && used == [])
  }

  ghost predicate WritesCall(used: seq<Lexeme>, c: Call) {
    && |used| >= 3 && used[..3] == [Lexeme(IDENT, c.subsystem), Punct(DOT), Lexeme(IDENT, c.fn)]
    && IsSubsystem(c.subsystem) && WritesArgs(used[3..], c.args)
  }

  ghost predicate WritesHandler(used: seq<Lexeme>, h: Handler) {
    used != [] && used[0] == Lexeme(IDENT, h.name) && IsHandler(h.name) && WritesArgs(used[1..], h.args)
  }

  /** One or more elements with the separator between them. */
  ghost predicate WritesSep<T(!new)>(sep: Kind, w: (seq<Lexeme>, T) -> bool, used: seq<Lexeme>, xs: seq<T>)
    decreases |xs|
  {
    xs != [] &&
    if |xs| == 1 then w(used, xs[0])
    else exists k :: 0 <= k < |used| && SepAt(sep, w, used, xs[0], k) && WritesSep(sep, w, used[k + 1..], xs[1..])
  }

  ghost predicate SepAt<T>(sep: Kind, w: (seq<Lexeme>, T) -> bool, used: seq<Lexeme>, x: T, k: int)
    requires 0 <= k < |used|
  {
    w(used[..k], x) && used[k] == Punct(sep)
  }

  /** A keyword and a bracketed list, which may be empty. */
  ghost predicate WritesBlock<T(!new)>(word: string, w: (seq<Lexeme>, T) -> bool, used: seq<Lexeme>, xs: seq<T>) {
    var n := |used|;
    && n >= 3 && used[..2] == [Lexeme(KEYWORD, word), Punct(LBRACK)] && used[n - 1] == Punct(RBRACK)
    && if xs == [] then n == 3 else WritesSep(COMMA, w, used[2..n - 1], xs)
  }

  /* ---------- the vocabulary ---------- */

  /** The words and characters the language is made of. */
  lemma Vocabulary(w: string, c: char, k: Kind)
    ensures IsKeyword(w) <==> w in {"ID", "Intent", "Compute", "Output", "OnFail", "Context"}
    ensures IsSubsystem(w) <==> w in {"UDM", "AI", "IOS"}
    ensures IsHandler(w) <==> w in {"Remediate", "Halt", "Fallback", "Retry"}
    ensures IsBoundKind(k) <==> k in {IDENT, CODE, NUMBER, STRING}
    ensures IsDigit(c) <==> '0' <= c <= '9'
    ensures IsIdentStart(c) <==> 'A' <= c <= 'Z' || 'a' <= c <= 'z' || c == '_'
    ensures IsIdentPart(c) <==> IsIdentStart(c) || IsDigit(c)
    ensures IsCodePart(c) <==> IsIdentPart(c) || c == '-'
    ensures IsVersionChar(c) <==> IsDigit(c) || c == '.'
    ensures IsBlank(c) <==> c == ' ' || c == '\t'
  {
  }

  /* ---------- single tokens ---------- */

  lemma FirstIs(ts: seq<Lexeme>)
    requires Lexed(ts) && ts != [] && ts[0].kind != EOF && ts[0].kind != PRAGMA && ts[0].kind != CODE
    ensures Lexable(ts[0])
  {
    FirstLexed(ts);
  }

  /** Punctuation written in one way only. */
  predicate Plain(kind: Kind) {
    Punct(kind).kind == kind && kind != ARROW_INTENT && kind != ARROW_OUT
  }

  lemma EatTakes(ts: seq<Lexeme>, kind: Kind)
    requires Lexed(ts) && Plain(kind)
    ensures var r := Eat(ts, kind); r.Ok? ==> ts == [Punct(kind)] + r.rest && Lexed(r.rest)
  {
    hide Lexed;
    if Sees(ts, kind) {
      FirstIs(ts);
      LexedTail(ts, 1);
      assert ts == [ts[0]] + ts[1..];
    }
  }

  lemma SeesTakes(ts: seq<Lexeme>, kind: Kind)
    requires Lexed(ts) && Plain(kind) && Sees(ts, kind)
    ensures ts == [Punct(kind)] + ts[1..] && Lexed(ts[1..])
  {
    EatTakes(ts, kind);
  }

  lemma EatNameTakes(ts: seq<Lexeme>)
    requires Lexed(ts)
    ensures var r := Eat(ts, IDENT); r.Ok? ==> ts == [Lexeme(IDENT, r.value)] + r.rest && Lexed(r.rest)
  {
    hide Lexed;
    if Sees(ts, IDENT) { LexedTail(ts, 1); }
  }

  lemma EatWordTakes(ts: seq<Lexeme>, word: string)
    requires Lexed(ts)
    ensures var r := EatKeyword(ts, word); r.Ok? ==> ts == [Lexeme(KEYWORD, word)] + r.rest && Lexed(r.rest)
  {
    hide Lexed;
    if SeesWord(ts, KEYWORD, word) { LexedTail(ts, 1); }
  }

  /* ---------- values and arguments ---------- */


  lemma {:induction false} ValueTakes(ts: seq<Lexeme>)
    requires Lexed(ts)
    ensures var r := ParseValue(ts); r.Ok? ==> ts == PrintValue(r.value) + r.rest && Lexed(r.rest)
    decreases |ts|, 0
  {
    hide Lexable, Lexed, ParseItems, ParseSymbol;
    if ts != [] {
      LexedTail(ts, 1);
      assert ts == [ts[0]] + ts[1..];
      match ts[0].kind {
        case AT => SeesTakes(ts, AT); EatNameTakes(ts[1..]);
        case LBRACK => ListTakes(ts);
        case IDENT => SymbolTakes(ts);
        case KEYWORD => SymbolTakes(ts);
        case _ =>
      }
    }
  }

  lemma {:induction false} ListTakes(ts: seq<Lexeme>)
    requires Lexed(ts) && Sees(ts, LBRACK)
    ensures var r := ParseValue(ts); r.Ok? ==> ts == PrintValue(r.value) + r.rest && Lexed(r.rest)
    decreases |ts| - 1, 3
  {
    hide Lexable, Lexed, ParseItems, PrintItems;
    SeesTakes(ts, LBRACK);
    if Sees(ts[1..], RBRACK) {
      SeesTakes(ts[1..], RBRACK);
      assert ts[1..][1..] == ts[2..];
      NothingPrinted([]);
    } else {
      ItemsTake(ts[1..]);
      var r := ParseItems(ts[1..]);
      if r.Ok? { EatTakes(r.rest, RBRACK); }
    }
  }

  lemma NameIs(t: Lexeme)
    requires Lexable(t) && (t.kind == IDENT || t.kind == KEYWORD)
    ensures NameLexeme(t.text) == t
  {
  }

  lemma {:induction false} SymbolTakes(ts: seq<Lexeme>)
    requires Lexed(ts) && (Sees(ts, IDENT) || Sees(ts, KEYWORD))
    ensures var r := ParseSymbol(ts); r.Ok? ==> ts == PrintValue(r.value) + r.rest && Lexed(r.rest)
    decreases |ts| - 1, 3
  {
    hide Lexable, Lexed, ParseArgs, PrintArgList, NameLexeme;
    FirstIs(ts);
    NameIs(ts[0]);
    LexedTail(ts, 1);
    assert ts == [ts[0]] + ts[1..];
    if Sees(ts[1..], LPAREN) { ArgsTake(ts[1..]); }
  }

  lemma {:induction false} ItemsTake(ts: seq<Lexeme>)
    requires Lexed(ts)
    ensures var r := ParseItems(ts); r.Ok? ==> r.value != [] && ts == PrintItems(r.value) + r.rest && Lexed(r.rest)
    decreases |ts|, 1
  {
    hide Lexable, Lexed, ParseValue, PrintValue;
    ValueTakes(ts);
    var r := ParseValue(ts);
    if r.Ok? && Sees(r.rest, COMMA) {
      SeesTakes(r.rest, COMMA);
      ItemsTake(r.rest[1..]);
    }
  }

  lemma {:induction false} ArgsTake(ts: seq<Lexeme>)
    requires Lexed(ts)
    ensures var r := ParseArgs(ts); r.Ok? ==> ts == PrintArgs(r.value) + r.rest && Lexed(r.rest)
    decreases |ts|, 0
  {
    hide Lexable, Lexed, ParseArgList, PrintArgList;
    EatTakes(ts, LPAREN);
    var r := Eat(ts, LPAREN);
    if r.Ok? {
      if Sees(r.rest, RPAREN) {
        SeesTakes(r.rest, RPAREN);
        NoArgsPrinted([]);
      } else {
        ArgListTakes(r.rest, false);
        var l := ParseArgList(r.rest, false);
        if l.Ok? { EatTakes(l.rest, RPAREN); }
      }
    }
  }

  lemma {:induction false} ArgListTakes(ts: seq<Lexeme>, seenNamed: bool)
    requires Lexed(ts)
    ensures var r := ParseArgList(ts, seenNamed);
            r.Ok? ==> r.value != [] && ts == PrintArgList(r.value) + r.rest && Lexed(r.rest)
    decreases |ts|, 2
  {
    hide Lexable, Lexed, ParseArg, PrintArg, PrintArgList, Punct;
    PunctKinds();
    ArgTakes(ts);
    var r := ParseArg(ts);
    if r.Ok? && !(r.value.Positional? && seenNamed) {
      OneArg(r.value);
      if Sees(r.rest, COMMA) {
        SeesTakes(r.rest, COMMA);
        ArgListTakes(r.rest[1..], seenNamed || r.value.Named?);
        var more := ParseArgList(r.rest[1..], seenNamed || r.value.Named?);
        if more.Ok? {
          MoreArgs(r.value, more.value);
          Joined(PrintArg(r.value), [Punct(COMMA)], PrintArgList(more.value), more.rest);
        }
      }
    }
  }

  lemma OneArg(a: Arg)
    ensures PrintArgList([a]) == PrintArg(a)
  {
  }

  lemma MoreArgs(a: Arg, args: seq<Arg>)
    requires args != []
    ensures PrintArgList([a] + args) == PrintArg(a) + ([Punct(COMMA)] + PrintArgList(args))
  {
    hide PrintArg, Punct;
    assert ([a] + args)[1..] == args;
  }

  lemma {:induction false} ArgTakes(ts: seq<Lexeme>)
    requires Lexed(ts)
    ensures var r := ParseArg(ts); r.Ok? ==> ts == PrintArg(r.value) + r.rest && Lexed(r.rest)
    decreases |ts|, 1
  {
    hide Lexable, Lexed, ParseValue, PrintValue;
    if Sees(ts, IDENT) && Sees(ts[1..], EQ) {
      LexedTail(ts, 1);
      SeesTakes(ts[1..], EQ);
      assert ts == [ts[0]] + ts[1..] && ts[1..][1..] == ts[2..];
      ValueTakes(ts[2..]);
    } else {
      ValueTakes(ts);
    }
  }

  /* ---------- elements ---------- */

  /** What is left is the end of the tokens, and what was taken is a writing of the element, unless a dot
      follows it. */
  ghost predicate Takes<T>(ts: seq<Lexeme>, r: Parsed<T>, w: (seq<Lexeme>, T) -> bool) {
    r.Ok? ==>
      && |r.rest| <= |ts| && ts == Taken(ts, r.rest) + r.rest && Lexed(r.rest)
      && (!Sees(r.rest, DOT) ==> w(Taken(ts, r.rest), r.value))
  }

  ghost predicate Unwrites<T(!new)>(f: seq<Lexeme> -> Parsed<T>, w: (seq<Lexeme>, T) -> bool) {
    forall ts {:trigger f(ts)} :: Lexed(ts) ==> Takes(ts, f(ts), w)
  }

  lemma TakenIs(ts: seq<Lexeme>, a: seq<Lexeme>, rest: seq<Lexeme>)
    requires ts == a + rest
    ensures |rest| <= |ts| && Taken(ts, rest) == a
  {
  }

  lemma NamesUnwritten()
    ensures Unwrites(ParseAnyName, WritesName)
  {
    forall ts: seq<Lexeme> | Lexed(ts) ensures Takes(ts, ParseAnyName(ts), WritesName) {
      hide Lexed, ParseAnyName, WritesName;
      NameTakes(ts);
    }
  }

  lemma NameTakes(ts: seq<Lexeme>)
    requires Lexed(ts)
    ensures Takes(ts, ParseAnyName(ts), WritesName)
  {
    hide Lexed, Lexable, IsIdent, IsCode;
    if ParseAnyName(ts).Ok? {
      FirstLexed(ts);
      LexedTail(ts, 1);
      IdentGood(ts[0].text);
      NotBoth(ts[0].text);
      hide Taken;
      assert ts == [ts[0]] + ts[1..];
      TakenIs(ts, [ts[0]], ts[1..]);
    }
  }

  lemma NotBoth(text: string)
    ensures !(IsIdent(text) && IsCode(text))
  {
  }

  lemma BoundsUnwritten()
    ensures Unwrites(ParseBound, WritesBound)
  {
    forall ts: seq<Lexeme> | Lexed(ts) ensures Takes(ts, ParseBound(ts), WritesBound) {
      hide Lexed, ParseBound, PrintBound;
      BoundTakes(ts);
      var r := ParseBound(ts);
      if r.Ok? { TakenIs(ts, PrintBound(r.value), r.rest); }
    }
  }

  lemma BoundTakes(ts: seq<Lexeme>)
    requires Lexed(ts)
    ensures var r := ParseBound(ts); r.Ok? ==> ts == PrintBound(r.value) + r.rest && Lexed(r.rest)
  {
    hide Lexed, Lexable;
    var r := ParseBound(ts);
    if r.Ok? {
      EatNameTakes(ts);
      var t1 := Eat(ts, IDENT).rest;
      EatTakes(t1, COLON);
      var t2 := Eat(t1, COLON).rest;
      LexedTail(t2, 1);
      hide Eat;
      assert t2 == [t2[0]] + r.rest && t2[0] == Lexeme(r.value.valueType, r.value.value);
      Joined([Lexeme(IDENT, r.value.key)], [Punct(COLON)], [t2[0]], r.rest);
    }
  }

  lemma ParamTakes(ts: seq<Lexeme>)
    requires Lexed(ts)
    ensures var r := ParseParam(ts); r.Ok? ==> ts == PrintParam(r.value) + r.rest && Lexed(r.rest)
  {
    hide Lexed, Lexable, ParseValue, PrintValue;
    var r := ParseParam(ts);
    if r.Ok? {
      EatNameTakes(ts);
      var t1 := Eat(ts, IDENT).rest;
      EatTakes(t1, EQ);
      ValueTakes(Eat(t1, EQ).rest);
      hide Eat;
      Joined([Lexeme(IDENT, r.value.name)], [Punct(EQ)], PrintValue(r.value.value), r.rest);
    }
  }

  lemma Joined(a: seq<Lexeme>, b: seq<Lexeme>, c: seq<Lexeme>, rest: seq<Lexeme>)
    ensures a + (b + (c + rest)) == (a + (b + c)) + rest == ((a + b) + c) + rest
  {
  }

  lemma ParamsUnwritten()
    ensures Unwrites(ParseParam, WritesParam)
  {
    forall ts: seq<Lexeme> | Lexed(ts) ensures Takes(ts, ParseParam(ts), WritesParam) {
      hide Lexed, ParseParam, PrintParam;
      ParamTakes(ts);
      var r := ParseParam(ts);
      if r.Ok? { TakenIs(ts, PrintParam(r.value), r.rest); }
    }
  }

  lemma ArgsUnwritten()
    ensures Unwrites(ParseArg, WritesArg)
  {
    forall ts: seq<Lexeme> | Lexed(ts) ensures Takes(ts, ParseArg(ts), WritesArg) {
      hide Lexed, ParseArg, PrintArg;
      ArgTakes(ts);
      var r := ParseArg(ts);
      if r.Ok? { TakenIs(ts, PrintArg(r.value), r.rest); }
    }
  }

  lemma ItemTakes(ts: seq<Lexeme>)
    requires Lexed(ts)
    ensures var r := ParseItem(ts);
            r.Ok? ==> Lexed(r.rest) && |r.rest| <= |ts| && ts == Taken(ts, r.rest) + r.rest
                      && (!Sees(r.rest, DOT) ==> ts == PrintItem(r.value) + r.rest)
  {
    hide Lexed, Lexable, ParseAnyName, ParseValue, PrintValue, AnyNameLexeme;
    NamesUnwritten();
    var r, n := ParseItem(ts), ParseAnyName(ts);
    if r.Ok? {
      assert Takes(ts, n, WritesName);
      if Sees(n.rest, EQ) {
        SeesTakes(n.rest, EQ);
        ValueTakes(n.rest[1..]);
        Joined([AnyNameLexeme(r.value.name)], [Punct(EQ)], PrintValue(r.value.value.value), r.rest);
        assert ts == PrintItem(r.value) + r.rest;
        TakenIs(ts, PrintItem(r.value), r.rest);
      }
    }
  }

  lemma ItemsUnwritten()
    ensures Unwrites(ParseItem, WritesItem)
  {
    forall ts: seq<Lexeme> | Lexed(ts) ensures Takes(ts, ParseItem(ts), WritesItem) {
      hide Lexed, ParseItem, PrintItem;
      ItemTakes(ts);
      var r := ParseItem(ts);
      if r.Ok? && !Sees(r.rest, DOT) { TakenIs(ts, PrintItem(r.value), r.rest); }
    }
  }

  lemma OptionalArgsTake(ts: seq<Lexeme>)
    requires Lexed(ts)
    ensures var r := OptionalArgs(ts);
            r.Ok? ==> |r.rest| <= |ts| && ts == Taken(ts, r.rest) + r.rest && Lexed(r.rest)
                      && WritesArgs(Taken(ts, r.rest), r.value)
  {
    hide Lexed, ParseArgs, PrintArgs;
    var r := OptionalArgs(ts);
    if Sees(ts, LPAREN) {
      ArgsTake(ts);
      if r.Ok? { TakenIs(ts, PrintArgs(r.value), r.rest); }
    } else {
      assert ts == [] + ts;
      TakenIs(ts, [], ts);
    }
  }

  lemma CallTakes(ts: seq<Lexeme>)
    requires Lexed(ts) && ParseCall(ts).Ok?
    ensures var r := ParseCall(ts);
            && Lexed(r.rest) && IsSubsystem(r.value.subsystem)
            && exists args :: WritesArgs(args, r.value.args)
                 && ts == [Lexeme(IDENT, r.value.subsystem), Punct(DOT), Lexeme(IDENT, r.value.fn)] + (args + r.rest)
  {
    hide Lexed, Lexable, OptionalArgs, WritesArgs, IsSubsystem;
    var r := ParseCall(ts);
    LexedTail(ts, 1);
    EatTakes(ts[1..], DOT);
    var t1 := Eat(ts[1..], DOT).rest;
    EatNameTakes(t1);
    var t2 := Eat(t1, IDENT).rest;
    OptionalArgsTake(t2);
    hide Eat, Taken;
    var args := Taken(t2, r.rest);
    assert ts == [ts[0]] + ts[1..];
    assert ts[0] == Lexeme(IDENT, r.value.subsystem);
    ThreeThen(ts[0], Punct(DOT), Lexeme(IDENT, r.value.fn), args + r.rest);
    assert WritesArgs(args, r.value.args);
  }

  lemma ThreeThen(a: Lexeme, b: Lexeme, c: Lexeme, rest: seq<Lexeme>)
    ensures [a] + ([b] + ([c] + rest)) == [a, b, c] + rest
  {
  }

  lemma CallsUnwritten()
    ensures Unwrites(ParseCall, WritesCall)
  {
    forall ts: seq<Lexeme> | Lexed(ts) ensures Takes(ts, ParseCall(ts), WritesCall) {
      hide Lexed, ParseCall, WritesArgs, IsSubsystem, Taken, Punct;
      if ParseCall(ts).Ok? {
        CallTakes(ts);
        var r := ParseCall(ts);
        var head := [Lexeme(IDENT, r.value.subsystem), Punct(DOT), Lexeme(IDENT, r.value.fn)];
        var args :| WritesArgs(args, r.value.args) && ts == head + (args + r.rest);
        HeadAndTail(ts, head, args, r.rest);
      }
    }
  }

  lemma HeadAndTail(ts: seq<Lexeme>, head: seq<Lexeme>, args: seq<Lexeme>, rest: seq<Lexeme>)
    requires ts == head + (args + rest)
    ensures |rest| <= |ts| && ts == Taken(ts, rest) + rest
    ensures var used := Taken(ts, rest); |used| >= |head| && used[..|head|] == head && used[|head|..] == args
  {
    Assoc(head, args, rest);
    TakenIs(ts, head + args, rest);
  }

  lemma HandlerTakes(ts: seq<Lexeme>)
    requires Lexed(ts) && ParseHandler(ts).Ok?
    ensures var r := ParseHandler(ts);
            && Lexed(r.rest) && IsHandler(r.value.name)
            && exists args :: WritesArgs(args, r.value.args) && ts == [Lexeme(IDENT, r.value.name)] + (args + r.rest)
  {
    hide Lexed, Lexable, OptionalArgs, WritesArgs, IsHandler, Taken;
    var r := ParseHandler(ts);
    LexedTail(ts, 1);
    OptionalArgsTake(ts[1..]);
    var args := Taken(ts[1..], r.rest);
    assert ts == [ts[0]] + ts[1..];
    assert WritesArgs(args, r.value.args);
  }

  lemma HandlersUnwritten()
    ensures Unwrites(ParseHandler, WritesHandler)
  {
    forall ts: seq<Lexeme> | Lexed(ts) ensures Takes(ts, ParseHandler(ts), WritesHandler) {
      hide Lexed, ParseHandler, WritesArgs, IsHandler, Taken;
      if ParseHandler(ts).Ok? {
        HandlerTakes(ts);
        var r := ParseHandler(ts);
        var head := [Lexeme(IDENT, r.value.name)];
        var args :| WritesArgs(args, r.value.args) && ts == head + (args + r.rest);
        HeadAndTail(ts, head, args, r.rest);
        HandlerJoins(Taken(ts, r.rest), head, r.value);
      }
    }
  }

  lemma HandlerJoins(used: seq<Lexeme>, head: seq<Lexeme>, h: Handler)
    requires head == [Lexeme(IDENT, h.name)] && |used| >= 1 && used[..1] == head && IsHandler(h.name)
    requires WritesArgs(used[1..], h.args)
    ensures WritesHandler(used, h)
  {
    hide WritesArgs, IsHandler;
    assert used[0] == used[..1][0];
  }

  /* ---------- lists ---------- */

  lemma {:induction false} SepUnwritten<T(!new)>(sep: Kind, f: seq<Lexeme> -> Parsed<T>, w: (seq<Lexeme>, T) -> bool,
                                                ts: seq<Lexeme>)
    requires Shrinks(f) && Unwrites(f, w) && Lexed(ts) && Plain(sep) && sep != DOT
    ensures SepList(sep, f, ts).Ok? ==> SepList(sep, f, ts).value != []
    ensures Takes(ts, SepList(sep, f, ts), (used, xs) => WritesSep(sep, w, used, xs))
    decreases |ts|
  {
    hide Lexed, Taken;
    var r := SepList(sep, f, ts);
    if r.Ok? {
      var x := f(ts);
      assert Takes(ts, x, w);
      if Sees(x.rest, sep) {
        SeesTakes(x.rest, sep);
        var t1 := x.rest[1..];
        SepUnwritten(sep, f, w, t1);
        SepJoins(sep, w, ts, x.value, x.rest, r.value[1..], r.rest);
      }
    }
  }

  lemma SepCons<T(!new)>(sep: Kind, w: (seq<Lexeme>, T) -> bool, a: seq<Lexeme>, b: seq<Lexeme>, x: T, xs: seq<T>)
    requires w(a, x) && WritesSep(sep, w, b, xs)
    ensures WritesSep(sep, w, a + ([Punct(sep)] + b), [x] + xs)
  {
    var used, all, k := a + ([Punct(sep)] + b), [x] + xs, |a|;
    assert used[..k] == a && used[k] == Punct(sep) && used[k + 1..] == b && all[1..] == xs && all[0] == x;
    assert xs != [] && |all| > 1;
    assert SepAt(sep, w, used, all[0], k) && WritesSep(sep, w, used[k + 1..], all[1..]);
  }

  lemma SepJoins<T(!new)>(sep: Kind, w: (seq<Lexeme>, T) -> bool, ts: seq<Lexeme>, x: T, after: seq<Lexeme>,
                          xs: seq<T>, rest: seq<Lexeme>)
    requires |after| <= |ts| && ts == Taken(ts, after) + after && w(Taken(ts, after), x)
    requires after != [] && after[0] == Punct(sep) && |rest| <= |after| - 1
    requires after[1..] == Taken(after[1..], rest) + rest
    ensures |rest| <= |ts| && ts == Taken(ts, rest) + rest
    ensures WritesSep(sep, w, Taken(after[1..], rest), xs) ==> WritesSep(sep, w, Taken(ts, rest), [x] + xs)
  {
    var a, b := Taken(ts, after), Taken(after[1..], rest);
    var used := a + ([Punct(sep)] + b);
    assert after == [Punct(sep)] + after[1..];
    hide Taken, Punct, WritesSep;
    Joined(a, [Punct(sep)], b, rest);
    TakenIs(ts, used, rest);
    if WritesSep(sep, w, b, xs) { SepCons(sep, w, a, b, x, xs); }
  }

  lemma BlockUnwritten<T(!new)>(word: string, f: seq<Lexeme> -> Parsed<T>, w: (seq<Lexeme>, T) -> bool, ts: seq<Lexeme>)
    requires Shrinks(f) && Unwrites(f, w) && Lexed(ts)
    ensures var r := ParseBlock(word, f, ts);
            r.Ok? ==> |r.rest| <= |ts| && ts == Taken(ts, r.rest) + r.rest && Lexed(r.rest)
                      && WritesBlock(word, w, Taken(ts, r.rest), r.value)
  {
    hide Lexed, SepList, Unwrites, Taken, Takes, WritesBlock;
    var r := ParseBlock(word, f, ts);
    if r.Ok? {
      EatWordTakes(ts, word);
      var t1 := EatKeyword(ts, word).rest;
      EatTakes(t1, LBRACK);
      var t2 := Eat(t1, LBRACK).rest;
      BodyUnwritten(f, w, t2);
      hide Eat, EatKeyword;
      var inner :| BodyWritten(w, inner, r.value) && t2 == inner + ([Punct(RBRACK)] + r.rest);
      BlockJoins(word, w, ts, inner, r.value, r.rest);
    }
  }

  ghost predicate BodyWritten<T(!new)>(w: (seq<Lexeme>, T) -> bool, inner: seq<Lexeme>, xs: seq<T>) {
    if xs == [] then inner == [] else WritesSep(COMMA, w, inner, xs)
  }

  /** The inside of a block, and its closing bracket. */
  lemma BodyUnwritten<T(!new)>(f: seq<Lexeme> -> Parsed<T>, w: (seq<Lexeme>, T) -> bool, ts: seq<Lexeme>)
    requires Shrinks(f) && Unwrites(f, w) && Lexed(ts)
    ensures var l := if Sees(ts, RBRACK) then Ok([], ts) else SepList(COMMA, f, ts);
            l.Ok? && Eat(l.rest, RBRACK).Ok? ==>
              var rest := Eat(l.rest, RBRACK).rest;
              Lexed(rest) && exists inner :: BodyWritten(w, inner, l.value) && ts == inner + ([Punct(RBRACK)] + rest)
  {
    hide Lexed, SepList, Unwrites, Taken, Takes, WritesSep;
    if Sees(ts, RBRACK) {
      EatTakes(ts, RBRACK);
      assert ts == [] + ts && BodyWritten(w, [], []);
    } else {
      var l := SepList(COMMA, f, ts);
      SepUnwritten(COMMA, f, w, ts);
      if l.Ok? && Eat(l.rest, RBRACK).Ok? {
        SepTaken(w, ts, l);
        EatTakes(l.rest, RBRACK);
        assert BodyWritten(w, Taken(ts, l.rest), l.value);
      }
    }
  }

  lemma SepTaken<T(!new)>(w: (seq<Lexeme>, T) -> bool, ts: seq<Lexeme>, l: Parsed<seq<T>>)
    requires Takes(ts, l, (used, xs) => WritesSep(COMMA, w, used, xs)) && l.Ok? && Sees(l.rest, RBRACK)
    ensures |l.rest| <= |ts| && Lexed(l.rest) && ts == Taken(ts, l.rest) + l.rest
              && WritesSep(COMMA, w, Taken(ts, l.rest), l.value)
  {
  }

  lemma BlockJoins<T(!new)>(word: string, w: (seq<Lexeme>, T) -> bool, ts: seq<Lexeme>, inner: seq<Lexeme>, xs: seq<T>,
                            rest: seq<Lexeme>)
    requires ts == [Lexeme(KEYWORD, word)] + ([Punct(LBRACK)] + (inner + ([Punct(RBRACK)] + rest)))
    requires BodyWritten(w, inner, xs)
    ensures |rest| <= |ts| && ts == Taken(ts, rest) + rest && WritesBlock(word, w, Taken(ts, rest), xs)
  {
    hide WritesSep;
    var used := [Lexeme(KEYWORD, word), Punct(LBRACK)] + inner + [Punct(RBRACK)];
    assert ts == used + rest;
    TakenIs(ts, used, rest);
    assert used[2..|used| - 1] == inner;
  }

  /* ---------- blocks with one writing ---------- */

  lemma {:induction false} SepPrinted<T(!new)>(sep: Kind, w: (seq<Lexeme>, T) -> bool, pr: T -> seq<Lexeme>,
                                              used: seq<Lexeme>, xs: seq<T>)
    requires WritesSep(sep, w, used, xs) && forall u, x :: w(u, x) ==> u == pr(x)
    ensures used == PrintSep(sep, pr, xs)
    decreases |xs|
  {
    hide Punct, PrintSep;
    if |xs| > 1 {
      var k :| 0 <= k < |used| && SepAt(sep, w, used, xs[0], k) && WritesSep(sep, w, used[k + 1..], xs[1..]);
      SepPrinted(sep, w, pr, used[k + 1..], xs[1..]);
      PrintMore(sep, pr, xs);
      Around(used, k, pr(xs[0]), Punct(sep), PrintSep(sep, pr, xs[1..]));
    } else {
      PrintLast(sep, pr, xs);
    }
  }

  lemma Around(used: seq<Lexeme>, k: int, a: seq<Lexeme>, t: Lexeme, b: seq<Lexeme>)
    requires 0 <= k < |used| && used[..k] == a && used[k] == t && used[k + 1..] == b
    ensures used == a + ([t] + b)
  {
  }

  lemma PrintMore<T>(sep: Kind, pr: T -> seq<Lexeme>, xs: seq<T>)
    requires |xs| > 1
    ensures PrintSep(sep, pr, xs) == pr(xs[0]) + ([Punct(sep)] + PrintSep(sep, pr, xs[1..]))
  {
    hide Punct;
  }

  lemma PrintLast<T>(sep: Kind, pr: T -> seq<Lexeme>, xs: seq<T>)
    requires |xs| == 1
    ensures PrintSep(sep, pr, xs) == pr(xs[0])
  {
  }

  lemma BlockPrinted<T(!new)>(word: string, w: (seq<Lexeme>, T) -> bool, pr: T -> seq<Lexeme>, used: seq<Lexeme>,
                              xs: seq<T>)
    requires WritesBlock(word, w, used, xs) && forall u, x :: w(u, x) ==> u == pr(x)
    ensures used == PrintBlock(word, pr, xs)
  {
    hide WritesSep;
    var n := |used|;
    if xs != [] { SepPrinted(COMMA, w, pr, used[2..n - 1], xs); } else { assert used[2..n - 1] == []; }
    var inner := PrintSep(COMMA, pr, xs);
    hide PrintSep;
    assert used == used[..2] + (used[2..n - 1] + [used[n - 1]]);
    assert [Lexeme(KEYWORD, word), Punct(LBRACK)] + (inner + [Punct(RBRACK)])
        == [Lexeme(KEYWORD, word)] + ([Punct(LBRACK)] + (inner + [Punct(RBRACK)]));
  }

  /** A list of elements that are written in one way, and what it leaves unless a dot follows. */
  lemma SepTakes<T(!new)>(sep: Kind, f: seq<Lexeme> -> Parsed<T>, w: (seq<Lexeme>, T) -> bool, pr: T -> seq<Lexeme>,
                          ts: seq<Lexeme>)
    requires Shrinks(f) && Unwrites(f, w) && Lexed(ts) && Plain(sep) && sep != DOT
    requires forall u, x :: w(u, x) ==> u == pr(x)
    ensures var r := SepList(sep, f, ts);
            r.Ok? ==> r.value != [] && Lexed(r.rest)
                      && (!Sees(r.rest, DOT) ==> ts == PrintSep(sep, pr, r.value) + r.rest)
  {
    hide Lexed, SepList, Unwrites;
    var r := SepList(sep, f, ts);
    SepUnwritten(sep, f, w, ts);
    if r.Ok? && !Sees(r.rest, DOT) { SepPrinted(sep, w, pr, Taken(ts, r.rest), r.value); }
  }

  lemma BoundaryTakes(ts: seq<Lexeme>)
    requires Lexed(ts)
    ensures var r := ParseBoundary(ts);
            r.Ok? && r.value != [] ==>
              Lexed(r.rest)
              && (!Sees(r.rest, DOT) ==>
                    ts == [Punct(PIPE)] + (PrintSep(COMMA, PrintBound, r.value) + r.rest))
  {
    hide Lexed, SepList, Unwrites, ParseBound, PrintBound, PrintSep;
    if Sees(ts, PIPE) {
      SeesTakes(ts, PIPE);
      BoundsUnwritten();
      SepTakes(COMMA, ParseBound, WritesBound, PrintBound, ts[1..]);
    }
  }

  lemma ActorTakes(ts: seq<Lexeme>)
    requires Lexed(ts)
    ensures var r := SepList(COLON, ParseAnyName, ts);
            r.Ok? ==> Lexed(r.rest) && (!Sees(r.rest, DOT) ==> ts == PrintSep(COLON, PrintAnyName, r.value) + r.rest)
  {
    hide Lexed, SepList, Unwrites, ParseAnyName, PrintAnyName, PrintSep;
    NamesUnwritten();
    SepTakes(COLON, ParseAnyName, WritesName, PrintAnyName, ts);
  }

  lemma OwnerTakes(ts: seq<Lexeme>)
    requires Lexed(ts)
    ensures var r := ParseOwner(ts);
            r.Ok? && r.value.boundary != [] ==>
              Lexed(r.rest) && [Lexeme(KEYWORD, "ID")] + ts == PrintIdentity(r.value) + r.rest
  {
    hide Lexed, SepList, ParseAnyName, PrintAnyName, PrintBound, ParseBoundary, PrintSep, PrintIdentity;
    var r := ParseOwner(ts);
    if r.Ok? && r.value.boundary != [] {
      EatTakes(ts, LBRACK);
      var t2 := Eat(ts, LBRACK).rest;
      ActorTakes(t2);
      var t3 := SepList(COLON, ParseAnyName, t2).rest;
      BoundaryTakes(t3);
      BoundaryStarts(t3);
      var t4 := ParseBoundary(t3).rest;
      EatTakes(t4, RBRACK);
      IdentityJoins(r.value, [Lexeme(KEYWORD, "ID")] + ts, t2, t3, t4, r.rest);
    }
  }

  lemma BoundaryStarts(ts: seq<Lexeme>)
    ensures ParseBoundary(ts).Ok? && ParseBoundary(ts).value != [] ==> Sees(ts, PIPE)
  {
    hide SepList;
  }

  lemma IdentityTakes(ts: seq<Lexeme>)
    requires Lexed(ts)
    ensures var r := ParseIdentity(ts); r.Ok? ==> ts == PrintIdentity(r.value) + r.rest && Lexed(r.rest)
  {
    hide Lexed, ParseOwner, PrintIdentity;
    if ParseIdentity(ts).Ok? {
      EatWordTakes(ts, "ID");
      OwnerTakes(EatKeyword(ts, "ID").rest);
    }
  }

  lemma IdentityJoins(id: Identity, ts: seq<Lexeme>, t2: seq<Lexeme>, t3: seq<Lexeme>, t4: seq<Lexeme>,
                      rest: seq<Lexeme>)
    requires ts == [Lexeme(KEYWORD, "ID")] + ([Punct(LBRACK)] + t2)
    requires t2 == PrintSep(COLON, PrintAnyName, id.actor) + t3
    requires t3 == [Punct(PIPE)] + (PrintSep(COMMA, PrintBound, id.boundary) + t4) && t4 == [Punct(RBRACK)] + rest
    ensures ts == PrintIdentity(id) + rest
  {
    hide PrintSep, PrintAnyName, PrintBound, Punct;
    var a, b := PrintSep(COLON, PrintAnyName, id.actor), PrintSep(COMMA, PrintBound, id.boundary);
    var close := [Punct(RBRACK)];
    Assoc(b, close, rest);
    Assoc([Punct(PIPE)], b + close, rest);
    Assoc(a, [Punct(PIPE)] + (b + close), rest);
    Assoc([Punct(LBRACK)], a + ([Punct(PIPE)] + (b + close)), rest);
    Assoc([Lexeme(KEYWORD, "ID")], [Punct(LBRACK)] + (a + ([Punct(PIPE)] + (b + close))), rest);
  }

  lemma ParamsTake(ts: seq<Lexeme>)
    requires Lexed(ts)
    ensures var r := ParseParams(ts);
            r.Ok? ==> Lexed(r.rest) && (!Sees(r.rest, DOT) ==> ts == PrintParams(r.value) + r.rest)
  {
    hide Lexed, SepList, Unwrites, ParseParam, PrintParam, PrintSep;
    if Sees(ts, COMMA) {
      SeesTakes(ts, COMMA);
      ParamsUnwritten();
      SepTakes(COMMA, ParseParam, WritesParam, PrintParam, ts[1..]);
    } else {
      assert ts == [] + ts;
    }
  }

  lemma NameAndParamsTake(ts: seq<Lexeme>)
    requires Lexed(ts)
    ensures var n := ParseAnyName(ts);
            n.Ok? && ParseParams(n.rest).Ok? && Sees(ParseParams(n.rest).rest, RBRACK) ==>
              var p := ParseParams(n.rest);
              Lexed(p.rest) && ts == [AnyNameLexeme(n.value)] + (PrintParams(p.value) + p.rest)
  {
    hide Lexed, ParseAnyName, ParseParams, PrintParams, AnyNameLexeme, Taken;
    NameTakes(ts);
    var n := ParseAnyName(ts);
    if n.Ok? {
      ParamsTake(n.rest);
      NoDotAfterName(n.rest);
    }
  }

  lemma IntentTakes(ts: seq<Lexeme>)
    requires Lexed(ts)
    ensures var r := ParseIntent(ts); r.Ok? ==> ts == PrintIntent(r.value) + r.rest && Lexed(r.rest)
  {
    hide Lexed, ParseAnyName, ParseParams, PrintParams, AnyNameLexeme;
    var r := ParseIntent(ts);
    if r.Ok? {
      EatWordTakes(ts, "Intent");
      var t1 := EatKeyword(ts, "Intent").rest;
      EatTakes(t1, LBRACK);
      var t2 := Eat(t1, LBRACK).rest;
      NameAndParamsTake(t2);
      EatTakes(ParseParams(ParseAnyName(t2).rest).rest, RBRACK);
      hide Eat, EatKeyword, Punct;
      Joined([AnyNameLexeme(r.value.name)], PrintParams(r.value.params), [Punct(RBRACK)], r.rest);
      Joined([Lexeme(KEYWORD, "Intent")], [Punct(LBRACK)],
             [AnyNameLexeme(r.value.name)] + (PrintParams(r.value.params) + [Punct(RBRACK)]), r.rest);
    }
  }

  lemma NoDotAfterName(ts: seq<Lexeme>)
    ensures Sees(ts, DOT) && ParseParams(ts).Ok? ==> !Sees(ParseParams(ts).rest, RBRACK)
  {
  }

  /* ---------- statements ---------- */

  /** What the grammar leaves open in a statement. */
  datatype Choices = Choices(arrow: Lexeme, compute: seq<Lexeme>, out: Lexeme, onFail: seq<Lexeme>, semi: bool)

  ghost predicate ChoicesFit(c: Choices, s: Statement) {
    && IsPunct(c.arrow) && c.arrow.kind == ARROW_INTENT && IsPunct(c.out) && c.out.kind == ARROW_OUT
    && s.compute != [] && WritesBlock("Compute", WritesCall, c.compute, s.compute) && s.output != []
    && WritesOnFail(c.onFail, s.onFail)
  }

  function HeadTokens(s: Statement, c: Choices): seq<Lexeme> {
    PrintIdentity(s.identity) + ([Punct(COLONCOLON)] + (PrintIntent(s.intent) + [c.arrow]))
  }

  function WorkTokens(s: Statement, c: Choices): seq<Lexeme> {
    PrintContext(s.context) + (c.compute + [c.out])
  }

  function EndTokens(s: Statement, c: Choices): seq<Lexeme> {
    PrintBlock("Output", PrintItem, s.output) + (c.onFail + Semi(c.semi))
  }

  ghost predicate WritesStatement(used: seq<Lexeme>, s: Statement) {
    exists c :: ChoicesFit(c, s) && used == HeadTokens(s, c) + (WorkTokens(s, c) + EndTokens(s, c))
  }

  ghost predicate WritesStatements(used: seq<Lexeme>, ss: seq<Statement>)
    decreases |ss|
  {
    if ss == [] then used == []
    else exists k :: 0 <= k <= |used| && WritesStatement(used[..k], ss[0]) && WritesStatements(used[k..], ss[1..])
  }

  /** The version pragma, if there is one, and the statements. */
  ghost predicate WritesProgram(used: seq<Lexeme>, p: Program) {
    if p.version.None? then WritesStatements(used, p.statements)
    else used != [] && used[0] == Lexeme(PRAGMA, p.version.value) && WritesStatements(used[1..], p.statements)
  }

  lemma ArrowTakes(ts: seq<Lexeme>, kind: Kind)
    requires Lexed(ts) && (kind == ARROW_INTENT || kind == ARROW_OUT)
    ensures var r := Eat(ts, kind);
            r.Ok? ==> ts == [ts[0]] + r.rest && ts[0].kind == kind && IsPunct(ts[0]) && Lexed(r.rest)
  {
    hide Lexed;
    if Sees(ts, kind) {
      FirstIs(ts);
      LexedTail(ts, 1);
    }
  }

  lemma HeadTakes(ts: seq<Lexeme>)
    requires Lexed(ts) && ParseHead(ts).Ok?
    ensures var (id, intent) := ParseHead(ts).value;
            && Lexed(ParseHead(ts).rest)
            && exists arrow :: IsPunct(arrow) && arrow.kind == ARROW_INTENT
                 && ts == PrintIdentity(id)
                            + ([Punct(COLONCOLON)] + (PrintIntent(intent) + ([arrow] + ParseHead(ts).rest)))
  {
    hide Lexed, ParseIdentity, ParseIntent, PrintIdentity, PrintIntent, IsPunct;
    IdentityTakes(ts);
    var t1 := ParseIdentity(ts).rest;
    EatTakes(t1, COLONCOLON);
    var t2 := Eat(t1, COLONCOLON).rest;
    IntentTakes(t2);
    ArrowTakes(ParseIntent(t2).rest, ARROW_INTENT);
  }

  lemma ContextTakes(ts: seq<Lexeme>)
    requires Lexed(ts)
    ensures var r := ParseOptionalContext(ts); r.Ok? ==> ts == PrintContext(r.value) + r.rest && Lexed(r.rest)
  {
    hide Lexed, ParseBlock, Unwrites, PrintBlock, WritesBlock, Taken;
    var r := ParseOptionalContext(ts);
    if SeesWord(ts, KEYWORD, "Context") {
      if r.Ok? {
        ArgsUnwritten();
        BlockUnwritten("Context", ParseArg, WritesArg, ts);
        var b := ParseContext(ts);
        BlockPrinted("Context", WritesArg, PrintArg, Taken(ts, b.rest), b.value);
        EatTakes(b.rest, COMMA);
        Assoc(PrintBlock("Context", PrintArg, b.value), [Punct(COMMA)], r.rest);
      }
    } else {
      assert ts == [] + ts;
    }
  }

  lemma WorkTakes(ts: seq<Lexeme>)
    requires Lexed(ts) && ParseWork(ts).Ok?
    ensures var (context, compute) := ParseWork(ts).value;
            && Lexed(ParseWork(ts).rest) && compute != []
            && exists used, out :: WritesBlock("Compute", WritesCall, used, compute)
                 && IsPunct(out) && out.kind == ARROW_OUT
                 && ts == PrintContext(context) + (used + ([out] + ParseWork(ts).rest))
  {
    hide Lexed, ParseOptionalContext, ParseBlock, Unwrites, PrintContext, WritesBlock, Taken, IsPunct;
    ContextTakes(ts);
    var t1 := ParseOptionalContext(ts).rest;
    CallsUnwritten();
    BlockUnwritten("Compute", ParseCall, WritesCall, t1);
    var t2 := ParseCompute(t1).rest;
    ArrowTakes(t2, ARROW_OUT);
    var used := Taken(t1, t2);
    assert WritesBlock("Compute", WritesCall, used, ParseWork(ts).value.1);
  }

  ghost predicate WritesOnFail(used: seq<Lexeme>, onFail: Option<seq<Handler>>) {
    if onFail.None? then used == [] else WritesBlock("OnFail", WritesHandler, used, onFail.value)
  }

  lemma OnFailTakes(ts: seq<Lexeme>)
    requires Lexed(ts)
    ensures var r := if SeesWord(ts, KEYWORD, "OnFail") then Optionally(ParseOnFail(ts)) else Ok(None, ts);
            r.Ok? ==> Lexed(r.rest) && exists used :: WritesOnFail(used, r.value) && ts == used + r.rest
  {
    hide Lexed, ParseBlock, Unwrites, WritesBlock, Taken;
    if SeesWord(ts, KEYWORD, "OnFail") {
      HandlersUnwritten();
      BlockUnwritten("OnFail", ParseHandler, WritesHandler, ts);
      var b := ParseOnFail(ts);
      if b.Ok? { assert WritesOnFail(Taken(ts, b.rest), Some(b.value)); }
    } else {
      assert WritesOnFail([], None) && ts == [] + ts;
    }
  }

  lemma OutputTakes(ts: seq<Lexeme>)
    requires Lexed(ts)
    ensures var r := ParseOutput(ts);
            r.Ok? ==> r.value != [] && ts == PrintBlock("Output", PrintItem, r.value) + r.rest && Lexed(r.rest)
  {
    hide Lexed, ParseBlock, Unwrites, PrintBlock, WritesBlock, Taken;
    ItemsUnwritten();
    BlockUnwritten("Output", ParseItem, WritesItem, ts);
    var r := ParseOutput(ts);
    if r.Ok? { BlockPrinted("Output", WritesItem, PrintItem, Taken(ts, r.rest), r.value); }
  }

  function Semi(given: bool): seq<Lexeme> {
    if given then [Punct(SEMI)] else []
  }

  lemma EndTakes(ts: seq<Lexeme>)
    requires Lexed(ts) && ParseEnd(ts).Ok?
    ensures var (output, onFail) := ParseEnd(ts).value;
            && Lexed(ParseEnd(ts).rest) && output != []
            && exists used, semi :: WritesOnFail(used, onFail)
                 && ts == PrintBlock("Output", PrintItem, output) + (used + (Semi(semi) + ParseEnd(ts).rest))
  {
    hide Lexed, ParseOutput, ParseOnFail, PrintBlock, WritesOnFail;
    OutputTakes(ts);
    var t1 := ParseOutput(ts).rest;
    OnFailTakes(t1);
    var r := if SeesWord(t1, KEYWORD, "OnFail") then Optionally(ParseOnFail(t1)) else Ok(None, t1);
    var used :| WritesOnFail(used, r.value) && t1 == used + r.rest;
    if Sees(r.rest, SEMI) {
      SeesTakes(r.rest, SEMI);
      assert r.rest == Semi(true) + ParseEnd(ts).rest;
    } else {
      assert r.rest == Semi(false) + ParseEnd(ts).rest;
    }
  }

  lemma StatementTakes(ts: seq<Lexeme>)
    requires Lexed(ts) && ParseStatement(ts).Ok?
    ensures var r := ParseStatement(ts);
            |r.rest| <= |ts| && ts == Taken(ts, r.rest) + r.rest && Lexed(r.rest)
            && WritesStatement(Taken(ts, r.rest), r.value)
  {
    hide Lexed, ParseHead, ParseWork, ParseEnd, PrintIdentity, PrintIntent, PrintContext, PrintBlock, WritesBlock,
         IsPunct,
         Punct, WritesStatement, Semi;
    HeadTakes(ts);
    var s, rest := ParseStatement(ts).value, ParseStatement(ts).rest;
    var t1 := ParseHead(ts).rest;
    WorkTakes(t1);
    var t2 := ParseWork(t1).rest;
    EndTakes(t2);
    var arrow :| IsPunct(arrow) && arrow.kind == ARROW_INTENT
      && ts == PrintIdentity(s.identity) + ([Punct(COLONCOLON)] + (PrintIntent(s.intent) + ([arrow] + t1)));
    var compute, out :| WritesBlock("Compute", WritesCall, compute, s.compute) && IsPunct(out) && out.kind == ARROW_OUT
                        && t1 == PrintContext(s.context) + (compute + ([out] + t2));
    var onFail, semi :| WritesOnFail(onFail, s.onFail)
                        && t2 == PrintBlock("Output", PrintItem, s.output) + (onFail + (Semi(semi) + rest));
    StatementJoins(ts, s, t1, t2, rest, Choices(arrow, compute, out, onFail, semi));
  }

  lemma StatementJoins(ts: seq<Lexeme>, s: Statement, t1: seq<Lexeme>, t2: seq<Lexeme>, rest: seq<Lexeme>, c: Choices)
    requires ChoicesFit(c, s)
    requires ts == PrintIdentity(s.identity) + ([Punct(COLONCOLON)] + (PrintIntent(s.intent) + ([c.arrow] + t1)))
    requires t1 == PrintContext(s.context) + (c.compute + ([c.out] + t2))
    requires t2 == PrintBlock("Output", PrintItem, s.output) + (c.onFail + (Semi(c.semi) + rest))
    ensures |rest| <= |ts| && ts == Taken(ts, rest) + rest && WritesStatement(Taken(ts, rest), s)
  {
    hide PrintIdentity, PrintIntent, PrintContext, PrintBlock, ChoicesFit, Punct;
    FourJoined(PrintIdentity(s.identity), [Punct(COLONCOLON)], PrintIntent(s.intent), [c.arrow], t1);
    ThreeJoined(PrintContext(s.context), c.compute, [c.out], t2);
    ThreeJoined(PrintBlock("Output", PrintItem, s.output), c.onFail, Semi(c.semi), rest);
    var head, work, end := HeadTokens(s, c), WorkTokens(s, c), EndTokens(s, c);
    assert ts == head + t1 && t1 == work + t2 && t2 == end + rest;
    hide HeadTokens, WorkTokens, EndTokens, Semi;
    ThreeJoined(head, work, end, rest);
    TakenIs(ts, head + (work + end), rest);
  }

  lemma ThreeJoined(a: seq<Lexeme>, b: seq<Lexeme>, c: seq<Lexeme>, rest: seq<Lexeme>)
    ensures a + (b + (c + rest)) == (a + (b + c)) + rest
  {
  }

  lemma FourJoined(a: seq<Lexeme>, b: seq<Lexeme>, c: seq<Lexeme>, d: seq<Lexeme>, rest: seq<Lexeme>)
    ensures a + (b + (c + (d + rest))) == (a + (b + (c + d))) + rest
  {
  }

  lemma {:induction false} StatementsTake(ts: seq<Lexeme>)
    requires Lexed(ts) && ParseStatements(ts).Ok?
    ensures var r := ParseStatements(ts);
            |r.rest| <= |ts| && ts == Taken(ts, r.rest) + r.rest && (r.rest == [] || Sees(r.rest, EOF))
            && WritesStatements(Taken(ts, r.rest), r.value)
    decreases |ts|
  {
    hide Lexed, ParseStatement, WritesStatement;
    var r := ParseStatements(ts);
    if ts == [] || Sees(ts, EOF) {
      assert ts == [] + ts;
      TakenIs(ts, [], ts);
    } else {
      var x := ParseStatement(ts);
      StatementTakes(ts);
      StatementsTake(x.rest);
      var a, b := Taken(ts, x.rest), Taken(x.rest, r.rest);
      assert ts == (a + b) + r.rest;
      TakenIs(ts, a + b, r.rest);
      StatementsCons(a, b, x.value, r.value[1..]);
    }
  }

  lemma StatementsCons(a: seq<Lexeme>, b: seq<Lexeme>, s: Statement, ss: seq<Statement>)
    requires WritesStatement(a, s) && WritesStatements(b, ss)
    ensures WritesStatements(a + b, [s] + ss)
  {
    hide WritesStatement;
    assert (a + b)[..|a|] == a && (a + b)[|a|..] == b && ([s] + ss)[1..] == ss;
  }

  /* ---------- the main result ---------- */

  lemma ProgramTakes(ts: seq<Lexeme>)
    requires Lexed(ts) && ParseProgram(ts).Ok?
    ensures var r := ParseProgram(ts);
            |r.rest| <= |ts| && ts == Taken(ts, r.rest) + r.rest && (r.rest == [] || Sees(r.rest, EOF))
            && WritesProgram(Taken(ts, r.rest), r.value)
  {
    hide Lexed, ParseStatements, WritesStatements;
    var r := ParseProgram(ts);
    if Sees(ts, PRAGMA) {
      LexedTail(ts, 1);
      StatementsTake(ts[1..]);
      var used := Taken(ts[1..], r.rest);
      assert ts == ([ts[0]] + used) + r.rest;
      TakenIs(ts, [ts[0]] + used, r.rest);
      assert ([ts[0]] + used)[1..] == used;
    } else {
      StatementsTake(ts);
    }
  }

  /** Whatever source text parses to a program, its tokens up to the end of the text are a writing of that
      program. */
  lemma AcceptsOnlyWritten(src: string)
    ensures ParseSource(src).Parsed? ==>
              var lexed := LexFrom(src, 1, 1);
              lexed.Tokens? && exists used, rest ::
                Strip(lexed.toks) == used + rest && (rest == [] || Sees(rest, EOF))
                && WritesProgram(used, ParseSource(src).program)
  {
    hide LexFrom, ParseProgram, WritesProgram, Lexed, Strip;
    LexerReturnsLexed(src, 1, 1);
    if ParseSource(src).Parsed? {
      var ts := Strip(LexFrom(src, 1, 1).toks);
      ProgramTakes(ts);
      var rest := ParseProgram(ts).rest;
      assert ts == Taken(ts, rest) + rest;
    }
  }
}
