/** What the lexer can return: every token reads back as itself, except a pragma without a version and a
    whole number that a dot kept from being one.

    The lexer tries a number first and takes it only if no code character follows; otherwise it takes the
    whole run of code characters. A run that is a whole number by itself can therefore only come about
    where the number went on past the run, which takes a dot, since every other character a number is made
    of is a code character. The next token is that dot. Everything else a scan returns is a token that
    would be scanned again from its own text. */
module LexerOutput {
  import opened Lexer
  import opened LexerProofs

  /* ---------- numbers end where they were found to end ---------- */

  lemma {:induction false} RunPrefix(p: char -> bool, s: string, n: nat)
    requires n <= |s|
    ensures Run(p, s[..n]) == if Run(p, s) <= n then Run(p, s) else n
    decreases |s|
  {
    if n > 0 && p(s[0]) {
      RunPrefix(p, s[1..], n - 1);
      assert s[..n][1..] == s[1..][..n - 1];
    }
  }

  lemma SliceTail(s: string, n: nat, k: nat)
    requires k <= n <= |s|
    ensures s[..n][k..] == s[k..][..n - k]
  {
  }

  lemma IntegerPrefix(s: string, n: nat)
    requires 0 < IntegerLength(s) <= n <= |s|
    ensures IntegerLength(s[..n]) == IntegerLength(s)
  {
    var sign := if s[0] == '-' then 1 else 0;
    SliceTail(s, n, sign);
    RunPrefix(IsDigit, s[sign..], n - sign);
  }

  lemma FractionPrefix(s: string, n: nat)
    requires FractionLength(s) <= n <= |s|
    requires FractionLength(s) == 0 ==> n == 0 || s[0] != '.'
    ensures FractionLength(s[..n]) == FractionLength(s)
  {
    if n > 0 && s[0] == '.' {
      SliceTail(s, n, 1);
      RunPrefix(IsDigit, s[1..], n - 1);
    }
  }

  lemma ExponentPrefix(s: string)
    ensures ExponentLength(s[..ExponentLength(s)]) == ExponentLength(s)
    ensures ExponentLength(s) > 0 ==> s[0] != '.'
  {
    var n := ExponentLength(s);
    if n > 0 {
      var k := if |s| > 1 && (s[1] == '+' || s[1] == '-') then 2 else 1;
      SliceTail(s, n, k);
      RunPrefix(IsDigit, s[k..], n - k);
    }
  }

  /** The text of a NUMBER token is a number. */
  lemma NumberPrefix(s: string)
    requires NumberLength(s) > 0
    ensures IsNumber(s[..NumberLength(s)])
  {
    hide IntegerLength, FractionLength, ExponentLength;
    var n, i := NumberLength(s), IntegerLength(s);
    var f := FractionLength(s[i..]);
    IntegerPrefix(s, n);
    SliceTail(s, n, i);
    ExponentPrefix(s[i + f..]);
    assert s[i..][f..] == s[i + f..];
    if f == 0 { assert s[i..] == s[i + f..]; }
    FractionPrefix(s[i..], n - i);
    SliceTail(s, n, i + f);
  }

  /* ---------- a whole number that became a code ---------- */

  lemma IntegerJoin(a: string, t: string)
    requires a != "" && IsDigit(a[0]) && (t == "" || !IsCodePart(t[0]))
    ensures IntegerLength(a + t) == IntegerLength(a)
  {
    var u := a + t;
    assert u[0] == a[0] && u[0..] == u && a[0..] == a;
    RunJoin(IsDigit, a, t);
  }

  lemma FractionJoin(a: string, t: string)
    requires t == "" || t[0] != '.'
    requires a == "" || a[0] != '.'
    ensures FractionLength(a + t) == 0
  {
    if a == "" { assert a + t == t; } else { assert (a + t)[0] == a[0]; }
  }

  lemma ExponentJoin(a: string, t: string)
    requires ExponentLength(a) == |a| && (t == "" || !IsCodePart(t[0]))
    ensures ExponentLength(a + t) == |a|
  {
    var u := a + t;
    if a == "" {
      assert u == t;
    } else {
      assert u[0] == a[0] && u[1] == a[1];
      var k := if a[1] == '+' || a[1] == '-' then 2 else 1;
      TailOfConcat(a, t, k);
      RunJoin(IsDigit, a[k..], t);
    }
  }

  /** A whole number made of code characters stays the number it is, unless a dot follows. */
  lemma NumberJoin(a: string, t: string)
    requires IsNumber(a) && IsDigit(a[0]) && All(IsCodePart, a)
    requires t == "" || (!IsCodePart(t[0]) && t[0] != '.')
    ensures NumberLength(a + t) == |a|
  {
    hide IntegerLength, FractionLength, ExponentLength;
    var i := IntegerLength(a);
    IntegerJoin(a, t);
    TailOfConcat(a, t, i);
    NoFraction(a[i..]);
    FractionJoin(a[i..], t);
    ExponentJoin(a[i..], t);
  }

  lemma NoFraction(a: string)
    requires All(IsCodePart, a)
    ensures FractionLength(a) == 0 && (a == "" || a[0] != '.')
  {
  }

  /** A word the lexer scans is a name, a keyword or a code, except that a code may be a whole number
      that a dot follows. */
  lemma WordShape(s: string)
    requires s != "" && IsIdentPart(s[0]) && !StartsNumber(s) && ScanWord(s).Tok?
    ensures var r := ScanWord(s);
            Lexable(r.lexeme) || (r.lexeme.kind == CODE && r.length < |s| && s[r.length] == '.')
  {
    WordText(s);
    hide Run, NumberLength, IsKeyword, StartsNumber;
    var n := Run(IsCodePart, s);
    if IsNumber(s[..n]) { NumberWord(s, n); }
  }

  lemma WordText(s: string)
    requires s != "" && IsIdentPart(s[0])
    ensures var n := Run(IsCodePart, s);
            n > 0 && s[..n][0] == s[0] && All(IsCodePart, s[..n]) && (n == |s| || !IsCodePart(s[n]))
  {
    var n := Run(IsCodePart, s);
    RunPrefix(IsCodePart, s, n);
    RunAll(IsCodePart, s[..n]);
    RunStopsAt(IsCodePart, s);
  }

  /** A word that is a whole number starts a number unless a dot follows it. */
  lemma NumberWord(s: string, n: nat)
    requires 0 < n <= |s| && IsIdentPart(s[0]) && IsNumber(s[..n]) && All(IsCodePart, s[..n])
    requires n == |s| || !IsCodePart(s[n])
    ensures StartsNumber(s) || (n < |s| && s[n] == '.')
  {
    hide NumberLength;
    var text, t := s[..n], s[n..];
    assert s == text + t && text[0] == s[0];
    NumberHead(text);
    if t == "" || t[0] != '.' { NumberJoin(text, t); }
  }

  lemma {:induction false} RunStopsAt(p: char -> bool, s: string)
    ensures Run(p, s) == |s| || !p(s[Run(p, s)])
    decreases |s|
  {
    if s != "" && p(s[0]) { RunStopsAt(p, s[1..]); }
  }

  /* ---------- any token ---------- */

  lemma {:induction false} PunctShape(s: string, k: nat)
    requires k <= |PUNCT| && ScanPunct(s, k).Tok?
    ensures IsPunct(ScanPunct(s, k).lexeme)
    decreases |PUNCT| - k
  {
    if k < |PUNCT| {
      TableIsPunct(k);
      hide IsPunct;
      if !(PUNCT[k].text <= s) { PunctShape(s, k + 1); }
    }
  }

  lemma TableIsPunct(k: nat)
    requires k < |PUNCT|
    ensures IsPunct(PUNCT[k])
  {
  }

  lemma {:induction false} DotFrom(s: string, k: nat)
    requires s != "" && s[0] == '.' && k <= 14
    ensures ScanPunct(s, k) == Tok(Lexeme(DOT, "."), 1)
    decreases 14 - k
  {
    if k < 14 {
      assert PUNCT[k].text[0] != '.';
      DotFrom(s, k + 1);
    } else {
      assert PUNCT[14] == Lexeme(DOT, ".") && "." <= s;
    }
  }

  lemma DotScans(s: string)
    requires s != "" && s[0] == '.'
    ensures Scan(s) == Tok(Lexeme(DOT, "."), 1)
  {
    ScanOtherwise(s);
    DotFrom(s, 0);
  }

  lemma PragmaShape(s: string)
    requires |s| >= 4
    ensures var t := ScanPragma(s).lexeme; t.kind == PRAGMA && All(IsVersionChar, t.text)
  {
    var gap := 4 + Run(IsBlank, s[4..]);
    var rest := s[gap..];
    RunPrefix(IsVersionChar, rest, Run(IsVersionChar, rest));
    RunAll(IsVersionChar, rest[..Run(IsVersionChar, rest)]);
    assert s[gap..gap + Run(IsVersionChar, rest)] == rest[..Run(IsVersionChar, rest)];
  }

  /** What one scan returns. */
  lemma TokenShape(s: string)
    requires s != "" && Scan(s).Tok?
    ensures var r := Scan(s);
            || Lexable(r.lexeme) || r.lexeme == Lexeme(PRAGMA, "")
            || (r.lexeme.kind == CODE && r.length < |s| && s[r.length] == '.')
  {
    hide ScanPragma, ScanString, ScanWord, ScanPunct, NumberLength, IsKeyword, IsCode, IsIdent;
    if "%igl" <= s {
      assert s[0] == '%';
      PragmaShape(s);
    } else if s[0] == '\"' {
      StringShape(s);
    } else if StartsNumber(s) {
      NumberPrefix(s);
    } else if IsIdentPart(s[0]) {
      WordShape(s);
    } else {
      PunctShape(s, 0);
      PunctLexes(ScanPunct(s, 0).lexeme);
    }
  }

  lemma StringShape(s: string)
    requires s != "" && ScanString(s).Tok?
    ensures ScanString(s).lexeme.kind == STRING
  {
  }

  lemma PunctLexes(t: Lexeme)
    requires IsPunct(t)
    ensures Lexable(t)
  {
  }

  /* ---------- the whole text ---------- */

  /** Token i of a token list as the lexer makes them. */
  ghost predicate TokenAt(ts: seq<Lexeme>, i: nat)
    requires i < |ts|
  {
    || Lexable(ts[i]) || ts[i].kind == EOF || ts[i] == Lexeme(PRAGMA, "")
    || (ts[i].kind == CODE && i + 1 < |ts| && ts[i + 1].kind == DOT)
  }

  ghost predicate Lexed(ts: seq<Lexeme>) {
    forall i :: 0 <= i < |ts| ==> TokenAt(ts, i)
  }

  lemma LexedCons(t: Lexeme, ts: seq<Lexeme>)
    requires Lexed(ts)
    requires Lexable(t) || t == Lexeme(PRAGMA, "") || (t.kind == CODE && ts != [] && ts[0].kind == DOT)
    ensures Lexed([t] + ts)
  {
    hide Lexable;
    var all := [t] + ts;
    forall i | 0 <= i < |all| ensures TokenAt(all, i) {
      if i > 0 { assert TokenAt(ts, i - 1); }
    }
  }

  /** Every token list the lexer returns is of this kind, whatever the source text. */
  lemma {:induction false} LexerReturnsLexed(s: string, line: nat, col: nat)
    ensures var r := LexFrom(s, line, col);
            r.Tokens? ==> Lexed(Strip(r.toks)) && r.toks != []
                          && (s != "" && s[0] == '.' ==> r.toks[0].lexeme.kind == DOT)
    decreases |s|
  {
    hide Scan, Lexable, Lexed;
    if s == "" {
      EofLexed(line, col);
    } else {
      if s[0] == '.' { DotScans(s); }
      match Scan(s) {
        case Newline => LexerReturnsLexed(s[1..], line + 1, 1);
        case Blank => LexerReturnsLexed(s[1..], line, col + 1);
        case Comment(n) => LexerReturnsLexed(s[n..], line, col);
        case Tok(t, n) =>
          TokenShape(s);
          LexerReturnsLexed(s[n..], line, col + n);
          var r := LexFrom(s[n..], line, col + n);
          if r.Tokens? {
            LexedCons(t, Strip(r.toks));
            assert ([Token(t, line, col)] + r.toks)[1..] == r.toks;
          }
        case Fail(_, _) =>
      }
    }
  }

  lemma EofLexed(line: nat, col: nat)
    ensures Lexed(Strip([Token(Lexeme(EOF, ""), line, col)]))
  {
  }
}
