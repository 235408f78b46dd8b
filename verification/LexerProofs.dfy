/** Lexing inverts printing: tokens written with a space after each are read back as they were.

    The scanner decides by its first characters and by maximal munch, so each kind of token needs its
    own argument that the run it takes stops at the space and not before: a word at its last letter, a
    number at its last digit, a string at its own closing quote and no earlier one, punctuation at its
    own length although shorter punctuation may be its prefix. ScanPrinted collects these cases, and
    LexPrinted goes from one token to a list of them. Names, codes and numbers are told apart by
    predicates that say what the lexer's branches test, so a token that satisfies none is not printable. */
module LexerProofs {
  import opened JsonStrings
  import opened Lexer

  /* ---------- printing ---------- */

  function TokenText(t: Lexeme): string {
    match t.kind
    case STRING => Quote(t.text)
    case PRAGMA => "%igl " + t.text
    case _ => t.text
  }

  function PrintTokens(ts: seq<Lexeme>): string {
    if ts == [] then "" else TokenText(ts[0]) + " " + PrintTokens(ts[1..])
  }

  /** Names and codes as the lexer recognises them. */
  predicate IsName(text: string) {
    text != "" && IsIdentStart(text[0]) && All(IsIdentPart, text)
  }

  predicate IsIdent(text: string) {
    IsName(text) && !IsKeyword(text)
  }

  /** A hyphenated or digit-led word that is not a number by itself. */
  predicate IsCode(text: string) {
    && text != "" && IsIdentPart(text[0]) && All(IsCodePart, text) && !IsName(text)
    && text[|text| - 1] != '-' && NumberLength(text) != |text|
  }

  predicate IsNumber(text: string) {
    text != "" && NumberLength(text) == |text|
  }

  predicate IsPunct(t: Lexeme) {
    match t.kind
    case COLONCOLON => t.text == "::"
    case ARROW_INTENT => t.text == "=>" || t.text == "\U{21D2}"
    case ARROW_OUT => t.text == "->" || t.text == "\U{2192}"
    case LBRACK => t.text == "["
    case RBRACK => t.text == "]"
    case LPAREN => t.text == "("
    case RPAREN => t.text == ")"
    case COMMA => t.text == ","
    case SEMI => t.text == ";"
    case PIPE => t.text == "|"
    case COLON => t.text == ":"
    case EQ => t.text == "="
    case DOT => t.text == "."
    case AT => t.text == "@"
    case _ => false
  }

  /** Where a punctuation token stands in the table. */
  function PunctIndex(t: Lexeme): (k: nat)
    requires IsPunct(t)
    ensures k < |PUNCT| && PUNCT[k] == t
  {
    match t.kind
    case COLONCOLON => 0
    case ARROW_INTENT => if t.text == "=>" then 1 else 2
    case ARROW_OUT => if t.text == "->" then 3 else 4
    case LBRACK => 5
    case RBRACK => 6
    case LPAREN => 7
    case RPAREN => 8
    case COMMA => 9
    case SEMI => 10
    case PIPE => 11
    case COLON => 12
    case EQ => 13
    case DOT => 14
    case AT => 15
  }

  /** Tokens whose text reads back as themselves. */
  predicate Lexable(t: Lexeme) {
    match t.kind
    case STRING => true
    case NUMBER => IsNumber(t.text)
    case KEYWORD => IsKeyword(t.text)
    case IDENT => IsIdent(t.text)
    case CODE => IsCode(t.text)
    case PRAGMA => t.text != "" && All(IsVersionChar, t.text)
    case EOF => false
    case _ => IsPunct(t)
  }

  /* ---------- what may follow a token ---------- */

  /** A character that continues neither a word nor a number. */
  predicate Stopper(c: char) {
    !IsCodePart(c) && c != '.' && c != '+'
  }

  /** The token ends where its text does. White space and comments may follow any token. */
  predicate Clear(t: Lexeme, rest: string) {
    rest == "" ||
    match t.kind
    case NUMBER => Stopper(rest[0])
    case CODE => Stopper(rest[0])
    case IDENT => !IsCodePart(rest[0])
    case KEYWORD => !IsCodePart(rest[0])
    case PRAGMA => !IsVersionChar(rest[0])
    case COLON => rest[0] != ':'
    case EQ => rest[0] != '>'
    case _ => true
  }

  /* ---------- runs and numbers end where they should ---------- */

  lemma {:induction false} RunJoin(p: char -> bool, a: string, t: string)
    requires t == "" || !p(t[0])
    ensures Run(p, a + t) == Run(p, a)
    decreases |a|
  {
    if a == "" {
      assert a + t == t;
    } else if p(a[0]) {
      RunJoin(p, a[1..], t);
      assert (a + t)[1..] == a[1..] + t;
    }
  }

  lemma {:induction false} RunAll(p: char -> bool, a: string)
    ensures Run(p, a) == |a| <==> All(p, a)
    decreases |a|
  {
    if a != "" {
      RunAll(p, a[1..]);
      if p(a[0]) && All(p, a[1..]) {
        forall i | 0 <= i < |a| ensures p(a[i]) { if i > 0 { assert a[i] == a[1..][i - 1]; } }
      }
      if All(p, a) {
        forall i | 0 <= i < |a[1..]| ensures p(a[1..][i]) { assert a[1..][i] == a[i + 1]; }
      }
    }
  }

  lemma TailOfConcat(a: string, t: string, k: nat)
    requires k <= |a|
    ensures (a + t)[k..] == a[k..] + t
  {
  }

  lemma IntegerStops(a: string, t: string)
    requires t == "" || Stopper(t[0])
    ensures IntegerLength(a + t) == IntegerLength(a)
  {
    var u := a + t;
    if a == "" {
      assert u == t;
    } else {
      assert u[0] == a[0];
      var sign := if a[0] == '-' then 1 else 0;
      if |a| > sign { assert u[sign] == a[sign]; } else if t != "" { assert u[sign] == t[0]; }
      TailOfConcat(a, t, sign);
      RunJoin(IsDigit, a[sign..], t);
    }
  }

  lemma FractionStops(a: string, t: string)
    requires t == "" || Stopper(t[0])
    ensures FractionLength(a + t) == FractionLength(a)
  {
    if a == "" {
      assert a + t == t;
    } else {
      assert (a + t)[0] == a[0];
      TailOfConcat(a, t, 1);
      RunJoin(IsDigit, a[1..], t);
    }
  }

  lemma ExponentStops(a: string, t: string)
    requires t == "" || Stopper(t[0])
    ensures ExponentLength(a + t) == ExponentLength(a)
  {
    var u := a + t;
    if a == "" {
      assert u == t;
    } else {
      assert u[0] == a[0];
      if |a| > 1 { assert u[1] == a[1]; } else if t != "" { assert u[1] == t[0]; }
      var k := if |a| > 1 && (a[1] == '+' || a[1] == '-') then 2 else 1;
      TailOfConcat(a, t, k);
      RunJoin(IsDigit, a[k..], t);
    }
  }

  lemma NumberStops(a: string, t: string)
    requires t == "" || Stopper(t[0])
    ensures NumberLength(a + t) == NumberLength(a)
  {
    hide IntegerLength, FractionLength, ExponentLength;
    IntegerStops(a, t);
    var i := IntegerLength(a);
    TailOfConcat(a, t, i);
    FractionStops(a[i..], t);
    var f := FractionLength(a[i..]);
    TailOfConcat(a, t, i + f);
    ExponentStops(a[i + f..], t);
  }

  /* ---------- each class of token ---------- */

  lemma HeadOfJoin(a: string, t: string)
    requires a != ""
    ensures (a + t)[0] == a[0] && (a + t)[..|a|] == a && (t != "" ==> (a + t)[|a|] == t[0])
  {
  }

  lemma Regroup(a: string, b: string, c: string, d: string, e: string)
    ensures a + (b + c) == (a + b) + c
    ensures a + (b + c) + d + e == (a + b) + c + d + e == a + b + (c + d + e)
  {
  }

  lemma {:induction false} RawOfEscaped(v: string, head: string, s: string)
    ensures var u := head + EscapeAll(v) + "\"" + s;
            RawString(u, |head|) == Closed(|head + EscapeAll(v)| + 1)
    decreases |v|
  {
    var u := head + EscapeAll(v) + "\"" + s;
    if v == "" {
      assert u[|head|] == '\"';
    } else {
      hide RawString, Escape;
      var e := Escape(v[0]);
      var rest := EscapeAll(v[1..]);
      Regroup(head, e, rest, "\"", s);
      RawOfEscaped(v[1..], head + e, s);
      RawOfOne(v[0], head, rest + "\"" + s);
    }
  }

  lemma RawOfOne(c: char, head: string, tail: string)
    ensures var u := head + Escape(c) + tail; RawString(u, |head|) == RawString(u, |head + Escape(c)|)
  {
    var e := Escape(c);
    var u := head + e + tail;
    assert u[|head|] == e[0];
    if |e| >= 2 { assert u[|head| + 1] == e[1]; }
    if |e| == 6 {
      assert u[|head| + 2] == e[2] && u[|head| + 3] == e[3] && u[|head| + 4] == e[4] && u[|head| + 5] == e[5];
      assert RawString(u, |head|) == RawString(u, |head| + 2) == RawString(u, |head| + 3)
          == RawString(u, |head| + 4) == RawString(u, |head| + 5) == RawString(u, |head| + 6);
    }
  }

  lemma ScanQuoted(v: string, s: string)
    ensures Scan(Quote(v) + s) == Tok(Lexeme(STRING, v), |Quote(v)|)
  {
    var u := Quote(v) + s;
    assert u == "\"" + EscapeAll(v) + "\"" + s;
    RawOfEscaped(v, "\"", s);
    assert u[..|Quote(v)|] == Quote(v);
    ParseQuote(v);
    assert u[0] == '\"';
    assert !("%igl" <= u);
  }

  lemma ScanNumber(a: string, t: string)
    requires IsNumber(a) && (t == "" || Stopper(t[0]))
    ensures Scan(a + t) == Tok(Lexeme(NUMBER, a), |a|)
  {
    var u := a + t;
    NumberStops(a, t);
    HeadOfJoin(a, t);
    NumberHead(a);
    hide NumberLength, ScanPragma, ScanString, ScanWord, ScanPunct, Run;
    if a[0] == '-' { assert u[1] == a[1]; }
    assert !("%igl" <= u) by { assert u[0] != '%'; }
    assert StartsNumber(u);
  }

  lemma NumberHead(a: string)
    requires NumberLength(a) > 0
    ensures IsDigit(a[0]) || (a[0] == '-' && |a| > 1 && IsDigit(a[1]))
  {
  }

  lemma ScanWordOf(a: string, t: string)
    requires a != "" && IsIdentPart(a[0]) && All(IsCodePart, a) && !StartsNumber(a + t)
    requires t == "" || !IsCodePart(t[0])
    requires IsName(a) || a[|a| - 1] != '-'
    ensures Scan(a + t) == Tok(Lexeme(WordKind(a), a), |a|)
  {
    hide StartsNumber, NumberLength, IsKeyword;
    var u := a + t;
    HeadOfJoin(a, t);
    RunJoin(IsCodePart, a, t);
    RunAll(IsCodePart, a);
    assert !("%igl" <= u) by { assert u[0] != '%'; }
  }

  lemma ScanName(a: string, t: string)
    requires IsName(a) && (t == "" || !IsCodePart(t[0]))
    ensures Scan(a + t) == Tok(Lexeme(if IsKeyword(a) then KEYWORD else IDENT, a), |a|)
  {
    HeadOfJoin(a, t);
    ScanWordOf(a, t);
  }

  lemma ScanCode(a: string, t: string)
    requires IsCode(a) && (t == "" || Stopper(t[0]))
    ensures Scan(a + t) == Tok(Lexeme(CODE, a), |a|)
  {
    hide NumberLength;
    var u := a + t;
    HeadOfJoin(a, t);
    NumberStops(a, t);
    var n := NumberLength(a);
    if n < |a| { assert u[n] == a[n]; }
    assert !StartsNumber(u);
    ScanWordOf(a, t);
  }

  /** Characters that start no other class of token. */
  predicate OnlyPunct(c: char) {
    && !IsIdentPart(c) && c != '\n' && c != ' ' && c != '\t' && c != '\r' && c != '#' && c != '%' && c != '\"'
  }

  lemma PunctChars(t: Lexeme)
    requires IsPunct(t)
    ensures 1 <= |t.text| <= 2 && OnlyPunct(t.text[0])
    ensures t.text[0] == '-' ==> |t.text| == 2 && t.text[1] == '>'
  {
  }

  lemma ScanOtherwise(u: string)
    requires u != "" && OnlyPunct(u[0]) && (u[0] == '-' ==> |u| > 1 && u[1] == '>')
    ensures Scan(u) == ScanPunct(u, 0)
  {
    hide NumberLength, ScanPunct;
    assert !("%igl" <= u);
    assert !StartsNumber(u);
  }

  lemma ScanPunctuation(t: Lexeme, s: string)
    requires IsPunct(t) && Clear(t, s)
    ensures t.text != "" && Scan(t.text + s) == Tok(t, |t.text|)
  {
    hide Scan, ScanPunct;
    var u := t.text + s;
    PunctChars(t);
    HeadOfJoin(t.text, s);
    if |t.text| == 2 { assert u[1] == t.text[1]; }
    ScanOtherwise(u);
    PunctFrom(t, s, PunctIndex(t), PunctIndex(t));
  }

  /** No earlier punctuation is a prefix of this one with what may follow it. */
  lemma {:induction false} PunctFrom(t: Lexeme, s: string, k: nat, back: nat)
    requires k < |PUNCT| && PUNCT[k] == t && back <= k && Clear(t, s)
    ensures ScanPunct(t.text + s, k - back) == Tok(t, |t.text|)
    decreases back
  {
    hide Clear;
    var u := t.text + s;
    if back > 0 {
      PunctFrom(t, s, k, back - 1);
      PunctApart(k - back, k, s);
    } else {
      assert t.text <= u;
    }
  }

  /** Punctuation tried earlier differs in its first character, or in a second one. */
  lemma PunctApart(j: nat, k: nat, s: string)
    requires j < k < |PUNCT| && Clear(PUNCT[k], s)
    ensures !(PUNCT[j].text <= PUNCT[k].text + s)
  {
    var p, t := PUNCT[j].text, PUNCT[k].text;
    var u := t + s;
    assert u[0] == t[0];
    if |t| == 2 { assert u[1] == t[1]; } else if s != "" { assert u[1] == s[0]; }
  }

  /** A printed token reads back as itself, at its own length, whatever follows it clear of it. */
  lemma ScanPrinted(t: Lexeme, s: string)
    requires Lexable(t) && t.kind != PRAGMA && Clear(t, s)
    ensures TokenText(t) != "" && Scan(TokenText(t) + s) == Tok(t, |TokenText(t)|)
  {
    hide Scan, NumberLength, EscapeAll;
    match t.kind {
      case STRING => ScanQuoted(t.text, s);
      case NUMBER => ScanNumber(t.text, s);
      case KEYWORD => KeywordIsName(t.text); ScanName(t.text, s);
      case IDENT => ScanName(t.text, s);
      case CODE => ScanCode(t.text, s);
      case _ => ScanPunctuation(t, s);
    }
  }

  lemma KeywordIsName(text: string)
    requires IsKeyword(text)
    ensures IsName(text)
  {
  }

  /** A version pragma reads back where no version character follows it. */
  lemma ScanPragmaPrinted(v: string, s: string)
    requires v != "" && All(IsVersionChar, v) && (s == "" || !IsVersionChar(s[0]))
    ensures Scan("%igl " + v + s) == Tok(Lexeme(PRAGMA, v), |"%igl " + v|)
  {
    var u := "%igl " + v + s;
    assert "%igl" <= u && u[0] == '%';
    var rest := v + s;
    assert u[4..] == " " + rest;
    assert rest[0] == v[0] && !IsBlank(rest[0]);
    assert (" " + rest)[1..] == rest;
    assert Run(IsBlank, rest) == 0;
    assert Run(IsBlank, " " + rest) == 1;
    assert u[5..] == rest;
    RunJoin(IsVersionChar, v, s);
    RunAll(IsVersionChar, v);
    assert u[5..5 + |v|] == v;
  }

  lemma ScanToken(t: Lexeme, s: string)
    requires Lexable(t) && Clear(t, s)
    ensures TokenText(t) != "" && Scan(TokenText(t) + s) == Tok(t, |TokenText(t)|)
  {
    hide Scan;
    if t.kind == PRAGMA { ScanPragmaPrinted(t.text, s); } else { ScanPrinted(t, s); }
  }

  /* ---------- the whole text ---------- */

  ghost predicate LexesTo(r: LexResult, ts: seq<Lexeme>) {
    r.Tokens? && Strip(r.toks) == ts
  }

  lemma LexPrefix(u: string, t: Lexeme, n: nat, ts: seq<Lexeme>, line: nat, col: nat)
    requires u != "" && 1 <= n <= |u| && Scan(u) == Tok(t, n)
    requires LexesTo(LexFrom(u[n..], line, col + n), ts)
    ensures LexesTo(LexFrom(u, line, col), [t] + ts)
  {
    hide Scan;
  }

  /** Any list of lexable tokens, printed with a space after each, lexes back to itself. */
  lemma {:induction false} LexPrinted(ts: seq<Lexeme>, line: nat, col: nat)
    requires forall t :: t in ts ==> Lexable(t)
    ensures LexesTo(LexFrom(PrintTokens(ts), line, col), ts + [Lexeme(EOF, "")])
    decreases |ts|
  {
    hide Scan, Lexable, TokenText;
    if ts == [] {
      assert ts + [Lexeme(EOF, "")] == [Lexeme(EOF, "")];
    } else {
      var t, rest := ts[0], PrintTokens(ts[1..]);
      var u := TokenText(t) + " " + rest;
      var n := |TokenText(t)|;
      assert TokenText(t) + (" " + rest) == u;
      ScanToken(t, " " + rest);
      LexPrinted(ts[1..], line, col + n + 1);
      assert u[n..] == " " + rest && u != "";
      LexSpace(rest, line, col + n);
      LexPrefix(u, t, n, ts[1..] + [Lexeme(EOF, "")], line, col);
      assert [t] + (ts[1..] + [Lexeme(EOF, "")]) == ts + [Lexeme(EOF, "")];
    }
  }

  lemma LexSpace(s: string, line: nat, col: nat)
    ensures LexFrom(" " + s, line, col) == LexFrom(s, line, col + 1)
  {
    assert (" " + s)[1..] == s && (" " + s)[0] == ' ';
  }
}
