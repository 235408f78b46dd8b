/** The IGL lexer (src/lexer.js): one pass over the source text, longest match first.

    `Scan` says what the first token of a text is and how long it is; the method `Lex` walks the text
    and is proved to return exactly what repeated scanning returns, with the line and column of each
    token, or the error and where it stands. Numbers are tried before words and taken only when no code
    character follows, so `2026-Q3` is one code and `1.5` one number. A string literal ends at its own
    closing quote and is read as a JSON string. A NUMBER token keeps its lexeme. */
module Lexer {
  import opened JsonStrings

  datatype Kind =
    | PRAGMA | STRING | NUMBER | KEYWORD | IDENT | CODE
    | COLONCOLON | ARROW_INTENT | ARROW_OUT | LBRACK | RBRACK | LPAREN | RPAREN
    | COMMA | SEMI | PIPE | COLON | EQ | DOT | AT | EOF

  /** What a token says, without where it stands. */
  datatype Lexeme = Lexeme(kind: Kind, text: string)

  datatype Token = Token(lexeme: Lexeme, line: nat, col: nat)

  datatype ErrorCode =
    | UNTERMINATED_STRING | NEWLINE_IN_STRING | BAD_ESCAPE | BAD_STRING | UNPAIRED_SURROGATE
    | BAD_TOKEN | UNEXPECTED_CHAR

  datatype LexResult = Tokens(toks: seq<Token>) | LexError(code: ErrorCode, line: nat, col: nat)

  /* ---------- character classes ---------- */

  predicate IsDigit(c: char) { '0' <= c <= '9' }

  predicate IsIdentStart(c: char) { 'A' <= c <= 'Z' || 'a' <= c <= 'z' || c == '_' }

  predicate IsIdentPart(c: char) { IsIdentStart(c) || IsDigit(c) }

  predicate IsCodePart(c: char) { IsIdentPart(c) || c == '-' }

  predicate IsBlank(c: char) { c == ' ' || c == '\t' }

  predicate IsVersionChar(c: char) { IsDigit(c) || c == '.' }

  predicate IsNotNewline(c: char) { c != '\n' }

  /** The length of the longest prefix of characters in a class. */
  function Run(p: char -> bool, s: string): (n: nat)
    ensures n <= |s|
    decreases |s|
  {
    if s == "" || !p(s[0]) then 0 else 1 + Run(p, s[1..])
  }

  predicate All(p: char -> bool, s: string) {
    forall i :: 0 <= i < |s| ==> p(s[i])
  }

  predicate IsKeyword(text: string) {
    text == "ID" || text == "Intent" || text == "Compute" || text == "Output" || text == "OnFail" || text == "Context"
  }

  /* ---------- numbers: -?(0|[1-9][0-9]*)(\.[0-9]+)?([eE][+-]?[0-9]+)? ---------- */

  function IntegerLength(s: string): (n: nat)
    ensures n <= |s|
  {
    var sign := if s != "" && s[0] == '-' then 1 else 0;
    if |s| == sign || !IsDigit(s[sign]) then 0
    else if s[sign] == '0' then sign + 1
    else sign + Run(IsDigit, s[sign..])
  }

  function FractionLength(s: string): (n: nat)
    ensures n <= |s|
  {
    if s != "" && s[0] == '.' && Run(IsDigit, s[1..]) > 0 then 1 + Run(IsDigit, s[1..]) else 0
  }

  function ExponentLength(s: string): (n: nat)
    ensures n <= |s|
  {
    if s == "" || (s[0] != 'e' && s[0] != 'E') then 0
    else
      var k := if |s| > 1 && (s[1] == '+' || s[1] == '-') then 2 else 1;
      if Run(IsDigit, s[k..]) > 0 then k + Run(IsDigit, s[k..]) else 0
  }

  /** The length of the number a text starts with, 0 if it starts with none. */
  function NumberLength(s: string): (n: nat)
    ensures n <= |s|
  {
    var i := IntegerLength(s);
    if i == 0 then 0
    else
      var f := FractionLength(s[i..]);
      i + f + ExponentLength(s[i + f..])
  }

  /* ---------- string literals ---------- */

  datatype RawScan = Closed(length: nat) | Unterminated | NewlineAt(offset: nat) | Dangling(offset: nat)

  /** Finds the closing quote from offset k on; a backslash hides the character after it. */
  function RawString(s: string, k: nat): (r: RawScan)
    requires k <= |s|
    ensures r.Closed? ==> k < r.length <= |s|
    decreases |s| - k
  {
    if k == |s| then Unterminated
    else if s[k] == '\n' then NewlineAt(k)
    else if s[k] == '\\' then (if k + 1 == |s| then Dangling(k + 1) else RawString(s, k + 2))
    else if s[k] == '\"' then Closed(k + 1)
    else RawString(s, k + 1)
  }

  /* ---------- one token ---------- */

  datatype ScanResult =
    | Newline
    | Blank
    | Comment(length: nat)
    | Tok(lexeme: Lexeme, length: nat)
    | Fail(code: ErrorCode, offset: nat)

  function ScanString(s: string): (r: ScanResult)
    requires s != ""
    ensures r.Tok? ==> 1 <= r.length <= |s|
  {
    match RawString(s, 1)
    case Unterminated => Fail(UNTERMINATED_STRING, 0)
    case NewlineAt(k) => Fail(NEWLINE_IN_STRING, k)
    case Dangling(k) => Fail(BAD_ESCAPE, k)
    case Closed(n) =>
      match ParseLiteral(s[..n])
      case Text(value, _) => Tok(Lexeme(STRING, value), n)
      case BadText => Fail(BAD_STRING, 0)
      case Unpaired => Fail(UNPAIRED_SURROGATE, 0)
  }

  function ScanPragma(s: string): (r: ScanResult)
    requires |s| >= 4
    ensures r.Tok? && 1 <= r.length <= |s|
  {
    var gap := 4 + Run(IsBlank, s[4..]);
    var n := gap + Run(IsVersionChar, s[gap..]);
    Tok(Lexeme(PRAGMA, s[gap..n]), n)
  }

  /** Whether the text starts with a number that no code character continues: `2026-Q3` does not. */
  predicate StartsNumber(s: string) {
    && s != "" && (IsDigit(s[0]) || (s[0] == '-' && |s| > 1 && IsDigit(s[1])))
    && NumberLength(s) > 0
    && (NumberLength(s) == |s| || !IsCodePart(s[NumberLength(s)]))
  }

  function WordKind(text: string): Kind
    requires text != ""
  {
    if IsIdentStart(text[0]) && All(IsIdentPart, text) then (if IsKeyword(text) then KEYWORD else IDENT) else CODE
  }

  function ScanWord(s: string): (r: ScanResult)
    requires s != "" && IsIdentPart(s[0])
    ensures r.Tok? ==> 1 <= r.length <= |s|
  {
    var text := s[..Run(IsCodePart, s)];
    if WordKind(text) == CODE && text[|text| - 1] == '-' then Fail(BAD_TOKEN, 0)
    else Tok(Lexeme(WordKind(text), text), |text|)
  }

  /** Punctuation in the order it is tried. */
  const PUNCT: seq<Lexeme> := [
    Lexeme(COLONCOLON, "::"), Lexeme(ARROW_INTENT, "=>"), Lexeme(ARROW_INTENT, "\U{21D2}"),
    Lexeme(ARROW_OUT, "->"), Lexeme(ARROW_OUT, "\U{2192}"),
    Lexeme(LBRACK, "["), Lexeme(RBRACK, "]"), Lexeme(LPAREN, "("), Lexeme(RPAREN, ")"),
    Lexeme(COMMA, ","), Lexeme(SEMI, ";"), Lexeme(PIPE, "|"), Lexeme(COLON, ":"),
    Lexeme(EQ, "="), Lexeme(DOT, "."), Lexeme(AT, "@")]

  function ScanPunct(s: string, k: nat): (r: ScanResult)
    requires k <= |PUNCT|
    ensures r.Tok? || r.Fail?
    ensures r.Tok? ==> 1 <= r.length <= |s|
    decreases |PUNCT| - k
  {
    if k == |PUNCT| then Fail(UNEXPECTED_CHAR, 0)
    else if PUNCT[k].text <= s then Tok(PUNCT[k], |PUNCT[k].text|)
    else ScanPunct(s, k + 1)
  }

  function Scan(s: string): (r: ScanResult)
    requires s != ""
    ensures r.Tok? || r.Comment? ==> 1 <= r.length <= |s|
  {
    var c := s[0];
    if c == '\n' then Newline
    else if c == ' ' || c == '\t' || c == '\r' then Blank
    else if c == '#' then Comment(Run(IsNotNewline, s))
    else if "%igl" <= s then ScanPragma(s)
    else if c == '\"' then ScanString(s)
    else if StartsNumber(s) then Tok(Lexeme(NUMBER, s[..NumberLength(s)]), NumberLength(s))
    else if IsIdentPart(c) then ScanWord(s)
    else ScanPunct(s, 0)
  }

  /* ---------- the whole text ---------- */

  function LexFrom(s: string, line: nat, col: nat): LexResult
    decreases |s|
  {
    if s == "" then Tokens([Token(Lexeme(EOF, ""), line, col)])
    else
      match Scan(s)
      case Newline => LexFrom(s[1..], line + 1, 1)
      case Blank => LexFrom(s[1..], line, col + 1)
      case Comment(n) => LexFrom(s[n..], line, col)
      case Tok(lexeme, n) => Prepend([Token(lexeme, line, col)], LexFrom(s[n..], line, col + n))
      case Fail(code, offset) => LexError(code, line, col + offset)
  }

  function Prepend(toks: seq<Token>, r: LexResult): LexResult {
    match r
    case Tokens(more) => Tokens(toks + more)
    case LexError(_, _, _) => r
  }

  /** The tokens without their positions. */
  function Strip(toks: seq<Token>): (ts: seq<Lexeme>)
    ensures |ts| == |toks| && forall i :: 0 <= i < |toks| ==> ts[i] == toks[i].lexeme
  {
    if toks == [] then [] else [toks[0].lexeme] + Strip(toks[1..])
  }

  /* ---------- the lexer ---------- */

  method SkipWhile(src: string, start: nat, p: char -> bool) returns (i: nat)
    requires start <= |src|
    ensures i == start + Run(p, src[start..]) <= |src|
  {
    i := start;
    while i < |src| && p(src[i])
      invariant start <= i <= |src|
      invariant i + Run(p, src[i..]) == start + Run(p, src[start..])
    {
      assert src[i..][1..] == src[i + 1..];
      i := i + 1;
    }
  }

  /** The string loop: collects up to the closing quote. */
  method ReadRaw(src: string, start: nat) returns (r: RawScan)
    requires start < |src| && src[start] == '\"'
    ensures r == RawString(src[start..], 1)
  {
    ghost var s := src[start..];
    var i := start + 1;
    while true
      invariant start < i <= |src|
      invariant RawString(s, i - start) == RawString(s, 1)
      decreases |src| - i
    {
      if i == |src| { return Unterminated; }
      var ch := src[i];
      assert s[i - start] == ch;
      if ch == '\n' { return NewlineAt(i - start); }
      i := i + 1;
      if ch == '\\' {
        if i == |src| { return Dangling(i - start); }
        i := i + 1;
      } else if ch == '\"' {
        return Closed(i - start);
      }
    }
  }

  method MatchPunct(src: string, i: nat) returns (r: ScanResult)
    requires i < |src|
    ensures r == ScanPunct(src[i..], 0)
  {
    var k := 0;
    while k < |PUNCT|
      invariant 0 <= k <= |PUNCT|
      invariant ScanPunct(src[i..], 0) == ScanPunct(src[i..], k)
    {
      if PUNCT[k].text <= src[i..] { return Tok(PUNCT[k], |PUNCT[k].text|); }
      k := k + 1;
    }
    return Fail(UNEXPECTED_CHAR, 0);
  }

  method ReadPragma(src: string, i: nat) returns (r: ScanResult)
    requires i + 4 <= |src|
    ensures r == ScanPragma(src[i..])
  {
    ghost var s := src[i..];
    assert s[4..] == src[i + 4..];
    var gap := SkipWhile(src, i + 4, IsBlank);
    assert s[gap - i..] == src[gap..];
    var j := SkipWhile(src, gap, IsVersionChar);
    assert s[gap - i..j - i] == src[gap..j];
    return Tok(Lexeme(PRAGMA, src[gap..j]), j - i);
  }

  method ReadStringToken(src: string, i: nat) returns (r: ScanResult)
    requires i < |src| && src[i] == '\"'
    ensures r == ScanString(src[i..])
  {
    var raw := ReadRaw(src, i);
    match raw {
      case Unterminated => return Fail(UNTERMINATED_STRING, 0);
      case NewlineAt(k) => return Fail(NEWLINE_IN_STRING, k);
      case Dangling(k) => return Fail(BAD_ESCAPE, k);
      case Closed(n) =>
        assert src[i..][..n] == src[i..i + n];
        match ParseLiteral(src[i..i + n]) {
          case Text(value, _) => return Tok(Lexeme(STRING, value), n);
          case BadText => return Fail(BAD_STRING, 0);
          case Unpaired => return Fail(UNPAIRED_SURROGATE, 0);
        }
    }
  }

  method ReadWord(src: string, i: nat) returns (r: ScanResult)
    requires i < |src| && IsIdentPart(src[i])
    ensures r == ScanWord(src[i..])
  {
    var j := SkipWhile(src, i, IsCodePart);
    var text := src[i..j];
    assert text == src[i..][..Run(IsCodePart, src[i..])];
    if IsIdentStart(text[0]) && All(IsIdentPart, text) {
      return Tok(Lexeme(if IsKeyword(text) then KEYWORD else IDENT, text), |text|);
    }
    if text[|text| - 1] != '-' { return Tok(Lexeme(CODE, text), |text|); }
    return Fail(BAD_TOKEN, 0);
  }

  /** The token, blank or comment at position i. */
  method ScanAt(src: string, i: nat) returns (r: ScanResult)
    requires i < |src|
    ensures r == Scan(src[i..])
  {
    hide ScanPragma, ScanString, ScanWord, ScanPunct, NumberLength, Run;
    var c := src[i];
    if c == '\n' { return Newline; }
    if c == ' ' || c == '\t' || c == '\r' { return Blank; }
    if c == '#' {
      var j := SkipWhile(src, i, IsNotNewline);
      return Comment(j - i);
    }
    if c == '%' && "%igl" <= src[i..] {
      r := ReadPragma(src, i);
      return;
    }
    assert !("%igl" <= src[i..]);
    if c == '\"' {
      r := ReadStringToken(src, i);
      return;
    }
    if IsDigit(c) || (c == '-' && i + 1 < |src| && IsDigit(src[i + 1])) {
      var n := NumberLength(src[i..]);
      if n > 0 && (i + n == |src| || !IsCodePart(src[i + n])) {
        assert src[i..][..n] == src[i..i + n];
        return Tok(Lexeme(NUMBER, src[i..i + n]), n);
      }
    }
    if IsDigit(c) || IsIdentStart(c) {
      r := ReadWord(src, i);
      return;
    }
    r := MatchPunct(src, i);
  }

  method Lex(src: string) returns (r: LexResult)
    ensures r == LexFrom(src, 1, 1)
  {
    hide Scan, LexFrom, Prepend;
    var toks: seq<Token> := [];
    var i, line, col := 0, 1, 1;
    ghost var total := LexFrom(src, 1, 1);
    PrependNothing(src);
    while i < |src|
      invariant 0 <= i <= |src|
      invariant total == Prepend(toks, LexFrom(src[i..], line, col))
      decreases |src| - i
    {
      LexStep(src[i..], line, col, toks);
      var step := ScanAt(src, i);
      match step {
        case Newline => LexTail(src, i, 1); i, line, col := i + 1, line + 1, 1;
        case Blank => LexTail(src, i, 1); i, col := i + 1, col + 1;
        case Comment(n) => LexTail(src, i, n); i := i + n;
        case Tok(lexeme, n) =>
          LexTail(src, i, n);
          toks := toks + [Token(lexeme, line, col)];
          i, col := i + n, col + n;
        case Fail(code, offset) => return LexError(code, line, col + offset);
      }
    }
    assert src[i..] == "";
    LexEnd(line, col, toks);
    toks := toks + [Token(Lexeme(EOF, ""), line, col)];
    return Tokens(toks);
  }

  lemma LexTail(src: string, i: nat, n: nat)
    requires i + n <= |src|
    ensures src[i..][n..] == src[i + n..]
  {
  }

  lemma PrependNothing(src: string)
    ensures LexFrom(src, 1, 1) == Prepend([], LexFrom(src[0..], 1, 1))
  {
    assert src[0..] == src;
    assert forall x: seq<Token> :: [] + x == x;
  }

  lemma LexEnd(line: nat, col: nat, toks: seq<Token>)
    ensures Prepend(toks, LexFrom("", line, col)) == Tokens(toks + [Token(Lexeme(EOF, ""), line, col)])
  {
  }

  /** What is left to lex after one scan, with the tokens so far. */
  function Continue(step: ScanResult, s: string, line: nat, col: nat, toks: seq<Token>): LexResult
    requires s != "" && (step.Comment? || step.Tok? ==> step.length <= |s|)
  {
    match step
    case Newline => Prepend(toks, LexFrom(s[1..], line + 1, 1))
    case Blank => Prepend(toks, LexFrom(s[1..], line, col + 1))
    case Comment(n) => Prepend(toks, LexFrom(s[n..], line, col))
    case Tok(lexeme, n) => Prepend(toks + [Token(lexeme, line, col)], LexFrom(s[n..], line, col + n))
    case Fail(code, offset) => LexError(code, line, col + offset)
  }

  lemma LexStep(s: string, line: nat, col: nat, toks: seq<Token>)
    requires s != ""
    ensures Prepend(toks, LexFrom(s, line, col)) == Continue(Scan(s), s, line, col, toks)
  {
    hide Scan;
    var step := Scan(s);
    if step.Tok? {
      PrependTwice(toks, [Token(step.lexeme, line, col)], LexFrom(s[step.length..], line, col + step.length));
    }
  }

  lemma PrependTwice(a: seq<Token>, b: seq<Token>, r: LexResult)
    ensures Prepend(a, Prepend(b, r)) == Prepend(a + b, r)
  {
    if r.Tokens? { assert a + (b + r.toks) == (a + b) + r.toks; }
  }
}
