/** Source layout: what the lexer makes of tokens with anything it skips between them (src/lexer.js:48-53). */
module Layout {
  /* A source text is a list of pieces, each some white space and comments and then one token as it may be
     written, and at the end more white space and perhaps a comment that the text ends in. The theorem gives
     every token, and its line and column counted in the text before it. */

  import opened JsonStrings
  import opened Lexer
  import opened LexerProofs
  import opened NumberGrammar
  import opened StringGrammar

  /* ---------- positions ---------- */

  /** The newlines in a text. */
  function Lines(s: string): nat {
    if s == "" then 0 else Lines(s[..|s| - 1]) + (if s[|s| - 1] == '\n' then 1 else 0)
  }

  /** The characters since the last newline, or since the start. */
  function Since(s: string): nat {
    if s == "" || s[|s| - 1] == '\n' then 0 else Since(s[..|s| - 1]) + 1
  }

  lemma Snoc(s: string, c: char)
    ensures Lines(s + [c]) == Lines(s) + (if c == '\n' then 1 else 0)
    ensures Since(s + [c]) == if c == '\n' then 0 else Since(s) + 1
  {
    assert (s + [c])[..|s|] == s;
  }

  lemma {:induction false} OneLine(s: string, t: string)
    requires '\n' !in t
    ensures Lines(s + t) == Lines(s) && Since(s + t) == Since(s) + |t|
    decreases |t|
  {
    if t == "" {
      assert s + t == s;
    } else {
      OneLine(s, t[..|t| - 1]);
      Snoc(s + t[..|t| - 1], t[|t| - 1]);
      assert s + t == s + t[..|t| - 1] + [t[|t| - 1]];
    }
  }

  /* ---------- gaps ---------- */

  predicate IsWhite(c: char) {
    c == ' ' || c == '\t' || c == '\r' || c == '\n'
  }

  /** A comment and the newline that closes it. */
  predicate ClosedComment(x: string) {
    |x| >= 2 && x[0] == '#' && x[|x| - 1] == '\n' && '\n' !in x[..|x| - 1]
  }

  /** White space and closed comments, in any order and number. */
  ghost predicate IsGap(g: string)
    decreases |g|
  {
    g == "" || (IsWhite(g[0]) && IsGap(g[1..])) || exists n :: 0 < n <= |g| && ClosedComment(g[..n]) && IsGap(g[n..])
  }

  /** Nothing, or a comment that the text ends in. */
  predicate OpenComment(x: string) {
    x == "" || (x[0] == '#' && '\n' !in x)
  }

  /* ---------- tokens as they may be written ---------- */

  /** A literal in any spelling JSON has for it. */
  ghost predicate Literal(text: string, v: string) {
    |text| >= 2 && text[0] == '\"' && text[|text| - 1] == '\"' && Spells(text[1..|text| - 1], v)
  }

  /** The pragma, any blanks, and the version, which may be missing. */
  ghost predicate Pragma(text: string, version: string) {
    "%igl" <= text && exists k :: 4 <= k <= |text| && VersionAt(text, version, k)
  }

  ghost predicate VersionAt(text: string, version: string, k: int)
    requires 4 <= k <= |text|
  {
    All(IsBlank, text[4..k]) && All(IsVersionChar, version) && text[k..] == version
  }

  ghost predicate Written(t: Lexeme, text: string) {
    match t.kind
    case STRING => Literal(text, t.text)
    case PRAGMA => Pragma(text, t.text)
    case NUMBER => text == t.text && Numeral(text)
    case KEYWORD => text == t.text && IsKeyword(text)
    case IDENT => text == t.text && IsIdent(text)
    case CODE => text == t.text && IsCode(text)
    case EOF => false
    case _ => text == t.text && IsPunct(t)
  }

  /** A pragma without a version also takes the blanks after it. */
  ghost predicate ClearOf(t: Lexeme, rest: string) {
    Clear(t, rest) && (t == Lexeme(PRAGMA, "") && rest != "" ==> !IsBlank(rest[0]))
  }

  /* ---------- texts ---------- */

  datatype Piece = Piece(gap: string, token: Lexeme, text: string)

  function TextOf(ps: seq<Piece>, tail: string): string {
    if ps == [] then tail else ps[0].gap + (ps[0].text + TextOf(ps[1..], tail))
  }

  /** Every piece is a gap and a token that what follows leaves alone. */
  ghost predicate WellLaid(ps: seq<Piece>, tail: string)
    decreases |ps|
  {
    ps == [] ||
    (IsGap(ps[0].gap) && Written(ps[0].token, ps[0].text) && ClearOf(ps[0].token, TextOf(ps[1..], tail))
     && WellLaid(ps[1..], tail))
  }

  /** A token after some text: its line is one more than the newlines before it, and its column one more than
      the characters since the last. */
  function At(t: Lexeme, before: string): Token {
    Token(t, Lines(before) + 1, Since(before) + 1)
  }

  /** The tokens of a text, with EOF after its last gap. */
  function Placed(before: string, ps: seq<Piece>, end: string): seq<Token>
    decreases |ps|
  {
    if ps == [] then [At(Lexeme(EOF, ""), before + end)]
    else
      var here := before + ps[0].gap;
      [At(ps[0].token, here)] + Placed(here + ps[0].text, ps[1..], end)
  }

  /* ---------- gaps are skipped ---------- */

  function LexAfter(s: string, before: string): LexResult {
    LexFrom(s, Lines(before) + 1, Since(before) + 1)
  }

  lemma {:induction false} GapSkipped(g: string, s: string, before: string)
    requires IsGap(g)
    ensures LexAfter(g + s, before) == LexAfter(s, before + g)
    decreases |g|
  {
    hide LexFrom, Scan;
    if g == "" {
      assert g + s == s && before + g == before;
    } else if IsWhite(g[0]) && IsGap(g[1..]) {
      hide IsGap, Lines, Since, ClosedComment;
      Cut(g, 1, s, before);
      assert g[..1] == [g[0]];
      WhiteSkipped(g[0], g[1..] + s, before);
      GapSkipped(g[1..], s, before + g[..1]);
    } else {
      var n :| 0 < n <= |g| && ClosedComment(g[..n]) && IsGap(g[n..]);
      hide IsGap, Lines, Since, ClosedComment;
      Cut(g, n, s, before);
      CommentSkipped(g[..n], g[n..] + s, before);
      GapSkipped(g[n..], s, before + g[..n]);
    }
  }

  lemma Cut(g: string, n: int, s: string, before: string)
    requires 0 <= n <= |g|
    ensures g + s == g[..n] + (g[n..] + s) && before + g[..n] + g[n..] == before + g
  {
  }

  lemma WhiteSkipped(c: char, s: string, before: string)
    requires IsWhite(c)
    ensures LexAfter([c] + s, before) == LexAfter(s, before + [c])
  {
    Snoc(before, c);
    assert ([c] + s)[1..] == s && ([c] + s)[0] == c;
  }

  lemma {:induction false} RunToNewline(x: string, s: string)
    requires '\n' !in x && (s == "" || s[0] == '\n')
    ensures Run(IsNotNewline, x + s) == |x|
  {
    RunJoin(IsNotNewline, x, s);
    RunAll(IsNotNewline, x);
  }

  lemma CommentSkipped(x: string, s: string, before: string)
    requires ClosedComment(x)
    ensures LexAfter(x + s, before) == LexAfter(s, before + x)
  {
    hide Lines, Since, LexFrom, Run;
    var c, u := x[..|x| - 1], x + s;
    RunToNewline(c, "\n" + s);
    assert u == c + ("\n" + s) && u[0] == '#' && u[|c|] == '\n' && u[|c| + 1..] == s;
    ScanComment(u);
    OneLine(before, c);
    Snoc(before + c, '\n');
    assert before + x == before + c + ['\n'];
    CommentThenNewline(u, |c|, Lines(before) + 1, Since(before) + 1);
  }

  lemma ScanComment(u: string)
    requires u != "" && u[0] == '#'
    ensures Scan(u) == Comment(Run(IsNotNewline, u))
  {
  }

  lemma CommentThenNewline(u: string, n: nat, line: nat, col: nat)
    requires u != "" && n < |u| && Scan(u) == Comment(n) && u[n] == '\n'
    ensures LexFrom(u, line, col) == LexFrom(u[n + 1..], line + 1, 1)
  {
    assert u[n..][1..] == u[n + 1..] && Scan(u[n..]) == Newline;
    hide Scan;
  }

  /* ---------- every spelling scans ---------- */

  lemma {:induction false} RawOfSpelled(head: string, mid: string, v: string, s: string)
    requires Spells(mid, v)
    ensures RawString(head + mid + "\"" + s, |head|) == Closed(|head + mid| + 1)
    decreases |v|
  {
    hide RawString, Stands;
    var u := head + mid + "\"" + s;
    if v == "" {
      assert u == head + "\"" + s;
      RawEnds(head, s);
    } else {
      var k: nat :| SpellsFrom(mid, v, k);
      var e, rest := mid[..k], mid[k..];
      assert mid == e + rest && head + mid == (head + e) + rest;
      RawOfSpelled(head + e, rest, v[1..], s);
      assert u == head + e + (rest + "\"" + s);
      RawOfStand(head, e, v[0], rest + "\"" + s);
    }
  }

  lemma RawEnds(head: string, s: string)
    ensures RawString(head + "\"" + s, |head|) == Closed(|head| + 1)
  {
    assert (head + "\"" + s)[|head|] == '\"';
  }

  lemma RawOfStand(head: string, e: string, c: char, tail: string)
    requires Stands(e, c)
    ensures RawString(head + e + tail, |head|) == RawString(head + e + tail, |head + e|)
  {
    var u := head + e + tail;
    assert forall i :: 0 <= i < |e| ==> u[|head| + i] == e[i];
    hide Stands, RawString;
    if |e| == 1 {
      PlainStand(e, c);
      RawPlain(u, |head|, 1);
    } else {
      LongStand(e, c);
      RawHidden(u, |head|);
      RawPlain(u, |head| + 2, if |e| == 2 then 0 else 4);
      if |e| == 12 {
        RawHidden(u, |head| + 6);
        RawPlain(u, |head| + 8, 4);
      }
    }
  }

  /** A character that neither ends a literal nor hides the next. */
  predicate PlainChar(c: char) {
    c != '\"' && c != '\\' && c as int >= 32
  }

  lemma PlainStand(e: string, c: char)
    requires Stands(e, c) && |e| == 1
    ensures PlainChar(e[0])
  {
  }

  lemma LongStand(e: string, c: char)
    requires Stands(e, c) && |e| != 1
    ensures |e| == 2 || |e| == 6 || |e| == 12
    ensures e[0] == '\\' && e[1] as int >= 32 && forall i :: 2 <= i < |e| && i != 6 && i != 7 ==> PlainChar(e[i])
    ensures |e| == 12 ==> e[6] == '\\' && e[7] == 'u'
  {
    if |e| >= 6 { UnitPlain(e[2..6]); }
    if |e| == 6 { assert e[2..] == e[2..6]; }
    if |e| == 12 { UnitPlain(e[8..]); }
    hide NamesUnit;
    if |e| >= 6 { assert forall i :: 2 <= i < 6 ==> e[i] == e[2..6][i - 2]; }
    if |e| == 12 { assert forall i :: 8 <= i < 12 ==> e[i] == e[8..][i - 8]; }
  }

  lemma UnitPlain(u: string)
    ensures (exists n :: NamesUnit(u, n)) ==> |u| == 4 && forall i :: 0 <= i < 4 ==> PlainChar(u[i])
  {
  }

  lemma RawHidden(u: string, k: nat)
    requires k + 2 <= |u| && u[k] == '\\'
    ensures RawString(u, k) == RawString(u, k + 2)
  {
  }

  lemma {:induction false} RawPlain(u: string, k: nat, n: nat)
    requires k + n <= |u| && forall i :: k <= i < k + n ==> PlainChar(u[i])
    ensures RawString(u, k) == RawString(u, k + n)
    decreases n
  {
    if n > 0 { RawPlain(u, k + 1, n - 1); }
  }

  lemma ScanLiteral(text: string, v: string, s: string)
    requires Literal(text, v)
    ensures Scan(text + s) == Tok(Lexeme(STRING, v), |text|)
  {
    hide Spells, RawString, ReadString, NumberLength;
    var u, mid := text + s, text[1..|text| - 1];
    assert u == "\"" + mid + "\"" + s && u[0] == '\"';
    RawOfSpelled("\"", mid, v, s);
    assert u[..|text|] == text && text[1..][..|mid|] == mid && text[1..][|mid| + 1..] == "";
    assert EndsAt(text[1..], v, "", |mid|);
    ReadStringExact(text[1..], v, "");
    assert !("%igl" <= u);
  }

  lemma PragmaSlices(text: string, version: string, s: string, k: int)
    requires "%igl" <= text && 4 <= k <= |text| && text[k..] == version
    ensures var u := text + s;
            && "%igl" <= u && u[0] == '%' && u[4..] == text[4..k] + (version + s) && u[k..] == version + s
            && u[k..|text|] == version
  {
  }

  lemma BlanksRun(blanks: string, rest: string)
    requires All(IsBlank, blanks) && (rest == "" || !IsBlank(rest[0]))
    ensures Run(IsBlank, blanks + rest) == |blanks|
  {
    RunJoin(IsBlank, blanks, rest);
    RunAll(IsBlank, blanks);
  }

  lemma VersionRun(version: string, s: string)
    requires All(IsVersionChar, version) && (s == "" || !IsVersionChar(s[0]))
    ensures Run(IsVersionChar, version + s) == |version|
  {
    RunJoin(IsVersionChar, version, s);
    RunAll(IsVersionChar, version);
  }

  lemma PragmaScans(text: string, version: string, s: string)
    requires Pragma(text, version) && ClearOf(Lexeme(PRAGMA, version), s)
    ensures Scan(text + s) == Tok(Lexeme(PRAGMA, version), |text|)
  {
    var k :| 4 <= k <= |text| && VersionAt(text, version, k);
    hide Run, Scan;
    PragmaSlices(text, version, s, k);
    VersionRun(version, s);
    NoBlankFirst(version, s);
    BlanksRun(text[4..k], version + s);
    PragmaTaken(text + s, k, |text|);
  }

  lemma NoBlankFirst(version: string, s: string)
    requires All(IsVersionChar, version) && ClearOf(Lexeme(PRAGMA, version), s)
    ensures version + s == "" || !IsBlank((version + s)[0])
  {
    if version != "" {
      assert IsVersionChar(version[0]) && (version + s)[0] == version[0];
    } else {
      assert version + s == s;
    }
  }

  lemma PragmaTaken(u: string, k: int, n: int)
    requires 4 <= k <= n <= |u| && "%igl" <= u && u[0] == '%'
    requires Run(IsBlank, u[4..]) == k - 4 && Run(IsVersionChar, u[k..]) == n - k
    ensures Scan(u) == Tok(Lexeme(PRAGMA, u[k..n]), n)
  {
    hide Run;
  }

  lemma ScanWritten(t: Lexeme, text: string, s: string)
    requires Written(t, text) && ClearOf(t, s)
    ensures text != "" && Scan(text + s) == Tok(t, |text|)
  {
    hide Scan, Clear, NumberLength, IsCode, IsIdent, IsKeyword, IsPunct;
    match t.kind {
      case STRING => ScanLiteral(text, t.text, s);
      case PRAGMA => PragmaScans(text, t.text, s);
      case NUMBER => NumberIsNumeral(text); ScanToken(t, s);
      case _ => ScanToken(t, s);
    }
  }

  /* ---------- no token spans lines ---------- */

  lemma {:induction false} SpelledOnOneLine(text: string, v: string)
    requires Spells(text, v)
    ensures '\n' !in text
    decreases |v|
  {
    hide Stands;
    if v != "" {
      var k: nat :| SpellsFrom(text, v, k);
      StandOnOneLine(text[..k], v[0]);
      SpelledOnOneLine(text[k..], v[1..]);
      assert text == text[..k] + text[k..];
    }
  }

  lemma StandOnOneLine(e: string, c: char)
    requires Stands(e, c)
    ensures '\n' !in e
  {
    hide NamesUnit;
    if |e| == 1 {
      PlainStand(e, c);
    } else {
      LongStand(e, c);
      hide Stands;
      forall i | 0 <= i < |e| ensures e[i] != '\n' { }
    }
  }

  lemma WrittenOnOneLine(t: Lexeme, text: string)
    requires Written(t, text)
    ensures '\n' !in text
  {
    hide Literal, Pragma, Numeral, IsKeyword, IsIdent, IsCode, IsPunct;
    match t.kind {
      case STRING => LiteralOnOneLine(text, t.text);
      case PRAGMA => PragmaOnOneLine(text, t.text);
      case NUMBER => NumeralOnOneLine(text);
      case KEYWORD => KeywordIsName(text); WordOnOneLine(text);
      case IDENT => WordOnOneLine(text);
      case CODE => WordOnOneLine(text);
      case _ => PunctOnOneLine(t);
    }
  }

  lemma LiteralOnOneLine(text: string, v: string)
    requires Literal(text, v)
    ensures '\n' !in text
  {
    hide Spells;
    SpelledOnOneLine(text[1..|text| - 1], v);
    assert text == [text[0]] + text[1..|text| - 1] + [text[|text| - 1]];
  }

  lemma PragmaOnOneLine(text: string, version: string)
    requires Pragma(text, version)
    ensures '\n' !in text
  {
    var k :| 4 <= k <= |text| && VersionAt(text, version, k);
    assert text == "%igl" + text[4..k] + text[k..];
  }

  lemma WordOnOneLine(text: string)
    requires IsName(text) || IsIdent(text) || IsCode(text)
    ensures '\n' !in text
  {
    hide NumberLength, IsKeyword;
    assert All(IsCodePart, text);
  }

  lemma PunctOnOneLine(t: Lexeme)
    requires IsPunct(t)
    ensures '\n' !in t.text
  {
  }

  lemma NumeralOnOneLine(a: string)
    requires Numeral(a)
    ensures '\n' !in a
  {
    hide Signed, Fraction, Exponent;
    var i, f :| Splits(a, i, f);
    assert a == a[..i] + a[i..f] + a[f..];
    SignedOnOneLine(a[..i]);
    FractionOnOneLine(a[i..f]);
    ExponentOnOneLine(a[f..]);
  }

  lemma SignedOnOneLine(x: string)
    requires Signed(x)
    ensures '\n' !in x
  {
    if x[0] == '-' { assert x == ['-'] + x[1..]; }
  }

  lemma FractionOnOneLine(y: string)
    requires Fraction(y)
    ensures '\n' !in y
  {
    if y != "" { assert y == ['.'] + y[1..]; }
  }

  lemma ExponentOnOneLine(z: string)
    requires Exponent(z)
    ensures '\n' !in z
  {
    if z != "" {
      assert z == [z[0]] + z[1..];
      if |z| > 1 && (z[1] == '+' || z[1] == '-') { assert z[1..] == [z[1]] + z[2..]; }
    }
  }

  /* ---------- the whole text ---------- */

  lemma TokenTaken(t: Lexeme, text: string, s: string, before: string)
    requires Written(t, text) && ClearOf(t, s)
    ensures LexAfter(text + s, before) == Prepend([At(t, before)], LexAfter(s, before + text))
  {
    hide Written, ClearOf, Scan;
    ScanWritten(t, text, s);
    WrittenOnOneLine(t, text);
    OneLine(before, text);
    assert (text + s)[|text|..] == s;
  }

  lemma PieceTaken(before: string, p: Piece, rest: string)
    requires IsGap(p.gap) && Written(p.token, p.text) && ClearOf(p.token, rest)
    ensures LexAfter(p.gap + (p.text + rest), before)
         == Prepend([At(p.token, before + p.gap)], LexAfter(rest, before + p.gap + p.text))
  {
    hide LexFrom, Written, ClearOf, IsGap;
    GapSkipped(p.gap, p.text + rest, before);
    TokenTaken(p.token, p.text, rest, before + p.gap);
  }

  lemma EndTaken(end: string, comment: string, before: string)
    requires IsGap(end) && OpenComment(comment)
    ensures LexAfter(end + comment, before) == Tokens([At(Lexeme(EOF, ""), before + end)])
  {
    hide IsGap;
    GapSkipped(end, comment, before);
    hide LexFrom;
    CommentToEnd(comment, Lines(before + end) + 1, Since(before + end) + 1);
  }

  lemma CommentToEnd(comment: string, line: nat, col: nat)
    requires OpenComment(comment)
    ensures LexFrom(comment, line, col) == Tokens([Token(Lexeme(EOF, ""), line, col)])
  {
    assert LexFrom("", line, col) == Tokens([Token(Lexeme(EOF, ""), line, col)]);
    if comment != "" {
      RunToNewline(comment, "");
      assert comment + "" == comment && comment[|comment|..] == "";
      ScanComment(comment);
      hide Run, Scan;
      assert LexFrom(comment, line, col) == LexFrom(comment[|comment|..], line, col);
    }
  }

  /** The tokens of a well-laid text are those of its pieces, in order, each at its own line and column; EOF
      stands where the last gap ends, before any comment left open. */
  lemma {:induction false} LayoutLexes(before: string, ps: seq<Piece>, end: string, comment: string)
    requires WellLaid(ps, end + comment) && IsGap(end) && OpenComment(comment)
    ensures LexAfter(TextOf(ps, end + comment), before) == Tokens(Placed(before, ps, end))
    decreases |ps|
  {
    hide LexFrom, Written, ClearOf, IsGap, OpenComment;
    if ps == [] {
      EndTaken(end, comment, before);
    } else {
      PieceTaken(before, ps[0], TextOf(ps[1..], end + comment));
      LayoutLexes(before + ps[0].gap + ps[0].text, ps[1..], end, comment);
    }
  }
}
