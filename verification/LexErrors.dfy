/** Where a source text stops being one: the lexer's errors (src/lexer.js:66-137).

    What may stand after well-laid tokens and is no token, and the error it gives: which, and at which
    character. */
module LexErrors {
  import opened JsonStrings
  import opened Layout
  import opened Lexer
  import opened LexerOutput
  import opened LexerProofs
  import opened NumberGrammar
  import opened StringGrammar

  /** Characters that do not end a literal: neither a quote nor a newline, and a backslash only with the character
      it hides. */
  ghost predicate Inside(body: string)
    decreases |body|
  {
    body == "" || (body[0] != '\"' && body[0] != '\\' && body[0] != '\n' && Inside(body[1..]))
    || (|body| >= 2 && body[0] == '\\' && Inside(body[2..]))
  }

  /** A closed literal that spells no string. */
  ghost predicate Misspelled(text: string) {
    && |text| >= 2 && text[0] == '\"' && text[|text| - 1] == '\"'
    && var body := text[1..|text| - 1]; Inside(body) && forall v :: !Spells(body, v)
  }

  /** A word that ends in a hyphen where no code character follows. */
  ghost predicate OpenWord(rest: string, n: int) {
    && 0 < n <= |rest| && IsIdentPart(rest[0]) && All(IsCodePart, rest[..n]) && rest[n - 1] == '-'
    && (n == |rest| || !IsCodePart(rest[n]))
  }

  /** A character no token, gap or number starts with. */
  ghost predicate Stray(rest: string) {
    && rest != "" && !IsWhite(rest[0]) && rest[0] != '#' && rest[0] != '\"' && !IsIdentPart(rest[0])
    && !("%igl" <= rest) && (forall t :: IsPunct(t) ==> !(t.text <= rest))
    && (rest[0] == '-' ==> forall n :: 0 < n <= |rest| && Numeral(rest[..n]) ==> n < |rest| && IsCodePart(rest[n]))
  }

  /** The text does not go on with a token, and this is what is wrong with it and where. */
  ghost predicate Wrong(rest: string, code: ErrorCode, offset: nat) {
    match code
    case UNTERMINATED_STRING => offset == 0 && rest != "" && rest[0] == '\"' && Inside(rest[1..])
    case NEWLINE_IN_STRING =>
      1 <= offset < |rest| && rest[0] == '\"' && Inside(rest[1..offset]) && rest[offset] == '\n'
    case BAD_ESCAPE =>
      offset == |rest| >= 2 && rest[0] == '\"' && Inside(rest[1..offset - 1]) && rest[offset - 1] == '\\'
    case BAD_TOKEN => offset == 0 && exists n :: OpenWord(rest, n)
    case UNEXPECTED_CHAR => offset == 0 && Stray(rest)
    case _ => false
  }

  /* ---------- literals ---------- */

  /** Scanning a literal passes over what is inside it. */
  lemma {:induction false} PassesInside(head: string, body: string, s: string)
    requires Inside(body)
    ensures RawString(head + (body + s), |head|) == RawString(head + (body + s), |head + body|)
    decreases |body|
  {
    hide RawString;
    var u := head + (body + s);
    if body == "" {
      assert head + body == head;
    } else {
      var k := if body[0] == '\\' then 2 else 1;
      var next := head + body[..k];
      assert body == body[..k] + body[k..] && u == next + (body[k..] + s) && next + body[k..] == head + body;
      assert u[|head|] == body[0];
      PassesInside(next, body[k..], s);
      RawOne(u, |head|);
    }
  }

  lemma RawOne(u: string, k: nat)
    requires k < |u| && u[k] != '\"' && u[k] != '\n' && (u[k] == '\\' ==> k + 1 < |u|)
    ensures RawString(u, k) == RawString(u, if u[k] == '\\' then k + 2 else k + 1)
  {
  }

  lemma LiteralFails(rest: string, code: ErrorCode, offset: nat)
    requires Wrong(rest, code, offset)
    requires code == UNTERMINATED_STRING || code == NEWLINE_IN_STRING || code == BAD_ESCAPE
    ensures Scan(rest) == Fail(code, offset)
  {
    var end := if code == UNTERMINATED_STRING then |rest| else if code == NEWLINE_IN_STRING then offset else offset - 1;
    var body := rest[1..end];
    assert rest == "\"" + (body + rest[end..]) && |"\"" + body| == end;
    if code == UNTERMINATED_STRING { assert body == rest[1..]; }
    PassesInside("\"", body, rest[end..]);
    hide Inside;
    RawStops(rest, end);
    ScanOpening(rest);
  }

  /** Where a literal stops without closing. */
  lemma RawStops(u: string, k: nat)
    requires k <= |u|
    ensures k == |u| ==> RawString(u, k) == Unterminated
    ensures k < |u| && u[k] == '\n' ==> RawString(u, k) == NewlineAt(k)
    ensures k + 1 == |u| && u[k] == '\\' ==> RawString(u, k) == Dangling(k + 1)
  {
  }

  lemma ScanOpening(u: string)
    requires u != "" && u[0] == '\"'
    ensures Scan(u) == ScanString(u)
  {
    hide ScanString;
    assert !("%igl" <= u);
  }

  /** A misspelled literal is an error at its opening quote. */
  lemma MisspelledFails(text: string, s: string)
    requires Misspelled(text)
    ensures var r := Scan(text + s); r == Fail(BAD_STRING, 0) || r == Fail(UNPAIRED_SURROGATE, 0)
  {
    var u, n := text + s, |text|;
    var body := text[1..n - 1];
    assert u == "\"" + (body + ("\"" + s)) && |"\"" + body| == n - 1 && u[n - 1] == '\"';
    PassesInside("\"", body, "\"" + s);
    assert RawString(u, 1) == RawString(u, n - 1) == Closed(n);
    assert u[..n] == text && u[0] == '\"';
    NotLiteral(text);
    hide RawString, ParseLiteral, Inside;
    ScanOpening(u);
  }

  lemma NotLiteral(text: string)
    requires Misspelled(text)
    ensures !ParseLiteral(text).Text?
  {
    hide ReadString, Spells;
    var rest := text[1..];
    assert rest[..|rest| - 1] == text[1..|text| - 1];
    forall v: string ensures ReadString(rest) != Text(v, "") { ReadStringExact(rest, v, ""); }
  }

  /* ---------- words and characters ---------- */

  lemma OpenWordFails(rest: string, n: int)
    requires OpenWord(rest, n)
    ensures Scan(rest) == Fail(BAD_TOKEN, 0)
  {
    var word, s := rest[..n], rest[n..];
    assert rest == word + s;
    RunJoin(IsCodePart, word, s);
    RunAll(IsCodePart, word);
    NoNumberHere(rest, n);
    hide NumberLength, StartsNumber;
    assert word[|word| - 1] == '-';
    assert !All(IsIdentPart, word);
    assert !("%igl" <= rest) by { assert rest[0] != '%'; }
  }

  /** A number that starts such a word goes on with a code character. */
  lemma NoNumberHere(rest: string, n: int)
    requires OpenWord(rest, n)
    ensures !StartsNumber(rest)
  {
    var m := NumberLength(rest);
    LongestNumeral(rest);
    hide NumberLength, Numeral;
    assert forall k :: 0 <= k < n ==> rest[..n][k] == rest[k];
    if m >= n {
      assert forall k :: 0 <= k < m ==> rest[..m][k] == rest[k];
      HyphenGoesOn(rest[..m], n - 1);
    }
  }

  /** A hyphen inside a numeral has a digit after it. */
  lemma HyphenGoesOn(a: string, k: int)
    requires Numeral(a) && 0 < k < |a| && a[k] == '-'
    ensures k + 1 < |a| && IsDigit(a[k + 1])
  {
    var i, f :| Splits(a, i, f);
    var y := a[i..f];
    assert forall j :: i <= j < f ==> y[j - i] == a[j];
    assert forall j :: 1 <= j < |y| ==> y[1..][j - 1] == y[j];
    if k < i {
      HyphenLeads(a[..i], k);
    } else if k >= f {
      var x := a[f..];
      assert x[k - f] == '-' && x[1..] == x[1..2] + x[2..];
      ExponentHyphen(x, k - f);
      assert x[k - f + 1] == a[k + 1];
    }
  }

  lemma HyphenLeads(x: string, k: int)
    requires Signed(x) && 0 <= k < |x| && x[k] == '-'
    ensures k == 0
  {
    assert forall j :: 1 <= j < |x| ==> x[1..][j - 1] == x[j];
  }

  lemma ExponentHyphen(x: string, k: int)
    requires Exponent(x) && 0 <= k < |x| && x[k] == '-'
    ensures k + 1 < |x| && IsDigit(x[k + 1])
  {
    assert forall j :: 1 <= j < |x| ==> x[1..][j - 1] == x[j];
    assert forall j :: 2 <= j < |x| ==> x[2..][j - 2] == x[j];
  }

  lemma StrayFails(rest: string)
    requires Stray(rest)
    ensures Scan(rest) == Fail(UNEXPECTED_CHAR, 0)
  {
    LongestNumeral(rest);
    hide NumberLength, Numeral, IsPunct;
    NoPunct(rest, 0);
  }

  lemma {:induction false} NoPunct(rest: string, k: nat)
    requires k <= |PUNCT| && forall t :: IsPunct(t) ==> !(t.text <= rest)
    ensures ScanPunct(rest, k) == Fail(UNEXPECTED_CHAR, 0)
    decreases |PUNCT| - k
  {
    if k < |PUNCT| {
      TableIsPunct(k);
      NoPunct(rest, k + 1);
    }
  }

  lemma WrongFails(rest: string, code: ErrorCode, offset: nat)
    requires Wrong(rest, code, offset)
    ensures rest != "" && Scan(rest) == Fail(code, offset)
  {
    hide Scan, Inside, Stray;
    match code {
      case BAD_TOKEN => var n :| OpenWord(rest, n); OpenWordFails(rest, n);
      case UNEXPECTED_CHAR => StrayStarts(rest); StrayFails(rest);
      case _ => LiteralFails(rest, code, offset);
    }
  }

  lemma StrayStarts(rest: string)
    requires Stray(rest)
    ensures rest != ""
  {
  }

  /* ---------- the whole text ---------- */

  /** Well-laid tokens, a gap, and then something wrong: the lexer fails with that error, on the line reached and
      as many columns on as it says. */
  lemma {:induction false} LayoutFails(before: string, ps: seq<Piece>, gap: string, rest: string, code: ErrorCode,
                                       offset: nat)
    requires WellLaid(ps, gap + rest) && IsGap(gap) && Wrong(rest, code, offset)
    ensures var reached := before + TextOf(ps, gap);
            LexAfter(TextOf(ps, gap + rest), before)
              == LexError(code, Lines(reached) + 1, Since(reached) + 1 + offset)
    decreases |ps|
  {
    hide LexFrom, Written, ClearOf, IsGap, Wrong, Scan, Lines, Since;
    if ps == [] {
      GapSkipped(gap, rest, before);
      WrongFails(rest, code, offset);
      FailStops(rest, code, offset, Lines(before + gap) + 1, Since(before + gap) + 1);
    } else {
      var here := before + ps[0].gap + ps[0].text;
      LayoutFails(here, ps[1..], gap, rest, code, offset);
      PieceTaken(before, ps[0], TextOf(ps[1..], gap + rest));
      Regrouped(before, ps[0].gap, ps[0].text, TextOf(ps[1..], gap));
    }
  }

  lemma Regrouped(a: string, b: string, c: string, d: string)
    ensures a + (b + (c + d)) == a + b + c + d
  {
  }

  lemma FailStops(rest: string, code: ErrorCode, offset: nat, line: nat, col: nat)
    requires rest != "" && Scan(rest) == Fail(code, offset)
    ensures LexFrom(rest, line, col) == LexError(code, line, col + offset)
  {
    hide Scan;
  }
}
