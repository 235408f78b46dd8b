/** What the lexer takes for a number: the longest numeral a text starts with (src/lexer.js:42). */
module NumberGrammar {
  import opened Lexer
  import opened LexerOutput
  import opened LexerProofs

  ghost predicate Digits(x: string) {
    x != "" && All(IsDigit, x)
  }

  ghost predicate Whole(x: string) {
    x == "0" || (Digits(x) && x[0] != '0')
  }

  ghost predicate Signed(x: string) {
    Whole(x) || (x != "" && x[0] == '-' && Whole(x[1..]))
  }

  ghost predicate Fraction(x: string) {
    x == "" || (x[0] == '.' && Digits(x[1..]))
  }

  ghost predicate Exponent(x: string) {
    x == "" || ((x[0] == 'e' || x[0] == 'E') &&
                (Digits(x[1..]) || (|x| > 1 && (x[1] == '+' || x[1] == '-') && Digits(x[2..]))))
  }

  /** A signed whole number with no leading zero, then perhaps a fraction, then perhaps an exponent. */
  ghost predicate Numeral(a: string) {
    exists i, f :: Splits(a, i, f)
  }

  ghost predicate Splits(a: string, i: int, f: int) {
    0 <= i <= f <= |a| && Signed(a[..i]) && Fraction(a[i..f]) && Exponent(a[f..])
  }

  lemma RunDigits(s: string)
    ensures Run(IsDigit, s) > 0 ==> Digits(s[..Run(IsDigit, s)])
    ensures Run(IsDigit, s) < |s| ==> !IsDigit(s[Run(IsDigit, s)])
  {
    var n := Run(IsDigit, s);
    RunPrefix(IsDigit, s, n);
    RunAll(IsDigit, s[..n]);
    RunStopsAt(IsDigit, s);
  }

  lemma DigitsRun(s: string, n: int)
    requires 0 <= n <= |s| && All(IsDigit, s[..n])
    ensures n <= Run(IsDigit, s)
  {
    RunPrefix(IsDigit, s, n);
    RunAll(IsDigit, s[..n]);
  }

  /* ---------- what is taken is a numeral ---------- */

  lemma IntegerSigned(s: string)
    requires IntegerLength(s) > 0
    ensures Signed(s[..IntegerLength(s)])
  {
    var sign, n := if s[0] == '-' then 1 else 0, IntegerLength(s);
    RunDigits(s[sign..]);
    assert s[..n][sign..] == s[sign..][..n - sign];
    if sign == 0 { assert s[..n] == s[sign..][..n - sign]; }
  }

  lemma FractionShape(s: string)
    ensures Fraction(s[..FractionLength(s)])
  {
    var n := FractionLength(s);
    if n > 0 {
      RunDigits(s[1..]);
      assert s[..n][1..] == s[1..][..n - 1];
    }
  }

  lemma ExponentShape(s: string)
    ensures Exponent(s[..ExponentLength(s)])
  {
    var n := ExponentLength(s);
    if n > 0 {
      var k := if |s| > 1 && (s[1] == '+' || s[1] == '-') then 2 else 1;
      RunDigits(s[k..]);
      assert s[..n][k..] == s[k..][..n - k];
    }
  }

  lemma TakenIsNumeral(s: string)
    requires NumberLength(s) > 0
    ensures Numeral(s[..NumberLength(s)])
  {
    hide IntegerLength, FractionLength, ExponentLength, Signed, Fraction, Exponent;
    var n, i := NumberLength(s), IntegerLength(s);
    var f := i + FractionLength(s[i..]);
    IntegerSigned(s);
    FractionShape(s[i..]);
    ExponentShape(s[f..]);
    var a := s[..n];
    assert a[..i] == s[..i] && a[i..f] == s[i..][..f - i] && a[f..] == s[f..][..n - f];
    assert Splits(a, i, f);
  }

  /* ---------- no longer one starts the text ---------- */

  /** A signed whole number ends no later than the lexer's, and earlier only where a digit follows. */
  lemma SignedFits(s: string, i: int)
    requires 0 <= i <= |s| && Signed(s[..i])
    ensures 0 < i <= IntegerLength(s) && (i < IntegerLength(s) ==> IsDigit(s[i]))
  {
    var x := s[..i];
    var sign := if x[0] == '-' then 1 else 0;
    assert s[0] == x[0] && s[sign] == x[sign];
    assert x[sign..] == s[sign..][..i - sign];
    if sign == 0 { assert x[sign..] == x; }
    if s[sign] != '0' {
      DigitsRun(s[sign..], i - sign);
      if i < IntegerLength(s) {
        RunDigits(s[sign..]);
        assert s[sign..][..Run(IsDigit, s[sign..])][i - sign] == s[i];
      }
    }
  }

  lemma FractionFits(s: string, f: int)
    requires 0 < f <= |s| && Fraction(s[..f])
    ensures f <= FractionLength(s) && (f < FractionLength(s) ==> IsDigit(s[f]))
  {
    var x := s[..f];
    assert s[0] == x[0] && x[1..] == s[1..][..f - 1];
    DigitsRun(s[1..], f - 1);
    if f < FractionLength(s) {
      RunDigits(s[1..]);
      assert s[1..][..Run(IsDigit, s[1..])][f - 1] == s[f];
    }
  }

  lemma ExponentFits(s: string, n: int)
    requires 0 < n <= |s| && Exponent(s[..n])
    ensures n <= ExponentLength(s)
  {
    var x := s[..n];
    assert s[0] == x[0] && s[1] == x[1];
    var k := if s[1] == '+' || s[1] == '-' then 2 else 1;
    assert x[k..] == s[k..][..n - k];
    DigitsRun(s[k..], n - k);
  }

  lemma NumeralFits(s: string, n: int)
    requires 0 <= n <= |s| && Numeral(s[..n])
    ensures 0 < n <= NumberLength(s)
  {
    hide IntegerLength, FractionLength, ExponentLength, Signed, Fraction, Exponent;
    var a := s[..n];
    var i, f :| Splits(a, i, f);
    assert a[..i] == s[..i] && a[i..f] == s[i..][..f - i] && a[f..] == s[i..][f - i..n - i];
    SignedFits(s, i);
    if i < IntegerLength(s) {
      NoDigitHere(a[i..f]);
      NoDigitHere(a[f..]);
    } else {
      TailFits(s[i..], f - i, n - i);
    }
  }

  lemma NoDigitHere(x: string)
    ensures x != "" && (Fraction(x) || Exponent(x)) ==> !IsDigit(x[0])
  {
  }

  lemma TailFits(s: string, f: int, n: int)
    requires 0 <= f <= n <= |s| && Fraction(s[..f]) && Exponent(s[f..n])
    ensures n <= FractionLength(s) + ExponentLength(s[FractionLength(s)..])
  {
    if f > 0 { FractionFits(s, f); }
    var k := FractionLength(s);
    if f < n {
      assert s[f..n][0] == s[f];
      hide FractionLength, Fraction;
      assert s[f..n] == s[f..][..n - f];
      ExponentFits(s[f..], n - f);
    }
  }

  /** The lexer takes the longest numeral the text starts with, and none where it starts with none. */
  lemma LongestNumeral(s: string)
    ensures var n := NumberLength(s);
            && (n > 0 ==> Numeral(s[..n]))
            && forall m :: 0 <= m <= |s| && Numeral(s[..m]) ==> m <= n
  {
    hide NumberLength, Numeral;
    if NumberLength(s) > 0 { TakenIsNumeral(s); }
    forall m | 0 <= m <= |s| && Numeral(s[..m]) ensures m <= NumberLength(s) { NumeralFits(s, m); }
  }

  lemma NumberIsNumeral(a: string)
    ensures IsNumber(a) <==> Numeral(a)
  {
    hide NumberLength, Numeral;
    assert a[..|a|] == a;
    if IsNumber(a) { TakenIsNumeral(a); }
    if Numeral(a) { NumeralFits(a, |a|); }
  }
}
