/** What the reader of JSON strings accepts, against the table of section 7 of RFC 8259. */
module StringGrammar {
  import opened JsonStrings

  /** A hexadecimal digit of either case. */
  ghost predicate HexDigit(c: char, d: int) {
    0 <= d < 16 && (c == "0123456789abcdef"[d] || c == "0123456789ABCDEF"[d])
  }

  ghost predicate Digits4(u: string, a: int, b: int, c: int, d: int) {
    |u| == 4 && HexDigit(u[0], a) && HexDigit(u[1], b) && HexDigit(u[2], c) && HexDigit(u[3], d)
  }

  /** Four hexadecimal digits and the code unit they name. */
  ghost predicate NamesUnit(u: string, n: int) {
    exists a, b, c, d :: Digits4(u, a, b, c, d) && n == 16 * (16 * (16 * a + b) + c) + d
  }

  const SHORT := "\"\\/bfnrt"
  const MEANS: seq<int> := [0x22, 0x5C, 0x2F, 8, 12, 10, 13, 9]

  ghost predicate ShortEscape(e: char, c: char, i: int) {
    0 <= i < |SHORT| && e == SHORT[i] && c as int == MEANS[i]
  }

  /** One of the ways to write a character inside a string: as itself, by a short escape, by its code unit, or
      by a surrogate pair. */
  ghost predicate Stands(e: string, c: char) {
    || (|e| == 1 && e[0] == c && c as int >= 0x20 && c != '\"' && c != '\\')
    || (|e| == 2 && e[0] == '\\' && exists i :: ShortEscape(e[1], c, i))
    || (|e| == 6 && e[0] == '\\' && e[1] == 'u' && NamesUnit(e[2..], c as int))
    || (|e| == 12 && PairStands(e, c))
  }

  ghost predicate PairStands(e: string, c: char)
    requires |e| == 12
  {
    && e[0] == '\\' && e[1] == 'u' && e[6] == '\\' && e[7] == 'u'
    && exists high, low :: SurrogatePair(e, c, high, low)
  }

  ghost predicate SurrogatePair(e: string, c: char, high: int, low: int)
    requires |e| == 12
  {
    && NamesUnit(e[2..6], high) && NamesUnit(e[8..], low) && 0xD800 <= high < 0xDC00 && 0xDC00 <= low < 0xE000
    && c as int == 0x10000 + 0x400 * (high - 0xD800) + (low - 0xDC00)
  }

  lemma HexValueExact(c: char, d: int)
    ensures HexDigit(c, d) <==> d >= 0 && HexValue(c) == d
  {
    assert HexValue(c) >= 0 ==> c == "0123456789abcdef"[HexValue(c)] || c == "0123456789ABCDEF"[HexValue(c)];
  }

  lemma Hex4Exact(u: string, n: int)
    requires |u| == 4
    ensures NamesUnit(u, n) <==> n >= 0 && Hex4(u) == n
  {
    forall c, d ensures HexDigit(c, d) <==> d >= 0 && HexValue(c) == d { HexValueExact(c, d); }
    hide HexValue, HexDigit;
    if n >= 0 && Hex4(u) == n {
      assert Digits4(u, HexValue(u[0]), HexValue(u[1]), HexValue(u[2]), HexValue(u[3]));
    }
  }

  lemma Hex4Prefix(u: string)
    ensures |u| >= 4 ==> Hex4(u) == Hex4(u[..4])
    ensures |u| < 4 ==> Hex4(u) == -1
  {
    hide HexValue;
  }

  /** `\\u` with a code unit outside the surrogates, or two that pair. */
  lemma UnicodeExact(u: string, c: char, n: nat)
    requires |u| >= 2 && u[0] == '\\' && u[1] == 'u'
    ensures ReadUnicode(u) == Read(c, n) <==>
              || (n == 6 <= |u| && NamesUnit(u[2..6], c as int))
              || (n == 12 <= |u| && PairStands(u[..12], c))
  {
    Hex4Prefix(u[2..]);
    if |u| >= 6 {
      var x := Hex4(u[2..]);
      assert u[2..][..4] == u[2..6];
      Hex4Exact(u[2..6], x);
      Hex4Exact(u[2..6], c as int);
      hide Hex4, NamesUnit;
      if |u| >= 12 { PairExact(u, c); }
    }
  }

  lemma PairExact(u: string, c: char)
    requires |u| >= 12 && u[0] == '\\' && u[1] == 'u'
    ensures var x, y := Hex4(u[2..6]), Hex4(u[8..]);
            PairStands(u[..12], c) <==>
              && u[6] == '\\' && u[7] == 'u' && 0xD800 <= x < 0xDC00 && 0xDC00 <= y < 0xE000
              && c as int == 0x10000 + (x - 0xD800) * 0x400 + (y - 0xDC00)
  {
    var e := u[..12];
    Hex4Prefix(u[8..]);
    assert u[8..][..4] == e[8..] && u[2..6] == e[2..6];
    var x, y := Hex4(u[2..6]), Hex4(u[8..]);
    forall n ensures NamesUnit(e[2..6], n) <==> n >= 0 && x == n { Hex4Exact(e[2..6], n); }
    forall n ensures NamesUnit(e[8..], n) <==> n >= 0 && y == n { Hex4Exact(e[8..], n); }
    hide Hex4, NamesUnit;
    if PairStands(e, c) { var high, low :| SurrogatePair(e, c, high, low); }
    if x >= 0xD800 && y >= 0xDC00 && u[6] == '\\' && u[7] == 'u' {
      assert SurrogatePair(e, c, x, y) <==>
        x < 0xDC00 && y < 0xE000 && c as int == 0x10000 + 0x400 * (x - 0xD800) + (y - 0xDC00);
    }
  }

  /** The reader takes n characters for c exactly when those n stand for it. */
  lemma ReadCharExact(u: string, c: char, n: nat)
    requires u != "" && u[0] != '\"'
    ensures ReadChar(u) == Read(c, n) <==> 1 <= n <= |u| && Stands(u[..n], c)
  {
    hide ReadUnicode, NamesUnit, PairStands;
    if u[0] != '\\' {
      RawExact(u, c, n);
    } else if |u| >= 2 && u[1] == 'u' {
      UnicodeExact(u, c, n);
      assert forall i :: 0 <= i < |SHORT| ==> SHORT[i] != 'u';
      if n == 6 <= |u| { assert u[..n][2..] == u[2..6]; }
    } else if |u| >= 2 {
      ShortExact(u, c, n);
    }
  }

  /** A backslash starts every longer form. */
  lemma RawExact(u: string, c: char, n: nat)
    requires u != "" && u[0] != '\\' && u[0] != '\"'
    ensures ReadChar(u) == Read(c, n) <==> 1 <= n <= |u| && Stands(u[..n], c)
  {
    hide ReadUnicode, NamesUnit;
    if 1 <= n <= |u| {
      var e := u[..n];
      assert |e| == n && e[0] == u[0];
    }
  }

  lemma ShortTable(e: char, c: char)
    ensures (exists i :: ShortEscape(e, c, i)) <==>
              match e
              case '\"' => c == '\"'
              case '\\' => c == '\\'
              case '/' => c == '/'
              case 'b' => c as int == 8
              case 'f' => c as int == 12
              case 'n' => c as int == 10
              case 'r' => c as int == 13
              case 't' => c as int == 9
              case _ => false
  {
    assert ShortEscape('\"', '\"', 0) && ShortEscape('\\', '\\', 1) && ShortEscape('/', '/', 2);
    assert ShortEscape('b', 8 as char, 3) && ShortEscape('f', 12 as char, 4) && ShortEscape('n', 10 as char, 5);
    assert ShortEscape('r', 13 as char, 6) && ShortEscape('t', 9 as char, 7);
  }

  lemma ShortExact(u: string, c: char, n: nat)
    requires |u| >= 2 && u[0] == '\\' && u[1] != 'u'
    ensures ReadChar(u) == Read(c, n) <==> 1 <= n <= |u| && Stands(u[..n], c)
  {
    hide ReadUnicode, NamesUnit, ShortEscape;
    ShortTable(u[1], c);
    if 1 <= n <= |u| {
      var e := u[..n];
      assert |e| == n && e[0] == '\\';
      if n >= 2 { assert e[1] == u[1]; }
    }
  }

  /* ---------- whole literals ---------- */

  /** The text spells the string, one stand-in after the other. */
  ghost predicate Spells(text: string, v: string)
    decreases |v|
  {
    if v == "" then text == "" else exists k :: SpellsFrom(text, v, k)
  }

  ghost predicate SpellsFrom(text: string, v: string, k: nat)
    requires v != ""
    decreases |v|, 0
  {
    k <= |text| && Stands(text[..k], v[0]) && Spells(text[k..], v[1..])
  }

  /** The literal ends at n, where its closing quote is. */
  ghost predicate EndsAt(u: string, v: string, rest: string, n: int) {
    0 <= n < |u| && u[n] == '\"' && Spells(u[..n], v) && rest == u[n + 1..]
  }

  lemma SpellingStarts(text: string, c: char)
    ensures Stands(text, c) ==> text != "" && text[0] != '\"'
  {
    hide NamesUnit, ShortEscape;
  }

  /** What follows an opening quote is read as a string exactly when it spells that string up to a quote. */
  lemma {:induction false} ReadStringExact(u: string, v: string, rest: string)
    ensures ReadString(u) == Text(v, rest) <==> exists n :: EndsAt(u, v, rest, n)
    decreases |u|
  {
    hide ReadChar, Stands;
    if ReadString(u) == Text(v, rest) {
      if v == "" { QuoteEnds(u, rest); } else { ReadThenEnds(u, v, rest); }
    }
    if n :| EndsAt(u, v, rest, n) { EndsThenRead(u, v, rest, n); }
  }

  lemma QuoteEnds(u: string, rest: string)
    requires ReadString(u) == Text("", rest)
    ensures EndsAt(u, "", rest, 0)
  {
  }

  lemma {:induction false} ReadThenEnds(u: string, v: string, rest: string)
    requires v != "" && ReadString(u) == Text(v, rest)
    ensures exists n :: EndsAt(u, v, rest, n)
    decreases |u|, 0
  {
    hide ReadChar, Stands;
    var k := ReadChar(u).used;
    ReadCharExact(u, v[0], k);
    assert ReadString(u[k..]) == Text(v[1..], rest);
    ReadStringExact(u[k..], v[1..], rest);
    var m :| EndsAt(u[k..], v[1..], rest, m);
    var n := k + m;
    assert u[..n][..k] == u[..k] && u[..n][k..] == u[k..][..m] && u[k..][m + 1..] == u[n + 1..];
    assert SpellsFrom(u[..n], v, k);
    assert EndsAt(u, v, rest, n);
  }

  lemma {:induction false} EndsThenRead(u: string, v: string, rest: string, n: int)
    requires EndsAt(u, v, rest, n)
    ensures ReadString(u) == Text(v, rest)
    decreases |u|, 0
  {
    hide ReadChar, Stands;
    if v == "" {
      assert n == 0;
    } else {
      assert Spells(u[..n], v);
      var k: nat :| SpellsFrom(u[..n], v, k);
      SpellingStarts(u[..n][..k], v[0]);
      assert u[..n][..k] == u[..k] && u[..n][k..] == u[k..][..n - k] && u[k..][n - k + 1..] == u[n + 1..];
      assert u[0] == u[..k][0];
      ReadCharExact(u, v[0], k);
      assert EndsAt(u[k..], v[1..], rest, n - k);
      EndsThenRead(u[k..], v[1..], rest, n - k);
      assert v == [v[0]] + v[1..];
    }
  }

  /* ---------- what JSON.stringify chooses ---------- */

  /** A character is written in the shortest way there is, and with lower-case digits where it takes its code
      unit. */
  lemma EscapeIsShortest(c: char, e: string)
    ensures Stands(Escape(c), c)
    ensures Stands(e, c) ==> |Escape(c)| <= |e|
    ensures |Escape(c)| == 6 ==> forall i :: 2 <= i < 6 ==> Escape(c)[i] in "0123456789abcdef"
  {
    ReadEscape(c, "");
    assert Escape(c) + "" == Escape(c) && Escape(c)[..|Escape(c)|] == Escape(c);
    ReadCharExact(Escape(c), c, |Escape(c)|);
    hide NamesUnit, PairStands;
    if |e| == 2 && e[0] == '\\' { ShortTable(e[1], c); }
  }
}
