/** JSON string texts: what JSON.stringify writes for a string, and what JSON.parse reads back
    (section 7 of RFC 8259). */
module JsonStrings {

  /* ---------- writing ---------- */

  function Hex(d: int): char
    requires 0 <= d < 16
  {
    "0123456789abcdef"[d]
  }

  /** One character as JSON.stringify escapes it. */
  function Escape(c: char): string {
    if c == '\"' then "\\\""
    else if c == '\\' then "\\\\"
    else if c as int == 8 then "\\b"
    else if c as int == 9 then "\\t"
    else if c as int == 10 then "\\n"
    else if c as int == 12 then "\\f"
    else if c as int == 13 then "\\r"
    else if (c as int) < 32 then "\\u00" + [Hex(c as int / 16), Hex(c as int % 16)]
    else [c]
  }

  function EscapeAll(s: string): string {
    if s == "" then "" else Escape(s[0]) + EscapeAll(s[1..])
  }

  function Quote(s: string): string {
    "\"" + EscapeAll(s) + "\""
  }

  /* ---------- reading ---------- */

  /** One character read, with the number of source characters it took; a malformed escape or a
      raw control character; or half a surrogate pair, which no `char` can hold. */
  datatype CharRead = Read(c: char, used: nat) | Malformed | LoneSurrogate

  function HexValue(c: char): int {
    if '0' <= c <= '9' then c as int - '0' as int
    else if 'a' <= c <= 'f' then c as int - 'a' as int + 10
    else if 'A' <= c <= 'F' then c as int - 'A' as int + 10
    else -1
  }

  /** The value of four hexadecimal digits, or -1. */
  function Hex4(u: string): (r: int)
    ensures -1 <= r < 0x10000
  {
    if |u| < 4 || HexValue(u[0]) < 0 || HexValue(u[1]) < 0 || HexValue(u[2]) < 0 || HexValue(u[3]) < 0 then -1
    else 4096 * HexValue(u[0]) + 256 * HexValue(u[1]) + 16 * HexValue(u[2]) + HexValue(u[3])
  }

  function ReadUnicode(u: string): (r: CharRead)
    requires |u| >= 2
    ensures r.Read? ==> 1 <= r.used <= |u|
  {
    var x := Hex4(u[2..]);
    if x < 0 then Malformed
    else if x < 0xD800 || 0xE000 <= x then Read(x as char, 6)
    else if x < 0xDC00 && |u| >= 12 && u[6] == '\\' && u[7] == 'u' && 0xDC00 <= Hex4(u[8..]) < 0xE000 then
      Read((0x10000 + (x - 0xD800) * 0x400 + (Hex4(u[8..]) - 0xDC00)) as char, 12)
    else LoneSurrogate
  }

  function ReadChar(u: string): (r: CharRead)
    requires u != ""
    ensures r.Read? ==> 1 <= r.used <= |u|
  {
    if u[0] != '\\' then (if (u[0] as int) < 32 then Malformed else Read(u[0], 1))
    else if |u| < 2 then Malformed
    else
      match u[1]
      case '\"' => Read('\"', 2)
      case '\\' => Read('\\', 2)
      case '/' => Read('/', 2)
      case 'b' => Read(8 as char, 2)
      case 't' => Read(9 as char, 2)
      case 'n' => Read(10 as char, 2)
      case 'f' => Read(12 as char, 2)
      case 'r' => Read(13 as char, 2)
      case 'u' => ReadUnicode(u)
      case _ => Malformed
  }

  datatype StringRead = Text(value: string, rest: string) | BadText | Unpaired

  /** Reads up to and past the closing quote. */
  function ReadString(u: string): (r: StringRead)
    ensures r.Text? ==> |r.rest| < |u|
    decreases |u|
  {
    if u == "" then BadText
    else if u[0] == '\"' then Text("", u[1..])
    else
      match ReadChar(u)
      case Malformed => BadText
      case LoneSurrogate => Unpaired
      case Read(c, used) =>
        match ReadString(u[used..])
        case Text(value, rest) => Text([c] + value, rest)
        case other => other
  }

  /** JSON.parse on a string literal: the whole input is one literal. */
  function ParseLiteral(raw: string): StringRead {
    if raw == "" || raw[0] != '\"' then BadText
    else
      match ReadString(raw[1..])
      case Text(value, rest) => if rest == "" then Text(value, "") else BadText
      case other => other
  }

  /* ---------- reading undoes writing ---------- */

  lemma HexOf(d: int)
    requires 0 <= d < 16
    ensures HexValue(Hex(d)) == d
  {
  }

  lemma ReadEscape(c: char, s: string)
    ensures Escape(c) + s != "" && (Escape(c) + s)[0] != '\"'
    ensures ReadChar(Escape(c) + s) == Read(c, |Escape(c)|)
    ensures (Escape(c) + s)[|Escape(c)|..] == s
  {
    if |Escape(c)| == 6 {
      ReadControl(c, s);
    } else {
      var u := Escape(c) + s;
      if |Escape(c)| == 2 { assert u[0] == Escape(c)[0] && u[1] == Escape(c)[1]; }
    }
  }

  lemma ReadControl(c: char, s: string)
    requires |Escape(c)| == 6
    ensures Escape(c) + s != "" && (Escape(c) + s)[0] != '\"'
    ensures ReadChar(Escape(c) + s) == Read(c, 6)
    ensures (Escape(c) + s)[6..] == s
  {
    var u := Escape(c) + s;
    HexOf(c as int / 16);
    HexOf(c as int % 16);
    hide Hex, HexValue;
    assert u[2..][..4] == Escape(c)[2..];
    assert u[2] == '0' && u[3] == '0' && u[4] == Hex(c as int / 16) && u[5] == Hex(c as int % 16);
  }

  /** Reading a written string gives back the string and exactly what followed it. */
  lemma {:induction false} ReadEscapeAll(a: string, s: string)
    ensures ReadString(EscapeAll(a) + "\"" + s) == Text(a, s)
  {
    hide ReadString, ReadChar, Escape;
    if a == "" {
      ReadEnd(s);
    } else {
      var e, rest := Escape(a[0]), EscapeAll(a[1..]);
      var tail := rest + "\"" + s;
      Regroup(e, rest, "\"", s);
      ReadEscape(a[0], tail);
      ReadEscapeAll(a[1..], s);
      ReadStep(e + tail, a[0], |e|, tail, a[1..], s);
      assert a == [a[0]] + a[1..];
    }
  }

  lemma Regroup(a: string, b: string, c: string, d: string)
    ensures (a + b) + c + d == a + (b + c + d)
  {
  }

  lemma ReadEnd(s: string)
    ensures ReadString(EscapeAll("") + "\"" + s) == Text("", s)
  {
    assert EscapeAll("") + "\"" + s == "\"" + s;
  }

  lemma ReadStep(u: string, c: char, k: nat, tail: string, a: string, s: string)
    requires u != "" && u[0] != '\"' && ReadChar(u) == Read(c, k) && k <= |u| && u[k..] == tail
    requires ReadString(tail) == Text(a, s)
    ensures ReadString(u) == Text([c] + a, s)
  {
    hide ReadChar;
  }

  /** JSON.parse inverts JSON.stringify on strings. */
  lemma ParseQuote(a: string)
    ensures ParseLiteral(Quote(a)) == Text(a, "")
  {
    ReadEscapeAll(a, "");
    assert Quote(a)[1..] == EscapeAll(a) + "\"" + "";
  }

  /** A quoted string ends where its own closing quote is, whatever follows. */
  lemma QuoteUnique(a: string, b: string, s: string, t: string)
    requires Quote(a) + s == Quote(b) + t
    ensures a == b && s == t
  {
    hide EscapeAll, ReadString;
    QuoteTail(a, s);
    QuoteTail(b, t);
    ReadEscapeAll(a, s);
    ReadEscapeAll(b, t);
  }

  lemma QuoteTail(a: string, s: string)
    ensures (Quote(a) + s)[1..] == EscapeAll(a) + "\"" + s
  {
    hide EscapeAll;
  }
}
