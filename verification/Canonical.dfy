/** Canonical serialisation of JSON values: the text every digest, receipt and statement key is
    computed over (src/store.js:43-48, src/sign.js:23-28).

    An object is a sequence of members in insertion order with distinct keys. The canonical text
    sorts the keys; the main theorem says the text determines the value up to member order, and
    nothing else. */
module CanonicalJson {
  import opened JsonStrings

  datatype Member = Member(key: string, value: Json)

  datatype Json =
    | Null
    | Bool(b: bool)
    | Num(n: int)
    | Str(s: string)
    | Arr(items: seq<Json>)
    | Obj(members: seq<Member>)

  /** An object never holds the same key twice. */
  ghost predicate DistinctKeys(ms: seq<Member>) {
    forall i, j :: 0 <= i < j < |ms| ==> ms[i].key != ms[j].key
  }

  ghost predicate WellFormed(x: Json) {
    match x
    case Arr(items) => forall i :: 0 <= i < |items| ==> WellFormed(items[i])
    case Obj(ms) => DistinctKeys(ms) && forall m :: m in ms ==> WellFormed(m.value)
    case _ => true
  }

  /** Equality up to the order of object members, at every depth. */
  ghost predicate Equiv(a: Json, b: Json) {
    match (a, b)
    case (Arr(xs), Arr(ys)) =>
      |xs| == |ys| && forall i :: 0 <= i < |xs| ==> Equiv(xs[i], ys[i])
    case (Obj(ms), Obj(ns)) =>
      && (forall m {:trigger HasPair(m, ns)} :: m in ms ==> HasPair(m, ns))
      && (forall n {:trigger IsPaired(ms, n)} :: n in ns ==> IsPaired(ms, n))
    case _ => a == b
  }

  /** The same key, with equivalent values. */
  ghost predicate Paired(m: Member, n: Member) {
    m.key == n.key && Equiv(m.value, n.value)
  }

  ghost predicate HasPair(m: Member, ns: seq<Member>) {
    exists n :: n in ns && Paired(m, n)
  }

  ghost predicate IsPaired(ms: seq<Member>, n: Member) {
    exists m :: m in ms && Paired(m, n)
  }

  /* ---------- JSON.stringify on integers ---------- */

  predicate IsDigit(c: char) {
    '0' <= c <= '9'
  }

  function Digit(d: nat): char
    requires d < 10
    ensures IsDigit(Digit(d))
  {
    '0' + d as char
  }

  function Decimal(n: nat): (s: string)
    ensures s != ""
    ensures forall i :: 0 <= i < |s| ==> IsDigit(s[i])
  {
    if n < 10 then [Digit(n)] else Decimal(n / 10) + [Digit(n % 10)]
  }

  function Number(n: int): string {
    if n < 0 then "-" + Decimal(-n) else Decimal(n)
  }

  /* ---------- sorting by key ---------- */

  /** The position of a character in UTF-16 code-unit order, which is the order Array.sort uses:
      characters outside the basic plane start with a surrogate, below U+E000. */
  function UnitOrder(c: char): int {
    if c as int < 0xD800 then c as int
    else if c as int >= 0x10000 then c as int - 0x2000
    else c as int + 0x200000
  }

  /** Lexicographic order on keys. */
  predicate KeyLess(a: string, b: string) {
    if b == "" then false
    else if a == "" then true
    else if a[0] == b[0] then KeyLess(a[1..], b[1..])
    else UnitOrder(a[0]) < UnitOrder(b[0])
  }

  /** A member whose value has been serialised. */
  datatype Field = Field(key: string, text: string)

  function Insert(f: Field, fs: seq<Field>): seq<Field> {
    if fs == [] || KeyLess(f.key, fs[0].key) then [f] + fs else [fs[0]] + Insert(f, fs[1..])
  }

  function SortFields(fs: seq<Field>): seq<Field> {
    if fs == [] then [] else Insert(fs[0], SortFields(fs[1..]))
  }

  /* ---------- canonical ---------- */

  function Canonical(x: Json): string {
    match x
    case Null => "null"
    case Bool(b) => if b then "true" else "false"
    case Num(n) => Number(n)
    case Str(s) => Quote(s)
    case Arr(items) => "[" + Elements(items) + "]"
    case Obj(ms) => "{" + JoinFields(SortFields(Fields(ms))) + "}"
  }

  /** The items, serialised and separated by commas. */
  function Elements(items: seq<Json>): string {
    if items == [] then ""
    else if |items| == 1 then Canonical(items[0])
    else Canonical(items[0]) + "," + Elements(items[1..])
  }

  function FieldOf(m: Member): Field {
    Field(m.key, Canonical(m.value))
  }

  function Fields(ms: seq<Member>): (fs: seq<Field>)
    ensures |fs| == |ms|
    ensures forall i :: 0 <= i < |ms| ==> fs[i] == FieldOf(ms[i])
  {
    if ms == [] then [] else [FieldOf(ms[0])] + Fields(ms[1..])
  }

  function FieldText(f: Field): string {
    Quote(f.key) + ":" + f.text
  }

  function JoinFields(fs: seq<Field>): string {
    if fs == [] then ""
    else if |fs| == 1 then FieldText(fs[0])
    else FieldText(fs[0]) + "," + JoinFields(fs[1..])
  }
}
