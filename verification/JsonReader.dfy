/** A reader of JSON texts (RFC 8259), and what it makes of a canonical text. */
module JsonReader {
  /* The reader follows sections 2 to 7 of RFC 8259 with the optional white space left out, so what it reads is
     compact. Numbers are integers, as everywhere in this model: a fraction or an exponent is not read. It shares
     nothing with the writer but the JSON values themselves. */

  import opened CanonicalJson
  import opened CanonicalProofs
  import opened JsonStrings

  datatype ValueRead = Got(x: Json, rest: string) | NoValue

  datatype ItemsRead = Items(xs: seq<Json>, rest: string) | NoItems

  datatype MembersRead = Members(ms: seq<Member>, rest: string) | NoMembers

  /* ---------- the grammar ---------- */

  function CountDigits(u: string): (n: nat)
    ensures n <= |u|
  {
    if u != "" && '0' <= u[0] <= '9' then 1 + CountDigits(u[1..]) else 0
  }

  /** The digits read from left to right, after a number already read. */
  function Accumulate(so: int, ds: string): int
    decreases |ds|
  {
    if ds == "" then so else Accumulate(10 * so + (ds[0] as int - '0' as int), ds[1..])
  }

  function ReadNumber(u: string): (r: ValueRead)
    ensures r.Got? ==> |r.rest| < |u|
  {
    var sign := if u != "" && u[0] == '-' then 1 else 0;
    var n := CountDigits(u[sign..]);
    var rest := u[sign + n..];
    if n == 0 || (n > 1 && u[sign] == '0') then NoValue
    else if rest != "" && (rest[0] == '.' || rest[0] == 'e' || rest[0] == 'E') then NoValue
    else
      var v := Accumulate(0, u[sign..sign + n]);
      Got(Num(if sign == 1 then -v else v), rest)
  }

  function ReadValue(u: string): (r: ValueRead)
    ensures r.Got? ==> |r.rest| < |u|
    decreases |u|, 0
  {
    if u == "" then NoValue
    else if u[0] == '\"' then
      (match ReadString(u[1..]) case Text(s, rest) => Got(Str(s), rest) case _ => NoValue)
    else if u[0] == '[' then
      var t := u[1..];
      if t != "" && t[0] == ']' then Got(Arr([]), t[1..])
      else (match ReadItems(t) case Items(xs, rest) => Got(Arr(xs), rest) case NoItems => NoValue)
    else if u[0] == '{' then
      var t := u[1..];
      if t != "" && t[0] == '}' then Got(Obj([]), t[1..])
      else (match ReadMembers(t) case Members(ms, rest) => Got(Obj(ms), rest) case NoMembers => NoValue)
    else if "true" <= u then Got(Bool(true), u[4..])
    else if "false" <= u then Got(Bool(false), u[5..])
    else if "null" <= u then Got(Null, u[4..])
    else ReadNumber(u)
  }

  /** One or more values separated by commas, and the closing bracket. */
  function ReadItems(u: string): (r: ItemsRead)
    ensures r.Items? ==> |r.rest| < |u|
    decreases |u|, 1
  {
    match ReadValue(u)
    case NoValue => NoItems
    case Got(x, t) =>
      if t == "" then NoItems
      else if t[0] == ']' then Items([x], t[1..])
      else if t[0] == ',' then
        (match ReadItems(t[1..]) case Items(xs, rest) => Items([x] + xs, rest) case NoItems => NoItems)
      else NoItems
  }

  /** One or more members separated by commas, and the closing brace. */
  function ReadMembers(u: string): (r: MembersRead)
    ensures r.Members? ==> |r.rest| < |u|
    decreases |u|, 1
  {
    match ReadMember(u)
    case (_, NoValue) => NoMembers
    case (key, Got(x, t)) =>
      if t == "" then NoMembers
      else if t[0] == '}' then Members([Member(key, x)], t[1..])
      else if t[0] == ',' then
        (match ReadMembers(t[1..])
         case Members(ms, rest) => Members([Member(key, x)] + ms, rest)
         case NoMembers => NoMembers)
      else NoMembers
  }

  /** A quoted key, a colon and a value. */
  function ReadMember(u: string): (r: (string, ValueRead))
    ensures r.1.Got? ==> |r.1.rest| < |u|
    decreases |u|, 0
  {
    if u == "" || u[0] != '\"' then ("", NoValue)
    else
      match ReadString(u[1..])
      case Text(key, t) => if t == "" || t[0] != ':' then (key, NoValue) else (key, ReadValue(t[1..]))
      case _ => ("", NoValue)
  }

  /** JSON.parse on a compact text: one value and nothing else. */
  function ParseJson(u: string): ValueRead {
    match ReadValue(u)
    case Got(x, rest) => if rest == "" then Got(x, "") else NoValue
    case NoValue => NoValue
  }

  /* ---------- the order of keys ---------- */

  function Units(c: char): seq<int> {
    var n := c as int;
    if n < 0x10000 then [n] else [0xD800 + (n - 0x10000) / 0x400, 0xDC00 + (n - 0x10000) % 0x400]
  }

  /** The UTF-16 code units of a string. */
  function Utf16(s: string): seq<int> {
    if s == "" then [] else Units(s[0]) + Utf16(s[1..])
  }

  /** The sequences part at their first difference, or the first is a proper beginning of the second. */
  ghost predicate UnitsLess(a: seq<int>, b: seq<int>) {
    exists k :: PartAt(a, b, k)
  }

  ghost predicate PartAt(a: seq<int>, b: seq<int>, k: int) {
    && 0 <= k <= |a| && k < |b| && a[..k] == b[..k]
    && (k == |a| || a[k] < b[k])
  }

  /** Every object lists its keys in ascending UTF-16 order, at every depth. */
  ghost predicate KeysAscend(x: Json) {
    match x
    case Arr(items) => forall i :: 0 <= i < |items| ==> KeysAscend(items[i])
    case Obj(ms) =>
      && (forall i, j :: 0 <= i < j < |ms| ==> UnitsLess(Utf16(ms[i].key), Utf16(ms[j].key)))
      && forall m :: m in ms ==> KeysAscend(m.value)
    case _ => true
  }

  lemma PartAfter(p: seq<int>, a: seq<int>, b: seq<int>, k: int)
    requires PartAt(a, b, k)
    ensures PartAt(p + a, p + b, |p| + k)
  {
    assert (p + a)[..|p| + k] == p + a[..k] && (p + b)[..|p| + k] == p + b[..k];
  }

  lemma {:induction false} KeyOrder(a: string, b: string)
    requires KeyLess(a, b)
    ensures UnitsLess(Utf16(a), Utf16(b))
  {
    if a == "" {
      assert PartAt(Utf16(a), Utf16(b), 0);
    } else if a[0] == b[0] {
      KeyOrder(a[1..], b[1..]);
      var k :| PartAt(Utf16(a[1..]), Utf16(b[1..]), k);
      PartAfter(Units(a[0]), Utf16(a[1..]), Utf16(b[1..]), k);
    } else {
      FirstUnits(a[0], b[0], Utf16(a[1..]), Utf16(b[1..]));
    }
  }

  lemma FirstUnits(c: char, d: char, a: seq<int>, b: seq<int>)
    requires UnitOrder(c) < UnitOrder(d)
    ensures UnitsLess(Units(c) + a, Units(d) + b)
  {
    var x, y := Units(c) + a, Units(d) + b;
    if x[0] == y[0] { assert PartAt(x, y, 1); } else { assert PartAt(x, y, 0); }
  }

  /* ---------- reading back what was written ---------- */

  lemma {:induction false} AccumulateSnoc(so: int, ds: string, d: char)
    ensures Accumulate(so, ds + [d]) == 10 * Accumulate(so, ds) + (d as int - '0' as int)
    decreases |ds|
  {
    if ds == "" {
      assert (ds + [d])[1..] == "";
    } else {
      AccumulateSnoc(10 * so + (ds[0] as int - '0' as int), ds[1..], d);
      assert (ds + [d])[1..] == ds[1..] + [d];
    }
  }

  lemma {:induction false} DecimalReads(n: nat)
    ensures Accumulate(0, Decimal(n)) == n && (n > 0 ==> Decimal(n)[0] != '0') && (n == 0 ==> Decimal(n) == "0")
  {
    if n < 10 {
      assert Accumulate(0, [Digit(n)]) == Accumulate(n, "");
    } else {
      DecimalReads(n / 10);
      AccumulateSnoc(0, Decimal(n / 10), Digit(n % 10));
    }
  }

  lemma {:induction false} CountOf(ds: string, s: string)
    requires (forall i :: 0 <= i < |ds| ==> '0' <= ds[i] <= '9') && (s == "" || !('0' <= s[0] <= '9'))
    ensures CountDigits(ds + s) == |ds|
    decreases |ds|
  {
    if ds == "" {
      assert ds + s == s;
    } else {
      CountOf(ds[1..], s);
      assert (ds + s)[1..] == ds[1..] + s;
    }
  }

  lemma Slices(sign: string, ds: string, s: string)
    requires ds != ""
    ensures var u, k := sign + (ds + s), |sign|;
            && u[k..] == ds + s && u[k..k + |ds|] == ds && u[k + |ds|..] == s && u[k] == ds[0]
            && (sign != "" ==> u[0] == sign[0])
  {
  }

  lemma SignedReads(sign: string, ds: string, s: string)
    requires (sign == "" || sign == "-") && ds != "" && (|ds| > 1 ==> ds[0] != '0') && Delimiter(s)
    requires forall i :: 0 <= i < |ds| ==> '0' <= ds[i] <= '9'
    ensures ReadNumber(sign + (ds + s)) == Got(Num(if sign == "" then Accumulate(0, ds) else -Accumulate(0, ds)), s)
  {
    hide Accumulate, CountDigits;
    CountOf(ds, s);
    assert ds[0] != '-';
    if sign == "" { Unsigned(ds, s); } else { Negative(ds, s); }
  }

  lemma Unsigned(ds: string, s: string)
    requires ds != "" && (|ds| > 1 ==> ds[0] != '0') && ds[0] != '-' && CountDigits(ds + s) == |ds| && Delimiter(s)
    ensures ReadNumber("" + (ds + s)) == Got(Num(Accumulate(0, ds)), s)
  {
    hide Accumulate, CountDigits;
    Slices("", ds, s);
  }

  lemma Negative(ds: string, s: string)
    requires ds != "" && (|ds| > 1 ==> ds[0] != '0') && CountDigits(ds + s) == |ds| && Delimiter(s)
    ensures ReadNumber("-" + (ds + s)) == Got(Num(-Accumulate(0, ds)), s)
  {
    hide Accumulate, CountDigits;
    Slices("-", ds, s);
  }

  lemma NumberReads(n: int, s: string)
    requires Delimiter(s)
    ensures ReadNumber(Number(n) + s) == Got(Num(n), s)
  {
    var m := if n < 0 then -n else n;
    DecimalReads(m);
    hide Decimal, ReadNumber, Accumulate, Delimiter;
    if n < 0 {
      SignedReads("-", Decimal(m), s);
      Reassociate("-", Decimal(m), s);
    } else {
      SignedReads("", Decimal(m), s);
      assert "" + (Decimal(m) + s) == Decimal(m) + s;
    }
  }

  /** What reading a text must give: an equivalent value, its keys in order, and what followed. */
  ghost predicate ReadsAs(r: ValueRead, x: Json, rest: string) {
    r.Got? && r.rest == rest && Equiv(x, r.x) && KeysAscend(r.x)
  }

  /** The text of a value, with any delimiter after it, reads as that value up to the order of object members,
      and leaves exactly what follows. */
  lemma {:induction false} CanonicalReads(x: Json, s: string)
    requires WellFormed(x) && Delimiter(s)
    ensures ReadsAs(ReadValue(Canonical(x) + s), x, s)
    decreases x, 2
  {
    var u := Canonical(x) + s;
    match x {
      case Null => assert u[4..] == s && "null" <= u && u[0] == 'n';
      case Bool(b) =>
        if b { assert u[4..] == s && "true" <= u; } else { assert u[5..] == s && "false" <= u && u[0] == 'f'; }
      case Num(n) => NumberValueReads(n, s);
      case Str(a) => StringReads(a, s);
      case Arr(items) => ArrayReads(items, s);
      case Obj(ms) => ObjectReads(ms, s);
    }
  }

  lemma NumberValueReads(n: int, s: string)
    requires Delimiter(s)
    ensures ReadValue(Number(n) + s) == Got(Num(n), s)
  {
    NumberReads(n, s);
    NumberHead(n, s);
    if n >= 0 { assert IsDigit(Decimal(n)[0]); }
    hide Number, ReadNumber;
  }

  lemma StringReads(a: string, s: string)
    ensures ReadValue(Quote(a) + s) == Got(Str(a), s)
  {
    hide EscapeAll, ReadString;
    QuoteTail(a, s);
    ReadEscapeAll(a, s);
  }

  lemma {:induction false} ArrayReads(items: seq<Json>, s: string)
    requires WellFormed(Arr(items))
    ensures ReadsAs(ReadValue(Canonical(Arr(items)) + s), Arr(items), s)
    decreases items, 1
  {
    hide Canonical, ReadValue, ReadItems, Elements;
    var t := Elements(items) + ("]" + s);
    ArrayText(items, s);
    FirstElementChar(items, "]" + s);
    OpensArray(t);
    if items == [] {
      NoElements(s);
    } else {
      ElementsRead(items, "]" + s);
      assert ("]" + s)[1..] == s;
    }
  }

  lemma ArrayText(items: seq<Json>, s: string)
    ensures Canonical(Arr(items)) + s == "[" + (Elements(items) + ("]" + s)) && Elements(items) + ("]" + s) != ""
  {
    hide Elements;
  }

  lemma NoElements(s: string)
    ensures (Elements([]) + ("]" + s))[1..] == s
  {
  }

  lemma OpensArray(t: string)
    requires t != ""
    ensures ReadValue("[" + t) ==
              if t[0] == ']' then Got(Arr([]), t[1..])
              else match ReadItems(t) case Items(xs, rest) => Got(Arr(xs), rest) case NoItems => NoValue
  {
    assert ("[" + t)[1..] == t;
    hide ReadItems;
  }

  ghost predicate ItemsReadAs(r: ItemsRead, xs: seq<Json>, rest: string) {
    && r.Items? && r.rest == rest && |r.xs| == |xs|
    && forall i :: 0 <= i < |xs| ==> Equiv(xs[i], r.xs[i]) && KeysAscend(r.xs[i])
  }

  lemma {:induction false} ElementsRead(xs: seq<Json>, s: string)
    requires xs != [] && s != "" && s[0] == ']' && forall i :: 0 <= i < |xs| ==> WellFormed(xs[i])
    ensures ItemsReadAs(ReadItems(Elements(xs) + s), xs, s[1..])
    decreases xs, 0
  {
    hide Canonical, Equiv, KeysAscend, WellFormed, ReadValue;
    var after := AfterElement(xs, s);
    ElementsFirst(xs, s);
    CanonicalReads(xs[0], after);
    if |xs| > 1 {
      var rest := Elements(xs[1..]) + s;
      assert after == "," + rest && after[1..] == rest;
      ElementsRead(xs[1..], s);
      ElementsFirst(xs[1..], s);
    }
  }

  /** Member i of what was read is field i, read. */
  ghost predicate MembersReadAs(r: MembersRead, ms: seq<Member>, fs: seq<Field>, rest: string) {
    && r.Members? && r.rest == rest && |r.ms| == |fs|
    && forall i :: 0 <= i < |fs| ==> FieldReadAs(ms, fs[i], r.ms[i])
  }

  ghost predicate FieldReadAs(ms: seq<Member>, f: Field, n: Member) {
    n.key == f.key && KeysAscend(n.value) && exists m :: m in ms && FieldOf(m) == f && Equiv(m.value, n.value)
  }

  lemma {:induction false} FieldReads(ms: seq<Member>, f: Field, s: string)
    requires AllWellFormed(ms) && f in Fields(ms) && Delimiter(s)
    ensures var r := ReadMember(FieldText(f) + s);
            r.1.Got? && r.1.rest == s && FieldReadAs(ms, f, Member(r.0, r.1.x))
    decreases ms, 0
  {
    hide Equiv, KeysAscend, ReadValue, WellFormed, EscapeAll, ReadString, Canonical;
    var m := MemberOf(ms, f);
    var u, tail := FieldText(f) + s, ":" + (f.text + s);
    FieldSplit(f, s);
    QuoteTail(f.key, tail);
    ReadEscapeAll(f.key, tail);
    assert u[0] == '\"' && tail[1..] == f.text + s;
    CanonicalReads(m.value, s);
  }

  lemma {:induction false} FieldsRead(ms: seq<Member>, fs: seq<Field>, s: string)
    requires AllWellFormed(ms) && Drawn(fs, ms) && fs != [] && s != "" && s[0] == '}'
    ensures MembersReadAs(ReadMembers(JoinFields(fs) + s), ms, fs, s[1..])
    decreases ms, 1, |fs|
  {
    hide Fields, FieldText, FieldReadAs, ReadMember, AllWellFormed, JoinFields, Drawn;
    var after := AfterFirst(fs, s);
    JoinSplit(fs, s);
    DrawnCons(fs, ms);
    FieldReads(ms, fs[0], after);
    if |fs| > 1 {
      var rest := JoinFields(fs[1..]) + s;
      assert after == "," + rest && after[1..] == rest;
      FieldsRead(ms, fs[1..], s);
      JoinSplit(fs[1..], s);
    }
  }

  lemma {:induction false} ObjectReads(ms: seq<Member>, s: string)
    requires WellFormed(Obj(ms))
    ensures ReadsAs(ReadValue(Canonical(Obj(ms)) + s), Obj(ms), s)
    decreases ms, 2
  {
    hide Canonical, Equiv, KeysAscend, WellFormed, ReadMembers, Sorted, DistinctKeys, AllWellFormed, JoinFields,
         Fields, SortFields, FieldReadAs;
    var fs := SortFields(Fields(ms));
    var t := JoinFields(fs) + ("}" + s);
    AllOf(ms);
    ObjectSplit(ms, s);
    DistinctNames(ms);
    SortFieldsSorts(Fields(ms));
    JoinSplit(fs, "}" + s);
    OpensObject(t);
    if ms == [] {
      JoinNone("}" + s);
      assert t[1..] == s;
      EmptyObject();
    } else {
      SortedDrawn(ms);
      FieldsRead(ms, fs, "}" + s);
      assert ("}" + s)[1..] == s;
      SameObject(ms, fs, ReadMembers(t).ms);
    }
  }

  lemma DistinctNames(ms: seq<Member>)
    requires DistinctKeys(ms)
    ensures DistinctFields(Fields(ms))
  {
  }

  lemma SortedDrawn(ms: seq<Member>)
    requires forall f :: f in SortFields(Fields(ms)) <==> f in Fields(ms)
    ensures Drawn(SortFields(Fields(ms)), ms)
  {
  }

  lemma OpensObject(t: string)
    requires t != ""
    ensures ReadValue("{" + t) ==
              if t[0] == '}' then Got(Obj([]), t[1..])
              else match ReadMembers(t) case Members(ms, rest) => Got(Obj(ms), rest) case NoMembers => NoValue
  {
    assert ("{" + t)[1..] == t;
    hide ReadMembers;
  }

  lemma EmptyObject()
    ensures Equiv(Obj([]), Obj([])) && KeysAscend(Obj([]))
  {
  }

  lemma AllOf(ms: seq<Member>)
    requires WellFormed(Obj(ms))
    ensures AllWellFormed(ms) && DistinctKeys(ms)
  {
  }

  /** Members read from the sorted fields of an object are the object's own, in ascending order of keys. */
  lemma SameObject(ms: seq<Member>, fs: seq<Field>, ns: seq<Member>)
    requires DistinctKeys(ms) && Sorted(fs) && |ns| == |fs| && forall f :: f in fs <==> f in Fields(ms)
    requires forall i :: 0 <= i < |fs| ==> FieldReadAs(ms, fs[i], ns[i])
    ensures Equiv(Obj(ms), Obj(ns)) && KeysAscend(Obj(ns))
  {
    hide Fields, FieldOf, KeyLess, DistinctKeys, Sorted, FieldReadAs;
    forall m | m in ms ensures HasPair(m, ns) { HasItsPair(ms, fs, ns, m); }
    forall n | n in ns ensures IsPaired(ms, n) && KeysAscend(n.value) { IsItsPair(ms, fs, ns, n); }
    KeysInOrder(ms, fs, ns);
  }

  lemma HasItsPair(ms: seq<Member>, fs: seq<Field>, ns: seq<Member>, m: Member)
    requires DistinctKeys(ms) && |ns| == |fs| && m in ms && forall f :: f in fs <==> f in Fields(ms)
    requires forall i :: 0 <= i < |fs| ==> FieldReadAs(ms, fs[i], ns[i])
    ensures HasPair(m, ns)
  {
    hide Fields, FieldOf, DistinctKeys, Equiv, KeysAscend;
    FieldIn(ms, m);
    var i :| 0 <= i < |fs| && fs[i] == FieldOf(m);
    var k :| k in ms && FieldOf(k) == fs[i] && Equiv(k.value, ns[i].value);
    SameKey(ms, m, k);
    FieldKey(m);
    assert Paired(m, ns[i]) && ns[i] in ns;
  }

  lemma IsItsPair(ms: seq<Member>, fs: seq<Field>, ns: seq<Member>, n: Member)
    requires |ns| == |fs| && n in ns && forall i :: 0 <= i < |fs| ==> FieldReadAs(ms, fs[i], ns[i])
    ensures IsPaired(ms, n) && KeysAscend(n.value)
  {
    hide FieldOf, Equiv, KeysAscend;
    var i :| 0 <= i < |ns| && ns[i] == n;
    var k :| k in ms && FieldOf(k) == fs[i] && Equiv(k.value, ns[i].value);
    FieldKey(k);
    assert Paired(k, n);
  }

  lemma KeysInOrder(ms: seq<Member>, fs: seq<Field>, ns: seq<Member>)
    requires Sorted(fs) && |ns| == |fs| && forall i :: 0 <= i < |fs| ==> FieldReadAs(ms, fs[i], ns[i])
    ensures forall i, j :: 0 <= i < j < |ns| ==> UnitsLess(Utf16(ns[i].key), Utf16(ns[j].key))
  {
    hide KeyLess, Equiv, KeysAscend, FieldOf, UnitsLess;
    forall i, j | 0 <= i < j < |ns| ensures UnitsLess(Utf16(ns[i].key), Utf16(ns[j].key)) {
      assert FieldReadAs(ms, fs[i], ns[i]) && FieldReadAs(ms, fs[j], ns[j]);
      KeyOrder(fs[i].key, fs[j].key);
    }
  }

  lemma FieldKey(m: Member)
    ensures FieldOf(m).key == m.key
  {
  }

  lemma SameKey(ms: seq<Member>, m: Member, k: Member)
    requires DistinctKeys(ms) && m in ms && k in ms && FieldOf(m) == FieldOf(k)
    ensures m == k
  {
    FieldKey(m);
    FieldKey(k);
    var i :| 0 <= i < |ms| && ms[i] == m;
    var j :| 0 <= j < |ms| && ms[j] == k;
  }

  lemma {:induction false} AscendWellFormed(x: Json)
    requires KeysAscend(x)
    ensures WellFormed(x)
  {
    match x {
      case Arr(items) =>
        forall i | 0 <= i < |items| ensures WellFormed(items[i]) { AscendWellFormed(items[i]); }
      case Obj(ms) =>
        forall m | m in ms ensures WellFormed(m.value) { AscendWellFormed(m.value); }
        forall i, j | 0 <= i < j < |ms| ensures ms[i].key != ms[j].key {
          assert UnitsLess(Utf16(ms[i].key), Utf16(ms[j].key));
        }
      case _ =>
    }
  }

  /** JSON.parse of a canonical text gives back the value up to the order of object members, with its keys in
      ascending UTF-16 order, and what was read has that text again. */
  lemma ParseCanonical(x: Json)
    requires WellFormed(x)
    ensures var r := ParseJson(Canonical(x));
            r.Got? && Equiv(x, r.x) && KeysAscend(r.x) && WellFormed(r.x) && Canonical(r.x) == Canonical(x)
  {
    CanonicalReads(x, "");
    assert Canonical(x) + "" == Canonical(x);
    AscendWellFormed(ParseJson(Canonical(x)).x);
    CanonicalExact(x, ParseJson(Canonical(x)).x);
  }
}
