/** The canonical text determines a JSON value exactly up to object member order. */
module CanonicalProofs {
  import opened CanonicalJson
  import opened JsonStrings

  /* ---------- the key order and sorting ---------- */

  lemma {:induction false} KeyLessTotal(a: string, b: string)
    ensures a == b || KeyLess(a, b) || KeyLess(b, a)
    ensures !(KeyLess(a, b) && KeyLess(b, a))
    ensures !KeyLess(a, a)
  {
    if a != "" && b != "" && a[0] == b[0] {
      KeyLessTotal(a[1..], b[1..]);
      assert a == [a[0]] + a[1..] && b == [b[0]] + b[1..];
    }
    if a != "" { KeyLessTotal(a[1..], a[1..]); }
  }

  lemma {:induction false} KeyLessTransitive(a: string, b: string, c: string)
    requires KeyLess(a, b) && KeyLess(b, c)
    ensures KeyLess(a, c)
  {
    if a != "" && a[0] == b[0] == c[0] {
      KeyLessTransitive(a[1..], b[1..], c[1..]);
    }
  }

  ghost predicate Sorted(fs: seq<Field>) {
    forall i, j :: 0 <= i < j < |fs| ==> KeyLess(fs[i].key, fs[j].key)
  }

  ghost predicate DistinctFields(fs: seq<Field>) {
    forall i, j :: 0 <= i < j < |fs| ==> fs[i].key != fs[j].key
  }

  lemma {:induction false} InsertSorted(f: Field, fs: seq<Field>)
    requires Sorted(fs) && forall i :: 0 <= i < |fs| ==> fs[i].key != f.key
    ensures Sorted(Insert(f, fs)) && |Insert(f, fs)| == |fs| + 1
    ensures forall x :: x in Insert(f, fs) <==> x == f || x in fs
  {
    if fs == [] {
    } else {
      assert fs == [fs[0]] + fs[1..];
      KeyLessTotal(f.key, fs[0].key);
      if KeyLess(f.key, fs[0].key) {
        forall i | 0 <= i < |fs| ensures KeyLess(f.key, fs[i].key) {
          if i > 0 { KeyLessTransitive(f.key, fs[0].key, fs[i].key); }
        }
      } else {
        InsertSorted(f, fs[1..]);
        var r := Insert(f, fs[1..]);
        forall i | 0 <= i < |r| ensures KeyLess(fs[0].key, r[i].key) { assert r[i] in r; }
      }
    }
  }

  lemma {:induction false} SortFieldsSorts(fs: seq<Field>)
    requires DistinctFields(fs)
    ensures Sorted(SortFields(fs)) && |SortFields(fs)| == |fs|
    ensures forall x :: x in SortFields(fs) <==> x in fs
  {
    if fs != [] {
      assert fs == [fs[0]] + fs[1..];
      SortFieldsSorts(fs[1..]);
      var r := SortFields(fs[1..]);
      forall i | 0 <= i < |r| ensures r[i].key != fs[0].key {
        assert r[i] in fs[1..];
      }
      InsertSorted(fs[0], r);
    }
  }

  /** Two sorted sequences with the same elements are the same sequence. */
  lemma {:induction false} SortedUnique(fs: seq<Field>, gs: seq<Field>)
    requires Sorted(fs) && Sorted(gs) && forall x :: x in fs <==> x in gs
    ensures fs == gs
  {
    assert fs == [] <==> gs == [] by {
      assert fs != [] ==> fs[0] in fs;
      assert gs != [] ==> gs[0] in gs;
    }
    if fs != [] {
      assert fs[0] in gs && gs[0] in fs;
      var i :| 0 <= i < |gs| && gs[i] == fs[0];
      var j :| 0 <= j < |fs| && fs[j] == gs[0];
      KeyLessTotal(fs[0].key, gs[0].key);
      assert i == 0 && j == 0;
      forall x ensures x in fs[1..] <==> x in gs[1..] {
        SortedTail(fs, x);
        SortedTail(gs, x);
      }
      SortedUnique(fs[1..], gs[1..]);
      assert fs == [fs[0]] + fs[1..] && gs == [gs[0]] + gs[1..];
    }
  }

  lemma SortedTail(fs: seq<Field>, x: Field)
    requires Sorted(fs) && fs != []
    ensures x in fs[1..] <==> x in fs && x != fs[0]
  {
    KeyLessTotal(fs[0].key, fs[0].key);
    assert fs == [fs[0]] + fs[1..];
  }

  /* ---------- self-delimiting texts ---------- */

  /** What may follow a value inside a canonical text. */
  ghost predicate Delimiter(s: string) {
    s == "" || s[0] == ',' || s[0] == ']' || s[0] == '}'
  }

  /** The number a run of digits denotes. */
  ghost function Value(s: string): int {
    if s == "" then 0 else 10 * Value(s[..|s| - 1]) + (s[|s| - 1] as int - '0' as int)
  }

  lemma {:induction false} ValueOfDecimal(n: nat)
    ensures Value(Decimal(n)) == n
  {
    if n >= 10 {
      ValueOfDecimal(n / 10);
      assert Decimal(n)[..|Decimal(n)| - 1] == Decimal(n / 10);
    }
  }

  /** The length of the run of digits a string starts with. */
  ghost function DigitRun(s: string): nat {
    if s == "" || !IsDigit(s[0]) then 0 else 1 + DigitRun(s[1..])
  }

  lemma {:induction false} DigitRunOf(ds: string, s: string)
    requires forall i :: 0 <= i < |ds| ==> IsDigit(ds[i])
    requires Delimiter(s)
    ensures DigitRun(ds + s) == |ds|
  {
    if ds == "" {
      assert ds + s == s;
    } else {
      DigitRunOf(ds[1..], s);
      assert (ds + s)[1..] == ds[1..] + s;
    }
  }

  lemma DecimalUnique(m: nat, n: nat, s: string, t: string)
    requires Decimal(m) + s == Decimal(n) + t && Delimiter(s) && Delimiter(t)
    ensures m == n && s == t
  {
    var u, v := Decimal(m) + s, Decimal(n) + t;
    DigitRunOf(Decimal(m), s);
    DigitRunOf(Decimal(n), t);
    assert Decimal(m) == u[..|Decimal(m)|] == Decimal(n);
    assert s == u[|Decimal(m)|..] == t;
    ValueOfDecimal(m);
    ValueOfDecimal(n);
  }

  lemma NumberHead(n: int, s: string)
    ensures Number(n) != "" && (Number(n) + s)[0] == Number(n)[0]
    ensures n < 0 <==> Number(n)[0] == '-'
  {
    if n >= 0 { assert IsDigit(Decimal(n)[0]); }
  }

  lemma NumberUnique(m: int, n: int, s: string, t: string)
    requires Number(m) + s == Number(n) + t && Delimiter(s) && Delimiter(t)
    ensures m == n && s == t
  {
    NumberHead(m, s);
    NumberHead(n, t);
    if m < 0 {
      Reassociate("-", Decimal(-m), s);
      Reassociate("-", Decimal(-n), t);
      SameLength("-", "-", Decimal(-m) + s, Decimal(-n) + t);
      DecimalUnique(-m, -n, s, t);
    } else {
      DecimalUnique(m, n, s, t);
    }
  }

  lemma Reassociate(a: string, b: string, c: string)
    ensures (a + b) + c == a + (b + c)
  {
  }

  lemma Uncons(c: char, s: string, rest: string)
    requires s == [c] + rest
    ensures s[1..] == rest
  {
  }

  /* ---------- the text determines the value ---------- */

  ghost predicate AllWellFormed(ms: seq<Member>) {
    forall m :: m in ms ==> WellFormed(m.value)
  }

  lemma MemberOf(ms: seq<Member>, f: Field) returns (m: Member)
    requires f in Fields(ms)
    ensures m in ms && FieldOf(m) == f
  {
    var i :| 0 <= i < |ms| && Fields(ms)[i] == f;
    m := ms[i];
  }

  lemma FieldIn(ms: seq<Member>, m: Member)
    requires m in ms
    ensures FieldOf(m) in Fields(ms)
  {
    var i :| 0 <= i < |ms| && ms[i] == m;
    assert Fields(ms)[i] == FieldOf(m);
  }

  /** The first character of a canonical text names the constructor. */
  ghost function Shape(c: char): int {
    if c == 'n' then 0 else if c == 't' || c == 'f' then 1 else if c == '\"' then 3
    else if c == '[' then 4 else if c == '{' then 5 else 2
  }

  ghost function ShapeOf(x: Json): int {
    match x case Null => 0 case Bool(_) => 1 case Num(_) => 2 case Str(_) => 3 case Arr(_) => 4 case Obj(_) => 5
  }

  lemma FirstChar(x: Json)
    ensures Canonical(x) != "" && Shape(Canonical(x)[0]) == ShapeOf(x)
    ensures !Delimiter(Canonical(x))
  {
  }

  /** Canonical texts are self-delimiting: where two of them start the same string, they are the
      texts of equivalent values and what follows is the same. */
  lemma {:induction false} UniqueSplit(a: Json, b: Json, s: string, t: string)
    requires WellFormed(a) && WellFormed(b) && Delimiter(s) && Delimiter(t)
    requires Canonical(a) + s == Canonical(b) + t
    ensures Equiv(a, b) && Canonical(a) == Canonical(b) && s == t
    decreases a, 1
  {
    FirstChar(a);
    FirstChar(b);
    assert (Canonical(a) + s)[0] == Canonical(a)[0] && (Canonical(b) + t)[0] == Canonical(b)[0];
    assert ShapeOf(a) == ShapeOf(b);
    match a {
      case Null => SameLength("null", "null", s, t);
      case Bool(x) =>
        SameLength(Canonical(a), Canonical(b), s, t);
      case Num(n) => NumberUnique(n, b.n, s, t);
      case Str(x) => QuoteUnique(x, b.s, s, t);
      case Arr(items) =>
        Uncons('[', Canonical(a) + s, Elements(items) + ("]" + s));
        Uncons('[', Canonical(b) + t, Elements(b.items) + ("]" + t));
        ElementsUnique(items, b.items, "]" + s, "]" + t);
        SameLength("]", "]", s, t);
      case Obj(ms) => ObjectUnique(ms, b.members, s, t);
    }
  }

  lemma SameLength(u: string, v: string, s: string, t: string)
    requires u + s == v + t && |u| == |v|
    ensures u == v && s == t
  {
    assert u == (u + s)[..|u|] && v == (v + t)[..|v|];
    assert s == (u + s)[|u|..] && t == (v + t)[|v|..];
  }

  lemma ObjectSplit(ms: seq<Member>, s: string)
    ensures Canonical(Obj(ms)) + s == "{" + (JoinFields(SortFields(Fields(ms))) + ("}" + s))
  {
  }

  lemma {:induction false} ObjectUnique(ms: seq<Member>, ns: seq<Member>, s: string, t: string)
    requires WellFormed(Obj(ms)) && WellFormed(Obj(ns)) && Delimiter(s) && Delimiter(t)
    requires Canonical(Obj(ms)) + s == Canonical(Obj(ns)) + t
    ensures Equiv(Obj(ms), Obj(ns)) && Canonical(Obj(ms)) == Canonical(Obj(ns)) && s == t
    decreases ms, 2
  {
    var fs, gs := SortFields(Fields(ms)), SortFields(Fields(ns));
    ObjectSplit(ms, s);
    ObjectSplit(ns, t);
    SameLength("{", "{", JoinFields(fs) + ("}" + s), JoinFields(gs) + ("}" + t));
    SortFieldsSorts(Fields(ms));
    SortFieldsSorts(Fields(ns));
    FieldsUnique(ms, ns, fs, gs, "}" + s, "}" + t);
    SameLength("}", "}", s, t);
    forall f ensures f in Fields(ms) <==> f in Fields(ns) {
      assert f in Fields(ms) <==> f in fs;
      assert f in Fields(ns) <==> f in gs;
    }
    ObjectsEquiv(ms, ns);
  }

  lemma FirstElementChar(xs: seq<Json>, s: string)
    requires s != "" && s[0] == ']'
    ensures xs == [] <==> (Elements(xs) + s)[0] == ']'
  {
    if xs != [] {
      FirstChar(xs[0]);
      assert (Elements(xs) + s)[0] == Canonical(xs[0])[0];
    }
  }

  lemma {:induction false} ElementsUnique(xs: seq<Json>, ys: seq<Json>, s: string, t: string)
    requires forall i :: 0 <= i < |xs| ==> WellFormed(xs[i])
    requires forall i :: 0 <= i < |ys| ==> WellFormed(ys[i])
    requires s != "" && t != "" && s[0] == t[0] == ']'
    requires Elements(xs) + s == Elements(ys) + t
    ensures |xs| == |ys| && Elements(xs) == Elements(ys) && s == t
    ensures forall i :: 0 <= i < |xs| ==> Equiv(xs[i], ys[i])
    decreases xs, 0
  {
    hide Canonical, Equiv, WellFormed;
    FirstElementChar(xs, s);
    FirstElementChar(ys, t);
    if xs == [] {
      assert "" + s == s && "" + t == t;
    } else {
      ElementsFirst(xs, s);
      ElementsFirst(ys, t);
      UniqueSplit(xs[0], ys[0], AfterElement(xs, s), AfterElement(ys, t));
      if |xs| > 1 {
        SameLength(",", ",", Elements(xs[1..]) + s, Elements(ys[1..]) + t);
        ElementsUnique(xs[1..], ys[1..], s, t);
      }
      hide Delimiter;
      EquivCons(xs, ys);
    }
  }

  lemma EquivCons(xs: seq<Json>, ys: seq<Json>)
    requires xs != [] && |xs| == |ys| && Equiv(xs[0], ys[0])
    requires forall i :: 0 <= i < |xs[1..]| ==> Equiv(xs[1..][i], ys[1..][i])
    ensures forall i :: 0 <= i < |xs| ==> Equiv(xs[i], ys[i])
  {
    hide Equiv;
    forall i | 1 <= i < |xs| ensures Equiv(xs[i], ys[i]) {
      assert xs[1..][i - 1] == xs[i] && ys[1..][i - 1] == ys[i];
    }
  }

  /** What follows the first of the elements. */
  ghost function AfterElement(xs: seq<Json>, s: string): string
    requires xs != []
  {
    if |xs| == 1 then s else "," + (Elements(xs[1..]) + s)
  }

  lemma ElementsFirst(xs: seq<Json>, s: string)
    requires xs != [] && s != "" && s[0] == ']'
    ensures Elements(xs) + s == Canonical(xs[0]) + AfterElement(xs, s)
    ensures Delimiter(AfterElement(xs, s)) && AfterElement(xs, s) != ""
  {
    hide Canonical;
    if |xs| > 1 { Glue(Canonical(xs[0]), Elements(xs[1..]), s); }
  }

  /** The fields are the serialised members of an object. */
  ghost predicate Drawn(fs: seq<Field>, ms: seq<Member>) {
    forall i :: 0 <= i < |fs| ==> fs[i] in Fields(ms)
  }

  /** What follows the first field of a joined list. */
  ghost function AfterFirst(fs: seq<Field>, s: string): string
    requires fs != []
  {
    if |fs| == 1 then s else "," + (JoinFields(fs[1..]) + s)
  }

  lemma FieldStarts(f: Field, s: string)
    ensures FieldText(f) + s != "" && (FieldText(f) + s)[0] == '\"'
  {
    hide EscapeAll;
    FieldSplit(f, s);
  }

  lemma JoinFirst(fs: seq<Field>, s: string)
    requires fs != [] && s != ""
    ensures JoinFields(fs) + s == FieldText(fs[0]) + AfterFirst(fs, s)
  {
    hide FieldText;
    if |fs| > 1 { Glue(FieldText(fs[0]), JoinFields(fs[1..]), s); }
  }

  lemma Glue(a: string, b: string, s: string)
    ensures (a + "," + b) + s == a + ("," + (b + s))
  {
  }

  lemma JoinSplit(fs: seq<Field>, s: string)
    requires s != "" && s[0] == '}'
    ensures (JoinFields(fs) + s)[0] == (if fs == [] then '}' else '\"')
    ensures fs != [] ==> JoinFields(fs) + s == FieldText(fs[0]) + AfterFirst(fs, s)
    ensures fs != [] ==> Delimiter(AfterFirst(fs, s)) && AfterFirst(fs, s) != ""
  {
    if fs == [] {
      assert JoinFields(fs) + s == s;
    } else {
      JoinFirst(fs, s);
      FieldStarts(fs[0], AfterFirst(fs, s));
    }
  }

  lemma JoinNone(s: string)
    ensures JoinFields([]) + s == s
  {
  }

  lemma AfterFirstUnique(fs: seq<Field>, gs: seq<Field>, s: string, t: string)
    requires fs != [] && gs != [] && s != "" && t != "" && s[0] == t[0] == '}'
    requires AfterFirst(fs, s) == AfterFirst(gs, t)
    ensures |fs| == 1 <==> |gs| == 1
    ensures if |fs| == 1 then s == t else JoinFields(fs[1..]) + s == JoinFields(gs[1..]) + t
  {
    hide JoinFields;
    if |fs| > 1 && |gs| > 1 { SameLength(",", ",", JoinFields(fs[1..]) + s, JoinFields(gs[1..]) + t); }
  }

  lemma DrawnCons(fs: seq<Field>, ms: seq<Member>)
    requires fs != [] && Drawn(fs, ms)
    ensures fs[0] in Fields(ms) && Drawn(fs[1..], ms)
  {
    hide Fields;
  }

  /** Field lists drawn from two objects and joined into the same text are equal. */
  lemma {:induction false} FieldsUnique(ms: seq<Member>, ns: seq<Member>, fs: seq<Field>, gs: seq<Field>,
                                        s: string, t: string)
    requires AllWellFormed(ms) && AllWellFormed(ns) && Drawn(fs, ms) && Drawn(gs, ns)
    requires s != "" && t != "" && s[0] == t[0] == '}'
    requires JoinFields(fs) + s == JoinFields(gs) + t
    ensures fs == gs && s == t
    decreases ms, 1, |fs|
  {
    hide FieldText, WellFormed, Fields, JoinFields, Delimiter, Drawn, AfterFirst;
    JoinSplit(fs, s);
    JoinSplit(gs, t);
    if fs == [] {
      JoinNone(s);
      JoinNone(t);
    } else {
      DrawnCons(fs, ms);
      DrawnCons(gs, ns);
      FieldUnique(ms, ns, fs[0], gs[0], AfterFirst(fs, s), AfterFirst(gs, t));
      AfterFirstUnique(fs, gs, s, t);
      if |fs| > 1 { FieldsUnique(ms, ns, fs[1..], gs[1..], s, t); }
      assert fs == [fs[0]] + fs[1..] && gs == [gs[0]] + gs[1..];
    }
  }

  lemma FieldSplit(f: Field, s: string)
    ensures FieldText(f) + s == Quote(f.key) + (":" + (f.text + s))
  {
    assert FieldText(f) == Quote(f.key) + ":" + f.text;
  }

  lemma {:induction false} FieldUnique(ms: seq<Member>, ns: seq<Member>, f: Field, g: Field, s: string, t: string)
    requires AllWellFormed(ms) && AllWellFormed(ns)
    requires f in Fields(ms) && g in Fields(ns) && Delimiter(s) && Delimiter(t)
    requires FieldText(f) + s == FieldText(g) + t
    ensures f == g && s == t
    decreases ms, 0
  {
    var m := MemberOf(ms, f);
    var n := MemberOf(ns, g);
    FieldSplit(f, s);
    FieldSplit(g, t);
    QuoteUnique(f.key, g.key, ":" + (f.text + s), ":" + (g.text + t));
    SameLength(":", ":", f.text + s, g.text + t);
    UniqueSplit(m.value, n.value, s, t);
  }

  /** Objects whose members have the same keys and texts are equivalent. */
  lemma {:induction false} ObjectsEquiv(ms: seq<Member>, ns: seq<Member>)
    requires AllWellFormed(ms) && AllWellFormed(ns)
    requires forall f :: f in Fields(ms) <==> f in Fields(ns)
    ensures Equiv(Obj(ms), Obj(ns))
    decreases ms, 0
  {
    forall m | m in ms ensures HasPair(m, ns) {
      FieldIn(ms, m);
      var n := MemberOf(ns, FieldOf(m));
      UniqueSplit(m.value, n.value, "", "");
      assert Paired(m, n);
    }
    forall n | n in ns ensures IsPaired(ms, n) {
      FieldIn(ns, n);
      var m := MemberOf(ms, FieldOf(n));
      UniqueSplit(m.value, n.value, "", "");
      assert Paired(m, n);
    }
  }

  /* ---------- equivalent values have the same text ---------- */

  lemma {:induction false} EquivSameText(a: Json, b: Json)
    requires WellFormed(a) && WellFormed(b) && Equiv(a, b)
    ensures Canonical(a) == Canonical(b)
    decreases a, 1
  {
    match a {
      case Arr(items) => ElementsSameText(items, b.items);
      case Obj(ms) => ObjectSameText(ms, b.members);
      case _ =>
    }
  }

  lemma {:induction false} ElementsSameText(xs: seq<Json>, ys: seq<Json>)
    requires |xs| == |ys|
    requires forall i :: 0 <= i < |xs| ==> WellFormed(xs[i]) && WellFormed(ys[i]) && Equiv(xs[i], ys[i])
    ensures Elements(xs) == Elements(ys)
    decreases xs, 0
  {
    if xs != [] {
      EquivSameText(xs[0], ys[0]);
      ElementsSameText(xs[1..], ys[1..]);
    }
  }

  lemma {:induction false} ObjectSameText(ms: seq<Member>, ns: seq<Member>)
    requires WellFormed(Obj(ms)) && WellFormed(Obj(ns)) && Equiv(Obj(ms), Obj(ns))
    ensures Canonical(Obj(ms)) == Canonical(Obj(ns))
    decreases ms, 0
  {
    assert AllWellFormed(ms) && AllWellFormed(ns);
    forall m | m in ms ensures FieldOf(m) in Fields(ns) {
      assert HasPair(m, ns);
      var n :| n in ns && Paired(m, n);
      EquivSameText(m.value, n.value);
      FieldIn(ns, n);
    }
    forall n | n in ns ensures FieldOf(n) in Fields(ms) {
      assert IsPaired(ms, n);
      var m :| m in ms && Paired(m, n);
      EquivSameText(m.value, n.value);
      FieldIn(ms, m);
    }
    SameFieldsSameText(ms, ns);
  }

  /** Objects with the same serialised members, in any order, have the same text. */
  lemma SameFieldsSameText(ms: seq<Member>, ns: seq<Member>)
    requires DistinctKeys(ms) && DistinctKeys(ns)
    requires forall m :: m in ms ==> FieldOf(m) in Fields(ns)
    requires forall n :: n in ns ==> FieldOf(n) in Fields(ms)
    ensures Canonical(Obj(ms)) == Canonical(Obj(ns))
  {
    forall f ensures f in Fields(ms) <==> f in Fields(ns) {
      if f in Fields(ms) { var m := MemberOf(ms, f); }
      if f in Fields(ns) { var n := MemberOf(ns, f); }
    }
    SortFieldsSorts(Fields(ms));
    SortFieldsSorts(Fields(ns));
    SortedUnique(SortFields(Fields(ms)), SortFields(Fields(ns)));
  }

  /* ---------- main results ---------- */

  /** Two values have the same canonical text exactly when they are equal up to member order. */
  lemma CanonicalExact(a: Json, b: Json)
    requires WellFormed(a) && WellFormed(b)
    ensures Canonical(a) == Canonical(b) <==> Equiv(a, b)
  {
    if Canonical(a) == Canonical(b) { UniqueSplit(a, b, "", ""); }
    if Equiv(a, b) { EquivSameText(a, b); }
  }

  /** Listing the members of an object in another order leaves its text unchanged. */
  lemma MemberOrderIrrelevant(ms: seq<Member>, ns: seq<Member>)
    requires WellFormed(Obj(ms)) && multiset(ms) == multiset(ns)
    ensures WellFormed(Obj(ns)) && Canonical(Obj(ms)) == Canonical(Obj(ns))
  {
    forall m ensures m in ms <==> m in ns {
      assert m in ms <==> m in multiset(ms);
      assert m in ns <==> m in multiset(ns);
    }
    PermutedDistinct(ms, ns);
    forall m | m in ms ensures FieldOf(m) in Fields(ns) { FieldIn(ns, m); }
    forall n | n in ns ensures FieldOf(n) in Fields(ms) { FieldIn(ms, n); }
    SameFieldsSameText(ms, ns);
  }

  lemma PermutedDistinct(ms: seq<Member>, ns: seq<Member>)
    requires WellFormed(Obj(ms)) && multiset(ms) == multiset(ns)
    ensures WellFormed(Obj(ns))
  {
    forall i, j | 0 <= i < j < |ns| ensures ns[i].key != ns[j].key {
      if ns[i] == ns[j] {
        AtMostOnce(ms, ns[i]);
        TwiceCounted(ns, i, j);
      } else {
        assert ns[i] in multiset(ns) && ns[j] in multiset(ns);
        assert ns[i] in ms && ns[j] in ms;
      }
    }
    forall n | n in ns ensures WellFormed(n.value) {
      assert n in multiset(ns);
      assert n in ms;
    }
  }

  lemma {:induction false} AtMostOnce(ms: seq<Member>, m: Member)
    requires DistinctKeys(ms)
    ensures multiset(ms)[m] <= 1
  {
    if ms != [] {
      AtMostOnce(ms[1..], m);
      assert ms == [ms[0]] + ms[1..];
      if m in ms[1..] { assert ms[0].key != m.key; }
    }
  }

  lemma TwiceCounted(ns: seq<Member>, i: nat, j: nat)
    requires i < j < |ns| && ns[i] == ns[j]
    ensures multiset(ns)[ns[i]] >= 2
  {
    assert ns == ns[..i] + [ns[i]] + ns[i + 1..j] + [ns[j]] + ns[j + 1..];
  }

  /* ---------- the record under a digest ---------- */

  /** The object every chain digest covers (src/store.js:71). */
  function Envelope(kind: string, body: Json): Json {
    Obj([Member("type", Str(kind)), Member("body", body)])
  }

  lemma EnvelopeWellFormed(kind: string, body: Json)
    requires WellFormed(body)
    ensures WellFormed(Envelope(kind, body))
  {
    assert "type"[0] != "body"[0];
  }

  lemma EnvelopeEquiv(kind: string, body: Json, kind': string, body': Json)
    ensures Equiv(Envelope(kind, body), Envelope(kind', body')) <==> kind == kind' && Equiv(body, body')
  {
    assert "type"[0] != "body"[0];
    var t, b := Member("type", Str(kind)), Member("body", body);
    var t', b' := Member("type", Str(kind')), Member("body", body');
    var ms, ns := [t, b], [t', b'];
    assert Paired(t, t') <==> kind == kind';
    assert Paired(b, b') <==> Equiv(body, body');
    assert !Paired(t, b') && !Paired(b, t');
    assert HasPair(t, ns) <==> Paired(t, t') by { assert t' in ns; }
    assert HasPair(b, ns) <==> Paired(b, b') by { assert b' in ns; }
    assert IsPaired(ms, t') <==> Paired(t, t') by { assert t in ms; }
    assert IsPaired(ms, b') <==> Paired(b, b') by { assert b in ms; }
    assert Equiv(Obj(ms), Obj(ns)) ==> HasPair(t, ns) && HasPair(b, ns) by { assert t in ms && b in ms; }
  }

  /** The envelope text determines the type, and the body up to member order. */
  lemma EnvelopeExact(kind: string, body: Json, kind': string, body': Json)
    requires WellFormed(body) && WellFormed(body')
    ensures Canonical(Envelope(kind, body)) == Canonical(Envelope(kind', body'))
            <==> kind == kind' && Equiv(body, body')
  {
    EnvelopeWellFormed(kind, body);
    EnvelopeWellFormed(kind', body');
    CanonicalExact(Envelope(kind, body), Envelope(kind', body'));
    EnvelopeEquiv(kind, body, kind', body');
  }

  /** The text of an envelope, to the character. */
  lemma EnvelopeText(kind: string, body: Json)
    ensures Canonical(Envelope(kind, body)) == "{\"body\":" + Canonical(body) + ",\"type\":" + Quote(kind) + "}"
  {
    var t, b := Field("type", Quote(kind)), Field("body", Canonical(body));
    EnvelopeFields(kind, body);
    hide Canonical, Fields, Quote, SortFields, JoinFields, KeyLess;
    BodyFirst();
    SortsTwo(t, b);
    JoinsTwo(b, t);
    QuotePlain();
    ObjectText([Member("type", Str(kind)), Member("body", body)]);
  }

  lemma ObjectText(ms: seq<Member>)
    ensures Canonical(Obj(ms)) == "{" + JoinFields(SortFields(Fields(ms))) + "}"
  {
  }

  lemma BodyFirst()
    ensures KeyLess("body", "type")
  {
    assert "type"[0] != "body"[0];
  }

  lemma EnvelopeFields(kind: string, body: Json)
    ensures Fields([Member("type", Str(kind)), Member("body", body)])
         == [Field("type", Quote(kind)), Field("body", Canonical(body))]
  {
    hide Quote;
    assert Canonical(Str(kind)) == Quote(kind);
  }

  lemma SortsTwo(f: Field, g: Field)
    requires KeyLess(g.key, f.key)
    ensures SortFields([f, g]) == [g, f]
  {
    KeyLessTotal(f.key, g.key);
    hide KeyLess;
    assert [f, g][1..] == [g] && [g][1..] == [];
    assert SortFields([g]) == Insert(g, []) == [g];
    assert Insert(f, []) == [f];
    assert Insert(f, [g]) == [g] + [f];
  }

  lemma JoinsTwo(f: Field, g: Field)
    ensures JoinFields([f, g]) == FieldText(f) + "," + FieldText(g)
  {
    assert [f, g][1..] == [g];
  }

  lemma QuotePlain()
    ensures Quote("body") == "\"body\"" && Quote("type") == "\"type\""
  {
    assert EscapeAll("y") == "y" && EscapeAll("e") == "e";
    assert "body"[1..] == "ody" && "ody"[1..] == "dy" && "dy"[1..] == "y";
    assert "type"[1..] == "ype" && "ype"[1..] == "pe" && "pe"[1..] == "e";
    assert EscapeAll("dy") == "dy" && EscapeAll("pe") == "pe";
    assert EscapeAll("ody") == "ody" && EscapeAll("ype") == "ype";
  }
}
