/** The two-row edit distance of src/bridge.js, which decides the fuzzy repairs the bridge offers. */
module EditDistance {
  /* An edit script turns one string into another, left to right, at a cost of one for each insertion,
     deletion or substitution. The dynamic program returns the least cost of any script. */

  import opened Options

  datatype Edit = Keep | Replace(to: char) | Insert(c: char) | Delete

  function Front(s: string): string
    requires s != ""
  {
    s[..|s| - 1]
  }

  function Last(s: string): char
    requires s != ""
  {
    s[|s| - 1]
  }

  function Extend(s: Option<string>, c: char): Option<string> {
    if s.None? then None else Some(s.value + [c])
  }

  /** What a script makes of `a`, when it consumes all of it and no more. */
  function Apply(script: seq<Edit>, a: string): Option<string> {
    if script == [] then (if a == "" then Some("") else None)
    else
      var before := script[..|script| - 1];
      match script[|script| - 1]
      case Keep => if a == "" then None else Extend(Apply(before, Front(a)), Last(a))
      case Replace(to) => if a == "" then None else Extend(Apply(before, Front(a)), to)
      case Insert(c) => Extend(Apply(before, a), c)
      case Delete => if a == "" then None else Apply(before, Front(a))
  }

  function Cost(script: seq<Edit>): nat {
    if script == [] then 0
    else Cost(script[..|script| - 1]) + (if script[|script| - 1].Keep? then 0 else 1)
  }

  function Min(x: nat, y: nat): nat {
    if x < y then x else y
  }

  /** The recurrence the table is filled by. */
  function Distance(a: string, b: string): nat
    decreases |a| + |b|
  {
    if a == "" then |b|
    else if b == "" then |a|
    else Min(Min(Distance(Front(a), b) + 1, Distance(a, Front(b)) + 1),
             Distance(Front(a), Front(b)) + (if Last(a) == Last(b) then 0 else 1))
  }

  /* ---------- the dynamic program ---------- */

  /** Row i of the table, up to column n. */
  ghost predicate IsRow(row: seq<nat>, a: string, b: string, i: nat, n: nat)
    requires i <= |a| && n <= |b|
  {
    |row| == n + 1 && forall j :: 0 <= j <= n ==> row[j] == Distance(a[..i], b[..j])
  }

  lemma CellStep(a: string, b: string, i: nat, j: nat)
    requires 1 <= i <= |a| && 1 <= j <= |b|
    ensures Distance(a[..i], b[..j]) ==
              Min(Min(Distance(a[..i - 1], b[..j]) + 1, Distance(a[..i], b[..j - 1]) + 1),
                  Distance(a[..i - 1], b[..j - 1]) + (if a[i - 1] == b[j - 1] then 0 else 1))
  {
    assert Front(a[..i]) == a[..i - 1] && Front(b[..j]) == b[..j - 1];
    assert Last(a[..i]) == a[i - 1] && Last(b[..j]) == b[j - 1];
  }

  lemma Borders(a: string, b: string, i: nat, j: nat)
    requires i <= |a| && j <= |b|
    ensures Distance(a[..0], b[..j]) == j && Distance(a[..i], b[..0]) == i
  {
  }

  method ComputeDistance(a: string, b: string) returns (d: nat)
    ensures d == Distance(a, b)
  {
    hide Distance;
    var m, n := |a|, |b|;
    var prev: seq<nat> := [];
    var k := 0;
    while k <= n
      invariant 0 <= k <= n + 1 && |prev| == k
      invariant forall j :: 0 <= j < k ==> prev[j] == Distance(a[..0], b[..j])
    {
      Borders(a, b, 0, k);
      prev := prev + [k];
      k := k + 1;
    }
    var i := 1;
    while i <= m
      invariant 1 <= i <= m + 1
      invariant IsRow(prev, a, b, i - 1, n)
    {
      var cur: seq<nat> := [i];
      var j := 1;
      Borders(a, b, i, 0);
      while j <= n
        invariant 1 <= j <= n + 1
        invariant IsRow(cur, a, b, i, j - 1)
      {
        CellStep(a, b, i, j);
        cur := cur + [Min(Min(prev[j] + 1, cur[j - 1] + 1), prev[j - 1] + (if a[i - 1] == b[j - 1] then 0 else 1))];
        j := j + 1;
      }
      prev := cur;
      i := i + 1;
    }
    assert a[..m] == a && b[..n] == b;
    d := prev[n];
  }

  /* ---------- least cost ---------- */

  lemma ScriptSnoc(script: seq<Edit>, e: Edit)
    ensures (script + [e])[..|script|] == script && (script + [e])[|script|] == e
    ensures Cost(script + [e]) == Cost(script) + (if e.Keep? then 0 else 1)
  {
    assert (script + [e])[..|script|] == script;
  }

  lemma Rejoin(s: string)
    requires s != ""
    ensures Front(s) + [Last(s)] == s
  {
  }

  /** Some script reaches the distance. */
  lemma {:induction false} DistanceReached(a: string, b: string) returns (script: seq<Edit>)
    ensures Apply(script, a) == Some(b) && Cost(script) == Distance(a, b)
    decreases |a| + |b|
  {
    if a == "" && b == "" {
      script := [];
    } else if a == "" || (b != "" && Distance(a, b) == Distance(a, Front(b)) + 1) {
      Rejoin(b);
      var before := DistanceReached(a, Front(b));
      script := before + [Insert(Last(b))];
      ScriptSnoc(before, Insert(Last(b)));
    } else if b == "" || Distance(a, b) == Distance(Front(a), b) + 1 {
      var before := DistanceReached(Front(a), b);
      script := before + [Delete];
      ScriptSnoc(before, Delete);
    } else {
      Rejoin(b);
      var before := DistanceReached(Front(a), Front(b));
      var e := if Last(a) == Last(b) then Keep else Replace(Last(b));
      script := before + [e];
      ScriptSnoc(before, e);
    }
  }

  lemma DistanceStep(a: string, b: string)
    ensures a != "" ==> Distance(a, b) <= Distance(Front(a), b) + 1
    ensures b != "" ==> Distance(a, b) <= Distance(a, Front(b)) + 1
    ensures a != "" && b != "" ==>
              Distance(a, b) <= Distance(Front(a), Front(b)) + (if Last(a) == Last(b) then 0 else 1)
  {
  }

  /** No script costs less. */
  lemma {:induction false} DistanceMinimal(script: seq<Edit>, a: string, b: string)
    requires Apply(script, a) == Some(b)
    ensures Distance(a, b) <= Cost(script)
    decreases |script|
  {
    if script != [] {
      var before, e := script[..|script| - 1], script[|script| - 1];
      DistanceStep(a, b);
      match e {
        case Keep => Unextend(Apply(before, Front(a)), Last(a), b); DistanceMinimal(before, Front(a), Front(b));
        case Replace(to) => Unextend(Apply(before, Front(a)), to, b); DistanceMinimal(before, Front(a), Front(b));
        case Insert(c) => Unextend(Apply(before, a), c, b); DistanceMinimal(before, a, Front(b));
        case Delete => DistanceMinimal(before, Front(a), b);
      }
    }
  }

  lemma Unextend(s: Option<string>, c: char, b: string)
    requires Extend(s, c) == Some(b)
    ensures b != "" && Last(b) == c && s == Some(Front(b))
  {
    assert b == s.value + [c];
  }

  /** The program returns the least cost of turning `a` into `b`. */
  lemma DistanceIsLeastCost(a: string, b: string)
    ensures exists script :: Apply(script, a) == Some(b) && Cost(script) == Distance(a, b)
    ensures forall script :: Apply(script, a) == Some(b) ==> Distance(a, b) <= Cost(script)
  {
    var script := DistanceReached(a, b);
    forall s | Apply(s, a) == Some(b) ensures Distance(a, b) <= Cost(s) { DistanceMinimal(s, a, b); }
  }

  /* ---------- a metric ---------- */

  lemma {:induction false} DistanceZero(a: string, b: string)
    ensures Distance(a, b) == 0 <==> a == b
    decreases |a| + |b|
  {
    if a != "" && b != "" {
      Rejoin(a);
      Rejoin(b);
      DistanceZero(Front(a), Front(b));
    }
  }

  lemma {:induction false} DistanceSymmetric(a: string, b: string)
    ensures Distance(a, b) == Distance(b, a)
    decreases |a| + |b|
  {
    if a != "" && b != "" {
      DistanceSymmetric(Front(a), b);
      DistanceSymmetric(a, Front(b));
      DistanceSymmetric(Front(a), Front(b));
    }
  }

  /** One edit after another on the same character. */
  function Fuse(first: Edit, second: Edit): seq<Edit> {
    match second
    case Delete => if first.Insert? then [] else [Delete]
    case Replace(to) => if first.Insert? then [Insert(to)] else [Replace(to)]
    case _ => [first]
  }

  /** One script after another. */
  lemma {:induction false} Compose(s: seq<Edit>, t: seq<Edit>, a: string, b: string, c: string) returns (u: seq<Edit>)
    requires Apply(s, a) == Some(b) && Apply(t, b) == Some(c)
    ensures Apply(u, a) == Some(c) && Cost(u) <= Cost(s) + Cost(t)
    decreases |s| + |t|
  {
    if t != [] && t[|t| - 1].Insert? {
      var x := t[|t| - 1].c;
      Unextend(Apply(t[..|t| - 1], b), x, c);
      var before := Compose(s, t[..|t| - 1], a, b, Front(c));
      Rejoin(c);
      u := before + [Insert(x)];
      ScriptSnoc(before, Insert(x));
    } else if s != [] && s[|s| - 1].Delete? {
      var before := Compose(s[..|s| - 1], t, Front(a), b, c);
      u := before + [Delete];
      ScriptSnoc(before, Delete);
    } else if s == [] {
      assert t == [];
      u := [];
    } else {
      u := ComposeLast(s, t, a, b, c);
    }
  }

  lemma {:induction false} ComposeLast(s: seq<Edit>, t: seq<Edit>, a: string, b: string, c: string)
    returns (u: seq<Edit>)
    requires Apply(s, a) == Some(b) && Apply(t, b) == Some(c)
    requires s != [] && !s[|s| - 1].Delete? && (t == [] || !t[|t| - 1].Insert?)
    ensures Apply(u, a) == Some(c) && Cost(u) <= Cost(s) + Cost(t)
    decreases |s| + |t|, 0
  {
    var s', e := s[..|s| - 1], s[|s| - 1];
    var a' := if e.Insert? then a else Front(a);
    Unextend(Apply(s', a'), if e.Keep? then Last(a) else if e.Replace? then e.to else e.c, b);
    assert t != [];
    var t', f := t[..|t| - 1], t[|t| - 1];
    var c' := c;
    if !f.Delete? {
      Unextend(Apply(t', Front(b)), if f.Keep? then Last(b) else f.to, c);
      Rejoin(c);
      c' := Front(c);
    }
    var before := Compose(s', t', a', Front(b), c');
    u := before + Fuse(e, f);
    if Fuse(e, f) == [] {
      assert u == before;
    } else {
      assert Fuse(e, f) == [Fuse(e, f)[0]];
      ScriptSnoc(before, Fuse(e, f)[0]);
    }
  }

  lemma DistanceTriangle(a: string, b: string, c: string)
    ensures Distance(a, c) <= Distance(a, b) + Distance(b, c)
  {
    var s := DistanceReached(a, b);
    var t := DistanceReached(b, c);
    var u := Compose(s, t, a, b, c);
    DistanceMinimal(u, a, c);
  }
}
