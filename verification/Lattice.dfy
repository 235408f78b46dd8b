/** Governed dimensions and the two walks up their parent maps: the bridge's `ancestors`
    (src/bridge.js:163-170) and the graph's `covers` (src/graph.js:328-347). A parent map may be
    cyclic; both walks stop at the first value seen twice. */
module Lattice {
  import opened Options

  type Parents = map<string, string>

  datatype Containment = Membership | Ancestry | Custom(contains: (string, string) -> bool)

  datatype Dimension = Dimension(containment: Containment, parents: Option<Parents>)

  type Dimensions = map<string, Dimension>

  /** An empty parent ends the walk like a missing one. */
  predicate HasParent(parents: Parents, v: string) {
    v in parents && parents[v] != ""
  }

  /** The value n steps up, if the walk gets that far. */
  function Up(parents: Parents, v: string, n: nat): Option<string> {
    if n == 0 then Some(v)
    else
      var below := Up(parents, v, n - 1);
      if below.Some? && HasParent(parents, below.value) then Some(parents[below.value]) else None
  }

  /** A step up goes to the parent the map gives, if it gives one that is not empty. */
  lemma StepUpExact(parents: Parents, v: string, n: nat, x: string)
    ensures Up(parents, v, 0) == Some(v)
    ensures Up(parents, v, n + 1) == Some(x) <==>
              exists y :: Up(parents, v, n) == Some(y) && y in parents && parents[y] == x && x != ""
  {
  }

  /** x lies strictly above v. */
  ghost predicate Above(parents: Parents, v: string, x: string) {
    exists n :: n >= 1 && Up(parents, v, n) == Some(x)
  }

  /** What the walk visits from v on, having seen some values already. */
  function Visits(parents: Parents, v: string, seen: set<string>): seq<string>
    decreases parents.Keys - seen
  {
    if HasParent(parents, v) && v !in seen then [parents[v]] + Visits(parents, parents[v], seen + {v}) else []
  }

  lemma {:induction false} UpShift(parents: Parents, v: string, n: nat)
    requires HasParent(parents, v)
    ensures Up(parents, v, n + 1) == Up(parents, parents[v], n)
  {
    if n > 0 { UpShift(parents, v, n - 1); }
  }

  lemma {:induction false} VisitsAbove(parents: Parents, v: string, seen: set<string>, x: string)
    requires x in Visits(parents, v, seen)
    ensures Above(parents, v, x)
    decreases parents.Keys - seen
  {
    var p := parents[v];
    if x == p {
      UpShift(parents, v, 0);
      assert Up(parents, v, 1) == Some(x);
    } else {
      VisitsAbove(parents, p, seen + {v}, x);
      var n :| n >= 1 && Up(parents, p, n) == Some(x);
      UpShift(parents, v, n);
      assert Up(parents, v, n + 1) == Some(x);
    }
  }

  /** A walk that has come from v to c has visited everything v visits up to there, and will visit the
      rest; so nothing above v is missed, on a cycle either. */
  lemma {:induction false} AboveVisited(parents: Parents, v: string, seen: set<string>, n: nat, x: string)
    requires n >= 1 && Up(parents, v, n) == Some(x)
    requires forall k :: 0 <= k < n ==> Up(parents, v, k).Some? && Up(parents, v, k).value !in seen
    requires forall j, k :: 0 <= j < k < n ==> Up(parents, v, j) != Up(parents, v, k)
    ensures x in Visits(parents, v, seen)
    decreases n
  {
    assert Up(parents, v, 0) == Some(v);
    UpDefined(parents, v, 1, n);
    if n > 1 {
      var p := parents[v];
      forall k | 0 <= k < n - 1
        ensures Up(parents, p, k).Some? && Up(parents, p, k).value !in seen + {v}
      {
        UpShift(parents, v, k);
        assert Up(parents, v, 0) != Up(parents, v, k + 1);
      }
      forall j, k | 0 <= j < k < n - 1 ensures Up(parents, p, j) != Up(parents, p, k) {
        UpShift(parents, v, j);
        UpShift(parents, v, k);
      }
      UpShift(parents, v, n - 1);
      AboveVisited(parents, p, seen + {v}, n - 1, x);
    }
  }

  lemma {:induction false} UpDefined(parents: Parents, v: string, k: nat, n: nat)
    requires k <= n && Up(parents, v, n).Some?
    ensures Up(parents, v, k).Some?
    decreases n - k
  {
    if k < n { UpDefined(parents, v, k + 1, n); }
  }

  /** The least number of steps from v to x repeats no value on the way. */
  lemma {:induction false} ShortestUp(parents: Parents, v: string, n: nat, x: string) returns (m: nat)
    requires n >= 1 && Up(parents, v, n) == Some(x)
    ensures 1 <= m <= n && Up(parents, v, m) == Some(x)
    ensures forall j, k :: 0 <= j < k < m ==> Up(parents, v, j) != Up(parents, v, k)
    decreases n
  {
    if j, k :| 0 <= j < k < n && Up(parents, v, j) == Up(parents, v, k) {
      UpSkip(parents, v, j, k, n - k);
      m := ShortestUp(parents, v, j + (n - k), x);
    } else {
      m := n;
    }
  }

  lemma {:induction false} UpSkip(parents: Parents, v: string, j: nat, k: nat, d: nat)
    requires Up(parents, v, j) == Up(parents, v, k)
    ensures Up(parents, v, j + d) == Up(parents, v, k + d)
  {
    if d > 0 { UpSkip(parents, v, j, k, d - 1); }
  }

  /** The walk visits exactly the values above v. */
  lemma VisitsExact(parents: Parents, v: string, x: string)
    ensures x in Visits(parents, v, {}) <==> Above(parents, v, x)
  {
    if x in Visits(parents, v, {}) { VisitsAbove(parents, v, {}, x); }
    if Above(parents, v, x) {
      var n :| n >= 1 && Up(parents, v, n) == Some(x);
      var m := ShortestUp(parents, v, n, x);
      forall k | 0 <= k < m ensures Up(parents, v, k).Some? { UpDefined(parents, v, k, m); }
      AboveVisited(parents, v, {}, m, x);
    }
  }

  /* ---------- ancestors ---------- */

  function AncestorsOf(dims: Dimensions, dimension: string, v: string): seq<string> {
    if dimension in dims && dims[dimension].parents.Some? then Visits(dims[dimension].parents.value, v, {}) else []
  }

  method Ancestors(dims: Dimensions, dimension: string, value: string) returns (out: seq<string>)
    ensures out == AncestorsOf(dims, dimension, value)
  {
    out := [];
    if dimension !in dims || dims[dimension].parents.None? { return; }
    var parents := dims[dimension].parents.value;
    var cur, seen := value, {};
    assert [] + Visits(parents, cur, seen) == Visits(parents, cur, seen);
    while HasParent(parents, cur) && cur !in seen
      invariant out + Visits(parents, cur, seen) == Visits(parents, value, {})
      decreases parents.Keys - seen
    {
      assert out + Visits(parents, cur, seen) == (out + [parents[cur]]) + Visits(parents, parents[cur], seen + {cur});
      seen := seen + {cur};
      cur := parents[cur];
      out := out + [cur];
    }
  }

  /* ---------- covers ---------- */

  /** A granted value, "*", what a custom dimension contains, or a value below a granted one. */
  ghost predicate IsCovered(dims: Dimensions, dimension: string, granted: set<string>, v: string) {
    || "*" in granted
    || v in granted
    || (dimension in dims
        && match dims[dimension].containment
           case Custom(contains) => exists g :: g in granted && contains(g, v)
           case Ancestry => dims[dimension].parents.Some?
                            && exists x :: x in granted && Above(dims[dimension].parents.value, v, x)
           case Membership => false)
  }

  method Covers(dims: Dimensions, dimension: string, granted: set<string>, value: string) returns (yes: bool)
    ensures yes <==> IsCovered(dims, dimension, granted, value)
  {
    if "*" in granted { return true; }
    if value in granted { return true; }
    if dimension !in dims { return false; }
    var d := dims[dimension];
    match d.containment {
      case Custom(contains) =>
        var rest := granted;
        while rest != {}
          invariant rest <= granted
          invariant forall g :: g in granted && g !in rest ==> !contains(g, value)
        {
          var g :| g in rest;
          if contains(g, value) { return true; }
          rest := rest - {g};
        }
        return false;
      case Ancestry =>
        if d.parents.None? { return false; }
        yes := CoveredAbove(d.parents.value, granted, value);
      case Membership => return false;
    }
  }

  method CoveredAbove(parents: Parents, granted: set<string>, value: string) returns (yes: bool)
    ensures yes <==> exists x :: x in granted && Above(parents, value, x)
  {
    var cur, seen := value, {};
    ghost var all := Visits(parents, value, {});
    ghost var passed: seq<string> := [];
    assert passed + Visits(parents, cur, seen) == Visits(parents, cur, seen);
    while HasParent(parents, cur) && cur !in seen
      invariant passed + Visits(parents, cur, seen) == all
      invariant forall x :: x in passed ==> x !in granted
      decreases parents.Keys - seen
    {
      assert passed + Visits(parents, cur, seen)
             == (passed + [parents[cur]]) + Visits(parents, parents[cur], seen + {cur});
      seen := seen + {cur};
      cur := parents[cur];
      passed := passed + [cur];
      if cur in granted {
        assert cur in passed && cur in all;
        VisitsExact(parents, value, cur);
        return true;
      }
    }
    forall x | x in granted ensures !Above(parents, value, x) { VisitsExact(parents, value, x); }
    return false;
  }
}
