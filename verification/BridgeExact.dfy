/** Exactly what the bridge makes of an answer (src/bridge.js:172-210). */
module BridgeExact {
  /* Every outcome of `Project`, and the condition on the admissible list under which it comes about. The
     conditions speak of entries by their position, as the list may hold one value twice. */

  import opened Bridge
  import opened EditDistance
  import opened Lattice
  import opened Options
  import opened Trie

  /* ---------- conditions ---------- */

  /** The value c is k steps up from v in the dimension of the plan. */
  ghost predicate StepsUp(s: Settings, plan: Plan, v: string, k: nat, c: string) {
    && plan.dimension.Some? && plan.dimension.value in s.dims && s.dims[plan.dimension.value].parents.Some?
    && Up(s.dims[plan.dimension.value].parents.value, v, k) == Some(c)
  }

  ghost predicate LiesUnder(s: Settings, plan: Plan, v: string, c: string) {
    exists k :: k >= 1 && StepsUp(s, plan, v, k, c)
  }

  /** The nearest admissible value above v. */
  ghost predicate NearestCover(s: Settings, plan: Plan, v: string, c: string) {
    exists k :: k >= 1 && CoverAt(s, plan, v, k, c)
  }

  ghost predicate CoverAt(s: Settings, plan: Plan, v: string, k: nat, c: string) {
    && StepsUp(s, plan, v, k, c) && c in plan.admissible
    && forall j, d :: 1 <= j < k && StepsUp(s, plan, v, j, d) ==> d !in plan.admissible
  }

  /** No admissible value lies above v. */
  ghost predicate Uncovered(s: Settings, plan: Plan, v: string) {
    forall c :: c in plan.admissible ==> !LiesUnder(s, plan, v, c)
  }

  /** Entry i is the first one that lies under v. */
  ghost predicate FirstUnder(s: Settings, plan: Plan, v: string, i: int) {
    && 0 <= i < |plan.admissible| && LiesUnder(s, plan, plan.admissible[i], v)
    && forall j :: 0 <= j < i ==> !LiesUnder(s, plan, plan.admissible[j], v)
  }

  /** v broadens an entry, by name: the first entry under it is not the empty string. */
  ghost predicate Broadens(s: Settings, plan: Plan, v: string, g: string) {
    g != "" && exists i :: FirstUnder(s, plan, v, i) && plan.admissible[i] == g
  }

  /** The answer is not an abstention nor an entry, and more than an exact match is asked for. */
  ghost predicate Open(s: Settings, plan: Plan, v: string) {
    v != ABSTAIN && v !in plan.admissible && !s.strictness.ExactOnly?
  }

  /** The lattice says nothing about the answer and repairs are allowed. */
  ghost predicate Repairable(s: Settings, plan: Plan, v: string) {
    Open(s, plan, v) && s.strictness.Fuzzy? && Uncovered(s, plan, v) && !exists g :: Broadens(s, plan, v, g)
  }

  ghost predicate SameForm(s: Settings, plan: Plan, v: string, i: int) {
    0 <= i < |plan.admissible| && s.norm(plan.admissible[i]) == s.norm(v)
  }

  /** Entry i and no other has the normal form of v. */
  ghost predicate OnlyForm(s: Settings, plan: Plan, v: string, i: int) {
    SameForm(s, plan, v, i) && forall j :: SameForm(s, plan, v, j) ==> j == i
  }

  ghost predicate TwoForms(s: Settings, plan: Plan, v: string) {
    exists i, j :: i != j && SameForm(s, plan, v, i) && SameForm(s, plan, v, j)
  }

  ghost predicate NoForm(s: Settings, plan: Plan, v: string) {
    forall i :: !SameForm(s, plan, v, i)
  }

  function Away(s: Settings, plan: Plan, v: string, i: int): nat
    requires 0 <= i < |plan.admissible|
  {
    Distance(s.norm(v), s.norm(plan.admissible[i]))
  }

  /** Entry i is within reach and no entry is nearer. */
  ghost predicate Nearest(s: Settings, plan: Plan, v: string, i: int) {
    && 0 <= i < |plan.admissible| && Away(s, plan, v, i) <= s.maxEdit
    && forall j :: 0 <= j < |plan.admissible| ==> Away(s, plan, v, i) <= Away(s, plan, v, j)
  }

  ghost predicate OnlyNearest(s: Settings, plan: Plan, v: string, i: int) {
    Nearest(s, plan, v, i) && forall j :: Nearest(s, plan, v, j) ==> j == i
  }

  ghost predicate TwoNearest(s: Settings, plan: Plan, v: string) {
    exists i, j :: i != j && Nearest(s, plan, v, i) && Nearest(s, plan, v, j)
  }

  /** Two entries have the normal form of v; or, in an enum slot, none has and two are nearest. */
  ghost predicate Tied(s: Settings, plan: Plan, v: string) {
    TwoForms(s, plan, v) || (plan.kind.EnumSlot? && NoForm(s, plan, v) && TwoNearest(s, plan, v))
  }

  /** Every entry that a refused answer was tied between, and no other. */
  ghost predicate TiedBetween(s: Settings, plan: Plan, v: string, xs: seq<string>) {
    forall x :: x in xs <==>
      exists i :: 0 <= i < |plan.admissible| && plan.admissible[i] == x
                  && (if TwoForms(s, plan, v) then SameForm(s, plan, v, i) else Nearest(s, plan, v, i))
  }

  /* ---------- the walk goes step by step ---------- */

  lemma {:induction false} VisitsInOrder(parents: Parents, v: string, seen: set<string>, k: nat)
    requires k < |Visits(parents, v, seen)|
    ensures Up(parents, v, k + 1) == Some(Visits(parents, v, seen)[k])
    decreases k
  {
    var p := parents[v];
    if k == 0 {
      assert Up(parents, v, 0) == Some(v);
    } else {
      VisitsInOrder(parents, p, seen + {v}, k - 1);
      UpShift(parents, v, k);
    }
  }

  lemma AncestorsAre(s: Settings, plan: Plan, v: string, c: string)
    requires plan.dimension.Some?
    ensures c in AncestorsOf(s.dims, plan.dimension.value, v) <==> LiesUnder(s, plan, v, c)
  {
    var d := plan.dimension.value;
    if d in s.dims && s.dims[d].parents.Some? {
      var parents := s.dims[d].parents.value;
      VisitsExact(parents, v, c);
      assert Above(parents, v, c) <==> LiesUnder(s, plan, v, c) by {
        if Above(parents, v, c) {
          var n :| n >= 1 && Up(parents, v, n) == Some(c);
          assert StepsUp(s, plan, v, n, c);
        }
      }
    }
  }

  /** Array.find finds the first. */
  lemma {:induction false} FindsFirst(p: string -> bool, xs: seq<string>, i: int)
    requires 0 <= i < |xs| && p(xs[i]) && forall j :: 0 <= j < i ==> !p(xs[j])
    ensures Find(p, xs) == Some(xs[i])
    decreases |xs|
  {
    if i > 0 { FindsFirst(p, xs[1..], i - 1); }
  }

  lemma {:induction false} FirstFound(p: string -> bool, xs: seq<string>) returns (i: int)
    requires Find(p, xs).Some?
    ensures 0 <= i < |xs| && p(xs[i]) && (forall j :: 0 <= j < i ==> !p(xs[j])) && Find(p, xs) == Some(xs[i])
    decreases |xs|
  {
    if p(xs[0]) {
      i := 0;
    } else {
      i := FirstFound(p, xs[1..]);
      i := i + 1;
      assert forall j :: 1 <= j < i ==> xs[j] == xs[1..][j - 1];
    }
  }

  /* ---------- the lattice rules ---------- */

  lemma CoverFound(s: Settings, plan: Plan, v: string)
    ensures CoveringAncestor(s, plan, v).None? <==> Uncovered(s, plan, v)
    ensures CoveringAncestor(s, plan, v).Some? ==> NearestCover(s, plan, v, CoveringAncestor(s, plan, v).value)
  {
    var covering := CoveringAncestor(s, plan, v);
    if plan.dimension.Some? {
      forall c ensures c in AncestorsOf(s.dims, plan.dimension.value, v) <==> LiesUnder(s, plan, v, c) {
        AncestorsAre(s, plan, v, c);
      }
      if covering.Some? { CoverIsNearest(s, plan, v); }
    }
  }

  lemma CoverIsNearest(s: Settings, plan: Plan, v: string)
    requires CoveringAncestor(s, plan, v).Some?
    ensures NearestCover(s, plan, v, CoveringAncestor(s, plan, v).value)
  {
    var p := (x: string) => x in plan.admissible;
    var above := AncestorsOf(s.dims, plan.dimension.value, v);
    var parents := s.dims[plan.dimension.value].parents.value;
    var i := FirstFound(p, above);
    VisitsInOrder(parents, v, {}, i);
    forall j, d | 1 <= j < i + 1 && StepsUp(s, plan, v, j, d) ensures d !in plan.admissible {
      VisitsInOrder(parents, v, {}, j - 1);
      assert !p(above[j - 1]);
    }
    assert CoverAt(s, plan, v, i + 1, above[i]);
  }

  /** The nearest cover is one value. */
  lemma CoverUnique(s: Settings, plan: Plan, v: string, c: string, d: string)
    requires NearestCover(s, plan, v, c) && NearestCover(s, plan, v, d)
    ensures c == d
  {
    var j :| j >= 1 && CoverAt(s, plan, v, j, c);
    var k :| k >= 1 && CoverAt(s, plan, v, k, d);
  }

  lemma BroadenFound(s: Settings, plan: Plan, v: string)
    ensures var found := Generalisation(s, plan, v);
            && (found.Some? ==> Broadens(s, plan, v, found.value))
            && (found.None? ==> forall g :: !Broadens(s, plan, v, g))
  {
    if plan.dimension.Some? {
      var below := LiesAbove(s.dims, plan.dimension.value, v);
      forall a ensures below(a) <==> LiesUnder(s, plan, a, v) { AncestorsAre(s, plan, a, v); }
      hide LiesAbove, LiesUnder;
      var found := Find(below, plan.admissible);
      if found.Some? {
        var i := FirstFound(below, plan.admissible);
        assert FirstUnder(s, plan, v, i);
      }
    } else {
      hide LiesUnder;
      forall a ensures !LiesUnder(s, plan, a, v) { NothingWithout(s, plan, a, v); }
    }
  }

  lemma NothingWithout(s: Settings, plan: Plan, a: string, v: string)
    requires plan.dimension.None?
    ensures !LiesUnder(s, plan, a, v)
  {
  }

  lemma BroadenUnique(s: Settings, plan: Plan, v: string, g: string, h: string)
    requires Broadens(s, plan, v, g) && Broadens(s, plan, v, h)
    ensures g == h
  {
    hide LiesUnder;
  }

  /* ---------- counting entries ---------- */

  ghost predicate Sole(p: string -> bool, xs: seq<string>, i: int) {
    0 <= i < |xs| && p(xs[i]) && forall j :: 0 <= j < |xs| && p(xs[j]) ==> j == i
  }

  ghost predicate Two(p: string -> bool, xs: seq<string>, i: int, j: int) {
    0 <= i < j < |xs| && p(xs[i]) && p(xs[j])
  }

  /** How many entries a filter keeps. */
  lemma {:induction false} FilterCases(p: string -> bool, xs: seq<string>)
    ensures Filter(p, xs) == [] ==> forall i :: 0 <= i < |xs| ==> !p(xs[i])
    ensures |Filter(p, xs)| == 1 ==> exists i :: Sole(p, xs, i) && Filter(p, xs) == [xs[i]]
    ensures |Filter(p, xs)| > 1 ==> exists i, j :: Two(p, xs, i, j)
    decreases |xs|
  {
    if xs != [] {
      var rest := xs[1..];
      FilterCases(p, rest);
      assert forall i :: 1 <= i < |xs| ==> xs[i] == rest[i - 1];
      if Filter(p, rest) == [] {
        if p(xs[0]) { assert Sole(p, xs, 0); }
      } else if |Filter(p, rest)| == 1 {
        var i :| Sole(p, rest, i) && Filter(p, rest) == [rest[i]];
        if p(xs[0]) { assert Two(p, xs, 0, i + 1); } else { assert Sole(p, xs, i + 1); }
      } else {
        var i, j :| Two(p, rest, i, j);
        assert Two(p, xs, i + 1, j + 1);
      }
    }
  }

  /* ---------- repairs ---------- */

  lemma FormsCounted(s: Settings, plan: Plan, v: string)
    ensures var same := Filter(NormIs(s.norm, s.norm(v)), plan.admissible);
            && (same == [] ==> NoForm(s, plan, v))
            && (|same| == 1 ==> exists i :: OnlyForm(s, plan, v, i) && same == [plan.admissible[i]])
            && (|same| > 1 ==> TwoForms(s, plan, v))
            && forall x :: x in same <==> exists i :: SameForm(s, plan, v, i) && plan.admissible[i] == x
  {
    var p, xs := NormIs(s.norm, s.norm(v)), plan.admissible;
    var same := Filter(p, xs);
    FilterCases(p, xs);
    assert forall i :: 0 <= i < |xs| ==> (p(xs[i]) <==> SameForm(s, plan, v, i));
    hide Filter;
    if |same| == 1 {
      var i :| Sole(p, xs, i) && same == [xs[i]];
      assert OnlyForm(s, plan, v, i);
    } else if |same| > 1 {
      var i, j :| Two(p, xs, i, j);
      assert SameForm(s, plan, v, i) && SameForm(s, plan, v, j);
    }
  }

  /** The entries a test picks out are the nearest ones. */
  ghost predicate PicksNearest(s: Settings, plan: Plan, v: string, p: string -> bool) {
    && (forall i :: 0 <= i < |plan.admissible| ==> (p(plan.admissible[i]) <==> Nearest(s, plan, v, i)))
    && forall i :: Nearest(s, plan, v, i) ==> 0 <= i < |plan.admissible|
  }

  lemma NearestCounted(s: Settings, plan: Plan, v: string, p: string -> bool)
    requires PicksNearest(s, plan, v, p)
    ensures var minima := Filter(p, plan.admissible);
            && (|minima| == 1 ==> exists i :: OnlyNearest(s, plan, v, i) && minima == [plan.admissible[i]])
            && (|minima| > 1 ==> TwoNearest(s, plan, v))
            && forall x :: x in minima <==> exists i :: Nearest(s, plan, v, i) && plan.admissible[i] == x
  {
    var xs := plan.admissible;
    var minima := Filter(p, xs);
    FilterCases(p, xs);
    hide Filter, Nearest;
    if |minima| == 1 {
      var i :| Sole(p, xs, i) && minima == [xs[i]];
      assert OnlyNearest(s, plan, v, i);
    } else if |minima| > 1 {
      var i, j :| Two(p, xs, i, j);
      assert Nearest(s, plan, v, i) && Nearest(s, plan, v, j);
    }
  }

  lemma AtDistanceMeans(s: Settings, plan: Plan, v: string, d: nat)
    ensures forall i :: 0 <= i < |plan.admissible| ==>
              (AtDistance(s.norm, s.norm(v), d)(plan.admissible[i]) <==> Away(s, plan, v, i) == d)
  {
    hide Distance;
  }

  lemma BestReached(s: Settings, plan: Plan, v: string, d: nat) returns (k: int)
    requires Best(s.norm, s.norm(v), plan.admissible) == Some(d)
    ensures forall i :: 0 <= i < |plan.admissible| ==> d <= Away(s, plan, v, i)
    ensures 0 <= k < |plan.admissible| && Away(s, plan, v, k) == d
  {
    hide Distance, Best;
    var x :| x in plan.admissible && Distance(s.norm(v), s.norm(x)) == d;
    k :| 0 <= k < |plan.admissible| && plan.admissible[k] == x;
  }

  lemma NearestAtLeast(s: Settings, plan: Plan, v: string, d: nat, k: int)
    requires forall i :: 0 <= i < |plan.admissible| ==> d <= Away(s, plan, v, i)
    requires 0 <= k < |plan.admissible| && Away(s, plan, v, k) == d <= s.maxEdit
    ensures forall i :: 0 <= i < |plan.admissible| ==> (Nearest(s, plan, v, i) <==> Away(s, plan, v, i) == d)
  {
    hide Away;
  }

  lemma FilterKeeps(p: string -> bool, xs: seq<string>, k: int)
    requires 0 <= k < |xs| && p(xs[k])
    ensures Filter(p, xs) != []
  {
    assert xs[k] in Filter(p, xs);
  }

  /** The nearest entries are those at the least distance. */
  lemma LeastIsNearest(s: Settings, plan: Plan, v: string, d: nat, p: string -> bool)
    requires Best(s.norm, s.norm(v), plan.admissible) == Some(d) && d <= s.maxEdit
    requires p == AtDistance(s.norm, s.norm(v), d)
    ensures PicksNearest(s, plan, v, p) && Filter(p, plan.admissible) != []
    ensures forall i :: Nearest(s, plan, v, i) ==> 0 <= i < |plan.admissible| && Away(s, plan, v, i) == d
  {
    hide Distance, Best, AtDistance, Filter, Away, Nearest;
    var k := BestReached(s, plan, v, d);
    NearestAtLeast(s, plan, v, d, k);
    AtDistanceMeans(s, plan, v, d);
    NearestInside(s, plan, v);
    FilterKeeps(p, plan.admissible, k);
  }

  lemma NearestInside(s: Settings, plan: Plan, v: string)
    ensures forall i :: Nearest(s, plan, v, i) ==> 0 <= i < |plan.admissible|
  {
  }

  lemma NothingNear(s: Settings, plan: Plan, v: string)
    requires var best := Best(s.norm, s.norm(v), plan.admissible); best.None? || best.value > s.maxEdit
    ensures forall i :: !Nearest(s, plan, v, i)
  {
    hide Distance;
  }

  /** What a repair comes to, by the entries that have the form of v, or are nearest to it. */
  lemma RepairCases(s: Settings, plan: Plan, v: string)
    ensures var r, xs := Repair(s, plan, v), plan.admissible;
            || (exists i :: OnlyForm(s, plan, v, i) && r == Accepted(xs[i], Normalised))
            || (TwoForms(s, plan, v) && IsTie(s, plan, v, r))
            || (NoForm(s, plan, v) && plan.kind.EnumSlot?
                && ((exists i :: OnlyNearest(s, plan, v, i) && r == Accepted(xs[i], Repaired(Away(s, plan, v, i))))
                    || (TwoNearest(s, plan, v) && IsTie(s, plan, v, r))))
            || (r == Rejected(NotInSet) && NoForm(s, plan, v)
                && (plan.kind.EnumSlot? ==> forall i :: !Nearest(s, plan, v, i)))
  {
    hide Filter, Best, Distance, NormIs, AtDistance, SameForm, Nearest;
    FormsCounted(s, plan, v);
    var same := Filter(NormIs(s.norm, s.norm(v)), plan.admissible);
    FormsExclude(s, plan, v);
    if same == [] && plan.kind.EnumSlot? {
      var best := Best(s.norm, s.norm(v), plan.admissible);
      if best.None? || best.value > s.maxEdit {
        NothingNear(s, plan, v);
      } else {
        var p := AtDistance(s.norm, s.norm(v), best.value);
        LeastIsNearest(s, plan, v, best.value, p);
        NearestCounted(s, plan, v, p);
      }
    }
  }

  ghost predicate IsTie(s: Settings, plan: Plan, v: string, r: Projection) {
    r.Rejected? && r.why.Ambiguous? && TiedBetween(s, plan, v, r.why.candidates)
  }

  lemma FormsExclude(s: Settings, plan: Plan, v: string)
    ensures NoForm(s, plan, v) ==> !TwoForms(s, plan, v)
    ensures forall i :: SameForm(s, plan, v, i) ==> 0 <= i < |plan.admissible|
  {
  }

  /* ---------- every outcome ---------- */

  /** What `Project` returns, case by case. */
  lemma ProjectCases(s: Settings, plan: Plan, v: string)
    ensures var r := Project(s, plan, v);
            if v == ABSTAIN then r == Abstained
            else if v in plan.admissible then r == Accepted(v, Exact)
            else if s.strictness.ExactOnly? then r == Rejected(NotInSet)
            else if !Uncovered(s, plan, v) then
              exists c :: NearestCover(s, plan, v, c) && r == Accepted(v, Specialised(c))
            else if exists g :: Broadens(s, plan, v, g) then
              exists g :: Broadens(s, plan, v, g) && r == Rejected(GeneralisationRefused(g))
            else if s.strictness.Fuzzy? then r == Repair(s, plan, v)
            else r == Rejected(NotInSet)
  {
    hide Repair, CoveringAncestor, Generalisation, NearestCover, Uncovered, Broadens;
    CoverFound(s, plan, v);
    BroadenFound(s, plan, v);
  }

  /** The lattice outcomes: an abstention, an entry, the nearest admissible ancestor, and a refused
      generalisation each come about exactly on their condition. */
  lemma LatticeExact(s: Settings, plan: Plan, v: string)
    ensures var r := Project(s, plan, v);
            && (r.Abstained? <==> v == ABSTAIN)
            && (r == Accepted(v, Exact) <==> v != ABSTAIN && v in plan.admissible)
            && (forall c :: r == Accepted(v, Specialised(c)) <==> Open(s, plan, v) && NearestCover(s, plan, v, c))
            && (forall g :: r == Rejected(GeneralisationRefused(g)) <==>
                  Open(s, plan, v) && Uncovered(s, plan, v) && Broadens(s, plan, v, g))
  {
    hide Repair, Project, NearestCover, Uncovered, Broadens, IsTie, OnlyForm, OnlyNearest;
    ProjectCases(s, plan, v);
    RepairCases(s, plan, v);
    TieIsAmbiguous(s, plan, v, Repair(s, plan, v));
    CoverMeans(s, plan, v);
    forall c, d | NearestCover(s, plan, v, c) && NearestCover(s, plan, v, d) ensures c == d {
      CoverUnique(s, plan, v, c, d);
    }
    forall g, h | Broadens(s, plan, v, g) && Broadens(s, plan, v, h) ensures g == h {
      BroadenUnique(s, plan, v, g, h);
    }
  }

  lemma CoverMeans(s: Settings, plan: Plan, v: string)
    ensures (exists c :: NearestCover(s, plan, v, c)) ==> !Uncovered(s, plan, v)
  {
  }

  lemma TieIsAmbiguous(s: Settings, plan: Plan, v: string, r: Projection)
    ensures IsTie(s, plan, v, r) ==> r.Rejected? && r.why.Ambiguous? && TiedBetween(s, plan, v, r.why.candidates)
  {
  }

  /** The repairs, past the lattice and in fuzzy mode. A slot accepts as another value exactly when one entry
      alone has the normal form of the answer, and then as that entry. An enum slot no entry of which has that
      form accepts exactly when one entry alone is nearest and within reach, and then as that entry, with its
      distance; a code slot never does. A tie is refused, and the entries tied are named. */
  lemma RepairsExact(s: Settings, plan: Plan, v: string)
    ensures var r, xs := Project(s, plan, v), plan.admissible;
            && (forall a :: r == Accepted(a, Normalised) <==>
                  Repairable(s, plan, v) && exists i :: OnlyForm(s, plan, v, i) && xs[i] == a)
            && (forall a, d :: r == Accepted(a, Repaired(d)) <==>
                  Repairable(s, plan, v) && plan.kind.EnumSlot? && NoForm(s, plan, v)
                  && exists i :: OnlyNearest(s, plan, v, i) && xs[i] == a && Away(s, plan, v, i) == d)
            && (r.Rejected? && r.why.Ambiguous? <==> Repairable(s, plan, v) && Tied(s, plan, v))
            && (r.Rejected? && r.why.Ambiguous? ==> TiedBetween(s, plan, v, r.why.candidates))
  {
    hide Repair, Project, NearestCover, Uncovered, Broadens, IsTie, OnlyForm, OnlyNearest, TiedBetween, Away,
         NoForm, TwoForms, TwoNearest, Nearest;
    ProjectCases(s, plan, v);
    RepairCases(s, plan, v);
    TieIsAmbiguous(s, plan, v, Repair(s, plan, v));
    CasesExclude(s, plan, v);
  }

  /** The conditions of the repairs exclude each other. */
  lemma CasesExclude(s: Settings, plan: Plan, v: string)
    ensures !(NoForm(s, plan, v) && TwoForms(s, plan, v))
    ensures forall i :: OnlyForm(s, plan, v, i) ==>
              0 <= i < |plan.admissible| && !NoForm(s, plan, v) && !TwoForms(s, plan, v)
    ensures forall i, j :: OnlyForm(s, plan, v, i) && OnlyForm(s, plan, v, j) ==> i == j
    ensures forall i :: OnlyNearest(s, plan, v, i) ==>
              0 <= i < |plan.admissible| && Nearest(s, plan, v, i) && !TwoNearest(s, plan, v)
    ensures forall i, j :: OnlyNearest(s, plan, v, i) && OnlyNearest(s, plan, v, j) ==> i == j
    ensures TwoNearest(s, plan, v) ==> exists i :: Nearest(s, plan, v, i)
  {
    hide Away;
  }
}
