/** The bridge's projection of a model's answer onto an admissible set (src/bridge.js:163-351). */
module Bridge {
  /* The round trip the repository is named for: what is lifted back lies in the set, or below it in the
     lattice. Text normalisation is a parameter; every result holds for every normaliser. Slots are the
     code and enum slots, the ones the property is about. */

  import opened EditDistance
  import opened Lattice
  import opened Options
  import opened Trie

  datatype Strictness = ExactOnly | LatticeMode | Fuzzy

  datatype Kind = CodeSlot | EnumSlot

  datatype How =
    | Exact
    | Specialised(coveredBy: string)
    | Normalised
    | Repaired(distance: nat)

  datatype Why =
    | NotInSet
    | GeneralisationRefused(wouldBroaden: string)
    | Ambiguous(candidates: seq<string>)

  datatype Projection = Abstained | Accepted(value: string, how: How) | Rejected(why: Why)

  /** A slot's admissible set and the dimension it is governed by, if any. */
  datatype Plan = Plan(kind: Kind, admissible: seq<string>, dimension: Option<string>)

  datatype Settings = Settings(strictness: Strictness, dims: Dimensions, norm: string -> string, maxEdit: int)

  /* ---------- helpers over the admissible list ---------- */

  /** The first element that passes, as Array.find. */
  function Find(p: string -> bool, xs: seq<string>): (r: Option<string>)
    ensures r.Some? ==> r.value in xs && p(r.value)
    ensures r.None? ==> forall x :: x in xs ==> !p(x)
  {
    if xs == [] then None else if p(xs[0]) then Some(xs[0]) else Find(p, xs[1..])
  }

  function Filter(p: string -> bool, xs: seq<string>): (r: seq<string>)
    ensures forall x :: x in r <==> x in xs && p(x)
  {
    if xs == [] then [] else (if p(xs[0]) then [xs[0]] else []) + Filter(p, xs[1..])
  }

  /** The least distance from a text to a normalised value; the empty set has none. */
  function Best(norm: string -> string, text: string, xs: seq<string>): (d: Option<nat>)
    ensures d.None? <==> xs == []
    ensures d.Some? ==> exists x :: x in xs && Distance(text, norm(x)) == d.value
    ensures d.Some? ==> forall x :: x in xs ==> d.value <= Distance(text, norm(x))
  {
    if xs == [] then None
    else
      var d := Distance(text, norm(xs[0]));
      var rest := Best(norm, text, xs[1..]);
      assert forall x :: x in xs <==> x == xs[0] || x in xs[1..];
      if rest.None? then (assert xs[1..] == []; Some(d)) else if d < rest.value then Some(d) else rest
  }

  /* ---------- project ---------- */

  /** A found string counts only when it is not empty. An ancestor never is, an admissible value may be. */
  function Truthy(o: Option<string>): Option<string> {
    if o == Some("") then None else o
  }

  function CoveringAncestor(s: Settings, plan: Plan, v: string): Option<string> {
    if plan.dimension.None? then None
    else Find(x => x in plan.admissible, AncestorsOf(s.dims, plan.dimension.value, v))
  }

  function Generalisation(s: Settings, plan: Plan, v: string): Option<string> {
    if plan.dimension.None? then None
    else Truthy(Find(LiesAbove(s.dims, plan.dimension.value, v), plan.admissible))
  }

  function LiesAbove(dims: Dimensions, dimension: string, v: string): string -> bool {
    a => v in AncestorsOf(dims, dimension, a)
  }

  function NormIs(norm: string -> string, nv: string): string -> bool {
    a => norm(a) == nv
  }

  function AtDistance(norm: string -> string, nv: string, d: nat): string -> bool {
    a => Distance(nv, norm(a)) == d
  }

  /** Repairs by normalised equality, then for enums by edit distance; ties are refused. */
  function Repair(s: Settings, plan: Plan, v: string): Projection {
    var nv := s.norm(v);
    var same := Filter(NormIs(s.norm, nv), plan.admissible);
    if |same| == 1 then Accepted(same[0], Normalised)
    else if |same| > 1 then Rejected(Ambiguous(same))
    else if plan.kind.CodeSlot? then Rejected(NotInSet)
    else
      var best := Best(s.norm, nv, plan.admissible);
      if best.None? || best.value > s.maxEdit then Rejected(NotInSet)
      else
        var minima := Filter(AtDistance(s.norm, nv, best.value), plan.admissible);
        if |minima| > 1 then Rejected(Ambiguous(minima))
        else assert exists a :: a in minima; Accepted(minima[0], Repaired(best.value))
  }

  function Project(s: Settings, plan: Plan, v: string): Projection {
    if v == ABSTAIN then Abstained
    else if v in plan.admissible then Accepted(v, Exact)
    else if s.strictness.ExactOnly? then Rejected(NotInSet)
    else
      var covering := CoveringAncestor(s, plan, v);
      if covering.Some? then Accepted(v, Specialised(covering.value))
      else
        var generalised := Generalisation(s, plan, v);
        if generalised.Some? then Rejected(GeneralisationRefused(generalised.value))
        else if s.strictness.Fuzzy? then Repair(s, plan, v)
        else Rejected(NotInSet)
  }

  /* ---------- soundness ---------- */

  /** The value is admissible, or lies below an admissible one. */
  ghost predicate Governed(s: Settings, plan: Plan, v: string) {
    || v in plan.admissible
    || (plan.dimension.Some? && exists a :: a in plan.admissible && a in AncestorsOf(s.dims, plan.dimension.value, v))
  }

  /** At every strictness, whatever is accepted is governed. */
  lemma ProjectSound(s: Settings, plan: Plan, v: string)
    ensures Project(s, plan, v).Accepted? ==> Governed(s, plan, Project(s, plan, v).value)
  {
  }

  /** Stricter settings accept less: a value accepted in lattice mode is accepted as itself, and is
      accepted the same way in fuzzy mode. */
  lemma StrictnessMonotone(s: Settings, plan: Plan, v: string)
    requires s.strictness.LatticeMode?
    ensures Project(s, plan, v).Accepted? ==>
              && Project(s, plan, v).value == v
              && Project(s.(strictness := Fuzzy), plan, v) == Project(s, plan, v)
    ensures Project(s.(strictness := ExactOnly), plan, v).Accepted? ==>
              Project(s, plan, v) == Project(s.(strictness := ExactOnly), plan, v)
  {
  }

  /* ---------- the order of the admissible set ---------- */

  /** What the caller acts on: the value and the kind of acceptance, or the kind of refusal. */
  datatype Verdict = Abstain | Accept(value: string, rule: nat) | Reject(rule: nat)

  function VerdictOf(p: Projection): Verdict {
    match p
    case Abstained => Abstain
    case Accepted(v, how) =>
      Accept(v, match how case Exact => 0 case Specialised(_) => 1 case Normalised => 2 case Repaired(_) => 3)
    case Rejected(why) =>
      Reject(match why case NotInSet => 0 case GeneralisationRefused(_) => 1 case Ambiguous(_) => 2)
  }

  lemma SameElements(xs: seq<string>, ys: seq<string>)
    requires multiset(xs) == multiset(ys)
    ensures forall x :: x in xs <==> x in ys
  {
    forall x ensures x in xs <==> x in ys {
      assert x in xs <==> x in multiset(xs);
      assert x in ys <==> x in multiset(ys);
    }
  }

  lemma {:induction false} FilterCounts(p: string -> bool, xs: seq<string>, x: string)
    ensures multiset(Filter(p, xs))[x] == if p(x) then multiset(xs)[x] else 0
  {
    if xs != [] {
      FilterCounts(p, xs[1..], x);
      assert xs == [xs[0]] + xs[1..];
    }
  }

  lemma FilterPermuted(p: string -> bool, xs: seq<string>, ys: seq<string>)
    requires multiset(xs) == multiset(ys)
    ensures multiset(Filter(p, xs)) == multiset(Filter(p, ys)) && |Filter(p, xs)| == |Filter(p, ys)|
    ensures |Filter(p, xs)| == 1 ==> Filter(p, xs) == Filter(p, ys)
  {
    forall x ensures multiset(Filter(p, xs))[x] == multiset(Filter(p, ys))[x] {
      FilterCounts(p, xs, x);
      FilterCounts(p, ys, x);
    }
    assert multiset(Filter(p, xs)) == multiset(Filter(p, ys));
    PermutedLength(Filter(p, xs), Filter(p, ys));
  }

  lemma PermutedLength(f: seq<string>, g: seq<string>)
    requires multiset(f) == multiset(g)
    ensures |f| == |g|
    ensures |f| == 1 ==> f == g
  {
    assert |f| == |multiset(f)| && |g| == |multiset(g)|;
    if |f| == 1 {
      assert f[0] in multiset(g);
      assert f[0] in g;
    }
  }

  lemma BestPermuted(norm: string -> string, text: string, xs: seq<string>, ys: seq<string>)
    requires forall x :: x in xs <==> x in ys
    ensures Best(norm, text, xs) == Best(norm, text, ys)
  {
    hide Distance, Best;
    assert xs == [] <==> ys == [] by {
      assert xs != [] ==> xs[0] in xs;
      assert ys != [] ==> ys[0] in ys;
    }
    if xs != [] {
      var d, e := Best(norm, text, xs).value, Best(norm, text, ys).value;
      var x :| x in xs && Distance(text, norm(x)) == d;
      var y :| y in ys && Distance(text, norm(y)) == e;
      assert x in ys && y in xs;
    }
  }

  lemma RepairPermuted(s: Settings, plan: Plan, admissible: seq<string>, v: string)
    requires multiset(plan.admissible) == multiset(admissible)
    ensures VerdictOf(Repair(s, plan.(admissible := admissible), v)) == VerdictOf(Repair(s, plan, v))
  {
    hide Distance, Best, Filter, NormIs, AtDistance;
    SameElements(plan.admissible, admissible);
    var nv := s.norm(v);
    FilterPermuted(NormIs(s.norm, nv), plan.admissible, admissible);
    BestPermuted(s.norm, nv, plan.admissible, admissible);
    var best := Best(s.norm, nv, plan.admissible);
    if best.Some? {
      FilterPermuted(AtDistance(s.norm, nv, best.value), plan.admissible, admissible);
    }
  }

  /** Project looks for an admissible value that v would broaden. */
  ghost predicate LooksBelow(s: Settings, plan: Plan, v: string) {
    && v != ABSTAIN && v !in plan.admissible && !s.strictness.ExactOnly?
    && CoveringAncestor(s, plan, v).None? && plan.dimension.Some?
  }

  /** v would broaden the empty string, which is admissible, and another admissible value as well. */
  ghost predicate EmptyHides(s: Settings, plan: Plan, v: string) {
    && LooksBelow(s, plan, v)
    && var below := LiesAbove(s.dims, plan.dimension.value, v);
       "" in plan.admissible && below("") && exists a :: a in plan.admissible && a != "" && below(a)
  }

  /** Reordering the admissible set changes neither what is accepted, nor as what, nor why not, unless an
      empty admissible value hides another. */
  lemma OrderIrrelevant(s: Settings, plan: Plan, admissible: seq<string>, v: string)
    requires multiset(plan.admissible) == multiset(admissible)
    ensures !EmptyHides(s, plan, v) ==>
              VerdictOf(Project(s, plan.(admissible := admissible), v)) == VerdictOf(Project(s, plan, v))
  {
    var other := plan.(admissible := admissible);
    SameElements(plan.admissible, admissible);
    RepairPermuted(s, plan, admissible, v);
    CoveringPermuted(s, plan, admissible, v);
    hide Repair, CoveringAncestor, Generalisation, EmptyHides, LooksBelow, Project;
    if LooksBelow(s, plan, v) && !EmptyHides(s, plan, v) { GeneralisationPermuted(s, plan, admissible, v); }
    if !EmptyHides(s, plan, v) { VerdictsAgree(s, plan, other, v); }
  }

  /** The verdict depends on the admissible set only through what each rule finds. */
  lemma VerdictsAgree(s: Settings, plan: Plan, other: Plan, v: string)
    requires (v in plan.admissible <==> v in other.admissible) && (plan.dimension.Some? <==> other.dimension.Some?)
    requires CoveringAncestor(s, other, v).Some? <==> CoveringAncestor(s, plan, v).Some?
    requires plan.dimension.None? ==> Generalisation(s, plan, v).None? && Generalisation(s, other, v).None?
    requires LooksBelow(s, plan, v) ==> (Generalisation(s, other, v).Some? <==> Generalisation(s, plan, v).Some?)
    requires VerdictOf(Repair(s, other, v)) == VerdictOf(Repair(s, plan, v))
    ensures VerdictOf(Project(s, other, v)) == VerdictOf(Project(s, plan, v))
  {
    hide Repair, CoveringAncestor, Generalisation;
  }

  lemma CoveringPermuted(s: Settings, plan: Plan, admissible: seq<string>, v: string)
    requires forall x :: x in plan.admissible <==> x in admissible
    ensures CoveringAncestor(s, plan.(admissible := admissible), v).Some? <==> CoveringAncestor(s, plan, v).Some?
    ensures plan.dimension.None? ==>
              Generalisation(s, plan, v).None? && Generalisation(s, plan.(admissible := admissible), v).None?
  {
  }

  lemma GeneralisationPermuted(s: Settings, plan: Plan, admissible: seq<string>, v: string)
    requires forall x :: x in plan.admissible <==> x in admissible
    requires LooksBelow(s, plan, v) && !EmptyHides(s, plan, v)
    ensures Generalisation(s, plan.(admissible := admissible), v).Some? <==> Generalisation(s, plan, v).Some?
  {
    hide AncestorsOf, CoveringAncestor;
    var below := LiesAbove(s.dims, plan.dimension.value, v);
    hide LiesAbove;
    FindsNonEmpty(below, plan.admissible);
    FindsNonEmpty(below, admissible);
  }

  /** Where the empty string does not stand in the way, a non-empty value is found exactly when there is one. */
  lemma FindsNonEmpty(p: string -> bool, xs: seq<string>)
    requires !("" in xs && p("")) || forall x :: x in xs && p(x) ==> x == ""
    ensures Truthy(Find(p, xs)).Some? <==> exists x :: x in xs && x != "" && p(x)
  {
  }

  lemma {:induction false} FindInFront(p: string -> bool, x: string, xs: seq<string>)
    requires p(x)
    ensures Find(p, [x] + xs) == Some(x)
  {
  }

  /** The order is irrelevant exactly when no empty admissible value hides another: where one does, moving
      either of the two to the front decides between refusing a generalisation and going on. */
  lemma OrderIrrelevantExactly(s: Settings, plan: Plan, v: string)
    ensures (forall xs: seq<string> {:trigger multiset(xs)} :: multiset(xs) == multiset(plan.admissible) ==>
              VerdictOf(Project(s, plan.(admissible := xs), v)) == VerdictOf(Project(s, plan, v)))
            <==> !EmptyHides(s, plan, v)
  {
    hide Project, VerdictOf;
    if EmptyHides(s, plan, v) {
      var below := LiesAbove(s.dims, plan.dimension.value, v);
      var a :| a in plan.admissible && a != "" && below(a);
      hide Generalisation, LiesAbove, LooksBelow, CoveringAncestor;
      var x := if Generalisation(s, plan, v).Some? then "" else a;
      var xs := MovedToFront(plan.admissible, x);
      MovedIsPermuted(plan.admissible, x);
      FrontDecides(s, plan, xs, v);
      VerdictsDiffer(s, plan, xs, v);
    } else {
      forall xs: seq<string> {:trigger multiset(xs)} | multiset(xs) == multiset(plan.admissible)
        ensures VerdictOf(Project(s, plan.(admissible := xs), v)) == VerdictOf(Project(s, plan, v))
      {
        OrderIrrelevant(s, plan, xs, v);
      }
    }
  }

  /** Such a set: the value is the parent of the empty string and of "b", and which of the two comes first
      decides whether it is refused as a generalisation. */
  lemma EmptyHidesHappens(norm: string -> string)
    ensures var s := Settings(LatticeMode, map["D" := Dimension(Ancestry, Some(map["" := "v", "b" := "v"]))], norm, 1);
            var plan := Plan(CodeSlot, ["", "b"], Some("D"));
            && EmptyHides(s, plan, "v") && Project(s, plan, "v") == Rejected(NotInSet)
            && Project(s, plan.(admissible := ["b", ""]), "v") == Rejected(GeneralisationRefused("b"))
  {
    var parents := map["" := "v", "b" := "v"];
    var s := Settings(LatticeMode, map["D" := Dimension(Ancestry, Some(parents))], norm, 1);
    var plan := Plan(CodeSlot, ["", "b"], Some("D"));
    assert "v"[0] != "b"[0] && "v"[0] != ABSTAIN[0];
    assert Visits(parents, "v", {""}) == [] && Visits(parents, "v", {"b"}) == [];
    assert AncestorsOf(s.dims, "D", "") == ["v"] && AncestorsOf(s.dims, "D", "b") == ["v"];
    var below := LiesAbove(s.dims, "D", "v");
    assert below("") && below("b") && "" in plan.admissible && "b" in plan.admissible;
    FindInFront(below, "", ["b"]);
    FindInFront(below, "b", [""]);
    assert [""] + ["b"] == ["", "b"] && ["b"] + [""] == ["b", ""];
  }

  lemma FrontDecides(s: Settings, plan: Plan, xs: seq<string>, v: string)
    requires plan.dimension.Some? && xs != [] && LiesAbove(s.dims, plan.dimension.value, v)(xs[0])
    ensures Generalisation(s, plan.(admissible := xs), v).Some? <==> xs[0] != ""
  {
    assert xs == [xs[0]] + xs[1..];
    FindInFront(LiesAbove(s.dims, plan.dimension.value, v), xs[0], xs[1..]);
    hide LiesAbove, AncestorsOf;
  }

  lemma VerdictsDiffer(s: Settings, plan: Plan, xs: seq<string>, v: string)
    requires LooksBelow(s, plan, v) && multiset(xs) == multiset(plan.admissible)
    requires Generalisation(s, plan, v).Some? != Generalisation(s, plan.(admissible := xs), v).Some?
    ensures VerdictOf(Project(s, plan.(admissible := xs), v)) != VerdictOf(Project(s, plan, v))
  {
    SameElements(xs, plan.admissible);
    CoveringPermuted(s, plan, xs, v);
    hide Generalisation, CoveringAncestor, Project;
    RefusesBroadening(s, plan, v);
    RefusesBroadening(s, plan.(admissible := xs), v);
  }

  /** Past the covering rule, a found generalisation is what the verdict says, and only then. */
  lemma RefusesBroadening(s: Settings, plan: Plan, v: string)
    requires LooksBelow(s, plan, v)
    ensures VerdictOf(Project(s, plan, v)) == Reject(1) <==> Generalisation(s, plan, v).Some?
  {
    RepairRefusesOtherwise(s, plan, v);
    hide Generalisation, CoveringAncestor, Repair;
  }

  lemma RepairRefusesOtherwise(s: Settings, plan: Plan, v: string)
    ensures VerdictOf(Repair(s, plan, v)) != Reject(1)
  {
    hide Filter, Best, Distance;
  }

  function MovedToFront(xs: seq<string>, x: string): (r: seq<string>)
    requires x in xs
    ensures r != [] && r[0] == x
  {
    if xs[0] == x then xs
    else
      var r := MovedToFront(xs[1..], x);
      [x] + ([xs[0]] + r[1..])
  }

  lemma {:induction false} MovedIsPermuted(xs: seq<string>, x: string)
    requires x in xs
    ensures multiset(MovedToFront(xs, x)) == multiset(xs)
  {
    assert xs == [xs[0]] + xs[1..];
    if xs[0] != x {
      MovedIsPermuted(xs[1..], x);
      var r := MovedToFront(xs[1..], x);
      assert r == [x] + r[1..];
    }
  }

  /* ---------- agreement with the graph ---------- */

  /** In lattice mode, on a lattice dimension and a set without "*", the bridge accepts exactly the
      values the identity graph covers. */
  lemma AgreesWithCovers(s: Settings, plan: Plan, v: string)
    requires s.strictness.LatticeMode? && plan.dimension.Some? && v != ABSTAIN
    requires "*" !in plan.admissible
    requires plan.dimension.value in s.dims ==> s.dims[plan.dimension.value].containment.Ancestry?
    ensures Project(s, plan, v).Accepted? <==>
              IsCovered(s.dims, plan.dimension.value, (set a | a in plan.admissible), v)
  {
    var d := plan.dimension.value;
    if d in s.dims && s.dims[d].parents.Some? {
      var parents := s.dims[d].parents.value;
      forall x ensures x in Visits(parents, v, {}) <==> Above(parents, v, x) { VisitsExact(parents, v, x); }
    }
  }

  /** Some admissible value lies above v in the dimension's parent map. */
  ghost predicate BelowAdmissible(s: Settings, plan: Plan, v: string)
    requires plan.dimension.Some?
  {
    && plan.dimension.value in s.dims && s.dims[plan.dimension.value].parents.Some?
    && exists a :: a in plan.admissible && Above(s.dims[plan.dimension.value].parents.value, v, a)
  }

  /** What has to hold for bridge and graph to decide alike on a value the set does not list. */
  ghost predicate DecideAlike(s: Settings, plan: Plan, v: string)
    requires plan.dimension.Some?
  {
    var d := plan.dimension.value;
    if d !in s.dims || s.dims[d].containment.Membership? then BelowAdmissible(s, plan, v) == ("*" in plan.admissible)
    else match s.dims[d].containment
      case Custom(contains) =>
        BelowAdmissible(s, plan, v) == ("*" in plan.admissible || exists g :: g in plan.admissible && contains(g, v))
      case _ => BelowAdmissible(s, plan, v) || "*" !in plan.admissible
  }

  /** In lattice mode bridge and graph decide alike on a value exactly when the set lists it or: on a
      lattice dimension, it lies below the set or the set has no "*"; elsewhere, lying below the set,
      which only the bridge looks at, agrees with what the graph looks at instead. A custom predicate need not
      have anything to do with the parent map, so there the two tests themselves are the condition. */
  lemma AgreesExactly(s: Settings, plan: Plan, v: string)
    requires s.strictness.LatticeMode? && plan.dimension.Some? && v != ABSTAIN
    ensures (Project(s, plan, v).Accepted? <==>
               IsCovered(s.dims, plan.dimension.value, (set a | a in plan.admissible), v))
            <==> v in plan.admissible || DecideAlike(s, plan, v)
  {
    var d := plan.dimension.value;
    if d in s.dims && s.dims[d].parents.Some? {
      var parents := s.dims[d].parents.value;
      forall x ensures x in Visits(parents, v, {}) <==> Above(parents, v, x) { VisitsExact(parents, v, x); }
    }
    hide Above, Visits;
    assert Project(s, plan, v).Accepted? <==> v in plan.admissible || BelowAdmissible(s, plan, v);
  }

  /** The two part ways outside that condition: "*" is a value like any other to the bridge, and a
      dimension that is not a lattice has its parents followed by the bridge and ignored by the graph. */
  lemma DisagreementOutside(norm: string -> string)
    ensures var s := Settings(LatticeMode, map["D" := Dimension(Ancestry, None)], norm, 1);
            var plan := Plan(CodeSlot, ["*"], Some("D"));
            !Project(s, plan, "a").Accepted? && IsCovered(s.dims, "D", {"*"}, "a")
    ensures var s := Settings(LatticeMode, map["D" := Dimension(Membership, Some(map["a" := "b"]))], norm, 1);
            var plan := Plan(CodeSlot, ["b"], Some("D"));
            Project(s, plan, "a").Accepted? && !IsCovered(s.dims, "D", {"b"}, "a")
  {
    assert "a"[0] != "b"[0] && "a"[0] != "*"[0] && "a"[0] != ABSTAIN[0];
    var s := Settings(LatticeMode, map["D" := Dimension(Membership, Some(map["a" := "b"]))], norm, 1);
    assert AncestorsOf(s.dims, "D", "a") == ["b"] + Visits(map["a" := "b"], "b", {"a"});
    var plan := Plan(CodeSlot, ["b"], Some("D"));
    assert "b" in AncestorsOf(s.dims, "D", "a") && "b" in plan.admissible;
  }

  /* ---------- alpha, gamma and the round trip ---------- */

  /** What the model put in a slot. */
  datatype Payload = Text(s: string) | NotText

  datatype Slot = Slot(name: string, plan: Plan)

  datatype Lifted = Lifted(slots: map<string, string>, unmapped: seq<string>, abstained: seq<string>)

  datatype Verified = BadSlots | Sound(lifted: Lifted) | Escaped(slot: string, value: string)

  /** gamma refuses a slot with nothing admissible. */
  predicate Acceptable(slots: seq<Slot>) {
    forall i :: 0 <= i < |slots| ==> slots[i].plan.admissible != []
  }

  ghost predicate DistinctNames(slots: seq<Slot>) {
    forall i, j :: 0 <= i < j < |slots| ==> slots[i].name != slots[j].name
  }

  /** What a slot contributes: its lifted value, or a note that it was unmapped or abstained. */
  ghost predicate SlotLifted(s: Settings, slot: Slot, payload: map<string, Payload>, out: Lifted) {
    if slot.name !in payload || payload[slot.name].NotText? then
      slot.name !in out.slots && slot.name in out.unmapped
    else
      match Project(s, slot.plan, payload[slot.name].s)
      case Abstained => slot.name !in out.slots && slot.name in out.abstained
      case Rejected(_) => slot.name !in out.slots && slot.name in out.unmapped
      case Accepted(v, _) => slot.name in out.slots && out.slots[slot.name] == v
  }

  /* ---------- gamma: the plan ---------- */

  /** A slot of a name that is planned already takes its place. */
  function Put(plan: seq<Slot>, slot: Slot): seq<Slot> {
    if plan == [] then [slot]
    else if plan[0].name == slot.name then [slot] + plan[1..]
    else [plan[0]] + Put(plan[1..], slot)
  }

  function PlanOf(slots: seq<Slot>): seq<Slot> {
    if slots == [] then [] else Put(PlanOf(slots[..|slots| - 1]), slots[|slots| - 1])
  }

  /** The last slot of its name. */
  ghost predicate LastOfName(slots: seq<Slot>, slot: Slot) {
    exists i :: 0 <= i < |slots| && slots[i] == slot && forall j :: i < j < |slots| ==> slots[j].name != slot.name
  }

  lemma {:induction false} PutExact(plan: seq<Slot>, slot: Slot)
    requires DistinctNames(plan)
    ensures DistinctNames(Put(plan, slot))
    ensures forall x :: x in Put(plan, slot) <==> x == slot || (x in plan && x.name != slot.name)
    decreases |plan|
  {
    if plan != [] {
      var rest := plan[1..];
      assert plan == [plan[0]] + rest;
      assert forall x :: x in rest ==> x.name != plan[0].name;
      if plan[0].name != slot.name {
        PutExact(rest, slot);
        var tail := Put(rest, slot);
        forall j | 0 <= j < |tail| ensures tail[j].name != plan[0].name { assert tail[j] in tail; }
      }
    }
  }

  /** The plan has one slot a name, the last one given. */
  lemma {:induction false} PlanExact(slots: seq<Slot>)
    ensures DistinctNames(PlanOf(slots))
    ensures forall x :: x in PlanOf(slots) <==> LastOfName(slots, x)
    decreases |slots|
  {
    if slots != [] {
      var n := |slots| - 1;
      PlanExact(slots[..n]);
      PutExact(PlanOf(slots[..n]), slots[n]);
      forall x
        ensures LastOfName(slots, x) <==> x == slots[n] || (LastOfName(slots[..n], x) && x.name != slots[n].name)
      {
        LastSnoc(slots, x);
      }
    }
  }

  lemma LastSnoc(slots: seq<Slot>, x: Slot)
    requires slots != []
    ensures var n := |slots| - 1;
            LastOfName(slots, x) <==> x == slots[n] || (LastOfName(slots[..n], x) && x.name != slots[n].name)
  {
    var n := |slots| - 1;
    if i :| 0 <= i < |slots| && slots[i] == x && forall j :: i < j < |slots| ==> slots[j].name != x.name {
      if i < n { assert slots[..n][i] == x; }
    }
    if LastOfName(slots[..n], x) && x.name != slots[n].name {
      var i :| 0 <= i < n && slots[..n][i] == x && forall j :: i < j < n ==> slots[..n][j].name != x.name;
      assert slots[i] == x;
      forall j | i < j < |slots| ensures slots[j].name != x.name { assert j < n ==> slots[..n][j] == slots[j]; }
    }
    if x == slots[n] { assert slots[n] == x; }
  }

  /** gamma: the plan of a list of slots, unless one of them has nothing admissible. */
  method Gamma(slots: seq<Slot>) returns (plan: Option<seq<Slot>>)
    ensures plan == if Acceptable(slots) then Some(PlanOf(slots)) else None
  {
    var planned: seq<Slot> := [];
    var k := 0;
    while k < |slots|
      invariant 0 <= k <= |slots|
      invariant forall i :: 0 <= i < k ==> slots[i].plan.admissible != []
      invariant planned == PlanOf(slots[..k])
    {
      if slots[k].plan.admissible == [] { return None; }
      assert slots[..k + 1][..k] == slots[..k];
      planned := Put(planned, slots[k]);
      k := k + 1;
    }
    assert slots[..k] == slots;
    return Some(planned);
  }

  /** Lifts a model's output under a plan, which has one slot a name. */
  method Alpha(s: Settings, slots: seq<Slot>, payload: map<string, Payload>) returns (out: Lifted)
    requires DistinctNames(slots)
    ensures forall i :: 0 <= i < |slots| ==> SlotLifted(s, slots[i], payload, out)
    ensures forall n :: n in out.slots ==> exists i :: 0 <= i < |slots| && slots[i].name == n
  {
    hide Project;
    out := Lifted(map[], [], []);
    var i := 0;
    while i < |slots|
      invariant 0 <= i <= |slots|
      invariant forall k :: 0 <= k < i ==> SlotLifted(s, slots[k], payload, out)
      invariant forall n :: n in out.slots ==> exists k :: 0 <= k < i && slots[k].name == n
    {
      var slot := slots[i];
      if slot.name !in payload || payload[slot.name].NotText? {
        out := out.(unmapped := out.unmapped + [slot.name]);
      } else {
        match Project(s, slot.plan, payload[slot.name].s) {
          case Abstained => out := out.(abstained := out.abstained + [slot.name]);
          case Rejected(_) => out := out.(unmapped := out.unmapped + [slot.name]);
          case Accepted(v, _) => out := out.(slots := out.slots[slot.name := v]);
        }
      }
      i := i + 1;
    }
  }

  /** The round trip never reports an escape: for every list of slots and every model output, each lifted
      value lies in the set of the last slot of its name, or below it. */
  method RoundTripSound(s: Settings, slots: seq<Slot>, payload: map<string, Payload>) returns (r: Verified)
    ensures r.BadSlots? <==> !Acceptable(slots)
    ensures Acceptable(slots) ==> r.Sound?
    ensures r.Sound? ==> forall slot :: LastOfName(slots, slot) && slot.name in r.lifted.slots ==>
              Governed(s, slot.plan, r.lifted.slots[slot.name])
  {
    hide Project, Governed, LastOfName;
    var plan := Gamma(slots);
    if plan.None? { return BadSlots; }
    PlanExact(slots);
    var planned := plan.value;
    var lifted := Alpha(s, planned, payload);
    var i := 0;
    while i < |planned|
      invariant 0 <= i <= |planned|
      invariant forall k :: 0 <= k < i && planned[k].name in lifted.slots ==>
                  Governed(s, planned[k].plan, lifted.slots[planned[k].name])
    {
      var slot := planned[i];
      if slot.name in lifted.slots {
        var v := lifted.slots[slot.name];
        assert SlotLifted(s, slot, payload, lifted);
        ProjectSound(s, slot.plan, payload[slot.name].s);
        var held := Holds(s, slot.plan, v);
        if !held { return Escaped(slot.name, v); }
      }
      i := i + 1;
    }
    return Sound(lifted);
  }

  /** Admissible, or some ancestor is. */
  method Holds(s: Settings, plan: Plan, v: string) returns (yes: bool)
    ensures yes <==> Governed(s, plan, v)
  {
    if v in plan.admissible { return true; }
    if plan.dimension.None? { return false; }
    var up := Ancestors(s.dims, plan.dimension.value, v);
    var found := Find(a => a in plan.admissible, up);
    return found.Some?;
  }
}
