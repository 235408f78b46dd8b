/** What every layer of a projection holds, counted over the log (src/graph.js:226-286). */
module LayerProofs {
  import opened Graph
  import opened GraphProofs
  import opened Options

  /* ---------- roles and keys ---------- */

  /** The grants and revocations of a role by a time. */
  function RoleWriting(actor: string, role: string, asOf: Option<int>): Event -> bool {
    (e: Event) => (e.Grant? || e.Revoke?) && e.actor == actor && e.role == Some(role) && role != "" && Within(e, asOf)
  }

  function KeyWriting(actor: string, key: string, asOf: Option<int>): Event -> bool {
    (e: Event) => About(e, actor, key) && Within(e, asOf)
  }

  /** The role is declared, or its last grant or revocation by then is a grant. */
  lemma RolesExact(seeds: seq<RoleSeed>, log: seq<Event>, actor: string, role: string, asOf: Option<int>)
    ensures role in Lookup(Projection(seeds, log, asOf), actor).roles <==>
              || RoleSeed(actor, role) in seeds
              || exists i :: IsLast(RoleWriting(actor, role, asOf), log, i) && log[i].Grant?
  {
    var q := RoleWriting(actor, role, asOf);
    SortedLast(q, log);
    LastIndexExact(q, log);
    FoldRoles(TimeSorted(log), actor, role, asOf);
    SeededRoles(FoldFrom(map[], TimeSorted(log), asOf), seeds, actor, role);
  }

  lemma {:induction false} SeededRoles(actors: Actors, seeds: seq<RoleSeed>, actor: string, role: string)
    ensures role in Lookup(SeedRoles(actors, seeds), actor).roles <==>
              role in Lookup(actors, actor).roles || RoleSeed(actor, role) in seeds
  {
    if seeds != [] {
      var n := |seeds| - 1;
      SeededRoles(actors, seeds[..n], actor, role);
      assert seeds == seeds[..n] + [seeds[n]];
    }
  }

  lemma UpdatedRoles(a: Actor, e: Event, role: string)
    ensures role in Updated(a, e).roles <==>
              if e.Grant? && e.role == Some(role) && role != "" then true
              else if e.Revoke? && e.role == Some(role) && role != "" then false
              else role in a.roles
  {
    match e {
      case Grant(_, _, pairs, r) => PairsGranted(a.(roles := a.roles + RoleSet(r)), pairs, Pair("", ""));
      case Revoke(_, _, pairs, r) => PairsGranted(a.(roles := a.roles - RoleSet(r)), pairs, Pair("", ""));
      case _ =>
    }
  }

  lemma {:induction false} FoldRoles(s: seq<Event>, actor: string, role: string, asOf: Option<int>)
    ensures var last := LastOf(RoleWriting(actor, role, asOf), s);
            role in Lookup(FoldFrom(map[], s, asOf), actor).roles <==> last.Some? && last.value.Grant?
  {
    hide Updated;
    if s != [] {
      var n := |s| - 1;
      FoldRoles(s[..n], actor, role, asOf);
      UpdatedRoles(Lookup(FoldFrom(map[], s[..n], asOf), s[n].actor), s[n], role);
    }
  }

  /** A key is bound exactly when its last binding or revocation by then is a binding. */
  lemma KeysExact(seeds: seq<RoleSeed>, log: seq<Event>, actor: string, key: string, asOf: Option<int>)
    ensures key in Lookup(Projection(seeds, log, asOf), actor).keys <==>
              exists i :: IsLast(KeyWriting(actor, key, asOf), log, i) && log[i].BindKey?
  {
    var q := KeyWriting(actor, key, asOf);
    SortedLast(q, log);
    LastIndexExact(q, log);
    FoldKeys(TimeSorted(log), actor, key, asOf);
    SeedsOnlyAddRoles(FoldFrom(map[], TimeSorted(log), asOf), seeds, actor);
  }

  lemma {:induction false} PairsKeepKeys(a: Actor, pairs: seq<Pair>)
    ensures GrantPairs(a, pairs).keys == a.keys && RevokePairs(a, pairs).keys == a.keys
  {
    if pairs != [] { PairsKeepKeys(a, pairs[..|pairs| - 1]); }
  }

  lemma {:induction false} FoldKeys(s: seq<Event>, actor: string, key: string, asOf: Option<int>)
    ensures var last := LastOf(KeyWriting(actor, key, asOf), s);
            key in Lookup(FoldFrom(map[], s, asOf), actor).keys <==> last.Some? && last.value.BindKey?
  {
    if s != [] {
      var n := |s| - 1;
      var e := s[n];
      FoldKeys(s[..n], actor, key, asOf);
      var a := Lookup(FoldFrom(map[], s[..n], asOf), e.actor);
      if e.Grant? { PairsKeepKeys(a.(roles := a.roles + RoleSet(e.role)), e.pairs); }
      if e.Revoke? { PairsKeepKeys(a.(roles := a.roles - RoleSet(e.role)), e.pairs); }
    }
  }

  /* ---------- the status of a key ---------- */

  /** The bindings of a key and its revocations for any reason but a compromise, by a time. */
  function Toggling(actor: string, key: string, t: int): Event -> bool {
    (e: Event) => e.actor == actor && e.at <= t
      && ((e.BindKey? && e.key == key) || (e.RevokeKey? && e.key == key && e.reason == Rotated))
  }

  /** A compromise of the key that has taken effect by a time: on the day it names, or else on its own. */
  ghost predicate Taints(e: Event, actor: string, key: string, t: int) {
    && e.RevokeKey? && e.actor == actor && e.key == key && e.reason == Compromised
    && (match e.effectiveFrom case Some(from) => from <= t case None => e.at <= t)
  }

  lemma FlaggedMeans(s: KeyStatus, e: Event, actor: string, key: string, t: int)
    ensures Flagged(s, e, actor, key, t).active == if Toggling(actor, key, t)(e) then e.BindKey? else s.active
    ensures Flagged(s, e, actor, key, t).compromised <==> s.compromised || Taints(e, actor, key, t)
  {
  }

  lemma {:induction false} ScanMeans(s: seq<Event>, actor: string, key: string, t: int)
    ensures var last := LastOf(Toggling(actor, key, t), s);
            KeyScan(s, actor, key, t).active <==> last.Some? && last.value.BindKey?
    ensures KeyScan(s, actor, key, t).compromised <==> exists e :: e in s && Taints(e, actor, key, t)
  {
    hide Flagged, Taints, Toggling;
    if s != [] {
      var n := |s| - 1;
      ScanMeans(s[..n], actor, key, t);
      FlaggedMeans(KeyScan(s[..n], actor, key, t), s[n], actor, key, t);
      assert forall e :: e in s <==> e in s[..n] || e == s[n] by { assert s == s[..n] + [s[n]]; }
    }
  }

  /** A key is compromised at a time exactly when the log has a compromise of it that reaches back to then. It is
      active exactly when it is not, and the last binding or rotation of it by then is a binding. */
  lemma StatusExact(log: seq<Event>, actor: string, key: string, t: int)
    ensures var s := StatusOf(log, actor, key, t);
            && (s.compromised <==> exists e :: e in log && Taints(e, actor, key, t))
            && (s.active <==>
                  !s.compromised && exists i :: IsLast(Toggling(actor, key, t), log, i) && log[i].BindKey?)
  {
    var q, s := Toggling(actor, key, t), TimeSorted(log);
    SortedLast(q, log);
    LastIndexExact(q, log);
    ScanMeans(s, actor, key, t);
    TimeSortedSorts(log);
    hide TimeSorted, Taints, KeyScan, Toggling;
    forall e ensures e in s <==> e in log {
      assert e in s <==> e in multiset(s);
      assert e in log <==> e in multiset(log);
    }
    forall i, j | IsLast(q, log, i) && IsLast(q, log, j) ensures i == j { LastIsOne(q, log, i, j); }
  }

  /* ---------- dimensions ---------- */

  lemma {:induction false} PairsDims(a: Actor, pairs: seq<Pair>, d: string)
    ensures d in GrantPairs(a, pairs).dims <==> d in a.dims || exists p :: p in pairs && p.dimension == d
    ensures RevokePairs(a, pairs).dims == GrantPairs(a, pairs).dims
  {
    if pairs != [] {
      PairsDims(a, pairs[..|pairs| - 1], d);
      PairsDimsAgree(a, pairs);
      assert pairs == pairs[..|pairs| - 1] + [pairs[|pairs| - 1]];
    }
  }

  lemma {:induction false} PairsDimsAgree(a: Actor, pairs: seq<Pair>)
    ensures RevokePairs(a, pairs).dims == GrantPairs(a, pairs).dims
  {
    if pairs != [] { PairsDimsAgree(a, pairs[..|pairs| - 1]); }
  }

  /** A grant or revocation of the actor by the time that names a value of the dimension. */
  ghost predicate Touches(e: Event, actor: string, d: string, asOf: Option<int>) {
    (e.Grant? || e.Revoke?) && e.actor == actor && Within(e, asOf) && exists p :: p in e.pairs && p.dimension == d
  }

  lemma UpdatedDims(a: Actor, e: Event, d: string)
    ensures d in Updated(a, e).dims <==>
              d in a.dims || ((e.Grant? || e.Revoke?) && exists p :: p in e.pairs && p.dimension == d)
  {
    match e {
      case Grant(_, _, pairs, role) => PairsDims(a.(roles := a.roles + RoleSet(role)), pairs, d);
      case Revoke(_, _, pairs, role) => PairsDims(a.(roles := a.roles - RoleSet(role)), pairs, d);
      case _ =>
    }
  }

  lemma {:induction false} FoldDims(s: seq<Event>, actor: string, d: string, asOf: Option<int>)
    ensures d in Lookup(FoldFrom(map[], s, asOf), actor).dims <==> exists e :: e in s && Touches(e, actor, d, asOf)
  {
    if s != [] {
      var n := |s| - 1;
      FoldDims(s[..n], actor, d, asOf);
      StepDims(FoldFrom(map[], s[..n], asOf), s[n], actor, d, asOf);
      hide Touches, Updated;
      assert forall e :: e in s <==> e in s[..n] || e == s[n] by { assert s == s[..n] + [s[n]]; }
    }
  }

  lemma StepDims(before: Actors, e: Event, actor: string, d: string, asOf: Option<int>)
    ensures var after := if Within(e, asOf) then Step(before, e) else before;
            d in Lookup(after, actor).dims <==> d in Lookup(before, actor).dims || Touches(e, actor, d, asOf)
  {
    UpdatedDims(Lookup(before, e.actor), e, d);
    hide Updated;
  }

  /** The granted layer lists exactly the dimensions some grant or revocation of the actor by then names, emptied
      ones included. */
  lemma DimsExact(seeds: seq<RoleSeed>, log: seq<Event>, actor: string, d: string, asOf: Option<int>)
    ensures var dims := Lookup(Projection(seeds, log, asOf), actor).dims;
            d in dims <==> exists e :: e in log && Touches(e, actor, d, asOf)
  {
    var s := TimeSorted(log);
    FoldDims(s, actor, d, asOf);
    SeedsOnlyAddRoles(FoldFrom(map[], s, asOf), seeds, actor);
    TimeSortedSorts(log);
    hide TimeSorted, Touches, FoldFrom, SeedRoles;
    forall e ensures e in s <==> e in log {
      assert e in s <==> e in multiset(s);
      assert e in log <==> e in multiset(log);
    }
  }

  /* ---------- observations ---------- */

  /** An observation of the actor by the time that lists the value. */
  ghost predicate Sees(e: Event, actor: string, p: Pair, asOf: Option<int>) {
    e.Observe? && e.actor == actor && Within(e, asOf) && p in e.pairs
  }

  /** How often the event observes the value. */
  ghost function Times(e: Event, actor: string, p: Pair, asOf: Option<int>): nat {
    if e.Observe? && e.actor == actor && Within(e, asOf) then multiset(e.pairs)[p] else 0
  }

  /** How often the events of a log observe the value, altogether or in one class. */
  ghost function Observed(log: seq<Event>, actor: string, p: Pair, asOf: Option<int>): nat {
    if log == [] then 0
    else Observed(log[..|log| - 1], actor, p, asOf) + Times(log[|log| - 1], actor, p, asOf)
  }

  ghost function ObservedAs(cls: Class, log: seq<Event>, actor: string, p: Pair, asOf: Option<int>): nat {
    if log == [] then 0
    else
      var e := log[|log| - 1];
      ObservedAs(cls, log[..|log| - 1], actor, p, asOf)
      + (if e.Observe? && e.cls == cls then Times(e, actor, p, asOf) else 0)
  }

  /** The time of an observation of the value, and none is earlier; or none later. */
  ghost predicate IsFirst(log: seq<Event>, actor: string, p: Pair, asOf: Option<int>, t: int) {
    && (exists e :: e in log && Sees(e, actor, p, asOf) && e.at == t)
    && forall e :: e in log && Sees(e, actor, p, asOf) ==> t <= e.at
  }

  ghost predicate IsLatest(log: seq<Event>, actor: string, p: Pair, asOf: Option<int>, t: int) {
    && (exists e :: e in log && Sees(e, actor, p, asOf) && e.at == t)
    && forall e :: e in log && Sees(e, actor, p, asOf) ==> e.at <= t
  }

  /** What the observed layer must hold for a value. */
  ghost predicate Tells(observed: map<Pair, Stat>, log: seq<Event>, actor: string, p: Pair, asOf: Option<int>) {
    && (p in observed <==> exists e :: e in log && Sees(e, actor, p, asOf))
    && (p in observed ==>
          var s := observed[p];
          && s.count == Observed(log, actor, p, asOf)
          && s.ai == ObservedAs(Ai, log, actor, p, asOf) && s.anchored == ObservedAs(Anchored, log, actor, p, asOf)
          && IsFirst(log, actor, p, asOf, s.first) && IsLatest(log, actor, p, asOf, s.last))
  }

  /** One observation in a list of pairs. */
  lemma {:induction false} PairsObserved(observed: map<Pair, Stat>, pairs: seq<Pair>, cls: Class, when: int, p: Pair)
    ensures var n, o := multiset(pairs)[p], ObservePairs(observed, pairs, cls, when);
            if n == 0 then StatAt(o, p) == StatAt(observed, p)
            else
              && p in o
              && var prev := if p in observed then observed[p] else Stat(0, 0, 0, when, when);
                 o[p] == Stat(prev.count + n, prev.ai + (if cls.Ai? then n else 0),
                              prev.anchored + (if cls.Ai? then 0 else n),
                              if when < prev.first then when else prev.first,
                              if when > prev.last then when else prev.last)
    decreases |pairs|
  {
    if pairs != [] {
      var n := |pairs| - 1;
      PairsObserved(observed, pairs[..n], cls, when, p);
      assert pairs == pairs[..n] + [pairs[n]];
    }
  }

  lemma UpdatedObserved(a: Actor, e: Event)
    ensures !e.Observe? ==> Updated(a, e).observed == a.observed
  {
    match e {
      case Grant(_, _, pairs, r) => PairsGranted(a.(roles := a.roles + RoleSet(r)), pairs, Pair("", ""));
      case Revoke(_, _, pairs, r) => PairsGranted(a.(roles := a.roles - RoleSet(r)), pairs, Pair("", ""));
      case _ =>
    }
  }

  lemma CountsSnoc(log: seq<Event>, e: Event, actor: string, p: Pair, asOf: Option<int>)
    ensures Observed(log + [e], actor, p, asOf) == Observed(log, actor, p, asOf) + Times(e, actor, p, asOf)
    ensures forall cls :: ObservedAs(cls, log + [e], actor, p, asOf)
                       == ObservedAs(cls, log, actor, p, asOf)
                          + (if e.Observe? && e.cls == cls then Times(e, actor, p, asOf) else 0)
  {
    hide Times;
    assert (log + [e])[..|log|] == log;
  }

  lemma NothingCounted(log: seq<Event>, actor: string, p: Pair, asOf: Option<int>)
    requires forall e :: e in log ==> !Sees(e, actor, p, asOf)
    ensures Observed(log, actor, p, asOf) == 0 && forall cls :: ObservedAs(cls, log, actor, p, asOf) == 0
  {
    if log != [] {
      var n := |log| - 1;
      assert log[n] in log;
      NothingCounted(log[..n], actor, p, asOf);
    }
  }

  /** An event that does not observe the value leaves what is told of it. */
  lemma TellsSkip(observed: map<Pair, Stat>, other: map<Pair, Stat>, log: seq<Event>, e: Event, actor: string, p: Pair,
                  asOf: Option<int>)
    requires Tells(observed, log, actor, p, asOf) && !Sees(e, actor, p, asOf)
    requires StatAt(other, p) == StatAt(observed, p)
    ensures Tells(other, log + [e], actor, p, asOf)
  {
    CountsSnoc(log, e, actor, p, asOf);
    assert Times(e, actor, p, asOf) == 0;
    hide Sees, Times;
    assert forall x :: x in log + [e] && Sees(x, actor, p, asOf) <==> x in log && Sees(x, actor, p, asOf);
    if p in observed {
      assert other[p] == observed[p];
      var x :| x in log && Sees(x, actor, p, asOf) && x.at == observed[p].first;
      var y :| y in log && Sees(y, actor, p, asOf) && y.at == observed[p].last;
      assert x in log + [e] && y in log + [e];
    }
  }

  /** One that does adds what it observes. */
  lemma TellsMore(observed: map<Pair, Stat>, log: seq<Event>, e: Event, actor: string, p: Pair, asOf: Option<int>)
    requires Tells(observed, log, actor, p, asOf) && Sees(e, actor, p, asOf)
    ensures Tells(ObservePairs(observed, e.pairs, e.cls, e.at), log + [e], actor, p, asOf)
  {
    PairsObserved(observed, e.pairs, e.cls, e.at, p);
    CountsSnoc(log, e, actor, p, asOf);
    assert Times(e, actor, p, asOf) == multiset(e.pairs)[p] > 0;
    if p !in observed { NothingCounted(log, actor, p, asOf); }
    hide Sees, Times, ObservePairs, Observed, ObservedAs;
    assert e in log + [e];
    assert e.cls.Ai? || e.cls == Anchored;
    var o := ObservePairs(observed, e.pairs, e.cls, e.at);
    FirstMore(log, e, actor, p, asOf, if p in observed then Some(observed[p].first) else None);
    LatestMore(log, e, actor, p, asOf, if p in observed then Some(observed[p].last) else None);
  }

  lemma FirstMore(log: seq<Event>, e: Event, actor: string, p: Pair, asOf: Option<int>, before: Option<int>)
    requires Sees(e, actor, p, asOf)
    requires if before.Some? then IsFirst(log, actor, p, asOf, before.value)
             else forall x :: x in log ==> !Sees(x, actor, p, asOf)
    ensures IsFirst(log + [e], actor, p, asOf, if before.None? || e.at < before.value then e.at else before.value)
  {
    hide Sees;
    assert e in log + [e];
    if before.Some? {
      var x :| x in log && Sees(x, actor, p, asOf) && x.at == before.value;
      assert x in log + [e];
    }
  }

  lemma LatestMore(log: seq<Event>, e: Event, actor: string, p: Pair, asOf: Option<int>, before: Option<int>)
    requires Sees(e, actor, p, asOf)
    requires if before.Some? then IsLatest(log, actor, p, asOf, before.value)
             else forall x :: x in log ==> !Sees(x, actor, p, asOf)
    ensures IsLatest(log + [e], actor, p, asOf, if before.None? || e.at > before.value then e.at else before.value)
  {
    hide Sees;
    assert e in log + [e];
    if before.Some? {
      var x :| x in log && Sees(x, actor, p, asOf) && x.at == before.value;
      assert x in log + [e];
    }
  }

  lemma {:induction false} FoldObserved(s: seq<Event>, actor: string, p: Pair, asOf: Option<int>)
    ensures Tells(Lookup(FoldFrom(map[], s, asOf), actor).observed, s, actor, p, asOf)
  {
    hide Updated, Tells;
    if s == [] {
      NothingTold(actor, p, asOf);
    } else {
      var n := |s| - 1;
      var e, before := s[n], FoldFrom(map[], s[..n], asOf);
      FoldObserved(s[..n], actor, p, asOf);
      assert s == s[..n] + [e];
      StepTells(before, s[..n], e, actor, p, asOf);
    }
  }

  lemma NothingTold(actor: string, p: Pair, asOf: Option<int>)
    ensures Tells(map[], [], actor, p, asOf)
  {
  }

  lemma StepTells(before: Actors, log: seq<Event>, e: Event, actor: string, p: Pair, asOf: Option<int>)
    requires Tells(Lookup(before, actor).observed, log, actor, p, asOf)
    ensures var after := if Within(e, asOf) then Step(before, e) else before;
            Tells(Lookup(after, actor).observed, log + [e], actor, p, asOf)
  {
    hide Tells, ObservePairs;
    var a := Lookup(before, actor);
    UpdatedObserved(a, e);
    if Sees(e, actor, p, asOf) {
      TellsMore(a.observed, log, e, actor, p, asOf);
    } else {
      var after := if Within(e, asOf) then Step(before, e) else before;
      if e.Observe? { PairsObserved(a.observed, e.pairs, e.cls, e.at, p); }
      TellsSkip(a.observed, Lookup(after, actor).observed, log, e, actor, p, asOf);
    }
  }

  /* ---------- counting does not depend on the order ---------- */

  lemma {:induction false} PlaceCounts(s: seq<Event>, e: Event, actor: string, p: Pair, asOf: Option<int>)
    ensures Observed(Place(s, e), actor, p, asOf) == Observed(s, actor, p, asOf) + Times(e, actor, p, asOf)
    ensures forall cls :: ObservedAs(cls, Place(s, e), actor, p, asOf)
                       == ObservedAs(cls, s, actor, p, asOf)
                          + (if e.Observe? && e.cls == cls then Times(e, actor, p, asOf) else 0)
  {
    hide Times, Observed, ObservedAs;
    if s == [] || s[|s| - 1].at <= e.at {
      CountsSnoc(s, e, actor, p, asOf);
    } else {
      var n := |s| - 1;
      PlaceCounts(s[..n], e, actor, p, asOf);
      CountsSnoc(Place(s[..n], e), s[n], actor, p, asOf);
      CountsSnoc(s[..n], s[n], actor, p, asOf);
      assert s == s[..n] + [s[n]];
    }
  }

  lemma {:induction false} SortedCounts(log: seq<Event>, actor: string, p: Pair, asOf: Option<int>)
    ensures Observed(TimeSorted(log), actor, p, asOf) == Observed(log, actor, p, asOf)
    ensures forall cls :: ObservedAs(cls, TimeSorted(log), actor, p, asOf) == ObservedAs(cls, log, actor, p, asOf)
  {
    hide Times, Observed, ObservedAs, Place;
    if log != [] {
      var n := |log| - 1;
      SortedCounts(log[..n], actor, p, asOf);
      PlaceCounts(TimeSorted(log[..n]), log[n], actor, p, asOf);
      CountsSnoc(log[..n], log[n], actor, p, asOf);
      assert log == log[..n] + [log[n]];
    }
  }

  /** The observed layer has a value exactly when some observation of the actor by then lists it. Its count is
      how often the log lists it so, split by class, and its bounds are the first and the last of those times. */
  lemma ObservedExact(seeds: seq<RoleSeed>, log: seq<Event>, actor: string, p: Pair, asOf: Option<int>)
    ensures Tells(Lookup(Projection(seeds, log, asOf), actor).observed, log, actor, p, asOf)
  {
    var s := TimeSorted(log);
    FoldObserved(s, actor, p, asOf);
    SeedsOnlyAddRoles(FoldFrom(map[], s, asOf), seeds, actor);
    SortedCounts(log, actor, p, asOf);
    TimeSortedSorts(log);
    hide TimeSorted, Sees, Observed, ObservedAs, FoldFrom, SeedRoles;
    forall e ensures e in s <==> e in log {
      assert e in s <==> e in multiset(s);
      assert e in log <==> e in multiset(log);
    }
  }
}
