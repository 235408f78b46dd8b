/** What the identity graph's fold guarantees (src/graph.js:193-368). */
module GraphProofs {
  /* The last writer decides a grant, the order of the log does not matter beyond ties between authority
     events, observation never grants, and key status reaches backward for compromise and only forward for
     rotation. */

  import opened Graph
  import opened Lattice
  import opened Options

  /* ---------- filtering a log ---------- */

  function Where(p: Event -> bool, s: seq<Event>): seq<Event> {
    if s == [] then []
    else if p(s[|s| - 1]) then Where(p, s[..|s| - 1]) + [s[|s| - 1]]
    else Where(p, s[..|s| - 1])
  }

  function IsAuthority(e: Event): bool {
    !e.Observe?
  }

  function IsObserve(e: Event): bool {
    e.Observe?
  }

  function AuthorityAt(t: int): Event -> bool {
    (e: Event) => !e.Observe? && e.at == t
  }

  function At(t: int): Event -> bool {
    (e: Event) => e.at == t
  }

  ghost predicate SortedByTime(s: seq<Event>) {
    forall i, j :: 0 <= i < j < |s| ==> s[i].at <= s[j].at
  }

  lemma WhereSnoc(p: Event -> bool, s: seq<Event>, e: Event)
    ensures Where(p, s + [e]) == if p(e) then Where(p, s) + [e] else Where(p, s)
  {
    assert (s + [e])[..|s|] == s;
  }

  lemma {:induction false} WhereMembers(p: Event -> bool, s: seq<Event>)
    ensures forall e :: e in Where(p, s) <==> e in s && p(e)
  {
    if s != [] {
      WhereMembers(p, s[..|s| - 1]);
      assert s == s[..|s| - 1] + [s[|s| - 1]];
    }
  }

  lemma {:induction false} WhereCounts(p: Event -> bool, s: seq<Event>, e: Event)
    ensures multiset(Where(p, s))[e] == if p(e) then multiset(s)[e] else 0
  {
    if s != [] {
      WhereCounts(p, s[..|s| - 1], e);
      assert s == s[..|s| - 1] + [s[|s| - 1]];
    }
  }

  lemma {:induction false} WhereSorted(p: Event -> bool, s: seq<Event>)
    requires SortedByTime(s)
    ensures SortedByTime(Where(p, s))
  {
    if s != [] {
      var n := |s| - 1;
      WhereSorted(p, s[..n]);
      WhereMembers(p, s[..n]);
      var w := Where(p, s[..n]);
      forall i | 0 <= i < |w| ensures w[i].at <= s[n].at {
        assert w[i] in w;
        var k :| 0 <= k < n && s[..n][k] == w[i];
        assert s[k].at <= s[n].at;
      }
    }
  }

  /** Filtering twice is filtering by both. */
  lemma {:induction false} WhereWhere(p: Event -> bool, q: Event -> bool, s: seq<Event>)
    requires forall e :: q(e) ==> p(e)
    ensures Where(q, Where(p, s)) == Where(q, s)
  {
    if s != [] {
      var n := |s| - 1;
      WhereWhere(p, q, s[..n]);
      if p(s[n]) { WhereSnoc(q, Where(p, s[..n]), s[n]); }
    }
  }

  /* ---------- sorting ---------- */

  lemma {:induction false} PlaceElements(s: seq<Event>, e: Event)
    ensures multiset(Place(s, e)) == multiset(s) + multiset{e}
  {
    if s != [] && s[|s| - 1].at > e.at {
      var n := |s| - 1;
      PlaceElements(s[..n], e);
      PlaceBefore(s, e);
      hide Place;
      assert s == s[..n] + [s[n]];
    }
  }

  lemma PlaceBefore(s: seq<Event>, e: Event)
    requires s != [] && s[|s| - 1].at > e.at
    ensures Place(s, e) == Place(s[..|s| - 1], e) + [s[|s| - 1]]
  {
  }

  lemma {:induction false} PlaceSorted(s: seq<Event>, e: Event, bound: int)
    requires SortedByTime(s) && e.at <= bound && forall i :: 0 <= i < |s| ==> s[i].at <= bound
    ensures SortedByTime(Place(s, e)) && forall i :: 0 <= i < |Place(s, e)| ==> Place(s, e)[i].at <= bound
  {
    if s != [] && s[|s| - 1].at > e.at {
      PlaceSorted(s[..|s| - 1], e, s[|s| - 1].at);
    }
  }

  lemma {:induction false} TimeSortedSorts(log: seq<Event>)
    ensures SortedByTime(TimeSorted(log)) && multiset(TimeSorted(log)) == multiset(log)
  {
    if log != [] {
      var n := |log| - 1;
      TimeSortedSorts(log[..n]);
      var s := TimeSorted(log[..n]);
      PlaceElements(s, log[n]);
      PlaceSortedAny(s, log[n]);
      hide Place, SortedByTime;
      assert log == log[..n] + [log[n]];
    }
  }

  lemma PlaceSortedAny(s: seq<Event>, e: Event)
    requires SortedByTime(s)
    ensures SortedByTime(Place(s, e))
  {
    hide Place;
    PlaceSorted(s, e, if s == [] || s[|s| - 1].at < e.at then e.at else s[|s| - 1].at);
  }

  /** Sorting keeps events of one time in their append order. */
  lemma {:induction false} PlaceStable(q: Event -> bool, t: int, s: seq<Event>, e: Event)
    requires SortedByTime(s) && forall x :: q(x) ==> x.at == t
    ensures Where(q, Place(s, e)) == if q(e) then Where(q, s) + [e] else Where(q, s)
  {
    if s == [] || s[|s| - 1].at <= e.at {
      WhereSnoc(q, s, e);
    } else {
      var n := |s| - 1;
      PlaceStable(q, t, s[..n], e);
      WhereSnoc(q, Place(s[..n], e), s[n]);
      if q(e) { assert !q(s[n]); }
    }
  }

  lemma {:induction false} SortStable(q: Event -> bool, t: int, log: seq<Event>)
    requires forall x :: q(x) ==> x.at == t
    ensures Where(q, TimeSorted(log)) == Where(q, log)
  {
    if log != [] {
      var n := |log| - 1;
      SortStable(q, t, log[..n]);
      TimeSortedSorts(log[..n]);
      PlaceStable(q, t, TimeSorted(log[..n]), log[n]);
    }
  }

  /** Sorted logs that agree at every time are equal. */
  lemma {:induction false} SortedByGroups(x: seq<Event>, y: seq<Event>)
    requires SortedByTime(x) && SortedByTime(y)
    requires forall t :: Where(At(t), x) == Where(At(t), y)
    ensures x == y
    decreases |x|
  {
    hide Where;
    LastOfGroup(x);
    LastOfGroup(y);
    EmptyTogether(x, y);
    EmptyTogether(y, x);
    if x != [] {
      var m, n := |x| - 1, |y| - 1;
      GroupBound(x, y);
      GroupBound(y, x);
      assert Where(At(x[m].at), x) == Where(At(x[m].at), y);
      assert x[m] == y[n];
      forall t ensures Where(At(t), x[..m]) == Where(At(t), y[..n]) {
        assert Where(At(t), x) == Where(At(t), y);
        WithoutLast(x, t);
        WithoutLast(y, t);
      }
      SortedByGroups(x[..m], y[..n]);
      assert x == x[..m] + [x[m]] && y == y[..n] + [y[n]];
    }
  }

  lemma EmptyTogether(x: seq<Event>, y: seq<Event>)
    requires forall t :: Where(At(t), x) == Where(At(t), y)
    ensures y == [] ==> x == []
  {
    if x != [] {
      LastOfGroup(x);
      assert Where(At(x[|x| - 1].at), y) != [];
    }
  }

  lemma WithoutLast(x: seq<Event>, t: int)
    requires x != []
    ensures var w := Where(At(t), x);
            Where(At(t), x[..|x| - 1]) == if x[|x| - 1].at == t then w[..|w| - 1] else w
  {
  }

  lemma LastOfGroup(x: seq<Event>)
    ensures x != [] ==> var w := Where(At(x[|x| - 1].at), x); w != [] && w[|w| - 1] == x[|x| - 1]
  {
  }

  lemma GroupBound(x: seq<Event>, y: seq<Event>)
    requires SortedByTime(y) && x != [] && y != []
    requires forall t :: Where(At(t), x) == Where(At(t), y)
    ensures x[|x| - 1].at <= y[|y| - 1].at
  {
    hide Where, SortedByTime;
    var e := x[|x| - 1];
    LastOfGroup(x);
    assert e in Where(At(e.at), y);
    WhereMembers(At(e.at), y);
    NoneAfterLast(y, e);
  }

  lemma NoneAfterLast(y: seq<Event>, e: Event)
    requires SortedByTime(y) && e in y
    ensures e.at <= y[|y| - 1].at
  {
    var k :| 0 <= k < |y| && y[k] == e;
    assert k < |y| - 1 ==> y[k].at <= y[|y| - 1].at;
  }

  /* ---------- events that commute ---------- */

  lemma MergeCommutes(s: Option<Stat>, c: Class, w: int, d: Class, v: int)
    ensures Merge(Some(Merge(s, c, w)), d, v) == Merge(Some(Merge(s, d, v)), c, w)
  {
  }

  function ObserveOne(o: map<Pair, Stat>, p: Pair, c: Class, w: int): map<Pair, Stat> {
    o[p := Merge(StatAt(o, p), c, w)]
  }

  lemma ObserveOneCommutes(o: map<Pair, Stat>, p: Pair, c: Class, w: int, q: Pair, d: Class, v: int)
    ensures ObserveOne(ObserveOne(o, p, c, w), q, d, v) == ObserveOne(ObserveOne(o, q, d, v), p, c, w)
  {
    MergeCommutes(StatAt(o, p), c, w, d, v);
  }

  lemma {:induction false} ObserveOneThroughPairs(o: map<Pair, Stat>, p: Pair, c: Class, w: int, qs: seq<Pair>,
                                                  d: Class, v: int)
    ensures ObservePairs(ObserveOne(o, p, c, w), qs, d, v) == ObserveOne(ObservePairs(o, qs, d, v), p, c, w)
  {
    if qs != [] {
      var n := |qs| - 1;
      ObserveOneThroughPairs(o, p, c, w, qs[..n], d, v);
      ObserveOneCommutes(ObservePairs(o, qs[..n], d, v), p, c, w, qs[n], d, v);
    }
  }

  lemma {:induction false} ObservePairsCommute(o: map<Pair, Stat>, ps: seq<Pair>, c: Class, w: int, qs: seq<Pair>,
                                               d: Class, v: int)
    ensures ObservePairs(ObservePairs(o, ps, c, w), qs, d, v) == ObservePairs(ObservePairs(o, qs, d, v), ps, c, w)
  {
    if ps != [] {
      var n := |ps| - 1;
      ObservePairsCommute(o, ps[..n], c, w, qs, d, v);
      ObserveOneThroughPairs(ObservePairs(o, ps[..n], c, w), ps[n], c, w, qs, d, v);
    }
  }

  lemma {:induction false} AuthorityPairsKeepObserved(a: Actor, pairs: seq<Pair>, o: map<Pair, Stat>)
    ensures GrantPairs(a.(observed := o), pairs) == GrantPairs(a, pairs).(observed := o)
    ensures RevokePairs(a.(observed := o), pairs) == RevokePairs(a, pairs).(observed := o)
    ensures GrantPairs(a, pairs).observed == a.observed && RevokePairs(a, pairs).observed == a.observed
  {
    if pairs != [] { AuthorityPairsKeepObserved(a, pairs[..|pairs| - 1], o); }
  }

  /** An authority event neither reads nor writes observations. */
  lemma AuthorityIgnoresObserved(a: Actor, f: Event, o: map<Pair, Stat>)
    requires IsAuthority(f)
    ensures Updated(a.(observed := o), f) == Updated(a, f).(observed := o)
    ensures Updated(a, f).observed == a.observed
  {
    match f {
      case Grant(_, _, pairs, role) => AuthorityPairsKeepObserved(a.(roles := a.roles + RoleSet(role)), pairs, o);
      case Revoke(_, _, pairs, role) => AuthorityPairsKeepObserved(a.(roles := a.roles - RoleSet(role)), pairs, o);
      case _ =>
    }
  }

  lemma UpdatedCommutes(a: Actor, e: Event, f: Event)
    requires IsObserve(e)
    ensures Updated(Updated(a, e), f) == Updated(Updated(a, f), e)
  {
    if IsObserve(f) {
      ObservePairsCommute(a.observed, e.pairs, e.cls, e.at, f.pairs, f.cls, f.at);
    } else {
      AuthorityIgnoresObserved(a, f, ObservePairs(a.observed, e.pairs, e.cls, e.at));
    }
  }

  function StepWithin(actors: Actors, e: Event, asOf: Option<int>): Actors {
    if Within(e, asOf) then Step(actors, e) else actors
  }

  lemma StepCommutes(actors: Actors, e: Event, f: Event, asOf: Option<int>)
    requires IsObserve(e)
    ensures StepWithin(StepWithin(actors, e, asOf), f, asOf) == StepWithin(StepWithin(actors, f, asOf), e, asOf)
  {
    hide Updated;
    if e.actor == f.actor { UpdatedCommutes(Lookup(actors, e.actor), e, f); }
  }

  lemma FoldSnoc(actors: Actors, s: seq<Event>, e: Event, asOf: Option<int>)
    ensures FoldFrom(actors, s + [e], asOf) == StepWithin(FoldFrom(actors, s, asOf), e, asOf)
  {
    assert (s + [e])[..|s|] == s;
  }

  lemma {:induction false} FoldAppend(actors: Actors, s: seq<Event>, u: seq<Event>, asOf: Option<int>)
    ensures FoldFrom(actors, s + u, asOf) == FoldFrom(FoldFrom(actors, s, asOf), u, asOf)
    decreases |u|
  {
    if u == [] {
      assert s + u == s;
    } else {
      var n := |u| - 1;
      FoldAppend(actors, s, u[..n], asOf);
      assert s + u == (s + u[..n]) + [u[n]];
      FoldSnoc(actors, s + u[..n], u[n], asOf);
    }
  }

  /** An observation may be folded before or after any run of events. */
  lemma {:induction false} ObserveThrough(actors: Actors, e: Event, s: seq<Event>, asOf: Option<int>)
    requires IsObserve(e)
    ensures FoldFrom(StepWithin(actors, e, asOf), s, asOf) == StepWithin(FoldFrom(actors, s, asOf), e, asOf)
    decreases |s|
  {
    hide Step;
    if s != [] {
      var n := |s| - 1;
      ObserveThrough(actors, e, s[..n], asOf);
      StepCommutes(FoldFrom(actors, s[..n], asOf), e, s[n], asOf);
    }
  }

  /** Any event may be folded before or after a run of observations. */
  lemma {:induction false} ThroughObserves(actors: Actors, x: Event, s: seq<Event>, asOf: Option<int>)
    requires forall i :: 0 <= i < |s| ==> IsObserve(s[i])
    ensures FoldFrom(StepWithin(actors, x, asOf), s, asOf) == StepWithin(FoldFrom(actors, s, asOf), x, asOf)
    decreases |s|
  {
    hide Step;
    if s != [] {
      var n := |s| - 1;
      ThroughObserves(actors, x, s[..n], asOf);
      StepCommutes(FoldFrom(actors, s[..n], asOf), s[n], x, asOf);
    }
  }

  /** A log folds like its authority events followed by its observations. */
  lemma {:induction false} FoldSplits(actors: Actors, s: seq<Event>, asOf: Option<int>)
    ensures FoldFrom(actors, s, asOf)
         == FoldFrom(FoldFrom(actors, Where(IsAuthority, s), asOf), Where(IsObserve, s), asOf)
    decreases |s|
  {
    hide Step;
    if s != [] {
      var n := |s| - 1;
      var au, ob := Where(IsAuthority, s[..n]), Where(IsObserve, s[..n]);
      var base := FoldFrom(actors, au, asOf);
      FoldSplits(actors, s[..n], asOf);
      if IsObserve(s[n]) {
        FoldSnoc(base, ob, s[n], asOf);
        assert Where(IsAuthority, s) == au;
      } else {
        WhereMembers(IsObserve, s[..n]);
        assert forall i :: 0 <= i < |ob| ==> ob[i] in ob;
        ThroughObserves(base, s[n], ob, asOf);
        FoldSnoc(actors, au, s[n], asOf);
        assert Where(IsObserve, s) == ob;
      }
    }
  }

  lemma {:induction false} ObservesPermute(actors: Actors, u: seq<Event>, v: seq<Event>, asOf: Option<int>)
    requires multiset(u) == multiset(v) && forall e :: e in u ==> IsObserve(e)
    ensures FoldFrom(actors, u, asOf) == FoldFrom(actors, v, asOf)
    decreases |u|
  {
    hide FoldFrom, StepWithin;
    SameSize(u, v);
    if u == [] {
      assert v == [];
    } else {
      var n := |u| - 1;
      var x := u[n];
      assert u == u[..n] + [x];
      var i := Locate(u, v);
      RemovedOnce(u, x, v[..i], v[i + 1..]);
      ObservesPermute(actors, u[..n], v[..i] + v[i + 1..], asOf);
      MoveLast(actors, v[..i], x, v[i + 1..], asOf);
      FoldSnoc(actors, u[..n], x, asOf);
    }
  }

  lemma SameSize(u: seq<Event>, v: seq<Event>)
    requires multiset(u) == multiset(v)
    ensures |u| == |v|
  {
    assert |u| == |multiset(u)| == |multiset(v)| == |v|;
  }

  /** Where the last event of one permutation stands in the other. */
  lemma Locate(u: seq<Event>, v: seq<Event>) returns (i: nat)
    requires u != [] && multiset(u) == multiset(v)
    ensures i < |v| && v == v[..i] + [u[|u| - 1]] + v[i + 1..]
  {
    assert u[|u| - 1] in multiset(v);
    i :| 0 <= i < |v| && v[i] == u[|u| - 1];
  }

  lemma RemovedOnce(u: seq<Event>, x: Event, v1: seq<Event>, v2: seq<Event>)
    requires u != [] && u[|u| - 1] == x && multiset(u) == multiset(v1 + [x] + v2)
    ensures multiset(u[..|u| - 1]) == multiset(v1 + v2)
  {
    assert u == u[..|u| - 1] + [x];
    assert multiset(u[..|u| - 1]) == multiset(u) - multiset{x};
    assert multiset(v1 + v2) == multiset(v1 + [x] + v2) - multiset{x};
  }

  lemma MoveLast(actors: Actors, v1: seq<Event>, x: Event, v2: seq<Event>, asOf: Option<int>)
    requires IsObserve(x)
    ensures FoldFrom(actors, v1 + [x] + v2, asOf) == StepWithin(FoldFrom(actors, v1 + v2, asOf), x, asOf)
  {
    hide Step;
    FoldAppend(actors, v1 + [x], v2, asOf);
    FoldSnoc(actors, v1, x, asOf);
    ObserveThrough(FoldFrom(actors, v1, asOf), x, v2, asOf);
    FoldAppend(actors, v1, v2, asOf);
  }

  /* ---------- order independence ---------- */

  /** The same events, with authority events of one timestamp in the same relative order. */
  ghost predicate SameUpToOrder(log: seq<Event>, other: seq<Event>) {
    multiset(log) == multiset(other) && SameAuthority(log, other)
  }

  ghost predicate SameAuthority(log: seq<Event>, other: seq<Event>) {
    forall t :: Where(AuthorityAt(t), log) == Where(AuthorityAt(t), other)
  }

  lemma AuthoritySorted(log: seq<Event>, other: seq<Event>)
    requires SameAuthority(log, other)
    ensures Where(IsAuthority, TimeSorted(log)) == Where(IsAuthority, TimeSorted(other))
  {
    var x, y := Where(IsAuthority, TimeSorted(log)), Where(IsAuthority, TimeSorted(other));
    TimeSortedSorts(log);
    TimeSortedSorts(other);
    WhereSorted(IsAuthority, TimeSorted(log));
    WhereSorted(IsAuthority, TimeSorted(other));
    forall t ensures Where(At(t), x) == Where(At(t), y) {
      AuthorityGroup(log, t);
      AuthorityGroup(other, t);
      assert Where(AuthorityAt(t), log) == Where(AuthorityAt(t), other);
    }
    SortedByGroups(x, y);
  }

  lemma AuthorityGroup(log: seq<Event>, t: int)
    ensures Where(At(t), Where(IsAuthority, TimeSorted(log))) == Where(AuthorityAt(t), log)
  {
    SortStable(AuthorityAt(t), t, log);
    WhereBoth(TimeSorted(log), t);
  }

  lemma {:induction false} WhereBoth(s: seq<Event>, t: int)
    ensures Where(At(t), Where(IsAuthority, s)) == Where(AuthorityAt(t), s)
  {
    if s != [] {
      var n := |s| - 1;
      WhereBoth(s[..n], t);
      if IsAuthority(s[n]) { WhereSnoc(At(t), Where(IsAuthority, s[..n]), s[n]); }
    }
  }

  /** Reordering the log, short of reordering simultaneous authority events, changes no projection:
      not the current one, nor any past one. */
  lemma OrderIndependence(seeds: seq<RoleSeed>, log: seq<Event>, other: seq<Event>, asOf: Option<int>)
    requires SameUpToOrder(log, other)
    ensures Projection(seeds, log, asOf) == Projection(seeds, other, asOf)
  {
    var s, u := TimeSorted(log), TimeSorted(other);
    AuthoritySorted(log, other);
    TimeSortedSorts(log);
    TimeSortedSorts(other);
    var base := FoldFrom(map[], Where(IsAuthority, s), asOf);
    FoldSplits(map[], s, asOf);
    FoldSplits(map[], u, asOf);
    forall e ensures multiset(Where(IsObserve, s))[e] == multiset(Where(IsObserve, u))[e] {
      WhereCounts(IsObserve, s, e);
      WhereCounts(IsObserve, u, e);
    }
    assert multiset(Where(IsObserve, s)) == multiset(Where(IsObserve, u));
    WhereMembers(IsObserve, s);
    ObservesPermute(base, Where(IsObserve, s), Where(IsObserve, u), asOf);
  }

  /* ---------- observation never grants ---------- */

  lemma {:induction false} ObservesGrantNothing(actors: Actors, s: seq<Event>, asOf: Option<int>, actor: string)
    requires forall i :: 0 <= i < |s| ==> IsObserve(s[i])
    ensures Lookup(FoldFrom(actors, s, asOf), actor).granted == Lookup(actors, actor).granted
    decreases |s|
  {
    if s != [] { ObservesGrantNothing(actors, s[..|s| - 1], asOf, actor); }
  }

  lemma {:induction false} SeedsOnlyAddRoles(actors: Actors, seeds: seq<RoleSeed>, actor: string)
    ensures var before, after := Lookup(actors, actor), Lookup(SeedRoles(actors, seeds), actor);
            after == before.(roles := after.roles)
    ensures actor in actors ==> actor in SeedRoles(actors, seeds)
  {
    if seeds != [] { SeedsOnlyAddRoles(actors, seeds[..|seeds| - 1], actor); }
  }

  lemma SameGrants(seeds: seq<RoleSeed>, log: seq<Event>, other: seq<Event>, asOf: Option<int>, actor: string)
    requires SameAuthority(log, other)
    ensures Lookup(Projection(seeds, log, asOf), actor).granted == Lookup(Projection(seeds, other, asOf), actor).granted
  {
    hide Step;
    AuthoritySorted(log, other);
    GrantsFromAuthority(seeds, log, asOf, actor);
    GrantsFromAuthority(seeds, other, asOf, actor);
  }

  lemma GrantsFromAuthority(seeds: seq<RoleSeed>, log: seq<Event>, asOf: Option<int>, actor: string)
    ensures Lookup(Projection(seeds, log, asOf), actor).granted
         == Lookup(FoldFrom(map[], Where(IsAuthority, TimeSorted(log)), asOf), actor).granted
  {
    hide Step;
    var s := TimeSorted(log);
    var base := FoldFrom(map[], Where(IsAuthority, s), asOf);
    FoldSplits(map[], s, asOf);
    WhereMembers(IsObserve, s);
    var ob := Where(IsObserve, s);
    assert forall i :: 0 <= i < |ob| ==> ob[i] in ob;
    ObservesGrantNothing(base, ob, asOf, actor);
    SeedsOnlyAddRoles(FoldFrom(map[], s, asOf), seeds, actor);
  }

  lemma NothingCoversUngranted(dims: Dimensions, dimension: string, v: string)
    ensures !IsCovered(dims, dimension, GrantedIn({}, dimension), v)
  {
    assert GrantedIn({}, dimension) == {};
  }

  /** Logs that differ only in observations, inserted or removed anywhere and in any number, authorise
      the same boundaries. */
  lemma ObservationNeverGrants(dims: Dimensions, seeds: seq<RoleSeed>, log: seq<Event>, other: seq<Event>,
                               asOf: Option<int>, actor: string, boundary: seq<Pair>)
    requires Where(IsAuthority, log) == Where(IsAuthority, other) && boundary != []
    ensures Authorised(dims, Projection(seeds, log, asOf), actor, boundary)
       <==> Authorised(dims, Projection(seeds, other, asOf), actor, boundary)
  {
    hide Projection, IsCovered;
    forall t ensures Where(AuthorityAt(t), log) == Where(AuthorityAt(t), other) {
      WhereWhere(IsAuthority, AuthorityAt(t), log);
      WhereWhere(IsAuthority, AuthorityAt(t), other);
    }
    SameGrants(seeds, log, other, asOf, actor);
    NothingCoversUngranted(dims, boundary[0].dimension, boundary[0].value);
  }

  /** A boundary that requires nothing is granted to whoever the graph knows, and an observation alone
      makes an actor known: with no value required the theorem fails. */
  lemma EmptyBoundaryObserved(dims: Dimensions, e: Event)
    requires e.Observe?
    ensures Where(IsAuthority, []) == Where(IsAuthority, [e])
    ensures !Authorised(dims, Projection([], [], None), e.actor, [])
    ensures Authorised(dims, Projection([], [e], None), e.actor, [])
  {
    assert [e][..0] == [];
    assert Where(IsAuthority, [e]) == [];
    assert TimeSorted([e]) == [e];
    assert FoldFrom(map[], [e], None).Keys == {e.actor};
  }

  /* ---------- the last writer ---------- */

  predicate Names(e: Event, actor: string, p: Pair) {
    (e.Grant? || e.Revoke?) && e.actor == actor && p in e.pairs
  }

  /** The events that write a value by a time. */
  function Writing(actor: string, p: Pair, asOf: Option<int>): Event -> bool {
    e => Names(e, actor, p) && Within(e, asOf)
  }

  /** The index of the latest event of a kind, ties going to the later append. */
  function LastIndex(q: Event -> bool, log: seq<Event>): (r: Option<nat>)
    ensures r.Some? ==> r.value < |log|
  {
    if log == [] then None
    else
      var n := |log| - 1;
      var before := LastIndex(q, log[..n]);
      if q(log[n]) && (before.None? || log[before.value].at <= log[n].at) then Some(n) else before
  }

  /** The index of the latest grant or revoke naming the value by a time. */
  function LastWriter(log: seq<Event>, actor: string, p: Pair, asOf: Option<int>): (r: Option<nat>)
    ensures r.Some? ==> r.value < |log|
  {
    LastIndex(Writing(actor, p, asOf), log)
  }

  /** Event i is of the kind, none of the kind is later, and none at the same time was appended after it. */
  ghost predicate IsLast(q: Event -> bool, log: seq<Event>, i: int) {
    && 0 <= i < |log| && q(log[i])
    && forall j :: 0 <= j < |log| && j != i && q(log[j]) ==>
         log[j].at < log[i].at || (log[j].at == log[i].at && j < i)
  }

  lemma {:induction false} LastIndexExact(q: Event -> bool, log: seq<Event>)
    ensures var w := LastIndex(q, log);
            if w.None? then forall i :: 0 <= i < |log| ==> !q(log[i]) else IsLast(q, log, w.value)
  {
    if log != [] {
      var n := |log| - 1;
      LastIndexExact(q, log[..n]);
      assert forall i :: 0 <= i < n ==> log[..n][i] == log[i];
    }
  }

  lemma LastIsOne(q: Event -> bool, log: seq<Event>, i: int, j: int)
    requires IsLast(q, log, i) && IsLast(q, log, j)
    ensures i == j
  {
  }

  ghost predicate Writes(log: seq<Event>, i: nat, actor: string, p: Pair, asOf: Option<int>)
    requires i < |log|
  {
    Names(log[i], actor, p) && Within(log[i], asOf)
  }

  /** No write is later than the last writer, and none at the same time was appended after it. */
  lemma LastWriterIsLast(log: seq<Event>, actor: string, p: Pair, asOf: Option<int>)
    ensures var w := LastWriter(log, actor, p, asOf);
            if w.None? then forall i :: 0 <= i < |log| ==> !Writes(log, i, actor, p, asOf)
            else Writes(log, w.value, actor, p, asOf)
                 && forall i :: 0 <= i < |log| && i != w.value && Writes(log, i, actor, p, asOf) ==>
                      log[i].at < log[w.value].at || (log[i].at == log[w.value].at && i < w.value)
  {
    var q := Writing(actor, p, asOf);
    LastIndexExact(q, log);
    assert forall i :: 0 <= i < |log| ==> (Writes(log, i, actor, p, asOf) <==> q(log[i]));
  }

  /** The last event of a kind in a sequence. */
  function LastOf(q: Event -> bool, s: seq<Event>): Option<Event> {
    if s == [] then None
    else
      var e := s[|s| - 1];
      if q(e) then Some(e) else LastOf(q, s[..|s| - 1])
  }

  /** The later of two events, the second winning ties. */
  function Later(q: Event -> bool, w: Option<Event>, e: Event): Option<Event> {
    if q(e) && (w.None? || w.value.at <= e.at) then Some(e) else w
  }

  lemma {:induction false} LastOfIn(q: Event -> bool, s: seq<Event>)
    ensures LastOf(q, s).Some? ==> LastOf(q, s).value in s
  {
    if s != [] { LastOfIn(q, s[..|s| - 1]); }
  }

  lemma LastOfSnoc(q: Event -> bool, s: seq<Event>, e: Event)
    ensures LastOf(q, s + [e]) == if q(e) then Some(e) else LastOf(q, s)
  {
    assert (s + [e])[..|s|] == s;
  }

  lemma NoLater(s: seq<Event>, e: Event, w: Option<Event>)
    requires SortedByTime(s) && (s == [] || s[|s| - 1].at <= e.at) && (w.Some? ==> w.value in s)
    ensures w.Some? ==> w.value.at <= e.at
  {
    if w.Some? {
      var k :| 0 <= k < |s| && s[k] == w.value;
      assert k < |s| - 1 ==> s[k].at <= s[|s| - 1].at;
    }
  }

  lemma {:induction false} PlaceLast(q: Event -> bool, s: seq<Event>, e: Event)
    requires SortedByTime(s)
    ensures LastOf(q, Place(s, e)) == Later(q, LastOf(q, s), e)
  {
    hide LastOf;
    LastOfIn(q, s);
    if s == [] || s[|s| - 1].at <= e.at {
      LastOfSnoc(q, s, e);
      NoLater(s, e, LastOf(q, s));
    } else {
      var n := |s| - 1;
      PlaceLast(q, s[..n], e);
      LastOfSnoc(q, Place(s[..n], e), s[n]);
      LastOfSnoc(q, s[..n], s[n]);
      assert s == s[..n] + [s[n]];
    }
  }

  /** The last event of a kind in time order is the latest of the log. */
  lemma {:induction false} SortedLast(q: Event -> bool, log: seq<Event>)
    ensures var w := LastIndex(q, log);
            LastOf(q, TimeSorted(log)) == if w.None? then None else Some(log[w.value])
  {
    hide Place, LastOf, SortedByTime;
    if log == [] {
      NoneLast(q);
    } else {
      var n := |log| - 1;
      SortedLast(q, log[..n]);
      TimeSortedSorts(log[..n]);
      PlaceLast(q, TimeSorted(log[..n]), log[n]);
    }
  }

  lemma NoneLast(q: Event -> bool)
    ensures LastOf(q, []) == None
  {
  }

  lemma {:induction false} PairsGranted(a: Actor, pairs: seq<Pair>, p: Pair)
    ensures p in GrantPairs(a, pairs).granted <==> p in pairs || p in a.granted
    ensures p in RevokePairs(a, pairs).granted <==> p !in pairs && p in a.granted
    ensures GrantPairs(a, pairs).roles == a.roles && RevokePairs(a, pairs).roles == a.roles
    ensures GrantPairs(a, pairs).observed == a.observed && RevokePairs(a, pairs).observed == a.observed
  {
    if pairs != [] {
      PairsGranted(a, pairs[..|pairs| - 1], p);
      assert pairs == pairs[..|pairs| - 1] + [pairs[|pairs| - 1]];
    }
  }

  lemma UpdatedGranted(a: Actor, e: Event, p: Pair)
    ensures p in Updated(a, e).granted <==>
              if e.Grant? && p in e.pairs then true
              else if e.Revoke? && p in e.pairs then false
              else p in a.granted
  {
    match e {
      case Grant(_, _, pairs, role) => PairsGranted(a.(roles := a.roles + RoleSet(role)), pairs, p);
      case Revoke(_, _, pairs, role) => PairsGranted(a.(roles := a.roles - RoleSet(role)), pairs, p);
      case _ =>
    }
  }

  lemma {:induction false} FoldGranted(s: seq<Event>, actor: string, p: Pair, asOf: Option<int>)
    ensures var last := LastOf(Writing(actor, p, asOf), s);
            p in Lookup(FoldFrom(map[], s, asOf), actor).granted <==> last.Some? && last.value.Grant?
  {
    hide Updated;
    if s != [] {
      var n := |s| - 1;
      FoldGranted(s[..n], actor, p, asOf);
      UpdatedGranted(Lookup(FoldFrom(map[], s[..n], asOf), s[n].actor), s[n], p);
    }
  }

  /** A value is granted at a time exactly when the last grant or revoke naming it by then is a grant. */
  lemma GrantedIffLastWriter(seeds: seq<RoleSeed>, log: seq<Event>, actor: string, p: Pair, asOf: Option<int>)
    ensures var w := LastWriter(log, actor, p, asOf);
            p in Lookup(Projection(seeds, log, asOf), actor).granted <==> w.Some? && log[w.value].Grant?
  {
    SortedLast(Writing(actor, p, asOf), log);
    FoldGranted(TimeSorted(log), actor, p, asOf);
    SeedsOnlyAddRoles(FoldFrom(map[], TimeSorted(log), asOf), seeds, actor);
  }

  /* ---------- keys ---------- */

  ghost predicate CompromisedBy(s: seq<Event>, actor: string, key: string, t: int) {
    exists e :: e in s && Compromises(e, actor, key, t)
  }

  predicate Compromises(e: Event, actor: string, key: string, t: int) {
    About(e, actor, key) && e.RevokeKey? && e.reason.Compromised? && EffectiveAt(e) <= t
  }

  lemma {:induction false} ScanCompromised(s: seq<Event>, actor: string, key: string, t: int)
    ensures KeyScan(s, actor, key, t).compromised <==> CompromisedBy(s, actor, key, t)
  {
    if s != [] {
      var n := |s| - 1;
      ScanCompromised(s[..n], actor, key, t);
      assert s == s[..n] + [s[n]];
      assert s[n] in s;
      if CompromisedBy(s[..n], actor, key, t) {
        var e :| e in s[..n] && Compromises(e, actor, key, t);
        assert e in s;
      }
    }
  }

  /** A recorded compromise makes the key inactive at every time from its effective date on, and
      nothing appended later undoes it. */
  lemma CompromiseIsForever(log: seq<Event>, later: seq<Event>, e: Event, actor: string, key: string, t: int)
    requires e in log && Compromises(e, actor, key, t)
    ensures StatusOf(log + later, actor, key, t) == KeyStatus(false, true)
  {
    var all := log + later;
    TimeSortedSorts(all);
    assert e in multiset(all);
    assert e in TimeSorted(all);
    ScanCompromised(TimeSorted(all), actor, key, t);
  }

  /** The event changes no flag at t. */
  ghost predicate Inert(e: Event, actor: string, key: string, t: int) {
    forall s :: Flagged(s, e, actor, key, t) == s
  }

  lemma ScanSnoc(s: seq<Event>, e: Event, actor: string, key: string, t: int)
    ensures KeyScan(s + [e], actor, key, t) == Flagged(KeyScan(s, actor, key, t), e, actor, key, t)
  {
    hide Flagged;
    assert (s + [e])[..|s|] == s;
  }

  /** An event that changes no flag at t can be placed anywhere. */
  lemma {:induction false} PlaceInert(s: seq<Event>, e: Event, actor: string, key: string, t: int)
    requires Inert(e, actor, key, t)
    ensures KeyScan(Place(s, e), actor, key, t) == KeyScan(s, actor, key, t)
  {
    hide Flagged, KeyScan;
    if s == [] || s[|s| - 1].at <= e.at {
      ScanSnoc(s, e, actor, key, t);
    } else {
      var n := |s| - 1;
      PlaceInert(s[..n], e, actor, key, t);
      ScanSnoc(Place(s[..n], e), s[n], actor, key, t);
      ScanSnoc(s[..n], s[n], actor, key, t);
      assert s == s[..n] + [s[n]];
    }
  }

  /** A rotation dated r leaves every status before r as it was. */
  lemma RotationIsProspective(log: seq<Event>, e: Event, actor: string, key: string, t: int)
    requires e.RevokeKey? && e.reason.Rotated? && t < e.at
    ensures StatusOf(log + [e], actor, key, t) == StatusOf(log, actor, key, t)
  {
    assert (log + [e])[..|log|] == log;
    hide KeyScan;
    PlaceInert(TimeSorted(log), e, actor, key, t);
  }

  ghost predicate Uncompromised(s: seq<Event>, actor: string, key: string) {
    forall e :: e in s && About(e, actor, key) && e.RevokeKey? ==> e.reason.Rotated?
  }

  lemma {:induction false} PairsKeepKeys(a: Actor, pairs: seq<Pair>)
    ensures GrantPairs(a, pairs).keys == a.keys && RevokePairs(a, pairs).keys == a.keys
  {
    if pairs != [] { PairsKeepKeys(a, pairs[..|pairs| - 1]); }
  }

  lemma UpdatedKeys(a: Actor, e: Event)
    ensures Updated(a, e).keys ==
              if e.BindKey? then a.keys + {e.key} else if e.RevokeKey? then a.keys - {e.key} else a.keys
  {
    match e {
      case Grant(_, _, pairs, role) => PairsKeepKeys(a.(roles := a.roles + RoleSet(role)), pairs);
      case Revoke(_, _, pairs, role) => PairsKeepKeys(a.(roles := a.roles - RoleSet(role)), pairs);
      case _ =>
    }
  }

  lemma {:induction false} ScanAgreesWithFold(s: seq<Event>, actor: string, key: string, t: int)
    requires Uncompromised(s, actor, key)
    ensures KeyScan(s, actor, key, t).active <==> key in Lookup(FoldFrom(map[], s, Some(t)), actor).keys
  {
    hide Updated;
    if s != [] {
      var n := |s| - 1;
      assert s == s[..n] + [s[n]] && s[n] in s;
      ScanAgreesWithFold(s[..n], actor, key, t);
      UpdatedKeys(Lookup(FoldFrom(map[], s[..n], Some(t)), s[n].actor), s[n]);
    }
  }

  /** Where no compromise is recorded, a key is active at t exactly when the projection at t lists it. */
  lemma StatusAgreesWithProjection(seeds: seq<RoleSeed>, log: seq<Event>, actor: string, key: string, t: int)
    requires Uncompromised(log, actor, key)
    ensures StatusOf(log, actor, key, t).active <==> key in Lookup(Projection(seeds, log, Some(t)), actor).keys
  {
    var s := TimeSorted(log);
    TimeSortedSorts(log);
    forall e | e in s ensures e in log { assert e in multiset(s); }
    ScanAgreesWithFold(s, actor, key, t);
    ScanCompromised(s, actor, key, t);
    SeedsOnlyAddRoles(FoldFrom(map[], s, Some(t)), seeds, actor);
  }
}
