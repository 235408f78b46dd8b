/** The identity graph as a fold over an append-only event log (src/graph.js). */
module Graph {
  /* Time-sorted replay, the cached projection, authorisation against the granted layer, and key status.

     Timestamps are integers. An event's dimensions are the (dimension, value) pairs the code visits; a
     declared role table is the (actor, role) pairs. Whether an authority event is vouched for is a
     predicate. */

  import opened Lattice
  import opened Options

  datatype Pair = Pair(dimension: string, value: string)

  datatype Class = Ai | Anchored

  datatype Reason = Rotated | Compromised

  datatype Event =
    | Grant(actor: string, at: int, pairs: seq<Pair>, role: Option<string>)
    | Revoke(actor: string, at: int, pairs: seq<Pair>, role: Option<string>)
    | BindKey(actor: string, at: int, key: string)
    | RevokeKey(actor: string, at: int, key: string, reason: Reason, effectiveFrom: Option<int>)
    | Observe(actor: string, at: int, pairs: seq<Pair>, cls: Class)

  /** Merged observations of one value. */
  datatype Stat = Stat(count: nat, ai: nat, anchored: nat, first: int, last: int)

  /** `dims` are the dimensions ever granted or revoked, which stay listed when emptied. */
  datatype Actor = Actor(roles: set<string>, granted: set<Pair>, dims: set<string>, keys: set<string>,
                         observed: map<Pair, Stat>)

  type Actors = map<string, Actor>

  datatype RoleSeed = RoleSeed(actor: string, role: string)

  const NEW_ACTOR := Actor({}, {}, {}, {}, map[])

  function Lookup(actors: Actors, actor: string): Actor {
    if actor in actors then actors[actor] else NEW_ACTOR
  }

  /* ---------- one event ---------- */

  function RoleSet(role: Option<string>): set<string> {
    if role.Some? && role.value != "" then {role.value} else {}
  }

  function GrantPairs(a: Actor, pairs: seq<Pair>): Actor {
    if pairs == [] then a
    else
      var b := GrantPairs(a, pairs[..|pairs| - 1]);
      var p := pairs[|pairs| - 1];
      b.(granted := b.granted + {p}, dims := b.dims + {p.dimension})
  }

  function RevokePairs(a: Actor, pairs: seq<Pair>): Actor {
    if pairs == [] then a
    else
      var b := RevokePairs(a, pairs[..|pairs| - 1]);
      var p := pairs[|pairs| - 1];
      b.(granted := b.granted - {p}, dims := b.dims + {p.dimension})
  }

  /** Counts add, bounds take the minimum and maximum. */
  function Merge(prev: Option<Stat>, cls: Class, when: int): Stat {
    var s := if prev.Some? then prev.value else Stat(0, 0, 0, when, when);
    Stat(s.count + 1, s.ai + (if cls.Ai? then 1 else 0), s.anchored + (if cls.Ai? then 0 else 1),
         if when < s.first then when else s.first, if when > s.last then when else s.last)
  }

  function StatAt(observed: map<Pair, Stat>, p: Pair): Option<Stat> {
    if p in observed then Some(observed[p]) else None
  }

  function ObservePairs(observed: map<Pair, Stat>, pairs: seq<Pair>, cls: Class, when: int): map<Pair, Stat> {
    if pairs == [] then observed
    else
      var o := ObservePairs(observed, pairs[..|pairs| - 1], cls, when);
      var p := pairs[|pairs| - 1];
      o[p := Merge(StatAt(o, p), cls, when)]
  }

  function Updated(a: Actor, e: Event): Actor {
    match e
    case Grant(_, _, pairs, role) => GrantPairs(a.(roles := a.roles + RoleSet(role)), pairs)
    case Revoke(_, _, pairs, role) => RevokePairs(a.(roles := a.roles - RoleSet(role)), pairs)
    case BindKey(_, _, key) => a.(keys := a.keys + {key})
    case RevokeKey(_, _, key, _, _) => a.(keys := a.keys - {key})
    case Observe(_, at, pairs, cls) => a.(observed := ObservePairs(a.observed, pairs, cls, at))
  }

  function Step(actors: Actors, e: Event): Actors {
    actors[e.actor := Updated(Lookup(actors, e.actor), e)]
  }

  /* ---------- the log in time order ---------- */

  /** Puts an event after every event no later than it: ties keep their append order. */
  function Place(sorted: seq<Event>, e: Event): seq<Event> {
    if sorted == [] || sorted[|sorted| - 1].at <= e.at then sorted + [e]
    else Place(sorted[..|sorted| - 1], e) + [sorted[|sorted| - 1]]
  }

  function TimeSorted(log: seq<Event>): seq<Event> {
    if log == [] then [] else Place(TimeSorted(log[..|log| - 1]), log[|log| - 1])
  }

  predicate Within(e: Event, asOf: Option<int>) {
    asOf.None? || e.at <= asOf.value
  }

  function FoldFrom(actors: Actors, events: seq<Event>, asOf: Option<int>): Actors {
    if events == [] then actors
    else
      var before := FoldFrom(actors, events[..|events| - 1], asOf);
      var e := events[|events| - 1];
      if Within(e, asOf) then Step(before, e) else before
  }

  function SeedRoles(actors: Actors, seeds: seq<RoleSeed>): Actors {
    if seeds == [] then actors
    else
      var before := SeedRoles(actors, seeds[..|seeds| - 1]);
      var s := seeds[|seeds| - 1];
      var a := Lookup(before, s.actor);
      before[s.actor := a.(roles := a.roles + {s.role})]
  }

  /** The projection of a log at a time, or of the whole log. */
  function Projection(seeds: seq<RoleSeed>, log: seq<Event>, asOf: Option<int>): Actors {
    SeedRoles(FoldFrom(map[], TimeSorted(log), asOf), seeds)
  }

  /* ---------- reading a projection ---------- */

  /** Everything a footprint shows; keys are not part of it. Weight is a function of count and last. */
  datatype Footprint = Footprint(roles: set<string>, granted: set<Pair>, dims: set<string>, observed: map<Pair, Stat>)

  function FootprintOf(actors: Actors, actor: string): Option<Footprint> {
    if actor !in actors then None
    else var a := actors[actor]; Some(Footprint(a.roles, a.granted, a.dims, a.observed))
  }

  ghost function GrantedIn(granted: set<Pair>, dimension: string): set<string> {
    set p | p in granted && p.dimension == dimension :: p.value
  }

  /** Every boundary value lies under a grant in its dimension. */
  ghost predicate Authorised(dims: Dimensions, actors: Actors, actor: string, boundary: seq<Pair>) {
    && actor in actors
    && forall i :: 0 <= i < |boundary| ==>
         var d := boundary[i].dimension;
         IsCovered(dims, d, GrantedIn(actors[actor].granted, d), boundary[i].value)
  }

  datatype KeyStatus = KeyStatus(active: bool, compromised: bool)

  predicate About(e: Event, actor: string, key: string) {
    e.actor == actor && (e.BindKey? || e.RevokeKey?) && e.key == key
  }

  /** When a compromise takes effect: its own date unless it says otherwise. */
  function EffectiveAt(e: Event): int
    requires e.RevokeKey?
  {
    if e.effectiveFrom.Some? then e.effectiveFrom.value else e.at
  }

  /** The flags after the key events of a time-sorted log. The whole log is read, whatever asOf is. */
  /** What one event makes of the flags at a time. */
  function Flagged(s: KeyStatus, e: Event, actor: string, key: string, t: int): KeyStatus {
    if !About(e, actor, key) then s
    else if e.BindKey? then (if e.at <= t then s.(active := true) else s)
    else if e.reason.Compromised? then (if EffectiveAt(e) <= t then s.(compromised := true) else s)
    else if e.at <= t then s.(active := false)
    else s
  }

  function KeyScan(events: seq<Event>, actor: string, key: string, t: int): KeyStatus {
    if events == [] then KeyStatus(false, false)
    else Flagged(KeyScan(events[..|events| - 1], actor, key, t), events[|events| - 1], actor, key, t)
  }

  function StatusOf(log: seq<Event>, actor: string, key: string, t: int): KeyStatus {
    var s := KeyScan(TimeSorted(log), actor, key, t);
    KeyStatus(s.active && !s.compromised, s.compromised)
  }

  /* ---------- the runtime ---------- */

  class GraphRuntime {
    const dims: Dimensions
    const seeds: seq<RoleSeed>
    /** Whether a registered grantor signed an authority event, or no registry asks for it. */
    const vouched: Event -> bool
    var events: seq<Event>
    var cache: Option<Actors>

    /** The cached projection is a fresh replay of the whole log. */
    ghost predicate Valid()
      reads this
    {
      cache.Some? ==> cache.value == Projection(seeds, events, None)
    }

    constructor (dims: Dimensions, seeds: seq<RoleSeed>, vouched: Event -> bool, replayed: seq<Event>)
      ensures Valid() && events == replayed && this.dims == dims && this.seeds == seeds && this.vouched == vouched
    {
      this.dims := dims;
      this.seeds := seeds;
      this.vouched := vouched;
      events := replayed;
      cache := None;
    }

    /** An authority event nobody vouches for is refused and changes nothing. */
    method Append(e: Event) returns (ok: bool)
      requires Valid()
      modifies this
      ensures Valid() && ok == (e.Observe? || vouched(e))
      ensures events == if ok then old(events) + [e] else old(events)
    {
      if !e.Observe? && !vouched(e) { return false; }
      events := events + [e];
      cache := None;
      return true;
    }

    /** The current state is cached; a state at a time is replayed. */
    method Project(asOf: Option<int>) returns (actors: Actors)
      requires Valid()
      modifies this`cache
      ensures Valid() && actors == Projection(seeds, events, asOf)
    {
      if asOf.None? && cache.Some? { return cache.value; }
      var ordered := TimeSorted(events);
      actors := map[];
      var i := 0;
      while i < |ordered|
        invariant 0 <= i <= |ordered| && cache == old(cache)
        invariant actors == FoldFrom(map[], ordered[..i], asOf)
      {
        var e := ordered[i];
        assert ordered[..i + 1][..i] == ordered[..i];
        if Within(e, asOf) {
          var a := ApplyTo(Lookup(actors, e.actor), e);
          actors := actors[e.actor := a];
        }
        i := i + 1;
      }
      assert ordered[..i] == ordered;
      ghost var folded := actors;
      var j := 0;
      while j < |seeds|
        invariant 0 <= j <= |seeds| && cache == old(cache)
        invariant actors == SeedRoles(folded, seeds[..j])
      {
        assert seeds[..j + 1][..j] == seeds[..j];
        var a := Lookup(actors, seeds[j].actor);
        actors := actors[seeds[j].actor := a.(roles := a.roles + {seeds[j].role})];
        j := j + 1;
      }
      assert seeds[..j] == seeds;
      if asOf.None? { cache := Some(actors); }
    }

    method ApplyTo(start: Actor, e: Event) returns (a: Actor)
      ensures a == Updated(start, e)
    {
      a := start;
      var i := 0;
      match e {
        case Grant(_, _, pairs, role) =>
          a := a.(roles := a.roles + RoleSet(role));
          ghost var b := a;
          while i < |pairs|
            invariant 0 <= i <= |pairs| && a == GrantPairs(b, pairs[..i])
          {
            assert pairs[..i + 1][..i] == pairs[..i];
            a := a.(granted := a.granted + {pairs[i]}, dims := a.dims + {pairs[i].dimension});
            i := i + 1;
          }
          assert pairs[..i] == pairs;
        case Revoke(_, _, pairs, role) =>
          a := a.(roles := a.roles - RoleSet(role));
          ghost var b := a;
          while i < |pairs|
            invariant 0 <= i <= |pairs| && a == RevokePairs(b, pairs[..i])
          {
            assert pairs[..i + 1][..i] == pairs[..i];
            a := a.(granted := a.granted - {pairs[i]}, dims := a.dims + {pairs[i].dimension});
            i := i + 1;
          }
          assert pairs[..i] == pairs;
        case BindKey(_, _, key) => a := a.(keys := a.keys + {key});
        case RevokeKey(_, _, key, _, _) => a := a.(keys := a.keys - {key});
        case Observe(_, at, pairs, cls) =>
          while i < |pairs|
            invariant 0 <= i <= |pairs|
            invariant a == start.(observed := ObservePairs(start.observed, pairs[..i], cls, at))
          {
            assert pairs[..i + 1][..i] == pairs[..i];
            a := a.(observed := a.observed[pairs[i] := Merge(StatAt(a.observed, pairs[i]), cls, at)]);
            i := i + 1;
          }
          assert pairs[..i] == pairs;
      }
    }

    method ReadFootprint(actor: string, asOf: Option<int>) returns (fp: Option<Footprint>)
      requires Valid()
      modifies this`cache
      ensures Valid() && fp == FootprintOf(Projection(seeds, events, asOf), actor)
    {
      var actors := Project(asOf);
      fp := FootprintOf(actors, actor);
    }

    /** boundary within the granted footprint; reads the prescriptive layer only. */
    method Authorize(actor: string, boundary: seq<Pair>, asOf: Option<int>) returns (ok: bool)
      requires Valid()
      modifies this`cache
      ensures Valid() && (ok <==> Authorised(dims, Projection(seeds, events, asOf), actor, boundary))
    {
      hide IsCovered, Projection, Valid;
      var fp := ReadFootprint(actor, asOf);
      if fp.None? { return false; }
      ok := true;
      var i := 0;
      while i < |boundary|
        invariant 0 <= i <= |boundary| && Valid()
        invariant ok <==> forall k :: 0 <= k < i ==>
                    var d := boundary[k].dimension;
                    IsCovered(dims, d, GrantedIn(fp.value.granted, d), boundary[k].value)
      {
        var granted := set p | p in fp.value.granted && p.dimension == boundary[i].dimension :: p.value;
        var covered := Covers(dims, boundary[i].dimension, granted, boundary[i].value);
        ok := ok && covered;
        i := i + 1;
      }
    }

    /** Key validity at a signing time: a compromise recorded later reaches back to its effective date. */
    method ReadKeyStatus(actor: string, key: string, t: int) returns (status: KeyStatus)
      ensures status == StatusOf(events, actor, key, t)
    {
      var ordered := TimeSorted(events);
      var active, compromised := false, false;
      var i := 0;
      while i < |ordered|
        invariant 0 <= i <= |ordered|
        invariant KeyStatus(active, compromised) == KeyScan(ordered[..i], actor, key, t)
      {
        var e := ordered[i];
        assert ordered[..i + 1][..i] == ordered[..i];
        if About(e, actor, key) {
          if e.BindKey? {
            if e.at <= t { active := true; }
          } else if e.reason.Compromised? {
            if EffectiveAt(e) <= t { compromised := true; }
          } else {
            if e.at <= t { active := false; }
          }
        }
        i := i + 1;
      }
      assert ordered[..i] == ordered;
      return KeyStatus(active && !compromised, compromised);
    }
  }
}
