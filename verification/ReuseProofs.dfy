/** How far an inference can drift (src/runtime.js:228-264): how often it is inherited in a run, with every
    reopening in it. */
module ReuseProofs {
  import opened CanonicalJson
  import opened CounterProofs
  import opened Execution
  import opened ExecutionProofs
  import opened TraceStore

  /* ---------- the bound ---------- */

  lemma {:induction false} PowerFalls(x: real, n: nat, k: nat)
    requires 0.0 < x < 1.0 && n <= k
    ensures 0.0 < Power(x, k) <= Power(x, n)
    decreases k
  {
    hide Times;
    if n < k {
      PowerFalls(x, n, k - 1);
      Scaled(x, Power(x, k - 1));
    } else if k > 0 {
      PowerFalls(x, n - 1, k - 1);
      Scaled(x, Power(x, k - 1));
    }
  }

  lemma Positive(a: real, b: real)
    requires a > 0.0 && b > 0.0
    ensures Times(a, b) > 0.0
  {
  }

  lemma Splits(x: real, p: real)
    ensures Times(x, p) + Times(1.0 - x, p) == p
  {
  }

  lemma Scaled(x: real, p: real)
    requires 0.0 < x < 1.0 && p > 0.0
    ensures 0.0 < Times(x, p) < p
  {
    hide Times;
    Positive(x, p);
    Positive(1.0 - x, p);
    Splits(x, p);
  }

  /** The defaults, decay 0.75 and floor 0.4, allow four. */
  lemma DefaultBoundIsFour()
    ensures Power(0.75, 4) < 0.4 <= Power(0.75, 3)
  {
    assert Power(0.75, 1) == 0.75;
    assert Power(0.75, 2) == 0.5625;
    assert Power(0.75, 3) == 0.421875;
  }

  ghost predicate Decays(g: Settings, limit: nat) {
    0.0 < g.decay < 1.0 && Power(g.decay, limit) < g.floor
  }

  /** An inference at the floor or above has been reused fewer times than the limit. */
  lemma AdmittedBelowLimit(g: Settings, reuse: map<string, nat>, t: Trace, limit: nat)
    requires Decays(g, limit) && t.attestation.Ai? && t.confidence <= 1.0
    requires EffectiveConfidence(g, reuse, t) >= g.floor
    ensures TimesReused(reuse, t) < limit
  {
    var n := TimesReused(reuse, t);
    PowerFalls(g.decay, 0, n);
    assert t.confidence * Power(g.decay, n) <= 1.0 * Power(g.decay, n);
    if limit <= n { PowerFalls(g.decay, limit, n); }
  }

  /** The limit is reached: a fully confident inference is at the floor exactly while it has been reused
      fewer times than the least such limit. */
  lemma AdmittedExactly(g: Settings, reuse: map<string, nat>, t: Trace, limit: nat)
    requires limit > 0 && t.attestation.Ai? && t.confidence == 1.0
    ensures Decays(g, limit) && Power(g.decay, limit - 1) >= g.floor ==>
              (EffectiveConfidence(g, reuse, t) >= g.floor <==> TimesReused(reuse, t) < limit)
  {
    var n := TimesReused(reuse, t);
    if 0.0 < g.decay < 1.0 {
      if n < limit { PowerFalls(g.decay, n, limit - 1); } else { PowerFalls(g.decay, limit, n); }
    }
  }

  /* ---------- the ids a selection inherits ---------- */

  function Ids(view: View, traces: seq<Json>): seq<string> {
    if traces == [] then [] else Ids(view, traces[..|traces| - 1]) + [view(traces[|traces| - 1]).id]
  }

  /** No two visible traces have the same id, and no confidence exceeds one. */
  ghost predicate WellIdentified(c: Config, traces: seq<Json>) {
    && (forall id :: multiset(Ids(c.view, traces))[id] <= 1)
    && (forall b :: b in traces ==> c.view(b).confidence <= 1.0)
  }

  /** A trace the selection admits under this id. */
  ghost predicate AdmittedAs(c: Config, reuse: map<string, nat>, x: Context, who: Asker, b: Json, id: string) {
    c.view(b).id == id && c.view(b).attestation.Ai? && Fits(c.settings, reuse, x, who, c.view(b))
  }

  lemma {:induction false} PoolIds(c: Config, reuse: map<string, nat>, x: Context, who: Asker, traces: seq<Json>,
                                   id: string)
    ensures multiset(AiIds(c.view, Pool(c, reuse, x, who, traces)))[id] <= multiset(Ids(c.view, traces))[id]
    ensures id in AiIds(c.view, Pool(c, reuse, x, who, traces)) ==>
              exists b :: b in traces && AdmittedAs(c, reuse, x, who, b, id)
    decreases |traces|
  {
    hide Fits, AiIds;
    if traces == [] {
      AiIdsNone(c.view);
    } else {
      var n := |traces| - 1;
      assert traces == traces[..n] + [traces[n]];
      PoolIds(c, reuse, x, who, traces[..n], id);
      var before := Pool(c, reuse, x, who, traces[..n]);
      AiIdsSnoc(c.view, before, traces[n]);
      assert before + [] == before;
      if id in AiIds(c.view, before) {
        var b :| b in traces[..n] && AdmittedAs(c, reuse, x, who, b, id);
        assert b in traces;
      }
      assert traces[n] in traces;
    }
  }

  lemma AiIdsNone(view: View)
    ensures AiIds(view, []) == []
  {
  }

  lemma AiIdsSnoc(view: View, traces: seq<Json>, b: Json)
    ensures AiIds(view, traces + [b]) == AiIds(view, traces) + (if view(b).attestation.Ai? then [view(b).id] else [])
  {
    assert (traces + [b])[..|traces|] == traces;
  }

  lemma {:induction false} AiIdsConcat(view: View, a: seq<Json>, b: seq<Json>)
    ensures AiIds(view, a + b) == AiIds(view, a) + AiIds(view, b)
    decreases |b|
  {
    hide AiIds;
    if b == [] {
      AiIdsNone(view);
      assert a + b == a && AiIds(view, a) + [] == AiIds(view, a);
    } else {
      var n := |b| - 1;
      AiIdsConcat(view, a, b[..n]);
      AiIdsSnoc(view, a + b[..n], b[n]);
      AiIdsSnoc(view, b[..n], b[n]);
      assert b == b[..n] + [b[n]];
      assert a + b == (a + b[..n]) + [b[n]];
    }
  }

  /** A statement inherits a given id at most once, and only from an admitted trace. */
  lemma InheritedOnce(c: Config, m: Machine, w: Work, id: string)
    requires WellIdentified(c, m.store.traces)
    ensures multiset(Inherited(c, m, w))[id] <= 1
    ensures id in Inherited(c, m, w) ==>
              exists b :: b in m.store.traces && AdmittedAs(c, m.store.reuse, w.context, w.who, b, id)
  {
    hide AdmittedAs, Pool, AiIds, Ids;
    var pool := Pool(c, m.store.reuse, w.context, w.who, m.store.traces);
    PoolIds(c, m.store.reuse, w.context, w.who, m.store.traces, id);
    var n := if w.context.n <= 0 then |pool| else if w.context.n >= |pool| then 0 else |pool| - w.context.n;
    assert pool == pool[..n] + pool[n..];
    assert Selection(c, m.store, w.context, w.who) == pool[n..];
    AiIdsConcat(c.view, pool[..n], pool[n..]);
    assert id in AiIds(c.view, pool) <==> multiset(AiIds(c.view, pool))[id] > 0;
    assert id in Inherited(c, m, w) <==> multiset(Inherited(c, m, w))[id] > 0;
  }

  /* ---------- drift over runs ---------- */

  /** The ids one step inherits for good: those of a statement whose trace became durable. */
  function InheritedBy(c: Config, m: Machine, a: Action): seq<string>
    requires m.store.journal.durable <= |m.store.journal.list|
  {
    if a.Try? && (Execute(c, m, a.work).1.Done? || Execute(c, m, a.work).1.Interrupted?)
      then Inherited(c, m, a.work) else []
  }

  /** Every inheritance of a run, in order. */
  function Inheritances(c: Config, m: Machine, actions: seq<Action>): seq<string>
    requires m.store.journal.durable <= |m.store.journal.list|
  {
    if actions == [] then []
    else
      var k := |actions| - 1;
      Inheritances(c, m, actions[..k]) + InheritedBy(c, PerformAll(c, m, actions[..k]), actions[k])
  }

  /** New traces get unused ids and confidences of at most one. */
  ghost predicate Numbered(c: Config, m: Machine, actions: seq<Action>)
    requires m.store.journal.durable <= |m.store.journal.list|
  {
    if actions == [] then true
    else
      var k := |actions| - 1;
      Numbered(c, m, actions[..k])
      && (actions[k].Try? ==> TakesNewId(c, PerformAll(c, m, actions[..k]), actions[k].work))
  }

  ghost predicate TakesNewId(c: Config, m: Machine, w: Work) {
    c.view(w.body).id !in Ids(c.view, m.store.traces) && c.view(w.body).confidence <= 1.0
  }

  /** A runtime opened now would not count some reuse this one has counted: an event that names a trace was
      lost or is still queued. */
  ghost predicate Forgets(c: Config, m: Machine, actions: seq<Action>)
    requires m.store.journal.durable <= |m.store.journal.list|
  {
    !NothingLost(c, m, actions) || NamingQueued(PerformAll(c, m, actions).store)
  }

  /** The reopenings of a run at which reuse is forgotten. */
  ghost function Forgotten(c: Config, m: Machine, actions: seq<Action>): nat
    requires m.store.journal.durable <= |m.store.journal.list|
  {
    if actions == [] then 0
    else
      var k := |actions| - 1;
      Forgotten(c, m, actions[..k]) + (if actions[k].Reopen? && Forgets(c, m, actions[..k]) then 1 else 0)
  }

  /** A synchronous journal with every reuse event recorded may be reopened at any point of a run. */
  lemma {:induction false} SyncReopens(c: Config, m: Machine, actions: seq<Action>)
    requires Settled(c, m) && AllPerformable(c, actions) && !c.backend.WriteBehind? && ReuseRecorded(actions)
    ensures m.store.journal.durable <= |m.store.journal.list|
    ensures Forgotten(c, m, actions) == 0
    decreases |actions|
  {
    hide Settled, Performable, NothingLost, NamingQueued, PerformAll;
    SettledReady(c, m);
    if actions != [] {
      var k := |actions| - 1;
      SyncReopens(c, m, actions[..k]);
      SyncLosesNothing(c, m, actions[..k]);
    }
  }

  /** The live counter of an id is at most the limit, and at least its inheritances, less the limit for each
      time that reuse was forgotten. */
  ghost predicate Bounded(reuse: map<string, nat>, log: seq<string>, limit: nat, forgotten: nat) {
    forall id :: multiset(log)[id] <= limit * forgotten + Count(reuse, id) && Count(reuse, id) <= limit
  }

  lemma TryBounded(c: Config, m: Machine, w: Work, log: seq<string>, limit: nat, forgotten: nat)
    requires Settled(c, m) && Performable(c, Try(w)) && Decays(c.settings, limit) && WellIdentified(c, m.store.traces)
    requires m.store.journal.durable <= |m.store.journal.list| && TakesNewId(c, m, w)
    requires Bounded(m.store.reuse, log, limit, forgotten)
    ensures Bounded(Perform(c, m, Try(w)).store.reuse, log + InheritedBy(c, m, Try(w)), limit, forgotten)
    ensures WellIdentified(c, Perform(c, m, Try(w)).store.traces)
  {
    hide Settled, WellFormed, Inherited, Decays, Tally;
    ExecuteEffect(c, m, w);
    hide Execute, Bounded, WellIdentified;
    TallyNone(m.store.reuse);
    InheritanceBounded(c, m, w, log, limit, forgotten);
    if Perform(c, m, Try(w)).store.traces != m.store.traces { IdentifiedGrow(c, m.store.traces, w.body); }
  }

  lemma InheritanceBounded(c: Config, m: Machine, w: Work, log: seq<string>, limit: nat, forgotten: nat)
    requires m.store.journal.durable <= |m.store.journal.list|
    requires Decays(c.settings, limit) && WellIdentified(c, m.store.traces)
    requires Bounded(m.store.reuse, log, limit, forgotten)
    ensures var ids := InheritedBy(c, m, Try(w)); Bounded(Tally(m.store.reuse, ids), log + ids, limit, forgotten)
  {
    var ids := InheritedBy(c, m, Try(w));
    hide Inherited, Decays, WellIdentified, Tally, Execute;
    forall id
      ensures multiset(log + ids)[id] <= limit * forgotten + Count(Tally(m.store.reuse, ids), id)
      ensures Count(Tally(m.store.reuse, ids), id) <= limit
    {
      TallyCounts(m.store.reuse, ids, id);
      InheritedOnce(c, m, w, id);
      if id in ids { InheritedBelow(c, m, w, id, limit); }
    }
  }

  /** A reopening keeps the counters, or forgets at most the limit of each. */
  lemma ReopenBounded(c: Config, m: Machine, log: seq<string>, limit: nat, forgotten: nat)
    requires m.store.journal.durable <= |m.store.journal.list| && AtLeast(m.store)
    requires Bounded(m.store.reuse, log, limit, forgotten)
    ensures var reuse := Perform(c, m, Reopen).store.reuse;
            && Bounded(reuse, log, limit, forgotten + 1)
            && (Replayed(m.store.journal).reuse == m.store.reuse ==> Bounded(reuse, log, limit, forgotten))
  {
    var j, reuse := m.store.journal, Perform(c, m, Reopen).store.reuse;
    FlushCounts(m.store, false);
    hide Recount;
    assert j.list[..j.durable][..j.durable] == j.list[..j.durable];
    OneMore(limit, forgotten);
    forall id ensures Count(reuse, id) <= Count(m.store.reuse, id) {
      assert Count(Recount(AfterFlush(m.store, false).journal.list), id) <= Count(m.store.reuse, id);
    }
  }

  lemma OthersKeepReuse(c: Config, m: Machine, a: Action)
    requires m.store.journal.durable <= |m.store.journal.list| && !a.Try? && !a.Reopen?
    ensures Perform(c, m, a).store.reuse == m.store.reuse
  {
  }

  lemma InheritedBelow(c: Config, m: Machine, w: Work, id: string, limit: nat)
    requires Decays(c.settings, limit) && WellIdentified(c, m.store.traces) && id in Inherited(c, m, w)
    ensures Count(m.store.reuse, id) < limit
  {
    InheritedOnce(c, m, w, id);
    hide Decays;
    var b :| b in m.store.traces && AdmittedAs(c, m.store.reuse, w.context, w.who, b, id);
    AdmittedBelowLimit(c.settings, m.store.reuse, c.view(b), limit);
  }

  lemma IdentifiedGrow(c: Config, traces: seq<Json>, body: Json)
    requires WellIdentified(c, traces)
    requires c.view(body).id !in Ids(c.view, traces) && c.view(body).confidence <= 1.0
    ensures WellIdentified(c, traces + [body])
  {
    assert (traces + [body])[..|traces|] == traces;
    assert multiset(Ids(c.view, traces))[c.view(body).id] == 0;
  }

  /** On every backend and over every run, the limit being the least number of reuses after which full
      confidence has decayed below the floor: no inference is inherited as context more often than the limit,
      and the limit again for each reopening at which reuse was forgotten. */
  lemma {:induction false} DriftBounded(c: Config, env: map<string, Json>, actions: seq<Action>, limit: nat, id: string)
    requires Decays(c.settings, limit) && AllPerformable(c, actions) && Numbered(c, Fresh(env), actions)
    ensures multiset(Inheritances(c, Fresh(env), actions))[id] <= limit * (1 + Forgotten(c, Fresh(env), actions))
  {
    hide Forgotten, Inheritances, PerformAll, Numbered, Decays, WellIdentified, Bounded, Performable;
    DriftInvariant(c, env, actions, limit);
    BoundedMeans(PerformAll(c, Fresh(env), actions).store.reuse, Inheritances(c, Fresh(env), actions), limit,
                 Forgotten(c, Fresh(env), actions), id);
  }

  lemma BoundedMeans(reuse: map<string, nat>, log: seq<string>, limit: nat, forgotten: nat, id: string)
    requires Bounded(reuse, log, limit, forgotten)
    ensures multiset(log)[id] <= limit * (1 + forgotten)
  {
    OneMore(limit, forgotten);
    assert multiset(log)[id] <= limit * forgotten + Count(reuse, id);
  }

  lemma OneMore(limit: nat, n: nat)
    ensures limit * (1 + n) == limit * n + limit
  {
  }

  lemma {:induction false} DriftInvariant(c: Config, env: map<string, Json>, actions: seq<Action>, limit: nat)
    requires Decays(c.settings, limit) && AllPerformable(c, actions) && Numbered(c, Fresh(env), actions)
    ensures var n := PerformAll(c, Fresh(env), actions);
            && Bounded(n.store.reuse, Inheritances(c, Fresh(env), actions), limit, Forgotten(c, Fresh(env), actions))
            && WellIdentified(c, n.store.traces)
    decreases |actions|
  {
    hide Decays, Performable, Perform, Bounded, WellIdentified, TakesNewId, Settled, Forgets;
    FreshSettled(c, env);
    if actions == [] {
      NothingInherited(c, limit);
    } else {
      var k := |actions| - 1;
      DriftInvariant(c, env, actions[..k], limit);
      RunTraceFirst(c, Fresh(env), actions[..k]);
      var before, log := PerformAll(c, Fresh(env), actions[..k]), Inheritances(c, Fresh(env), actions[..k]);
      if actions[k].Try? {
        TryBounded(c, before, actions[k].work, log, limit, Forgotten(c, Fresh(env), actions[..k]));
      } else {
        OthersAddNoTrace(c, before, actions[k]);
        assert log + InheritedBy(c, before, actions[k]) == log;
        if actions[k].Reopen? {
          ReopenStep(c, env, actions[..k], log, limit);
        } else {
          OthersKeepReuse(c, before, actions[k]);
        }
      }
    }
  }

  lemma ReopenStep(c: Config, env: map<string, Json>, actions: seq<Action>, log: seq<string>, limit: nat)
    requires AllPerformable(c, actions)
    requires Bounded(PerformAll(c, Fresh(env), actions).store.reuse, log, limit, Forgotten(c, Fresh(env), actions))
    ensures Bounded(Perform(c, PerformAll(c, Fresh(env), actions), Reopen).store.reuse, log, limit,
                    Forgotten(c, Fresh(env), actions) + (if Forgets(c, Fresh(env), actions) then 1 else 0))
  {
    hide Performable, Perform, Bounded, NothingLost, NamingQueued, Forgotten, PerformAll, AtLeast;
    FreshCounted(env);
    CountersOverRun(c, Fresh(env), actions);
    CountersAgreeExactly(c, Fresh(env), actions);
    ReopenBounded(c, PerformAll(c, Fresh(env), actions), log, limit, Forgotten(c, Fresh(env), actions));
  }

  lemma NothingInherited(c: Config, limit: nat)
    ensures Bounded(map[], [], limit, 0) && WellIdentified(c, [])
  {
  }
}
