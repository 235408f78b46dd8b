/** What holds over whole runs of the interpreter: traces first, and every output traced. */
module ExecutionProofs {
  import opened CanonicalJson
  import opened Execution
  import opened Journal
  import opened TraceStore

  ghost predicate Performable(c: Config, a: Action) {
    match a
    case Try(w) => WellBuilt(c, w)
    case Fail(r) => WellFormed(r.body)
    case Other(kind, body, _) => WellFormed(body) && kind != TRACE && kind != REUSE
    case Reopen => true
  }

  /** The call is not gated, and its trace has an id. */
  ghost predicate Goes(c: Config, w: Work) {
    WellBuilt(c, w) && !w.refusedEarly && !w.refusedLate && c.view(w.body).id != ""
  }

  ghost predicate AllPerformable(c: Config, actions: seq<Action>) {
    forall a :: a in actions ==> Performable(c, a)
  }

  ghost predicate Settled(c: Config, m: Machine) {
    Healthy(c, m.store) && m.store.staged == []
  }

  function Fresh(env: map<string, Json>): Machine {
    Machine(Store(State([], 0, []), [], [], map[]), env)
  }

  function DurablePart(m: Machine): seq<Entry>
    requires m.store.journal.durable <= |m.store.journal.list|
  {
    m.store.journal.list[..m.store.journal.durable]
  }

  lemma FreshSettled(c: Config, env: map<string, Json>)
    ensures Settled(c, Fresh(env))
  {
    NoBodies(TRACE);
  }

  /* ---------- what one step does ---------- */

  lemma TracesGrow(c: Config, m: Machine, n: Machine)
    requires Settled(c, m) && Settled(c, n) && DurablePart(m) <= DurablePart(n)
    ensures m.store.traces <= n.store.traces
  {
    hide Bodies, Consistent;
    var more := DurablePart(n)[|DurablePart(m)|..];
    assert DurablePart(n) == DurablePart(m) + more;
    BodiesConcat(TRACE, DurablePart(m), more);
  }

  /** The statement gets as far as writing its trace. */
  predicate Writes(c: Config, m: Machine, w: Work) {
    && !w.refusedEarly && Answer(c, m, w).None? && !w.refusedLate
    && c.view(w.body).id != "" && !AppendFails(c, w.writeFails)
  }

  /** Execution as a caller sees it: a statement that does not get its trace down changes neither the
      bindings, the counters nor what is durable, and one that does adds exactly its own trace. */
  lemma ExecuteEffect(c: Config, m: Machine, w: Work)
    requires Settled(c, m) && WellBuilt(c, w)
    ensures var (n, o) := Execute(c, m, w);
            && Settled(c, n) && DurablePart(m) <= DurablePart(n)
            && (o.Done? ==> n.env == Released(m.env, c.view(w.body)) && o.committed == c.view(w.body).committed)
            && (!o.Done? ==> n.env == m.env)
            && (o.Done? || o.Interrupted? ==>
                  && n.store.traces == m.store.traces + [w.body]
                  && n.store.reuse == Tally(m.store.reuse, Inherited(c, m, w)))
            && (!o.Done? && !o.Interrupted? ==>
                  && DurablePart(n) == DurablePart(m) && n.store.traces == m.store.traces
                  && n.store.reuse == m.store.reuse)
  {
    hide Healthy, WellFormed, Bodies, ReuseBody, FlushLands, Released, Inherited, AfterWrite, AfterFlush,
         AfterReuse, Answer, Tally;
    SettledReady(c, m);
    if Writes(c, m, w) {
      WriteThenFlush(c, m.store, w.body, w.reply);
      var written := AfterWrite(c, m.store, w.body);
      var flushed := AfterFlush(written, FlushLands(written.journal, w.reply));
      MarkHealthy(c, flushed, Inherited(c, m, w), c.view(w.body).id, w.at, w.reuseFails);
      TallyNone(m.store.reuse);
    }
  }

  lemma SettledReady(c: Config, m: Machine)
    requires Settled(c, m)
    ensures m.store.journal.durable <= |m.store.journal.list|
  {
  }

  lemma TallyNone(reuse: map<string, nat>)
    ensures Tally(reuse, []) == reuse
  {
  }

  /** The two phases of a commit: the trace is shown when its flush lands and is gone when it fails. */
  lemma WriteThenFlush(c: Config, s: Store, body: Json, reply: Reply)
    requires Healthy(c, s) && s.staged == [] && WellFormed(body)
    ensures var t := AfterWrite(c, s, body);
            && s.journal.durable <= |s.journal.list| && t.journal.durable <= |t.journal.list|
            && var landed := FlushLands(t.journal, reply);
               var u := AfterFlush(t, landed);
               && u.journal.durable <= |u.journal.list|
               && Healthy(c, u) && u.staged == [] && u.reuse == s.reuse
               && s.journal.list[..s.journal.durable] <= u.journal.list[..u.journal.durable]
               && (landed ==> u.traces == s.traces + [body])
               && (!landed ==>
                     && u.traces == s.traces
                     && u.journal.list[..u.journal.durable] == s.journal.list[..s.journal.durable])
  {
    hide WellFormed, Bodies;
    WrittenShows(c, s, body);
    FailedFlushKeeps(c, s, body);
    AppendHealthy(c, s, TRACE, body);
    var t := AfterWrite(c, s, body);
    FlushHealthy(c, t, FlushLands(t.journal, reply));
    hide AfterWrite, Healthy;
  }

  /** A written trace is the next one to be shown; until a flush lands it is not durable. */
  lemma WrittenShows(c: Config, s: Store, body: Json)
    requires Healthy(c, s) && s.staged == []
    ensures var t := AfterWrite(c, s, body);
            t.traces + t.staged == s.traces + [body] && t.reuse == s.reuse
            && t.journal.durable <= |t.journal.list|
  {
    assert s.traces + [body] + [] == s.traces + [body];
  }

  lemma FailedFlushKeeps(c: Config, s: Store, body: Json)
    requires Healthy(c, s) && s.staged == [] && WellFormed(body)
    ensures var t := AfterWrite(c, s, body);
            t.journal.durable <= |t.journal.list|
            && (!FlushLands(t.journal, SelectFails) ==>
                  t.traces == s.traces && t.journal.list[..t.journal.durable] == s.journal.list[..s.journal.durable])
    ensures forall r :: !FlushLands(AfterWrite(c, s, body).journal, r) ==>
              !FlushLands(AfterWrite(c, s, body).journal, SelectFails)
  {
    var t := AfterWrite(c, s, body);
    if c.backend.WriteBehind? {
      assert t.journal.list[..s.journal.durable] == s.journal.list[..s.journal.durable];
    }
  }

  lemma MarkHealthy(c: Config, s: Store, ids: seq<string>, reader: string, at: string, fails: bool)
    requires Healthy(c, s) && s.staged == []
    ensures var t := AfterReuse(c, s, ids, reader, at, fails);
            && s.journal.durable <= |s.journal.list| && t.journal.durable <= |t.journal.list|
            && Healthy(c, t) && t.staged == [] && t.traces == s.traces && t.reuse == Tally(s.reuse, ids)
            && s.journal.list[..s.journal.durable] <= t.journal.list[..t.journal.durable]
  {
    if ids == [] {
      TallyNone(s.reuse);
    } else {
      hide Healthy, Tally, ReuseBody, AfterAppend;
      ReuseReadsBack(ids, reader, at);
      var counted := s.(reuse := Tally(s.reuse, ids));
      CountedHealthy(c, s, counted.reuse);
      EventAppended(c, counted, REUSE, ReuseBody(ids, reader, at));
    }
  }

  lemma EventAppended(c: Config, s: Store, kind: string, body: Json)
    requires Healthy(c, s) && WellFormed(body) && kind != TRACE
    ensures var t := AfterAppend(c, s, kind, body);
            && s.journal.durable <= |s.journal.list| && t.journal.durable <= |t.journal.list|
            && Healthy(c, t) && t.staged == s.staged && t.traces == s.traces && t.reuse == s.reuse
            && s.journal.list[..s.journal.durable] <= t.journal.list[..t.journal.durable]
  {
    hide Sound, Bodies, Appended;
    AppendHealthy(c, s, kind, body);
  }

  lemma CountedHealthy(c: Config, s: Store, reuse: map<string, nat>)
    requires Healthy(c, s)
    ensures s.journal.durable <= |s.journal.list| && Healthy(c, s.(reuse := reuse))
  {
    hide Sound, Bodies;
  }

  /** Every step leaves the visible traces equal to the durable trace entries, and only adds to them. */
  lemma PerformSettled(c: Config, m: Machine, a: Action)
    requires Settled(c, m) && Performable(c, a)
    ensures var n := Perform(c, m, a);
            Settled(c, n) && DurablePart(m) <= DurablePart(n) && m.store.traces <= n.store.traces
  {
    hide Healthy, WellFormed, Selection, Bodies, FlushLands, Execute, AfterReport, AfterAppend, Replayed, RolledBack;
    SettledReady(c, m);
    match a {
      case Try(w) => ExecuteEffect(c, m, w);
      case Fail(r) => ReportSettled(c, m, r);
      case Other(kind, body, _) => EventAppended(c, m.store, kind, body);
      case Reopen => ReopenSettled(c, m);
    }
    TracesGrow(c, m, Perform(c, m, a));
  }

  lemma ReportSettled(c: Config, m: Machine, r: Report)
    requires Settled(c, m) && WellFormed(r.body)
    ensures m.store.journal.durable <= |m.store.journal.list|
    ensures var n := AfterReport(c, m, r);
            && n.store.journal.durable <= |n.store.journal.list| && n.env == m.env
            && Settled(c, n) && DurablePart(m) <= DurablePart(n)
  {
    hide Healthy, AfterAppend, AfterFlush, FlushLands, WellFormed;
    SettledReady(c, m);
    EventAppended(c, m.store, FAILURE, r.body);
    var s := AfterAppend(c, m.store, FAILURE, r.body);
    FlushHealthy(c, s, FlushLands(s.journal, r.reply));
  }

  lemma ReopenSettled(c: Config, m: Machine)
    requires Settled(c, m)
    ensures var n := Machine(Replayed(RolledBack(m.store.journal)), map[]);
            Settled(c, n) && DurablePart(n) == DurablePart(m)
  {
    var j := RolledBack(m.store.journal);
    OperationsKeepConsistent(c.sha256, c.backend, m.store.journal, "", Null);
    assert j.list[j.durable..] == [] && j.list[..j.durable] == j.list;
    NoBodies(TRACE);
    ReplayedHealthy(c, j);
  }

  /** Under every pattern of refusals, disk failures, lost races and reopenings, the visible traces are
      exactly the bodies of the durable trace entries, the chain verifies, and nothing durable is lost. */
  lemma {:induction false} RunTraceFirst(c: Config, m: Machine, actions: seq<Action>)
    requires Settled(c, m) && AllPerformable(c, actions)
    ensures var n := PerformAll(c, m, actions);
            && Settled(c, n) && n.store.traces == Bodies(TRACE, DurablePart(n))
            && DurablePart(m) <= DurablePart(n) && m.store.traces <= n.store.traces
    decreases |actions|
  {
    hide Bodies, Perform, Consistent;
    SettledReady(c, m);
    if actions != [] {
      var k := |actions| - 1;
      RunTraceFirst(c, m, actions[..k]);
      PerformSettled(c, PerformAll(c, m, actions[..k]), actions[k]);
    }
  }

  lemma {:induction false} PerformConcat(c: Config, m: Machine, a: seq<Action>, b: seq<Action>)
    requires Ready(m)
    ensures PerformAll(c, m, a + b) == PerformAll(c, PerformAll(c, m, a), b)
    decreases |b|
  {
    hide Perform;
    if b == [] {
      assert a + b == a;
    } else {
      var k := |b| - 1;
      PerformConcat(c, m, a, b[..k]);
      assert (a + b)[..|a + b| - 1] == a + b[..k];
    }
  }

  lemma PerformTwice(c: Config, m: Machine, a: Action, b: Action)
    requires m.store.journal.durable <= |m.store.journal.list|
    ensures PerformAll(c, m, [a]) == Perform(c, m, a)
    ensures PerformAll(c, m, [a, b]) == Perform(c, Perform(c, m, a), b)
  {
    hide Perform;
    assert [a, b][..1] == [a] && [a][..0] == [];
    assert PerformAll(c, m, []) == m;
  }

  lemma OthersAddNoTrace(c: Config, m: Machine, a: Action)
    requires Settled(c, m) && Performable(c, a) && !a.Try?
    ensures m.store.journal.durable <= |m.store.journal.list|
    ensures Perform(c, m, a).store.traces == m.store.traces
  {
    hide Sound;
    SettledReady(c, m);
    var j := m.store.journal;
    assert j.list[..j.durable][..j.durable] == j.list[..j.durable];
    assert m.store.traces + [] == m.store.traces;
  }

  /* ---------- every released output is traced ---------- */

  /** A durable trace accounts for a binding: it is committed and has that output, or the binding names it. */
  ghost predicate Accounts(t: Trace, name: string, value: Json) {
    (t.committed && Binding(name, value) in t.outputs) || (name == TURN_TRACE && value == Str(t.id))
  }

  ghost predicate Traced(c: Config, traces: seq<Json>, name: string, value: Json) {
    exists b :: b in traces && Accounts(c.view(b), name, value)
  }

  ghost predicate AllTraced(c: Config, inputs: map<string, Json>, m: Machine) {
    forall name :: name in m.env ==>
      (name in inputs && inputs[name] == m.env[name]) || Traced(c, m.store.traces, name, m.env[name])
  }

  lemma {:induction false} BindFrom(env: map<string, Json>, outputs: seq<Binding>, name: string)
    requires name in Bind(env, outputs)
    ensures Binding(name, Bind(env, outputs)[name]) in outputs || (name in env && env[name] == Bind(env, outputs)[name])
    decreases |outputs|
  {
    if outputs != [] {
      var n := |outputs| - 1;
      if name != outputs[n].name { BindFrom(env, outputs[..n], name); }
    }
  }

  lemma ReleasedTraced(c: Config, inputs: map<string, Json>, m: Machine, n: Machine, body: Json)
    requires AllTraced(c, inputs, m) && n.store.traces == m.store.traces + [body]
    requires n.env == Released(m.env, c.view(body))
    ensures AllTraced(c, inputs, n)
  {
    var t := c.view(body);
    assert body in n.store.traces;
    forall name | name in n.env
      ensures (name in inputs && inputs[name] == n.env[name]) || Traced(c, n.store.traces, name, n.env[name])
    {
      if t.committed && name != TURN_TRACE { BindFrom(m.env, t.outputs, name); }
      if Accounts(t, name, n.env[name]) {
        assert Traced(c, n.store.traces, name, n.env[name]);
      } else if name !in inputs || inputs[name] != n.env[name] {
        var b :| b in m.store.traces && Accounts(c.view(b), name, n.env[name]);
        assert b in n.store.traces;
      }
    }
  }

  lemma KeptTraced(c: Config, inputs: map<string, Json>, m: Machine, n: Machine)
    requires AllTraced(c, inputs, m) && m.store.traces <= n.store.traces && n.env == m.env
    ensures AllTraced(c, inputs, n)
  {
    forall name | name in n.env
      ensures (name in inputs && inputs[name] == n.env[name]) || Traced(c, n.store.traces, name, n.env[name])
    {
      if name !in inputs || inputs[name] != n.env[name] {
        var b :| b in m.store.traces && Accounts(c.view(b), name, n.env[name]);
        assert b in n.store.traces;
      }
    }
  }

  /** In every run, whatever the interpreter has bound was an input, an output of a committed trace the
      journal holds durably, or the id of a durable trace. */
  lemma {:induction false} OutputsTraced(c: Config, inputs: map<string, Json>, m: Machine, actions: seq<Action>)
    requires Settled(c, m) && AllTraced(c, inputs, m) && AllPerformable(c, actions)
    ensures AllTraced(c, inputs, PerformAll(c, m, actions))
    decreases |actions|
  {
    hide Healthy, Execute, AllTraced, Released, AfterReport, AfterAppend, Replayed, Performable;
    if actions != [] {
      var k := |actions| - 1;
      SettledReady(c, m);
      var before := PerformAll(c, m, actions[..k]);
      OutputsTraced(c, inputs, m, actions[..k]);
      RunTraceFirst(c, m, actions[..k]);
      StepTraced(c, inputs, before, actions[k]);
    }
  }

  lemma StepTraced(c: Config, inputs: map<string, Json>, m: Machine, a: Action)
    requires Settled(c, m) && AllTraced(c, inputs, m) && Performable(c, a)
    ensures AllTraced(c, inputs, Perform(c, m, a))
  {
    hide Settled, Execute, AllTraced, Released, Replayed, AfterAppend;
    SettledReady(c, m);
    PerformSettled(c, m, a);
    var n := Perform(c, m, a);
    match a {
      case Try(w) =>
        ExecuteEffect(c, m, w);
        if Execute(c, m, w).1.Done? { ReleasedTraced(c, inputs, m, n, w.body); } else { KeptTraced(c, inputs, m, n); }
      case Reopen => NothingBound(c, inputs, n);
      case _ => KeptTraced(c, inputs, m, n);
    }
  }

  lemma NothingBound(c: Config, inputs: map<string, Json>, n: Machine)
    requires n.env == map[]
    ensures AllTraced(c, inputs, n)
  {
  }

  /** A statement that was declined, answered from a prior trace or not traced leaves the bindings, the
      visible traces and the durable journal as they were. */
  lemma FailureLeavesNothing(c: Config, m: Machine, w: Work)
    requires Settled(c, m) && WellBuilt(c, w)
    ensures var (n, o) := Execute(c, m, w);
            && (o.Declined? || o.Idempotent? || o.NotTraced? ==>
                  n.env == m.env && n.store.traces == m.store.traces && DurablePart(n) == DurablePart(m))
            && (n.env != m.env ==> o.Done? && w.body in n.store.traces)
  {
    ExecuteEffect(c, m, w);
  }
}
