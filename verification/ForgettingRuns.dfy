/** A run in which reuse is forgotten without a failure (src/interpreter.js:298-310).

    The reuse event of a statement is journaled after the statement's own flush, so on a write-behind journal it
    is still queued when the statement returns. A runtime opened then replays durable events only, and counts
    the inference as never inherited. */
module ForgettingRuns {
  import opened CanonicalJson
  import opened CounterProofs
  import opened Execution
  import opened ExecutionProofs
  import opened Journal
  import opened Options
  import opened ReuseProofs
  import opened TraceStore

  /** A call whose trace is an inference, and calls that would read it as context, each with its own statement key and
      trace id. */
  ghost predicate Readers(c: Config, first: Work, reader: nat -> Work) {
    && c.backend.WriteBehind? && Goes(c, first) && first.context.n <= 0 && first.reply == Selected(None, true)
    && c.view(first.body).attestation.Ai? && c.view(first.body).confidence <= 1.0
    && forall k: nat :: ReaderAt(c, first, reader, k)
  }

  ghost predicate ReaderAt(c: Config, first: Work, reader: nat -> Work, k: nat) {
    var w := reader(k);
    && Goes(c, w) && w.context.n > k && Fits(c.settings, map[], w.context, w.who, c.view(first.body))
    && c.view(w.body).confidence <= 1.0 && Apart(c, w, first) && forall i: nat :: i < k ==> Apart(c, w, reader(i))
  }

  ghost predicate Apart(c: Config, w: Work, v: Work) {
    w.key != v.key && c.view(w.body).id != c.view(v.body).id
  }

  /** The table answers with the head this journal has, and takes the rows. */
  function Landing(m: Machine, w: Work): Work {
    w.(reply := Selected(Some(HeadOf(m.store.journal.list)), true))
  }

  /** The inference, and then rounds of one reading and one reopening. */
  ghost function Rounds(c: Config, env: map<string, Json>, first: Work, reader: nat -> Work, n: nat): seq<Action> {
    if n == 0 then [Try(first)]
    else
      var before := Rounds(c, env, first, reader, n - 1);
      before + [Try(Landing(PerformAll(c, Fresh(env), before), reader(n - 1)))] + [Reopen]
  }

  /** Every call of a run has its trace down and releases its outputs. */
  ghost predicate AllDone(c: Config, m: Machine, actions: seq<Action>)
    requires m.store.journal.durable <= |m.store.journal.list|
  {
    if actions == [] then true
    else
      var k := |actions| - 1;
      && AllDone(c, m, actions[..k])
      && (actions[k].Try? ==> Execute(c, PerformAll(c, m, actions[..k]), actions[k].work).1.Done?)
  }

  /** The bodies of the first call and of n readers. */
  function Read(first: Work, reader: nat -> Work, n: nat): seq<Json> {
    if n == 0 then [first.body] else Read(first, reader, n - 1) + [reader(n - 1).body]
  }

  /** Between rounds everything is durable and nothing is counted. */
  ghost predicate Amnesic(m: Machine, traces: seq<Json>) {
    var j := m.store.journal;
    && j.list != [] && j.durable == |j.list| && j.pending == [] && Recount(j.list) == map[]
    && m.store.traces == traces == Bodies(TRACE, j.list)
    && m.store.staged == [] && m.store.reuse == map[]
  }

  lemma {:induction false} PoolFinds(c: Config, reuse: map<string, nat>, x: Context, who: Asker, traces: seq<Json>,
                                     b: Json)
    requires Fits(c.settings, reuse, x, who, c.view(b)) && c.view(b).attestation.Ai?
    ensures |Pool(c, reuse, x, who, traces)| <= |traces|
    ensures b in traces ==> c.view(b).id in AiIds(c.view, Pool(c, reuse, x, who, traces))
    decreases |traces|
  {
    hide Fits, AiIds;
    if traces != [] {
      var n := |traces| - 1;
      PoolFinds(c, reuse, x, who, traces[..n], b);
      assert traces == traces[..n] + [traces[n]];
      var before := Pool(c, reuse, x, who, traces[..n]);
      AiIdsSnoc(c.view, before, traces[n]);
      assert before + [] == before;
    }
  }

  /** A wide enough selection reads the inference again. */
  lemma ReadsAgain(c: Config, m: Machine, b: Json, w: Work)
    requires m.store.reuse == map[] && b in m.store.traces && c.view(b).attestation.Ai?
    requires Fits(c.settings, map[], w.context, w.who, c.view(b)) && w.context.n >= |m.store.traces|
    ensures c.view(b).id in Inherited(c, m, w)
  {
    PoolFinds(c, map[], w.context, w.who, m.store.traces, b);
    hide Fits, Pool, AiIds;
  }

  lemma {:induction false} ReadBodies(c: Config, first: Work, reader: nat -> Work, n: nat, k: nat)
    requires Readers(c, first, reader) && n <= k
    ensures |Read(first, reader, n)| == n + 1 && first.body in Read(first, reader, n)
    ensures forall b :: b in Read(first, reader, n) ==> c.view(b).statementKey != reader(k).key
    ensures c.view(reader(k).body).id !in Ids(c.view, Read(first, reader, n))
    decreases n
  {
    hide Readers, Ids;
    ReaderApart(c, first, reader, n, k);
    if n == 0 {
      IdsSnoc(c, [], first.body);
      assert [] + [first.body] == [first.body] && Read(first, reader, 0) == [first.body];
      NoIds(c);
    } else {
      ReadBodies(c, first, reader, n - 1, k);
      IdsSnoc(c, Read(first, reader, n - 1), reader(n - 1).body);
    }
  }

  lemma NoIds(c: Config)
    ensures Ids(c.view, []) == []
  {
  }

  lemma IdsSnoc(c: Config, traces: seq<Json>, b: Json)
    ensures Ids(c.view, traces + [b]) == Ids(c.view, traces) + [c.view(b).id]
  {
    assert (traces + [b])[..|traces|] == traces;
  }

  lemma ReaderApart(c: Config, first: Work, reader: nat -> Work, n: nat, k: nat)
    requires Readers(c, first, reader) && n <= k
    ensures c.view(first.body).statementKey != reader(k).key && c.view(first.body).id != c.view(reader(k).body).id
    ensures n > 0 ==> var b := reader(n - 1).body;
                      c.view(b).statementKey != reader(k).key && c.view(b).id != c.view(reader(k).body).id
  {
    hide WellFormed, Fits;
    assert ReaderAt(c, first, reader, k);
    if n > 0 {
      assert ReaderAt(c, first, reader, n - 1);
      assert Apart(c, reader(k), reader(n - 1));
    }
  }

  /** One round: the reading lands, its event is queued, and the reopening drops the queue. */
  lemma OneRound(c: Config, m: Machine, traces: seq<Json>, w: Work, b: Json)
    requires c.backend.WriteBehind? && Amnesic(m, traces) && Goes(c, w) && NewKey(c, m, w)
    requires b in traces && c.view(b).attestation.Ai? && w.context.n >= |traces|
    requires Fits(c.settings, map[], w.context, w.who, c.view(b))
    ensures m.store.journal.durable <= |m.store.journal.list|
    ensures var v := Landing(m, w);
            var n := Perform(c, m, Try(v));
            && Execute(c, m, v).1.Done? && c.view(b).id in InheritedBy(c, m, Try(v)) && NamingQueued(n.store)
            && Amnesic(Perform(c, n, Reopen), traces + [w.body])
  {
    var v := Landing(m, w);
    hide Fits, WellFormed, NextEntry, TraceIds, Naming, Inherited, Execute, Bodies, Recount;
    ReadsAgain(c, m, b, v);
    ReadQueues(c, m, v, Some(HeadOf(m.store.journal.list)));
    var list, j := m.store.journal.list, Execute(c, m, v).0.store.journal;
    NamingOne(j.list[j.durable]);
    assert j.list[j.durable..] == [j.list[j.durable]];
    EntryFields(c.sha256, list, TRACE, w.body);
    SelectSnoc(TRACE, list, NextEntry(c.sha256, list, TRACE, w.body));
    assert j.list[..j.durable][..j.durable] == j.list[..j.durable];
  }

  lemma StartAmnesic(c: Config, env: map<string, Json>, first: Work)
    requires c.backend.WriteBehind? && Goes(c, first) && first.context.n <= 0 && first.reply == Selected(None, true)
    ensures Execute(c, Fresh(env), first).1.Done?
    ensures Amnesic(Execute(c, Fresh(env), first).0, [first.body])
  {
    FirstLands(c, env, first);
    hide NextEntry, Recount, Bodies, WellFormed, Execute;
    var e := FirstEntry(c, first);
    EntryFields(c.sha256, [], TRACE, first.body);
    SelectSnoc(TRACE, [], e);
    NoBodies(TRACE);
    assert [] + [e] == [e] && [] + [first.body] == [first.body] && Recount([]) == map[];
  }

  /** What a round adds to a run. */
  lemma RoundAdds(c: Config, m: Machine, before: seq<Action>, w: Work)
    requires m.store.journal.durable <= |m.store.journal.list|
    ensures var middle, run := before + [Try(w)], before + [Try(w)] + [Reopen];
            var n := PerformAll(c, m, before);
            && PerformAll(c, m, middle) == Perform(c, n, Try(w))
            && PerformAll(c, m, run) == Perform(c, Perform(c, n, Try(w)), Reopen)
            && (Numbered(c, m, run) <==> Numbered(c, m, before) && TakesNewId(c, n, w))
            && (AllDone(c, m, run) <==> AllDone(c, m, before) && Execute(c, n, w).1.Done?)
            && Inheritances(c, m, run) == Inheritances(c, m, before) + InheritedBy(c, n, Try(w))
            && Forgotten(c, m, run) == Forgotten(c, m, before) + (if Forgets(c, m, middle) then 1 else 0)
  {
    hide Perform, Execute, Inherited, Forgets, TakesNewId;
    var middle := before + [Try(w)];
    assert middle[..|middle| - 1] == before && (middle + [Reopen])[..|middle|] == middle;
    assert InheritedBy(c, PerformAll(c, m, middle), Reopen) == [];
  }

  /** The reopenings must be counted. Calls whose flushes all land, each followed by a reopening, inherit one
      inference any number of times. */
  lemma DriftUnbounded(c: Config, env: map<string, Json>, first: Work, reader: nat -> Work, n: nat)
    requires Readers(c, first, reader)
    ensures var run, m := Rounds(c, env, first, reader, n), Fresh(env);
            && AllPerformable(c, run) && Numbered(c, m, run) && AllDone(c, m, run) && Forgotten(c, m, run) == n
            && n <= multiset(Inheritances(c, m, run))[c.view(first.body).id]
  {
    RoundsRun(c, env, first, reader, n);
  }

  lemma {:induction false} RoundsRun(c: Config, env: map<string, Json>, first: Work, reader: nat -> Work, n: nat)
    requires Readers(c, first, reader)
    ensures var run, m := Rounds(c, env, first, reader, n), Fresh(env);
            && AllPerformable(c, run) && Numbered(c, m, run) && AllDone(c, m, run) && Forgotten(c, m, run) == n
            && n <= multiset(Inheritances(c, m, run))[c.view(first.body).id]
            && Amnesic(PerformAll(c, m, run), Read(first, reader, n))
    decreases n
  {
    hide Amnesic, WellFormed, Fits, Numbered, AllDone, Forgotten, Inheritances, PerformAll, Goes, AllPerformable,
         Readers;
    if n == 0 {
      FirstOfRounds(c, env, first, reader);
    } else {
      RoundsRun(c, env, first, reader, n - 1);
      NextReads(c, first, reader, n - 1);
      NextRound(c, Fresh(env), Rounds(c, env, first, reader, n - 1), Read(first, reader, n - 1), reader(n - 1),
                first.body);
    }
  }

  lemma FirstOfRounds(c: Config, env: map<string, Json>, first: Work, reader: nat -> Work)
    requires Readers(c, first, reader)
    ensures var run, m := [Try(first)], Fresh(env);
            && AllPerformable(c, run) && Numbered(c, m, run) && AllDone(c, m, run) && Forgotten(c, m, run) == 0
            && Amnesic(PerformAll(c, m, run), [first.body])
  {
    hide ReaderAt, WellFormed;
    FirstOfRun(c, env, first);
  }

  /** The next reader can read. */
  lemma NextReads(c: Config, first: Work, reader: nat -> Work, n: nat)
    requires Readers(c, first, reader)
    ensures c.backend.WriteBehind? && Reads(c, Read(first, reader, n), reader(n), first.body)
  {
    hide WellFormed, Fits, Read;
    ReadBodies(c, first, reader, n, n);
    assert ReaderAt(c, first, reader, n);
  }

  ghost predicate Reads(c: Config, traces: seq<Json>, w: Work, b: Json) {
    && Goes(c, w) && c.view(w.body).confidence <= 1.0 && c.view(w.body).id !in Ids(c.view, traces)
    && (forall t :: t in traces ==> c.view(t).statementKey != w.key)
    && b in traces && c.view(b).attestation.Ai? && w.context.n >= |traces|
    && Fits(c.settings, map[], w.context, w.who, c.view(b))
  }

  lemma NextRound(c: Config, m: Machine, before: seq<Action>, traces: seq<Json>, w: Work, b: Json)
    requires m.store.journal.durable <= |m.store.journal.list|
    requires AllPerformable(c, before) && Numbered(c, m, before) && AllDone(c, m, before)
    requires c.backend.WriteBehind? && Amnesic(PerformAll(c, m, before), traces)
    requires Reads(c, traces, w, b)
    ensures var run := before + [Try(Landing(PerformAll(c, m, before), w))] + [Reopen];
            && AllPerformable(c, run) && Numbered(c, m, run) && AllDone(c, m, run)
            && Forgotten(c, m, run) == Forgotten(c, m, before) + 1
            && multiset(Inheritances(c, m, before))[c.view(b).id] < multiset(Inheritances(c, m, run))[c.view(b).id]
            && Amnesic(PerformAll(c, m, run), traces + [w.body])
  {
    hide Amnesic, Fits, WellFormed, Ids, PerformAll, Numbered, AllDone, Forgotten, Inheritances, Perform, Execute,
         InheritedBy, NothingLost, NamingQueued;
    var k := PerformAll(c, m, before);
    AmnesicShows(k, traces);
    OneRound(c, k, traces, w, b);
    RoundAdds(c, m, before, Landing(k, w));
  }

  lemma AmnesicShows(m: Machine, traces: seq<Json>)
    requires Amnesic(m, traces)
    ensures m.store.traces == traces
  {
  }

  lemma FirstOfRun(c: Config, env: map<string, Json>, first: Work)
    requires c.backend.WriteBehind? && Goes(c, first) && first.context.n <= 0 && first.reply == Selected(None, true)
    requires c.view(first.body).confidence <= 1.0
    ensures var run, m := [Try(first)], Fresh(env);
            && AllPerformable(c, run) && Numbered(c, m, run) && AllDone(c, m, run) && Forgotten(c, m, run) == 0
            && Amnesic(PerformAll(c, m, run), [first.body])
  {
    hide Execute, Amnesic, WellFormed;
    StartAmnesic(c, env, first);
    var m := Fresh(env);
    assert [Try(first)][..0] == [] && PerformAll(c, m, []) == m;
    assert Numbered(c, m, []) && AllDone(c, m, []) && Forgotten(c, m, []) == 0;
  }
}
