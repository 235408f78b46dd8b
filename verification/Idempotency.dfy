/** A statement commits once: over whole runs, no two committed traces share a statement key. */
module Idempotency {
  import opened CanonicalJson
  import opened Execution
  import opened ExecutionProofs
  import opened Journal
  import JournalProofs
  import opened Options
  import StatementKeys
  import opened TraceStore

  ghost predicate Committed(c: Config, b: Json, key: string) {
    c.view(b).committed && c.view(b).statementKey == key
  }

  /** The prior trace that is looked at is the first one with the key, so a committed trace answers for
      its statement exactly when no staged trace with the same key was visible before it. */
  lemma AnswersExactly(c: Config, m: Machine, w: Work)
    requires Settled(c, m)
    ensures Execute(c, m, w).1.Idempotent? <==>
              !w.refusedEarly && !w.force
              && exists i :: 0 <= i < |m.store.traces| && Committed(c, m.store.traces[i], w.key)
                             && forall j :: 0 <= j < i ==> c.view(m.store.traces[j]).statementKey != w.key
  {
    FirstWithKey(c, m.store.traces, w.key);
  }

  /** An earlier committed trace with the key is visible and no staged one stands before it. */
  ghost predicate Answered(c: Config, m: Machine, w: Work) {
    !w.force && exists i :: 0 <= i < |m.store.traces| && Committed(c, m.store.traces[i], w.key)
                            && forall j :: 0 <= j < i ==> c.view(m.store.traces[j]).statementKey != w.key
  }

  /** Each outcome, exactly when: a gate before the idempotency check refuses before anything is answered, one
      after it only what is not answered; a statement that passes both is not traced when its trace has no id, the
      disk refuses it or the flush does not land, is interrupted when its trace is down and the disk refuses the
      event of what it read, and is done otherwise, committed when its trace is. */
  lemma OutcomesExact(c: Config, m: Machine, w: Work)
    requires Settled(c, m)
    ensures var o := Execute(c, m, w).1;
            var passes := !w.refusedEarly && !Answered(c, m, w) && !w.refusedLate;
            var refused := c.view(w.body).id == "" || (c.backend.File? && w.writeFails);
            var traced := !refused && FlushLands(AfterWrite(c, m.store, w.body).journal, w.reply);
            var lost := Inherited(c, m, w) != [] && c.backend.File? && w.reuseFails;
            && (o.Declined? <==> w.refusedEarly || (!Answered(c, m, w) && w.refusedLate))
            && (o.Idempotent? <==> !w.refusedEarly && Answered(c, m, w))
            && (o.NotTraced? <==> passes && !traced)
            && (o.Interrupted? <==> passes && traced && lost)
            && (o == Done(c.view(w.body).committed) <==> passes && traced && !lost)
  {
    FirstWithKey(c, m.store.traces, w.key);
    hide AfterWrite, AfterFlush, AfterReuse, FlushLands, Inherited, Released, Settled, ByKey;
  }

  /** With a gate that decides as the intent asks, a statement that is done commits exactly when its intent requires
      no attestation or some step of it attests. */
  lemma CommitsExactly(c: Config, m: Machine, w: Work)
    requires Settled(c, m) && Identified(c, w) && Execute(c, m, w).1.Done?
    ensures Execute(c, m, w).1 == Done(true) <==>
              !w.required || exists s :: s in w.material.compute && s.fn == "IOS.Attest"
  {
    OutcomesExact(c, m, w);
    hide Execute, StatementKeys.WellFormedMaterial, StatementKeys.Key, Settled;
  }

  lemma {:induction false} FirstWithKey(c: Config, traces: seq<Json>, key: string)
    ensures var r := ByKey(c.view, traces, key);
            r.Some? && c.view(r.value).committed <==>
              exists i :: 0 <= i < |traces| && Committed(c, traces[i], key)
                          && forall j :: 0 <= j < i ==> c.view(traces[j]).statementKey != key
    decreases |traces|
  {
    if traces != [] {
      var rest := traces[1..];
      FirstWithKey(c, rest, key);
      if c.view(traces[0]).statementKey != key {
        if i :| 0 <= i < |rest| && Committed(c, rest[i], key)
                && forall j :: 0 <= j < i ==> c.view(rest[j]).statementKey != key {
          assert traces[i + 1] == rest[i];
          assert forall j :: 0 < j < i + 1 ==> traces[j] == rest[j - 1];
        }
        if i :| 0 <= i < |traces| && Committed(c, traces[i], key)
                && forall j :: 0 <= j < i ==> c.view(traces[j]).statementKey != key {
          assert rest[i - 1] == traces[i];
          assert forall j :: 0 <= j < i - 1 ==> rest[j] == traces[j + 1];
        }
      } else if c.view(traces[0]).committed {
        assert Committed(c, traces[0], key);
      }
    }
  }

  ghost predicate OncePerKey(c: Config, traces: seq<Json>) {
    forall i, j :: 0 <= i < j < |traces| && c.view(traces[i]).committed && c.view(traces[j]).committed ==>
      c.view(traces[i]).statementKey != c.view(traces[j]).statementKey
  }

  /** A statement that ran was not answered from a prior trace. */
  lemma DoneUnanswered(c: Config, m: Machine, w: Work)
    requires Settled(c, m) && !w.force
    ensures m.store.journal.durable <= |m.store.journal.list|
    ensures (Execute(c, m, w).1.Done? || Execute(c, m, w).1.Interrupted?) ==>
              var prior := ByKey(c.view, m.store.traces, w.key); prior.None? || !c.view(prior.value).committed
  {
    hide Healthy, AfterWrite, AfterFlush, AfterReuse, Inherited, FlushLands;
    SettledReady(c, m);
  }

  /* ---------- runs in which a key commits twice ---------- */

  /** No call is a retry. */
  ghost predicate Unforced(actions: seq<Action>) {
    forall a :: a in actions && a.Try? ==> !a.work.force
  }

  /** An execution of the key, whose trace would be committed or staged as said. */
  ghost predicate Runs(c: Config, a: Action, key: string, committed: bool) {
    a.Try? && a.work.key == key && c.view(a.work.body).committed == committed
  }

  /** An execution whose trace is staged, and two committing ones of the same key after it. */
  ghost predicate Triple(c: Config, actions: seq<Action>, i: int, j: int, k: int, key: string) {
    0 <= i < j < k < |actions|
    && Runs(c, actions[i], key, false) && Runs(c, actions[j], key, true) && Runs(c, actions[k], key, true)
  }

  ghost predicate StagedThenTwice(c: Config, actions: seq<Action>) {
    exists i, j, k, key :: Triple(c, actions, i, j, k, key)
  }

  /** The first execution of a key. */
  ghost function First(actions: seq<Action>, key: string): (r: Option<int>)
    ensures r.Some? ==> 0 <= r.value < |actions| && actions[r.value].Try? && actions[r.value].work.key == key
    ensures r.Some? ==> forall h :: 0 <= h < r.value && actions[h].Try? ==> actions[h].work.key != key
    ensures r.None? ==> forall a :: a in actions && a.Try? ==> a.work.key != key
    decreases |actions|
  {
    if actions == [] then None
    else
      var k := |actions| - 1;
      var before := First(actions[..k], key);
      assert actions == actions[..k] + [actions[k]];
      if before.Some? then before
      else if actions[k].Try? && actions[k].work.key == key then Some(k)
      else None
  }

  /** The first execution of some key is staged and two later ones commit. */
  ghost predicate FirstStagedThenTwice(c: Config, actions: seq<Action>) {
    exists i, j, k, key :: Triple(c, actions, i, j, k, key) && First(actions, key) == Some(i)
  }

  /** The steps whose traces became visible, in order. */
  ghost function Shown(c: Config, m: Machine, actions: seq<Action>): seq<int>
    requires m.store.journal.durable <= |m.store.journal.list|
  {
    if actions == [] then []
    else
      var k := |actions| - 1;
      Shown(c, m, actions[..k]) + (if Shows(c, PerformAll(c, m, actions[..k]), actions[k]) then [k] else [])
  }

  ghost predicate Shows(c: Config, m: Machine, a: Action)
    requires m.store.journal.durable <= |m.store.journal.list|
  {
    a.Try? && (Execute(c, m, a.work).1.Done? || Execute(c, m, a.work).1.Interrupted?)
  }

  lemma StepShows(c: Config, m: Machine, a: Action)
    requires Settled(c, m) && Performable(c, a)
    ensures m.store.journal.durable <= |m.store.journal.list|
    ensures Perform(c, m, a).store.traces == m.store.traces + (if Shows(c, m, a) then [a.work.body] else [])
  {
    hide Settled, WellFormed;
    SettledReady(c, m);
    assert m.store.traces + [] == m.store.traces;
    if a.Try? {
      ExecuteEffect(c, m, a.work);
      hide Execute;
    } else {
      OthersAddNoTrace(c, m, a);
    }
  }

  /** Every visible trace is that of one step of the run, at which the traces before it were visible. */
  ghost predicate ShownAt(c: Config, inputs: map<string, Json>, actions: seq<Action>, q: int) {
    var shown, traces := Shown(c, Fresh(inputs), actions), PerformAll(c, Fresh(inputs), actions).store.traces;
    && 0 <= q < |shown| == |traces| && 0 <= shown[q] < |actions|
    && var m := PerformAll(c, Fresh(inputs), actions[..shown[q]]);
       Shows(c, m, actions[shown[q]]) && m.store.traces == traces[..q] && traces[q] == actions[shown[q]].work.body
  }

  lemma {:induction false} TracesShown(c: Config, inputs: map<string, Json>, actions: seq<Action>)
    requires AllPerformable(c, actions)
    ensures var shown := Shown(c, Fresh(inputs), actions);
            && |shown| == |PerformAll(c, Fresh(inputs), actions).store.traces|
            && (forall q :: 0 <= q < |shown| ==> ShownAt(c, inputs, actions, q))
            && (forall p, q :: 0 <= p < q < |shown| ==> shown[p] < shown[q])
    decreases |actions|
  {
    hide Shows, Perform, Performable, Settled;
    if actions != [] {
      var k := |actions| - 1;
      TracesShown(c, inputs, actions[..k]);
      FreshSettled(c, inputs);
      RunTraceFirst(c, Fresh(inputs), actions[..k]);
      StepShows(c, PerformAll(c, Fresh(inputs), actions[..k]), actions[k]);
      var before := Shown(c, Fresh(inputs), actions[..k]);
      forall q | 0 <= q < |before| ensures before[q] < k {
        assert ShownAt(c, inputs, actions[..k], q);
      }
      forall q | 0 <= q < |Shown(c, Fresh(inputs), actions)| ensures ShownAt(c, inputs, actions, q) {
        if q < |before| {
          assert ShownAt(c, inputs, actions[..k], q);
          assert actions[..k][..before[q]] == actions[..before[q]];
        }
      }
    }
  }

  /** The prior trace of an unforced execution that got its trace down is missing or staged. */
  lemma ShownUnanswered(c: Config, inputs: map<string, Json>, actions: seq<Action>, q: int)
    requires AllPerformable(c, actions) && Unforced(actions) && ShownAt(c, inputs, actions, q)
    ensures var traces, k := PerformAll(c, Fresh(inputs), actions).store.traces, Shown(c, Fresh(inputs), actions)[q];
            && Runs(c, actions[k], c.view(traces[q]).statementKey, c.view(traces[q]).committed)
            && var prior := ByKey(c.view, traces[..q], c.view(traces[q]).statementKey);
               prior.None? || !c.view(prior.value).committed
  {
    hide WellFormed, Settled, Execute, Shown;
    var k := Shown(c, Fresh(inputs), actions)[q];
    FreshSettled(c, inputs);
    RunTraceFirst(c, Fresh(inputs), actions[..k]);
    assert actions[k] in actions && Performable(c, actions[k]);
    DoneUnanswered(c, PerformAll(c, Fresh(inputs), actions[..k]), actions[k].work);
  }

  lemma {:induction false} StagedBefore(c: Config, traces: seq<Json>, key: string, p: int)
    requires 0 <= p < |traces| && Committed(c, traces[p], key)
    ensures var prior := ByKey(c.view, traces, key);
            prior.Some? && (!c.view(prior.value).committed ==>
                              exists o :: 0 <= o < p && c.view(traces[o]).statementKey == key
                                          && !c.view(traces[o]).committed)
    decreases |traces|
  {
    if c.view(traces[0]).statementKey == key {
      if !c.view(traces[0]).committed { assert 0 < p; }
    } else {
      StagedBefore(c, traces[1..], key, p - 1);
      var prior := ByKey(c.view, traces, key);
      if !c.view(prior.value).committed {
        var o :| 0 <= o < p - 1 && c.view(traces[1..][o]).statementKey == key && !c.view(traces[1..][o]).committed;
        assert traces[o + 1] == traces[1..][o];
      }
    }
  }

  /** On every backend and whatever is refused or fails: without retries no two committed traces share a
      statement key, unless some execution whose trace is staged is followed by two committing ones of its key. */
  lemma OnceUnlessStaged(c: Config, inputs: map<string, Json>, actions: seq<Action>)
    requires AllPerformable(c, actions) && Unforced(actions) && !StagedThenTwice(c, actions)
    ensures OncePerKey(c, PerformAll(c, Fresh(inputs), actions).store.traces)
  {
    hide AllPerformable, Unforced, PerformAll, Shown, Runs, ShownAt, ByKey;
    TracesShown(c, inputs, actions);
    var traces, shown := PerformAll(c, Fresh(inputs), actions).store.traces, Shown(c, Fresh(inputs), actions);
    forall p, q | 0 <= p < q < |traces| && c.view(traces[p]).committed && c.view(traces[q]).committed
      ensures c.view(traces[p]).statementKey != c.view(traces[q]).statementKey
    {
      var key := c.view(traces[q]).statementKey;
      if c.view(traces[p]).statementKey == key {
        ShownUnanswered(c, inputs, actions, p);
        ShownUnanswered(c, inputs, actions, q);
        StagedBefore(c, traces[..q], key, p);
        var o :| 0 <= o < p && c.view(traces[..q][o]).statementKey == key && !c.view(traces[..q][o]).committed;
        ShownUnanswered(c, inputs, actions, o);
        ShownBound(c, inputs, actions, q);
        ShownBound(c, inputs, actions, o);
        StagedIntro(c, actions, shown[o], shown[p], shown[q], key);
        assert false;
      }
    }
  }

  lemma ShownBound(c: Config, inputs: map<string, Json>, actions: seq<Action>, q: int)
    requires ShownAt(c, inputs, actions, q)
    ensures var shown := Shown(c, Fresh(inputs), actions); q < |shown| && 0 <= shown[q] < |actions|
  {
  }

  lemma StagedIntro(c: Config, actions: seq<Action>, i: int, j: int, k: int, key: string)
    ensures Triple(c, actions, i, j, k, key) ==> StagedThenTwice(c, actions)
  {
  }

  /* ---------- the exact condition, where nothing refuses ---------- */

  /** No gate refuses, and every trace has an id. */
  ghost predicate Ungated(c: Config, actions: seq<Action>) {
    forall a :: a in actions && a.Try? ==> Goes(c, a.work)
  }

  /** On a memory journal such a call shows its trace unless a committed one answers for it. */
  lemma UngatedShows(c: Config, m: Machine, w: Work)
    requires Settled(c, m) && c.backend.Memory? && Goes(c, w)
    ensures m.store.journal.durable <= |m.store.journal.list|
    ensures Shows(c, m, Try(w)) <==> Answer(c, m, w).None?
    ensures Execute(c, m, w).1.Done? <==> Answer(c, m, w).None?
  {
    hide AfterReuse, Inherited, Sound, Bodies, WellFormed, Answer;
    SettledReady(c, m);
    var written := AfterWrite(c, m.store, w.body);
    assert written.journal.pending == [];
  }

  lemma {:induction false} ByKeyGrows(c: Config, traces: seq<Json>, key: string, body: Json)
    ensures ByKey(c.view, traces + [body], key)
         == if ByKey(c.view, traces, key).Some? then ByKey(c.view, traces, key)
            else if c.view(body).statementKey == key then Some(body) else None
    decreases |traces|
  {
    if traces != [] && c.view(traces[0]).statementKey != key {
      ByKeyGrows(c, traces[1..], key, body);
      assert (traces + [body])[1..] == traces[1..] + [body];
    }
  }

  /** There the first visible trace of a key is that of its first execution. */
  lemma {:induction false} FirstAnswers(c: Config, inputs: map<string, Json>, actions: seq<Action>, key: string)
    requires AllPerformable(c, actions) && Unforced(actions) && Ungated(c, actions) && c.backend.Memory?
    ensures var first := First(actions, key);
            ByKey(c.view, PerformAll(c, Fresh(inputs), actions).store.traces, key)
              == if first.Some? then Some(actions[first.value].work.body) else None
    decreases |actions|
  {
    hide Shows, Perform, WellFormed, Settled, ByKey;
    if actions == [] {
      NoTraces(c, key);
    } else {
      var k := |actions| - 1;
      FirstAnswers(c, inputs, actions[..k], key);
      FreshSettled(c, inputs);
      RunTraceFirst(c, Fresh(inputs), actions[..k]);
      assert actions[k] in actions && Performable(c, actions[k]);
      StepAnswers(c, PerformAll(c, Fresh(inputs), actions[..k]), actions[k], key);
    }
  }

  lemma StepAnswers(c: Config, m: Machine, a: Action, key: string)
    requires Settled(c, m) && c.backend.Memory? && Performable(c, a) && (a.Try? ==> Goes(c, a.work))
    ensures m.store.journal.durable <= |m.store.journal.list|
    ensures var prior := ByKey(c.view, m.store.traces, key);
            ByKey(c.view, Perform(c, m, a).store.traces, key)
              == if prior.Some? then prior else if a.Try? && a.work.key == key then Some(a.work.body) else None
  {
    hide Execute, Perform, WellFormed, Settled, ByKey;
    StepShows(c, m, a);
    assert m.store.traces + [] == m.store.traces;
    if a.Try? {
      UngatedShows(c, m, a.work);
      ByKeyGrows(c, m.store.traces, key, a.work.body);
    }
  }

  lemma NoTraces(c: Config, key: string)
    ensures ByKey(c.view, [], key) == None
  {
  }

  lemma PrefixShows(c: Config, inputs: map<string, Json>, actions: seq<Action>, k: nat)
    requires AllPerformable(c, actions) && k <= |actions|
    ensures PerformAll(c, Fresh(inputs), actions[..k]).store.traces
         <= PerformAll(c, Fresh(inputs), actions).store.traces
  {
    hide PerformAll, Performable, Settled;
    var rest := actions[k..];
    assert actions == actions[..k] + rest;
    FreshSettled(c, inputs);
    RunTraceFirst(c, Fresh(inputs), actions[..k]);
    PerformConcat(c, Fresh(inputs), actions[..k], rest);
    RunTraceFirst(c, PerformAll(c, Fresh(inputs), actions[..k]), rest);
  }

  /** A committing execution of a key whose first execution was staged shows its trace. */
  lemma StagedFirstShows(c: Config, inputs: map<string, Json>, actions: seq<Action>, i: int, k: int, key: string)
    requires AllPerformable(c, actions) && Unforced(actions) && Ungated(c, actions) && c.backend.Memory?
    requires First(actions, key) == Some(i) && i < k < |actions|
    requires Runs(c, actions[i], key, false) && actions[k].Try? && actions[k].work.key == key
    ensures PerformAll(c, Fresh(inputs), actions[..k + 1]).store.traces
         == PerformAll(c, Fresh(inputs), actions[..k]).store.traces + [actions[k].work.body]
  {
    hide Shows, Perform, WellFormed, Settled, ByKey, First;
    var m := PerformAll(c, Fresh(inputs), actions[..k]);
    assert actions[k] in actions && Performable(c, actions[k]);
    FirstOfPrefix(actions, key, i, k);
    FirstAnswers(c, inputs, actions[..k], key);
    FreshSettled(c, inputs);
    RunTraceFirst(c, Fresh(inputs), actions[..k]);
    UngatedShows(c, m, actions[k].work);
    StepShows(c, m, actions[k]);
    assert actions[..k + 1][..k] == actions[..k];
  }

  lemma FirstOfPrefix(actions: seq<Action>, key: string, i: int, k: int)
    requires First(actions, key) == Some(i) && i < k <= |actions|
    ensures First(actions[..k], key) == Some(i)
  {
    assert actions[..k][i] == actions[i] && actions[i] in actions[..k];
    var first := First(actions[..k], key);
    assert actions[..k][first.value] == actions[first.value];
  }

  /** On a memory journal where nothing refuses, a key commits twice exactly when its first execution is
      staged and two later ones commit. */
  lemma OnceExactly(c: Config, inputs: map<string, Json>, actions: seq<Action>)
    requires AllPerformable(c, actions) && Unforced(actions) && Ungated(c, actions) && c.backend.Memory?
    ensures OncePerKey(c, PerformAll(c, Fresh(inputs), actions).store.traces) <==> !FirstStagedThenTwice(c, actions)
  {
    hide AllPerformable, Unforced, Ungated, PerformAll, Triple, First;
    if i, j, k, key :| Triple(c, actions, i, j, k, key) && First(actions, key) == Some(i) {
      TripleCommitsTwice(c, inputs, actions, i, j, k, key);
    }
    if !OncePerKey(c, PerformAll(c, Fresh(inputs), actions).store.traces) { TwiceHasTriple(c, inputs, actions); }
  }

  lemma TripleCommitsTwice(c: Config, inputs: map<string, Json>, actions: seq<Action>, i: int, j: int, k: int,
                           key: string)
    requires AllPerformable(c, actions) && Unforced(actions) && Ungated(c, actions) && c.backend.Memory?
    requires Triple(c, actions, i, j, k, key) && First(actions, key) == Some(i)
    ensures !OncePerKey(c, PerformAll(c, Fresh(inputs), actions).store.traces)
  {
    hide PerformAll, First, Performable, Goes, OncePerKey;
    FirstOfPrefix(actions, key, i, k);
    assert actions[..k][..j] == actions[..j] && actions[..k][i] == actions[i] && actions[..k][j] == actions[j];
    ShownWithin(c, inputs, actions[..k], i, j, key);
    ShownWithin(c, inputs, actions, i, k, key);
    hide AllPerformable, Unforced, Ungated;
    BothThere(c, PerformAll(c, Fresh(inputs), actions[..j]).store.traces, actions[j].work.body,
              PerformAll(c, Fresh(inputs), actions[..k]).store.traces, actions[k].work.body,
              PerformAll(c, Fresh(inputs), actions).store.traces, key);
  }

  lemma ShownWithin(c: Config, inputs: map<string, Json>, actions: seq<Action>, i: int, k: int, key: string)
    requires AllPerformable(c, actions) && Unforced(actions) && Ungated(c, actions) && c.backend.Memory?
    requires First(actions, key) == Some(i) && i < k < |actions|
    requires Runs(c, actions[i], key, false) && actions[k].Try? && actions[k].work.key == key
    ensures PerformAll(c, Fresh(inputs), actions[..k]).store.traces + [actions[k].work.body]
         <= PerformAll(c, Fresh(inputs), actions).store.traces
    ensures c.view(actions[k].work.body).statementKey == key
  {
    hide PerformAll, First, Runs, Ungated, Unforced, WellFormed;
    StagedFirstShows(c, inputs, actions, i, k, key);
    PrefixShows(c, inputs, actions, k + 1);
    assert actions[k] in actions && Performable(c, actions[k]);
  }

  lemma BothThere(c: Config, before: seq<Json>, b: Json, middle: seq<Json>, d: Json, after: seq<Json>, key: string)
    requires Committed(c, b, key) && Committed(c, d, key) && before + [b] <= middle && middle + [d] <= after
    ensures !OncePerKey(c, after)
  {
    assert after[|middle|] == d && after[|before|] == middle[|before|] == b;
  }

  lemma TwiceHasTriple(c: Config, inputs: map<string, Json>, actions: seq<Action>)
    requires AllPerformable(c, actions) && Unforced(actions) && Ungated(c, actions) && c.backend.Memory?
    requires !OncePerKey(c, PerformAll(c, Fresh(inputs), actions).store.traces)
    ensures FirstStagedThenTwice(c, actions)
  {
    hide PerformAll, Shown, WellFormed, Unforced, Ungated, AllPerformable, ShownAt, ByKey, First;
    TracesShown(c, inputs, actions);
    var traces, shown := PerformAll(c, Fresh(inputs), actions).store.traces, Shown(c, Fresh(inputs), actions);
    var p, q :| 0 <= p < q < |traces| && c.view(traces[p]).committed && c.view(traces[q]).committed
                && c.view(traces[p]).statementKey == c.view(traces[q]).statementKey;
    var key := c.view(traces[q]).statementKey;
    ShownUnanswered(c, inputs, actions, p);
    ShownUnanswered(c, inputs, actions, q);
    ShownBound(c, inputs, actions, p);
    ShownBound(c, inputs, actions, q);
    ShownPrefix(c, inputs, actions, q);
    FirstBefore(c, inputs, actions, shown[p], shown[q], key);
    var i := First(actions, key).value;
    StagedBefore(c, traces[..q], key, p);
    FirstMeans(actions, key);
    assert Triple(c, actions, i, shown[p], shown[q], key);
  }

  lemma ShownPrefix(c: Config, inputs: map<string, Json>, actions: seq<Action>, q: int)
    requires ShownAt(c, inputs, actions, q)
    ensures PerformAll(c, Fresh(inputs), actions[..Shown(c, Fresh(inputs), actions)[q]]).store.traces
         == PerformAll(c, Fresh(inputs), actions).store.traces[..q]
  {
  }

  lemma FirstMeans(actions: seq<Action>, key: string)
    ensures var first := First(actions, key);
            first.Some? ==> 0 <= first.value < |actions| && actions[first.value].Try?
                            && actions[first.value].work.key == key
  {
  }

  /** What the first execution of a key answers at a later step. */
  lemma FirstBefore(c: Config, inputs: map<string, Json>, actions: seq<Action>, p: int, q: int, key: string)
    requires AllPerformable(c, actions) && Unforced(actions) && Ungated(c, actions) && c.backend.Memory?
    requires 0 <= p < q < |actions| && actions[p].Try? && actions[p].work.key == key
    ensures var i := First(actions, key);
            && i.Some? && i.value <= p
            && ByKey(c.view, PerformAll(c, Fresh(inputs), actions[..q]).store.traces, key)
                 == Some(actions[i.value].work.body)
  {
    hide PerformAll, WellFormed, ByKey;
    assert actions[p] in actions;
    var i := First(actions, key).value;
    FirstOfPrefix(actions, key, i, q);
    FirstAnswers(c, inputs, actions[..q], key);
  }

  /* ---------- while the intents' requirement stands ---------- */

  /** Every execution has its own identity's key, none is a retry, and every call finds its intent's
      attestation requirement as it was. */
  ghost predicate Standing(c: Config, required: string -> bool, actions: seq<Action>) {
    forall a :: a in actions && a.Try? ==>
      Identified(c, a.work) && !a.work.force && a.work.required == required(a.work.material.intent)
  }

  /** The texts whose digests are the keys of a run. */
  ghost function KeyTexts(actions: seq<Action>): set<string> {
    set a | a in actions && a.Try? :: StatementKeys.IdentityText(a.work.material)
  }

  /** Where the digest does not collide on the run's identity texts, a key settles whether the statement
      commits, because it settles the intent and the steps. */
  lemma StandingDecides(c: Config, required: string -> bool, actions: seq<Action>)
    requires Standing(c, required, actions)
    requires JournalProofs.CollisionFree(c.sha256, KeyTexts(actions))
    ensures Unforced(actions)
    ensures forall a, b :: a in actions && b in actions && a.Try? && b.Try? && a.work.key == b.work.key ==>
              c.view(a.work.body).committed == c.view(b.work.body).committed
  {
    hide StatementKeys.Key, StatementKeys.IdentityText, StatementKeys.WellFormedMaterial, WellFormed;
    forall a, b | a in actions && b in actions && a.Try? && b.Try? && a.work.key == b.work.key
      ensures c.view(a.work.body).committed == c.view(b.work.body).committed
    {
      assert Identified(c, a.work) && Identified(c, b.work);
      var x, y := a.work.material, b.work.material;
      JournalProofs.CollisionFreeSubset(c.sha256, KeyTexts(actions),
          {StatementKeys.IdentityText(x), StatementKeys.IdentityText(y)});
      StatementKeys.KeySettlesCommit(c.sha256, required, x, y);
    }
  }

  /** So no two committed traces of such a run share a statement key, whatever fails in between. */
  lemma CommittedOnce(c: Config, required: string -> bool, inputs: map<string, Json>, actions: seq<Action>)
    requires AllPerformable(c, actions) && Standing(c, required, actions)
    requires JournalProofs.CollisionFree(c.sha256, KeyTexts(actions))
    ensures OncePerKey(c, PerformAll(c, Fresh(inputs), actions).store.traces)
  {
    hide AllPerformable, Standing, KeyTexts, Unforced, PerformAll;
    StandingDecides(c, required, actions);
    OnceUnlessStaged(c, inputs, actions);
  }

  /* ---------- when the requirement changes ---------- */

  /** The requirement must stand. Whenever the first visible trace of a key is staged and the statement no
      longer needs the attestation it lacked, it commits again and again. */
  lemma StagedTraceHidesCommitted(c: Config, m: Machine, w: Work, again: Work)
    requires Settled(c, m) && c.backend.Memory? && StagedFirst(c, m, w.key)
    requires Goes(c, w) && Goes(c, again) && w.key == again.key
    requires c.view(w.body).committed && c.view(again.body).committed
    ensures m.store.journal.durable <= |m.store.journal.list|
    ensures var n := PerformAll(c, m, [Try(w), Try(again)]);
            n.store.traces == m.store.traces + [w.body, again.body] && !OncePerKey(c, n.store.traces)
  {
    hide Settled, WellFormed;
    SettledReady(c, m);
    StagedFirstRuns(c, m, w);
    var n := Execute(c, m, w).0;
    ExecuteEffect(c, m, w);
    StagedFirstRuns(c, n, again);
    ExecuteEffect(c, n, again);
    var k := Execute(c, n, again).0;
    PerformTwice(c, m, Try(w), Try(again));
    assert m.store.traces + [w.body] + [again.body] == m.store.traces + [w.body, again.body];
    var i := |m.store.traces|;
    assert k.store.traces[i] == w.body && k.store.traces[i + 1] == again.body;
  }

  /** Some trace has the key, and the first such trace is staged. */
  ghost predicate StagedFirst(c: Config, m: Machine, key: string) {
    var prior := ByKey(c.view, m.store.traces, key);
    prior.Some? && !c.view(prior.value).committed
  }

  lemma StagedFirstRuns(c: Config, m: Machine, w: Work)
    requires Settled(c, m) && c.backend.Memory? && Goes(c, w)
    requires StagedFirst(c, m, w.key)
    ensures m.store.journal.durable <= |m.store.journal.list|
    ensures Execute(c, m, w).1.Done?
    ensures StagedFirst(c, Execute(c, m, w).0, w.key)
  {
    hide Settled, WellFormed, Execute, ByKey;
    SettledReady(c, m);
    UngatedShows(c, m, w);
    ExecuteEffect(c, m, w);
    ByKeyGrows(c, m.store.traces, w.key, w.body);
  }

  /** It happens: one statement run while its intent requires an attestation that no step gives, and twice
      after the intent stops requiring it. */
  lemma RequirementDropped(c: Config, inputs: map<string, Json>, before: Work, after: Work, again: Work)
    requires c.backend.Memory? && Goes(c, before) && Goes(c, after) && Goes(c, again)
    requires !before.force && !after.force && !again.force
    requires before.key == after.key == again.key && before.material == after.material == again.material
    requires c.view(before.body).committed == Commits(before) && c.view(after.body).committed == Commits(after)
    requires c.view(again.body).committed == Commits(again)
    requires !StatementKeys.Attests(before.material.compute)
    requires before.required && !after.required && !again.required
    ensures var n := PerformAll(c, Fresh(inputs), [Try(before)] + [Try(after), Try(again)]);
            n.store.traces == [before.body, after.body, again.body] && !OncePerKey(c, n.store.traces)
  {
    var m := Fresh(inputs);
    FreshSettled(c, inputs);
    hide Settled, WellFormed, StatementKeys.WellFormedMaterial, StatementKeys.Key;
    UngatedShows(c, m, before);
    ExecuteEffect(c, m, before);
    hide Execute;
    var n := Execute(c, m, before).0;
    assert [] + [before.body] == [before.body];
    StagedTraceHidesCommitted(c, n, after, again);
    PerformTwice(c, m, Try(before), Reopen);
    PerformConcat(c, m, [Try(before)], [Try(after), Try(again)]);
    assert [before.body] + [after.body, again.body] == [before.body, after.body, again.body];
  }
}
