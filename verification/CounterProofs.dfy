/** The live reuse counters and the ones the journal replays to (src/runtime.js:203-208, 259-265): when they
    agree, on every backend and over every run. */
module CounterProofs {
  import opened CanonicalJson
  import opened Execution
  import opened ExecutionProofs
  import opened Journal
  import opened Options
  import opened TraceStore

  /* ---------- one store ---------- */

  lemma {:induction false} TallyCounts(reuse: map<string, nat>, ids: seq<string>, id: string)
    ensures Count(Tally(reuse, ids), id) == Count(reuse, id) + multiset(ids)[id]
    decreases |ids|
  {
    if ids != [] {
      var n := |ids| - 1;
      TallyCounts(reuse, ids[..n], id);
      assert ids == ids[..n] + [ids[n]];
    }
  }

  /** The live counters are what all the journaled events add up to. */
  ghost predicate Counted(s: Store) {
    s.reuse == Recount(s.journal.list)
  }

  lemma {:induction false} RecountConcat(a: seq<Entry>, b: seq<Entry>)
    ensures Recount(a + b) == TallyAll(Recount(a), Journal.Select(Some(REUSE), b))
    decreases |b|
  {
    hide Tally, TraceIds;
    if b == [] {
      assert a + b == a;
    } else {
      var n := |b| - 1;
      RecountConcat(a, b[..n]);
      SelectSnoc(REUSE, a + b[..n], b[n]);
      assert a + b == (a + b[..n]) + [b[n]];
      LastEvent(Recount(a), b);
    }
  }

  lemma LastEvent(reuse: map<string, nat>, b: seq<Entry>)
    requires b != []
    ensures var e, before := b[|b| - 1], TallyAll(reuse, Journal.Select(Some(REUSE), b[..|b| - 1]));
            TallyAll(reuse, Journal.Select(Some(REUSE), b))
              == if e.kind == REUSE then Tally(before, TraceIds(e.body)) else before
  {
    var some := Journal.Select(Some(REUSE), b[..|b| - 1]);
    assert (some + [b[|b| - 1]])[..|some|] == some && some + [] == some;
  }

  lemma {:induction false} TallyAllGrows(reuse: map<string, nat>, entries: seq<Entry>, id: string)
    ensures Count(reuse, id) <= Count(TallyAll(reuse, entries), id)
    ensures (exists i :: 0 <= i < |entries| && id in TraceIds(entries[i].body)) ==>
              Count(reuse, id) < Count(TallyAll(reuse, entries), id)
    decreases |entries|
  {
    hide TraceIds;
    if entries != [] {
      var n := |entries| - 1;
      TallyAllGrows(reuse, entries[..n], id);
      var before := TallyAll(reuse, entries[..n]);
      TallyCounts(before, TraceIds(entries[n].body), id);
      if i :| 0 <= i < |entries| && id in TraceIds(entries[i].body) {
        assert i < n ==> entries[..n][i] == entries[i];
      }
    }
  }

  lemma {:induction false} NoIdsNoChange(reuse: map<string, nat>, entries: seq<Entry>)
    requires forall i :: 0 <= i < |entries| ==> TraceIds(entries[i].body) == []
    ensures TallyAll(reuse, entries) == reuse
    decreases |entries|
  {
    if entries != [] { NoIdsNoChange(reuse, entries[..|entries| - 1]); }
  }

  /** A failed flush discards the queued reuse events while the live counters keep what they counted:
      live and replayed counters then agree exactly when no queued event named a trace. */
  lemma FailedFlushLosesReuse(s: Store)
    requires Counted(s) && s.journal.durable <= |s.journal.list|
    ensures var queued := Journal.Select(Some(REUSE), s.journal.list[s.journal.durable..]);
            Counted(AfterFlush(s, false)) <==> forall i :: 0 <= i < |queued| ==> TraceIds(queued[i].body) == []
  {
    var j := s.journal;
    var kept, queued := j.list[..j.durable], Journal.Select(Some(REUSE), j.list[j.durable..]);
    assert j.list == kept + j.list[j.durable..];
    RecountConcat(kept, j.list[j.durable..]);
    hide Recount, TraceIds;
    if i :| 0 <= i < |queued| && TraceIds(queued[i].body) != [] {
      var id := TraceIds(queued[i].body)[0];
      TallyAllGrows(Recount(kept), queued, id);
      assert Count(s.reuse, id) != Count(Recount(kept), id);
    } else {
      NoIdsNoChange(Recount(kept), queued);
    }
  }

  /* ---------- every backend ---------- */

  /** Some entry of the list is a reuse event that names a trace. */
  ghost predicate Naming(list: seq<Entry>) {
    exists i :: 0 <= i < |Journal.Select(Some(REUSE), list)|
      && TraceIds(Journal.Select(Some(REUSE), list)[i].body) != []
  }

  /** The step loses a reuse event that names a trace: a flush that fails drops it from the queue, or the disk
      refuses it once the trace of its statement is down. */
  ghost predicate Loses(c: Config, m: Machine, a: Action)
    requires Ready(m)
  {
    match a
    case Try(w) =>
      && Writes(c, m, w)
      && var t := AfterWrite(c, m.store, w.body);
         if FlushLands(t.journal, w.reply) then Inherited(c, m, w) != [] && AppendFails(c, w.reuseFails)
         else Naming(t.journal.list[t.journal.durable..])
    case Fail(r) =>
      && !AppendFails(c, r.writeFails)
      && var t := AfterAppend(c, m.store, FAILURE, r.body);
         !FlushLands(t.journal, r.reply) && Naming(t.journal.list[t.journal.durable..])
    case _ => false
  }

  /** Since the runtime was last opened, no step has lost such an event. */
  ghost predicate NothingLost(c: Config, m: Machine, actions: seq<Action>)
    requires Ready(m)
  {
    if actions == [] then true
    else
      var k := |actions| - 1;
      actions[k].Reopen?
        || (NothingLost(c, m, actions[..k]) && !Loses(c, PerformAll(c, m, actions[..k]), actions[k]))
  }

  /** A reuse event that names a trace is journaled and not durable yet. */
  ghost predicate NamingQueued(s: Store)
    requires s.journal.durable <= |s.journal.list|
  {
    Naming(s.journal.list[s.journal.durable..])
  }

  /** Live counters count at least what the journal has. */
  ghost predicate AtLeast(s: Store) {
    forall id :: Count(Recount(s.journal.list), id) <= Count(s.reuse, id)
  }

  /** Some live counter has counted what the journal lost. */
  ghost predicate Ahead(s: Store) {
    exists id :: Count(Recount(s.journal.list), id) < Count(s.reuse, id)
  }

  /** The store before and after an append, with the same reuse counted on both sides. */
  ghost predicate Alike(s: Store, t: Store) {
    && (Counted(s) ==> Counted(t)) && (AtLeast(s) ==> AtLeast(t)) && (Ahead(s) ==> Ahead(t))
  }

  lemma AppendRecount(c: Config, s: Store, kind: string, body: Json)
    ensures var t := AfterAppend(c, s, kind, body);
            && t.reuse == s.reuse
            && Recount(t.journal.list)
                 == if kind == REUSE then Tally(Recount(s.journal.list), TraceIds(body)) else Recount(s.journal.list)
  {
    hide Recount, Tally, TraceIds;
    EntryFields(c.sha256, s.journal.list, kind, body);
    SelectSnoc(kind, s.journal.list, NextEntry(c.sha256, s.journal.list, kind, body));
  }

  lemma SameCounts(s: Store, t: Store)
    requires t.reuse == s.reuse && Recount(t.journal.list) == Recount(s.journal.list)
    ensures Alike(s, t)
  {
    hide Recount;
  }

  lemma AppendAlike(c: Config, s: Store, kind: string, body: Json)
    requires kind != REUSE
    ensures Alike(s, AfterAppend(c, s, kind, body))
  {
    hide Alike, AfterAppend, Recount, Tally, TraceIds;
    AppendRecount(c, s, kind, body);
    SameCounts(s, AfterAppend(c, s, kind, body));
  }

  lemma WriteAlike(c: Config, s: Store, body: Json)
    ensures Alike(s, AfterWrite(c, s, body))
  {
    AppendAlike(c, s, TRACE, body);
    hide Recount, AfterAppend;
  }

  /** What the reuse event of a statement does to the counters. */
  lemma ReuseCounts(c: Config, s: Store, ids: seq<string>, reader: string, at: string, diskFails: bool)
    ensures var t, lost := AfterReuse(c, s, ids, reader, at, diskFails), ids != [] && AppendFails(c, diskFails);
            && (AtLeast(s) ==> AtLeast(t)) && (Ahead(s) && AtLeast(s) ==> Ahead(t))
            && (AtLeast(s) && lost ==> Ahead(t)) && (Counted(s) && !lost ==> Counted(t))
  {
    hide Alike, AfterAppend, ReuseBody, Recount, Tally, TraceIds;
    if ids == [] {
      SameCounts(s, s);
    } else if AppendFails(c, diskFails) {
      OnlyLiveTallied(s, AfterReuse(c, s, ids, reader, at, diskFails), ids);
    } else {
      ReuseReadsBack(ids, reader, at);
      AppendRecount(c, s.(reuse := Tally(s.reuse, ids)), REUSE, ReuseBody(ids, reader, at));
      BothTallied(s, AfterReuse(c, s, ids, reader, at, diskFails), ids);
    }
    AlikeMeans(s, AfterReuse(c, s, ids, reader, at, diskFails));
  }

  lemma AlikeMeans(s: Store, t: Store)
    ensures Alike(s, t) ==>
              (Counted(s) ==> Counted(t)) && (AtLeast(s) ==> AtLeast(t)) && (Ahead(s) ==> Ahead(t))
  {
  }

  /** A refused event leaves the live counters with what the journal does not have. */
  lemma OnlyLiveTallied(s: Store, t: Store, ids: seq<string>)
    requires t.journal == s.journal && t.reuse == Tally(s.reuse, ids) && ids != []
    ensures AtLeast(s) ==> AtLeast(t) && Ahead(t)
  {
    hide Recount, Tally;
    forall id ensures Count(t.reuse, id) == Count(s.reuse, id) + multiset(ids)[id] { TallyCounts(s.reuse, ids, id); }
    if AtLeast(s) {
      assert ids[0] in multiset(ids);
      assert Count(Recount(t.journal.list), ids[0]) < Count(t.reuse, ids[0]);
    }
  }

  lemma BothTallied(s: Store, t: Store, ids: seq<string>)
    requires t.reuse == Tally(s.reuse, ids) && Recount(t.journal.list) == Tally(Recount(s.journal.list), ids)
    ensures Alike(s, t)
  {
    hide Recount, Tally;
    forall id
      ensures Count(t.reuse, id) - Count(s.reuse, id)
           == Count(Recount(t.journal.list), id) - Count(Recount(s.journal.list), id)
    {
      TallyCounts(s.reuse, ids, id);
      TallyCounts(Recount(s.journal.list), ids, id);
    }
    if Ahead(s) {
      var id :| Count(Recount(s.journal.list), id) < Count(s.reuse, id);
      assert Count(Recount(t.journal.list), id) < Count(t.reuse, id);
    }
  }

  /** A failed flush keeps live counters at least the journal's; it puts some counter ahead when it drops an
      event that names a trace, and changes nothing when it does not. */
  lemma FlushCounts(s: Store, landed: bool)
    requires s.journal.durable <= |s.journal.list| && AtLeast(s)
    ensures AtLeast(AfterFlush(s, landed))
    ensures Ahead(s) ==> Ahead(AfterFlush(s, landed))
    ensures var lost := !landed && Naming(s.journal.list[s.journal.durable..]);
            (lost ==> Ahead(AfterFlush(s, landed))) && (!lost && Counted(s) ==> Counted(AfterFlush(s, landed)))
  {
    if !landed {
      var j := s.journal;
      var kept, rest := j.list[..j.durable], j.list[j.durable..];
      var queued := Journal.Select(Some(REUSE), rest);
      assert j.list == kept + rest;
      RecountConcat(kept, rest);
      hide Recount, TraceIds;
      forall id ensures Count(Recount(kept), id) <= Count(Recount(j.list), id) {
        TallyAllGrows(Recount(kept), queued, id);
      }
      if i :| 0 <= i < |queued| && TraceIds(queued[i].body) != [] {
        var id := TraceIds(queued[i].body)[0];
        TallyAllGrows(Recount(kept), queued, id);
        assert Count(Recount(kept), id) < Count(s.reuse, id);
      } else {
        NoIdsNoChange(Recount(kept), queued);
      }
      if Ahead(s) {
        var id :| Count(Recount(j.list), id) < Count(s.reuse, id);
        assert Count(Recount(kept), id) < Count(s.reuse, id);
      }
    }
  }

  lemma CountedAtLeast(s: Store)
    requires Counted(s)
    ensures AtLeast(s) && !Ahead(s)
  {
  }

  /** What one step that is not a reopening does to the counters. */
  lemma StepCounts(c: Config, m: Machine, a: Action)
    requires Ready(m) && Performable(c, a) && AtLeast(m.store) && !a.Reopen?
    ensures var n := Perform(c, m, a);
            && AtLeast(n.store) && (Ahead(m.store) || Loses(c, m, a) ==> Ahead(n.store))
            && (Counted(m.store) && !Loses(c, m, a) ==> Counted(n.store))
  {
    hide Counted, AtLeast, Ahead, Naming, FlushLands, WellFormed, Inherited, Answer;
    match a {
      case Try(w) => if Writes(c, m, w) { TryCounts(c, m, w); } else { hide AfterWrite, AfterFlush, AfterReuse; }
      case Fail(r) =>
        if !AppendFails(c, r.writeFails) {
          var t := AfterAppend(c, m.store, FAILURE, r.body);
          AppendAlike(c, m.store, FAILURE, r.body);
          FlushCounts(t, FlushLands(t.journal, r.reply));
        }
      case Other(kind, body, _) => AppendAlike(c, m.store, kind, body);
    }
  }

  lemma TryCounts(c: Config, m: Machine, w: Work)
    requires Ready(m) && AtLeast(m.store) && Writes(c, m, w)
    ensures var n := Execute(c, m, w).0;
            && AtLeast(n.store) && (Ahead(m.store) || Loses(c, m, Try(w)) ==> Ahead(n.store))
            && (Counted(m.store) && !Loses(c, m, Try(w)) ==> Counted(n.store))
  {
    hide Counted, AtLeast, Ahead, Naming, FlushLands, Inherited, Answer, AfterWrite, AfterFlush, AfterReuse;
    var t := AfterWrite(c, m.store, w.body);
    var landed := FlushLands(t.journal, w.reply);
    WriteAlike(c, m.store, w.body);
    FlushCounts(t, landed);
    ReuseCounts(c, AfterFlush(t, landed), Inherited(c, m, w), c.view(w.body).id, w.at, w.reuseFails);
  }

  lemma ReopenCounts(c: Config, m: Machine)
    requires Ready(m)
    ensures Counted(Perform(c, m, Reopen).store)
  {
    hide Recount;
    var j := m.store.journal;
    assert j.list[..j.durable][..j.durable] == j.list[..j.durable];
  }

  /** On every backend and over every run, the live counters are what a runtime opened on the journal now would
      count exactly when, since this one was opened, no event that names a trace was lost and none is queued. */
  lemma {:induction false} CountersAgreeExactly(c: Config, m: Machine, actions: seq<Action>)
    requires Ready(m) && Counted(m.store) && AllPerformable(c, actions)
    ensures var s := PerformAll(c, m, actions).store;
            Replayed(s.journal).reuse == s.reuse <==> NothingLost(c, m, actions) && !NamingQueued(s)
  {
    CountersOverRun(c, m, actions);
    var s := PerformAll(c, m, actions).store;
    FlushCounts(s, false);
    DiscardedIsReplayed(s);
    if Counted(s) { CountedAtLeast(s); }
    if Counted(AfterFlush(s, false)) { CountedAtLeast(AfterFlush(s, false)); }
  }

  lemma DiscardedIsReplayed(s: Store)
    requires s.journal.durable <= |s.journal.list|
    ensures Counted(AfterFlush(s, false)) <==> Replayed(s.journal).reuse == s.reuse
  {
  }

  lemma {:induction false} CountersOverRun(c: Config, m: Machine, actions: seq<Action>)
    requires Ready(m) && Counted(m.store) && AllPerformable(c, actions)
    ensures var s := PerformAll(c, m, actions).store;
            AtLeast(s) && (if NothingLost(c, m, actions) then Counted(s) else Ahead(s))
    decreases |actions|
  {
    hide Counted, AtLeast, Ahead, Loses, Perform, Performable;
    if actions == [] {
      CountedAtLeast(m.store);
    } else {
      var k := |actions| - 1;
      var before := PerformAll(c, m, actions[..k]);
      CountersOverRun(c, m, actions[..k]);
      if actions[k].Reopen? {
        ReopenCounts(c, before);
        CountedAtLeast(Perform(c, before, Reopen).store);
      } else {
        StepCounts(c, before, actions[k]);
      }
    }
  }

  /* ---------- synchronous journals ---------- */

  /** No append of a reuse event fails. */
  ghost predicate ReuseRecorded(actions: seq<Action>) {
    forall a :: a in actions && a.Try? ==> !a.work.reuseFails
  }

  /** With a synchronous journal whose reuse events are recorded, the live counters equal the ones a
      replay rebuilds, after every step of every run. */
  lemma {:induction false} CountersReplay(c: Config, m: Machine, actions: seq<Action>)
    requires Settled(c, m) && Counted(m.store) && AllPerformable(c, actions)
    requires !c.backend.WriteBehind? && ReuseRecorded(actions)
    ensures m.store.journal.durable <= |m.store.journal.list|
    ensures Counted(PerformAll(c, m, actions).store)
    ensures PerformAll(c, m, actions).store.reuse == Replayed(PerformAll(c, m, actions).store.journal).reuse
  {
    hide Settled, Counted, NothingLost, Performable;
    SettledReady(c, m);
    SyncLosesNothing(c, m, actions);
    CountersOverRun(c, m, actions);
    CountersAgreeExactly(c, m, actions);
  }

  lemma AllDurable(c: Config, m: Machine)
    requires Settled(c, m) && !c.backend.WriteBehind?
    ensures m.store.journal.durable == |m.store.journal.list|
              && m.store.journal.list[..m.store.journal.durable] == m.store.journal.list
    ensures m.store.journal.pending == []
  {
  }

  lemma {:induction false} SyncLosesNothing(c: Config, m: Machine, actions: seq<Action>)
    requires Settled(c, m) && AllPerformable(c, actions) && !c.backend.WriteBehind? && ReuseRecorded(actions)
    ensures m.store.journal.durable <= |m.store.journal.list|
    ensures NothingLost(c, m, actions) && !NamingQueued(PerformAll(c, m, actions).store)
    decreases |actions|
  {
    hide Performable, Settled, Perform, Loses;
    SettledReady(c, m);
    if actions != [] {
      var k := |actions| - 1;
      RunTraceFirst(c, m, actions[..k]);
      SyncLosesNothing(c, m, actions[..k]);
      StepLosesNothing(c, PerformAll(c, m, actions[..k]), actions[k]);
    }
    RunTraceFirst(c, m, actions);
    AllDurable(c, PerformAll(c, m, actions));
  }

  lemma StepLosesNothing(c: Config, m: Machine, a: Action)
    requires Settled(c, m) && !c.backend.WriteBehind? && (a.Try? ==> !a.work.reuseFails)
    ensures m.store.journal.durable <= |m.store.journal.list|
    ensures !Loses(c, m, a)
  {
    AllDurable(c, m);
    hide Settled, NextEntry, Naming, Inherited;
  }

  /* ---------- runs after which they differ ---------- */

  /** A call whose trace is an inference, and one that reads it as context and so queues a reuse event after its
      own flush. Both flushes land. */
  ghost predicate QueueingCalls(c: Config, first: Work, second: Work) {
    && c.backend.WriteBehind? && Goes(c, first) && Goes(c, second) && first.key != second.key
    && first.context.n <= 0 && second.context.n > 0
    && c.view(first.body).attestation.Ai?
    && Fits(c.settings, map[], second.context, second.who, c.view(first.body))
    && first.reply == Selected(None, true)
    && second.reply == Selected(Some(FirstEntry(c, first).digest), true)
  }

  /** A call after them whose flush fails. */
  ghost predicate FailingCall(c: Config, first: Work, second: Work, third: Work) {
    Goes(c, third) && third.key != first.key && third.key != second.key && third.reply == SelectFails
  }

  /** No visible trace has the key of the call. */
  ghost predicate NewKey(c: Config, m: Machine, w: Work) {
    forall b :: b in m.store.traces ==> c.view(b).statementKey != w.key
  }

  lemma Unanswered(c: Config, m: Machine, w: Work)
    requires NewKey(c, m, w)
    ensures Answer(c, m, w).None?
  {
  }

  lemma OneEntry(c: Config, list: seq<Entry>, kind: string, body: Json)
    ensures var e := NextEntry(c.sha256, list, kind, body);
            list + [e] != [] && e.prev == HeadOf(list) && HeadOf(list + [e]) == e.digest
  {
  }

  /** A flush of a single pending entry lands when the table's head is the one it was chained to. */
  lemma WriteLands(c: Config, s: Store, body: Json, head: Option<string>)
    requires c.backend.WriteBehind? && s.journal.pending == [] && s.staged == []
               && s.journal.durable == |s.journal.list|
    requires (if head.Some? then head.value else GENESIS) == HeadOf(s.journal.list)
    ensures var t := AfterWrite(c, s, body);
            FlushLands(t.journal, Selected(head, true)) && t.journal.durable <= |t.journal.list|
            && AfterFlush(t, true) == Store(State(s.journal.list + [NextEntry(c.sha256, s.journal.list, TRACE, body)],
                                                  |s.journal.list| + 1, []),
                                            s.traces + [body], [], s.reuse)
  {
    OneEntry(c, s.journal.list, TRACE, body);
    hide NextEntry;
    var e := NextEntry(c.sha256, s.journal.list, TRACE, body);
    assert [] + [e] == [e] && [] + [body] == [body];
  }

  function FirstEntry(c: Config, first: Work): Entry {
    NextEntry(c.sha256, [], TRACE, first.body)
  }

  lemma FirstLands(c: Config, inputs: map<string, Json>, first: Work)
    requires c.backend.WriteBehind? && Goes(c, first) && first.context.n <= 0 && first.reply == Selected(None, true)
    ensures Execute(c, Fresh(inputs), first).0.store
         == Store(State([FirstEntry(c, first)], 1, []), [first.body], [], map[])
    ensures Execute(c, Fresh(inputs), first).1.Done?
  {
    WriteLands(c, Fresh(inputs).store, first.body, None);
    hide WellBuilt, AfterWrite, AfterFlush, FlushLands, NextEntry, Pool;
    assert [] + [FirstEntry(c, first)] == [FirstEntry(c, first)] && [] + [first.body] == [first.body];
    assert Inherited(c, Fresh(inputs), first) == [];
  }

  /** Reading the one inference there is as context. */
  lemma ReadsFirst(c: Config, m: Machine, first: Work, second: Work)
    requires m.store.traces == [first.body] && m.store.reuse == map[] && c.view(first.body).attestation.Ai?
    requires second.context.n > 0 && Fits(c.settings, map[], second.context, second.who, c.view(first.body))
    ensures Inherited(c, m, second) == [c.view(first.body).id]
  {
    hide Fits;
    var x, who := second.context, second.who;
    assert [first.body][..0] == [];
    assert Pool(c, map[], x, who, [first.body]) == [] + [first.body] == [first.body];
    assert AiIds(c.view, [first.body]) == [] + [c.view(first.body).id] == [c.view(first.body).id];
  }

  lemma ExecuteMarks(c: Config, m: Machine, w: Work)
    requires Ready(m) && Writes(c, m, w) && FlushLands(AfterWrite(c, m.store, w.body).journal, w.reply)
    ensures Execute(c, m, w).0.store
         == AfterReuse(c, AfterFlush(AfterWrite(c, m.store, w.body), true), Inherited(c, m, w),
                       c.view(w.body).id, w.at, w.reuseFails)
    ensures !AppendFails(c, w.reuseFails) ==> Execute(c, m, w).1.Done?
  {
    hide AfterWrite, AfterFlush, AfterReuse, FlushLands, Inherited, Answer;
  }

  lemma DoneLosesNothing(c: Config, m: Machine, w: Work)
    requires Ready(m) && Execute(c, m, w).1.Done?
    ensures !Loses(c, m, Try(w))
  {
    hide AfterWrite, AfterFlush, AfterReuse, FlushLands, Inherited, Answer;
  }

  lemma EventQueued(c: Config, s: Store, ids: seq<string>, reader: string, at: string, fails: bool)
    requires c.backend.WriteBehind? && s.journal.pending == [] && s.journal.durable == |s.journal.list| && ids != []
    ensures var t := AfterReuse(c, s, ids, reader, at, fails);
            var j := t.journal;
            && t.traces == s.traces && t.staged == s.staged
            && j.durable == |s.journal.list| && |j.list| == j.durable + 1 && j.pending == [j.list[j.durable]]
            && j.list[..j.durable] == s.journal.list
            && j.list[j.durable].kind == REUSE && TraceIds(j.list[j.durable].body) == ids
  {
    ReuseReadsBack(ids, reader, at);
    EntryFields(c.sha256, s.journal.list, REUSE, ReuseBody(ids, reader, at));
    hide NextEntry, ReuseBody, TraceIds, Tally;
    var e := NextEntry(c.sha256, s.journal.list, REUSE, ReuseBody(ids, reader, at));
    assert [] + [e] == [e];
  }

  /** What a call that reads an inference leaves on a write-behind journal with nothing queued: its trace down,
      and behind it the event that names what it read. */
  lemma ReadQueues(c: Config, m: Machine, w: Work, head: Option<string>)
    requires c.backend.WriteBehind? && Goes(c, w) && NewKey(c, m, w) && w.reply == Selected(head, true)
    requires m.store.journal.pending == [] && m.store.staged == []
    requires m.store.journal.durable == |m.store.journal.list|
    requires (if head.Some? then head.value else GENESIS) == HeadOf(m.store.journal.list)
    requires Inherited(c, m, w) != []
    ensures var t := Execute(c, m, w).0.store;
            var j := t.journal;
            && Execute(c, m, w).1.Done? && t.traces == m.store.traces + [w.body] && t.staged == []
            && j.durable == |m.store.journal.list| + 1 && |j.list| == j.durable + 1 && j.pending == [j.list[j.durable]]
            && j.list[..j.durable]
                 == m.store.journal.list + [NextEntry(c.sha256, m.store.journal.list, TRACE, w.body)]
            && j.list[j.durable].kind == REUSE && TraceIds(j.list[j.durable].body) == Inherited(c, m, w)
  {
    hide WellBuilt, AfterWrite, AfterFlush, AfterReuse, FlushLands, NextEntry, Inherited, TraceIds, Answer, Execute;
    Unanswered(c, m, w);
    WriteLands(c, m.store, w.body, head);
    ExecuteMarks(c, m, w);
    EventQueued(c, AfterFlush(AfterWrite(c, m.store, w.body), true), Inherited(c, m, w), c.view(w.body).id, w.at,
                w.reuseFails);
  }

  /** What a write leaves queued behind the event. */
  lemma QueuedBehind(c: Config, s: Store, body: Json)
    requires c.backend.WriteBehind? && s.journal.durable == 2 && |s.journal.list| == 3
    ensures var j := AfterWrite(c, s, body).journal;
            j.durable == 2 && |j.list| == 4 && j.pending != []
            && j.list[2..] == [s.journal.list[2], j.list[3]] && j.list[3].kind == TRACE
  {
    EntryFields(c.sha256, s.journal.list, TRACE, body);
    hide NextEntry;
  }

  /** A failed flush then drops it. */
  lemma ThirdLoses(c: Config, m: Machine, third: Work)
    requires c.backend.WriteBehind? && Goes(c, third) && third.reply == SelectFails && NewKey(c, m, third)
    requires m.store.journal.durable == 2 && |m.store.journal.list| == 3
    requires m.store.journal.list[2].kind == REUSE && TraceIds(m.store.journal.list[2].body) != []
    ensures Loses(c, m, Try(third))
  {
    hide TraceIds, WellBuilt, AfterWrite, FlushLands, Naming, Answer;
    Unanswered(c, m, third);
    QueuedBehind(c, m.store, third.body);
    var j := AfterWrite(c, m.store, third.body).journal;
    NamingPair(j.list[2], j.list[3]);
    NeverLands(j);
  }

  lemma NeverLands(j: State)
    requires j.pending != []
    ensures !FlushLands(j, SelectFails)
  {
  }

  lemma NamingOne(r: Entry)
    requires r.kind == REUSE && TraceIds(r.body) != []
    ensures Journal.Select(Some(REUSE), [r]) == [r] && Naming([r])
  {
    hide TraceIds;
    assert [r][..0] == [];
    assert Journal.Select(Some(REUSE), [r]) == [] + [r] == [r];
  }

  lemma NamingPair(r: Entry, e: Entry)
    requires r.kind == REUSE && TraceIds(r.body) != [] && e.kind == TRACE
    ensures Naming([r, e])
  {
    hide TraceIds;
    NamingOne(r);
    assert [r, e][..1] == [r];
    assert Journal.Select(Some(REUSE), [r, e]) == [r] + [] == [r];
  }

  /** The second call finds the trace of the first. */
  lemma SecondReads(c: Config, m: Machine, first: Work, second: Work)
    requires QueueingCalls(c, first, second)
    requires m.store == Store(State([FirstEntry(c, first)], 1, []), [first.body], [], map[])
    ensures var (n, o) := Execute(c, m, second);
            && var j := n.store.journal;
            && o.Done? && n.store.traces == [first.body, second.body]
            && j.durable == 2 && |j.list| == 3 && j.list[2].kind == REUSE
            && TraceIds(j.list[2].body) == [c.view(first.body).id] && NamingQueued(n.store)
  {
    hide WellFormed, Execute, Inherited, Fits, NextEntry, TraceIds, Naming;
    ReadsFirst(c, m, first, second);
    ReadQueues(c, m, second, Some(FirstEntry(c, first).digest));
    var j := Execute(c, m, second).0.store.journal;
    NamingOne(j.list[2]);
    assert j.list[2..] == [j.list[2]];
    assert [first.body] + [second.body] == [first.body, second.body];
  }

  lemma NothingLostInTwo(c: Config, m: Machine, a: Action, b: Action)
    requires Ready(m) && !Loses(c, m, a) && !Loses(c, Perform(c, m, a), b)
    ensures NothingLost(c, m, [a, b])
  {
    hide Perform, Loses;
    PerformTwice(c, m, a, b);
    assert [a, b][..1] == [a] && [a][..0] == [];
    assert NothingLost(c, m, []) && PerformAll(c, m, []) == m;
    assert NothingLost(c, m, [a]);
  }

  /** No failure is needed. After two calls whose flushes land, all that was journaled adds up to the live
      counters, and a runtime opened now would not count the reuse. */
  lemma QueuedRun(c: Config, inputs: map<string, Json>, first: Work, second: Work)
    requires QueueingCalls(c, first, second)
    ensures var m := Fresh(inputs);
            var s := PerformAll(c, m, [Try(first), Try(second)]).store;
            && Execute(c, m, first).1.Done? && Execute(c, Execute(c, m, first).0, second).1.Done?
            && NothingLost(c, m, [Try(first), Try(second)]) && Counted(s) && Replayed(s.journal).reuse != s.reuse
  {
    hide Execute, Fits, WellFormed, NamingQueued, Counted, TraceIds;
    var m0 := Fresh(inputs);
    FirstLands(c, inputs, first);
    var m1 := Execute(c, m0, first).0;
    SecondReads(c, m1, first, second);
    DoneLosesNothing(c, m0, first);
    DoneLosesNothing(c, m1, second);
    PerformTwice(c, m0, Try(first), Try(second));
    NothingLostInTwo(c, m0, Try(first), Try(second));
    hide PerformAll, NothingLost, Loses, FirstEntry;
    FreshCounted(inputs);
    CountersOverRun(c, m0, [Try(first), Try(second)]);
    CountersAgreeExactly(c, m0, [Try(first), Try(second)]);
  }

  /** A call whose flush fails then makes the loss lasting: the journal never adds up to the live counters. */
  lemma LosingRun(c: Config, inputs: map<string, Json>, first: Work, second: Work, third: Work)
    requires QueueingCalls(c, first, second) && FailingCall(c, first, second, third)
    ensures !Counted(PerformAll(c, Fresh(inputs), [Try(first), Try(second), Try(third)]).store)
  {
    hide WellFormed, Execute, Counted, Loses, NextEntry, TraceIds, NamingQueued;
    var m0 := Fresh(inputs);
    var all := [Try(first), Try(second), Try(third)];
    FirstLands(c, inputs, first);
    SecondReads(c, Execute(c, m0, first).0, first, second);
    PerformTwice(c, m0, Try(first), Try(second));
    assert all[..2] == [Try(first), Try(second)];
    hide PerformAll;
    ThirdLoses(c, PerformAll(c, m0, all[..2]), third);
    assert !NothingLost(c, m0, all);
    FreshCounted(inputs);
    CountersOverRun(c, m0, all);
    var s := PerformAll(c, m0, all).store;
    if Counted(s) { CountedAtLeast(s); }
  }

  lemma FreshCounted(inputs: map<string, Json>)
    ensures Counted(Fresh(inputs).store)
  {
  }
}
