/** How a program's run, its handlers and its retries are put together (src/interpreter.js:321-388). */
module ProgramLaws {
  import opened CanonicalJson
  import opened Execution
  import opened ExecutionProofs
  import opened Journal
  import opened Options
  import opened TraceStore

  /* ---------- programs ---------- */

  /** Running a program in two parts: the second part runs where the first leaves off, and only if the first
      finished. */
  lemma {:induction false} ProgramInParts(c: Config, m: Machine, a: seq<Statement>, b: seq<Statement>)
    requires Ready(m)
    ensures var (n, finish) := RunProgram(c, m, a);
            RunProgram(c, m, a + b) == if finish.Finished? then RunProgram(c, n, b) else (n, finish)
    decreases |a|
  {
    hide RunStatement;
    if a == [] {
      assert a + b == b;
    } else {
      var (n, finish) := RunStatement(c, m, a[0]);
      assert (a + b)[1..] == a[1..] + b;
      if finish.Finished? { ProgramInParts(c, n, a[1..], b); }
    }
  }

  lemma OneStatement(c: Config, m: Machine, s: Statement)
    requires Ready(m)
    ensures RunProgram(c, m, [s]) == RunStatement(c, m, s)
  {
    hide RunStatement;
  }

  /** The entry of a failure is journaled with nothing else changed. */
  ghost predicate Recorded(c: Config, m: Machine, n: Machine, r: Report)
    requires Ready(m) && Ready(n)
  {
    && n.env == m.env && n.store.traces == m.store.traces && n.store.reuse == m.store.reuse
    && Bodies(FAILURE, DurablePart(n)) == Bodies(FAILURE, m.store.journal.list) + [r.body]
  }

  /** A failure record that is written and whose flush lands is durable after every failure journaled before. */
  lemma ReportRecorded(c: Config, m: Machine, r: Report)
    requires Settled(c, m) && !AppendFails(c, r.writeFails)
    requires FlushLands(AfterAppend(c, m.store, FAILURE, r.body).journal, r.reply)
    ensures Ready(m) && Recorded(c, m, AfterReport(c, m, r), r)
  {
    hide Sound, NextEntry, Bodies, FlushLands;
    SettledReady(c, m);
    var list := m.store.journal.list;
    var e := NextEntry(c.sha256, list, FAILURE, r.body);
    EntryFields(c.sha256, list, FAILURE, r.body);
    SelectSnoc(FAILURE, list, e);
    assert (list + [e])[..|list + [e]|] == list + [e];
    assert m.store.traces + [] == m.store.traces;
  }

  /** How each statement ends: it succeeds; its reuse event or its failure record cannot be written; or it fails,
      and then its handlers, if it has any, decide. */
  lemma StatementEnds(c: Config, m: Machine, s: Statement)
    requires Ready(m)
    ensures var (n, finish) := RunStatement(c, m, s);
            var (k, o) := Execute(c, m, s.work);
            var succeeds, lost := o.Done? || o.Idempotent?, o.Interrupted? || AppendFails(c, s.report.writeFails);
            && (succeeds ==> (n, finish) == (k, Finished))
            && (!succeeds && lost ==> (n, finish) == (k, Threw))
            && (!succeeds && !lost && s.onFail.None? ==> (n, finish) == (AfterReport(c, k, s.report), Halted))
            && (!succeeds && !lost && s.onFail.Some? ==>
                  var (after, handled) := HandleFailure(c, AfterReport(c, k, s.report), s.onFail.value);
                  (n, finish) == (after, if handled.Stopped? then Threw else Finished))
  {
    hide Execute, AfterReport, HandleFailure;
  }

  /** A statement that fails with no handler: its failure is recorded, the program halts, and nothing after it
      runs. */
  lemma UnhandledFailureHalts(c: Config, m: Machine, a: seq<Statement>, s: Statement, b: seq<Statement>)
    requires Ready(m) && RunProgram(c, m, a).1.Finished?
    requires var o := Execute(c, RunProgram(c, m, a).0, s.work).1; !o.Done? && !o.Idempotent? && !o.Interrupted?
    requires !AppendFails(c, s.report.writeFails) && s.onFail.None?
    ensures var n := Execute(c, RunProgram(c, m, a).0, s.work).0;
            RunProgram(c, m, a + [s] + b) == (AfterReport(c, n, s.report), Halted)
  {
    hide Execute, AfterReport, RunProgram, RunStatement, HandleFailure;
    ProgramInParts(c, m, a, [s]);
    OneStatement(c, RunProgram(c, m, a).0, s);
    StatementEnds(c, RunProgram(c, m, a).0, s);
    ProgramInParts(c, m, a + [s], b);
  }

  /** What a statement read is journaled last, under its own trace's id. */
  lemma ReadingIsRecorded(c: Config, m: Machine, w: Work)
    requires Ready(m) && Execute(c, m, w).1.Done? && Inherited(c, m, w) != []
    ensures var list := Execute(c, m, w).0.store.journal.list;
            && list != []
            && var e := list[|list| - 1];
               && e.kind == REUSE && TraceIds(e.body) == Inherited(c, m, w)
               && TraceStore.FieldOf(e.body, "by") == Some(Str(c.view(w.body).id))
               && TraceStore.FieldOf(e.body, "at") == Some(Str(w.at))
  {
    hide AfterWrite, AfterFlush, FlushLands, Inherited, Answer, NextEntry, TraceIds, TraceStore.FieldOf,
         ReuseBody, Tally;
    var ids, reader := Inherited(c, m, w), c.view(w.body).id;
    var written := AfterWrite(c, m.store, w.body);
    var list := AfterFlush(written, FlushLands(written.journal, w.reply)).journal.list;
    ReuseReadsBack(ids, reader, w.at);
    ReuseNamesReader(ids, reader, w.at);
    EntryFields(c.sha256, list, REUSE, ReuseBody(ids, reader, w.at));
    assert Execute(c, m, w).0.store.journal.list
        == list + [NextEntry(c.sha256, list, REUSE, ReuseBody(ids, reader, w.at))];
  }

  /* ---------- handlers ---------- */

  /** Handlers in two parts: the second part is tried where the first leaves off, and only if the first neither
      stopped the program nor recovered. */
  lemma {:induction false} HandlersInParts(c: Config, m: Machine, a: seq<Handler>, b: seq<Handler>)
    requires Ready(m)
    ensures var (n, handled) := HandleFailure(c, m, a);
            HandleFailure(c, m, a + b) == if handled.Carried? then HandleFailure(c, n, b) else (n, handled)
    decreases |a|
  {
    hide RetryUntil;
    if a == [] {
      assert a + b == b;
    } else {
      assert (a + b)[1..] == a[1..] + b;
      match a[0] {
        case Halt =>
        case Custom => HandlersInParts(c, m, a[1..], b);
        case Retry(tries) =>
          var (n, recovered) := RetryUntil(c, m, tries);
          if !recovered { HandlersInParts(c, n, a[1..], b); }
      }
    }
  }

  /** Halt throws where it stands, a custom handler carries on, and a retry recovers with its first success. */
  lemma OneHandler(c: Config, m: Machine, tries: seq<Work>)
    requires Ready(m)
    ensures HandleFailure(c, m, [Halt]) == (m, Stopped) && HandleFailure(c, m, [Custom]) == (m, Carried)
    ensures var (n, recovered) := RetryUntil(c, m, tries);
            HandleFailure(c, m, [Retry(tries)]) == (n, if recovered then Recovered else Carried)
  {
    hide RetryUntil;
    assert [Custom][1..] == [] && [Retry(tries)][1..] == [];
  }

  /** Retries in two parts: the second part is tried only if the first did not succeed. */
  lemma {:induction false} RetriesInParts(c: Config, m: Machine, a: seq<Work>, b: seq<Work>)
    requires Ready(m)
    ensures var (n, recovered) := RetryUntil(c, m, a);
            RetryUntil(c, m, a + b) == if recovered then (n, true) else RetryUntil(c, n, b)
    decreases |a|
  {
    hide Execute;
    if a == [] {
      assert a + b == b;
    } else {
      assert (a + b)[1..] == a[1..] + b;
      var w := a[0].(force := true);
      if !Succeeds(Execute(c, m, w).1) { RetriesInParts(c, Execute(c, m, w).0, a[1..], b); }
    }
  }

  /** A retry is a forced execution: no earlier trace answers for it, and it succeeds exactly when it is done. */
  lemma OneRetry(c: Config, m: Machine, w: Work)
    requires Ready(m)
    ensures var (n, o) := Execute(c, m, w.(force := true));
            RetryUntil(c, m, [w]) == (n, o.Done?) && !o.Idempotent?
  {
    hide AfterWrite, AfterFlush, AfterReuse, FlushLands, Inherited;
    assert [w][1..] == [];
  }
}
