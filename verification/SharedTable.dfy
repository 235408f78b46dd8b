/** Any number of write-behind journals sharing one append-only table (src/store.js:205-305). */
module SharedTable {
  /* A writer is a sequential process: it does not append while its own flush is awaiting. Everything
     else interleaves freely. The INSERT is guarded by the primary key alone; the head check may be
     skipped, a failed INSERT may be reported late, and rows may land under a reported failure. */

  import opened CanonicalJson
  import opened Journal
  import opened Options

  /** The table, keyed by its primary key. */
  type Rows = map<nat, Entry>

  ghost predicate Taken(batch: seq<Entry>, k: int) {
    exists i :: 0 <= i < |batch| && batch[i].seqno == k
  }

  /** `seq INTEGER PRIMARY KEY`: no row has a sequence number of the batch, nor does the batch twice. */
  ghost predicate KeysFree(rows: Rows, batch: seq<Entry>) {
    && (forall i :: 0 <= i < |batch| ==> batch[i].seqno >= 0 && batch[i].seqno !in rows)
    && (forall i, j :: 0 <= i < j < |batch| ==> batch[i].seqno != batch[j].seqno)
  }

  ghost predicate Numbered(batch: seq<Entry>) {
    forall i :: 0 <= i < |batch| ==> batch[i].seqno >= 0
  }

  function Inserted(rows: Rows, batch: seq<Entry>): Rows
    requires Numbered(batch)
  {
    if batch == [] then rows
    else Inserted(rows, batch[..|batch| - 1])[batch[|batch| - 1].seqno := batch[|batch| - 1]]
  }

  lemma {:induction false} InsertedKeys(rows: Rows, batch: seq<Entry>, k: nat)
    requires Numbered(batch)
    ensures k in Inserted(rows, batch) <==> k in rows || Taken(batch, k)
  {
    if batch != [] {
      var m := |batch| - 1;
      InsertedKeys(rows, batch[..m], k);
      if Taken(batch, k) && batch[m].seqno != k {
        var i :| 0 <= i < |batch| && batch[i].seqno == k;
        assert batch[..m][i].seqno == k;
      }
      if Taken(batch[..m], k) {
        var i :| 0 <= i < m && batch[..m][i].seqno == k;
        assert batch[i].seqno == k;
      }
    }
  }

  lemma KeysFreeSnoc(rows: Rows, batch: seq<Entry>, i: nat)
    requires i < |batch| && Numbered(batch) && KeysFree(rows, batch[..i])
    ensures Inserted(rows, batch[..i + 1]) == Inserted(rows, batch[..i])[batch[i].seqno := batch[i]]
    ensures KeysFree(rows, batch[..i + 1]) <==> batch[i].seqno !in Inserted(rows, batch[..i])
  {
    assert batch[..i + 1][..i] == batch[..i];
    var e := batch[i];
    InsertedKeys(rows, batch[..i], e.seqno);
    assert Taken(batch[..i], e.seqno) <==> exists k :: 0 <= k < i && batch[k].seqno == e.seqno by {
      if k :| 0 <= k < i && batch[k].seqno == e.seqno { assert batch[..i][k].seqno == e.seqno; }
    }
  }

  class Table {
    var rows: Rows

    constructor ()
      ensures rows == map[]
    {
      rows := map[];
    }

    /** One multi-row INSERT: all rows or none. */
    method Insert(batch: seq<Entry>) returns (landed: bool)
      requires Numbered(batch)
      modifies this
      ensures landed <==> KeysFree(old(rows), batch)
      ensures rows == if landed then Inserted(old(rows), batch) else old(rows)
    {
      var staged := rows;
      var i := 0;
      while i < |batch|
        invariant 0 <= i <= |batch| && rows == old(rows)
        invariant KeysFree(rows, batch[..i]) && staged == Inserted(rows, batch[..i])
      {
        KeysFreeSnoc(rows, batch, i);
        if batch[i].seqno in staged {
          assert !KeysFree(rows, batch) by { KeysFreePrefix(rows, batch, i + 1); }
          return false;
        }
        staged := staged[batch[i].seqno := batch[i]];
        i := i + 1;
      }
      assert batch[..i] == batch;
      rows := staged;
      return true;
    }
  }

  lemma KeysFreePrefix(rows: Rows, batch: seq<Entry>, n: nat)
    requires n <= |batch|
    ensures KeysFree(rows, batch) ==> KeysFree(rows, batch[..n])
  {
    assert forall i :: 0 <= i < n ==> batch[..n][i] == batch[i] && batch[..n][..i] == batch[..i];
  }

  /* ---------- the system ---------- */

  datatype Phase = Idle | Inserting

  datatype Writer = Writer(journal: State, phase: Phase)

  datatype System = System(rows: Rows, writers: seq<Writer>)

  /** SELECT digest ... ORDER BY seq DESC LIMIT 1. */
  ghost predicate IsHead(rows: Rows, digest: string) {
    if rows == map[] then digest == GENESIS
    else exists k :: k in rows && (forall m :: m in rows ==> m <= k) && rows[k].digest == digest
  }

  /** SELECT * ... ORDER BY seq. */
  ghost predicate IsOrdered(rows: Rows, list: seq<Entry>) {
    && (forall k :: k in rows ==> Taken(list, k))
    && (forall i :: 0 <= i < |list| ==> list[i].seqno in rows && rows[list[i].seqno] == list[i])
    && (forall i, j :: 0 <= i < j < |list| ==> list[i].seqno < list[j].seqno)
  }

  datatype Action =
    | Replay(list: seq<Entry>)
    | Append(kind: string, body: Json)
    | Select(digest: string)
    | SkipSelect
    | SelectFails
    | InsertLands
    | InsertLandsUnreported
    | InsertFails

  ghost predicate Enabled(h: Hash, s: System, w: nat, a: Action) {
    match a
    case Replay(list) => w == |s.writers| && IsOrdered(s.rows, list) && ChainValid(h, list)
    case Append(kind, body) => w < |s.writers| && s.writers[w].phase.Idle? && WellFormed(body)
    case Select(digest) => Flushing(s, w, Idle) && IsHead(s.rows, digest)
    case SkipSelect => Flushing(s, w, Idle)
    case SelectFails => Flushing(s, w, Idle)
    case InsertLands => Flushing(s, w, Inserting) && KeysFree(s.rows, s.writers[w].journal.pending)
    case InsertLandsUnreported => Flushing(s, w, Inserting) && KeysFree(s.rows, s.writers[w].journal.pending)
    case InsertFails => Flushing(s, w, Inserting)
  }

  ghost predicate Flushing(s: System, w: nat, phase: Phase) {
    && w < |s.writers| && s.writers[w].phase == phase
    && s.writers[w].journal.pending != []
    && s.writers[w].journal.durable <= |s.writers[w].journal.list|
  }

  /** The writer after its own step. */
  ghost function WriterAfter(h: Hash, s: System, w: nat, a: Action): Writer
    requires Enabled(h, s, w, a)
  {
    if a.Replay? then Writer(State(a.list, |a.list|, []), Idle) else
    var j := s.writers[w].journal;
    match a
    case Append(kind, body) => Writer(Appended(h, WriteBehind, j, kind, body), Idle)
    case Select(digest) => if digest == j.pending[0].prev then Writer(j, Inserting) else Writer(RolledBack(j), Idle)
    case SkipSelect => Writer(j, Inserting)
    case InsertLands => Writer(Flushed(j), Idle)
    case SelectFails => Writer(RolledBack(j), Idle)
    case InsertLandsUnreported => Writer(RolledBack(j), Idle)
    case InsertFails => Writer(RolledBack(j), Idle)
    case Replay(_) => s.writers[w]
  }

  ghost predicate Lands(a: Action) {
    a.InsertLands? || a.InsertLandsUnreported?
  }

  ghost function After(h: Hash, s: System, w: nat, a: Action): System
    requires Enabled(h, s, w, a)
  {
    var writer := WriterAfter(h, s, w, a);
    System(
      if Lands(a) then Inserted(s.rows, s.writers[w].journal.pending) else s.rows,
      if w == |s.writers| then s.writers + [writer] else s.writers[w := writer])
  }

  ghost predicate Next(h: Hash, s: System, t: System) {
    exists w: nat, a: Action :: Enabled(h, s, w, a) && t == After(h, s, w, a)
  }

  ghost predicate IsRun(h: Hash, run: seq<System>) {
    && run != [] && run[0] == System(map[], [])
    && forall i :: 0 <= i < |run| - 1 ==> Next(h, run[i], run[i + 1])
  }

  /* ---------- safety ---------- */

  /** The rows are this list, each under its index. */
  ghost predicate Holds(rows: Rows, list: seq<Entry>) {
    && (forall k: nat :: k in rows <==> k < |list|)
    && (forall k :: 0 <= k < |list| ==> rows[k] == list[k])
  }

  ghost predicate Contiguous(rows: Rows) {
    exists list :: Holds(rows, list)
  }

  /** The table as a chain, oldest row first. */
  ghost function Chain(rows: Rows): (list: seq<Entry>)
    requires Contiguous(rows)
    ensures Holds(rows, list)
  {
    var list :| Holds(rows, list);
    list
  }

  lemma ChainUnique(rows: Rows, list: seq<Entry>)
    requires Holds(rows, list)
    ensures Contiguous(rows) && Chain(rows) == list
  {
    var c := Chain(rows);
    assert |c| in rows <==> |c| < |list|;
    assert |list| in rows <==> |list| < |c|;
  }

  /** The durable part of a journal object is where the table starts. */
  ghost predicate WriterSafe(h: Hash, rows: Rows, w: Writer)
    requires Contiguous(rows)
  {
    && Consistent(h, w.journal)
    && w.journal.list[..w.journal.durable] <= Chain(rows)
  }

  ghost predicate Safe(h: Hash, s: System) {
    && Contiguous(s.rows)
    && Sound(h, Chain(s.rows))
    && forall w :: 0 <= w < |s.writers| ==> WriterSafe(h, s.rows, s.writers[w])
  }

  /** The batch of a writer whose keys are free starts exactly where the table ends, so landing it
      turns the table into the writer's own chain. */
  lemma LandingExtends(h: Hash, rows: Rows, j: State)
    requires Contiguous(rows) && Consistent(h, j) && j.list[..j.durable] <= Chain(rows)
    requires j.pending != [] && KeysFree(rows, j.pending)
    ensures j.durable == |Chain(rows)| && j.list == Chain(rows) + j.pending
    ensures Contiguous(Inserted(rows, j.pending)) && Chain(Inserted(rows, j.pending)) == j.list
  {
    BatchStartsAtEnd(h, rows, j);
    hide Sound, KeysFree, Inserted;
    InsertedAfter(rows, Chain(rows), j.pending);
    ChainUnique(Inserted(rows, j.pending), j.list);
  }

  lemma BatchStartsAtEnd(h: Hash, rows: Rows, j: State)
    requires Contiguous(rows) && Consistent(h, j) && j.list[..j.durable] <= Chain(rows)
    requires j.pending != [] && KeysFree(rows, j.pending)
    ensures j.durable == |Chain(rows)| && j.list == Chain(rows) + j.pending
    ensures forall i :: 0 <= i < |j.pending| ==> j.pending[i].seqno == |Chain(rows)| + i
  {
    hide ChainValid, BodiesWellFormed;
    assert j.pending[0] == j.list[j.durable];
    assert j.pending[0].seqno == j.durable;
    assert j.durable !in rows;
    assert j.list == j.list[..j.durable] + j.pending;
  }

  lemma {:induction false} InsertedAfter(rows: Rows, list: seq<Entry>, batch: seq<Entry>)
    requires Holds(rows, list)
    requires forall i :: 0 <= i < |batch| ==> batch[i].seqno == |list| + i
    ensures Holds(Inserted(rows, batch), list + batch)
    decreases |batch|
  {
    if batch == [] {
      assert list + batch == list;
    } else {
      var m := |batch| - 1;
      InsertedAfter(rows, list, batch[..m]);
      assert list + batch == (list + batch[..m]) + [batch[m]];
    }
  }

  lemma ReplayIsChain(rows: Rows, list: seq<Entry>)
    requires Contiguous(rows) && IsOrdered(rows, list)
    ensures list == Chain(rows)
  {
    var c := Chain(rows);
    OrderedUpTo(rows, c, list, |list|);
    assert |list| in rows <==> |list| < |c|;
    assert |list| in rows ==> Taken(list, |list|);
    assert !Taken(list, |list|);
    assert forall i :: 0 <= i < |list| ==> list[i].seqno == i && list[i] == c[i];
  }

  lemma {:induction false} OrderedUpTo(rows: Rows, c: seq<Entry>, list: seq<Entry>, n: nat)
    requires Holds(rows, c) && IsOrdered(rows, list) && n <= |list|
    ensures n <= |c| && forall i :: 0 <= i < n ==> list[i].seqno == i
  {
    if n > 0 {
      var i := n - 1;
      OrderedUpTo(rows, c, list, i);
      assert i > 0 ==> list[i - 1].seqno < list[i].seqno;
      assert list[i].seqno in rows;
      assert i < |c| && i in rows;
      assert Taken(list, i);
      var m :| 0 <= m < |list| && list[m].seqno == i;
      assert m == i;
    }
  }

  /** Any step of any writer keeps the table one contiguous valid chain and every durable prefix a
      prefix of it. A batch lands whole or not at all, and rows are never changed. */
  lemma StepSafe(h: Hash, s: System, t: System)
    requires Safe(h, s) && Next(h, s, t)
    ensures Safe(h, t)
    ensures Chain(s.rows) <= Chain(t.rows)
    ensures t.rows == s.rows || exists w :: 0 <= w < |s.writers| && LandedWhole(s, t, s.writers[w])
  {
    hide ChainValid, SeqIsIndex, BodiesWellFormed, IsOrdered, KeysFree, IsHead, Inserted, Appended, RolledBack,
         Flushed, WellFormed;
    var w: nat, a: Action :| Enabled(h, s, w, a) && t == After(h, s, w, a);
    if Lands(a) {
      assert WriterSafe(h, s.rows, s.writers[w]);
      LandingExtends(h, s.rows, s.writers[w].journal);
      assert LandedWhole(s, t, s.writers[w]);
    }
    assert Sound(h, Chain(t.rows)) by {
      if Lands(a) { assert WriterSafe(h, s.rows, s.writers[w]); }
    }
    if a.Replay? { ReplayIsChain(s.rows, a.list); }
    StepWriterSafe(h, s, t, w, a);
    forall v | 0 <= v < |t.writers| ensures WriterSafe(h, t.rows, t.writers[v]) {
      if v != w { assert WriterSafe(h, s.rows, s.writers[v]); }
    }
  }

  ghost predicate LandedWhole(s: System, t: System, w: Writer) {
    Contiguous(s.rows) && Contiguous(t.rows) && Chain(t.rows) == Chain(s.rows) + w.journal.pending
  }

  lemma StepWriterSafe(h: Hash, s: System, t: System, w: nat, a: Action)
    requires Safe(h, s) && Enabled(h, s, w, a) && t == After(h, s, w, a)
    requires Contiguous(t.rows) && Sound(h, Chain(t.rows)) && Chain(s.rows) <= Chain(t.rows)
    requires Lands(a) ==> Chain(t.rows) == s.writers[w].journal.list
    requires a.Replay? ==> a.list == Chain(s.rows)
    ensures WriterSafe(h, t.rows, t.writers[w])
  {
    hide Sound, Consistent, IsOrdered, KeysFree, IsHead, Chain, Inserted, Appended, RolledBack, Flushed;
    if a.Replay? {
      ReplayConsistent(h, a.list);
    } else {
      var j := s.writers[w].journal;
      assert WriterSafe(h, s.rows, s.writers[w]);
      OperationsMoveDurable(h, j, if a.Append? then a.kind else "", if a.Append? then a.body else Null);
    }
  }

  lemma ReplayConsistent(h: Hash, list: seq<Entry>)
    requires Sound(h, list)
    ensures Consistent(h, State(list, |list|, [])) && list[..|list|] == list
  {
  }

  /** What each operation of a write-behind journal makes of its durable part. */
  lemma OperationsMoveDurable(h: Hash, j: State, kind: string, body: Json)
    requires Consistent(h, j) && WellFormed(body)
    ensures j.durable <= |j.list|
    ensures var t := Appended(h, WriteBehind, j, kind, body);
            Consistent(h, t) && t.durable <= |t.list| && t.list[..t.durable] == j.list[..j.durable]
    ensures var t := RolledBack(j);
            Consistent(h, t) && t.durable <= |t.list| && t.list[..t.durable] == j.list[..j.durable]
    ensures var t := Flushed(j);
            Consistent(h, t) && t.durable <= |t.list| && t.list[..t.durable] == j.list
  {
    OperationsKeepConsistent(h, WriteBehind, j, kind, body);
  }

  /** In every run, every state is safe and every earlier table is where every later one starts. */
  lemma {:induction false} RunSafe(h: Hash, run: seq<System>, i: nat, j: nat)
    requires IsRun(h, run) && i <= j < |run|
    ensures Safe(h, run[i]) && Safe(h, run[j]) && Chain(run[i].rows) <= Chain(run[j].rows)
    decreases i + j
  {
    if i < j {
      RunSafe(h, run, i, j - 1);
      assert Next(h, run[j - 1], run[j - 1 + 1]);
      StepSafe(h, run[j - 1], run[j]);
    } else if i > 0 {
      RunSafe(h, run, i - 1, i - 1);
      assert Next(h, run[i - 1], run[i - 1 + 1]);
      StepSafe(h, run[i - 1], run[i]);
    } else {
      ChainUnique(map[], []);
    }
  }

  /* ---------- who can land ---------- */

  /** The primary key admits a batch exactly when no other writer has landed since its writer last
      agreed with the table; the head check then passes too. */
  lemma LandsExactly(h: Hash, s: System, w: nat, digest: string)
    requires Safe(h, s) && w < |s.writers| && s.writers[w].journal.pending != [] && IsHead(s.rows, digest)
    ensures KeysFree(s.rows, s.writers[w].journal.pending) <==> s.writers[w].journal.durable == |Chain(s.rows)|
    ensures KeysFree(s.rows, s.writers[w].journal.pending) ==> digest == s.writers[w].journal.pending[0].prev
  {
    hide Sound, Consistent, KeysFree, IsHead;
    var j := s.writers[w].journal;
    assert WriterSafe(h, s.rows, s.writers[w]);
    if KeysFree(s.rows, j.pending) { BatchStartsAtEnd(h, s.rows, j); }
    if j.durable == |Chain(s.rows)| { UpToDate(h, s.rows, j, digest); }
  }

  /** A writer that agrees with the table passes both the key and the head check. */
  lemma UpToDate(h: Hash, rows: Rows, j: State, digest: string)
    requires Contiguous(rows) && Consistent(h, j) && j.pending != [] && IsHead(rows, digest)
    requires j.list[..j.durable] <= Chain(rows) && j.durable == |Chain(rows)|
    ensures KeysFree(rows, j.pending) && digest == j.pending[0].prev
  {
    hide BodiesWellFormed, IsHead;
    assert forall i :: 0 <= i < |j.pending| ==> j.pending[i] == j.list[j.durable + i];
    assert LinkHolds(h, j.list, j.durable);
    assert j.list[..j.durable] == Chain(rows);
    HeadIsLast(rows, digest);
  }

  lemma HeadIsLast(rows: Rows, digest: string)
    requires Contiguous(rows) && IsHead(rows, digest)
    ensures digest == HeadOf(Chain(rows))
  {
    var c := Chain(rows);
    if rows == map[] {
      assert c == [] by { assert 0 in rows <==> 0 < |c|; }
    } else {
      var k :| k in rows && (forall m :: m in rows ==> m <= k) && rows[k].digest == digest;
      assert |c| - 1 in rows;
      assert k == |c| - 1;
    }
  }

  /** A flush as the journal's owner sees it is these steps: it lands exactly when the SELECT lets the INSERT go
      on and the INSERT is reported as landed, and leaves the journal as they do. */
  lemma FlushIsSteps(h: Hash, s: System, w: nat, head: Option<string>, digest: string, inserted: bool)
    requires Flushing(s, w, Idle) && IsHead(s.rows, digest)
    requires digest == if head.Some? then head.value else GENESIS
    ensures var j, t := s.writers[w].journal, After(h, s, w, Select(digest));
            var lands := FlushLands(j, Selected(head, inserted));
            && (lands <==> t.writers[w].phase.Inserting? && inserted)
            && (t.writers[w].phase.Idle? ==> t.writers[w].journal == RolledBack(j))
            && (t.writers[w].phase.Inserting? ==>
                  && t.writers[w].journal == j
                  && After(h, t, w, InsertFails).writers[w].journal == RolledBack(j)
                  && (KeysFree(t.rows, j.pending) ==>
                        Numbered(j.pending) && After(h, t, w, InsertLands).writers[w].journal == Flushed(j)))
    ensures !FlushLands(s.writers[w].journal, Reply.SelectFails)
            && After(h, s, w, Action.SelectFails).writers[w].journal == RolledBack(s.writers[w].journal)
  {
    hide Inserted, IsHead;
  }

  /** The table has outgrown the writer. */
  ghost predicate Stale(s: System, w: nat) {
    w < |s.writers| && Contiguous(s.rows) && s.writers[w].journal.durable < |Chain(s.rows)|
  }

  /** A writer the table has outgrown never lands again: its rollback returns to its own durable
      length, not to the table's head, so only a fresh replay gets past the primary key. */
  lemma {:induction false} StaleForever(h: Hash, run: seq<System>, i: nat, j: nat, w: nat)
    requires IsRun(h, run) && i <= j < |run| && Stale(run[i], w)
    ensures Stale(run[j], w) && run[j].writers[w].journal.durable == run[i].writers[w].journal.durable
    decreases j
  {
    if i < j {
      StaleForever(h, run, i, j - 1, w);
      assert Next(h, run[j - 1], run[j - 1 + 1]);
      RunSafe(h, run, j - 1, j);
      hide Safe, Next;
      StaleStep(h, run[j - 1], run[j], w);
    }
  }

  lemma StaleStep(h: Hash, s: System, t: System, w: nat)
    requires Safe(h, s) && Safe(h, t) && Next(h, s, t) && Chain(s.rows) <= Chain(t.rows) && Stale(s, w)
    ensures Stale(t, w) && t.writers[w].journal.durable == s.writers[w].journal.durable
  {
    hide Sound, Consistent, KeysFree, IsOrdered, IsHead, Chain, Inserted, WellFormed;
    var v: nat, a: Action :| Enabled(h, s, v, a) && t == After(h, s, v, a);
    if v == w && Lands(a) {
      assert WriterSafe(h, s.rows, s.writers[w]);
      LandingExtends(h, s.rows, s.writers[w].journal);
    }
  }

  const EMPTY: State := State([], 0, [])

  function Waiting(e: Entry): Writer {
    Writer(State([e], 0, [e]), Idle)
  }

  /** Two writers open the empty table and each append one entry, and the first lands. */
  function Race(e: Entry): seq<System> {
    var idle := Writer(EMPTY, Idle);
    [System(map[], []), System(map[], [idle]), System(map[], [idle, idle]), System(map[], [Waiting(e), idle]),
     System(map[], [Waiting(e), Waiting(e)]), System(map[], [Writer(Waiting(e).journal, Inserting), Waiting(e)]),
     System(map[0 := e], [Writer(State([e], 1, []), Idle), Waiting(e)])]
  }

  lemma Steps(h: Hash, s: System, t: System, w: nat, a: Action)
    requires Enabled(h, s, w, a) && t == After(h, s, w, a)
    ensures Next(h, s, t)
  {
  }

  lemma BothOpen(h: Hash, e: Entry)
    ensures Next(h, Race(e)[0], Race(e)[1]) && Next(h, Race(e)[1], Race(e)[2])
  {
    hide Next;
    Steps(h, Race(e)[0], Race(e)[1], 0, Replay([]));
    Steps(h, Race(e)[1], Race(e)[2], 1, Replay([]));
  }

  lemma BothAppend(h: Hash, kind: string, body: Json)
    requires WellFormed(body)
    ensures var e := NextEntry(h, [], kind, body);
            Next(h, Race(e)[2], Race(e)[3]) && Next(h, Race(e)[3], Race(e)[4])
  {
    hide Next, NextEntry, WellFormed;
    var e := NextEntry(h, [], kind, body);
    assert [] + [e] == [e];
    Steps(h, Race(e)[2], Race(e)[3], 0, Append(kind, body));
    Steps(h, Race(e)[3], Race(e)[4], 1, Append(kind, body));
  }

  lemma FirstLands(h: Hash, e: Entry)
    requires e.seqno == 0 && e.prev == GENESIS
    ensures Next(h, Race(e)[4], Race(e)[5]) && Next(h, Race(e)[5], Race(e)[6])
  {
    hide Next;
    Steps(h, Race(e)[4], Race(e)[5], 0, Select(GENESIS));
    var rows: Rows := map[];
    assert [e][..0] == [] && Inserted(rows, []) == rows;
    assert Inserted(rows, [e]) == map[0 := e];
    Steps(h, Race(e)[5], Race(e)[6], 0, InsertLands);
  }

  lemma SecondStale(e: Entry)
    ensures Stale(Race(e)[6], 1)
  {
    ChainUnique(map[0 := e], [e]);
  }

  /** It happens without any failure. */
  lemma StaleHappens(h: Hash, kind: string, body: Json)
    requires WellFormed(body)
    ensures var run := Race(NextEntry(h, [], kind, body)); IsRun(h, run) && Stale(run[6], 1)
  {
    var e := NextEntry(h, [], kind, body);
    BothOpen(h, e);
    BothAppend(h, kind, body);
    FirstLands(h, e);
    SecondStale(e);
    hide Next, Stale, NextEntry;
    assert Race(e)[0] == System(map[], []) && |Race(e)| == 7;
    hide Race;
  }
}
