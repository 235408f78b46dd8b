/** The hosted audit chain (platform/api/src/lib/audit.js). */
module AuditChain {
  /* Many callers append to one table under optimistic retry, and every receipt names the chain head at the
     moment it was issued. The state machine is one tenant's chain. Rows use the journal's own digest rule.
     An INSERT that is reported as failed put nothing in the table. */

  import opened CanonicalJson
  import opened Journal
  import opened JournalProofs
  import opened Options

  const ATTEMPTS: nat := 3

  function EntryAt(h: Hash, seqno: nat, prev: string, kind: string, body: Json): Entry {
    Entry(seqno, kind, body, prev, h(ChainText(prev, kind, body)))
  }

  /* ---------- the state machine ---------- */

  /** Where one appendAudit call is. */
  datatype Call =
    | Trying(attempt: nat)
    | HeadRead(attempt: nat, seqno: nat, prev: string)
    | Landed(seqno: nat)
    | Threw

  /** The sequence number of the head, -1 for an empty chain, and its hash. */
  datatype AuditHead = AuditHead(seqno: int, eventHash: string)

  /** `owners` records which call landed each row; the source has no such column. */
  datatype Audit = Audit(chain: seq<Entry>, owners: seq<nat>, calls: seq<Call>, receipts: seq<AuditHead>)

  function HeadNow(chain: seq<Entry>): AuditHead {
    AuditHead(|chain| - 1, HeadOf(chain))
  }

  datatype Action =
    | Arrive
    | ReadHead(call: nat)
    | TryInsert(call: nat, kind: string, body: Json)
    | Break(call: nat)
    | IssueReceipt

  ghost predicate Enabled(s: Audit, a: Action) {
    match a
    case ReadHead(c) => c < |s.calls| && s.calls[c].Trying?
    case TryInsert(c, kind, body) => c < |s.calls| && s.calls[c].HeadRead? && WellFormed(body)
    case Break(c) => c < |s.calls| && (s.calls[c].Trying? || s.calls[c].HeadRead?)
    case _ => true
  }

  /** A lost race moves to the next attempt, or throws after the last. */
  function Lost(attempt: nat): Call {
    if attempt + 1 < ATTEMPTS then Trying(attempt + 1) else Threw
  }

  /** The primary key (tenant_id, seq) is free. */
  predicate SeqFree(chain: seq<Entry>, seqno: nat) {
    forall e :: e in chain ==> e.seqno != seqno
  }

  ghost function After(h: Hash, s: Audit, a: Action): Audit
    requires Enabled(s, a)
  {
    match a
    case Arrive => s.(calls := s.calls + [Trying(0)])
    case ReadHead(c) =>
      var head := HeadNow(s.chain);
      s.(calls := s.calls[c := HeadRead(s.calls[c].attempt, head.seqno + 1, head.eventHash)])
    case TryInsert(c, kind, body) =>
      var r := s.calls[c];
      if SeqFree(s.chain, r.seqno) then
        Audit(s.chain + [EntryAt(h, r.seqno, r.prev, kind, body)], s.owners + [c], s.calls[c := Landed(r.seqno)],
            s.receipts)
      else s.(calls := s.calls[c := Lost(r.attempt)])
    case Break(c) => s.(calls := s.calls[c := Threw])
    case IssueReceipt => s.(receipts := s.receipts + [HeadNow(s.chain)])
  }

  ghost predicate Next(h: Hash, s: Audit, t: Audit) {
    exists a :: Enabled(s, a) && t == After(h, s, a)
  }

  ghost predicate IsRun(h: Hash, run: seq<Audit>) {
    && run != [] && run[0] == Audit([], [], [], [])
    && forall i :: 0 <= i < |run| - 1 ==> Next(h, run[i], run[i + 1])
  }

  /* ---------- safety ---------- */

  /** What a call that is under way, or over, has in the table: exactly one row if it landed, and
      otherwise none. */
  ghost predicate CallSafe(s: Audit, c: nat)
    requires c < |s.calls| && |s.owners| == |s.chain|
  {
    match s.calls[c]
    case Landed(n) => n < |s.chain| && forall i :: 0 <= i < |s.chain| ==> (s.owners[i] == c <==> i == n)
    case HeadRead(_, n, prev) => c !in s.owners && n <= |s.chain| && prev == HeadOf(s.chain[..n])
    case _ => c !in s.owners
  }

  /** The hash a receipt names is the chain's own at that sequence number. */
  ghost predicate Anchored(chain: seq<Entry>, r: AuditHead) {
    -1 <= r.seqno < |chain| && r.eventHash == HeadOf(chain[..r.seqno + 1])
  }

  ghost predicate Safe(h: Hash, s: Audit) {
    && Sound(h, s.chain) && |s.owners| == |s.chain|
    && (forall i :: 0 <= i < |s.owners| ==> s.owners[i] < |s.calls|)
    && (forall c :: 0 <= c < |s.calls| ==> CallSafe(s, c))
    && (forall i :: 0 <= i < |s.receipts| ==> Anchored(s.chain, s.receipts[i]))
  }

  lemma FreeMeansEnd(h: Hash, chain: seq<Entry>, n: nat)
    requires Sound(h, chain) && n <= |chain|
    ensures SeqFree(chain, n) <==> n == |chain|
  {
    if n < |chain| { assert chain[n] in chain; }
  }

  lemma GrownPrefix(s: Audit, t: Audit, n: nat)
    requires s.chain <= t.chain && n <= |s.chain|
    ensures t.chain[..n] == s.chain[..n]
  {
  }

  lemma CallStaysSafe(s: Audit, t: Audit, c: nat)
    requires |s.owners| == |s.chain| && |t.owners| == |t.chain|
    requires s.chain <= t.chain && s.owners <= t.owners
    requires c < |s.calls| && c < |t.calls| && s.calls[c] == t.calls[c] && CallSafe(s, c)
    requires forall i :: |s.owners| <= i < |t.owners| ==> t.owners[i] != c
    ensures CallSafe(t, c)
  {
    if s.calls[c].HeadRead? { GrownPrefix(s, t, s.calls[c].seqno); }
  }

  /** A step appends at most one row to the chain, and it is the row of the call that took the step. */
  lemma ChainStep(h: Hash, s: Audit, a: Action, t: Audit)
    requires Safe(h, s) && Enabled(s, a) && t == After(h, s, a)
    ensures Sound(h, t.chain) && s.chain <= t.chain
    ensures |t.owners| == |t.chain| && s.owners <= t.owners
    ensures forall i :: |s.owners| <= i < |t.owners| ==> a.TryInsert? && t.owners[i] == a.call
    ensures a.TryInsert? && t.chain != s.chain ==>
              t.calls[a.call] == Landed(|s.chain|) && t.owners == s.owners + [a.call] && |t.chain| == |s.chain| + 1
    ensures a.TryInsert? && t.chain == s.chain ==> t.owners == s.owners
  {
    if a.TryInsert? {
      hide Sound;
      assert CallSafe(s, a.call);
      var r := s.calls[a.call];
      if SeqFree(s.chain, r.seqno) {
        FreeMeansEnd(h, s.chain, r.seqno);
        assert s.chain[..|s.chain|] == s.chain;
        SoundExtend(h, s.chain, a.kind, a.body);
      }
    }
  }

  /** The call that took the step has its row, or none. */
  lemma MoverSafe(h: Hash, s: Audit, a: Action, t: Audit)
    requires Safe(h, s) && Enabled(s, a) && t == After(h, s, a) && !a.Arrive? && !a.IssueReceipt?
    ensures CallSafe(t, a.call)
  {
    hide Sound, SeqFree;
    ChainStep(h, s, a, t);
    assert CallSafe(s, a.call);
    if a.ReadHead? { assert s.chain[..|s.chain|] == s.chain; }
  }

  lemma ReceiptsStaySafe(h: Hash, s: Audit, a: Action, t: Audit)
    requires Safe(h, s) && Enabled(s, a) && t == After(h, s, a)
    ensures forall i :: 0 <= i < |t.receipts| ==> Anchored(t.chain, t.receipts[i])
  {
    hide Sound, SeqFree, CallSafe;
    ChainStep(h, s, a, t);
    forall i | 0 <= i < |t.receipts| ensures Anchored(t.chain, t.receipts[i]) {
      if i < |s.receipts| {
        assert Anchored(s.chain, s.receipts[i]);
        GrownPrefix(s, t, s.receipts[i].seqno + 1);
      } else {
        assert s.chain[..|s.chain|] == s.chain;
      }
    }
  }

  /** Every step keeps the chain valid, only appends to it, and leaves each call with exactly one row
      or none. */
  lemma StepSafe(h: Hash, s: Audit, t: Audit)
    requires Safe(h, s) && Next(h, s, t)
    ensures Safe(h, t) && s.chain <= t.chain && s.receipts <= t.receipts
  {
    hide Sound, SeqFree, CallSafe;
    var a :| Enabled(s, a) && t == After(h, s, a);
    ChainStep(h, s, a, t);
    ReceiptsStaySafe(h, s, a, t);
    forall c | 0 <= c < |t.calls| ensures CallSafe(t, c) {
      if !a.Arrive? && !a.IssueReceipt? && c == a.call { MoverSafe(h, s, a, t); }
      else if c < |s.calls| { CallStaysSafe(s, t, c); }
      else { NewcomerSafe(h, s, t); }
    }
  }

  lemma NewcomerSafe(h: Hash, s: Audit, t: Audit)
    requires Safe(h, s) && t == After(h, s, Arrive)
    ensures CallSafe(t, |s.calls|)
  {
  }

  lemma EmptySafe(h: Hash)
    ensures Safe(h, Audit([], [], [], []))
  {
  }

  lemma ReceiptsAnchored(h: Hash, s: Audit)
    requires Safe(h, s)
    ensures forall k :: 0 <= k < |s.receipts| ==> Anchored(s.chain, s.receipts[k])
  {
  }

  /** In every run the chain is valid, a call has exactly one row if it returned and none if it threw
      or is still under way, and the head each receipt names stays at its sequence number. */
  lemma {:induction false} RunSafe(h: Hash, run: seq<Audit>, i: nat, j: nat)
    requires IsRun(h, run) && i <= j < |run|
    ensures Safe(h, run[i]) && Safe(h, run[j])
    ensures run[i].chain <= run[j].chain && run[i].receipts <= run[j].receipts
    ensures forall k :: 0 <= k < |run[i].receipts| ==> Anchored(run[j].chain, run[i].receipts[k])
    decreases i + j
  {
    hide Safe, Next, Anchored;
    if i < j {
      RunSafe(h, run, i, j - 1);
      assert Next(h, run[j - 1], run[j - 1 + 1]);
      StepSafe(h, run[j - 1], run[j]);
      assert forall k :: 0 <= k < |run[i].receipts| ==> run[i].receipts[k] == run[j].receipts[k];
    } else if i > 0 {
      RunSafe(h, run, i - 1, i - 1);
      assert Next(h, run[i - 1], run[i - 1 + 1]);
      StepSafe(h, run[i - 1], run[i]);
    } else {
      EmptySafe(h);
    }
    ReceiptsAnchored(h, run[j]);
  }

  /** A receipt is a checkpoint: a valid chain that reproduces its hash at its sequence number has
      the very events the chain had when it was issued, and any other chain was reconstructed. */
  lemma ReceiptIsCheckpoint(h: Hash, issued: seq<Entry>, now: seq<Entry>)
    requires DigestSized(h) && Sound(h, issued) && Sound(h, now)
    requires CollisionFree(h, ChainTexts(issued) + ChainTexts(now))
    ensures Anchored(now, HeadNow(issued)) <==> |issued| <= |now| && SameRecords(issued, now[..|issued|])
  {
    CheckpointExact(h, issued, now);
  }

  /* ---------- one call ---------- */

  datatype Event = Event(kind: string, body: Json)

  /** One attempt: the event it builds, what other callers land before its SELECT and between that and its INSERT,
      and whether an error other than a taken key cuts it short. */
  datatype Round = Round(mine: Event, before: seq<Event>, window: seq<Event>, breaks: bool)

  ghost predicate WellFormedRound(r: Round) {
    WellFormed(r.mine.body) && AllWellFormedEvents(r.before) && AllWellFormedEvents(r.window)
  }

  datatype Outcome = Inserted(row: Entry) | LostThreeTimes | Broke(attempt: nat)

  ghost predicate AllWellFormedEvents(events: seq<Event>) {
    forall e :: e in events ==> WellFormed(e.body)
  }

  function Extended(h: Hash, chain: seq<Entry>, events: seq<Event>): seq<Entry> {
    if events == [] then chain
    else
      var before := Extended(h, chain, events[..|events| - 1]);
      var last := events[|events| - 1];
      before + [EntryAt(h, |before|, HeadOf(before), last.kind, last.body)]
  }

  lemma {:induction false} ExtendedSound(h: Hash, chain: seq<Entry>, events: seq<Event>)
    requires Sound(h, chain) && AllWellFormedEvents(events)
    ensures Sound(h, Extended(h, chain, events)) && |Extended(h, chain, events)| == |chain| + |events|
    ensures chain <= Extended(h, chain, events)
  {
    if events != [] {
      var m := |events| - 1;
      ExtendedSound(h, chain, events[..m]);
      hide Sound, ChainText;
      SoundExtend(h, Extended(h, chain, events[..m]), events[m].kind, events[m].body);
    }
  }

  /** The sequence number read before a window is still free after it exactly when it was quiet. */
  lemma FreeAfter(h: Hash, chain: seq<Entry>, events: seq<Event>)
    requires Sound(h, chain) && AllWellFormedEvents(events)
    ensures SeqFree(Extended(h, chain, events), |chain|) <==> events == []
    ensures events == [] ==> Extended(h, chain, events) == chain
  {
    ExtendedSound(h, chain, events);
    var grown := Extended(h, chain, events);
    assert events != [] ==> grown[|chain|] in grown;
  }

  lemma ExtendedByOne(h: Hash, chain: seq<Entry>, e: Event)
    requires Sound(h, chain) && WellFormed(e.body)
    ensures Extended(h, chain, [e]) == chain + [EntryAt(h, |chain|, HeadOf(chain), e.kind, e.body)]
    ensures Sound(h, Extended(h, chain, [e]))
  {
    assert [e][..0] == [];
    SoundExtend(h, chain, e.kind, e.body);
  }

  class AuditTable {
    const sha256: Hash
    var rows: seq<Entry>

    constructor (sha256: Hash)
      ensures rows == [] && this.sha256 == sha256
    {
      this.sha256 := sha256;
      rows := [];
    }

    method SelectHead() returns (head: Option<Entry>)
      ensures head == if rows == [] then None else Some(rows[|rows| - 1])
    {
      head := if |rows| == 0 then None else Some(rows[|rows| - 1]);
    }

    method Insert(row: Entry) returns (ok: bool)
      requires row.seqno >= 0
      modifies this
      ensures ok <==> SeqFree(old(rows), row.seqno)
      ensures rows == if ok then old(rows) + [row] else old(rows)
    {
      var i := 0;
      while i < |rows|
        invariant 0 <= i <= |rows|
        invariant forall k :: 0 <= k < i ==> rows[k].seqno != row.seqno
      {
        if rows[i].seqno == row.seqno { assert rows[i] in rows; return false; }
        i := i + 1;
      }
      rows := rows + [row];
      return true;
    }

    method LandOthers(events: seq<Event>)
      modifies this
      ensures rows == Extended(sha256, old(rows), events)
    {
      var i := 0;
      while i < |events|
        invariant 0 <= i <= |events|
        invariant rows == Extended(sha256, old(rows), events[..i])
      {
        assert events[..i + 1][..i] == events[..i];
        rows := rows + [EntryAt(sha256, |rows|, HeadOf(rows), events[i].kind, events[i].body)];
        i := i + 1;
      }
      assert events[..i] == events;
    }

    /** One attempt: SELECT the head, others land, INSERT. It lands exactly when its window was quiet. */
    method Attempt(mine: Event, window: seq<Event>) returns (ok: bool, row: Entry)
      requires Sound(sha256, rows) && WellFormed(mine.body) && AllWellFormedEvents(window)
      modifies this
      ensures Sound(sha256, rows) && old(rows) <= rows
      ensures ok <==> window == []
      ensures rows == Extended(sha256, old(rows), if ok then [mine] else window)
      ensures ok ==> row == rows[|rows| - 1]
    {
      hide Extended, ChainText;
      var head := SelectHead();
      var seqno := if head.Some? then head.value.seqno + 1 else 0;
      var prev := if head.Some? then head.value.digest else GENESIS;
      FreeAfter(sha256, rows, window);
      ExtendedSound(sha256, rows, window);
      ExtendedByOne(sha256, rows, mine);
      LandOthers(window);
      row := EntryAt(sha256, seqno, prev, mine.kind, mine.body);
      ok := Insert(row);
    }

    /** The retry loop. The call lands in the first attempt whose window was quiet, after everything its rivals
        landed; it throws with nothing of its own in the table exactly when an attempt before that is cut short
        or all three windows were busy. */
    method AppendAudit(rounds: seq<Round>) returns (r: Outcome)
      requires Sound(sha256, rows) && |rounds| == 3
      requires forall k :: 0 <= k < 3 ==> WellFormedRound(rounds[k])
      modifies this
      ensures Sound(sha256, rows) && old(rows) <= rows
      ensures r.LostThreeTimes? <==> Busy(rounds, 3)
      ensures r.LostThreeTimes? ==> rows == AfterRounds(sha256, old(rows), rounds, 3)
      ensures r.Broke? ==> r.attempt < 3 && rounds[r.attempt].breaks && Busy(rounds, r.attempt)
                           && rows == AfterRounds(sha256, old(rows), rounds, r.attempt + 1)
      ensures r.Inserted? ==> exists k :: 0 <= k < 3 && FirstQuiet(rounds, k)
                                && rows == Extended(sha256, Before(sha256, old(rows), rounds, k), [rounds[k].mine])
                                && r.row == rows[|rows| - 1]
    {
      hide Extended;
      var attempt := 0;
      while attempt < ATTEMPTS
        invariant 0 <= attempt <= ATTEMPTS
        invariant Sound(sha256, rows) && old(rows) <= rows
        invariant Busy(rounds, attempt)
        invariant rows == AfterRounds(sha256, old(rows), rounds, attempt)
      {
        var round := rounds[attempt];
        assert WellFormedRound(round);
        ExtendedSound(sha256, rows, round.before);
        LandOthers(round.before);
        if round.breaks {
          ExtendedSound(sha256, rows, round.window);
          LandOthers(round.window);
          return Broke(attempt);
        }
        var ok, row := Attempt(round.mine, round.window);
        if ok {
          assert FirstQuiet(rounds, attempt);
          return Inserted(row);
        }
        attempt := attempt + 1;
      }
      return LostThreeTimes;
    }
  }

  /** The first n attempts all lost their race. */
  ghost predicate Busy(rounds: seq<Round>, n: nat)
    requires n <= |rounds|
  {
    forall i :: 0 <= i < n ==> rounds[i].window != [] && !rounds[i].breaks
  }

  ghost predicate FirstQuiet(rounds: seq<Round>, k: nat)
    requires k < |rounds|
  {
    rounds[k].window == [] && !rounds[k].breaks && Busy(rounds, k)
  }

  /** The table as attempt k selects from it, its rivals in all earlier rounds having landed. */
  function Before(h: Hash, chain: seq<Entry>, rounds: seq<Round>, k: nat): seq<Entry>
    requires k < |rounds|
    decreases k, 1
  {
    Extended(h, AfterRounds(h, chain, rounds, k), rounds[k].before)
  }

  /** The table after the rivals of the first n attempts have landed. */
  function AfterRounds(h: Hash, chain: seq<Entry>, rounds: seq<Round>, n: nat): seq<Entry>
    requires n <= |rounds|
    decreases n, 0
  {
    if n == 0 then chain else Extended(h, Before(h, chain, rounds, n - 1), rounds[n - 1].window)
  }
}
