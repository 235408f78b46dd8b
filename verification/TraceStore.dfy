/** The trace store (src/runtime.js:194-290). */
module TraceStore {
  /* Traces become visible when the journal has them durably, and reuse counters are rebuilt from the
     journal's own events.

     A trace is the JSON object that was journaled; `view` reads its fields and is a parameter, so every
     result holds however a trace is laid out. Confidence and decay are reals. */

  import opened CanonicalJson
  import opened Journal
  import opened Options

  datatype Class = Ai | Human | Service | Deterministic

  datatype Binding = Binding(name: string, value: Json)

  datatype Trace = Trace(
    id: string, statementKey: string, actor: string, intent: string, boundary: Json,
    attestation: Class, confidence: real, depth: nat, reuseCount: nat,
    committed: bool, outputs: seq<Binding>)

  type View = Json -> Trace

  datatype Settings = Settings(decay: real, floor: real, maxDepth: nat)

  datatype Config = Config(sha256: Hash, backend: Backend, view: View, settings: Settings)

  const TRACE := "trace"
  const REUSE := "reuse"
  const FAILURE := "failure"

  /* ---------- what the journal says ---------- */

  function BodiesOf(entries: seq<Entry>): seq<Json> {
    if entries == [] then [] else BodiesOf(entries[..|entries| - 1]) + [entries[|entries| - 1].body]
  }

  /** The bodies of the entries of one type. */
  function Bodies(kind: string, list: seq<Entry>): seq<Json> {
    BodiesOf(Journal.Select(Some(kind), list))
  }

  lemma {:induction false} SelectSnoc(kind: string, list: seq<Entry>, e: Entry)
    ensures Bodies(kind, list + [e]) == Bodies(kind, list) + (if e.kind == kind then [e.body] else [])
    ensures Recount(list + [e]) == if e.kind == REUSE then Tally(Recount(list), TraceIds(e.body)) else Recount(list)
  {
    assert (list + [e])[..|list|] == list;
    forall k: string
      ensures Journal.Select(Some(k), list + [e])
             == Journal.Select(Some(k), list) + (if e.kind == k then [e] else [])
    {
    }
    var some := Journal.Select(Some(kind), list);
    assert (some + [e])[..|some|] == some && some + [] == some;
    var reuses := Journal.Select(Some(REUSE), list);
    assert (reuses + [e])[..|reuses|] == reuses && reuses + [] == reuses;
  }

  function Count(reuse: map<string, nat>, id: string): nat {
    if id in reuse then reuse[id] else 0
  }

  /** One more reuse of each id. */
  function Tally(reuse: map<string, nat>, ids: seq<string>): map<string, nat> {
    if ids == [] then reuse
    else
      var before := Tally(reuse, ids[..|ids| - 1]);
      before[ids[|ids| - 1] := Count(before, ids[|ids| - 1]) + 1]
  }

  function TallyAll(reuse: map<string, nat>, entries: seq<Entry>): map<string, nat> {
    if entries == [] then reuse
    else Tally(TallyAll(reuse, entries[..|entries| - 1]), TraceIds(entries[|entries| - 1].body))
  }

  /** The reuse counters the journal's events add up to. */
  function Recount(list: seq<Entry>): map<string, nat> {
    TallyAll(map[], Journal.Select(Some(REUSE), list))
  }

  /* ---------- reuse events ---------- */

  function Strings(ids: seq<string>): seq<Json> {
    if ids == [] then [] else Strings(ids[..|ids| - 1]) + [Str(ids[|ids| - 1])]
  }

  function Texts(items: seq<Json>): seq<string> {
    if items == [] then []
    else
      var last := items[|items| - 1];
      Texts(items[..|items| - 1]) + (if last.Str? then [last.s] else [])
  }

  function FieldOf(x: Json, key: string): Option<Json> {
    if x.Obj? then Find(x.members, key) else None
  }

  function Find(ms: seq<Member>, key: string): Option<Json> {
    if ms == [] then None
    else if ms[0].key == key then Some(ms[0].value)
    else Find(ms[1..], key)
  }

  function TraceIds(body: Json): seq<string> {
    var ids := FieldOf(body, "traceIds");
    if ids.Some? && ids.value.Arr? then Texts(ids.value.items) else []
  }

  function ReuseBody(ids: seq<string>, reader: string, at: string): Json {
    Obj([Member("traceIds", Arr(Strings(ids))), Member("by", Str(reader)), Member("at", Str(at))])
  }

  lemma {:induction false} TextsOfStrings(ids: seq<string>)
    ensures Texts(Strings(ids)) == ids
    ensures forall i :: 0 <= i < |Strings(ids)| ==> WellFormed(Strings(ids)[i])
  {
    if ids != [] {
      var n := |ids| - 1;
      TextsOfStrings(ids[..n]);
      assert (Strings(ids[..n]) + [Str(ids[n])])[..|Strings(ids[..n])|] == Strings(ids[..n]);
      assert ids == ids[..n] + [ids[n]];
    }
  }

  /** A reuse event reads back as the ids it was written with. */
  lemma ReuseReadsBack(ids: seq<string>, reader: string, at: string)
    ensures TraceIds(ReuseBody(ids, reader, at)) == ids && WellFormed(ReuseBody(ids, reader, at))
  {
    TextsOfStrings(ids);
    assert "by"[0] != "at"[0] && |"traceIds"| == 8;
  }

  /** It also names the reader and the time. */
  lemma ReuseNamesReader(ids: seq<string>, reader: string, at: string)
    ensures FieldOf(ReuseBody(ids, reader, at), "by") == Some(Str(reader))
    ensures FieldOf(ReuseBody(ids, reader, at), "at") == Some(Str(at))
  {
    assert "by"[0] != "at"[0] && |"traceIds"| == 8 && |"by"| == 2 && |"at"| == 2;
    var ms := [Member("traceIds", Arr(Strings(ids))), Member("by", Str(reader)), Member("at", Str(at))];
    assert ms[1..] == [Member("by", Str(reader)), Member("at", Str(at))] && ms[1..][1..] == [Member("at", Str(at))];
    assert Find(ms, "by") == Find(ms[1..], "by") == Some(Str(reader));
    assert Find(ms, "at") == Find(ms[1..], "at") == Find(ms[1..][1..], "at");
  }

  /* ---------- the store as a value ---------- */

  /** `staged` holds traces written but not yet durable. */
  datatype Store = Store(journal: State, traces: seq<Json>, staged: seq<Json>, reuse: map<string, nat>)

  function Replayed(j: State): Store
    requires j.durable <= |j.list|
  {
    Store(j, Bodies(TRACE, j.list[..j.durable]), [], Recount(j.list[..j.durable]))
  }

  function AfterAppend(c: Config, s: Store, kind: string, body: Json): (t: Store)
    ensures s.journal.durable <= |s.journal.list| ==> t.journal.durable <= |t.journal.list|
  {
    s.(journal := Appended(c.sha256, c.backend, s.journal, kind, body))
  }

  /** A trace that is not yet durable is not yet visible. */
  function AfterWrite(c: Config, s: Store, body: Json): (t: Store)
    ensures s.journal.durable <= |s.journal.list| ==> t.journal.durable <= |t.journal.list|
  {
    var t := AfterAppend(c, s, TRACE, body);
    if |s.journal.list| < t.journal.durable then t.(traces := t.traces + [body]) else t.(staged := t.staged + [body])
  }

  /** A landed flush shows the staged traces; a failed one discards them. */
  function AfterFlush(s: Store, landed: bool): (t: Store)
    requires s.journal.durable <= |s.journal.list|
    ensures t.journal.durable <= |t.journal.list|
  {
    if landed then Store(Flushed(s.journal), s.traces + s.staged, [], s.reuse)
    else Store(RolledBack(s.journal), s.traces, [], s.reuse)
  }

  /** Counters first, then the event that records them. */
  function AfterReuse(c: Config, s: Store, ids: seq<string>, reader: string, at: string, diskFails: bool): (t: Store)
    ensures s.journal.durable <= |s.journal.list| ==> t.journal.durable <= |t.journal.list|
  {
    if ids == [] then s
    else
      var t := s.(reuse := Tally(s.reuse, ids));
      if AppendFails(c, diskFails) then t else AfterAppend(c, t, REUSE, ReuseBody(ids, reader, at))
  }

  predicate AppendFails(c: Config, diskFails: bool) {
    c.backend.File? && diskFails
  }

  /* ---------- selection ---------- */

  datatype Mode = Recent | Attested

  datatype Context = Context(mode: Mode, n: int, requireAttested: bool, boundaryExact: bool, maxDepth: Option<nat>)

  datatype Asker = Asker(actor: string, boundary: Json, intent: string)

  function Times(x: real, y: real): real {
    x * y
  }

  function Power(x: real, n: nat): real {
    if n == 0 then 1.0 else Times(x, Power(x, n - 1))
  }

  function TimesReused(reuse: map<string, nat>, t: Trace): nat {
    if t.id in reuse then reuse[t.id] else t.reuseCount
  }

  /** Confidence falls each time an inference is inherited. */
  function EffectiveConfidence(g: Settings, reuse: map<string, nat>, t: Trace): real {
    if !t.attestation.Ai? then 1.0 else t.confidence * Power(g.decay, TimesReused(reuse, t))
  }

  predicate Fits(g: Settings, reuse: map<string, nat>, x: Context, who: Asker, t: Trace) {
    && t.intent == who.intent && t.actor == who.actor
    && (x.boundaryExact ==> t.boundary == who.boundary)
    && (t.attestation.Ai? ==>
          t.depth <= (if x.maxDepth.Some? then x.maxDepth.value else g.maxDepth)
          && EffectiveConfidence(g, reuse, t) >= g.floor)
    && (x.requireAttested ==> !t.attestation.Ai?)
    && (x.mode.Attested? ==> t.attestation.Human?)
  }

  function Pool(c: Config, reuse: map<string, nat>, x: Context, who: Asker, traces: seq<Json>): seq<Json> {
    if traces == [] then []
    else
      var last := traces[|traces| - 1];
      Pool(c, reuse, x, who, traces[..|traces| - 1])
      + (if Fits(c.settings, reuse, x, who, c.view(last)) then [last] else [])
  }

  /** The last n of the pool; none when n is zero. */
  function Selection(c: Config, s: Store, x: Context, who: Asker): seq<Json> {
    var pool := Pool(c, s.reuse, x, who, s.traces);
    if x.n <= 0 then [] else if x.n >= |pool| then pool else pool[|pool| - x.n..]
  }

  /** The ids of the ai-class traces among those inherited. */
  function AiIds(view: View, traces: seq<Json>): seq<string> {
    if traces == [] then []
    else
      var t := view(traces[|traces| - 1]);
      AiIds(view, traces[..|traces| - 1]) + (if t.attestation.Ai? then [t.id] else [])
  }

  /** The first visible trace with a statement key. */
  function ByKey(view: View, traces: seq<Json>, key: string): (r: Option<Json>)
    ensures r.Some? ==> r.value in traces && view(r.value).statementKey == key
    ensures r.None? ==> forall b :: b in traces ==> view(b).statementKey != key
  {
    if traces == [] then None
    else if view(traces[0]).statementKey == key then Some(traces[0])
    else ByKey(view, traces[1..], key)
  }

  /* ---------- the store never shows what is not durable ---------- */

  /** The visible traces are exactly the bodies of the durable trace entries, and the staged ones the
      bodies of the pending trace entries. */
  ghost predicate Faithful(s: Store) {
    && s.journal.durable <= |s.journal.list|
    && s.traces == Bodies(TRACE, s.journal.list[..s.journal.durable])
    && s.staged == Bodies(TRACE, s.journal.list[s.journal.durable..])
  }

  ghost predicate Healthy(c: Config, s: Store) {
    && Consistent(c.sha256, s.journal)
    && (!c.backend.WriteBehind? ==> s.journal.durable == |s.journal.list|)
    && Faithful(s)
  }

  lemma {:induction false} BodiesConcat(kind: string, a: seq<Entry>, b: seq<Entry>)
    ensures Bodies(kind, a + b) == Bodies(kind, a) + Bodies(kind, b)
    decreases |b|
  {
    hide Bodies, Recount, Tally, TraceIds;
    if b == [] {
      NoBodies(kind);
      assert a + b == a && Bodies(kind, a) + [] == Bodies(kind, a);
    } else {
      var n := |b| - 1;
      BodiesConcat(kind, a, b[..n]);
      SelectSnoc(kind, a + b[..n], b[n]);
      SelectSnoc(kind, b[..n], b[n]);
      assert a + b == (a + b[..n]) + [b[n]] && b == b[..n] + [b[n]];
    }
  }

  lemma AppendHealthy(c: Config, s: Store, kind: string, body: Json)
    requires Healthy(c, s) && WellFormed(body)
    ensures kind != TRACE ==> Healthy(c, AfterAppend(c, s, kind, body))
    ensures Healthy(c, AfterWrite(c, s, body))
    ensures var t := AfterAppend(c, s, kind, body);
            s.journal.list[..s.journal.durable] <= t.journal.list[..t.journal.durable]
  {
    hide Bodies, WellFormed, Sound;
    OperationsKeepConsistent(c.sha256, c.backend, s.journal, kind, body);
    OperationsKeepConsistent(c.sha256, c.backend, s.journal, TRACE, body);
    AppendFaithful(c, s, kind, body);
    AppendFaithful(c, s, TRACE, body);
  }

  lemma EntryFields(h: Hash, list: seq<Entry>, kind: string, body: Json)
    ensures var e := NextEntry(h, list, kind, body); e.kind == kind && e.body == body && e.seqno == |list|
  {
  }

  lemma AppendFaithful(c: Config, s: Store, kind: string, body: Json)
    requires s.journal.durable <= |s.journal.list| && Faithful(s)
    requires !c.backend.WriteBehind? ==> s.journal.durable == |s.journal.list|
    ensures kind != TRACE ==> Faithful(AfterAppend(c, s, kind, body))
    ensures kind == TRACE ==> Faithful(AfterWrite(c, s, body))
    ensures var t := AfterAppend(c, s, kind, body);
            s.journal.list[..s.journal.durable] <= t.journal.list[..t.journal.durable]
  {
    hide Bodies, NextEntry;
    var j := s.journal;
    var e := NextEntry(c.sha256, j.list, kind, body);
    EntryFields(c.sha256, j.list, kind, body);
    if c.backend.WriteBehind? {
      Snoc(j.list, e, j.durable);
      SelectSnoc(TRACE, j.list[j.durable..], e);
    } else {
      Whole(j.list);
      Whole(j.list + [e]);
      SelectSnoc(TRACE, j.list, e);
      NoBodies(TRACE);
    }
  }

  lemma Snoc(list: seq<Entry>, e: Entry, n: nat)
    requires n <= |list|
    ensures (list + [e])[n..] == list[n..] + [e] && (list + [e])[..n] == list[..n]
  {
  }

  lemma Whole(list: seq<Entry>)
    ensures list[..|list|] == list && list[|list|..] == []
  {
  }

  lemma NoBodies(kind: string)
    ensures Bodies(kind, []) == []
  {
  }

  lemma FlushHealthy(c: Config, s: Store, landed: bool)
    requires Healthy(c, s)
    ensures s.journal.durable <= |s.journal.list|
    ensures Healthy(c, AfterFlush(s, landed)) && AfterFlush(s, landed).staged == []
    ensures var t := AfterFlush(s, landed);
            && s.journal.list[..s.journal.durable] <= t.journal.list[..t.journal.durable]
            && (landed || t.journal.list[..t.journal.durable] == s.journal.list[..s.journal.durable])
  {
    hide Bodies, Sound;
    OperationsKeepConsistent(c.sha256, c.backend, s.journal, "", Null);
    var j := s.journal;
    NoBodies(TRACE);
    BodiesConcat(TRACE, j.list[..j.durable], j.list[j.durable..]);
    assert j.list == j.list[..j.durable] + j.list[j.durable..];
    assert j.list[..|j.list|] == j.list && j.list[|j.list|..] == [];
    assert j.list[..j.durable][j.durable..] == [] && j.list[..j.durable][..j.durable] == j.list[..j.durable];
  }

  lemma ReplayedHealthy(c: Config, j: State)
    requires Consistent(c.sha256, j) && (!c.backend.WriteBehind? ==> j.durable == |j.list|)
    ensures Healthy(c, Replayed(j)) <==> Bodies(TRACE, j.list[j.durable..]) == []
  {
  }

  /** A trace that was pending when the journal was replayed is missing once it lands: the flush shows what is
      durable exactly when no trace was pending. */
  lemma ReplayMissesPending(j: State)
    requires j.durable <= |j.list|
    ensures var t := AfterFlush(Replayed(j), true);
            var durable := Bodies(TRACE, t.journal.list[..t.journal.durable]);
            && durable == t.traces + Bodies(TRACE, j.list[j.durable..])
            && (t.traces == durable <==> Bodies(TRACE, j.list[j.durable..]) == [])
  {
    hide Bodies, Recount;
    Whole(j.list);
    assert j.list == j.list[..j.durable] + j.list[j.durable..];
    BodiesConcat(TRACE, j.list[..j.durable], j.list[j.durable..]);
    assert Bodies(TRACE, j.list[..j.durable]) + [] == Bodies(TRACE, j.list[..j.durable]);
  }

  /* ---------- the store object ---------- */

  class IOSRuntime {
    const journal: MemoryJournal
    const view: View
    const settings: Settings
    var traces: seq<Json>
    var staged: seq<Json>
    var reuse: map<string, nat>

    ghost function Contents(): Store
      reads this, journal
    {
      Store(journal.Contents(), traces, staged, reuse)
    }

    ghost function Setup(): Config {
      Config(journal.sha256, journal.backend, view, settings)
    }

    ghost predicate Valid()
      reads this, journal
    {
      journal.Valid() && Healthy(Setup(), Contents())
    }

    /** Replays the durable part of a journal. A trace still pending there is not staged here, so the store is
        in order exactly when none is pending; `ReplayMissesPending` says what becomes of one that is. */
    constructor (journal: MemoryJournal, view: View, settings: Settings)
      requires journal.Valid()
      ensures Valid() <==> Bodies(TRACE, journal.list[journal.durable..]) == []
      ensures this.journal == journal && this.view == view && this.settings == settings
      ensures Contents() == Replayed(journal.Contents())
    {
      this.journal := journal;
      this.view := view;
      this.settings := settings;
      new;
      var written := journal.Entries(Some(TRACE), false);
      traces, staged := [], [];
      CopyTraces(written);
      var events := journal.Entries(Some(REUSE), false);
      reuse := map[];
      CountReuse(events);
      ReplayedHealthy(Setup(), journal.Contents());
    }

    method CopyTraces(written: seq<Entry>)
      requires traces == []
      modifies this`traces
      ensures traces == BodiesOf(written)
    {
      var i := 0;
      while i < |written|
        invariant 0 <= i <= |written| && traces == BodiesOf(written[..i])
      {
        assert written[..i + 1][..i] == written[..i];
        traces := traces + [written[i].body];
        i := i + 1;
      }
      assert written[..i] == written;
    }

    method CountReuse(events: seq<Entry>)
      requires reuse == map[]
      modifies this`reuse
      ensures reuse == TallyAll(map[], events)
    {
      hide Tally, TraceIds;
      var i := 0;
      while i < |events|
        invariant 0 <= i <= |events| && reuse == TallyAll(map[], events[..i])
      {
        assert events[..i + 1][..i] == events[..i];
        AddReuse(TraceIds(events[i].body));
        i := i + 1;
      }
      assert events[..i] == events;
    }

    method AddReuse(ids: seq<string>)
      modifies this`reuse
      ensures reuse == Tally(old(reuse), ids)
    {
      var i := 0;
      while i < |ids|
        invariant 0 <= i <= |ids| && reuse == Tally(old(reuse), ids[..i])
      {
        assert ids[..i + 1][..i] == ids[..i];
        reuse := reuse[ids[i] := Count(reuse, ids[i]) + 1];
        i := i + 1;
      }
      assert ids[..i] == ids;
    }

    /** Journals a trace; a trace with no id, or one the disk refuses, is not written. */
    method Write(body: Json, diskFails: bool) returns (id: Option<string>)
      requires Valid() && WellFormed(body)
      modifies this`traces, this`staged, journal`list, journal`durable, journal`pending
      ensures Valid()
      ensures id == if view(body).id == "" || AppendFails(Setup(), diskFails) then None else Some(view(body).id)
      ensures Contents() == if id.None? then old(Contents()) else AfterWrite(Setup(), old(Contents()), body)
    {
      hide Healthy, Consistent, WellFormed, NextEntry;
      if view(body).id == "" { return None; }
      AppendHealthy(Setup(), Contents(), TRACE, body);
      ghost var before := Contents();
      var entry := journal.Append(TRACE, body, diskFails);
      if entry.None? { return None; }
      EntryFields(Setup().sha256, before.journal.list, TRACE, body);
      if entry.value.seqno < journal.durable { traces := traces + [body]; } else { staged := staged + [body]; }
      return Some(view(body).id);
    }

    /** The durability gate: staged traces become visible only when the journal's flush lands. */
    method Flush(reply: Reply) returns (ok: bool)
      requires Valid()
      modifies this`traces, this`staged, journal`list, journal`durable, journal`pending
      ensures Valid() && ok == FlushLands(old(journal.Contents()), reply)
      ensures Contents() == AfterFlush(old(Contents()), ok)
    {
      hide Healthy, Consistent, Faithful, Sound, FlushLands;
      FlushHealthy(Setup(), Contents(), true);
      FlushHealthy(Setup(), Contents(), false);
      ok := journal.Flush(reply);
      if ok { traces := traces + staged; }
      staged := [];
    }

    /** Records that traces were read as context; the traces themselves are not touched. */
    method MarkReused(inherited: seq<Json>, reader: string, at: string, diskFails: bool) returns (ok: bool)
      requires Valid()
      modifies this`reuse, journal`list, journal`durable, journal`pending
      ensures Valid()
      ensures ok <==> AiIds(view, inherited) == [] || !AppendFails(Setup(), diskFails)
      ensures Contents() == AfterReuse(Setup(), old(Contents()), AiIds(view, inherited), reader, at, diskFails)
    {
      var ids := AiIds(view, inherited);
      if ids == [] { return true; }
      ReuseReadsBack(ids, reader, at);
      ghost var before := Contents();
      var body := ReuseBody(ids, reader, at);
      AppendHealthy(Setup(), before.(reuse := Tally(before.reuse, ids)), REUSE, body);
      hide Consistent, Sound, WellFormed, Appended, ReuseBody;
      AddReuse(ids);
      assert Healthy(Setup(), Contents());
      var entry := journal.Append(REUSE, body, diskFails);
      return entry.Some?;
    }

    /** Journals an event of another kind. */
    method Record(kind: string, body: Json, diskFails: bool) returns (ok: bool)
      requires Valid() && WellFormed(body) && kind != TRACE
      modifies journal`list, journal`durable, journal`pending
      ensures Valid() && ok == !AppendFails(Setup(), diskFails)
      ensures Contents() == if ok then AfterAppend(Setup(), old(Contents()), kind, body) else old(Contents())
    {
      AppendHealthy(Setup(), Contents(), kind, body);
      hide Healthy, Consistent, Sound, WellFormed, Appended;
      var entry := journal.Append(kind, body, diskFails);
      return entry.Some?;
    }
  }
}
