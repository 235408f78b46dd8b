/** Statement execution and the run of a program (src/interpreter.js:136-388). */
module Execution {
  /* What the gates, the model and the signers decide is given with each piece of work: whether a gate
     refuses it before or after the idempotency check, and the trace it builds. What the disk and the
     shared table answer is given too. */

  import opened CanonicalJson
  import opened Journal
  import opened Options
  import StatementKeys
  import opened TraceStore

  /** One call of execStatement: what the statement is and its key, whether its intent requires an
      attestation at the time of the call, and what the call meets. */
  datatype Work = Work(
    material: StatementKeys.Material, key: string, required: bool,
    force: bool, refusedEarly: bool, refusedLate: bool,
    context: Context, who: Asker, body: Json,
    writeFails: bool, reply: Reply, reuseFails: bool, at: string)

  datatype Outcome =
    | Declined
    | Idempotent(prior: Json)
    | NotTraced
    | Interrupted
    | Done(committed: bool)

  /** The trace store and the interpreter's bindings. */
  datatype Machine = Machine(store: Store, env: map<string, Json>)

  const TURN_TRACE := "TurnTrace_ID"

  function Bind(env: map<string, Json>, outputs: seq<Binding>): map<string, Json> {
    if outputs == [] then env
    else Bind(env, outputs[..|outputs| - 1])[outputs[|outputs| - 1].name := outputs[|outputs| - 1].value]
  }

  /** Release of a durable trace: outputs only when it is committed, its id in any case. */
  function Released(env: map<string, Json>, t: Trace): map<string, Json> {
    (if t.committed then Bind(env, t.outputs) else env)[TURN_TRACE := Str(t.id)]
  }

  /** The attestation gate: committed unless an attestation is required and no step gives one. */
  predicate Commits(w: Work) {
    !w.required || StatementKeys.Attests(w.material.compute)
  }

  /** The key is the execution identity's, and the trace is committed when the gate says so. */
  ghost predicate Identified(c: Config, w: Work) {
    && StatementKeys.WellFormedMaterial(w.material) && w.key == StatementKeys.Key(c.sha256, w.material)
    && c.view(w.body).committed == Commits(w)
  }

  /** The trace that answers for a statement without running it again. */
  function Answer(c: Config, m: Machine, w: Work): Option<Json> {
    var prior := ByKey(c.view, m.store.traces, w.key);
    if !w.force && prior.Some? && c.view(prior.value).committed then prior else None
  }

  /** Statement execution: trace first, then release. */
  function Execute(c: Config, m: Machine, w: Work): (r: (Machine, Outcome))
    requires m.store.journal.durable <= |m.store.journal.list|
    ensures r.0.store.journal.durable <= |r.0.store.journal.list|
  {
    if w.refusedEarly then (m, Declined)
    else if Answer(c, m, w).Some? then (m, Idempotent(Answer(c, m, w).value))
    else if w.refusedLate then (m, Declined)
    else if c.view(w.body).id == "" || AppendFails(c, w.writeFails) then (m, NotTraced)
    else
      var written := AfterWrite(c, m.store, w.body);
      var landed := FlushLands(written.journal, w.reply);
      var flushed := AfterFlush(written, landed);
      if !landed then (Machine(flushed, m.env), NotTraced)
      else
        var t := c.view(w.body);
        var ids := Inherited(c, m, w);
        var marked := AfterReuse(c, flushed, ids, t.id, w.at, w.reuseFails);
        if ids != [] && AppendFails(c, w.reuseFails) then (Machine(marked, m.env), Interrupted)
        else (Machine(marked, Released(m.env, t)), Done(t.committed))
  }

  /** The ai-class traces the statement reads as context. */
  function Inherited(c: Config, m: Machine, w: Work): seq<string> {
    AiIds(c.view, Selection(c, m.store, w.context, w.who))
  }

  datatype Report = Report(body: Json, writeFails: bool, reply: Reply)

  /** The failure record. A failed flush of it is left to the next flush to report. */
  function AfterReport(c: Config, m: Machine, r: Report): (n: Machine)
    requires m.store.journal.durable <= |m.store.journal.list|
    ensures n.store.journal.durable <= |n.store.journal.list|
  {
    if AppendFails(c, r.writeFails) then m
    else
      var recorded := AfterAppend(c, m.store, FAILURE, r.body);
      Machine(AfterFlush(recorded, FlushLands(recorded.journal, r.reply)), m.env)
  }

  /* ---------- programs ---------- */

  datatype Handler = Halt | Retry(tries: seq<Work>) | Custom

  datatype Statement = Statement(work: Work, report: Report, onFail: Option<seq<Handler>>)

  datatype Finish = Finished | Halted | Threw | StaticErrors

  /** What happens to a machine, one call at a time. `Reopen` is a new runtime over the durable part. */
  datatype Action =
    | Try(work: Work)
    | Fail(report: Report)
    | Other(kind: string, body: Json, diskFails: bool)
    | Reopen

  function Perform(c: Config, m: Machine, a: Action): (n: Machine)
    requires m.store.journal.durable <= |m.store.journal.list|
    ensures n.store.journal.durable <= |n.store.journal.list|
  {
    match a
    case Try(w) => Execute(c, m, w).0
    case Fail(r) => AfterReport(c, m, r)
    case Other(kind, body, diskFails) =>
      if AppendFails(c, diskFails) then m else Machine(AfterAppend(c, m.store, kind, body), m.env)
    case Reopen => Machine(Replayed(RolledBack(m.store.journal)), map[])
  }

  function PerformAll(c: Config, m: Machine, actions: seq<Action>): (n: Machine)
    requires m.store.journal.durable <= |m.store.journal.list|
    ensures n.store.journal.durable <= |n.store.journal.list|
  {
    if actions == [] then m else Perform(c, PerformAll(c, m, actions[..|actions| - 1]), actions[|actions| - 1])
  }

  predicate Succeeds(o: Outcome) {
    o.Done? || o.Idempotent?
  }

  /* ---------- the run of a program ---------- */

  datatype Handled = Recovered | Carried | Stopped

  predicate Ready(m: Machine) {
    m.store.journal.durable <= |m.store.journal.list|
  }

  /** Forced executions until one succeeds. */
  function RetryUntil(c: Config, m: Machine, tries: seq<Work>): (r: (Machine, bool))
    requires Ready(m)
    ensures Ready(r.0)
    decreases |tries|
  {
    if tries == [] then (m, false)
    else
      var w := tries[0].(force := true);
      var n := Perform(c, m, Try(w));
      if Succeeds(Execute(c, m, w).1) then (n, true) else RetryUntil(c, n, tries[1..])
  }

  /** The handlers of a failed statement in order. Halt throws; a retry that succeeds ends the list. */
  function HandleFailure(c: Config, m: Machine, handlers: seq<Handler>): (r: (Machine, Handled))
    requires Ready(m)
    ensures Ready(r.0)
    decreases |handlers|
  {
    if handlers == [] then (m, Carried)
    else match handlers[0]
      case Halt => (m, Stopped)
      case Custom => HandleFailure(c, m, handlers[1..])
      case Retry(tries) =>
        var (n, recovered) := RetryUntil(c, m, tries);
        if recovered then (n, Recovered) else HandleFailure(c, n, handlers[1..])
  }

  /** What one statement of a program makes of the machine, and whether the program goes on after it. */
  function RunStatement(c: Config, m: Machine, s: Statement): (r: (Machine, Finish))
    requires Ready(m)
    ensures Ready(r.0)
  {
    var n := Perform(c, m, Try(s.work));
    var o := Execute(c, m, s.work).1;
    if Succeeds(o) then (n, Finished)
    else if o.Interrupted? || AppendFails(c, s.report.writeFails) then (n, Threw)
    else
      var failed := Perform(c, n, Fail(s.report));
      if s.onFail.None? then (failed, Halted)
      else
        var (k, handled) := HandleFailure(c, failed, s.onFail.value);
        (k, if handled.Stopped? then Threw else Finished)
  }

  /** A statement that fails with no handler halts the program: nothing after it runs. */
  function RunProgram(c: Config, m: Machine, program: seq<Statement>): (r: (Machine, Finish))
    requires Ready(m)
    ensures Ready(r.0)
    decreases |program|
  {
    if program == [] then (m, Finished)
    else
      var (n, finish) := RunStatement(c, m, program[0]);
      if finish.Finished? then RunProgram(c, n, program[1..]) else (n, finish)
  }

  /* ---------- the interpreter ---------- */

  ghost predicate WellBuilt(c: Config, w: Work) {
    WellFormed(w.body) && c.view(w.body).statementKey == w.key
  }

  ghost predicate AllBuilt(c: Config, program: seq<Statement>) {
    forall s :: s in program ==>
      && WellBuilt(c, s.work) && WellFormed(s.report.body)
      && (s.onFail.Some? ==>
            forall h :: h in s.onFail.value && h.Retry? ==> forall w :: w in h.tries ==> WellBuilt(c, w))
  }

  class Interpreter {
    const ios: IOSRuntime
    var env: map<string, Json>

    ghost function Contents(): Machine
      reads this, ios, ios.journal
    {
      Machine(ios.Contents(), env)
    }

    ghost function Setup(): Config {
      ios.Setup()
    }

    ghost predicate Valid()
      reads ios, ios.journal
    {
      ios.Valid()
    }

    constructor (ios: IOSRuntime, inputs: map<string, Json>)
      requires ios.Valid()
      ensures Valid() && this.ios == ios && Contents() == Machine(ios.Contents(), inputs)
    {
      this.ios := ios;
      env := inputs;
    }

    method Release(t: Trace)
      modifies this`env
      ensures env == Released(old(env), t)
    {
      if t.committed {
        var i := 0;
        while i < |t.outputs|
          invariant 0 <= i <= |t.outputs| && env == Bind(old(env), t.outputs[..i])
        {
          assert t.outputs[..i + 1][..i] == t.outputs[..i];
          env := env[t.outputs[i].name := t.outputs[i].value];
          i := i + 1;
        }
        assert t.outputs[..i] == t.outputs;
      }
      env := env[TURN_TRACE := Str(t.id)];
    }

    /** One statement, from the idempotency check to the release of its outputs. */
    method ExecStatement(w: Work) returns (o: Outcome)
      requires Valid() && WellBuilt(Setup(), w)
      modifies this`env, ios`traces, ios`staged, ios`reuse, ios.journal`list, ios.journal`durable, ios.journal`pending
      ensures Valid() && (Contents(), o) == Execute(Setup(), old(Contents()), w)
    {
      hide TraceStore.Healthy, Consistent, WellFormed, AfterWrite, AfterFlush, AfterReuse, FlushLands, Selection,
           Released, ByKey;
      DurableWithin();
      if w.refusedEarly { return Declined; }
      var prior := ByKey(ios.view, ios.traces, w.key);
      if !w.force && prior.Some? && ios.view(prior.value).committed { return Idempotent(prior.value); }
      var contextTraces := Selection(Config(ios.journal.sha256, ios.journal.backend, ios.view, ios.settings),
                                     Store(State(ios.journal.list, ios.journal.durable, ios.journal.pending),
                                           ios.traces, ios.staged, ios.reuse),
                                     w.context, w.who);
      if w.refusedLate { return Declined; }
      var id := ios.Write(w.body, w.writeFails);
      if id.None? { return NotTraced; }
      var landed := ios.Flush(w.reply);
      if !landed { return NotTraced; }
      var recorded := ios.MarkReused(contextTraces, id.value, w.at, w.reuseFails);
      if !recorded { return Interrupted; }
      Release(ios.view(w.body));
      return Done(ios.view(w.body).committed);
    }

    lemma DurableWithin()
      requires Valid()
      ensures ios.journal.durable <= |ios.journal.list|
    {
    }

    /** Records a failure; whether the record itself lands is left to the next flush. */
    method RecordFailure(r: Report) returns (recorded: bool)
      requires Valid() && WellFormed(r.body)
      modifies ios`traces, ios`staged, ios.journal`list, ios.journal`durable, ios.journal`pending
      ensures Valid() && Contents() == AfterReport(Setup(), old(Contents()), r)
      ensures recorded <==> !AppendFails(Setup(), r.writeFails)
    {
      hide TraceStore.Healthy, Consistent, WellFormed, AfterFlush, FlushLands;
      DurableWithin();
      recorded := ios.Record(FAILURE, r.body, r.writeFails);
      if recorded { var _ := ios.Flush(r.reply); }
    }

    method RetryStatement(tries: seq<Work>) returns (recovered: bool)
      requires Valid() && forall w :: w in tries ==> WellBuilt(Setup(), w)
      modifies this`env, ios`traces, ios`staged, ios`reuse, ios.journal`list, ios.journal`durable, ios.journal`pending
      ensures Valid() && Ready(old(Contents()))
                && (Contents(), recovered) == RetryUntil(Setup(), old(Contents()), tries)
    {
      hide Execute, IOSRuntime.Valid, WellFormed;
      DurableWithin();
      ghost var start := Contents();
      var i := 0;
      while i < |tries|
        invariant 0 <= i <= |tries| && Valid()
        invariant Ready(Contents()) && RetryUntil(Setup(), start, tries) == RetryUntil(Setup(), Contents(), tries[i..])
      {
        assert tries[i] in tries && tries[i..][1..] == tries[i + 1..];
        DurableWithin();
        var o := ExecStatement(tries[i].(force := true));
        DurableWithin();
        if Succeeds(o) { return true; }
        i := i + 1;
      }
      return false;
    }

    method HandleFailed(handlers: seq<Handler>) returns (handled: Handled)
      requires Valid() && forall h :: h in handlers && h.Retry? ==> forall w :: w in h.tries ==> WellBuilt(Setup(), w)
      modifies this`env, ios`traces, ios`staged, ios`reuse, ios.journal`list, ios.journal`durable, ios.journal`pending
      ensures Valid() && Ready(old(Contents()))
                && (Contents(), handled) == HandleFailure(Setup(), old(Contents()), handlers)
    {
      hide Execute, IOSRuntime.Valid, RetryUntil, WellFormed;
      DurableWithin();
      ghost var start := Contents();
      var i := 0;
      while i < |handlers|
        invariant 0 <= i <= |handlers| && Valid()
        invariant Ready(Contents())
                    && HandleFailure(Setup(), start, handlers) == HandleFailure(Setup(), Contents(), handlers[i..])
      {
        assert handlers[i] in handlers && handlers[i..][1..] == handlers[i + 1..];
        match handlers[i] {
          case Halt => return Stopped;
          case Custom =>
          case Retry(tries) =>
            var recovered := RetryStatement(tries);
            DurableWithin();
            if recovered { return Recovered; }
        }
        i := i + 1;
      }
      return Carried;
    }

    method RunOne(s: Statement) returns (finish: Finish)
      requires Valid() && AllBuilt(Setup(), [s])
      modifies this`env, ios`traces, ios`staged, ios`reuse, ios.journal`list, ios.journal`durable, ios.journal`pending
      ensures Valid() && Ready(old(Contents())) && (Contents(), finish) == RunStatement(Setup(), old(Contents()), s)
    {
      hide Execute, IOSRuntime.Valid, HandleFailure, AfterReport, WellFormed;
      DurableWithin();
      assert s in [s];
      var o := ExecStatement(s.work);
      if Succeeds(o) { return Finished; }
      if o.Interrupted? { return Threw; }
      DurableWithin();
      ghost var failed := Contents();
      var recorded := RecordFailure(s.report);
      if !recorded {
        ReportFailed(Setup(), failed, s.report);
        return Threw;
      }
      if s.onFail.None? { return Halted; }
      var handled := HandleFailed(s.onFail.value);
      return if handled.Stopped? then Threw else Finished;
    }

    /** Runs a program from where the interpreter stands, if it passes the static check. */
    method Run(program: seq<Statement>, passes: bool) returns (finish: Finish)
      requires Valid() && AllBuilt(Setup(), program)
      modifies this`env, ios`traces, ios`staged, ios`reuse, ios.journal`list, ios.journal`durable, ios.journal`pending
      ensures Valid() && Ready(old(Contents()))
      ensures (Contents(), finish) ==
                if passes then RunProgram(Setup(), old(Contents()), program) else (old(Contents()), StaticErrors)
    {
      hide RunStatement, IOSRuntime.Valid, WellBuilt;
      DurableWithin();
      if !passes { return StaticErrors; }
      ghost var start := Contents();
      var i := 0;
      while i < |program|
        invariant 0 <= i <= |program| && Valid()
        invariant Ready(Contents())
                    && RunProgram(Setup(), start, program) == RunProgram(Setup(), Contents(), program[i..])
      {
        assert program[i] in program && program[i..][1..] == program[i + 1..];
        finish := RunOne(program[i]);
        DurableWithin();
        if !finish.Finished? { return finish; }
        i := i + 1;
      }
      return Finished;
    }
  }

  lemma ReportFailed(c: Config, m: Machine, r: Report)
    requires Ready(m) && AppendFails(c, r.writeFails)
    ensures AfterReport(c, m, r) == m
  {
  }
}
