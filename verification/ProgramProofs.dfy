/** A program's run is a run of steps, so what holds over every run holds of every program.

    The steps are those of `Execution.Action`: each execution among them is a statement of the program, or a
    retry of one that its handlers ask for, and each failure is recorded before the handlers run. Nothing is
    said of the order the steps come in, which the results over runs do not need. */
module ProgramProofs {
  import opened CanonicalJson
  import opened Execution
  import opened ExecutionProofs
  import opened Idempotency
  import JournalProofs
  import StatementKeys
  import opened TraceStore

  /* ---------- steps of a program ---------- */

  ghost predicate TryOf(h: Handler, w: Work) {
    h.Retry? && exists t :: t in h.tries && w == t.(force := true)
  }

  ghost predicate WorkOf(s: Statement, w: Work) {
    w == s.work || (s.onFail.Some? && exists h :: h in s.onFail.value && TryOf(h, w))
  }

  ghost predicate FromProgram(program: seq<Statement>, w: Work) {
    exists s :: s in program && WorkOf(s, w)
  }

  /** Some sequence of steps, every execution among them the program's own, leads from one machine to the other. */
  ghost predicate Reaches(c: Config, program: seq<Statement>, m: Machine, n: Machine) {
    Ready(m) && exists actions :: Leads(c, program, m, actions, n)
  }

  ghost predicate Leads(c: Config, program: seq<Statement>, m: Machine, actions: seq<Action>, n: Machine)
    requires Ready(m)
  {
    && AllPerformable(c, actions) && PerformAll(c, m, actions) == n
    && forall a :: a in actions && a.Try? ==> FromProgram(program, a.work)
  }

  lemma ReachesNone(c: Config, program: seq<Statement>, m: Machine)
    requires Ready(m)
    ensures Reaches(c, program, m, m)
  {
    assert Leads(c, program, m, [], m);
  }

  lemma ReachesThen(c: Config, program: seq<Statement>, m: Machine, n: Machine, k: Machine)
    requires Reaches(c, program, m, n) && Reaches(c, program, n, k)
    ensures Reaches(c, program, m, k)
  {
    hide Perform, PerformAll, Performable, FromProgram;
    var a :| Leads(c, program, m, a, n);
    var b :| Leads(c, program, n, b, k);
    PerformConcat(c, m, a, b);
    assert Leads(c, program, m, a + b, k);
  }

  lemma ReachesOne(c: Config, program: seq<Statement>, m: Machine, a: Action)
    requires Ready(m) && Performable(c, a) && (a.Try? ==> FromProgram(program, a.work))
    ensures Reaches(c, program, m, Perform(c, m, a))
  {
    hide Perform, Performable, FromProgram;
    assert [a][..0] == [];
    assert PerformAll(c, m, [a]) == Perform(c, m, a);
    assert Leads(c, program, m, [a], Perform(c, m, a));
  }

  lemma {:induction false} RetriesReach(c: Config, program: seq<Statement>, m: Machine, tries: seq<Work>)
    requires Ready(m)
    requires forall w :: w in tries ==> WellBuilt(c, w) && FromProgram(program, w.(force := true))
    ensures Reaches(c, program, m, RetryUntil(c, m, tries).0)
    decreases |tries|
  {
    hide Perform, Execute, FromProgram, WellFormed, Reaches;
    if tries == [] {
      ReachesNone(c, program, m);
    } else {
      var w := tries[0].(force := true);
      assert tries[0] in tries && WellBuilt(c, w);
      ReachesOne(c, program, m, Try(w));
      RetriesReach(c, program, Perform(c, m, Try(w)), tries[1..]);
      if !Succeeds(Execute(c, m, w).1) {
        ReachesThen(c, program, m, Perform(c, m, Try(w)), RetryUntil(c, m, tries).0);
      }
    }
  }

  lemma {:induction false} HandlersReach(c: Config, program: seq<Statement>, m: Machine, handlers: seq<Handler>)
    requires Ready(m)
    requires forall h :: h in handlers && h.Retry? ==>
               forall w :: w in h.tries ==> WellBuilt(c, w) && FromProgram(program, w.(force := true))
    ensures Reaches(c, program, m, HandleFailure(c, m, handlers).0)
    decreases |handlers|
  {
    hide RetryUntil, FromProgram, WellBuilt, Reaches;
    ReachesNone(c, program, m);
    if handlers != [] {
      var h := handlers[0];
      assert h in handlers;
      if h.Retry? {
        RetriesReach(c, program, m, h.tries);
        var n := RetryUntil(c, m, h.tries).0;
        HandlersReach(c, program, n, handlers[1..]);
        ReachesThen(c, program, m, n, HandleFailure(c, n, handlers[1..]).0);
      } else {
        HandlersReach(c, program, m, handlers[1..]);
      }
    }
  }

  lemma StatementReaches(c: Config, program: seq<Statement>, m: Machine, s: Statement)
    requires Ready(m) && AllBuilt(c, program) && s in program
    ensures Reaches(c, program, m, RunStatement(c, m, s).0)
  {
    hide Perform, Execute, HandleFailure, WellFormed, Reaches;
    assert WorkOf(s, s.work);
    ReachesOne(c, program, m, Try(s.work));
    var n := Perform(c, m, Try(s.work));
    ReachesOne(c, program, n, Fail(s.report));
    var failed := Perform(c, n, Fail(s.report));
    ReachesThen(c, program, m, n, failed);
    if s.onFail.Some? {
      RetriesFromProgram(c, program, s);
      HandlersReach(c, program, failed, s.onFail.value);
      ReachesThen(c, program, m, failed, HandleFailure(c, failed, s.onFail.value).0);
    }
  }

  lemma RetriesFromProgram(c: Config, program: seq<Statement>, s: Statement)
    requires AllBuilt(c, program) && s in program && s.onFail.Some?
    ensures forall h :: h in s.onFail.value && h.Retry? ==>
              forall w :: w in h.tries ==> WellBuilt(c, w) && FromProgram(program, w.(force := true))
  {
    forall h, w | h in s.onFail.value && h.Retry? && w in h.tries
      ensures WellBuilt(c, w) && FromProgram(program, w.(force := true))
    {
      assert TryOf(h, w.(force := true));
      assert WorkOf(s, w.(force := true));
    }
  }

  /** A program's run is a run of steps, so what holds over every run holds of every program. */
  lemma {:induction false} ProgramReaches(c: Config, program: seq<Statement>, m: Machine, left: seq<Statement>)
    requires Ready(m) && AllBuilt(c, program) && forall s :: s in left ==> s in program
    ensures Reaches(c, program, m, RunProgram(c, m, left).0)
    decreases |left|
  {
    hide RunStatement, AllBuilt, Reaches;
    if left == [] {
      ReachesNone(c, program, m);
    } else {
      StatementReaches(c, program, m, left[0]);
      var n := RunStatement(c, m, left[0]).0;
      ProgramReaches(c, program, n, left[1..]);
      ReachesThen(c, program, m, n, RunProgram(c, n, left[1..]).0);
    }
  }

  /** Each statement has its own identity's key, none is forced or retries, and no intent changes whether it
      requires an attestation. */
  ghost predicate Plain(c: Config, required: string -> bool, program: seq<Statement>) {
    forall s :: s in program ==>
      && Identified(c, s.work) && !s.work.force && s.work.required == required(s.work.material.intent)
      && (s.onFail.Some? ==> forall h :: h in s.onFail.value ==> !h.Retry?)
  }

  /** The texts whose digests are the keys of a program's statements. */
  ghost function ProgramTexts(program: seq<Statement>): set<string> {
    set s | s in program :: StatementKeys.IdentityText(s.work.material)
  }

  /** Every program, run from a fresh interpreter: the chain verifies and shows exactly its durable traces
      and everything bound is accounted for. Without retries, and under one attestation requirement, no
      statement key commits twice. */
  lemma ProgramKeepsItsWord(c: Config, required: string -> bool, inputs: map<string, Json>, program: seq<Statement>)
    requires AllBuilt(c, program)
    ensures var n := RunProgram(c, Fresh(inputs), program).0;
            && Settled(c, n) && n.store.traces == Bodies(TRACE, DurablePart(n))
            && AllTraced(c, inputs, n)
            && (Plain(c, required, program) && JournalProofs.CollisionFree(c.sha256, ProgramTexts(program)) ==>
                  OncePerKey(c, n.store.traces))
  {
    var m := Fresh(inputs);
    FreshSettled(c, inputs);
    ProgramReaches(c, program, m, program);
    hide AllBuilt, Settled, RunProgram, PerformAll, Performable, Plain, FromProgram, ProgramTexts, KeyTexts, Standing;
    var n := RunProgram(c, m, program).0;
    var actions :| Leads(c, program, m, actions, n);
    RunTraceFirst(c, m, actions);
    OutputsTraced(c, inputs, m, actions);
    if Plain(c, required, program) && JournalProofs.CollisionFree(c.sha256, ProgramTexts(program)) {
      PlainStanding(c, required, program, actions);
      JournalProofs.CollisionFreeSubset(c.sha256, ProgramTexts(program), KeyTexts(actions));
      CommittedOnce(c, required, inputs, actions);
    }
  }

  lemma PlainStanding(c: Config, required: string -> bool, program: seq<Statement>, actions: seq<Action>)
    requires Plain(c, required, program) && forall a :: a in actions && a.Try? ==> FromProgram(program, a.work)
    ensures Standing(c, required, actions) && KeyTexts(actions) <= ProgramTexts(program)
  {
    hide StatementKeys.IdentityText, Identified;
    forall a | a in actions && a.Try?
      ensures Identified(c, a.work) && !a.work.force && a.work.required == required(a.work.material.intent)
      ensures StatementKeys.IdentityText(a.work.material) in ProgramTexts(program)
    {
      var s :| s in program && WorkOf(s, a.work);
    }
  }
}
