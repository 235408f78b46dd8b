/** What a statement releases, and what a later one finds (src/interpreter.js:307-313). */
module ReleaseProofs {
  import opened CanonicalJson
  import opened Execution
  import opened ExecutionProofs
  import opened TraceStore

  /* ---------- one statement ---------- */

  /** The last value a list of outputs gives a name. */
  ghost predicate LastValue(outputs: seq<Binding>, name: string, v: Json) {
    exists i :: GivenAt(outputs, name, v, i)
  }

  ghost predicate GivenAt(outputs: seq<Binding>, name: string, v: Json, i: int) {
    && 0 <= i < |outputs| && outputs[i] == Binding(name, v)
    && forall j :: i < j < |outputs| ==> outputs[j].name != name
  }

  ghost predicate Gives(outputs: seq<Binding>, name: string) {
    exists i :: 0 <= i < |outputs| && outputs[i].name == name
  }

  /** A name is bound to the same value on both sides, or on neither. */
  ghost predicate SameAt(a: map<string, Json>, b: map<string, Json>, name: string) {
    (name in a <==> name in b) && (name in a ==> a[name] == b[name])
  }

  lemma {:induction false} BindExact(env: map<string, Json>, outputs: seq<Binding>, name: string)
    ensures Gives(outputs, name) ==>
              name in Bind(env, outputs) && LastValue(outputs, name, Bind(env, outputs)[name])
    ensures !Gives(outputs, name) ==> SameAt(env, Bind(env, outputs), name)
    decreases |outputs|
  {
    if outputs != [] {
      var n := |outputs| - 1;
      var before := outputs[..n];
      BindExact(env, before, name);
      if outputs[n].name == name {
        assert GivenAt(outputs, name, outputs[n].value, n);
      } else if Gives(before, name) {
        var i :| GivenAt(before, name, Bind(env, before)[name], i);
        assert GivenAt(outputs, name, Bind(env, before)[name], i);
      } else {
        assert forall i :: 0 <= i < n ==> outputs[i] == before[i];
      }
    }
  }

  lemma ValueUnique(outputs: seq<Binding>, name: string, v: Json, u: Json)
    requires LastValue(outputs, name, v) && LastValue(outputs, name, u)
    ensures v == u
  {
  }

  /** A statement that commits binds every output it gives, to the last value given, and the id of its trace; one
      that does not commit binds the id alone, and one that is not done binds nothing. */
  lemma StatementReleases(c: Config, m: Machine, w: Work)
    requires Settled(c, m) && WellBuilt(c, w)
    ensures m.store.journal.durable <= |m.store.journal.list|
    ensures var (n, o) := Execute(c, m, w);
            var t := c.view(w.body);
            && (o.Done? ==> "TurnTrace_ID" in n.env && n.env["TurnTrace_ID"] == Str(t.id))
            && (forall name :: name != "TurnTrace_ID" ==>
                  if o == Done(true) && Gives(t.outputs, name)
                    then name in n.env && LastValue(t.outputs, name, n.env[name])
                    else SameAt(m.env, n.env, name))
            && (!o.Done? ==> n.env == m.env)
  {
    hide WellFormed, Settled, Gives, LastValue;
    SettledReady(c, m);
    ExecuteEffect(c, m, w);
    hide Execute;
    var t := c.view(w.body);
    forall name
      ensures Gives(t.outputs, name) ==>
                name in Bind(m.env, t.outputs) && LastValue(t.outputs, name, Bind(m.env, t.outputs)[name])
      ensures !Gives(t.outputs, name) ==> SameAt(m.env, Bind(m.env, t.outputs), name)
    {
      BindExact(m.env, t.outputs, name);
    }
    hide Bind;
  }

  /* ---------- runs ---------- */

  /** The step commits a statement that gives the name. */
  ghost predicate Provides(c: Config, m: Machine, a: Action, name: string)
    requires Ready(m)
  {
    a.Try? && Execute(c, m, a.work).1 == Done(true) && Gives(c.view(a.work.body).outputs, name)
  }

  lemma StepKeeps(c: Config, m: Machine, a: Action, name: string)
    requires Settled(c, m) && Performable(c, a) && name != TURN_TRACE && !a.Reopen?
    ensures Ready(m)
    ensures if Provides(c, m, a, name)
              then name in Perform(c, m, a).env
                   && LastValue(c.view(a.work.body).outputs, name, Perform(c, m, a).env[name])
              else SameAt(m.env, Perform(c, m, a).env, name)
  {
    hide Settled, WellFormed, Gives, LastValue;
    SettledReady(c, m);
    if a.Try? { StatementReleases(c, m, a.work); } else { OthersKeepBindings(c, m, a); }
  }

  lemma OthersKeepBindings(c: Config, m: Machine, a: Action)
    requires Ready(m) && !a.Try? && !a.Reopen?
    ensures Perform(c, m, a).env == m.env
  {
  }

  lemma ProvidesIsTry(c: Config, m: Machine, a: Action, name: string)
    requires Ready(m) && Provides(c, m, a, name)
    ensures a.Try?
  {
  }

  /** From step k on the interpreter is the same and nothing gives the name. */
  ghost predicate Quiet(c: Config, m: Machine, actions: seq<Action>, name: string, k: nat)
    requires Ready(m)
  {
    forall j :: k <= j < |actions| ==>
      !actions[j].Reopen? && !Provides(c, PerformAll(c, m, actions[..j]), actions[j], name)
  }

  /** Where no committed statement gave it, a name is bound as it was. */
  lemma {:induction false} NobodyGave(c: Config, m: Machine, actions: seq<Action>, name: string)
    requires Settled(c, m) && AllPerformable(c, actions) && name != TURN_TRACE && Ready(m)
    requires Quiet(c, m, actions, name, 0)
    ensures SameAt(m.env, PerformAll(c, m, actions).env, name)
    decreases |actions|
  {
    hide Settled, Performable, Provides, Perform, Quiet;
    if actions != [] {
      var n := |actions| - 1;
      QuietBefore(c, m, actions, name);
      RunTraceFirst(c, m, actions[..n]);
      NobodyGave(c, m, actions[..n], name);
      StepKeeps(c, PerformAll(c, m, actions[..n]), actions[n], name);
    }
  }

  lemma QuietBefore(c: Config, m: Machine, actions: seq<Action>, name: string)
    requires Ready(m) && actions != [] && Quiet(c, m, actions, name, 0)
    ensures var n := |actions| - 1;
            && Quiet(c, m, actions[..n], name, 0) && actions[n] in actions && !actions[n].Reopen?
            && !Provides(c, PerformAll(c, m, actions[..n]), actions[n], name)
  {
    hide Provides, PerformAll;
    var n := |actions| - 1;
    assert forall j :: 0 <= j < n ==> actions[..n][j] == actions[j] && actions[..n][..j] == actions[..j];
  }

  /** A later statement finds under a name what the last committed statement that gave it left there, whatever
      was refused or failed in between. */
  lemma LaterFinds(c: Config, m: Machine, actions: seq<Action>, name: string, k: nat, v: Json)
    requires Settled(c, m) && AllPerformable(c, actions) && name != TURN_TRACE && k < |actions|
    requires Ready(m) && Provides(c, PerformAll(c, m, actions[..k]), actions[k], name)
    requires LastValue(c.view(actions[k].work.body).outputs, name, v)
    requires Quiet(c, m, actions, name, k + 1)
    ensures name in PerformAll(c, m, actions).env && PerformAll(c, m, actions).env[name] == v
  {
    hide Settled, Performable, Provides, LastValue, Perform, PerformAll, Quiet;
    var given := PerformAll(c, m, actions[..k + 1]);
    RunTraceFirst(c, m, actions[..k + 1]);
    GivenThere(c, m, actions, name, k, v);
    QuietAfter(c, m, actions, name, k + 1);
    NobodyGave(c, given, actions[k + 1..], name);
    assert actions == actions[..k + 1] + actions[k + 1..];
    PerformConcat(c, m, actions[..k + 1], actions[k + 1..]);
  }

  lemma QuietAfter(c: Config, m: Machine, actions: seq<Action>, name: string, k: nat)
    requires Ready(m) && k <= |actions| && Quiet(c, m, actions, name, k)
    ensures Quiet(c, PerformAll(c, m, actions[..k]), actions[k..], name, 0)
  {
    hide Perform, PerformAll, Provides;
    var rest := actions[k..];
    forall j | 0 <= j < |rest|
      ensures !rest[j].Reopen?
              && !Provides(c, PerformAll(c, PerformAll(c, m, actions[..k]), rest[..j]), rest[j], name)
    {
      assert actions[..k + j] == actions[..k] + rest[..j] && rest[j] == actions[k + j];
      PerformConcat(c, m, actions[..k], rest[..j]);
    }
  }

  lemma GivenThere(c: Config, m: Machine, actions: seq<Action>, name: string, k: nat, v: Json)
    requires Settled(c, m) && AllPerformable(c, actions) && name != TURN_TRACE && k < |actions|
    requires Ready(m) && Provides(c, PerformAll(c, m, actions[..k]), actions[k], name)
    requires LastValue(c.view(actions[k].work.body).outputs, name, v)
    ensures var given := PerformAll(c, m, actions[..k + 1]); name in given.env && given.env[name] == v
  {
    hide Settled, Performable, Provides, LastValue, Perform;
    var before := PerformAll(c, m, actions[..k]);
    assert actions[..k + 1][..k] == actions[..k];
    assert actions[k] in actions;
    RunTraceFirst(c, m, actions[..k]);
    ProvidesIsTry(c, before, actions[k], name);
    StepKeeps(c, before, actions[k], name);
    ValueUnique(c.view(actions[k].work.body).outputs, name, v, Perform(c, before, actions[k]).env[name]);
  }
}
