/** Execution identity (src/interpreter.js:107-119).

    The key under which a statement is recognised as the same work. It is the digest of the canonical text
    of everything material to the statement; the Approval argument of an attestation is not, because an
    approval is a signature over the key. */
module StatementKeys {
  import opened CanonicalJson
  import opened CanonicalProofs
  import opened Journal
  import opened JournalProofs
  import opened Options

  /** A compute step with its bound arguments, and the pinned version of the model it names, if any. */
  datatype Step = Step(fn: string, args: seq<Member>, pinned: Option<Json>)

  datatype Material = Material(
    actor: string, boundary: Json, intent: string, params: Json, context: Json,
    compute: seq<Step>, outputs: Json, runtime: string)

  const VERSION := "igl-exec-v1"
  const ATTEST := "IOS.Attest"
  const APPROVAL := "Approval"

  function Without(ms: seq<Member>, key: string): seq<Member> {
    if ms == [] then []
    else (if ms[0].key == key then [] else [ms[0]]) + Without(ms[1..], key)
  }

  function MaterialArgs(s: Step): Json {
    Obj(if s.fn == ATTEST then Without(s.args, APPROVAL) else s.args)
  }

  function StepMembers(s: Step): seq<Member> {
    [Member("fn", Str(s.fn)), Member("args", MaterialArgs(s))]
    + (if s.pinned.Some? then [Member("modelVersion", s.pinned.value)] else [])
  }

  function StepJson(s: Step): Json {
    Obj(StepMembers(s))
  }

  function StepsJson(steps: seq<Step>): seq<Json> {
    if steps == [] then [] else [StepJson(steps[0])] + StepsJson(steps[1..])
  }

  function Identity(m: Material): seq<Member> {
    [Member("v", Str(VERSION)), Member("actor", Str(m.actor)), Member("boundary", m.boundary),
     Member("intent", Str(m.intent)), Member("params", m.params), Member("context", m.context),
     Member("compute", Arr(StepsJson(m.compute))), Member("outputs", m.outputs), Member("runtime", Str(m.runtime))]
  }

  function IdentityText(m: Material): string {
    Canonical(Obj(Identity(m)))
  }

  function Key(h: Hash, m: Material): string {
    h(IdentityText(m))
  }

  /* ---------- the same work ---------- */

  ghost predicate SamePin(a: Option<Json>, b: Option<Json>) {
    (a.None? && b.None?) || (a.Some? && b.Some? && Equiv(a.value, b.value))
  }

  /** Every argument is material but the approval of an attestation. */
  ghost predicate IsMaterial(s: Step, m: Member) {
    m in s.args && !(s.fn == "IOS.Attest" && m.key == "Approval")
  }

  /** The material arguments agree, in any order. */
  ghost predicate SameArgs(a: Step, b: Step) {
    && (forall m {:trigger HasTwin(m, b)} :: IsMaterial(a, m) ==> HasTwin(m, b))
    && forall n {:trigger IsTwin(a, n)} :: IsMaterial(b, n) ==> IsTwin(a, n)
  }

  ghost predicate HasTwin(m: Member, b: Step) {
    exists n :: IsMaterial(b, n) && Paired(m, n)
  }

  ghost predicate IsTwin(a: Step, n: Member) {
    exists m :: IsMaterial(a, m) && Paired(m, n)
  }

  ghost predicate SameStep(a: Step, b: Step) {
    a.fn == b.fn && SameArgs(a, b) && SamePin(a.pinned, b.pinned)
  }

  /** Everything material agrees, objects up to member order. */
  ghost predicate SameWork(a: Material, b: Material) {
    && a.actor == b.actor && a.intent == b.intent && a.runtime == b.runtime
    && Equiv(a.boundary, b.boundary) && Equiv(a.params, b.params) && Equiv(a.context, b.context)
    && Equiv(a.outputs, b.outputs)
    && |a.compute| == |b.compute| && forall i :: 0 <= i < |a.compute| ==> SameStep(a.compute[i], b.compute[i])
  }

  ghost predicate WellFormedStep(s: Step) {
    WellFormed(Obj(s.args)) && (s.pinned.Some? ==> WellFormed(s.pinned.value))
  }

  ghost predicate WellFormedMaterial(m: Material) {
    && WellFormed(m.boundary) && WellFormed(m.params) && WellFormed(m.context) && WellFormed(m.outputs)
    && forall s :: s in m.compute ==> WellFormedStep(s)
  }

  /* ---------- objects with the same keys ---------- */

  ghost predicate SameKeys(ms: seq<Member>, ns: seq<Member>) {
    |ms| == |ns| && forall i :: 0 <= i < |ms| ==> ms[i].key == ns[i].key
  }

  /** Objects written with the same distinct keys are equivalent member by member. */
  lemma MemberwiseEquiv(ms: seq<Member>, ns: seq<Member>)
    requires SameKeys(ms, ns) && DistinctKeys(ms)
    ensures Equiv(Obj(ms), Obj(ns)) <==> forall i :: 0 <= i < |ms| ==> Equiv(ms[i].value, ns[i].value)
  {
    if Equiv(Obj(ms), Obj(ns)) {
      forall i | 0 <= i < |ms| ensures Equiv(ms[i].value, ns[i].value) {
        assert HasPair(ms[i], ns);
        var n :| n in ns && Paired(ms[i], n);
        var j :| 0 <= j < |ns| && ns[j] == n;
        assert ms[j].key == ms[i].key;
        assert i == j;
      }
    }
    if forall i :: 0 <= i < |ms| ==> Equiv(ms[i].value, ns[i].value) {
      forall m | m in ms ensures HasPair(m, ns) {
        var i :| 0 <= i < |ms| && ms[i] == m;
        assert Paired(m, ns[i]) && ns[i] in ns;
      }
      forall n | n in ns ensures IsPaired(ms, n) {
        var i :| 0 <= i < |ns| && ns[i] == n;
        assert Paired(ms[i], n) && ms[i] in ms;
      }
    }
  }

  lemma {:induction false} WithoutKeeps(ms: seq<Member>, key: string)
    ensures forall m :: m in Without(ms, key) <==> m in ms && m.key != key
    ensures DistinctKeys(ms) ==> DistinctKeys(Without(ms, key))
    decreases |ms|
  {
    if ms != [] {
      assert ms == [ms[0]] + ms[1..];
      WithoutKeeps(ms[1..], key);
      var rest := Without(ms[1..], key);
      if DistinctKeys(ms) {
        forall i | 0 <= i < |rest| ensures rest[i].key != ms[0].key {
          assert rest[i] in ms[1..];
          var j :| 0 <= j < |ms[1..]| && ms[1..][j] == rest[i];
          assert ms[j + 1] == rest[i];
        }
      }
    }
  }

  lemma ArgsExact(a: Step, b: Step)
    ensures Equiv(MaterialArgs(a), MaterialArgs(b)) <==> SameArgs(a, b)
  {
    var ms, ns := MaterialArgs(a).members, MaterialArgs(b).members;
    MaterialMembers(a);
    MaterialMembers(b);
    hide MaterialArgs, IsMaterial, Paired;
    forall m ensures HasTwin(m, b) <==> HasPair(m, ns) {}
    forall n ensures IsTwin(a, n) <==> IsPaired(ms, n) {}
    hide HasTwin, IsTwin, HasPair, IsPaired;
    ObjectsMean(ms, ns);
    assert MaterialArgs(a) == Obj(ms) && MaterialArgs(b) == Obj(ns);
  }

  ghost predicate AllPaired(ms: seq<Member>, ns: seq<Member>) {
    && (forall m {:trigger HasPair(m, ns)} :: m in ms ==> HasPair(m, ns))
    && forall n {:trigger IsPaired(ms, n)} :: n in ns ==> IsPaired(ms, n)
  }

  lemma ObjectsMean(ms: seq<Member>, ns: seq<Member>)
    ensures Equiv(Obj(ms), Obj(ns)) <==> AllPaired(ms, ns)
  {
    if Equiv(Obj(ms), Obj(ns)) {
      forall m | m in ms ensures HasPair(m, ns) {}
      forall n | n in ns ensures IsPaired(ms, n) {}
      assert AllPaired(ms, ns);
    }
    if AllPaired(ms, ns) {
      forall m | m in ms ensures HasPair(m, ns) {}
      forall n | n in ns ensures IsPaired(ms, n) {}
      assert Equiv(Obj(ms), Obj(ns));
    }
  }

  lemma MaterialMembers(s: Step)
    ensures MaterialArgs(s).Obj? && forall m :: m in MaterialArgs(s).members <==> IsMaterial(s, m)
  {
    WithoutKeeps(s.args, APPROVAL);
  }

  lemma MaterialArgsWellFormed(s: Step)
    requires WellFormedStep(s)
    ensures WellFormed(MaterialArgs(s))
  {
    WithoutKeeps(s.args, APPROVAL);
  }

  lemma StepKeys(s: Step)
    requires WellFormedStep(s)
    ensures DistinctKeys(StepMembers(s)) && WellFormed(StepJson(s))
  {
    MaterialArgsWellFormed(s);
    hide MaterialArgs;
    assert |"fn"| == 2 && |"args"| == 4 && |"modelVersion"| == 12;
  }

  lemma StepParts(s: Step)
    ensures var ms := StepMembers(s);
            && |ms| == (if s.pinned.Some? then 3 else 2)
            && ms[0].value == Str(s.fn) && ms[1].value == MaterialArgs(s)
            && (s.pinned.Some? ==> ms[2].value == s.pinned.value)
  {
    hide MaterialArgs;
  }

  lemma StepsAligned(a: Step, b: Step)
    requires a.pinned.Some? == b.pinned.Some?
    ensures SameKeys(StepMembers(a), StepMembers(b))
  {
    hide MaterialArgs;
  }

  lemma StepExact(a: Step, b: Step)
    requires WellFormedStep(a) && WellFormedStep(b)
    ensures Equiv(StepJson(a), StepJson(b)) <==> SameStep(a, b)
  {
    StepKeys(a);
    EquivText(a.fn, b.fn);
    StepParts(a);
    StepParts(b);
    ArgsExact(a, b);
    hide SameArgs, MaterialArgs, WellFormed, Equiv, DistinctKeys, StepMembers, SameKeys;
    if a.pinned.Some? == b.pinned.Some? {
      StepsAligned(a, b);
      var ms, ns := StepMembers(a), StepMembers(b);
      MemberwiseEquiv(ms, ns);
      assert forall i :: 0 <= i < |ms| ==> i == 0 || i == 1 || (i == 2 && ms[i] == ms[2]);
    } else {
      PinMissing(a, b);
    }
  }

  /** A pinned model version is part of the step. */
  lemma PinMissing(a: Step, b: Step)
    requires a.pinned.Some? != b.pinned.Some?
    ensures !Equiv(StepJson(a), StepJson(b))
  {
    hide MaterialArgs;
    var ms, ns := StepMembers(a), StepMembers(b);
    assert |"fn"| == 2 && |"args"| == 4 && |"modelVersion"| == 12;
    if a.pinned.Some? {
      assert ms[2] in ms;
      assert !HasPair(ms[2], ns);
    } else {
      assert ns[2] in ns;
      assert !IsPaired(ms, ns[2]);
    }
  }

  lemma {:induction false} StepsExact(xs: seq<Step>, ys: seq<Step>)
    requires forall s :: s in xs ==> WellFormedStep(s)
    requires forall s :: s in ys ==> WellFormedStep(s)
    ensures |StepsJson(xs)| == |xs| && |StepsJson(ys)| == |ys|
    ensures forall i :: 0 <= i < |xs| ==> WellFormed(StepsJson(xs)[i])
    ensures |xs| == |ys| ==>
              ((forall i :: 0 <= i < |xs| ==> Equiv(StepsJson(xs)[i], StepsJson(ys)[i]))
               <==> forall i :: 0 <= i < |xs| ==> SameStep(xs[i], ys[i]))
    decreases |xs| + |ys|
  {
    hide StepJson, SameStep, WellFormedStep;
    if xs != [] && ys != [] {
      StepsExact(xs[1..], ys[1..]);
      StepKeys(xs[0]);
      StepExact(xs[0], ys[0]);
      assert xs == [xs[0]] + xs[1..] && ys == [ys[0]] + ys[1..];
      AtCons(xs);
      AtCons(ys);
    } else if xs != [] {
      StepsExact(xs[1..], ys);
      StepKeys(xs[0]);
    } else if ys != [] {
      StepsExact(xs, ys[1..]);
    }
  }

  lemma AtCons(xs: seq<Step>)
    requires xs != [] && |StepsJson(xs)| == |xs|
    ensures StepsJson(xs)[0] == StepJson(xs[0])
    ensures forall i :: 0 <= i < |xs| - 1 ==> StepsJson(xs)[i + 1] == StepsJson(xs[1..])[i]
  {
    StepsCons(xs);
    hide StepJson, StepsJson;
    var rest := StepsJson(xs[1..]);
    forall i | 0 <= i < |xs| - 1 ensures ([StepJson(xs[0])] + rest)[i + 1] == rest[i] {}
  }

  lemma StepsCons(xs: seq<Step>)
    requires xs != []
    ensures StepsJson(xs) == [StepJson(xs[0])] + StepsJson(xs[1..])
  {
    hide StepJson;
  }

  lemma IdentityKeys(m: Material)
    ensures DistinctKeys(Identity(m))
  {
    assert "context"[2] == 'n' && "compute"[2] == 'm';
  }

  lemma IdentityParts(m: Material)
    ensures var ms := Identity(m);
            && |ms| == 9
            && ms[0] == Member("v", Str(VERSION)) && ms[1] == Member("actor", Str(m.actor))
            && ms[2] == Member("boundary", m.boundary) && ms[3] == Member("intent", Str(m.intent))
            && ms[4] == Member("params", m.params) && ms[5] == Member("context", m.context)
            && ms[6] == Member("compute", Arr(StepsJson(m.compute))) && ms[7] == Member("outputs", m.outputs)
            && ms[8] == Member("runtime", Str(m.runtime))
  {
  }

  lemma IdentityWellFormed(m: Material)
    requires WellFormedMaterial(m)
    ensures WellFormed(Obj(Identity(m)))
  {
    IdentityKeys(m);
    IdentityParts(m);
    StepsExact(m.compute, []);
    hide Identity, StepsJson, DistinctKeys;
    var ms := Identity(m);
    forall i | 0 <= i < |ms| ensures WellFormed(ms[i].value) {
      assert i == 0 || i == 1 || i == 2 || i == 3 || i == 4 || i == 5 || i == 6 || i == 7 || i == 8;
    }
  }

  lemma IdentitiesAligned(a: Material, b: Material)
    ensures SameKeys(Identity(a), Identity(b))
  {
    IdentityParts(a);
    IdentityParts(b);
    hide Identity;
    var ms, ns := Identity(a), Identity(b);
    forall i | 0 <= i < |ms| ensures ms[i].key == ns[i].key {
      assert i == 0 || i == 1 || i == 2 || i == 3 || i == 4 || i == 5 || i == 6 || i == 7 || i == 8;
    }
  }

  lemma IdentityExact(a: Material, b: Material)
    requires WellFormedMaterial(a) && WellFormedMaterial(b)
    ensures Equiv(Obj(Identity(a)), Obj(Identity(b))) <==> SameWork(a, b)
  {
    IdentityKeys(a);
    IdentitiesAligned(a, b);
    IdentityParts(a);
    IdentityParts(b);
    var ms, ns := Identity(a), Identity(b);
    MemberwiseEquiv(ms, ns);
    AllNine(ms, ns);
    StepsExact(a.compute, b.compute);
    EquivText(VERSION, VERSION);
    EquivText(a.actor, b.actor);
    EquivText(a.intent, b.intent);
    EquivText(a.runtime, b.runtime);
    EquivLists(StepsJson(a.compute), StepsJson(b.compute));
    hide Identity, StepsJson, DistinctKeys, SameKeys, SameStep, WellFormedStep, WellFormed, Equiv;
  }

  lemma AllNine(ms: seq<Member>, ns: seq<Member>)
    requires |ms| == |ns| == 9
    ensures (forall i :: 0 <= i < |ms| ==> Equiv(ms[i].value, ns[i].value)) <==>
              && Equiv(ms[0].value, ns[0].value) && Equiv(ms[1].value, ns[1].value) && Equiv(ms[2].value, ns[2].value)
              && Equiv(ms[3].value, ns[3].value) && Equiv(ms[4].value, ns[4].value) && Equiv(ms[5].value, ns[5].value)
              && Equiv(ms[6].value, ns[6].value) && Equiv(ms[7].value, ns[7].value) && Equiv(ms[8].value, ns[8].value)
  {
    hide Equiv;
    if Equiv(ms[0].value, ns[0].value) && Equiv(ms[1].value, ns[1].value) && Equiv(ms[2].value, ns[2].value)
       && Equiv(ms[3].value, ns[3].value) && Equiv(ms[4].value, ns[4].value) && Equiv(ms[5].value, ns[5].value)
       && Equiv(ms[6].value, ns[6].value) && Equiv(ms[7].value, ns[7].value) && Equiv(ms[8].value, ns[8].value)
    {
      forall i | 0 <= i < |ms| ensures Equiv(ms[i].value, ns[i].value) {
        assert i == 0 || i == 1 || i == 2 || i == 3 || i == 4 || i == 5 || i == 6 || i == 7 || i == 8;
      }
    }
  }

  lemma EquivText(a: string, b: string)
    ensures Equiv(Str(a), Str(b)) <==> a == b
  {
  }

  lemma EquivLists(xs: seq<Json>, ys: seq<Json>)
    ensures Equiv(Arr(xs), Arr(ys)) <==> |xs| == |ys| && forall i :: 0 <= i < |xs| ==> Equiv(xs[i], ys[i])
  {
  }

  /** Two statements get the same key exactly when everything material to them agrees, given that the
      digest does not collide on the two texts. */
  lemma KeyExact(h: Hash, a: Material, b: Material)
    requires WellFormedMaterial(a) && WellFormedMaterial(b)
    requires CollisionFree(h, {IdentityText(a), IdentityText(b)})
    ensures Key(h, a) == Key(h, b) <==> SameWork(a, b)
  {
    hide WellFormedMaterial, SameWork;
    IdentityWellFormed(a);
    IdentityWellFormed(b);
    IdentityExact(a, b);
    CanonicalExact(Obj(Identity(a)), Obj(Identity(b)));
    hide Canonical, Identity;
    assert !Collide(h, IdentityText(a), IdentityText(b));
  }

  /* ---------- what the key settles ---------- */

  predicate Attests(compute: seq<Step>) {
    exists i :: 0 <= i < |compute| && compute[i].fn == ATTEST
  }

  /** A statement commits unless its intent requires an attestation and no step attests. */
  predicate Commits(required: string -> bool, m: Material) {
    !required(m.intent) || Attests(m.compute)
  }

  /** Under one attestation policy, statements with the same key commit alike. */
  lemma KeySettlesCommit(h: Hash, required: string -> bool, a: Material, b: Material)
    requires WellFormedMaterial(a) && WellFormedMaterial(b)
    ensures CollisionFree(h, {IdentityText(a), IdentityText(b)}) && Key(h, a) == Key(h, b) ==>
              Commits(required, a) == Commits(required, b)
  {
    hide WellFormedMaterial, MaterialArgs, SamePin, IdentityText, CollisionFree;
    if CollisionFree(h, {IdentityText(a), IdentityText(b)}) && Key(h, a) == Key(h, b) {
      KeyExact(h, a, b);
      forall i | 0 <= i < |a.compute| ensures a.compute[i].fn == b.compute[i].fn {
        assert SameStep(a.compute[i], b.compute[i]);
      }
    }
  }

  /** The same statement with another approval, or none. */
  function Reapproved(s: Step, approval: Option<Json>): Step {
    if s.fn != ATTEST then s
    else s.(args := Without(s.args, APPROVAL) + (if approval.Some? then [Member(APPROVAL, approval.value)] else []))
  }

  lemma {:induction false} WithoutConcat(ms: seq<Member>, ns: seq<Member>, key: string)
    ensures Without(ms + ns, key) == Without(ms, key) + Without(ns, key)
    decreases |ms|
  {
    if ms == [] {
      assert ms + ns == ns;
    } else {
      assert (ms + ns)[1..] == ms[1..] + ns;
      WithoutConcat(ms[1..], ns, key);
    }
  }

  lemma {:induction false} WithoutTwice(ms: seq<Member>, key: string)
    ensures Without(Without(ms, key), key) == Without(ms, key)
    decreases |ms|
  {
    if ms != [] {
      WithoutTwice(ms[1..], key);
      var rest := Without(ms[1..], key);
      if ms[0].key != key { assert ([ms[0]] + rest)[1..] == rest; } else { assert [] + rest == rest; }
    }
  }

  /** An approval does not change what it approves: with any approval, or none, the key is the same. */
  lemma ApprovalKeepsKey(h: Hash, m: Material, k: nat, approval: Option<Json>)
    requires k < |m.compute|
    ensures Key(h, m.(compute := m.compute[k := Reapproved(m.compute[k], approval)])) == Key(h, m)
  {
    var s := m.compute[k];
    var t := Reapproved(s, approval);
    if s.fn == ATTEST {
      WithoutConcat(Without(s.args, APPROVAL), t.args[|Without(s.args, APPROVAL)|..], APPROVAL);
      WithoutTwice(s.args, APPROVAL);
      assert t.args == Without(s.args, APPROVAL) + t.args[|Without(s.args, APPROVAL)|..];
    }
    assert MaterialArgs(t) == MaterialArgs(s);
    hide MaterialArgs;
    StepReplaced(m.compute, k, t);
  }

  lemma {:induction false} StepReplaced(steps: seq<Step>, k: nat, t: Step)
    requires k < |steps| && StepJson(t) == StepJson(steps[k])
    ensures StepsJson(steps[k := t]) == StepsJson(steps)
    decreases |steps|
  {
    hide StepJson;
    if k > 0 {
      StepReplaced(steps[1..], k - 1, t);
      assert steps[k := t][1..] == steps[1..][k - 1 := t];
    } else {
      assert steps[k := t][1..] == steps[1..];
    }
  }
}
