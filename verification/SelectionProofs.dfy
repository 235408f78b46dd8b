/** Which traces a statement reads as context (src/runtime.js:228-245). */
module SelectionProofs {
  import opened CanonicalJson
  import opened Options
  import opened TraceStore

  /** The trace may be read: it is the asker's own, for the same intent and, if asked, the same boundary; an
      inference only within the depth cap and while what its reuses leave of its confidence is at the floor or
      above; and of the class that is asked for. */
  ghost predicate Admissible(c: Config, s: Store, x: Context, who: Asker, b: Json) {
    var t := c.view(b);
    var cap := match x.maxDepth case Some(d) => d case None => c.settings.maxDepth;
    var reused := if t.id in s.reuse then s.reuse[t.id] else t.reuseCount;
    && t.actor == who.actor && t.intent == who.intent && (x.boundaryExact ==> t.boundary == who.boundary)
    && (t.attestation == Ai ==>
          !x.requireAttested && t.depth <= cap && t.confidence * Power(c.settings.decay, reused) >= c.settings.floor)
    && (x.mode == Attested ==> t.attestation == Human)
  }

  /** Positions, in order, of admissible traces. */
  ghost predicate AllAdmissible(c: Config, s: Store, x: Context, who: Asker, at: seq<int>) {
    && (forall i :: 0 <= i < |at| ==> 0 <= at[i] < |s.traces| && Admissible(c, s, x, who, s.traces[at[i]]))
    && forall i, j :: 0 <= i < j < |at| ==> at[i] < at[j]
  }

  /** The selection is the traces at these positions: the newest admissible ones, and no more than were asked
      for; and if any admissible one is left out, exactly as many. */
  ghost predicate IsNewest(c: Config, s: Store, x: Context, who: Asker, at: seq<int>, selected: seq<Json>) {
    && AllAdmissible(c, s, x, who, at) && |selected| == |at|
    && (forall i :: 0 <= i < |at| ==> selected[i] == s.traces[at[i]])
    && |at| <= (if x.n > 0 then x.n else 0)
    && forall k :: 0 <= k < |s.traces| && Admissible(c, s, x, who, s.traces[k]) && k !in at ==>
         |at| == (if x.n > 0 then x.n else 0) && forall i :: 0 <= i < |at| ==> k < at[i]
  }

  /** The positions of the pool. */
  ghost function Positions(c: Config, s: Store, x: Context, who: Asker, n: nat): seq<int>
    requires n <= |s.traces|
  {
    if n == 0 then []
    else Positions(c, s, x, who, n - 1) + (if Admissible(c, s, x, who, s.traces[n - 1]) then [n - 1] else [])
  }

  lemma FitsMeans(c: Config, s: Store, x: Context, who: Asker, b: Json)
    ensures Fits(c.settings, s.reuse, x, who, c.view(b)) <==> Admissible(c, s, x, who, b)
  {
    hide Power;
  }

  lemma {:induction false} PositionsExact(c: Config, s: Store, x: Context, who: Asker, n: nat)
    requires n <= |s.traces|
    ensures var at := Positions(c, s, x, who, n);
            && AllAdmissible(c, s, x, who, at) && (forall i :: 0 <= i < |at| ==> at[i] < n)
            && forall k :: 0 <= k < n && Admissible(c, s, x, who, s.traces[k]) ==> k in at
    decreases n
  {
    hide Admissible;
    if n > 0 { PositionsExact(c, s, x, who, n - 1); }
  }

  lemma {:induction false} PoolPositions(c: Config, s: Store, x: Context, who: Asker, n: nat)
    requires n <= |s.traces|
    ensures var at, pool := Positions(c, s, x, who, n), Pool(c, s.reuse, x, who, s.traces[..n]);
            |pool| == |at| && forall i :: 0 <= i < |at| ==> 0 <= at[i] < |s.traces| && pool[i] == s.traces[at[i]]
    decreases n
  {
    hide Fits, Admissible;
    if n > 0 {
      PoolPositions(c, s, x, who, n - 1);
      FitsMeans(c, s, x, who, s.traces[n - 1]);
      assert s.traces[..n][..n - 1] == s.traces[..n - 1];
    }
  }

  /** What a selection takes of all admissible positions. */
  ghost predicate Everything(c: Config, s: Store, x: Context, who: Asker, all: seq<int>) {
    && AllAdmissible(c, s, x, who, all)
    && forall k :: 0 <= k < |s.traces| && Admissible(c, s, x, who, s.traces[k]) ==> k in all
  }

  lemma TailIsNewest(c: Config, s: Store, x: Context, who: Asker, all: seq<int>, k: nat, selected: seq<Json>)
    requires Everything(c, s, x, who, all) && k <= |all| && |selected| == |all| - k
    requires forall i :: 0 <= i < |selected| ==> 0 <= all[k + i] < |s.traces| && selected[i] == s.traces[all[k + i]]
    requires |all| - k <= (if x.n > 0 then x.n else 0) && (k > 0 ==> |all| - k == if x.n > 0 then x.n else 0)
    ensures IsNewest(c, s, x, who, all[k..], selected)
  {
    hide Admissible;
    var at := all[k..];
    assert forall i :: k <= i < |all| ==> at[i - k] == all[i];
    forall j | 0 <= j < |s.traces| && Admissible(c, s, x, who, s.traces[j]) && j !in at
      ensures k > 0 && forall i :: 0 <= i < |at| ==> j < at[i]
    {
      var i :| 0 <= i < |all| && all[i] == j;
    }
  }

  /** The selection is the newest admissible traces, oldest first, as many as asked for or as many as there are;
      none when none are asked for. */
  lemma SelectionExact(c: Config, s: Store, x: Context, who: Asker)
    ensures exists at :: IsNewest(c, s, x, who, at, Selection(c, s, x, who))
  {
    hide Admissible, IsNewest, Pool, Positions, AllAdmissible;
    var n := |s.traces|;
    var all, pool := Positions(c, s, x, who, n), Pool(c, s.reuse, x, who, s.traces);
    PositionsExact(c, s, x, who, n);
    PoolPositions(c, s, x, who, n);
    assert s.traces[..n] == s.traces;
    var k := if x.n <= 0 then |all| else if x.n >= |all| then 0 else |all| - x.n;
    SelectionIs(c, s, x, who, k);
    TailIsNewest(c, s, x, who, all, k, pool[k..]);
  }

  lemma SelectionIs(c: Config, s: Store, x: Context, who: Asker, k: nat)
    requires var pool := Pool(c, s.reuse, x, who, s.traces);
             k == if x.n <= 0 then |pool| else if x.n >= |pool| then 0 else |pool| - x.n
    ensures var pool := Pool(c, s.reuse, x, who, s.traces);
            k <= |pool| && Selection(c, s, x, who) == pool[k..]
  {
    hide Pool;
  }
}
