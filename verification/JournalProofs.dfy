/** What a verifying journal, a checkpoint and an inclusion proof bind.

    Every result holds for each digest function that does not collide on the finitely many texts
    that were hashed to build the objects it is about. */
module JournalProofs {
  import opened CanonicalJson
  import opened CanonicalProofs
  import opened Journal
  import opened JsonStrings

  ghost predicate Collide(h: Hash, x: string, y: string) {
    x != y && h(x) == h(y)
  }

  ghost predicate CollisionFree(h: Hash, texts: set<string>) {
    forall x, y {:trigger Collide(h, x, y)} :: x in texts && y in texts ==> !Collide(h, x, y)
  }

  /** The texts hashed along a chain. */
  ghost function ChainTexts(list: seq<Entry>): set<string> {
    set e | e in list :: ChainText(e.prev, e.kind, e.body)
  }

  /** The same record: type, body up to member order, and place in the chain. */
  ghost predicate SameRecord(a: Entry, b: Entry) {
    a.kind == b.kind && Equiv(a.body, b.body) && a.prev == b.prev && a.digest == b.digest
  }

  ghost predicate SameRecords(xs: seq<Entry>, ys: seq<Entry>) {
    |xs| == |ys| && forall i :: 0 <= i < |xs| ==> SameRecord(xs[i], ys[i])
  }

  /* ---------- the chain ---------- */

  lemma HeadSized(h: Hash, list: seq<Entry>)
    requires DigestSized(h) && ChainValid(h, list)
    ensures |HeadOf(list)| == DIGEST_LENGTH
  {
    if list != [] { assert LinkHolds(h, list, |list| - 1); }
  }

  lemma ValidPrefix(h: Hash, list: seq<Entry>, n: nat)
    requires ChainValid(h, list) && n <= |list|
    ensures ChainValid(h, list[..n])
  {
    forall i | 0 <= i < n ensures LinkHolds(h, list[..n], i) {
      assert list[..n][..i] == list[..i];
      assert LinkHolds(h, list, i);
    }
  }

  /** Equal digests of two entries mean the same predecessor digest and the same record. */
  lemma LinkBinds(h: Hash, texts: set<string>, a: Entry, b: Entry)
    requires CollisionFree(h, texts)
    requires ChainText(a.prev, a.kind, a.body) in texts && ChainText(b.prev, b.kind, b.body) in texts
    requires WellFormed(a.body) && WellFormed(b.body) && |a.prev| == |b.prev|
    requires h(ChainText(a.prev, a.kind, a.body)) == h(ChainText(b.prev, b.kind, b.body))
    ensures a.prev == b.prev && a.kind == b.kind && Equiv(a.body, b.body)
  {
    assert !Collide(h, ChainText(a.prev, a.kind, a.body), ChainText(b.prev, b.kind, b.body));
    SameLength(a.prev, b.prev, Canonical(Envelope(a.kind, a.body)), Canonical(Envelope(b.kind, b.body)));
    EnvelopeExact(a.kind, a.body, b.kind, b.body);
  }

  /** Two verifying journals with the same length and the same head hold the same records throughout. */
  lemma {:induction false} ChainBinding(h: Hash, xs: seq<Entry>, ys: seq<Entry>)
    requires DigestSized(h) && CollisionFree(h, ChainTexts(xs) + ChainTexts(ys))
    requires ChainValid(h, xs) && ChainValid(h, ys)
    requires BodiesWellFormed(xs) && BodiesWellFormed(ys)
    requires |xs| == |ys| && HeadOf(xs) == HeadOf(ys)
    ensures SameRecords(xs, ys)
    decreases |xs|
  {
    if xs != [] {
      var n := |xs| - 1;
      assert LinkHolds(h, xs, n) && LinkHolds(h, ys, n);
      ValidPrefix(h, xs, n);
      ValidPrefix(h, ys, n);
      HeadSized(h, xs[..n]);
      HeadSized(h, ys[..n]);
      LinkBinds(h, ChainTexts(xs) + ChainTexts(ys), xs[n], ys[n]);
      ChainBinding(h, xs[..n], ys[..n]);
      SameRecordsSnoc(xs, ys, n);
    }
  }

  lemma SameRecordsSnoc(xs: seq<Entry>, ys: seq<Entry>, n: nat)
    requires |xs| == |ys| == n + 1
    requires SameRecords(xs[..n], ys[..n]) && SameRecord(xs[n], ys[n])
    ensures SameRecords(xs, ys)
  {
    forall i | 0 <= i < |xs| ensures SameRecord(xs[i], ys[i]) {
      if i < n { assert SameRecord(xs[..n][i], ys[..n][i]); }
    }
  }

  /** Re-chaining the same records from the same point gives the same digests. */
  lemma {:induction false} SameContentSameHead(h: Hash, xs: seq<Entry>, ys: seq<Entry>)
    requires ChainValid(h, xs) && ChainValid(h, ys)
    requires BodiesWellFormed(xs) && BodiesWellFormed(ys) && |xs| == |ys|
    requires forall i :: 0 <= i < |xs| ==> xs[i].kind == ys[i].kind && Equiv(xs[i].body, ys[i].body)
    ensures HeadOf(xs) == HeadOf(ys)
    decreases |xs|
  {
    if xs != [] {
      var n := |xs| - 1;
      assert LinkHolds(h, xs, n) && LinkHolds(h, ys, n);
      ValidPrefix(h, xs, n);
      ValidPrefix(h, ys, n);
      SameContentSameHead(h, xs[..n], ys[..n]);
      EnvelopeExact(xs[n].kind, xs[n].body, ys[n].kind, ys[n].body);
    }
  }

  /** A checkpoint taken over `original` accepts a verifying journal exactly when that journal starts
      with the records of `original`: an edit, insertion, deletion, reorder or truncation anywhere
      before the checkpoint is refused, and growth after it is not. */
  lemma CheckpointExact(h: Hash, original: seq<Entry>, now: seq<Entry>)
    requires DigestSized(h) && CollisionFree(h, ChainTexts(original) + ChainTexts(now))
    requires ChainValid(h, original) && ChainValid(h, now)
    requires BodiesWellFormed(original) && BodiesWellFormed(now)
    ensures CheckpointHolds(now, Checkpoint(HeadOf(original), |original|))
            <==> |original| <= |now| && SameRecords(original, now[..|original|])
  {
    var n := |original|;
    if n <= |now| {
      ValidPrefix(h, now, n);
      if HeadOf(now[..n]) == HeadOf(original) {
        assert ChainTexts(now[..n]) <= ChainTexts(now);
        ChainBinding(h, original, now[..n]);
      }
      if SameRecords(original, now[..n]) {
        forall i | 0 <= i < n
          ensures original[i].kind == now[..n][i].kind && Equiv(original[i].body, now[..n][i].body)
        {
          assert SameRecord(original[i], now[..n][i]);
        }
        SameContentSameHead(h, original, now[..n]);
      }
    }
  }

  /** Without a checkpoint, a truncated journal verifies: this is what checkpoints are for. */
  lemma TruncationNeedsCheckpoint(h: Hash, list: seq<Entry>, n: nat)
    requires DigestSized(h) && ChainValid(h, list) && BodiesWellFormed(list) && n < |list|
    ensures ChainValid(h, list[..n])
    ensures !CheckpointHolds(list[..n], Checkpoint(HeadOf(list), |list|))
  {
    ValidPrefix(h, list, n);
  }

  /** The digest covers prev, type and body only: verification never looks at sequence numbers, so
      it accepts a journal under any renumbering. */
  lemma SequenceNumbersUncovered(h: Hash, list: seq<Entry>, renumbered: seq<Entry>)
    requires |list| == |renumbered|
    requires forall i :: 0 <= i < |list| ==> renumbered[i] == list[i].(seqno := renumbered[i].seqno)
    ensures ChainValid(h, list) <==> ChainValid(h, renumbered)
  {
    forall i | 0 <= i < |list| ensures LinkHolds(h, list, i) <==> LinkHolds(h, renumbered, i) {
      assert HeadOf(list[..i]) == HeadOf(renumbered[..i]);
    }
  }

  /* ---------- inclusion proofs ---------- */

  /** One step takes a node to its parent, or nowhere when the node is promoted. */
  lemma StepClimbs(h: Hash, level: seq<string>, i: nat, rest: seq<Step>)
    requires i < |level| && |level| > 1
    ensures Climb(h, level[i], StepAt(level, i) + rest) == Climb(h, NodeAt(h, level, i / 2), rest)
  {
    assert i % 2 == 0 ==> 2 * (i / 2) == i;
    assert i % 2 == 1 ==> 2 * (i / 2) + 1 == i;
    var steps := StepAt(level, i) + rest;
    if Sibling(i) < |level| {
      assert steps[0] == StepAt(level, i)[0] && steps[1..] == rest;
    } else {
      assert steps == rest;
    }
  }

  /** A proof made for leaf i climbs from it to the root, whatever the number of leaves. */
  lemma {:induction false} ProofClimbs(h: Hash, leaves: seq<string>, i: nat)
    requires i < |leaves|
    ensures Climb(h, leaves[i], ProofSteps(h, leaves, i)) == MerkleRoot(h, leaves)
    decreases |leaves|
  {
    if |leaves| > 1 {
      var next := NextLevel(h, leaves);
      ProofClimbs(h, next, i / 2);
      assert next[i / 2] == NodeAt(h, leaves, i / 2);
      StepClimbs(h, leaves, i, ProofSteps(h, next, i / 2));
    }
  }

  /** Every entry of every journal can be proved against the journal's root. */
  lemma InclusionComplete(h: Hash, list: seq<Entry>, i: nat)
    requires i < |list|
    ensures var p := ProofFor(h, list, i); Climb(h, p.leaf, p.proof) == p.root
    ensures ProofFor(h, list, i).leaf == list[i].digest
  {
    ProofClimbs(h, Digests(list), i);
  }

  ghost predicate SamePositions(p: seq<Step>, q: seq<Step>) {
    |p| == |q| && forall i :: 0 <= i < |p| ==> p[i].position == q[i].position
  }

  /** The texts hashed while climbing a proof. */
  ghost function ClimbTexts(h: Hash, acc: string, proof: seq<Step>): set<string>
    decreases |proof|
  {
    if proof == [] then {}
    else {StepText(acc, proof[0])} + ClimbTexts(h, h(StepText(acc, proof[0])), proof[1..])
  }

  /** Two leaves that reach the same root through the same positions are the same leaf, and their
      proofs the same proof, exactly when the leaves have one length; the lengths of the steps follow. */
  lemma {:induction false} InclusionBinds(h: Hash, leaf: string, proof: seq<Step>, leaf': string, proof': seq<Step>)
    requires DigestSized(h) && SamePositions(proof, proof')
    requires CollisionFree(h, ClimbTexts(h, leaf, proof) + ClimbTexts(h, leaf', proof'))
    requires Climb(h, leaf, proof) == Climb(h, leaf', proof')
    ensures leaf == leaf' && proof == proof' <==> |leaf| == |leaf'|
    decreases |proof|
  {
    if proof != [] && |leaf| == |leaf'| {
      var x, y := StepText(leaf, proof[0]), StepText(leaf', proof'[0]);
      assert x in ClimbTexts(h, leaf, proof) && y in ClimbTexts(h, leaf', proof');
      InclusionBinds(h, h(x), proof[1..], h(y), proof'[1..]);
      assert !Collide(h, x, y);
      StepBinds(leaf, proof[0], leaf', proof'[0]);
      assert proof == [proof[0]] + proof[1..] && proof' == [proof'[0]] + proof'[1..];
    }
  }

  lemma StepBinds(leaf: string, step: Step, leaf': string, step': Step)
    requires StepText(leaf, step) == StepText(leaf', step') && step.position == step'.position && |leaf| == |leaf'|
    ensures leaf == leaf' && step == step'
  {
    if step.position.Left? {
      SameLength(step.digest, step'.digest, leaf, leaf');
    } else {
      SameLength(leaf, leaf', step.digest, step'.digest);
    }
  }

  /** The step that stands nearest the leaf, one character shorter, and the leaf with that character. */
  function Shorter(step: Step): Step
    requires step.digest != ""
  {
    Step(step.position, if step.position.Left? then step.digest[..|step.digest| - 1] else step.digest[1..])
  }

  function Longer(leaf: string, step: Step): string
    requires step.digest != ""
  {
    if step.position.Left? then step.digest[|step.digest| - 1..] + leaf else leaf + step.digest[..1]
  }

  /** verifyInclusion does not look at lengths, and every proof with a step to move a character from
      shows it: the leaf that takes the character over reaches the same root through the same positions. */
  lemma LengthsMatter(h: Hash, leaf: string, step: Step, rest: seq<Step>)
    requires step.digest != ""
    ensures var other, moved := Longer(leaf, step), [Shorter(step)] + rest;
            && other != leaf && SamePositions([step] + rest, moved)
            && Climb(h, other, moved) == Climb(h, leaf, [step] + rest)
  {
    var other, moved := Longer(leaf, step), [Shorter(step)] + rest;
    assert |other| == |leaf| + 1;
    var n := |step.digest|;
    assert step.digest == step.digest[..n - 1] + step.digest[n - 1..] == step.digest[..1] + step.digest[1..];
    assert StepText(other, Shorter(step)) == StepText(leaf, step);
    assert ([step] + rest)[1..] == rest && moved[1..] == rest;
  }

  ghost predicate LeavesSized(leaves: seq<string>) {
    forall i :: 0 <= i < |leaves| ==> |leaves[i]| == DIGEST_LENGTH
  }

  /** The texts hashed to build one level, and to build a whole tree. */
  ghost function PairTexts(level: seq<string>): set<string> {
    set j | 0 <= j < |level| / 2 :: PairText(level, j)
  }

  ghost function PairText(level: seq<string>, j: nat): string
    requires j < |level| / 2
  {
    level[2 * j] + level[2 * j + 1]
  }

  ghost function TreeTexts(h: Hash, level: seq<string>): set<string>
    decreases |level|
  {
    if |level| <= 1 then {} else PairTexts(level) + TreeTexts(h, NextLevel(h, level))
  }

  /** The same parent node means the same children. */
  lemma NodeBinds(h: Hash, xs: seq<string>, ys: seq<string>, j: nat)
    requires LeavesSized(xs) && LeavesSized(ys) && |xs| == |ys| && j < (|xs| + 1) / 2
    requires CollisionFree(h, PairTexts(xs) + PairTexts(ys))
    requires NodeAt(h, xs, j) == NodeAt(h, ys, j)
    ensures xs[2 * j] == ys[2 * j] && (2 * j + 1 < |xs| ==> xs[2 * j + 1] == ys[2 * j + 1])
  {
    if 2 * j + 1 < |xs| {
      assert PairText(xs, j) in PairTexts(xs) && PairText(ys, j) in PairTexts(ys);
      assert !Collide(h, PairText(xs, j), PairText(ys, j));
      SameLength(xs[2 * j], ys[2 * j], xs[2 * j + 1], ys[2 * j + 1]);
    }
  }

  lemma LevelBinds(h: Hash, xs: seq<string>, ys: seq<string>)
    requires LeavesSized(xs) && LeavesSized(ys) && |xs| == |ys|
    requires CollisionFree(h, PairTexts(xs) + PairTexts(ys))
    requires NextLevel(h, xs) == NextLevel(h, ys)
    ensures xs == ys
  {
    forall i | 0 <= i < |xs| ensures xs[i] == ys[i] {
      var j := i / 2;
      assert NodeAt(h, xs, j) == NextLevel(h, xs)[j] == NextLevel(h, ys)[j] == NodeAt(h, ys, j);
      NodeBinds(h, xs, ys, j);
      assert i == 2 * j || i == 2 * j + 1;
    }
  }

  lemma NextLevelSized(h: Hash, xs: seq<string>)
    requires DigestSized(h) && LeavesSized(xs)
    ensures LeavesSized(NextLevel(h, xs))
  {
    var next := NextLevel(h, xs);
    forall i | 0 <= i < |next| ensures |next[i]| == DIGEST_LENGTH {
      assert next[i] == NodeAt(h, xs, i);
    }
  }

  lemma CollisionFreeSubset(h: Hash, texts: set<string>, fewer: set<string>)
    requires CollisionFree(h, texts) && fewer <= texts
    ensures CollisionFree(h, fewer)
  {
  }

  /** Equal roots over equally many leaves force equal leaves. */
  lemma {:induction false} MerkleBinds(h: Hash, xs: seq<string>, ys: seq<string>)
    requires DigestSized(h) && LeavesSized(xs) && LeavesSized(ys) && |xs| == |ys|
    ensures CollisionFree(h, TreeTexts(h, xs) + TreeTexts(h, ys)) ==>
              (MerkleRoot(h, xs) == MerkleRoot(h, ys) <==> xs == ys)
    decreases |xs|
  {
    var texts := TreeTexts(h, xs) + TreeTexts(h, ys);
    if CollisionFree(h, texts) && |xs| > 1 && MerkleRoot(h, xs) == MerkleRoot(h, ys) {
      var xs', ys' := NextLevel(h, xs), NextLevel(h, ys);
      NextLevelSized(h, xs);
      NextLevelSized(h, ys);
      CollisionFreeSubset(h, texts, TreeTexts(h, xs') + TreeTexts(h, ys'));
      MerkleBinds(h, xs', ys');
      CollisionFreeSubset(h, texts, PairTexts(xs) + PairTexts(ys));
      LevelBinds(h, xs, ys);
    }
  }

  lemma EntryDigestsSized(h: Hash, list: seq<Entry>)
    requires DigestSized(h) && ChainValid(h, list)
    ensures LeavesSized(Digests(list))
  {
    forall i | 0 <= i < |list| ensures |Digests(list)[i]| == DIGEST_LENGTH {
      assert LinkHolds(h, list, i);
    }
  }

  lemma SameDigestsSameHead(xs: seq<Entry>, ys: seq<Entry>)
    requires Digests(xs) == Digests(ys)
    ensures |xs| == |ys| && HeadOf(xs) == HeadOf(ys)
  {
    assert |Digests(xs)| == |Digests(ys)|;
    if xs != [] { assert Digests(xs)[|xs| - 1] == Digests(ys)[|xs| - 1]; }
  }

  /** No collision among the texts hashed for two chains and their trees. */
  ghost predicate TreesCollisionFree(h: Hash, xs: seq<Entry>, ys: seq<Entry>) {
    && CollisionFree(h, TreeTexts(h, Digests(xs)) + TreeTexts(h, Digests(ys)))
    && CollisionFree(h, ChainTexts(xs) + ChainTexts(ys))
  }

  /** Journals with the same Merkle root and length hold the same records. */
  lemma JournalRootBinds(h: Hash, xs: seq<Entry>, ys: seq<Entry>)
    requires DigestSized(h) && ChainValid(h, xs) && ChainValid(h, ys)
    requires BodiesWellFormed(xs) && BodiesWellFormed(ys) && |xs| == |ys|
    ensures TreesCollisionFree(h, xs, ys) && MerkleRoot(h, Digests(xs)) == MerkleRoot(h, Digests(ys)) ==>
              SameRecords(xs, ys)
  {
    EntryDigestsSized(h, xs);
    EntryDigestsSized(h, ys);
    hide ChainValid, BodiesWellFormed, MerkleRoot, TreeTexts, ChainTexts, CollisionFree, SameRecords, LeavesSized;
    if TreesCollisionFree(h, xs, ys) && MerkleRoot(h, Digests(xs)) == MerkleRoot(h, Digests(ys)) {
      MerkleBinds(h, Digests(xs), Digests(ys));
      SameDigestsSameHead(xs, ys);
      ChainBinding(h, xs, ys);
    }
  }

  /* ---------- the text under a digest ---------- */

  /** What an appended entry is: the next sequence number, the last digest before it or 64 zeros, and the digest
      of that followed by the type and body as one compact object. */
  lemma RecordText(h: Hash, list: seq<Entry>, kind: string, body: Json)
    ensures var e := NextEntry(h, list, kind, body);
            && e.seqno == |list| && e.kind == kind && e.body == body
            && (list != [] ==> e.prev == list[|list| - 1].digest)
            && (list == [] ==> e.prev == "0000000000000000000000000000000000000000000000000000000000000000")
            && e.digest == h(e.prev + ("{\"body\":" + Canonical(body) + ",\"type\":" + Quote(kind) + "}"))
  {
    EnvelopeText(kind, body);
    hide Canonical, Quote;
  }
}
