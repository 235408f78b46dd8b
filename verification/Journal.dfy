/** The hash-chained journal of src/store.js. */
module Journal {
  /* Append, pending and durable entries, rollback, verification against a checkpoint, and Merkle
     inclusion proofs.

     The digest function is a parameter `h` with 64-character outputs. Nothing else is assumed of it
     here; the binding results in JournalProofs name the texts on which it must not collide. */

  import opened CanonicalJson
  import opened CanonicalProofs
  import opened Options

  type Hash = string -> string

  const DIGEST_LENGTH := 64

  const GENESIS: string := "0000000000000000000000000000000000000000000000000000000000000000"

  ghost predicate DigestSized(h: Hash) {
    forall s :: |h(s)| == DIGEST_LENGTH
  }

  datatype Entry = Entry(seqno: int, kind: string, body: Json, prev: string, digest: string)

  datatype Checkpoint = Checkpoint(head: string, length: nat)

  /** The text whose digest an entry carries. The sequence number is not part of it. */
  function ChainText(prev: string, kind: string, body: Json): string {
    prev + Canonical(Envelope(kind, body))
  }

  function HeadOf(list: seq<Entry>): string {
    if list == [] then GENESIS else list[|list| - 1].digest
  }

  /** Entry i follows the entries before it and reproduces its digest. */
  ghost predicate LinkHolds(h: Hash, list: seq<Entry>, i: nat)
    requires i < |list|
  {
    && list[i].prev == HeadOf(list[..i])
    && list[i].digest == h(ChainText(list[i].prev, list[i].kind, list[i].body))
  }

  ghost predicate ChainValid(h: Hash, list: seq<Entry>) {
    forall i :: 0 <= i < |list| ==> LinkHolds(h, list, i)
  }

  ghost predicate SeqIsIndex(list: seq<Entry>) {
    forall i :: 0 <= i < |list| ==> list[i].seqno == i
  }

  /** Every journaled body is a JSON value. */
  ghost predicate BodiesWellFormed(list: seq<Entry>) {
    forall e :: e in list ==> WellFormed(e.body)
  }

  ghost predicate Sound(h: Hash, list: seq<Entry>) {
    ChainValid(h, list) && SeqIsIndex(list) && BodiesWellFormed(list)
  }

  ghost predicate CheckpointHolds(list: seq<Entry>, c: Checkpoint) {
    c.length <= |list| && HeadOf(list[..c.length]) == c.head
  }

  /* ---------- the journal as a value ---------- */

  datatype Backend = Memory | File | WriteBehind

  /** What a journal object holds. `pending` is the write-behind queue. */
  datatype State = State(list: seq<Entry>, durable: nat, pending: seq<Entry>)

  function NextEntry(h: Hash, list: seq<Entry>, kind: string, body: Json): Entry {
    Entry(|list|, kind, body, HeadOf(list), h(ChainText(HeadOf(list), kind, body)))
  }

  function Appended(h: Hash, backend: Backend, s: State, kind: string, body: Json): State {
    var e := NextEntry(h, s.list, kind, body);
    if backend.WriteBehind? then State(s.list + [e], s.durable, s.pending + [e])
    else State(s.list + [e], if s.durable == |s.list| then |s.list| + 1 else s.durable, s.pending)
  }

  /** Pending entries leave the chain. */
  function RolledBack(s: State): State
    requires s.durable <= |s.list|
  {
    State(s.list[..s.durable], s.durable, [])
  }

  function Flushed(s: State): State {
    State(s.list, |s.list|, [])
  }

  /** How the shared table answers one flush. */
  datatype Reply = SelectFails | Selected(head: Option<string>, inserted: bool)

  predicate FlushLands(s: State, reply: Reply) {
    s.pending == []
      || (reply.Selected? && reply.inserted
          && s.pending[0].prev == (if reply.head.Some? then reply.head.value else GENESIS))
  }

  /** What holds of a journal object between calls: the chain verifies, and what is not durable is
      exactly what is queued. */
  ghost predicate Consistent(h: Hash, s: State) {
    && Sound(h, s.list)
    && s.durable <= |s.list|
    && s.pending == s.list[s.durable..]
  }

  lemma SoundExtend(h: Hash, list: seq<Entry>, kind: string, body: Json)
    requires Sound(h, list) && WellFormed(body)
    ensures Sound(h, list + [NextEntry(h, list, kind, body)])
  {
    var e := NextEntry(h, list, kind, body);
    var grown := list + [e];
    forall i | 0 <= i < |grown| ensures LinkHolds(h, grown, i) {
      if i < |list| {
        assert grown[..i] == list[..i];
        assert LinkHolds(h, list, i);
      } else {
        assert grown[..i] == list;
      }
    }
  }

  lemma LinksBefore(h: Hash, list: seq<Entry>, n: nat)
    requires n <= |list| && forall k :: 0 <= k < n ==> LinkHolds(h, list, k)
    ensures ChainValid(h, list[..n])
  {
    forall i | 0 <= i < n ensures LinkHolds(h, list[..n], i) {
      assert list[..n][..i] == list[..i];
      assert LinkHolds(h, list, i);
    }
  }

  lemma SoundPrefix(h: Hash, list: seq<Entry>, n: nat)
    requires Sound(h, list) && n <= |list|
    ensures Sound(h, list[..n])
  {
    LinksBefore(h, list, n);
  }

  /** Every operation on a journal object keeps it consistent. */
  lemma OperationsKeepConsistent(h: Hash, backend: Backend, s: State, kind: string, body: Json)
    requires Consistent(h, s) && WellFormed(body)
    ensures Consistent(h, RolledBack(s)) && Consistent(h, Flushed(s))
    ensures backend.WriteBehind? || s.durable == |s.list| ==> Consistent(h, Appended(h, backend, s, kind, body))
  {
    SoundExtend(h, s.list, kind, body);
    SoundPrefix(h, s.list, s.durable);
    var e := NextEntry(h, s.list, kind, body);
    assert (s.list + [e])[s.durable..] == s.list[s.durable..] + [e];
    if s.durable == |s.list| { assert (s.list + [e])[|s.list| + 1..] == []; }
  }

  /* ---------- Merkle trees over entry digests ---------- */

  datatype Side = Left | Right

  datatype Step = Step(position: Side, digest: string)

  /** Pairs are hashed together; an odd last node is promoted unpaired. */
  function NextLevel(h: Hash, level: seq<string>): (next: seq<string>)
    ensures |next| == (|level| + 1) / 2
    ensures forall j {:trigger next[j]} :: 0 <= j < |next| ==> next[j] == NodeAt(h, level, j)
  {
    if |level| <= 1 then level else [h(level[0] + level[1])] + NextLevel(h, level[2..])
  }

  /** Node j of the level above. */
  function NodeAt(h: Hash, level: seq<string>, j: nat): string
    requires j < (|level| + 1) / 2
  {
    if 2 * j + 1 < |level| then h(level[2 * j] + level[2 * j + 1]) else level[2 * j]
  }

  function MerkleRoot(h: Hash, leaves: seq<string>): string
    decreases |leaves|
  {
    if leaves == [] then GENESIS
    else if |leaves| == 1 then leaves[0]
    else MerkleRoot(h, NextLevel(h, leaves))
  }

  function Sibling(i: nat): int {
    if i % 2 == 0 then i + 1 else i - 1
  }

  /** The proof step a level contributes for node i: none where the node is promoted unpaired. */
  function StepAt(level: seq<string>, i: nat): seq<Step>
    requires i < |level|
  {
    if Sibling(i) < |level| then [Step(if i % 2 == 0 then Right else Left, level[Sibling(i)])] else []
  }

  function ProofSteps(h: Hash, level: seq<string>, i: nat): seq<Step>
    requires i < |level|
    decreases |level|
  {
    if |level| == 1 then [] else StepAt(level, i) + ProofSteps(h, NextLevel(h, level), i / 2)
  }

  lemma ProofUnfold(h: Hash, level: seq<string>, i: nat, before: seq<Step>)
    requires i < |level| && |level| > 1
    ensures before + ProofSteps(h, level, i) == (before + StepAt(level, i)) + ProofSteps(h, NextLevel(h, level), i / 2)
  {
  }

  /** The text hashed at one step of a proof. */
  function StepText(acc: string, step: Step): string {
    if step.position.Left? then step.digest + acc else acc + step.digest
  }

  function Climb(h: Hash, acc: string, proof: seq<Step>): string
    decreases |proof|
  {
    if proof == [] then acc else Climb(h, h(StepText(acc, proof[0])), proof[1..])
  }

  function Digests(list: seq<Entry>): (ds: seq<string>)
    ensures |ds| == |list|
    ensures forall i :: 0 <= i < |list| ==> ds[i] == list[i].digest
  {
    if list == [] then [] else [list[0].digest] + Digests(list[1..])
  }

  /** What inclusionProof returns for the entry at index i. */
  function ProofFor(h: Hash, list: seq<Entry>, i: nat): Inclusion
    requires i < |list|
  {
    Inclusion(list[i].seqno, list[i].digest, ProofSteps(h, Digests(list), i), MerkleRoot(h, Digests(list)))
  }

  ghost predicate FirstWithSeq(list: seq<Entry>, i: nat, n: int)
    requires i < |list|
  {
    list[i].seqno == n && forall k :: 0 <= k < i ==> list[k].seqno != n
  }

  lemma {:induction false} ClimbSnoc(h: Hash, acc: string, proof: seq<Step>, step: Step)
    ensures Climb(h, acc, proof + [step]) == h(StepText(Climb(h, acc, proof), step))
    decreases |proof|
  {
    if proof == [] {
      assert proof + [step] == [step];
    } else {
      ClimbSnoc(h, h(StepText(acc, proof[0])), proof[1..], step);
      assert (proof + [step])[1..] == proof[1..] + [step];
    }
  }

  /* ---------- the journal object ---------- */

  datatype Verdict =
    | Verified(length: nat, head: string, durable: nat)
    | Refused(at: int)

  datatype Inclusion = Inclusion(seqno: int, leaf: string, proof: seq<Step>, root: string)

  class MemoryJournal {
    const sha256: Hash
    const backend: Backend
    const anchor: Option<Checkpoint>
    var list: seq<Entry>
    var durable: nat
    var pending: seq<Entry>

    ghost function Contents(): State
      reads this
    {
      State(list, durable, pending)
    }

    ghost predicate Valid()
      reads this
    {
      && DigestSized(sha256)
      && Consistent(sha256, Contents())
      && (!backend.WriteBehind? ==> durable == |list|)
    }

    constructor (sha256: Hash, backend: Backend, anchor: Option<Checkpoint>)
      requires DigestSized(sha256)
      ensures Valid() && Contents() == State([], 0, [])
      ensures this.sha256 == sha256 && this.backend == backend && this.anchor == anchor
    {
      this.sha256 := sha256;
      this.backend := backend;
      this.anchor := anchor;
      list, durable, pending := [], 0, [];
    }

    method Head() returns (digest: string)
      ensures digest == HeadOf(list)
    {
      digest := if |list| > 0 then list[|list| - 1].digest else GENESIS;
    }

    /** Whether the entry is durable now. A file write may fail; a write-behind entry is queued. */
    method Persist(e: Entry, diskFails: bool) returns (result: Option<bool>)
      modifies this`pending
      ensures result == if backend.File? && diskFails then None else Some(!backend.WriteBehind?)
      ensures pending == old(pending) + (if backend.WriteBehind? then [e] else [])
    {
      match backend {
        case Memory => result := Some(true);
        case File => result := if diskFails then None else Some(true);
        case WriteBehind => pending := pending + [e]; result := Some(false);
      }
    }

    /** Persist first: a failed write appends nothing. */
    method Append(kind: string, body: Json, diskFails: bool) returns (result: Option<Entry>)
      requires Valid() && WellFormed(body)
      modifies this`list, this`durable, this`pending
      ensures Valid()
      ensures backend.File? && diskFails ==> result == None && Contents() == old(Contents())
      ensures !(backend.File? && diskFails) ==>
                && result == Some(NextEntry(sha256, old(list), kind, body))
                && Contents() == Appended(sha256, backend, old(Contents()), kind, body)
    {
      var prev := Head();
      var entry := Entry(|list|, kind, body, prev, sha256(ChainText(prev, kind, body)));
      OperationsKeepConsistent(sha256, backend, Contents(), kind, body);
      var persisted := Persist(entry, diskFails);
      if persisted.None? { return None; }
      list := list + [entry];
      if persisted.value && durable == |list| - 1 { durable := |list|; }
      return Some(entry);
    }

    /** Durable entries, or the whole chain when asked; of one type, or of all. */
    method Entries(kind: Option<string>, includePending: bool) returns (out: seq<Entry>)
      requires Valid()
      ensures out == Select(kind, if includePending then list else list[..durable])
    {
      var visible := if includePending then list else list[..durable];
      if kind.None? { return visible; }
      out := [];
      var i := 0;
      while i < |visible|
        invariant 0 <= i <= |visible|
        invariant out == Select(kind, visible[..i])
      {
        assert visible[..i + 1] == visible[..i] + [visible[i]];
        if visible[i].kind == kind.value { out := out + [visible[i]]; }
        i := i + 1;
      }
      assert visible[..i] == visible;
    }

    /* D1Journal.flush, cut at its two awaits: SELECT the head, then INSERT the batch. */

    /** After the SELECT: go on to the INSERT, or roll back because the durable head moved. */
    method FlushChecked(head: Option<string>) returns (proceed: bool)
      requires Valid() && backend.WriteBehind? && pending != []
      modifies this`list, this`pending
      ensures Valid()
      ensures proceed <==> (if head.Some? then head.value else GENESIS) == old(pending[0].prev)
      ensures Contents() == if proceed then old(Contents()) else RolledBack(old(Contents()))
    {
      var durableHead := if head.Some? then head.value else GENESIS;
      proceed := durableHead == pending[0].prev;
      if !proceed { Rollback(); }
    }

    /** After the INSERT: the batch is durable, or the pending entries leave the chain. */
    method FlushDone(succeeded: bool)
      requires Valid() && backend.WriteBehind? && pending != []
      modifies this`list, this`pending, this`durable
      ensures Valid()
      ensures Contents() == if succeeded then Flushed(old(Contents())) else RolledBack(old(Contents()))
    {
      if succeeded {
        pending := [];
        durable := |list|;
      } else {
        Rollback();
      }
    }

    method Rollback()
      requires Valid()
      modifies this`list, this`pending
      ensures Valid() && Contents() == RolledBack(old(Contents()))
    {
      SoundPrefix(sha256, list, durable);
      list := list[..durable];
      pending := [];
    }

    /** D1Journal.flush as its one writer sees it; the other journals have nothing to flush. */
    method Flush(reply: Reply) returns (ok: bool)
      requires Valid()
      modifies this`list, this`pending, this`durable
      ensures Valid() && ok == FlushLands(old(Contents()), reply)
      ensures Contents() == if ok then Flushed(old(Contents())) else RolledBack(old(Contents()))
    {
      if pending == [] { return true; }
      if reply.SelectFails? {
        Rollback();
        return false;
      }
      ok := FlushChecked(reply.head);
      if ok {
        FlushDone(reply.inserted);
        ok := reply.inserted;
      }
    }

    method VerifyCheckpoint(c: Checkpoint) returns (v: Verdict)
      ensures v.Verified? <==> CheckpointHolds(list, c)
      ensures v.Refused? ==> v.at == if |list| < c.length then |list| else c.length - 1
    {
      if |list| < c.length { return Refused(|list|); }
      var digest := if c.length == 0 then GENESIS else list[c.length - 1].digest;
      assert digest == HeadOf(list[..c.length]);
      if digest != c.head { return Refused(c.length - 1); }
      return Verified(c.length, c.head, durable);
    }

    /** Walks the chain from the genesis digest, then holds it against the checkpoint. */
    method Verify(checkpoint: Option<Checkpoint>) returns (v: Verdict)
      ensures v.Verified? <==>
                ChainValid(sha256, list) && (checkpoint.Some? ==> CheckpointHolds(list, checkpoint.value))
      ensures v.Verified? ==> v == Verified(|list|, HeadOf(list), durable)
      ensures v.Refused? && !ChainValid(sha256, list) ==>
                exists i :: 0 <= i < |list| && v.at == list[i].seqno && !LinkHolds(sha256, list, i)
                            && ChainValid(sha256, list[..i])
      ensures v.Refused? && ChainValid(sha256, list) ==>
                checkpoint.Some? && var n := checkpoint.value.length; v.at == if |list| < n then |list| else n - 1
    {
      hide ChainText, CheckpointHolds;
      var prev := GENESIS;
      var i := 0;
      while i < |list|
        invariant 0 <= i <= |list|
        invariant prev == HeadOf(list[..i])
        invariant forall k :: 0 <= k < i ==> LinkHolds(sha256, list, k)
      {
        var e := list[i];
        var expected := sha256(ChainText(prev, e.kind, e.body));
        if e.prev != prev || e.digest != expected {
          assert !LinkHolds(sha256, list, i);
          LinksBefore(sha256, list, i);
          return Refused(e.seqno);
        }
        prev := e.digest;
        i := i + 1;
      }
      assert list[..i] == list;
      if checkpoint.Some? {
        var c := VerifyCheckpoint(checkpoint.value);
        if c.Refused? { return c; }
      }
      return Verified(|list|, prev, durable);
    }

    /** One level of the tree, hashed pair by pair. */
    method HashLevel(level: seq<string>) returns (next: seq<string>)
      ensures next == NextLevel(sha256, level)
    {
      next := [];
      var j := 0;
      ghost var m: nat, all := 0, NextLevel(sha256, level);
      hide NextLevel;
      while j < |level|
        invariant j == 2 * m <= |level| + 1 && m <= |all| && next == all[..m]
      {
        var node := if j + 1 < |level| then sha256(level[j] + level[j + 1]) else level[j];
        assert all[m] == NodeAt(sha256, level, m) == node;
        next := next + [node];
        j := j + 2;
        m := m + 1;
      }
    }

    method RootOf(leaves: seq<string>) returns (root: string)
      ensures root == MerkleRoot(sha256, leaves)
    {
      if |leaves| == 0 { return GENESIS; }
      var level := leaves;
      while |level| > 1
        invariant |level| > 0
        invariant MerkleRoot(sha256, level) == MerkleRoot(sha256, leaves)
        decreases |level|
      {
        level := HashLevel(level);
      }
      return level[0];
    }

    method FindIndex(n: int) returns (i: nat)
      ensures i <= |list|
      ensures if i < |list| then FirstWithSeq(list, i, n) else forall e :: e in list ==> e.seqno != n
    {
      i := 0;
      while i < |list| && list[i].seqno != n
        invariant 0 <= i <= |list|
        invariant forall k :: 0 <= k < i ==> list[k].seqno != n
      {
        i := i + 1;
      }
    }

    /** The proof for the first entry with this sequence number. */
    method InclusionProof(n: int) returns (result: Option<Inclusion>)
      ensures result.None? <==> forall e :: e in list ==> e.seqno != n
      ensures result.Some? ==> exists i :: 0 <= i < |list| && FirstWithSeq(list, i, n)
                                          && result.value == ProofFor(sha256, list, i)
    {
      var idx := FindIndex(n);
      if idx == |list| { return None; }
      assert list[idx] in list;
      var proof := PathFrom(Digests(list), idx);
      var root := RootOf(Digests(list));
      return Some(Inclusion(n, list[idx].digest, proof, root));
    }

    /** Walks from a leaf to the root, collecting siblings. */
    method PathFrom(leaves: seq<string>, idx: nat) returns (proof: seq<Step>)
      requires idx < |leaves|
      ensures proof == ProofSteps(sha256, leaves, idx)
    {
      var level, i := leaves, idx;
      proof := [];
      ghost var total := ProofSteps(sha256, leaves, idx);
      while |level| > 1
        invariant 0 <= i < |level|
        invariant proof + ProofSteps(sha256, level, i) == total
        decreases |level|
      {
        ghost var rest := ProofSteps(sha256, NextLevel(sha256, level), i / 2);
        ProofUnfold(sha256, level, i, proof);
        assert proof + StepAt(level, i) + rest == total;
        var sib := Sibling(i);
        if sib < |level| {
          proof := proof + [Step(if i % 2 == 0 then Right else Left, level[sib])];
        } else {
          assert proof + [] == proof;
        }
        assert proof + rest == total;
        level := HashLevel(level);
        i := i / 2;
      }
    }
  }

  /** The entries of one type, in order. */
  function Select(kind: Option<string>, list: seq<Entry>): seq<Entry> {
    if kind.None? then list
    else if list == [] then []
    else
      var last := list[|list| - 1];
      Select(kind, list[..|list| - 1]) + (if last.kind == kind.value then [last] else [])
  }

  /** The auditor's side: a digest, a proof and a published root, without the journal. */
  method VerifyInclusion(sha256: Hash, p: Inclusion) returns (ok: bool)
    ensures ok <==> Climb(sha256, p.leaf, p.proof) == p.root
  {
    var acc := p.leaf;
    var i := 0;
    while i < |p.proof|
      invariant 0 <= i <= |p.proof|
      invariant acc == Climb(sha256, p.leaf, p.proof[..i])
    {
      ClimbSnoc(sha256, p.leaf, p.proof[..i], p.proof[i]);
      assert p.proof[..i + 1] == p.proof[..i] + [p.proof[i]];
      acc := if p.proof[i].position.Left? then sha256(p.proof[i].digest + acc) else sha256(acc + p.proof[i].digest);
      i := i + 1;
    }
    assert p.proof[..i] == p.proof;
    ok := acc == p.root;
  }
}
