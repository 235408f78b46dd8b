/** Head receipts (src/sign.js:153-163, 206-229). */
module HeadReceipts {
  /* A signed statement of where a chain stood, checked later against a chain and a graph of keys.

     Signing is ideal: `verifies` says which envelopes a key has signed. Everything in the envelope that no
     check reads is one field. */

  import opened Graph
  import opened Journal
  import opened JournalProofs
  import opened Options

  datatype Envelope = Envelope(alg: string, head: string, length: nat, signer: string, at: int, rest: string)

  datatype Receipt = Receipt(envelope: Envelope, publicKey: string, signature: string)

  type Verifies = (Envelope, string, string) -> bool

  const ALG := "Ed25519"

  /** What the receipt says of a chain: where its head is, or that it still holds the head it had. */
  ghost predicate ChainAgrees(h: Hash, e: Envelope, list: seq<Entry>, extended: bool) {
    && ChainValid(h, list)
    && if extended then CheckpointHolds(list, Checkpoint(e.head, e.length)) else HeadOf(list) == e.head
  }

  /** What journal.verify() checks: the chain, and the checkpoint the journal was constructed with. */
  ghost predicate Stands(journal: MemoryJournal)
    reads journal
  {
    && ChainValid(journal.sha256, journal.list)
    && (journal.anchor.Some? ==> CheckpointHolds(journal.list, journal.anchor.value))
  }

  /** A broken chain gets no receipt. */
  method HeadReceipt(journal: MemoryJournal, sign: Envelope -> string, signer: string, publicKey: string, at: int,
                     rest: string)
    returns (r: Option<Receipt>)
    ensures r.Some? <==> Stands(journal)
    ensures r.Some? ==> r.value.envelope == Envelope(ALG, HeadOf(journal.list), |journal.list|, signer, at, rest)
    ensures r.Some? ==> r.value.publicKey == publicKey && r.value.signature == sign(r.value.envelope)
  {
    var v := journal.Verify(journal.anchor);
    if v.Refused? { return None; }
    var e := Envelope(ALG, v.head, v.length, signer, at, rest);
    return Some(Receipt(e, publicKey, sign(e)));
  }

  method VerifyHeadReceipt(verifies: Verifies, r: Receipt, journal: MemoryJournal?, graph: GraphRuntime?,
                           extended: bool)
    returns (ok: bool)
    ensures ok <==>
              && r.envelope.alg == ALG && verifies(r.envelope, r.publicKey, r.signature)
              && (journal != null ==>
                  Stands(journal) && ChainAgrees(journal.sha256, r.envelope, journal.list, extended))
              && (graph != null ==> StatusOf(graph.events, r.envelope.signer, r.publicKey, r.envelope.at).active)
  {
    if r.envelope.alg != ALG || !verifies(r.envelope, r.publicKey, r.signature) { return false; }
    if journal != null {
      var v := journal.Verify(journal.anchor);
      if v.Refused? { return false; }
      if extended {
        var c := journal.VerifyCheckpoint(Checkpoint(r.envelope.head, r.envelope.length));
        if c.Refused? { return false; }
      } else if v.head != r.envelope.head {
        return false;
      }
    }
    if graph != null {
      var status := graph.ReadKeyStatus(r.envelope.signer, r.publicKey, r.envelope.at);
      return status.active;
    }
    return true;
  }

  /* ---------- what a receipt pins ---------- */

  function EnvelopeOf(list: seq<Entry>, signer: string, at: int, rest: string): Envelope {
    Envelope(ALG, HeadOf(list), |list|, signer, at, rest)
  }

  /** In extended mode a chain agrees with a receipt exactly when it begins with the records the chain
      had when the receipt was issued. */
  lemma ExtendedExact(h: Hash, issued: seq<Entry>, now: seq<Entry>, signer: string, at: int, rest: string)
    requires DigestSized(h) && CollisionFree(h, ChainTexts(issued) + ChainTexts(now))
    requires ChainValid(h, issued) && BodiesWellFormed(issued) && BodiesWellFormed(now)
    ensures ChainAgrees(h, EnvelopeOf(issued, signer, at, rest), now, true) <==>
              ChainValid(h, now) && |issued| <= |now| && SameRecords(issued, now[..|issued|])
  {
    hide ChainValid, CollisionFree, BodiesWellFormed, SameRecords, CheckpointHolds;
    if ChainValid(h, now) { CheckpointExact(h, issued, now); }
  }

  /** No hashed text has the genesis digest. */
  ghost predicate GenesisFree(h: Hash, texts: set<string>) {
    forall x :: x in texts ==> h(x) != GENESIS
  }

  /** Chains with the same head hold the same records, and equally many of them. */
  lemma {:induction false} HeadBinding(h: Hash, texts: set<string>, xs: seq<Entry>, ys: seq<Entry>)
    requires DigestSized(h) && CollisionFree(h, texts) && GenesisFree(h, texts)
    requires ChainTexts(xs) <= texts && ChainTexts(ys) <= texts
    requires ChainValid(h, xs) && ChainValid(h, ys)
    requires BodiesWellFormed(xs) && BodiesWellFormed(ys)
    requires HeadOf(xs) == HeadOf(ys)
    ensures SameRecords(xs, ys)
    decreases |xs|
  {
    LastText(h, texts, xs);
    LastText(h, texts, ys);
    hide ChainTexts, CollisionFree, ChainText;
    if xs != [] && ys != [] {
      var m, n := |xs| - 1, |ys| - 1;
      ValidPrefix(h, xs, m);
      ValidPrefix(h, ys, n);
      HeadSized(h, xs[..m]);
      HeadSized(h, ys[..n]);
      LinkBinds(h, texts, xs[m], ys[n]);
      FewerTexts(xs, m);
      FewerTexts(ys, n);
      HeadBinding(h, texts, xs[..m], ys[..n]);
      SameRecordsSnoc(xs, ys, m);
    }
  }

  lemma FewerTexts(list: seq<Entry>, n: nat)
    requires n <= |list|
    ensures ChainTexts(list[..n]) <= ChainTexts(list)
    ensures BodiesWellFormed(list) ==> BodiesWellFormed(list[..n])
  {
  }

  /** The head of a chain is the digest of a hashed text, so it is not the genesis digest. */
  lemma LastText(h: Hash, texts: set<string>, list: seq<Entry>)
    requires ChainValid(h, list) && ChainTexts(list) <= texts && GenesisFree(h, texts)
    ensures list != [] ==>
              var e := list[|list| - 1];
              && ChainText(e.prev, e.kind, e.body) in texts && e.digest == h(ChainText(e.prev, e.kind, e.body))
              && e.prev == HeadOf(list[..|list| - 1])
    ensures list == [] <==> HeadOf(list) == GENESIS
  {
    hide ChainText;
    if list != [] {
      var e := list[|list| - 1];
      assert LinkHolds(h, list, |list| - 1);
      assert e in list && ChainText(e.prev, e.kind, e.body) in ChainTexts(list);
    }
  }

  /** Outside extended mode only the heads are compared, and that is enough: the chain agrees exactly when
      it holds the very records it held when the receipt was issued, no more and no fewer. */
  lemma PlainExact(h: Hash, issued: seq<Entry>, now: seq<Entry>, signer: string, at: int, rest: string)
    requires DigestSized(h) && CollisionFree(h, ChainTexts(issued) + ChainTexts(now))
    requires GenesisFree(h, ChainTexts(issued) + ChainTexts(now))
    requires ChainValid(h, issued) && BodiesWellFormed(issued) && BodiesWellFormed(now)
    ensures ChainAgrees(h, EnvelopeOf(issued, signer, at, rest), now, false) <==>
              ChainValid(h, now) && SameRecords(issued, now)
  {
    hide ChainValid, BodiesWellFormed, ChainTexts, CollisionFree, GenesisFree, DigestSized;
    if ChainValid(h, now) && HeadOf(now) == HeadOf(issued) {
      HeadBinding(h, ChainTexts(issued) + ChainTexts(now), issued, now);
    }
    if SameRecords(issued, now) && issued != [] {
      assert SameRecord(issued[|issued| - 1], now[|now| - 1]);
    }
  }
}
