/** What a stored commit record binds: every digest, told field by field, and what follows from
    two of them being equal. */
module CommitBindings {
  import opened Prelude
  import opened CanonicalJson
  import opened CommitRecords

  /** The kinds and payloads of the effects a record stores. */
  function StoredIntents(outbox: seq<EffectRow>): seq<Intent> {
    seq(|outbox|, i requires 0 <= i < |outbox| => Intent(outbox[i].kind, outbox[i].payload))
  }

  /** A caller's reference is "sha256:" and 64 lower-case hexadecimal digits; any other digest
      is one by construction. */
  ghost predicate Reference(d: Digest) {
    d.TextDigest? ==> exists hex: string :: |hex| == 64 && (forall i | 0 <= i < 64 :: LowerHex(hex[i])) && d.text == "sha256:" + hex
  }

  ghost predicate RootReference(d: Digest) { d == TextDigest("") || Reference(d) }

  /** Every row is named, no two rows share a reference, and every payload is an object with
      sorted keys and no float. */
  ghost predicate RowsInOrder(k: RecordCore) {
    && (forall i | 0 <= i < |k.objects| :: Reference(k.objects[i].ref) && k.objects[i].schema != "")
    && (forall i | 0 <= i < |k.blobs| :: Reference(k.blobs[i].ref) && k.blobs[i].mediaType != "")
    && (forall i, j | 0 <= i < j < |k.objects| :: k.objects[i].ref != k.objects[j].ref)
    && (forall i, j | 0 <= i < j < |k.blobs| :: k.blobs[i].ref != k.blobs[j].ref)
    && (forall i, j | 0 <= i < |k.objects| && 0 <= j < |k.blobs| :: k.objects[i].ref != k.blobs[j].ref)
    && (forall i | 0 <= i < |k.outbox| ::
          k.outbox[i].kind != "" && k.outbox[i].payload.JObject? && Freeze(k.outbox[i].payload) == Some(k.outbox[i].payload))
  }

  /** Every digest of the record is that of exactly what it is said to commit to. */
  ghost predicate DigestsInOrder(r: CommitRecord) {
    var k, t := r.core, r.core.receipt;
    && t.preStateRoot == k.prevRecordHash
    && t.commandHash == CommandDigest(t.version,
         if t.version.V1? then CommandV1(k.prevRecordHash, k.objects, k.blobs, t.policyVersion, t.coreVersion)
         else CommandV2(k.prevRecordHash, k.createdAt, t.evidenceRoot, k.objects, k.blobs, StoredIntents(k.outbox), t.policyVersion, t.coreVersion))
    && t.replayId == ReplayDigest(t.version, k.prevRecordHash, t.commandHash)
    && (forall i | 0 <= i < |k.outbox| ::
          k.outbox[i].effectId == EffectDigest(t.version, t.replayId, i, k.outbox[i].kind, k.outbox[i].payload))
    && t.effectPlanHash == PlanDigest(t.version, k.outbox)
    && k.commitRoot == CommitDigest(t.version, CommitValue(k.prevRecordHash, k.createdAt, t.commandHash, t.evidenceRoot, k.objects,
                                                           k.blobs, k.outbox, t.policyVersion, t.coreVersion))
    && t.nextStateRoot == k.commitRoot
    && r.recordHash == RecordDigest(k)
  }

  ghost predicate Genuine(r: CommitRecord, allowLegacy: bool) {
    && (r.core.receipt.version.V2? || (allowLegacy && r.core.receipt.version.V1?))
    && r.core.createdAt != "" && r.core.receipt.policyVersion != "" && r.core.receipt.coreVersion != ""
    && RootReference(r.core.prevRecordHash) && RootReference(r.core.receipt.evidenceRoot)
    && RowsInOrder(r.core) && DigestsInOrder(r)
  }

  lemma ReferenceExactly(d: Digest)
    ensures ValidDigest(d) <==> Reference(d)
  {
    if d.TextDigest? { RefTextExactly(d.text); }
  }

  lemma RowsExactly(k: RecordCore)
    requires forall i | 0 <= i < |k.outbox| :: k.outbox[i].effectId.EffectDigest?
    ensures ValidRows(k) <==> RowsInOrder(k)
  {
    forall d ensures ValidDigest(d) <==> Reference(d) { ReferenceExactly(d); }
    hide ValidDigest, Reference, Freeze, RowRefs;
    RefsDistinct(k.objects, k.blobs);
    forall i | 0 <= i < |k.outbox| ensures ValidDigest(k.outbox[i].effectId) { EffectDigestValid(k.outbox[i].effectId); }
    hide Distinct;
  }

  lemma EffectDigestValid(d: Digest)
    requires d.EffectDigest?
    ensures ValidDigest(d)
  {
  }

  lemma RefsDistinct(objects: seq<ObjectRow>, blobs: seq<BlobRow>)
    ensures Distinct(RowRefs(objects, blobs)) <==>
      && (forall i, j | 0 <= i < j < |objects| :: objects[i].ref != objects[j].ref)
      && (forall i, j | 0 <= i < j < |blobs| :: blobs[i].ref != blobs[j].ref)
      && (forall i, j | 0 <= i < |objects| && 0 <= j < |blobs| :: objects[i].ref != blobs[j].ref)
  {
    var refs, n := RowRefs(objects, blobs), |objects|;
    assert forall i {:trigger objects[i]} | 0 <= i < n :: refs[i] == objects[i].ref;
    assert forall j {:trigger blobs[j]} | 0 <= j < |blobs| :: refs[n + j] == blobs[j].ref;
    if Distinct(refs) {
      forall i, j | 0 <= i < j < |blobs| ensures blobs[i].ref != blobs[j].ref { assert refs[n + i] != refs[n + j]; }
      forall i, j | 0 <= i < n && 0 <= j < |blobs| ensures objects[i].ref != blobs[j].ref { assert refs[i] != refs[n + j]; }
    }
  }

  /** The derivation of a record's digests from its own fields, field by field. */
  lemma DerivedDigests(r: CommitRecord)
    ensures r == DerivedRecord(Claimed(r.core)) <==> DigestsInOrder(r)
  {
    var c := Claimed(r.core);
    assert c.intents == StoredIntents(r.core.outbox);
    var rows := AllEffects(c);
    assert |rows| == |r.core.outbox|;
    if DigestsInOrder(r) {
      assert CommandHash(c) == r.core.receipt.commandHash && ReplayId(c) == r.core.receipt.replayId;
      forall i | 0 <= i < |rows| ensures rows[i] == r.core.outbox[i] { }
      assert rows == r.core.outbox;
    }
    hide EffectRows;
  }

  /** A record is valid exactly when its rows and digests are in order. */
  lemma ValidExactly(r: CommitRecord, allowLegacy: bool)
    ensures ValidCommitRecord(r, allowLegacy) <==> Genuine(r, allowLegacy)
  {
    DerivedDigests(r);
    ReferenceExactly(r.core.prevRecordHash);
    ReferenceExactly(r.core.receipt.evidenceRoot);
    hide DerivedRecord, Claimed, Reference;
    if DigestsInOrder(r) { RowsExactly(r.core); }
    hide ValidRows, RowsInOrder, ValidRefText;
  }

  /** Equal command hashes of second-generation records mean equal records: head, time,
      evidence, objects, blobs, effects and versions, and with them every digest. */
  lemma CommandDeterminesRecord(r: CommitRecord, s: CommitRecord)
    requires ValidCommitRecord(r, false) && ValidCommitRecord(s, false)
    requires r.core.receipt.commandHash == s.core.receipt.commandHash
    ensures r == s
  {
    ValidExactly(r, false);
    ValidExactly(s, false);
    hide ValidCommitRecord, RowsInOrder;
    var a, b := r.core, s.core;
    assert StoredIntents(a.outbox) == StoredIntents(b.outbox);
    forall i | 0 <= i < |a.outbox| ensures a.outbox[i] == b.outbox[i] {
      assert StoredIntents(a.outbox)[i] == StoredIntents(b.outbox)[i];
    }
    assert a.outbox == b.outbox;
  }
}
