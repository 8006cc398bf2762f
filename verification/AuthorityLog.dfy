/** The hash-chained authority log: what a verified log is, appends that keep it so, and what
    its hashes determine. */
module AuthorityLog {
  import opened Prelude
  import opened CommitRecords

  /** One stored record; a schema of neither generation is only recognised as such. */
  datatype LogRecord =
    | Legacy(legacy: LegacyRecord)
    | Commit(commit: CommitRecord)
    | UnknownSchema

  // ----- Verification -------------------------------------------------------------------------------------------

  function StoredHash(r: LogRecord): Option<Digest> {
    match r
    case Legacy(l) => l.recordHash
    case Commit(c) => Some(c.recordHash)
    case UnknownSchema => None
  }

  function Previous(r: LogRecord): Digest {
    match r
    case Legacy(l) => if l.prevRecordHash.None? then NO_ROOT else l.prevRecordHash.value
    case Commit(c) => c.core.prevRecordHash
    case UnknownSchema => NO_ROOT
  }

  /** The record is well formed, follows `previous`, and its hash is recomputed exactly. */
  predicate RecordOk(r: LogRecord, previous: Digest) {
    && !r.UnknownSchema?
    && StoredHash(r).Some? && ValidDigest(StoredHash(r).value)
    && Previous(r) == previous
    && match r
       case Legacy(l) => LegacyDigest(l.(recordHash := None)) == l.recordHash.value
       case Commit(c) => ValidCommitRecord(c, true)
       case UnknownSchema => false
  }

  /** The hash of the last record, or no root for an empty log. */
  function Head(records: seq<LogRecord>): Digest {
    if records == [] || StoredHash(records[|records| - 1]).None? then NO_ROOT
    else StoredHash(records[|records| - 1]).value
  }

  predicate Verified(records: seq<LogRecord>) {
    records != [] ==>
      Verified(records[..|records| - 1]) && RecordOk(records[|records| - 1], Head(records[..|records| - 1]))
  }

  /** The verification loop, carrying the previous hash. */
  method VerifyRecords(records: seq<LogRecord>) returns (ok: bool)
    ensures ok == Verified(records)
  {
    hide RecordOk;
    var previous := NO_ROOT;
    for i := 0 to |records|
      invariant Verified(records[..i]) && previous == Head(records[..i])
    {
      assert records[..i + 1][..i] == records[..i];
      VerifiedPrefix(records, i + 1);
      if !RecordOk(records[i], previous) { return false; }
      RecordOkHash(records[i], previous);
      previous := StoredHash(records[i]).value;
    }
    assert records[..|records|] == records;
    return true;
  }

  lemma RecordOkHash(r: LogRecord, previous: Digest)
    requires RecordOk(r, previous)
    ensures StoredHash(r).Some?
  {
    hide ValidCommitRecord;
  }

  lemma {:induction false} VerifiedPrefix(records: seq<LogRecord>, n: nat)
    requires n <= |records|
    ensures Verified(records) ==> Verified(records[..n])
    decreases |records| - n
  {
    hide RecordOk;
    if n == |records| { assert records[..n] == records; }
    else {
      VerifiedPrefix(records, n + 1);
      assert records[..n + 1][..n] == records[..n];
    }
  }

  lemma VerifiedAppend(records: seq<LogRecord>, r: LogRecord)
    requires Verified(records) && RecordOk(r, Head(records))
    ensures Verified(records + [r]) && StoredHash(r).Some? && Head(records + [r]) == StoredHash(r).value
  {
    hide RecordOk, ValidRoot;
    RecordOkHash(r, Head(records));
    assert (records + [r])[..|records|] == records;
  }

  // ----- Appending ----------------------------------------------------------------------------------------------

  /** The core a caller passes to a legacy append: its own hash, if any, is not removed. */
  function Chained(core: LegacyRecord, head: Digest): LegacyRecord {
    core.(prevRecordHash := Some(head))
  }

  function Stamped(core: LegacyRecord, head: Digest): LegacyRecord {
    var record := Chained(core, head);
    record.(recordHash := Some(LegacyDigest(record)))
  }

  class Log {
    var records: seq<LogRecord>

    constructor ()
      ensures records == []
    {
      records := [];
    }

    /** Append one legacy record to the current head; refused when a required field is empty
        or the stored log does not verify. */
    method Append(core: LegacyRecord) returns (hash: Option<Digest>)
      modifies this
      ensures hash.Some? <==> core.op != "" && core.createdAt != "" && Verified(old(records)) && ValidRoot(Head(old(records)))
      ensures hash.None? ==> records == old(records)
      ensures hash.Some? ==>
        && records == old(records) + [Legacy(Stamped(core, Head(old(records))))]
        && hash.value == Head(records)
        && (Verified(records) <==> core.recordHash.None?)
    {
      hide Verified, ValidRoot;
      if core.op == "" || core.createdAt == "" { return None; }
      var previous := Head(records);
      if !ValidRoot(previous) { return None; }
      var record := Chained(core, previous);
      var full := record.(recordHash := Some(LegacyDigest(record)));
      var ok := VerifyRecords(records);
      if !ok { return None; }
      LegacyAppendExact(records, core);
      records := records + [Legacy(full)];
      hash := Some(LegacyDigest(record));
    }

    /** Publish a prepared bundle if it is valid, made for the expected head, and that is
        still the head; otherwise nothing changes. */
    method AppendPrepared(b: CommitBundle, expectedHead: Digest) returns (hash: Option<Digest>)
      modifies this
      ensures hash.Some? <==>
        (ValidBundle(b) && b.expectedHead == expectedHead && Head(old(records)) == expectedHead && Verified(old(records)))
      ensures hash.None? ==> records == old(records)
      ensures hash.Some? ==>
        && records == old(records) + [Commit(b.record)]
        && hash.value == b.recordHash == Head(records)
        && Verified(records)
    {
      hide Verified, ValidBundle;
      if !ValidBundle(b) { return None; }
      if b.expectedHead != expectedHead { return None; }
      if Head(records) != expectedHead { return None; }
      var ok := VerifyRecords(records);
      if !ok { return None; }
      BundleAppends(records, b);
      records := records + [Commit(b.record)];
      hash := Some(b.recordHash);
    }
  }

  /** An appended legacy record verifies exactly when the caller's core carried no hash of
      its own: the hash is taken with it, and verified without it. */
  lemma LegacyAppendExact(records: seq<LogRecord>, core: LegacyRecord)
    requires Verified(records)
    ensures var after := records + [Legacy(Stamped(core, Head(records)))];
      && Head(after) == LegacyDigest(Chained(core, Head(records)))
      && (Verified(after) <==> core.recordHash.None?)
  {
    var after := records + [Legacy(Stamped(core, Head(records)))];
    assert after[..|after| - 1] == records;
  }

  /** For instance: a first record whose core brings a hash is appended, and no longer verifies. */
  lemma LegacyAppendExample() returns (core: LegacyRecord)
    ensures core.op != "" && core.createdAt != "" && Verified([]) && ValidRoot(Head([]))
    ensures !Verified([] + [Legacy(Stamped(core, Head([])))])
  {
    core := LegacyRecord("add_object", "t", BytesDigest([]), "s", None, None, Some(BytesDigest([])), []);
    LegacyAppendExact([], core);
  }

  lemma BundleAppends(records: seq<LogRecord>, b: CommitBundle)
    requires Verified(records) && ValidBundle(b) && b.expectedHead == Head(records)
    ensures Verified(records + [Commit(b.record)]) && Head(records + [Commit(b.record)]) == b.recordHash
  {
    assert RecordOk(Commit(b.record), Head(records)) by { hide Verified, DerivedRecord, ValidRows; }
    hide ValidBundle;
    VerifiedAppend(records, Commit(b.record));
  }

  // ----- What hashes determine ------------------------------------------------------------------------------------

  /** How many records lie under a record hash. */
  function Depth(d: Digest): nat
    decreases d
  {
    match d
    case RecordDigest(core) => 1 + Depth(core.prevRecordHash)
    case LegacyDigest(l) => 1 + (if l.prevRecordHash.Some? then Depth(l.prevRecordHash.value) else 0)
    case _ => 0
  }

  lemma OkHash(r: LogRecord, previous: Digest)
    requires RecordOk(r, previous)
    ensures Depth(StoredHash(r).value) == 1 + Depth(previous)
    ensures r.Commit? ==> StoredHash(r).value == RecordDigest(r.commit.core)
    ensures r.Legacy? ==> StoredHash(r).value == LegacyDigest(r.legacy.(recordHash := None))
  {
    if r.Commit? { ValidRecordBinds(r.commit, true); }
    hide ValidCommitRecord;
  }

  /** In a verified log the head sits exactly as deep as the log is long. */
  lemma {:induction false} HeadDepth(records: seq<LogRecord>)
    requires Verified(records)
    ensures Depth(Head(records)) == |records|
  {
    if records != [] {
      var init := records[..|records| - 1];
      HeadDepth(init);
      OkHash(records[|records| - 1], Head(init));
      hide RecordOk, Depth;
    }
  }

  lemma LastRecord(records: seq<LogRecord>)
    requires Verified(records) && records != []
    ensures var last, init := records[|records| - 1], records[..|records| - 1];
      && Verified(init) && RecordOk(last, Head(init)) && StoredHash(last) == Some(Head(records))
  {
    hide Depth;
    OkHash(records[|records| - 1], Head(records[..|records| - 1]));
  }

  /** Two verified logs with the same head are the same log. */
  lemma {:induction false} HeadDeterminesLog(a: seq<LogRecord>, b: seq<LogRecord>)
    requires Verified(a) && Verified(b) && Head(a) == Head(b)
    ensures a == b
    decreases |a|
  {
    hide *;
    HeadDepth(a);
    HeadDepth(b);
    if a != [] {
      var r, s := a[|a| - 1], b[|b| - 1];
      var before, earlier := a[..|a| - 1], b[..|b| - 1];
      LastRecord(a);
      LastRecord(b);
      SameHashSameRecord(r, s, Head(before), Head(earlier));
      HeadDeterminesLog(before, earlier);
      assert a == before + [r] && b == earlier + [s];
    }
  }

  lemma SameHashSameRecord(r: LogRecord, s: LogRecord, p: Digest, q: Digest)
    requires RecordOk(r, p) && RecordOk(s, q) && StoredHash(r) == StoredHash(s)
    ensures r == s && p == q
  {
    OkHash(r, p);
    OkHash(s, q);
    hide ValidCommitRecord, Depth, ValidDigest;
    if r.Legacy? {
      assert r.legacy.(recordHash := None) == s.legacy.(recordHash := None);
      assert r.legacy.recordHash == s.legacy.recordHash;
    }
  }

  /** What the prefix before a record says about it. */
  lemma RecordAt(records: seq<LogRecord>, i: nat)
    requires Verified(records) && i < |records|
    ensures RecordOk(records[i], Head(records[..i]))
    ensures StoredHash(records[i]) == Some(Head(records[..i + 1]))
    ensures Depth(Head(records[..i])) == i && Depth(Head(records[..i + 1])) == i + 1
  {
    hide RecordOk, Depth;
    VerifiedPrefix(records, i + 1);
    VerifiedPrefix(records, i);
    HeadDepth(records[..i]);
    HeadDepth(records[..i + 1]);
    LastOk(records[..i + 1]);
    assert records[..i + 1][..i] == records[..i];
    hide Verified, Head;
  }

  lemma LastOk(records: seq<LogRecord>)
    requires Verified(records) && records != []
    ensures RecordOk(records[|records| - 1], Head(records[..|records| - 1]))
    ensures StoredHash(records[|records| - 1]) == Some(Head(records))
  {
    hide ValidCommitRecord;
  }

  /** Record hashes of a verified log are pairwise distinct. */
  lemma HashesDistinct(records: seq<LogRecord>, i: nat, j: nat)
    requires Verified(records) && i < j < |records|
    ensures StoredHash(records[i]) != StoredHash(records[j])
  {
    RecordAt(records, i);
    RecordAt(records, j);
  }

  /** So are all effect ids: within a record the index separates them, across records the
      replay id binds the head before it. */
  lemma EffectIdsDistinct(records: seq<LogRecord>, i: nat, k: nat, j: nat, m: nat)
    requires Verified(records) && i < |records| && j < |records| && records[i].Commit? && records[j].Commit?
    requires k < |records[i].commit.core.outbox| && m < |records[j].commit.core.outbox|
    requires records[i].commit.core.outbox[k].effectId == records[j].commit.core.outbox[m].effectId
    ensures i == j && k == m
  {
    RecordAt(records, i);
    RecordAt(records, j);
    ValidRecordBinds(records[i].commit, true);
    ValidRecordBinds(records[j].commit, true);
    hide ValidCommitRecord;
  }

  // ----- The logical projection -------------------------------------------------------------------------------------

  /** A row as indexes read it; fields a caller may leave out are None. */
  datatype LogicalRow =
    | AddObjectRow(createdAt: string, ref: Digest, schema: string, scope: Option<string>, commitHash: Option<Digest>)
    | AddBlobRow(createdAt: string, ref: Digest, mediaType: string, commitHash: Option<Digest>)
    | OtherRow

  predicate StartsWith(s: string, prefix: string) { prefix <= s }

  /** The authority of imported objects; None for objects that are not imported. */
  function AuthorityScope(policyVersion: string): Option<string> {
    if !StartsWith(policyVersion, "popperpad-import-policy/") then None
    else if StartsWith(policyVersion, "popperpad-import-policy/v2/trusted-receipt/") then Some("import_trusted_receipt")
    else Some("import_quarantined")
  }

  /** An import policy that is not one of trusted receipts keeps its objects in quarantine. */
  ghost predicate Quarantines(policyVersion: string) {
    && "popperpad-import-policy/" <= policyVersion
    && !("popperpad-import-policy/v2/trusted-receipt/" <= policyVersion)
  }

  lemma ScopeExactly(policyVersion: string)
    ensures AuthorityScope(policyVersion) == Some("import_quarantined") <==> Quarantines(policyVersion)
    ensures AuthorityScope(policyVersion) == Some("import_trusted_receipt")
      <==> "popperpad-import-policy/v2/trusted-receipt/" <= policyVersion
  {
    var trusted, any := "popperpad-import-policy/v2/trusted-receipt/", "popperpad-import-policy/";
    assert trusted[..|any|] == any;
    if trusted <= policyVersion { assert policyVersion[..|any|] == trusted[..|any|]; }
    assert "import_quarantined"[7] == 'q' && "import_trusted_receipt"[7] == 't';
  }

  /** The rows a prepared bundle announces. */
  function BundleRows(b: CommitBundle): seq<LogicalRow> {
    seq(|b.objects|, i requires 0 <= i < |b.objects| =>
      AddObjectRow(b.record.core.createdAt, b.objects[i].ref, b.objects[i].schema, AuthorityScope(b.receipt.policyVersion), Some(b.recordHash)))
    + seq(|b.blobs|, i requires 0 <= i < |b.blobs| =>
        AddBlobRow(b.record.core.createdAt, b.blobs[i].ref, b.blobs[i].mediaType, Some(b.recordHash)))
  }

  /** The rows a stored commit record projects to. */
  function CommitRows(c: CommitRecord): seq<LogicalRow> {
    seq(|c.core.objects|, i requires 0 <= i < |c.core.objects| =>
      AddObjectRow(c.core.createdAt, c.core.objects[i].ref, c.core.objects[i].schema, AuthorityScope(c.core.receipt.policyVersion), Some(c.recordHash)))
    + seq(|c.core.blobs|, i requires 0 <= i < |c.core.blobs| =>
        AddBlobRow(c.core.createdAt, c.core.blobs[i].ref, c.core.blobs[i].mediaType, Some(c.recordHash)))
  }

  function RowsOf(r: LogRecord): seq<LogicalRow> {
    match r
    case Legacy(l) =>
      if l.op == "add_object" then [AddObjectRow(l.createdAt, l.objRef, l.objSchema, l.authorityScope, None)] else [OtherRow]
    case Commit(c) => CommitRows(c)
    case UnknownSchema => [OtherRow]
  }

  /** The logical records of a log, in order. */
  function LogicalRecords(records: seq<LogRecord>): seq<LogicalRow> {
    if records == [] then []
    else LogicalRecords(records[..|records| - 1]) + RowsOf(records[|records| - 1])
  }

  /** A valid bundle announces exactly the rows its stored record will project: its objects in
      order, in quarantine exactly under such a policy, and its blobs. */
  lemma BundleAnnouncesItsRows(b: CommitBundle)
    requires ValidBundle(b)
    ensures BundleRows(b) == CommitRows(b.record)
    ensures |BundleRows(b)| == |b.objects| + |b.blobs|
    ensures forall k | 0 <= k < |b.objects| ::
      var row := BundleRows(b)[k];
      && row.AddObjectRow? && row.ref == b.objects[k].ref && row.schema == b.objects[k].schema
      && row.createdAt == b.record.core.createdAt && row.commitHash == Some(b.recordHash)
      && (row.scope == Some("import_quarantined") <==> Quarantines(b.receipt.policyVersion))
    ensures forall k | 0 <= k < |b.blobs| ::
      BundleRows(b)[|b.objects| + k] == AddBlobRow(b.record.core.createdAt, b.blobs[k].ref, b.blobs[k].mediaType, Some(b.recordHash))
  {
    hide ValidBundle, AuthorityScope, CommitRows;
    SameRows(b);
    ScopeExactly(b.receipt.policyVersion);
    forall k | 0 <= k < |b.objects| ensures BundleRows(b)[k] ==
      AddObjectRow(b.record.core.createdAt, b.objects[k].ref, b.objects[k].schema, AuthorityScope(b.receipt.policyVersion), Some(b.recordHash)) { }
    forall k | 0 <= k < |b.blobs| ensures BundleRows(b)[|b.objects| + k] ==
      AddBlobRow(b.record.core.createdAt, b.blobs[k].ref, b.blobs[k].mediaType, Some(b.recordHash)) { }
    assert |BundleRows(b)| == |b.objects| + |b.blobs|;
    hide BundleRows, Quarantines;
  }

  lemma SameRows(b: CommitBundle)
    requires ValidBundle(b)
    ensures BundleRows(b) == CommitRows(b.record)
  {
    hide ValidCommitRecord, AuthorityScope;
    var c := b.record.core;
    assert |c.objects| == |b.objects| && |c.blobs| == |b.blobs|;
    forall i | 0 <= i < |b.objects| ensures c.objects[i].ref == b.objects[i].ref && c.objects[i].schema == b.objects[i].schema {
      assert ObjectRows(b.objects)[i] == c.objects[i];
    }
    forall i | 0 <= i < |b.blobs| ensures c.blobs[i].ref == b.blobs[i].ref && c.blobs[i].mediaType == b.blobs[i].mediaType {
      assert BlobRows(b.blobs)[i] == c.blobs[i];
    }
    hide ObjectRows, BlobRows;
  }
}
