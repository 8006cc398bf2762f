/** Commit records: how a bundle is planned, what a record commits to, and the validators
    that recompute every commitment.

    Digests are symbolic: a constructor per hash domain, applied to exactly what the source
    hashes under that domain. Text supplied by a caller is no digest of anything known. */
module CommitRecords {
  import opened Prelude
  import opened CanonicalJson
  import JsonParser
  import Utf8

  datatype Version = V1 | V2 | OtherVersion(text: string)

  datatype Digest =
    | TextDigest(text: string)
    | BytesDigest(bytes: seq<byte>)
    | CommandDigest(version: Version, command: CommandValue)
    | ReplayDigest(version: Version, preStateRoot: Digest, commandHash: Digest)
    | EffectDigest(version: Version, replayId: Digest, index: nat, kind: string, payload: Json)
    | PlanDigest(version: Version, rows: seq<EffectRow>)
    | CommitDigest(version: Version, commit: CommitValue)
    | RecordDigest(core: RecordCore)
    | LegacyDigest(record: LegacyRecord)

  datatype ObjectRow = ObjectRow(ref: Digest, schema: string, size: nat)
  datatype BlobRow = BlobRow(ref: Digest, mediaType: string, size: nat)
  datatype Intent = Intent(kind: string, payload: Json)
  datatype EffectRow = EffectRow(effectId: Digest, kind: string, payload: Json)

  /** The hashed command. The first version leaves out the time, the evidence and the outbox. */
  datatype CommandValue =
    | CommandV1(expectedHead: Digest, objects: seq<ObjectRow>, blobs: seq<BlobRow>, policyVersion: string, coreVersion: string)
    | CommandV2(expectedHead: Digest, createdAt: string, evidenceRoot: Digest, objects: seq<ObjectRow>, blobs: seq<BlobRow>,
                outbox: seq<Intent>, policyVersion: string, coreVersion: string)

  datatype CommitValue = CommitValue(
    expectedHead: Digest,
    createdAt: string,
    commandHash: Digest,
    evidenceRoot: Digest,
    objects: seq<ObjectRow>,
    blobs: seq<BlobRow>,
    outbox: seq<EffectRow>,
    policyVersion: string,
    coreVersion: string)

  datatype ReceiptDraft = ReceiptDraft(
    version: Version,
    preStateRoot: Digest,
    commandHash: Digest,
    evidenceRoot: Digest,
    policyVersion: string,
    coreVersion: string,
    replayId: Digest,
    nextStateRoot: Digest,
    effectPlanHash: Digest)

  datatype RecordCore = RecordCore(
    createdAt: string,
    prevRecordHash: Digest,
    commitRoot: Digest,
    objects: seq<ObjectRow>,
    blobs: seq<BlobRow>,
    outbox: seq<EffectRow>,
    receipt: ReceiptDraft)

  datatype CommitRecord = CommitRecord(core: RecordCore, recordHash: Digest)

  /** A first-generation log record; absent keys are None, and keys nothing reads are kept
      together in `others`. */
  datatype LegacyRecord = LegacyRecord(
    op: string,
    createdAt: string,
    objRef: Digest,
    objSchema: string,
    authorityScope: Option<string>,
    prevRecordHash: Option<Digest>,
    recordHash: Option<Digest>,
    others: seq<Field>)

  const NO_ROOT := TextDigest("")

  predicate ValidDigest(d: Digest) { d.TextDigest? ==> ValidRefText(d.text) }

  /** What the index and the shells take for a reference: caller text may end in a newline. */
  predicate IsRef(d: Digest) { d.TextDigest? ==> IsRefText(d.text) }

  predicate ValidRoot(d: Digest) { d == NO_ROOT || ValidDigest(d) }

  // ----- Deriving every commitment ----------------------------------------------------------------------------

  /** What a commit is about, before anything is hashed. */
  datatype Candidate = Candidate(
    version: Version,
    expectedHead: Digest,
    createdAt: string,
    objects: seq<ObjectRow>,
    blobs: seq<BlobRow>,
    intents: seq<Intent>,
    evidenceRoot: Digest,
    policyVersion: string,
    coreVersion: string)

  function CommandHash(c: Candidate): Digest {
    CommandDigest(c.version,
      if c.version.V1? then CommandV1(c.expectedHead, c.objects, c.blobs, c.policyVersion, c.coreVersion)
      else CommandV2(c.expectedHead, c.createdAt, c.evidenceRoot, c.objects, c.blobs, c.intents, c.policyVersion, c.coreVersion))
  }

  function ReplayId(c: Candidate): Digest { ReplayDigest(c.version, c.expectedHead, CommandHash(c)) }

  /** The first n effects, each id bound to the replay id and its index. */
  function EffectRows(c: Candidate, n: nat): (rows: seq<EffectRow>)
    requires n <= |c.intents|
    ensures |rows| == n
    ensures forall i | 0 <= i < n ::
      rows[i] == EffectRow(EffectDigest(c.version, ReplayId(c), i, c.intents[i].kind, c.intents[i].payload),
                           c.intents[i].kind, c.intents[i].payload)
  {
    if n == 0 then []
    else
      var intent := c.intents[n - 1];
      EffectRows(c, n - 1)
      + [EffectRow(EffectDigest(c.version, ReplayId(c), n - 1, intent.kind, intent.payload), intent.kind, intent.payload)]
  }

  function AllEffects(c: Candidate): seq<EffectRow> { EffectRows(c, |c.intents|) }

  function CommitRoot(c: Candidate): Digest {
    CommitDigest(c.version, CommitValue(c.expectedHead, c.createdAt, CommandHash(c), c.evidenceRoot, c.objects, c.blobs,
                                        AllEffects(c), c.policyVersion, c.coreVersion))
  }

  function Receipt(c: Candidate): ReceiptDraft {
    ReceiptDraft(c.version, c.expectedHead, CommandHash(c), c.evidenceRoot, c.policyVersion, c.coreVersion, ReplayId(c),
                 CommitRoot(c), PlanDigest(c.version, AllEffects(c)))
  }

  function DerivedCore(c: Candidate): RecordCore {
    RecordCore(c.createdAt, c.expectedHead, CommitRoot(c), c.objects, c.blobs, AllEffects(c), Receipt(c))
  }

  function DerivedRecord(c: Candidate): CommitRecord { CommitRecord(DerivedCore(c), RecordDigest(DerivedCore(c))) }

  /** Derivation as the source performs it, numbering the effects as it goes. */
  method DeriveCommitRecord(c: Candidate) returns (effects: seq<EffectRow>, record: CommitRecord)
    ensures effects == AllEffects(c) && record == DerivedRecord(c)
  {
    var replayId := ReplayId(c);
    effects := [];
    for i := 0 to |c.intents|
      invariant effects == EffectRows(c, i)
    {
      var intent := c.intents[i];
      effects := effects + [EffectRow(EffectDigest(c.version, replayId, i, intent.kind, intent.payload), intent.kind, intent.payload)];
    }
    var root := CommitDigest(c.version, CommitValue(c.expectedHead, c.createdAt, CommandHash(c), c.evidenceRoot, c.objects,
                                                    c.blobs, effects, c.policyVersion, c.coreVersion));
    var receipt := ReceiptDraft(c.version, c.expectedHead, CommandHash(c), c.evidenceRoot, c.policyVersion, c.coreVersion,
                                replayId, root, PlanDigest(c.version, effects));
    var core := RecordCore(c.createdAt, c.expectedHead, root, c.objects, c.blobs, effects, receipt);
    record := CommitRecord(core, RecordDigest(core));
  }

  // ----- Validating a record ------------------------------------------------------------------------------------

  /** The candidate a record claims to derive from. */
  function Claimed(core: RecordCore): Candidate {
    Candidate(core.receipt.version, core.prevRecordHash, core.createdAt, core.objects, core.blobs,
              seq(|core.outbox|, i requires 0 <= i < |core.outbox| => Intent(core.outbox[i].kind, core.outbox[i].payload)),
              core.receipt.evidenceRoot, core.receipt.policyVersion, core.receipt.coreVersion)
  }

  function RowRefs(objects: seq<ObjectRow>, blobs: seq<BlobRow>): (out: seq<Digest>)
    ensures |out| == |objects| + |blobs|
  {
    seq(|objects|, i requires 0 <= i < |objects| => objects[i].ref) + seq(|blobs|, i requires 0 <= i < |blobs| => blobs[i].ref)
  }

  /** Field checks on the rows: references, names, and payloads that are objects. */
  predicate ValidRows(core: RecordCore) {
    && (forall i | 0 <= i < |core.objects| :: ValidDigest(core.objects[i].ref) && core.objects[i].schema != "")
    && (forall i | 0 <= i < |core.blobs| :: ValidDigest(core.blobs[i].ref) && core.blobs[i].mediaType != "")
    && (forall i | 0 <= i < |core.outbox| ::
          ValidDigest(core.outbox[i].effectId) && core.outbox[i].kind != ""
          && core.outbox[i].payload.JObject? && Freeze(core.outbox[i].payload) == Some(core.outbox[i].payload))
    && Distinct(RowRefs(core.objects, core.blobs))
  }

  predicate ValidReceipt(r: ReceiptDraft, allowLegacy: bool) {
    && (r.version.V2? || (r.version.V1? && allowLegacy))
    && ValidRoot(r.preStateRoot) && ValidRoot(r.evidenceRoot)
    && ValidDigest(r.commandHash) && ValidDigest(r.replayId) && ValidDigest(r.nextStateRoot) && ValidDigest(r.effectPlanHash)
    && r.policyVersion != "" && r.coreVersion != ""
  }

  /** A record is valid when its fields are well formed and it is exactly the record derived
      from the candidate it claims. */
  predicate ValidCommitRecord(r: CommitRecord, allowLegacy: bool) {
    && r.core.createdAt != ""
    && ValidRoot(r.core.prevRecordHash) && ValidDigest(r.core.commitRoot) && ValidDigest(r.recordHash)
    && ValidRows(r.core)
    && ValidReceipt(r.core.receipt, allowLegacy)
    && r == DerivedRecord(Claimed(r.core))
  }

  /** A valid record's hash is that of its own core, and its receipt and effects are bound to
      its predecessor. */
  lemma ValidRecordBinds(r: CommitRecord, allowLegacy: bool)
    requires ValidCommitRecord(r, allowLegacy)
    ensures r.recordHash == RecordDigest(r.core)
    ensures r.core.receipt.preStateRoot == r.core.prevRecordHash
    ensures forall i | 0 <= i < |r.core.outbox| ::
      && r.core.outbox[i].effectId.EffectDigest?
      && r.core.outbox[i].effectId.index == i
      && r.core.outbox[i].effectId.replayId.ReplayDigest?
      && r.core.outbox[i].effectId.replayId.preStateRoot == r.core.prevRecordHash
  {
    var c := Claimed(r.core);
    assert r.core == DerivedCore(c);
    hide ValidRows, ValidReceipt, CommitRoot, CommandHash;
  }

  // ----- Bundles --------------------------------------------------------------------------------------------------

  datatype ObjectWrite = ObjectWrite(ref: Digest, schema: string, payload: seq<byte>)
  datatype BlobWrite = BlobWrite(ref: Digest, mediaType: string, payload: seq<byte>)

  datatype CommitBundle = CommitBundle(
    expectedHead: Digest,
    commitRoot: Digest,
    recordHash: Digest,
    objects: seq<ObjectWrite>,
    blobs: seq<BlobWrite>,
    outbox: seq<EffectRow>,
    receipt: ReceiptDraft,
    record: CommitRecord)

  function ObjectRows(writes: seq<ObjectWrite>): (rows: seq<ObjectRow>)
    ensures |rows| == |writes|
  {
    seq(|writes|, i requires 0 <= i < |writes| => ObjectRow(writes[i].ref, writes[i].schema, |writes[i].payload|))
  }

  function BlobRows(writes: seq<BlobWrite>): (rows: seq<BlobRow>)
    ensures |rows| == |writes|
  {
    seq(|writes|, i requires 0 <= i < |writes| => BlobRow(writes[i].ref, writes[i].mediaType, |writes[i].payload|))
  }

  /** Payload bytes match their refs, and every typed field agrees with a valid new record. */
  predicate ValidBundle(b: CommitBundle) {
    && ValidCommitRecord(b.record, false)
    && (forall i | 0 <= i < |b.objects| :: b.objects[i].ref == BytesDigest(b.objects[i].payload))
    && (forall i | 0 <= i < |b.blobs| :: b.blobs[i].ref == BytesDigest(b.blobs[i].payload))
    && b.expectedHead == b.record.core.prevRecordHash
    && b.commitRoot == b.record.core.commitRoot
    && b.recordHash == b.record.recordHash
    && b.receipt == b.record.core.receipt
    && ObjectRows(b.objects) == b.record.core.objects
    && BlobRows(b.blobs) == b.record.core.blobs
    && b.outbox == b.record.core.outbox
  }

  // ----- Planning -------------------------------------------------------------------------------------------------

  datatype PlanCode =
    | InvalidPreStateRoot | InvalidCreatedAt | InvalidEvidenceRoot | InvalidObject | InvalidObjectSchema
    | DuplicateWrite | InvalidMediaType | InvalidEffect

  /** A plan, a rejection, or the exception an empty version string raises. */
  datatype PlanResult = Planned(bundle: CommitBundle) | Rejected(code: PlanCode) | Raised

  datatype Draft = Draft(objects: seq<ObjectWrite>, blobs: seq<BlobWrite>)
  datatype Drafting = Drafted(draft: Draft) | Refused(code: PlanCode)

  function Refs(d: Draft): seq<Digest> {
    seq(|d.objects|, i requires 0 <= i < |d.objects| => d.objects[i].ref) + seq(|d.blobs|, i requires 0 <= i < |d.blobs| => d.blobs[i].ref)
  }

  datatype RawObject = RawObject(payload: seq<byte>, schema: string)
  datatype RawBlob = RawBlob(payload: seq<byte>, mediaType: string)

  function AddObject(d: Draft, payload: seq<byte>, schema: string): Drafting {
    if schema == "" then Refused(InvalidObjectSchema)
    else if BytesDigest(payload) in Refs(d) then Refused(DuplicateWrite)
    else Drafted(d.(objects := d.objects + [ObjectWrite(BytesDigest(payload), schema, payload)]))
  }

  function AddBlob(d: Draft, payload: seq<byte>, mediaType: string): Drafting {
    if mediaType == "" then Refused(InvalidMediaType)
    else if BytesDigest(payload) in Refs(d) then Refused(DuplicateWrite)
    else Drafted(d.(blobs := d.blobs + [BlobWrite(BytesDigest(payload), mediaType, payload)]))
  }

  /** The value of a key in an object. */
  function Lookup(fields: seq<Field>, key: string): Option<Json> {
    if fields == [] then None else if fields[0].key == key then Some(fields[0].value) else Lookup(fields[1..], key)
  }

  /** An ordinary object: frozen, its schema read, its canonical bytes stored. */
  function AddValue(d: Draft, v: Json): Drafting {
    var frozen := Freeze(v);
    if frozen.None? || !frozen.value.JObject? then Refused(InvalidObject)
    else
      var schema := Lookup(frozen.value.fields, "schema");
      if schema.None? || !schema.value.JString? then Refused(InvalidObjectSchema)
      else AddObject(d, Utf8.Encode(Print(frozen.value) + "\n"), schema.value.s)
  }

  function DraftRaw(objects: seq<RawObject>): Drafting {
    if objects == [] then Drafted(Draft([], []))
    else
      match DraftRaw(objects[..|objects| - 1])
      case Refused(code) => Refused(code)
      case Drafted(d) => AddObject(d, objects[|objects| - 1].payload, objects[|objects| - 1].schema)
  }

  function DraftValues(start: Drafting, values: seq<Json>): Drafting {
    if values == [] then start
    else
      match DraftValues(start, values[..|values| - 1])
      case Refused(code) => Refused(code)
      case Drafted(d) => AddValue(d, values[|values| - 1])
  }

  function DraftBlobs(start: Drafting, blobs: seq<RawBlob>): Drafting {
    if blobs == [] then start
    else
      match DraftBlobs(start, blobs[..|blobs| - 1])
      case Refused(code) => Refused(code)
      case Drafted(d) => AddBlob(d, blobs[|blobs| - 1].payload, blobs[|blobs| - 1].mediaType)
  }

  datatype Intending = Intended(intents: seq<Intent>) | BadIntent(code: PlanCode)

  function AddIntent(intents: seq<Intent>, raw: Intent): Intending {
    if raw.kind == "" then BadIntent(InvalidEffect)
    else
      var frozen := Freeze(raw.payload);
      if frozen.None? || !frozen.value.JObject? then BadIntent(InvalidObject)
      else Intended(intents + [Intent(raw.kind, frozen.value)])
  }

  function DraftIntents(raw: seq<Intent>): Intending {
    if raw == [] then Intended([])
    else
      match DraftIntents(raw[..|raw| - 1])
      case BadIntent(code) => BadIntent(code)
      case Intended(intents) => AddIntent(intents, raw[|raw| - 1])
  }

  datatype PlanInput = PlanInput(
    expectedHead: Digest,
    createdAt: string,
    objects: seq<Json>,
    prevalidated: seq<RawObject>,
    blobs: seq<RawBlob>,
    outbox: seq<Intent>,
    evidenceRoot: Digest,
    policyVersion: string,
    coreVersion: string)

  function DraftOf(i: PlanInput): Drafting {
    DraftBlobs(DraftValues(DraftRaw(i.prevalidated), i.objects), i.blobs)
  }

  function PlanCandidate(i: PlanInput, d: Draft, intents: seq<Intent>): Candidate {
    Candidate(V2, i.expectedHead, i.createdAt, ObjectRows(d.objects), BlobRows(d.blobs), intents, i.evidenceRoot,
              i.policyVersion, i.coreVersion)
  }

  function BundleOf(c: Candidate, d: Draft): CommitBundle {
    CommitBundle(c.expectedHead, CommitRoot(c), RecordDigest(DerivedCore(c)), d.objects, d.blobs, AllEffects(c), Receipt(c),
                 DerivedRecord(c))
  }

  /** The plan for some inputs, with every check in the source's order. */
  function PlanCommit(i: PlanInput): PlanResult {
    if !ValidRoot(i.expectedHead) then Rejected(InvalidPreStateRoot)
    else if i.createdAt == "" then Rejected(InvalidCreatedAt)
    else if !ValidRoot(i.evidenceRoot) then Rejected(InvalidEvidenceRoot)
    else
      match DraftOf(i)
      case Refused(code) => Rejected(code)
      case Drafted(d) =>
        match DraftIntents(i.outbox)
        case BadIntent(code) => Rejected(code)
        case Intended(intents) =>
          if i.policyVersion == "" || i.coreVersion == "" then Raised
          else Planned(BundleOf(PlanCandidate(i, d, intents), d))
  }

  // ----- Every plan is a valid bundle -----------------------------------------------------------------------------

  ghost predicate GoodDraft(d: Draft) {
    && Distinct(Refs(d))
    && (forall i | 0 <= i < |d.objects| :: d.objects[i].ref == BytesDigest(d.objects[i].payload) && d.objects[i].schema != "")
    && (forall i | 0 <= i < |d.blobs| :: d.blobs[i].ref == BytesDigest(d.blobs[i].payload) && d.blobs[i].mediaType != "")
  }

  ghost predicate GoodDrafting(r: Drafting) { r.Drafted? ==> GoodDraft(r.draft) }

  lemma AddObjectGood(d: Draft, payload: seq<byte>, schema: string)
    requires GoodDraft(d) && d.blobs == []
    ensures GoodDrafting(AddObject(d, payload, schema))
    ensures AddObject(d, payload, schema).Drafted? ==> AddObject(d, payload, schema).draft.blobs == []
  {
    var r := AddObject(d, payload, schema);
    if r.Drafted? { assert Refs(r.draft) == Refs(d) + [BytesDigest(payload)]; }
  }

  lemma AddBlobGood(d: Draft, payload: seq<byte>, mediaType: string)
    requires GoodDraft(d)
    ensures GoodDrafting(AddBlob(d, payload, mediaType))
  {
    var r := AddBlob(d, payload, mediaType);
    if r.Drafted? { assert Refs(r.draft) == Refs(d) + [BytesDigest(payload)]; }
  }

  lemma {:induction false} DraftRawGood(objects: seq<RawObject>)
    ensures GoodDrafting(DraftRaw(objects))
    ensures DraftRaw(objects).Drafted? ==> DraftRaw(objects).draft.blobs == []
  {
    if objects != [] {
      var init := DraftRaw(objects[..|objects| - 1]);
      DraftRawGood(objects[..|objects| - 1]);
      if init.Drafted? { AddObjectGood(init.draft, objects[|objects| - 1].payload, objects[|objects| - 1].schema); }
      hide AddObject, GoodDraft;
    }
  }

  lemma {:induction false} DraftValuesGood(start: Drafting, values: seq<Json>)
    requires GoodDrafting(start) && (start.Drafted? ==> start.draft.blobs == [])
    ensures GoodDrafting(DraftValues(start, values))
    ensures DraftValues(start, values).Drafted? ==> DraftValues(start, values).draft.blobs == []
  {
    if values != [] {
      var init, v := DraftValues(start, values[..|values| - 1]), values[|values| - 1];
      DraftValuesGood(start, values[..|values| - 1]);
      hide AddObject, GoodDraft;
      var frozen := Freeze(v);
      if init.Drafted? && frozen.Some? && frozen.value.JObject? {
        var schema := Lookup(frozen.value.fields, "schema");
        if schema.Some? && schema.value.JString? {
          AddObjectGood(init.draft, Utf8.Encode(Print(frozen.value) + "\n"), schema.value.s);
        }
      }
    }
  }

  lemma {:induction false} DraftBlobsGood(start: Drafting, blobs: seq<RawBlob>)
    requires GoodDrafting(start)
    ensures GoodDrafting(DraftBlobs(start, blobs))
  {
    if blobs != [] {
      var init := DraftBlobs(start, blobs[..|blobs| - 1]);
      DraftBlobsGood(start, blobs[..|blobs| - 1]);
      if init.Drafted? { AddBlobGood(init.draft, blobs[|blobs| - 1].payload, blobs[|blobs| - 1].mediaType); }
      hide AddBlob, GoodDraft;
    }
  }

  /** The intent taken from a raw one: same kind, payload frozen to an object. */
  ghost predicate Taken(raw: Intent, out: Intent) {
    && out.kind == raw.kind != "" && out.payload.JObject?
    && Freeze(raw.payload) == Some(out.payload) && Freeze(out.payload) == Some(out.payload)
  }

  ghost predicate AllTaken(raw: seq<Intent>, out: seq<Intent>) {
    |out| == |raw| && forall i | 0 <= i < |raw| :: Taken(raw[i], out[i])
  }

  lemma AddIntentTaken(intents: seq<Intent>, raw: Intent)
    ensures AddIntent(intents, raw).Intended? ==>
      exists out :: AddIntent(intents, raw).intents == intents + [out] && Taken(raw, out)
  {
    var r, frozen := AddIntent(intents, raw), Freeze(raw.payload);
    if r.Intended? {
      JsonParser.FrozenIsCanonical(raw.payload);
      JsonParser.FreezeCanonical(frozen.value);
      hide Freeze;
      assert Taken(raw, Intent(raw.kind, frozen.value));
    }
  }

  lemma {:induction false} IntentsGood(raw: seq<Intent>)
    ensures DraftIntents(raw).Intended? ==> AllTaken(raw, DraftIntents(raw).intents)
  {
    hide Taken, AddIntent;
    if raw != [] {
      var init := DraftIntents(raw[..|raw| - 1]);
      IntentsGood(raw[..|raw| - 1]);
      if init.Intended? { AddIntentTaken(init.intents, raw[|raw| - 1]); }
    }
  }

  /** The derived record of a candidate claims exactly that candidate. */
  lemma ClaimsItsCandidate(c: Candidate)
    ensures Claimed(DerivedCore(c)) == c
  {
    var claimed := Claimed(DerivedCore(c));
    assert claimed.intents == c.intents;
    hide CommitRoot, CommandHash, ReplayId;
  }

  /** What a plan was made of. */
  lemma PlanParts(i: PlanInput) returns (d: Draft, intents: seq<Intent>)
    requires PlanCommit(i).Planned?
    ensures GoodDraft(d) && AllTaken(i.outbox, intents)
    ensures PlanCommit(i).bundle == BundleOf(PlanCandidate(i, d, intents), d)
    ensures ValidRoot(i.expectedHead) && ValidRoot(i.evidenceRoot) && i.createdAt != "" && i.policyVersion != "" && i.coreVersion != ""
  {
    hide DraftIntents, DraftBlobs, DraftValues, DraftRaw, BundleOf, GoodDraft, AllTaken;
    DraftRawGood(i.prevalidated);
    DraftValuesGood(DraftRaw(i.prevalidated), i.objects);
    DraftBlobsGood(DraftValues(DraftRaw(i.prevalidated), i.objects), i.blobs);
    IntentsGood(i.outbox);
    d, intents := DraftOf(i).draft, DraftIntents(i.outbox).intents;
  }

  lemma PlannedRows(c: Candidate, d: Draft, raw: seq<Intent>)
    requires GoodDraft(d) && c.objects == ObjectRows(d.objects) && c.blobs == BlobRows(d.blobs) && AllTaken(raw, c.intents)
    ensures ValidRows(DerivedCore(c))
    ensures forall i | 0 <= i < |d.objects| :: d.objects[i].ref == BytesDigest(d.objects[i].payload)
    ensures forall i | 0 <= i < |d.blobs| :: d.blobs[i].ref == BytesDigest(d.blobs[i].payload)
    ensures |AllEffects(c)| == |raw|
    ensures forall k | 0 <= k < |raw| ::
      AllEffects(c)[k].kind == raw[k].kind && Some(AllEffects(c)[k].payload) == Freeze(raw[k].payload)
  {
    hide Freeze, CommitRoot, CommandHash, ReplayId, Receipt;
    assert RowRefs(c.objects, c.blobs) == Refs(d);
    assert forall k {:trigger raw[k]} | 0 <= k < |raw| :: Taken(raw[k], c.intents[k]);
  }

  lemma BundleValid(c: Candidate, d: Draft)
    requires ValidRows(DerivedCore(c)) && c.version.V2?
    requires ValidRoot(c.expectedHead) && ValidRoot(c.evidenceRoot) && c.createdAt != "" && c.policyVersion != "" && c.coreVersion != ""
    requires c.objects == ObjectRows(d.objects) && c.blobs == BlobRows(d.blobs)
    requires forall i | 0 <= i < |d.objects| :: d.objects[i].ref == BytesDigest(d.objects[i].payload)
    requires forall i | 0 <= i < |d.blobs| :: d.blobs[i].ref == BytesDigest(d.blobs[i].payload)
    ensures ValidBundle(BundleOf(c, d))
  {
    hide ValidRows, ObjectRows, BlobRows, ValidRoot;
    ClaimsItsCandidate(c);
    assert ValidReceipt(Receipt(c), false);
    hide Claimed, AllEffects;
  }

  /** Every bundle the planner returns passes the bundle validator, on the head it was asked
      for and with the effects it was given. */
  lemma PlannedIsValid(i: PlanInput)
    requires PlanCommit(i).Planned?
    ensures var b := PlanCommit(i).bundle;
      && ValidBundle(b)
      && b.expectedHead == i.expectedHead && b.record.core.createdAt == i.createdAt
      && b.receipt.evidenceRoot == i.evidenceRoot && b.receipt.policyVersion == i.policyVersion
      && |b.outbox| == |i.outbox|
      && (forall k | 0 <= k < |i.outbox| ::
            b.outbox[k].kind == i.outbox[k].kind && Some(b.outbox[k].payload) == Freeze(i.outbox[k].payload))
  {
    var d, intents := PlanParts(i);
    var c := PlanCandidate(i, d, intents);
    hide PlanCommit, ObjectRows, BlobRows, ValidRows, GoodDraft, AllTaken, ValidBundle, AllEffects, CommitRoot, Freeze;
    PlannedRows(c, d, i.outbox);
    BundleValid(c, d);
  }

  // ----- The planner's loops ----------------------------------------------------------------------------------------

  /** The refs written so far, as the loops remember them. */
  ghost predicate Remembers(seen: set<Digest>, d: Draft) {
    forall ref :: ref in seen <==> ref in Refs(d)
  }

  lemma RememberObject(seen: set<Digest>, d: Draft, w: ObjectWrite)
    requires Remembers(seen, d)
    ensures Remembers(seen + {w.ref}, d.(objects := d.objects + [w]))
  {
    var more := d.(objects := d.objects + [w]);
    assert Refs(more) == Refs(Draft(d.objects, [])) + [w.ref] + Refs(Draft([], d.blobs));
    assert Refs(d) == Refs(Draft(d.objects, [])) + Refs(Draft([], d.blobs));
  }

  lemma RememberBlob(seen: set<Digest>, d: Draft, w: BlobWrite)
    requires Remembers(seen, d)
    ensures Remembers(seen + {w.ref}, d.(blobs := d.blobs + [w]))
  {
    assert Refs(d.(blobs := d.blobs + [w])) == Refs(d) + [w.ref];
  }

  method CollectRaw(objects: seq<RawObject>) returns (r: Drafting, seen: set<Digest>)
    ensures r == DraftRaw(objects)
    ensures r.Drafted? ==> Remembers(seen, r.draft)
  {
    seen := {};
    var d := Draft([], []);
    for i := 0 to |objects|
      invariant Drafted(d) == DraftRaw(objects[..i]) && Remembers(seen, d)
    {
      var o := objects[i];
      assert objects[..i + 1][..i] == objects[..i];
      RawStuck(objects, i + 1);
      if o.schema == "" { return Refused(InvalidObjectSchema), seen; }
      var ref := BytesDigest(o.payload);
      if ref in seen { return Refused(DuplicateWrite), seen; }
      RememberObject(seen, d, ObjectWrite(ref, o.schema, o.payload));
      seen := seen + {ref};
      d := d.(objects := d.objects + [ObjectWrite(ref, o.schema, o.payload)]);
    }
    assert objects[..|objects|] == objects;
    r := Drafted(d);
  }

  /** A refusal on a prefix is the refusal of the whole. */
  lemma {:induction false} RawStuck(objects: seq<RawObject>, n: nat)
    requires n <= |objects|
    ensures DraftRaw(objects[..n]).Refused? ==> DraftRaw(objects) == DraftRaw(objects[..n])
    decreases |objects| - n
  {
    hide AddObject;
    if n == |objects| { assert objects[..n] == objects; }
    else { assert objects[..n + 1][..n] == objects[..n]; RawStuck(objects, n + 1); }
  }

  lemma {:induction false} ValuesStuck(start: Drafting, values: seq<Json>, n: nat)
    requires n <= |values|
    ensures DraftValues(start, values[..n]).Refused? ==> DraftValues(start, values) == DraftValues(start, values[..n])
    decreases |values| - n
  {
    hide AddValue;
    if n == |values| { assert values[..n] == values; }
    else { assert values[..n + 1][..n] == values[..n]; ValuesStuck(start, values, n + 1); }
  }

  lemma {:induction false} BlobsStuck(start: Drafting, blobs: seq<RawBlob>, n: nat)
    requires n <= |blobs|
    ensures DraftBlobs(start, blobs[..n]).Refused? ==> DraftBlobs(start, blobs) == DraftBlobs(start, blobs[..n])
    decreases |blobs| - n
  {
    hide AddBlob;
    if n == |blobs| { assert blobs[..n] == blobs; }
    else { assert blobs[..n + 1][..n] == blobs[..n]; BlobsStuck(start, blobs, n + 1); }
  }

  lemma {:induction false} IntentsStuck(raw: seq<Intent>, n: nat)
    requires n <= |raw|
    ensures DraftIntents(raw[..n]).BadIntent? ==> DraftIntents(raw) == DraftIntents(raw[..n])
    decreases |raw| - n
  {
    hide AddIntent;
    if n == |raw| { assert raw[..n] == raw; }
    else { assert raw[..n + 1][..n] == raw[..n]; IntentsStuck(raw, n + 1); }
  }

  method CollectValues(start: Draft, before: set<Digest>, values: seq<Json>) returns (r: Drafting, seen: set<Digest>)
    requires Remembers(before, start)
    ensures r == DraftValues(Drafted(start), values)
    ensures r.Drafted? ==> Remembers(seen, r.draft)
  {
    hide Freeze, Print;
    seen := before;
    var d := start;
    for i := 0 to |values|
      invariant Drafted(d) == DraftValues(Drafted(start), values[..i]) && Remembers(seen, d)
    {
      assert values[..i + 1][..i] == values[..i];
      ValuesStuck(Drafted(start), values, i + 1);
      var frozen := Freeze(values[i]);
      if frozen.None? || !frozen.value.JObject? { return Refused(InvalidObject), seen; }
      var schema := Lookup(frozen.value.fields, "schema");
      if schema.None? || !schema.value.JString? || schema.value.s == "" { return Refused(InvalidObjectSchema), seen; }
      var payload := Utf8.Encode(Print(frozen.value) + "\n");
      var ref := BytesDigest(payload);
      if ref in seen { return Refused(DuplicateWrite), seen; }
      RememberObject(seen, d, ObjectWrite(ref, schema.value.s, payload));
      seen := seen + {ref};
      d := d.(objects := d.objects + [ObjectWrite(ref, schema.value.s, payload)]);
    }
    assert values[..|values|] == values;
    r := Drafted(d);
  }

  method CollectBlobs(start: Draft, before: set<Digest>, blobs: seq<RawBlob>) returns (r: Drafting)
    requires Remembers(before, start)
    ensures r == DraftBlobs(Drafted(start), blobs)
  {
    var seen, d := before, start;
    for i := 0 to |blobs|
      invariant Drafted(d) == DraftBlobs(Drafted(start), blobs[..i]) && Remembers(seen, d)
    {
      var b := blobs[i];
      assert blobs[..i + 1][..i] == blobs[..i];
      BlobsStuck(Drafted(start), blobs, i + 1);
      if b.mediaType == "" { return Refused(InvalidMediaType); }
      var ref := BytesDigest(b.payload);
      if ref in seen { return Refused(DuplicateWrite); }
      RememberBlob(seen, d, BlobWrite(ref, b.mediaType, b.payload));
      seen := seen + {ref};
      d := d.(blobs := d.blobs + [BlobWrite(ref, b.mediaType, b.payload)]);
    }
    assert blobs[..|blobs|] == blobs;
    r := Drafted(d);
  }

  method CollectIntents(raw: seq<Intent>) returns (r: Intending)
    ensures r == DraftIntents(raw)
  {
    hide Freeze;
    var intents: seq<Intent> := [];
    for i := 0 to |raw|
      invariant Intended(intents) == DraftIntents(raw[..i])
    {
      assert raw[..i + 1][..i] == raw[..i];
      IntentsStuck(raw, i + 1);
      if raw[i].kind == "" { return BadIntent(InvalidEffect); }
      var frozen := Freeze(raw[i].payload);
      if frozen.None? || !frozen.value.JObject? { return BadIntent(InvalidObject); }
      intents := intents + [Intent(raw[i].kind, frozen.value)];
    }
    assert raw[..|raw|] == raw;
    r := Intended(intents);
  }

  lemma RefusedStays(code: PlanCode, values: seq<Json>, blobs: seq<RawBlob>)
    ensures DraftValues(Refused(code), values) == Refused(code) && DraftBlobs(Refused(code), blobs) == Refused(code)
  {
    ValuesStuck(Refused(code), values, 0);
    BlobsStuck(Refused(code), blobs, 0);
    assert values[..0] == [] && blobs[..0] == [];
  }

  method RunPlanCommit(i: PlanInput) returns (r: PlanResult)
    ensures r == PlanCommit(i)
  {
    if !ValidRoot(i.expectedHead) { return Rejected(InvalidPreStateRoot); }
    if i.createdAt == "" { return Rejected(InvalidCreatedAt); }
    if !ValidRoot(i.evidenceRoot) { return Rejected(InvalidEvidenceRoot); }
    hide DraftRaw, DraftValues, DraftBlobs, DraftIntents, Remembers, ValidRoot;
    var raw, seen := CollectRaw(i.prevalidated);
    if raw.Refused? {
      RefusedStays(raw.code, i.objects, i.blobs);
      return Rejected(raw.code);
    }
    var values, all := CollectValues(raw.draft, seen, i.objects);
    if values.Refused? {
      RefusedStays(values.code, [], i.blobs);
      return Rejected(values.code);
    }
    var drafted := CollectBlobs(values.draft, all, i.blobs);
    if drafted.Refused? { return Rejected(drafted.code); }
    var intents := CollectIntents(i.outbox);
    if intents.BadIntent? { return Rejected(intents.code); }
    if i.policyVersion == "" || i.coreVersion == "" { return Raised; }
    var c := PlanCandidate(i, drafted.draft, intents.intents);
    var effects, record := DeriveCommitRecord(c);
    return Planned(CommitBundle(c.expectedHead, record.core.commitRoot, record.recordHash, drafted.draft.objects,
                                drafted.draft.blobs, effects, record.core.receipt, record));
  }
}
