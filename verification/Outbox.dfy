/** The transactional outbox: which committed effects are pending, and a hash-chained journal
    of acknowledgements with at most one per effect. */
module Outbox {
  import opened Prelude
  import opened CanonicalJson
  import opened CommitRecords
  import opened AuthorityLog

  datatype CommittedEffect = CommittedEffect(effectId: Digest, commitRecordHash: Digest, kind: string, payload: Json)

  /** Acknowledgement hashes, symbolic: text, or the digest of an acknowledgement's core. */
  datatype AckHash = AckText(text: string) | AckDigest(core: AckCore)

  datatype AckCore = AckCore(
    effectId: Digest,
    commitRecordHash: Digest,
    handlerId: string,
    deliveredAt: string,
    receipt: Json,
    previous: AckHash)

  datatype Ack = Ack(core: AckCore, hash: AckHash)

  const NO_ACK := AckText("")

  datatype OutboxCode =
    | InvalidEffectId | InvalidCommitRecordHash | InvalidEffectKind | ConflictingEffectId
    | InvalidAckEffectId | AckForUnknownEffect | AckCommitMismatch | ConflictingAck
    | PredecessorMismatch | AckHashMismatch | InvalidHandlerId | InvalidDeliveredAt | InvalidAckHead

  // ----- Committed effects ----------------------------------------------------------------------------------------

  function EffectsOf(r: LogRecord): seq<CommittedEffect> {
    if r.Commit? then
      seq(|r.commit.core.outbox|, i requires 0 <= i < |r.commit.core.outbox| =>
        CommittedEffect(r.commit.core.outbox[i].effectId, r.commit.recordHash, r.commit.core.outbox[i].kind, r.commit.core.outbox[i].payload))
    else []
  }

  /** Every effect of every commit record, in log order. */
  function CommittedEffects(records: seq<LogRecord>): seq<CommittedEffect> {
    if records == [] then [] else CommittedEffects(records[..|records| - 1]) + EffectsOf(records[|records| - 1])
  }

  /** Where a committed effect came from. */
  lemma {:induction false} EffectOrigin(records: seq<LogRecord>, k: nat) returns (i: nat, m: nat)
    requires k < |CommittedEffects(records)|
    ensures i < |records| && records[i].Commit? && m < |records[i].commit.core.outbox|
    ensures CommittedEffects(records)[k] == EffectsOf(records[i])[m]
    ensures k == |CommittedEffects(records[..i])| + m
  {
    var init, last := records[..|records| - 1], records[|records| - 1];
    if k < |CommittedEffects(init)| {
      i, m := EffectOrigin(init, k);
      assert records[..i] == init[..i];
    } else {
      i, m := |init|, k - |CommittedEffects(init)|;
    }
  }

  /** In a verified log the committed effects are well formed and have distinct ids. */
  lemma VerifiedEffects(records: seq<LogRecord>)
    requires Verified(records)
    ensures forall k | 0 <= k < |CommittedEffects(records)| :: EffectFault(CommittedEffects(records), k).None?
    ensures forall k, j | 0 <= k < j < |CommittedEffects(records)| ::
      CommittedEffects(records)[k].effectId != CommittedEffects(records)[j].effectId
  {
    var effects := CommittedEffects(records);
    forall k, j | 0 <= k < j < |effects| ensures effects[k].effectId != effects[j].effectId {
      var a, m := EffectOrigin(records, k);
      var b, n := EffectOrigin(records, j);
      if effects[k].effectId == effects[j].effectId { EffectIdsDistinct(records, a, m, b, n); }
    }
    forall k | 0 <= k < |effects| ensures EffectFault(effects, k).None? {
      var a, m := EffectOrigin(records, k);
      RecordAt(records, a);
      OriginWellFormed(records[a], Head(records[..a]), m);
    }
  }

  lemma OriginWellFormed(r: LogRecord, previous: Digest, m: nat)
    requires RecordOk(r, previous) && r.Commit? && m < |r.commit.core.outbox|
    ensures var e := EffectsOf(r)[m]; ValidDigest(e.effectId) && ValidDigest(e.commitRecordHash) && e.kind != ""
  {
    assert ValidRows(r.commit.core);
  }

  // ----- Pending effects ------------------------------------------------------------------------------------------

  /** The fault found at one effect, given the ones before it. */
  function EffectFault(effects: seq<CommittedEffect>, k: nat): Option<OutboxCode>
    requires k < |effects|
  {
    var e := effects[k];
    if !ValidDigest(e.effectId) then Some(InvalidEffectId)
    else if !ValidDigest(e.commitRecordHash) then Some(InvalidCommitRecordHash)
    else if e.kind == "" then Some(InvalidEffectKind)
    else if exists j | 0 <= j < k :: effects[j].effectId == e.effectId && effects[j] != e then Some(ConflictingEffectId)
    else None
  }

  predicate Known(effects: seq<CommittedEffect>, id: Digest) {
    exists j | 0 <= j < |effects| :: effects[j].effectId == id
  }

  predicate KnownAs(effects: seq<CommittedEffect>, id: Digest, commit: Digest) {
    exists j | 0 <= j < |effects| :: effects[j].effectId == id && effects[j].commitRecordHash == commit
  }

  function AckFault(effects: seq<CommittedEffect>, acks: seq<Ack>, k: nat): Option<OutboxCode>
    requires k < |acks|
  {
    var a := acks[k];
    if !ValidDigest(a.core.effectId) then Some(InvalidAckEffectId)
    else if !Known(effects, a.core.effectId) then Some(AckForUnknownEffect)
    else if !KnownAs(effects, a.core.effectId, a.core.commitRecordHash) then Some(AckCommitMismatch)
    else if exists j | 0 <= j < k :: acks[j].core.effectId == a.core.effectId && acks[j] != a then Some(ConflictingAck)
    else None
  }

  predicate NoFaults(effects: seq<CommittedEffect>, acks: seq<Ack>) {
    && (forall k | 0 <= k < |effects| :: EffectFault(effects, k).None?)
    && (forall k | 0 <= k < |acks| :: AckFault(effects, acks, k).None?)
  }

  predicate Acknowledged(acks: seq<Ack>, id: Digest) {
    exists k | 0 <= k < |acks| :: acks[k].core.effectId == id
  }

  datatype PendingResult = Pending(effects: seq<CommittedEffect>) | Reject(code: OutboxCode)

  function IdOrder(le: (Digest, Digest) -> bool): (CommittedEffect, CommittedEffect) -> bool {
    (a: CommittedEffect, b: CommittedEffect) => le(a.effectId, b.effectId)
  }

  /** The first fault among the effects. */
  ghost predicate FirstEffectFault(effects: seq<CommittedEffect>, code: OutboxCode) {
    exists k | 0 <= k < |effects| ::
      EffectFault(effects, k) == Some(code) && forall j | 0 <= j < k :: EffectFault(effects, j).None?
  }

  ghost predicate FirstAckFault(effects: seq<CommittedEffect>, acks: seq<Ack>, code: OutboxCode) {
    exists k | 0 <= k < |acks| ::
      AckFault(effects, acks, k) == Some(code) && forall j | 0 <= j < k :: AckFault(effects, acks, j).None?
  }

  /** The dictionary by id and its values in order of first appearance. */
  ghost predicate Indexed(effects: seq<CommittedEffect>, byId: map<Digest, CommittedEffect>, distinct: seq<CommittedEffect>) {
    && (forall e :: e in effects <==> e in distinct)
    && (forall e :: e in distinct <==> e.effectId in byId && byId[e.effectId] == e)
    && (forall id | id in byId :: byId[id].effectId == id)
    && Distinct(distinct)
  }

  lemma SeenBefore(effects: seq<CommittedEffect>, i: nat, byId: map<Digest, CommittedEffect>, distinct: seq<CommittedEffect>)
    requires i < |effects| && Indexed(effects[..i], byId, distinct)
    ensures effects[i].effectId in byId && byId[effects[i].effectId] != effects[i]
      <==> exists j | 0 <= j < i :: effects[j].effectId == effects[i].effectId && effects[j] != effects[i]
  {
  }

  lemma IndexOne(effects: seq<CommittedEffect>, i: nat, byId: map<Digest, CommittedEffect>, distinct: seq<CommittedEffect>)
    requires i < |effects| && Indexed(effects[..i], byId, distinct)
    requires effects[i].effectId in byId ==> byId[effects[i].effectId] == effects[i]
    ensures Indexed(effects[..i + 1], byId[effects[i].effectId := effects[i]],
                    if effects[i].effectId in byId then distinct else distinct + [effects[i]])
  {
    assert effects[..i + 1] == effects[..i] + [effects[i]];
  }

  lemma KnownById(effects: seq<CommittedEffect>, byId: map<Digest, CommittedEffect>, distinct: seq<CommittedEffect>, id: Digest)
    requires Indexed(effects, byId, distinct)
    ensures id in byId <==> Known(effects, id)
    ensures id in byId ==> forall commit :: KnownAs(effects, id, commit) <==> byId[id].commitRecordHash == commit
  {
    if Known(effects, id) {
      var j :| 0 <= j < |effects| && effects[j].effectId == id;
      assert effects[j] in effects;
    }
    if id in byId { assert byId[id] in effects; }
  }

  /** Collect the effects by id, refusing the first that is malformed or conflicts. */
  method IndexEffects(effects: seq<CommittedEffect>)
    returns (fault: Option<OutboxCode>, byId: map<Digest, CommittedEffect>, distinct: seq<CommittedEffect>)
    ensures fault.None? ==> (forall k | 0 <= k < |effects| :: EffectFault(effects, k).None?) && Indexed(effects, byId, distinct)
    ensures fault.Some? ==> FirstEffectFault(effects, fault.value)
  {
    hide ValidDigest, Indexed;
    byId, distinct := map[], [];
    IndexNone();
    for i := 0 to |effects|
      invariant forall k | 0 <= k < i :: EffectFault(effects, k).None?
      invariant Indexed(effects[..i], byId, distinct)
    {
      var e := effects[i];
      ghost var expected := EffectFault(effects, i);
      SeenBefore(effects, i, byId, distinct);
      if !ValidDigest(e.effectId) { return Some(InvalidEffectId), byId, distinct; }
      if !ValidDigest(e.commitRecordHash) { return Some(InvalidCommitRecordHash), byId, distinct; }
      if e.kind == "" { return Some(InvalidEffectKind), byId, distinct; }
      if e.effectId in byId && byId[e.effectId] != e { return Some(ConflictingEffectId), byId, distinct; }
      IndexOne(effects, i, byId, distinct);
      if e.effectId !in byId { distinct := distinct + [e]; }
      byId := byId[e.effectId := e];
    }
    assert effects[..|effects|] == effects;
    fault := None;
  }

  lemma IndexNone()
    ensures Indexed([], map[], [])
  {
  }

  lemma AckSeen(acks: seq<Ack>, i: nat)
    requires i < |acks|
    ensures forall id :: Acknowledged(acks[..i + 1], id) <==> Acknowledged(acks[..i], id) || id == acks[i].core.effectId
  {
    var before, after := acks[..i], acks[..i + 1];
    forall id ensures Acknowledged(after, id) <==> Acknowledged(before, id) || id == acks[i].core.effectId {
      assert forall k {:trigger before[k]} | 0 <= k < i :: after[k] == before[k];
      assert after[i] == acks[i];
    }
  }

  /** Collect the acknowledgements by effect, refusing the first that names no effect, names
      another commit, or conflicts. */
  method IndexAcks(effects: seq<CommittedEffect>, byId: map<Digest, CommittedEffect>, ghost distinct: seq<CommittedEffect>, acks: seq<Ack>)
    returns (fault: Option<OutboxCode>, acknowledged: map<Digest, Ack>)
    requires Indexed(effects, byId, distinct)
    ensures fault.None? ==>
      && (forall k | 0 <= k < |acks| :: AckFault(effects, acks, k).None?)
      && forall id :: id in acknowledged <==> Acknowledged(acks, id)
    ensures fault.Some? ==> FirstAckFault(effects, acks, fault.value)
  {
    hide ValidDigest, Indexed, Known, KnownAs, Acknowledged;
    acknowledged := map[];
    assert forall id :: !Acknowledged(acks[..0], id) by { NothingAcknowledged(acks[..0]); }
    for i := 0 to |acks|
      invariant forall k | 0 <= k < i :: AckFault(effects, acks, k).None?
      invariant forall id :: id in acknowledged <==> Acknowledged(acks[..i], id)
      invariant forall k | 0 <= k < i :: acks[k].core.effectId in acknowledged && acknowledged[acks[k].core.effectId] == acks[k]
      invariant forall id | id in acknowledged :: exists k :: 0 <= k < i && acks[k].core.effectId == id
    {
      var a := acks[i];
      ghost var expected := AckFault(effects, acks, i);
      KnownById(effects, byId, distinct, a.core.effectId);
      AckSeen(acks, i);
      if !ValidDigest(a.core.effectId) { return Some(InvalidAckEffectId), acknowledged; }
      if a.core.effectId !in byId { return Some(AckForUnknownEffect), acknowledged; }
      if a.core.commitRecordHash != byId[a.core.effectId].commitRecordHash { return Some(AckCommitMismatch), acknowledged; }
      if a.core.effectId in acknowledged && acknowledged[a.core.effectId] != a { return Some(ConflictingAck), acknowledged; }
      acknowledged := acknowledged[a.core.effectId := a];
    }
    assert acks[..|acks|] == acks;
    fault := None;
  }

  lemma NothingAcknowledged(acks: seq<Ack>)
    requires acks == []
    ensures forall id :: !Acknowledged(acks, id)
  {
  }

  /** The effects whose ids are not among the keys. */
  function Unacknowledged(effects: seq<CommittedEffect>, keys: set<Digest>): (out: seq<CommittedEffect>)
    ensures forall e :: e in out <==> e in effects && e.effectId !in keys
  {
    if effects == [] then []
    else
      var last := effects[|effects| - 1];
      assert effects == effects[..|effects| - 1] + [last];
      Unacknowledged(effects[..|effects| - 1], keys) + (if last.effectId in keys then [] else [last])
  }

  lemma {:induction false} UnacknowledgedDistinct(effects: seq<CommittedEffect>, keys: set<Digest>)
    requires Distinct(effects)
    ensures Distinct(Unacknowledged(effects, keys))
  {
    if effects != [] {
      var init, last := effects[..|effects| - 1], effects[|effects| - 1];
      UnacknowledgedDistinct(init, keys);
      var out := Unacknowledged(init, keys);
      forall i | 0 <= i < |out| ensures out[i] != last { assert out[i] in init; }
    }
  }

  predicate Differ(a: CommittedEffect, b: CommittedEffect) { a != b }

  lemma SortPending(pending: seq<CommittedEffect>, le: (Digest, Digest) -> bool)
    requires LinearOrder(le) && Distinct(pending)
    ensures var out := SortBy(pending, IdOrder(le));
      SortedBy(out, IdOrder(le)) && Distinct(out) && forall e :: e in out <==> e in pending
  {
    var order := IdOrder(le);
    forall a, b ensures order(a, b) || order(b, a) { assert le(a.effectId, b.effectId) || le(b.effectId, a.effectId); }
    forall a, b, c | order(a, b) && order(b, c) ensures order(a, c) { assert le(a.effectId, b.effectId) && le(b.effectId, c.effectId); }
    SortBySorted(pending, IdOrder(le));
    SortByElements(pending, IdOrder(le));
    assert Pairwise(pending, Differ);
    SortByPairwise(pending, IdOrder(le), Differ);
    var out := SortBy(pending, IdOrder(le));
    assert forall i, j | 0 <= i < j < |out| :: Differ(out[i], out[j]);
    hide SortBy;
  }

  /** The pending effects, in the order `le` puts their ids: each distinct committed effect
      that no acknowledgement names, once; or the first fault of the snapshot. */
  method PendingOutbox(effects: seq<CommittedEffect>, acks: seq<Ack>, le: (Digest, Digest) -> bool) returns (r: PendingResult)
    requires LinearOrder(le)
    ensures r.Pending? <==> NoFaults(effects, acks)
    ensures r.Pending? ==> IsPending(effects, acks, le, r.effects)
    ensures r.Reject? ==>
      FirstEffectFault(effects, r.code)
      || ((forall k | 0 <= k < |effects| :: EffectFault(effects, k).None?) && FirstAckFault(effects, acks, r.code))
  {
    hide EffectFault, AckFault, Acknowledged, LinearOrder, IdOrder, Unacknowledged, SortBy, SortedBy;
    var fault, byId, distinct := IndexEffects(effects);
    if fault.Some? { return Reject(fault.value); }
    var ackFault, acknowledged := IndexAcks(effects, byId, distinct, acks);
    if ackFault.Some? { return Reject(ackFault.value); }
    var pending := Unacknowledged(distinct, acknowledged.Keys);
    UnacknowledgedDistinct(distinct, acknowledged.Keys);
    SortPending(pending, le);
    r := Pending(SortBy(pending, IdOrder(le)));
  }

  /** Exactly the distinct effects no acknowledgement names, sorted by id. */
  ghost predicate IsPending(effects: seq<CommittedEffect>, acks: seq<Ack>, le: (Digest, Digest) -> bool, out: seq<CommittedEffect>) {
    && (forall e :: e in out <==> e in effects && !Acknowledged(acks, e.effectId))
    && Distinct(out)
    && SortedBy(out, IdOrder(le))
  }

  // ----- The pending list as a value ----------------------------------------------------------------------------------

  function AckedIds(acks: seq<Ack>): set<Digest> { set a | a in acks :: a.core.effectId }

  function EffectIds(effects: seq<CommittedEffect>): set<Digest> { set e | e in effects :: e.effectId }

  ghost predicate IdsApart(effects: seq<CommittedEffect>) {
    forall j, k | 0 <= j < k < |effects| :: effects[j].effectId != effects[k].effectId
  }

  /** The list exists, whatever the acknowledgements. */
  lemma PendingExists(effects: seq<CommittedEffect>, acks: seq<Ack>, le: (Digest, Digest) -> bool) returns (out: seq<CommittedEffect>)
    requires LinearOrder(le) && IdsApart(effects)
    ensures IsPending(effects, acks, le, out)
  {
    var open := Unacknowledged(effects, AckedIds(acks));
    assert Distinct(effects);
    UnacknowledgedDistinct(effects, AckedIds(acks));
    SortPending(open, le);
    out := SortBy(open, IdOrder(le));
    forall id ensures id in AckedIds(acks) <==> Acknowledged(acks, id) { }
    hide SortBy, SortedBy, Unacknowledged, AckedIds, Acknowledged;
    forall e ensures e in out <==> e in effects && !Acknowledged(acks, e.effectId) {
      assert e in open <==> e in effects && e.effectId !in AckedIds(acks);
    }
  }

  /** And there is only one, so it is the one `PendingOutbox` returns. */
  lemma PendingUnique(effects: seq<CommittedEffect>, acks: seq<Ack>, le: (Digest, Digest) -> bool,
                      a: seq<CommittedEffect>, b: seq<CommittedEffect>)
    requires IdsApart(effects) && (forall x, y | le(x, y) && le(y, x) :: x == y)
    requires IsPending(effects, acks, le, a) && IsPending(effects, acks, le, b)
    ensures a == b
  {
    hide Acknowledged;
    forall x, y | IdOrder(le)(x, y) && IdOrder(le)(y, x) && (x in a || x in b) && (y in a || y in b) ensures x == y {
      assert x in effects && y in effects;
      var j :| 0 <= j < |effects| && effects[j] == x;
      var k :| 0 <= k < |effects| && effects[k] == y;
    }
    SortedDetermined(a, b, IdOrder(le));
  }

  /** When every acknowledgement names an effect, the ids split into acknowledged and pending. */
  lemma IdsSplit(effects: seq<CommittedEffect>, acks: seq<Ack>, le: (Digest, Digest) -> bool, pending: seq<CommittedEffect>)
    requires IdsApart(effects) && IsPending(effects, acks, le, pending)
    requires forall k | 0 <= k < |acks| :: Known(effects, acks[k].core.effectId)
    ensures EffectIds(effects) == AckedIds(acks) + EffectIds(pending) && AckedIds(acks) !! EffectIds(pending)
  {
    hide SortedBy;
    forall id ensures id in EffectIds(effects) <==> id in AckedIds(acks) || id in EffectIds(pending) {
      if id in EffectIds(effects) {
        var e :| e in effects && e.effectId == id;
        if Acknowledged(acks, id) {
          var k :| 0 <= k < |acks| && acks[k].core.effectId == id;
          assert acks[k] in acks;
        } else {
          assert e in pending;
        }
      }
      if id in AckedIds(acks) {
        var a :| a in acks && a.core.effectId == id;
        var k :| 0 <= k < |acks| && acks[k] == a;
        var j :| 0 <= j < |effects| && effects[j].effectId == id;
        assert effects[j] in effects;
      }
    }
    forall id | id in AckedIds(acks) ensures id !in EffectIds(pending) {
      var a :| a in acks && a.core.effectId == id;
      assert Acknowledged(acks, id);
    }
  }
}
