/** The acknowledgement journal and the delivery loop of the outbox shell. */
module DeliveryJournal {
  import opened Prelude
  import opened CanonicalJson
  import opened CommitRecords
  import opened AuthorityLog
  import opened Outbox

  // ----- The chain of acknowledgements ------------------------------------------------------------------------------

  /** The hash an acknowledgement at position k must name as its predecessor. */
  function AckHead(acks: seq<Ack>): AckHash {
    if acks == [] then NO_ACK else acks[|acks| - 1].hash
  }

  function ChainFault(acks: seq<Ack>, k: nat): Option<OutboxCode>
    requires k < |acks|
  {
    var a := acks[k];
    if a.core.previous != AckHead(acks[..k]) then Some(PredecessorMismatch)
    else if a.hash != AckDigest(a.core) then Some(AckHashMismatch)
    else if exists j | 0 <= j < k :: acks[j].core.effectId == a.core.effectId && acks[j] != a then Some(ConflictingAck)
    else None
  }

  predicate ChainOk(acks: seq<Ack>) {
    forall k | 0 <= k < |acks| :: ChainFault(acks, k).None?
  }

  /** The verification loop; None when the chain holds. */
  method VerifyAckChain(acks: seq<Ack>) returns (fault: Option<OutboxCode>)
    ensures fault.None? <==> ChainOk(acks)
    ensures fault.Some? ==>
      exists k | 0 <= k < |acks| :: ChainFault(acks, k) == fault && forall j | 0 <= j < k :: ChainFault(acks, j).None?
  {
    var previous := NO_ACK;
    var seen: map<Digest, Ack> := map[];
    for k := 0 to |acks|
      invariant forall j | 0 <= j < k :: ChainFault(acks, j).None?
      invariant previous == AckHead(acks[..k])
      invariant forall j | 0 <= j < k :: acks[j].core.effectId in seen && seen[acks[j].core.effectId] == acks[j]
      invariant forall id | id in seen :: exists j :: 0 <= j < k && acks[j].core.effectId == id
    {
      var a := acks[k];
      ghost var expected := ChainFault(acks, k);
      if a.core.previous != previous { return Some(PredecessorMismatch); }
      if a.hash != AckDigest(a.core) { return Some(AckHashMismatch); }
      if a.core.effectId in seen && seen[a.core.effectId] != a { return Some(ConflictingAck); }
      seen := seen[a.core.effectId := a];
      previous := a.hash;
    }
    fault := None;
  }

  function AckDepth(h: AckHash): nat {
    match h
    case AckText(_) => 0
    case AckDigest(core) => 1 + AckDepth(core.previous)
  }

  lemma {:induction false} ChainDepth(acks: seq<Ack>, k: nat)
    requires ChainOk(acks) && k < |acks|
    ensures AckDepth(acks[k].hash) == k + 1
  {
    assert ChainFault(acks, k).None?;
    if k > 0 {
      ChainDepth(acks, k - 1);
      assert acks[..k][k - 1] == acks[k - 1];
    }
  }

  /** A chain that verifies acknowledges each effect at most once: equal acknowledgements
      would sit at different depths, and different ones conflict. */
  lemma OneAckPerEffect(acks: seq<Ack>, j: nat, k: nat)
    requires ChainOk(acks) && j < k < |acks|
    ensures acks[j].core.effectId != acks[k].core.effectId
  {
    ChainDepth(acks, j);
    ChainDepth(acks, k);
    assert ChainFault(acks, k).None?;
  }

  lemma ChainAppend(acks: seq<Ack>, a: Ack)
    requires ChainOk(acks) && a.core.previous == AckHead(acks) && a.hash == AckDigest(a.core)
    requires !Acknowledged(acks, a.core.effectId)
    ensures ChainOk(acks + [a])
  {
    var more := acks + [a];
    forall k | 0 <= k < |more| ensures ChainFault(more, k).None? {
      if k < |acks| {
        assert more[..k] == acks[..k];
        assert ChainFault(acks, k).None?;
        assert forall j {:trigger acks[j]} | 0 <= j < k :: more[j] == acks[j];
      } else {
        assert more[..k] == acks;
        assert forall j {:trigger acks[j]} | 0 <= j < k :: more[j] == acks[j];
      }
    }
  }

  // ----- The journal --------------------------------------------------------------------------------------------------

  predicate ValidAckHash(h: AckHash) { h.AckText? ==> h.text == "" || ValidRefText(h.text) }

  /** Bind a delivery to an effect, or say why not. */
  function PlanFault(e: CommittedEffect, handlerId: string, deliveredAt: string, previous: AckHash): Option<OutboxCode> {
    if !ValidDigest(e.effectId) then Some(InvalidEffectId)
    else if !ValidDigest(e.commitRecordHash) then Some(InvalidCommitRecordHash)
    else if handlerId == "" then Some(InvalidHandlerId)
    else if deliveredAt == "" then Some(InvalidDeliveredAt)
    else if !ValidAckHash(previous) then Some(InvalidAckHead)
    else None
  }

  function PlannedAck(e: CommittedEffect, handlerId: string, deliveredAt: string, receipt: Json, previous: AckHash): Ack {
    var core := AckCore(e.effectId, e.commitRecordHash, handlerId, deliveredAt, receipt, previous);
    Ack(core, AckDigest(core))
  }

  /** Whether a delivery of this effect can be recorded in a journal that verifies. */
  predicate Recordable(acks: seq<Ack>, e: CommittedEffect, handlerId: string, deliveredAt: string, receipt: Json) {
    if Acknowledged(acks, e.effectId) then
      exists k | 0 <= k < |acks| :: acks[k].core.effectId == e.effectId && acks[k].core.commitRecordHash == e.commitRecordHash
    else
      Freeze(receipt).Some? && Freeze(receipt).value.JObject? && PlanFault(e, handlerId, deliveredAt, AckHead(acks)).None?
  }

  class Journal {
    var acks: seq<Ack>

    constructor ()
      ensures acks == []
    {
      acks := [];
    }

    /** Record one acknowledgement, or return the one the effect already has. */
    method AppendIdempotent(e: CommittedEffect, handlerId: string, deliveredAt: string, receipt: Json) returns (r: Option<Ack>)
      modifies this
      ensures r.Some? <==> ChainOk(old(acks)) && Recordable(old(acks), e, handlerId, deliveredAt, receipt)
      ensures r.None? ==> acks == old(acks)
      ensures r.Some? ==>
        && ChainOk(acks)
        && r.value in acks && r.value.core.effectId == e.effectId && r.value.core.commitRecordHash == e.commitRecordHash
        && acks == (if Acknowledged(old(acks), e.effectId) then old(acks)
                    else old(acks) + [PlannedAck(e, handlerId, deliveredAt, Freeze(receipt).value, AckHead(old(acks)))])
    {
      hide ChainOk, Freeze, PlanFault;
      var fault := VerifyAckChain(acks);
      if fault.Some? { return None; }
      for k := 0 to |acks|
        invariant acks == old(acks)
        invariant forall j | 0 <= j < k :: acks[j].core.effectId != e.effectId
      {
        if acks[k].core.effectId != e.effectId { continue; }
        FirstIsOnly(acks, k);
        if acks[k].core.commitRecordHash != e.commitRecordHash { return None; }
        return Some(acks[k]);
      }
      var frozen := Freeze(receipt);
      if frozen.None? || !frozen.value.JObject? { return None; }
      var planned := PlanFault(e, handlerId, deliveredAt, AckHead(acks));
      if planned.Some? { return None; }
      var ack := PlannedAck(e, handlerId, deliveredAt, frozen.value, AckHead(acks));
      ChainAppend(acks, ack);
      acks := acks + [ack];
      return Some(ack);
    }
  }

  lemma FirstIsOnly(acks: seq<Ack>, k: nat)
    requires ChainOk(acks) && k < |acks|
    ensures Acknowledged(acks, acks[k].core.effectId)
    ensures forall j | 0 <= j < |acks| && acks[j].core.effectId == acks[k].core.effectId :: j == k
  {
    forall j | 0 <= j < |acks| && acks[j].core.effectId == acks[k].core.effectId ensures j == k {
      if j < k { OneAckPerEffect(acks, j, k); }
      if k < j { OneAckPerEffect(acks, k, j); }
    }
  }

  // ----- Delivery -----------------------------------------------------------------------------------------------------

  /** A registered handler; None is the exception a delivery may raise. */
  datatype Handler = Handler(handlerId: string, deliver: (Digest, Json) -> Option<Json>)

  datatype Status = Delivered(hash: AckHash) | FailedDelivery | MissingHandler
  datatype Attempt = Attempt(effectId: Digest, status: Status)

  /** The handler is there, returns an object, and the delivery has a handler id and a time. */
  predicate Succeeds(e: CommittedEffect, handlers: map<string, Handler>, deliveredAt: string) {
    && e.kind in handlers && handlers[e.kind].handlerId != "" && deliveredAt != ""
    && handlers[e.kind].deliver(e.effectId, e.payload).Some?
    && Freeze(handlers[e.kind].deliver(e.effectId, e.payload).value).Some?
    && Freeze(handlers[e.kind].deliver(e.effectId, e.payload).value).value.JObject?
  }

  /** The acknowledgement such a delivery leaves, chained to its predecessor. */
  function DeliveryAck(e: CommittedEffect, handlers: map<string, Handler>, deliveredAt: string, previous: AckHash): Ack
    requires Succeeds(e, handlers, deliveredAt)
  {
    PlannedAck(e, handlers[e.kind].handlerId, deliveredAt, Freeze(handlers[e.kind].deliver(e.effectId, e.payload).value).value, previous)
  }

  /** What one attempt must report: delivered exactly when the delivery succeeds, and then the
      hash of the acknowledgement that records it. */
  ghost predicate Attempted(e: CommittedEffect, t: Attempt, handlers: map<string, Handler>, deliveredAt: string, acks: seq<Ack>) {
    && t.effectId == e.effectId
    && (t.status.MissingHandler? <==> e.kind !in handlers)
    && (t.status.Delivered? <==> Succeeds(e, handlers, deliveredAt))
    && (t.status.Delivered? ==>
          exists k | 0 <= k < |acks| ::
            acks[k].hash == t.status.hash && acks[k] == DeliveryAck(e, handlers, deliveredAt, AckHead(acks[..k])))
  }

  function AckIds(acks: seq<Ack>): seq<Digest> {
    seq(|acks|, i requires 0 <= i < |acks| => acks[i].core.effectId)
  }

  function DeliveredIds(attempts: seq<Attempt>): seq<Digest> {
    if attempts == [] then []
    else DeliveredIds(attempts[..|attempts| - 1])
         + (if attempts[|attempts| - 1].status.Delivered? then [attempts[|attempts| - 1].effectId] else [])
  }

  class Deliverer {
    const log: Log
    const journal: Journal

    constructor (log: Log, journal: Journal)
      ensures this.log == log && this.journal == journal
    {
      this.log, this.journal := log, journal;
    }

    /** The pending effects of the current log and journal. */
    method PendingNow(le: (Digest, Digest) -> bool) returns (r: Option<seq<CommittedEffect>>)
      requires LinearOrder(le)
      ensures r.Some? <==> Verified(log.records) && ChainOk(journal.acks) && NoFaults(CommittedEffects(log.records), journal.acks)
      ensures r.Some? ==> IsPending(CommittedEffects(log.records), journal.acks, le, r.value)
    {
      hide Verified, NoFaults, ChainOk, IsPending, CommittedEffects, LinearOrder;
      var ok := VerifyRecords(log.records);
      if !ok { return None; }
      var fault := VerifyAckChain(journal.acks);
      if fault.Some? { return None; }
      var pending := PendingOutbox(CommittedEffects(log.records), journal.acks, le);
      if pending.Reject? { return None; }
      return Some(pending.effects);
    }

    /** Call the effect's handler, then record what it returned. */
    method AttemptOne(e: CommittedEffect, handlers: map<string, Handler>, deliveredAt: string) returns (t: Attempt)
      requires ChainOk(journal.acks) && !Acknowledged(journal.acks, e.effectId)
      requires ValidDigest(e.effectId) && ValidDigest(e.commitRecordHash)
      modifies journal
      ensures ChainOk(journal.acks) && Attempted(e, t, handlers, deliveredAt, journal.acks)
      ensures journal.acks == old(journal.acks)
        + (if t.status.Delivered? then [DeliveryAck(e, handlers, deliveredAt, AckHead(old(journal.acks)))] else [])
    {
      hide ChainOk, Freeze;
      if e.kind !in handlers { return Attempt(e.effectId, MissingHandler); }
      var handler := handlers[e.kind];
      var receipt := handler.deliver(e.effectId, e.payload);
      if receipt.None? { return Attempt(e.effectId, FailedDelivery); }
      RecordableExactly(journal.acks, e, handler.handlerId, deliveredAt, receipt.value);
      hide Recordable;
      var ack := journal.AppendIdempotent(e, handler.handlerId, deliveredAt, receipt.value);
      if ack.None? { return Attempt(e.effectId, FailedDelivery); }
      ghost var n := |old(journal.acks)|;
      assert journal.acks[..n] == old(journal.acks);
      FirstIsOnly(journal.acks, n);
      assert ack.value == journal.acks[n];
      return Attempt(e.effectId, Delivered(ack.value.hash));
    }

    /** Attempt each pending effect once, in order; `deliveredAt` is the clock at each. */
    method DeliverPending(handlers: map<string, Handler>, deliveredAt: nat -> string, le: (Digest, Digest) -> bool)
      returns (attempts: Option<seq<Attempt>>, ghost pending: seq<CommittedEffect>)
      requires LinearOrder(le)
      modifies journal
      ensures attempts.Some? <==>
        Verified(log.records) && ChainOk(old(journal.acks)) && NoFaults(CommittedEffects(log.records), old(journal.acks))
      ensures attempts.None? ==> journal.acks == old(journal.acks)
      ensures attempts.Some? ==>
        && IsPending(CommittedEffects(log.records), old(journal.acks), le, pending)
        && ChainOk(journal.acks) && old(journal.acks) <= journal.acks
        && |attempts.value| == |pending|
        && Outcome(pending, attempts.value, handlers, deliveredAt, old(journal.acks), journal.acks)
    {
      hide Verified, NoFaults, ChainOk, CommittedEffects, LinearOrder, Attempted, Acknowledged, SortedBy, Outcome, DeliveryAck;
      pending := [];
      var now := PendingNow(le);
      if now.None? { return None, pending; }
      pending := now.value;
      PendingFacts(log.records, journal.acks, le, pending);
      NoOutcome(pending, handlers, deliveredAt, journal.acks);
      var out: seq<Attempt> := [];
      for i := 0 to |now.value|
        invariant |out| == i && ChainOk(journal.acks) && old(journal.acks) <= journal.acks
        invariant Outcome(pending, out, handlers, deliveredAt, old(journal.acks), journal.acks)
        invariant forall k | i <= k < |pending| :: !Acknowledged(journal.acks, pending[k].effectId)
      {
        ghost var before := journal.acks;
        var t := AttemptOne(now.value[i], handlers, deliveredAt(i));
        OutcomeStep(pending, out, t, handlers, deliveredAt, old(journal.acks), before, journal.acks);
        out := out + [t];
      }
      return Some(out), pending;
    }
  }

  /** An unacknowledged effect of a verified log can be recorded exactly when its delivery
      returned an object and names a handler and a time. */
  lemma RecordableExactly(acks: seq<Ack>, e: CommittedEffect, handlerId: string, deliveredAt: string, receipt: Json)
    requires ChainOk(acks) && !Acknowledged(acks, e.effectId) && ValidDigest(e.effectId) && ValidDigest(e.commitRecordHash)
    ensures Recordable(acks, e, handlerId, deliveredAt, receipt) <==>
      Freeze(receipt).Some? && Freeze(receipt).value.JObject? && handlerId != "" && deliveredAt != ""
  {
    hide Freeze;
    if acks != [] { assert ChainFault(acks, |acks| - 1).None?; }
  }

  /** What one attempt adds to the acknowledged ids. */
  lemma Recorded(before: seq<Ack>, after: seq<Ack>, e: CommittedEffect, t: Attempt, handlers: map<string, Handler>, deliveredAt: string,
                 out: seq<Attempt>)
    requires Attempted(e, t, handlers, deliveredAt, after)
    requires after == before + (if t.status.Delivered? then [DeliveryAck(e, handlers, deliveredAt, AckHead(before))] else [])
    ensures AckIds(after) == AckIds(before) + (if t.status.Delivered? then [e.effectId] else [])
    ensures DeliveredIds(out + [t]) == DeliveredIds(out) + (if t.status.Delivered? then [e.effectId] else [])
    ensures forall id :: Acknowledged(after, id) <==>
      Acknowledged(before, id) || (id == e.effectId && Succeeds(e, handlers, deliveredAt))
  {
    assert (out + [t])[..|out|] == out;
    AcknowledgedMore(before, after);
    hide Succeeds, Acknowledged;
  }

  /** The first attempts' outcome: each reports as it must, the journal has gained exactly the
      delivered ids in order, and so acknowledges exactly what it did and what succeeded. */
  ghost predicate Outcome(pending: seq<CommittedEffect>, out: seq<Attempt>, handlers: map<string, Handler>, deliveredAt: nat -> string,
                          before: seq<Ack>, after: seq<Ack>)
  {
    && |out| <= |pending|
    && (forall k | 0 <= k < |out| :: Attempted(pending[k], out[k], handlers, deliveredAt(k), after))
    && AckIds(after) == AckIds(before) + DeliveredIds(out)
    && (forall id :: Acknowledged(after, id) <==>
          Acknowledged(before, id)
          || exists k | 0 <= k < |out| :: pending[k].effectId == id && Succeeds(pending[k], handlers, deliveredAt(k)))
  }

  lemma NoOutcome(pending: seq<CommittedEffect>, handlers: map<string, Handler>, deliveredAt: nat -> string, acks: seq<Ack>)
    ensures Outcome(pending, [], handlers, deliveredAt, acks, acks)
  {
    hide Acknowledged;
  }

  lemma OutcomeStep(pending: seq<CommittedEffect>, out: seq<Attempt>, t: Attempt, handlers: map<string, Handler>,
                    deliveredAt: nat -> string, start: seq<Ack>, before: seq<Ack>, after: seq<Ack>)
    requires |out| < |pending| && Outcome(pending, out, handlers, deliveredAt, start, before)
    requires forall j, k | 0 <= j < k < |pending| :: pending[j].effectId != pending[k].effectId
    requires forall k | |out| <= k < |pending| :: !Acknowledged(before, pending[k].effectId)
    requires Attempted(pending[|out|], t, handlers, deliveredAt(|out|), after)
    requires after == before + (if t.status.Delivered? then [DeliveryAck(pending[|out|], handlers, deliveredAt(|out|), AckHead(before))] else [])
    ensures Outcome(pending, out + [t], handlers, deliveredAt, start, after)
    ensures forall k | |out| + 1 <= k < |pending| :: !Acknowledged(after, pending[k].effectId)
  {
    hide Acknowledged, DeliveryAck, AckIds, DeliveredIds, Succeeds;
    var n, more := |out|, out + [t];
    Recorded(before, after, pending[n], t, handlers, deliveredAt(n), out);
    forall k | 0 <= k < n + 1 ensures Attempted(pending[k], more[k], handlers, deliveredAt(k), after) {
      if k < n { AttemptedStays(pending[k], out[k], handlers, deliveredAt(k), before, after); }
    }
    hide Attempted;
  }

  lemma PendingFacts(records: seq<LogRecord>, acks: seq<Ack>, le: (Digest, Digest) -> bool, pending: seq<CommittedEffect>)
    requires Verified(records) && IsPending(CommittedEffects(records), acks, le, pending)
    ensures forall j, k | 0 <= j < k < |pending| :: pending[j].effectId != pending[k].effectId
    ensures forall k | 0 <= k < |pending| :: !Acknowledged(acks, pending[k].effectId)
    ensures forall k | 0 <= k < |pending| :: ValidDigest(pending[k].effectId) && ValidDigest(pending[k].commitRecordHash)
  {
    hide Verified, Acknowledged, SortedBy, ValidDigest;
    VerifiedEffects(records);
    var effects := CommittedEffects(records);
    hide CommittedEffects;
    forall k | 0 <= k < |pending|
      ensures pending[k] in effects && !Acknowledged(acks, pending[k].effectId)
        && ValidDigest(pending[k].effectId) && ValidDigest(pending[k].commitRecordHash)
    {
      assert pending[k] in pending;
      var i :| 0 <= i < |effects| && effects[i] == pending[k];
      assert EffectFault(effects, i).None?;
    }
    hide EffectFault;
  }

  /** A longer journal acknowledges what it did before and what it adds. */
  lemma AcknowledgedMore(before: seq<Ack>, after: seq<Ack>)
    requires before <= after
    ensures forall id :: Acknowledged(after, id) <==>
      Acknowledged(before, id) || exists k | |before| <= k < |after| :: after[k].core.effectId == id
  {
    assert forall k {:trigger before[k]} | 0 <= k < |before| :: after[k] == before[k];
  }

  lemma AttemptedStays(e: CommittedEffect, t: Attempt, handlers: map<string, Handler>, deliveredAt: string, before: seq<Ack>, after: seq<Ack>)
    requires Attempted(e, t, handlers, deliveredAt, before) && before <= after
    ensures Attempted(e, t, handlers, deliveredAt, after)
  {
    hide Succeeds;
    if t.status.Delivered? {
      var k :| 0 <= k < |before| && before[k].hash == t.status.hash
               && before[k] == DeliveryAck(e, handlers, deliveredAt, AckHead(before[..k]));
      assert after[k] == before[k] && after[..k] == before[..k];
    }
  }
}
