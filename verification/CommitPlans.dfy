/** Exactly when a commit can be planned. */
module CommitPlans {
  import opened Prelude
  import opened CanonicalJson
  import opened CommitRecords
  import Utf8

  /** An ordinary object that can be committed: it freezes to an object with a schema. */
  predicate Committable(v: Json) {
    var frozen := Freeze(v);
    && frozen.Some? && frozen.value.JObject?
    && var schema := Lookup(frozen.value.fields, "schema");
       schema.Some? && schema.value.JString? && schema.value.s != ""
  }

  function PayloadOf(v: Json): seq<byte>
    requires Committable(v)
  {
    Utf8.Encode(Print(Freeze(v).value) + "\n")
  }

  predicate AllCommittable(values: seq<Json>) { forall i | 0 <= i < |values| :: Committable(values[i]) }

  predicate AllNamed(raw: seq<RawObject>) { forall i | 0 <= i < |raw| :: raw[i].schema != "" }

  predicate AllTyped(blobs: seq<RawBlob>) { forall i | 0 <= i < |blobs| :: blobs[i].mediaType != "" }

  /** An effect that can be committed: it has a kind, and its payload freezes to an object. */
  predicate Deliverable(e: Intent) {
    e.kind != "" && Freeze(e.payload).Some? && Freeze(e.payload).value.JObject?
  }

  function RawPayloads(raw: seq<RawObject>): seq<seq<byte>> { seq(|raw|, i requires 0 <= i < |raw| => raw[i].payload) }

  function BlobPayloads(blobs: seq<RawBlob>): seq<seq<byte>> { seq(|blobs|, i requires 0 <= i < |blobs| => blobs[i].payload) }

  function ValuePayloads(values: seq<Json>): seq<seq<byte>>
    requires AllCommittable(values)
  {
    seq(|values|, i requires 0 <= i < |values| => PayloadOf(values[i]))
  }

  /** The bytes of everything drafted, in order. */
  function Payloads(d: Draft): seq<seq<byte>> {
    seq(|d.objects|, i requires 0 <= i < |d.objects| => d.objects[i].payload)
    + seq(|d.blobs|, i requires 0 <= i < |d.blobs| => d.blobs[i].payload)
  }

  /** A refs list and its payloads repeat alike, since a ref is the hash of its payload. */
  lemma RefsArePayloads(d: Draft, payload: seq<byte>)
    requires GoodDraft(d)
    ensures BytesDigest(payload) in Refs(d) <==> payload in Payloads(d)
  {
    var refs, payloads := Refs(d), Payloads(d);
    assert forall i {:trigger payloads[i]} {:trigger refs[i]} | 0 <= i < |refs| :: refs[i] == BytesDigest(payloads[i]);
    if payload in payloads {
      var i :| 0 <= i < |payloads| && payloads[i] == payload;
      assert refs[i] == BytesDigest(payload);
    }
  }

  /** A list of payloads has been drafted: it is the draft's, and repeats nothing. */
  ghost predicate Holds(r: Drafting, payloads: seq<seq<byte>>) {
    r.Drafted? ==> GoodDraft(r.draft) && Payloads(r.draft) == payloads && Distinct(payloads)
  }

  lemma ExtendDistinct(payloads: seq<seq<byte>>, payload: seq<byte>)
    requires Distinct(payloads)
    ensures Distinct(payloads + [payload]) <==> payload !in payloads
  {
    var more := payloads + [payload];
    assert more[|payloads|] == payload;
    assert forall i {:trigger payloads[i]} | 0 <= i < |payloads| :: more[i] == payloads[i];
  }

  lemma AddObjectExact(d: Draft, payload: seq<byte>, schema: string)
    requires Holds(Drafted(d), Payloads(d)) && d.blobs == []
    ensures AddObject(d, payload, schema).Drafted? <==> schema != "" && Distinct(Payloads(d) + [payload])
    ensures Holds(AddObject(d, payload, schema), Payloads(d) + [payload])
    ensures AddObject(d, payload, schema).Drafted? ==> AddObject(d, payload, schema).draft.blobs == []
  {
    RefsArePayloads(d, payload);
    ExtendDistinct(Payloads(d), payload);
    AddObjectGood(d, payload, schema);
    var r := AddObject(d, payload, schema);
    if r.Drafted? { assert Payloads(r.draft) == Payloads(d) + [payload]; }
  }

  lemma AddBlobExact(d: Draft, payload: seq<byte>, mediaType: string)
    requires Holds(Drafted(d), Payloads(d))
    ensures AddBlob(d, payload, mediaType).Drafted? <==> mediaType != "" && Distinct(Payloads(d) + [payload])
    ensures Holds(AddBlob(d, payload, mediaType), Payloads(d) + [payload])
  {
    RefsArePayloads(d, payload);
    ExtendDistinct(Payloads(d), payload);
    AddBlobGood(d, payload, mediaType);
    var r := AddBlob(d, payload, mediaType);
    if r.Drafted? { assert Payloads(r.draft) == Payloads(d) + [payload]; }
  }

  lemma DistinctPrefix(a: seq<seq<byte>>, b: seq<seq<byte>>)
    requires Distinct(a + b)
    ensures Distinct(a)
  {
    assert forall i {:trigger a[i]} | 0 <= i < |a| :: (a + b)[i] == a[i];
  }

  lemma {:induction false} RawExact(raw: seq<RawObject>)
    ensures DraftRaw(raw).Drafted? <==> AllNamed(raw) && Distinct(RawPayloads(raw))
    ensures Holds(DraftRaw(raw), RawPayloads(raw)) && (DraftRaw(raw).Drafted? ==> DraftRaw(raw).draft.blobs == [])
  {
    if raw != [] {
      var init, last := raw[..|raw| - 1], raw[|raw| - 1];
      RawExact(init);
      assert RawPayloads(raw) == RawPayloads(init) + [last.payload];
      assert AllNamed(raw) <==> AllNamed(init) && last.schema != "" by {
        assert forall i {:trigger raw[i]} | 0 <= i < |raw| - 1 :: raw[i] == init[i];
      }
      hide AddObject, RawPayloads, AllNamed;
      if DraftRaw(init).Drafted? { AddObjectExact(DraftRaw(init).draft, last.payload, last.schema); }
      else if Distinct(RawPayloads(raw)) { DistinctPrefix(RawPayloads(init), [last.payload]); }
    }
  }

  lemma AddValueExact(d: Draft, v: Json)
    requires Holds(Drafted(d), Payloads(d)) && d.blobs == []
    ensures AddValue(d, v).Drafted? <==> Committable(v) && Distinct(Payloads(d) + [PayloadOf(v)])
    ensures Committable(v) ==> Holds(AddValue(d, v), Payloads(d) + [PayloadOf(v)])
    ensures AddValue(d, v).Drafted? ==> AddValue(d, v).draft.blobs == []
  {
    hide Freeze, Print, AddObject, Holds, GoodDraft;
    var frozen := Freeze(v);
    if frozen.Some? && frozen.value.JObject? {
      var schema := Lookup(frozen.value.fields, "schema");
      if schema.Some? && schema.value.JString? {
        AddObjectExact(d, Utf8.Encode(Print(frozen.value) + "\n"), schema.value.s);
      }
    }
  }

  lemma ValuesSnoc(before: seq<seq<byte>>, values: seq<Json>)
    requires values != []
    ensures var init, last := values[..|values| - 1], values[|values| - 1];
      && (AllCommittable(values) <==> AllCommittable(init) && Committable(last))
      && (AllCommittable(values) ==> before + ValuePayloads(values) == before + ValuePayloads(init) + [PayloadOf(last)])
  {
    hide Committable, PayloadOf;
    var init := values[..|values| - 1];
    assert forall i {:trigger values[i]} | 0 <= i < |values| - 1 :: values[i] == init[i];
  }

  lemma {:induction false} ValuesExact(start: Drafting, before: seq<seq<byte>>, values: seq<Json>)
    requires Holds(start, before) && (start.Drafted? ==> start.draft.blobs == [])
    ensures DraftValues(start, values).Drafted? <==>
      start.Drafted? && AllCommittable(values) && Distinct(before + ValuePayloads(values))
    ensures AllCommittable(values) ==> Holds(DraftValues(start, values), before + ValuePayloads(values))
    ensures DraftValues(start, values).Drafted? ==> DraftValues(start, values).draft.blobs == []
  {
    hide AddValue, Committable, PayloadOf, Distinct, GoodDraft, Payloads;
    if values == [] {
      assert before + ValuePayloads(values) == before;
    } else {
      var init, last := values[..|values| - 1], values[|values| - 1];
      ValuesExact(start, before, init);
      ValuesSnoc(before, values);
      hide ValuePayloads, AllCommittable;
      if DraftValues(start, init).Drafted? { AddValueExact(DraftValues(start, init).draft, last); }
      else if AllCommittable(values) && Distinct(before + ValuePayloads(values)) {
        DistinctPrefix(before + ValuePayloads(init), [PayloadOf(last)]);
      }
    }
  }

  lemma {:induction false} BlobsExact(start: Drafting, before: seq<seq<byte>>, blobs: seq<RawBlob>)
    requires Holds(start, before)
    ensures DraftBlobs(start, blobs).Drafted? <==> start.Drafted? && AllTyped(blobs) && Distinct(before + BlobPayloads(blobs))
    ensures Holds(DraftBlobs(start, blobs), before + BlobPayloads(blobs))
  {
    if blobs == [] {
      assert before + BlobPayloads(blobs) == before;
    } else {
      var init, last := blobs[..|blobs| - 1], blobs[|blobs| - 1];
      BlobsExact(start, before, init);
      assert before + BlobPayloads(blobs) == before + BlobPayloads(init) + [last.payload];
      assert AllTyped(blobs) <==> AllTyped(init) && last.mediaType != "" by {
        assert forall i {:trigger blobs[i]} | 0 <= i < |blobs| - 1 :: blobs[i] == init[i];
      }
      hide AddBlob, BlobPayloads, AllTyped;
      if DraftBlobs(start, init).Drafted? { AddBlobExact(DraftBlobs(start, init).draft, last.payload, last.mediaType); }
      else if Distinct(before + BlobPayloads(blobs)) { DistinctPrefix(before + BlobPayloads(init), [last.payload]); }
    }
  }

  lemma {:induction false} IntentsExact(raw: seq<Intent>)
    ensures DraftIntents(raw).Intended? <==> forall i | 0 <= i < |raw| :: Deliverable(raw[i])
  {
    hide Freeze;
    if raw != [] {
      var init := raw[..|raw| - 1];
      IntentsExact(init);
      assert forall i {:trigger raw[i]} | 0 <= i < |raw| - 1 :: raw[i] == init[i];
    }
  }

  /** A plan exists exactly when the roots are well formed, everything is named and typed,
      every object and effect is committable, and no two of the payloads are the same bytes. */
  lemma PlannedExactly(i: PlanInput)
    ensures PlanCommit(i).Planned? <==>
      (ValidRoot(i.expectedHead) && i.createdAt != "" && ValidRoot(i.evidenceRoot)
       && AllNamed(i.prevalidated) && AllCommittable(i.objects) && AllTyped(i.blobs)
       && Distinct(RawPayloads(i.prevalidated) + ValuePayloads(i.objects) + BlobPayloads(i.blobs))
       && (forall k | 0 <= k < |i.outbox| :: Deliverable(i.outbox[k]))
       && i.policyVersion != "" && i.coreVersion != "")
  {
    RawExact(i.prevalidated);
    var raw := DraftRaw(i.prevalidated);
    ValuesExact(raw, RawPayloads(i.prevalidated), i.objects);
    IntentsExact(i.outbox);
    hide Distinct, DraftRaw, DraftValues, DraftBlobs, DraftIntents, Holds, ValidRoot, BundleOf, AllNamed, AllTyped, Committable, Deliverable;
    if AllCommittable(i.objects) {
      var values, payloads := DraftValues(raw, i.objects), RawPayloads(i.prevalidated) + ValuePayloads(i.objects);
      BlobsExact(values, payloads, i.blobs);
      if Distinct(payloads + BlobPayloads(i.blobs)) {
        DistinctPrefix(payloads, BlobPayloads(i.blobs));
        DistinctPrefix(RawPayloads(i.prevalidated), ValuePayloads(i.objects));
      }
    } else {
      RefusedStays(DraftValues(raw, i.objects).code, [], i.blobs);
    }
  }

  // ----- What a plan writes ---------------------------------------------------------------------------------------

  ghost predicate WritesRaw(w: ObjectWrite, raw: RawObject) {
    w.payload == raw.payload && w.schema == raw.schema && w.ref == BytesDigest(raw.payload)
  }

  /** The write holds the canonical line of the value, under the value's own schema. */
  ghost predicate WritesValue(w: ObjectWrite, v: Json) {
    && Freeze(v).Some? && Freeze(v).value.JObject?
    && w.payload == Utf8.Encode(Print(Freeze(v).value) + "\n") && w.ref == BytesDigest(w.payload)
    && Field("schema", JString(w.schema)) in Freeze(v).value.fields
  }

  ghost predicate WritesBlob(w: BlobWrite, raw: RawBlob) {
    w.payload == raw.payload && w.mediaType == raw.mediaType && w.ref == BytesDigest(raw.payload)
  }

  lemma {:induction false} LookupFinds(fields: seq<Field>, key: string)
    ensures Lookup(fields, key).Some? ==> Field(key, Lookup(fields, key).value) in fields
  {
    if fields != [] && fields[0].key != key { LookupFinds(fields[1..], key); }
  }

  lemma {:induction false} RawWritten(raw: seq<RawObject>)
    requires DraftRaw(raw).Drafted?
    ensures var d := DraftRaw(raw).draft;
      && d.blobs == [] && |d.objects| == |raw| && forall k | 0 <= k < |raw| :: WritesRaw(d.objects[k], raw[k])
  {
    if raw != [] {
      RawWritten(raw[..|raw| - 1]);
      hide Refs;
    }
  }

  lemma ValueWritten(d: Draft, v: Json)
    requires AddValue(d, v).Drafted?
    ensures var e := AddValue(d, v).draft;
      e.blobs == d.blobs && |e.objects| == |d.objects| + 1 && e.objects[..|d.objects|] == d.objects && WritesValue(e.objects[|d.objects|], v)
  {
    LookupFinds(Freeze(v).value.fields, "schema");
    hide Freeze, Print, Refs;
  }

  /** Every earlier write stays, and the values follow in order. */
  lemma {:induction false} ValuesWritten(start: Drafting, values: seq<Json>)
    requires DraftValues(start, values).Drafted?
    ensures start.Drafted?
    ensures var d, e := start.draft, DraftValues(start, values).draft;
      && e.blobs == d.blobs && |e.objects| == |d.objects| + |values| && e.objects[..|d.objects|] == d.objects
      && forall k | 0 <= k < |values| :: WritesValue(e.objects[|d.objects| + k], values[k])
  {
    hide AddValue, WritesValue;
    if values != [] {
      var init, last := values[..|values| - 1], values[|values| - 1];
      ValuesWritten(start, init);
      var d, e, f := start.draft, DraftValues(start, init).draft, DraftValues(start, values).draft;
      ValueWritten(e, last);
      hide DraftValues;
      assert f.objects[..|d.objects|] == e.objects[..|d.objects|];
      forall k | 0 <= k < |values| ensures WritesValue(f.objects[|d.objects| + k], values[k]) {
        if k < |init| { assert f.objects[|d.objects| + k] == e.objects[|d.objects| + k]; }
      }
    }
  }

  lemma {:induction false} BlobsWritten(start: Drafting, blobs: seq<RawBlob>)
    requires DraftBlobs(start, blobs).Drafted?
    ensures start.Drafted?
    ensures var d, e := start.draft, DraftBlobs(start, blobs).draft;
      && e.objects == d.objects && |e.blobs| == |d.blobs| + |blobs| && e.blobs[..|d.blobs|] == d.blobs
      && forall k | 0 <= k < |blobs| :: WritesBlob(e.blobs[|d.blobs| + k], blobs[k])
  {
    hide Refs;
    if blobs != [] {
      var init := blobs[..|blobs| - 1];
      BlobsWritten(start, init);
      var d, e, f := start.draft, DraftBlobs(start, init).draft, DraftBlobs(start, blobs).draft;
      assert f.blobs[..|e.blobs|] == e.blobs;
      assert f.blobs[..|d.blobs|] == e.blobs[..|d.blobs|];
      forall k | 0 <= k < |blobs| ensures WritesBlob(f.blobs[|d.blobs| + k], blobs[k]) {
        if k < |init| { assert f.blobs[|d.blobs| + k] == e.blobs[|d.blobs| + k]; }
      }
    }
  }

  /** A plan writes the prevalidated objects, then the ordinary ones, then the blobs, each in
      the order given and under its own hash, and names the versions it was given. */
  lemma PlannedContents(i: PlanInput)
    requires PlanCommit(i).Planned?
    ensures var b, n := PlanCommit(i).bundle, |i.prevalidated|;
      && |b.objects| == n + |i.objects| && |b.blobs| == |i.blobs|
      && (forall k | 0 <= k < n :: WritesRaw(b.objects[k], i.prevalidated[k]))
      && (forall k | 0 <= k < |i.objects| :: WritesValue(b.objects[n + k], i.objects[k]))
      && (forall k | 0 <= k < |i.blobs| :: WritesBlob(b.blobs[k], i.blobs[k]))
      && b.receipt.version == V2 && b.receipt.policyVersion == i.policyVersion && b.receipt.coreVersion == i.coreVersion
  {
    hide DraftRaw, DraftValues, DraftBlobs, DraftIntents, WritesRaw, WritesValue, WritesBlob, CommitRoot, CommandHash, ReplayId, AllEffects;
    var raw := DraftRaw(i.prevalidated);
    var values := DraftValues(raw, i.objects);
    BlobsWritten(values, i.blobs);
    ValuesWritten(raw, i.objects);
    RawWritten(i.prevalidated);
    var n, b := |i.prevalidated|, PlanCommit(i).bundle;
    assert b.objects == values.draft.objects && b.objects[..n] == raw.draft.objects;
    forall k | 0 <= k < n ensures WritesRaw(b.objects[k], i.prevalidated[k]) { assert b.objects[k] == b.objects[..n][k]; }
  }
}
