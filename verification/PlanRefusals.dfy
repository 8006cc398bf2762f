/** What each refusal of the commit planner means. */
module PlanRefusals {
  import opened Prelude
  import opened CanonicalJson
  import opened CommitRecords
  import opened CommitPlans
  import opened CommitBindings
  import opened JsonParser
  import Utf8

  // ----- What a plan is asked to write --------------------------------------------------------------------------

  /** The value freezes to an object. */
  ghost predicate FreezesToObject(v: Json) { Freeze(v).Some? && Freeze(v).value.JObject? }

  /** The object has a schema, a non-empty text. */
  ghost predicate HasSchema(v: Json)
    requires FreezesToObject(v)
  {
    exists schema :: schema != "" && Field("schema", JString(schema)) in Freeze(v).value.fields
  }

  /** The bytes each thing would be written as; None for a value that freezes to no object. */
  ghost function RawBytes(raw: seq<RawObject>): seq<Option<seq<byte>>> {
    seq(|raw|, i requires 0 <= i < |raw| => Some(raw[i].payload))
  }

  ghost function ValueBytes(values: seq<Json>): seq<Option<seq<byte>>> {
    seq(|values|, i requires 0 <= i < |values| =>
      if FreezesToObject(values[i]) then Some(Utf8.Encode(Print(Freeze(values[i]).value) + "\n")) else None)
  }

  ghost function BlobBytes(blobs: seq<RawBlob>): seq<Option<seq<byte>>> {
    seq(|blobs|, i requires 0 <= i < |blobs| => Some(blobs[i].payload))
  }

  /** Two of them are the same bytes. */
  ghost predicate Repeats(all: seq<Option<seq<byte>>>) {
    exists j, k :: 0 <= j < k < |all| && all[j].Some? && all[j] == all[k]
  }

  /** The input is wrong in the way the code says. */
  ghost predicate PlanWrong(i: PlanInput, code: PlanCode) {
    match code
    case InvalidPreStateRoot => !RootReference(i.expectedHead)
    case InvalidCreatedAt => i.createdAt == ""
    case InvalidEvidenceRoot => !RootReference(i.evidenceRoot)
    case InvalidObject =>
      || (exists k :: 0 <= k < |i.objects| && !FreezesToObject(i.objects[k]))
      || (exists k :: 0 <= k < |i.outbox| && !FreezesToObject(i.outbox[k].payload))
    case InvalidObjectSchema =>
      || (exists k :: 0 <= k < |i.prevalidated| && i.prevalidated[k].schema == "")
      || (exists k :: 0 <= k < |i.objects| && FreezesToObject(i.objects[k]) && !HasSchema(i.objects[k]))
    case DuplicateWrite => Repeats(RawBytes(i.prevalidated) + ValueBytes(i.objects) + BlobBytes(i.blobs))
    case InvalidMediaType => exists k :: 0 <= k < |i.blobs| && i.blobs[k].mediaType == ""
    case InvalidEffect => exists k :: 0 <= k < |i.outbox| && i.outbox[k].kind == ""
  }

  // ----- The stages of a draft ------------------------------------------------------------------------------------

  ghost function Somes(payloads: seq<seq<byte>>): seq<Option<seq<byte>>> {
    seq(|payloads|, i requires 0 <= i < |payloads| => Some(payloads[i]))
  }

  lemma RepeatsMore(a: seq<Option<seq<byte>>>, b: seq<Option<seq<byte>>>)
    requires Repeats(a)
    ensures Repeats(a + b)
  {
    var j, k :| 0 <= j < k < |a| && a[j].Some? && a[j] == a[k];
    assert (a + b)[j] == a[j] && (a + b)[k] == a[k];
  }

  lemma RepeatsLast(payloads: seq<seq<byte>>, payload: seq<byte>)
    requires payload in payloads
    ensures Repeats(Somes(payloads) + [Some(payload)])
  {
    var j :| 0 <= j < |payloads| && payloads[j] == payload;
    var all := Somes(payloads) + [Some(payload)];
    assert all[j] == Some(payload) && all[|payloads|] == Some(payload);
  }

  lemma AddObjectRefused(d: Draft, payload: seq<byte>, schema: string)
    requires GoodDraft(d) && AddObject(d, payload, schema).Refused?
    ensures var code := AddObject(d, payload, schema).code;
      (code.InvalidObjectSchema? && schema == "") || (code.DuplicateWrite? && payload in Payloads(d))
  {
    RefsArePayloads(d, payload);
  }

  lemma {:induction false} RawRefused(raw: seq<RawObject>)
    requires DraftRaw(raw).Refused?
    ensures var code := DraftRaw(raw).code;
      || (code.InvalidObjectSchema? && exists k :: 0 <= k < |raw| && raw[k].schema == "")
      || (code.DuplicateWrite? && Repeats(RawBytes(raw)))
  {
    hide AddObject, GoodDraft, Repeats;
    var init, last := raw[..|raw| - 1], raw[|raw| - 1];
    assert RawBytes(raw) == RawBytes(init) + [Some(last.payload)];
    assert forall k {:trigger init[k]} | 0 <= k < |init| :: init[k] == raw[k];
    if DraftRaw(init).Refused? {
      RawRefused(init);
      if Repeats(RawBytes(init)) { RepeatsMore(RawBytes(init), [Some(last.payload)]); }
    } else {
      RawExact(init);
      AddObjectRefused(DraftRaw(init).draft, last.payload, last.schema);
      assert Somes(RawPayloads(init)) == RawBytes(init);
      if last.payload in RawPayloads(init) { RepeatsLast(RawPayloads(init), last.payload); }
    }
  }

  lemma {:induction false} SchemaFound(fields: seq<Field>, schema: string)
    requires DistinctKeys(fields) && Field("schema", JString(schema)) in fields
    ensures Lookup(fields, "schema") == Some(JString(schema))
  {
    if fields[0].key == "schema" {
      var k :| 0 <= k < |fields| && fields[k] == Field("schema", JString(schema));
      assert k == 0;
    } else {
      assert fields == [fields[0]] + fields[1..];
      SchemaFound(fields[1..], schema);
    }
  }

  lemma SchemaExactly(v: Json)
    requires FreezesToObject(v)
    ensures HasSchema(v) <==> Committable(v)
  {
    var fields := Freeze(v).value.fields;
    FrozenIsCanonical(v);
    hide Freeze;
    LookupFinds(fields, "schema");
    if schema :| schema != "" && Field("schema", JString(schema)) in fields { SchemaFound(fields, schema); }
    hide Lookup;
  }

  lemma AddValueRefused(d: Draft, v: Json)
    requires GoodDraft(d) && AddValue(d, v).Refused?
    ensures var code := AddValue(d, v).code;
      || (code.InvalidObject? && !FreezesToObject(v))
      || (code.InvalidObjectSchema? && FreezesToObject(v) && !HasSchema(v))
      || (code.DuplicateWrite? && FreezesToObject(v) && Utf8.Encode(Print(Freeze(v).value) + "\n") in Payloads(d))
  {
    hide Freeze, Print, AddObject, GoodDraft, HasSchema, Payloads, Lookup;
    if FreezesToObject(v) {
      SchemaExactly(v);
      var schema := Lookup(Freeze(v).value.fields, "schema");
      if schema.Some? && schema.value.JString? {
        AddObjectRefused(d, Utf8.Encode(Print(Freeze(v).value) + "\n"), schema.value.s);
      }
    }
  }

  lemma {:induction false} ValuesRefused(start: Drafting, before: seq<seq<byte>>, values: seq<Json>)
    requires Holds(start, before) && start.Drafted? && start.draft.blobs == [] && DraftValues(start, values).Refused?
    ensures var code := DraftValues(start, values).code;
      || (code.InvalidObject? && exists k :: 0 <= k < |values| && !FreezesToObject(values[k]))
      || (code.InvalidObjectSchema? && exists k :: 0 <= k < |values| && FreezesToObject(values[k]) && !HasSchema(values[k]))
      || (code.DuplicateWrite? && Repeats(Somes(before) + ValueBytes(values)))
  {
    hide AddValue, GoodDraft, Repeats, FreezesToObject, HasSchema, Committable;
    var init, last := values[..|values| - 1], values[|values| - 1];
    assert forall k {:trigger init[k]} | 0 <= k < |init| :: init[k] == values[k];
    var end := ValueBytes(values)[|values| - 1];
    assert Somes(before) + ValueBytes(values) == Somes(before) + ValueBytes(init) + [end];
    if DraftValues(start, init).Refused? {
      ValuesRefused(start, before, init);
      if Repeats(Somes(before) + ValueBytes(init)) { RepeatsMore(Somes(before) + ValueBytes(init), [end]); }
    } else {
      ValuesExact(start, before, init);
      DraftedBytes(before, init);
      var d := DraftValues(start, init).draft;
      AddValueRefused(d, last);
      if AddValue(d, last).code.DuplicateWrite? { RepeatsLast(Payloads(d), end.value); }
    }
  }

  lemma DraftedBytes(before: seq<seq<byte>>, values: seq<Json>)
    requires AllCommittable(values)
    ensures Somes(before + ValuePayloads(values)) == Somes(before) + ValueBytes(values)
  {
    hide Freeze, Print;
    forall k | 0 <= k < |values| ensures ValueBytes(values)[k] == Some(ValuePayloads(values)[k]) {
      assert Committable(values[k]);
    }
  }

  lemma {:induction false} BlobsRefused(start: Drafting, before: seq<seq<byte>>, blobs: seq<RawBlob>)
    requires Holds(start, before) && start.Drafted? && DraftBlobs(start, blobs).Refused?
    ensures var code := DraftBlobs(start, blobs).code;
      || (code.InvalidMediaType? && exists k :: 0 <= k < |blobs| && blobs[k].mediaType == "")
      || (code.DuplicateWrite? && Repeats(Somes(before) + BlobBytes(blobs)))
  {
    hide GoodDraft, Repeats;
    var init, last := blobs[..|blobs| - 1], blobs[|blobs| - 1];
    assert forall k {:trigger init[k]} | 0 <= k < |init| :: init[k] == blobs[k];
    assert Somes(before) + BlobBytes(blobs) == Somes(before) + BlobBytes(init) + [Some(last.payload)];
    if DraftBlobs(start, init).Refused? {
      BlobsRefused(start, before, init);
      if Repeats(Somes(before) + BlobBytes(init)) { RepeatsMore(Somes(before) + BlobBytes(init), [Some(last.payload)]); }
    } else {
      BlobsExact(start, before, init);
      var d := DraftBlobs(start, init).draft;
      assert Somes(Payloads(d)) == Somes(before) + BlobBytes(init);
      AddBlobRefused(d, last.payload, last.mediaType);
      if AddBlob(d, last.payload, last.mediaType).code.DuplicateWrite? { RepeatsLast(Payloads(d), last.payload); }
    }
  }

  lemma AddBlobRefused(d: Draft, payload: seq<byte>, mediaType: string)
    requires GoodDraft(d) && AddBlob(d, payload, mediaType).Refused?
    ensures var code := AddBlob(d, payload, mediaType).code;
      (code.InvalidMediaType? && mediaType == "") || (code.DuplicateWrite? && payload in Payloads(d))
  {
    RefsArePayloads(d, payload);
  }

  lemma {:induction false} IntentsRefused(raw: seq<Intent>)
    requires DraftIntents(raw).BadIntent?
    ensures var code := DraftIntents(raw).code;
      || (code.InvalidEffect? && exists k :: 0 <= k < |raw| && raw[k].kind == "")
      || (code.InvalidObject? && exists k :: 0 <= k < |raw| && !FreezesToObject(raw[k].payload))
  {
    hide Freeze;
    var init := raw[..|raw| - 1];
    assert forall k {:trigger init[k]} | 0 <= k < |init| :: init[k] == raw[k];
    if DraftIntents(init).BadIntent? { IntentsRefused(init); }
  }

  lemma RootExactly(d: Digest)
    ensures ValidRoot(d) <==> RootReference(d)
  {
    ReferenceExactly(d);
    hide Reference, ValidRefText;
  }

  /** A planner's refusal names, by its code, something that is really wrong; it raises only for
      an empty version string. */
  lemma RefusalsTruthful(i: PlanInput)
    ensures PlanCommit(i).Rejected? ==> PlanWrong(i, PlanCommit(i).code)
    ensures PlanCommit(i).Raised? ==> i.policyVersion == "" || i.coreVersion == ""
  {
    hide ValidRoot, RootReference, DraftRaw, DraftValues, DraftBlobs, DraftIntents, Repeats, FreezesToObject, HasSchema, BundleOf, Holds;
    RootExactly(i.expectedHead);
    RootExactly(i.evidenceRoot);
    if DraftOf(i).Refused? { DraftRefused(i); }
    else if DraftIntents(i.outbox).BadIntent? { IntentsRefused(i.outbox); }
  }

  lemma DraftRefused(i: PlanInput)
    requires DraftOf(i).Refused?
    ensures PlanWrong(i, DraftOf(i).code)
  {
    hide RootReference, DraftRaw, DraftValues, DraftBlobs, Repeats, FreezesToObject, HasSchema, Holds;
    var raw := DraftRaw(i.prevalidated);
    RawExact(i.prevalidated);
    assert Somes(RawPayloads(i.prevalidated)) == RawBytes(i.prevalidated);
    if raw.Refused? {
      RawRefused(i.prevalidated);
      ValuesThrough(raw, i.objects);
      BlobsThrough(raw, i.blobs);
      if raw.code.DuplicateWrite? { RepeatsMore(RawBytes(i.prevalidated), ValueBytes(i.objects) + BlobBytes(i.blobs)); }
      assert RawBytes(i.prevalidated) + ValueBytes(i.objects) + BlobBytes(i.blobs)
        == RawBytes(i.prevalidated) + (ValueBytes(i.objects) + BlobBytes(i.blobs));
    } else {
      var values := DraftValues(raw, i.objects);
      if values.Refused? {
        ValuesRefused(raw, RawPayloads(i.prevalidated), i.objects);
        BlobsThrough(values, i.blobs);
        if values.code.DuplicateWrite? { RepeatsMore(RawBytes(i.prevalidated) + ValueBytes(i.objects), BlobBytes(i.blobs)); }
      } else {
        ValuesExact(raw, RawPayloads(i.prevalidated), i.objects);
        DraftedBytes(RawPayloads(i.prevalidated), i.objects);
        BlobsRefused(values, RawPayloads(i.prevalidated) + ValuePayloads(i.objects), i.blobs);
      }
    }
  }

  lemma {:induction false} ValuesThrough(start: Drafting, values: seq<Json>)
    requires start.Refused?
    ensures DraftValues(start, values) == start
  {
    if values != [] { ValuesThrough(start, values[..|values| - 1]); }
  }

  lemma {:induction false} BlobsThrough(start: Drafting, blobs: seq<RawBlob>)
    requires start.Refused?
    ensures DraftBlobs(start, blobs) == start
  {
    if blobs != [] { BlobsThrough(start, blobs[..|blobs| - 1]); }
  }
}
