/** The pad facade: content store, authority log and derived index kept in step. */
module PopperPad {
  import opened Prelude
  import opened CanonicalJson
  import opened CommitRecords
  import opened AuthorityLog
  import opened PadIndex

  type Store = map<Digest, seq<byte>>

  /** Everything a stored commit names is in the content store under its own hash. */
  ghost predicate Resolvable(records: seq<LogRecord>, cas: Store) {
    forall i | 0 <= i < |records| && records[i].Commit? :: RowsResolvable(records[i].commit.core, cas)
  }

  ghost predicate RowsResolvable(core: RecordCore, cas: Store) {
    && (forall k | 0 <= k < |core.objects| :: core.objects[k].ref in cas && |cas[core.objects[k].ref]| == core.objects[k].size)
    && (forall k | 0 <= k < |core.blobs| :: core.blobs[k].ref in cas && |cas[core.blobs[k].ref]| == core.blobs[k].size)
  }

  ghost predicate ContentAddressed(cas: Store) {
    forall ref | ref in cas :: ref == BytesDigest(cas[ref])
  }

  /** One store holds everything another does. */
  ghost predicate Extends(a: Store, b: Store) {
    forall ref | ref in a :: ref in b && b[ref] == a[ref]
  }

  /** The object a reference names in a store, as an edge. */
  function Fetch(cas: Store, decode: seq<byte> -> Option<EdgeObject>): Digest -> Option<EdgeObject> {
    (ref: Digest) => if ref in cas then decode(cas[ref]) else None
  }

  /** Every object a row announces is in the store. */
  ghost predicate Fetchable(rows: seq<LogicalRow>, cas: Store) {
    forall i | 0 <= i < |rows| && rows[i].AddObjectRow? :: rows[i].ref in cas
  }

  class Pad {
    var cas: Store
    const log: Log
    const index: Index
    var indexBuilt: bool
    /** How stored bytes read as an edge, and the schema validator: both opaque here. */
    const decode: seq<byte> -> Option<EdgeObject>
    const validate: Json -> bool

    constructor (decode: seq<byte> -> Option<EdgeObject>, validate: Json -> bool)
      ensures fresh(log) && fresh(index) && log.records == [] && cas == map[] && Valid()
      ensures this.decode == decode && this.validate == validate
    {
      cas, indexBuilt := map[], false;
      this.decode, this.validate := decode, validate;
      log := new Log();
      index := new Index();
      new;
    }

    /** What the index is given to look objects up with: the pad's own store. */
    function ObjectLookup(): Digest -> Option<EdgeObject>
      reads this
    {
      Fetch(cas, decode)
    }

    /** The log verifies, what it names can be fetched, and a built index has seen exactly its
        logical records. */
    ghost predicate Valid()
      reads this, log, index
    {
      && Verified(log.records)
      && ContentAddressed(cas)
      && Resolvable(log.records, cas)
      && Fetchable(LogicalRecords(log.records), cas)
      && (indexBuilt ==> index.Valid(ObjectLookup()) && index.rows == LogicalRecords(log.records))
    }

    method EnsureIndex()
      requires Valid()
      modifies this`indexBuilt, index
      ensures Valid() && indexBuilt
    {
      if !indexBuilt {
        index.RebuildFromLog(LogicalRecords(log.records), ObjectLookup());
        indexBuilt := true;
      }
    }

    /** Store the payloads of a bundle; false when one does not hash to its planned ref. */
    method StageCommitPayloads(b: CommitBundle) returns (ok: bool)
      requires ContentAddressed(cas)
      modifies this`cas
      ensures ContentAddressed(cas) && Extends(old(cas), cas)
      ensures ok <==>
        (forall i | 0 <= i < |b.objects| :: b.objects[i].ref == BytesDigest(b.objects[i].payload))
        && (forall i | 0 <= i < |b.blobs| :: b.blobs[i].ref == BytesDigest(b.blobs[i].payload))
      ensures ok ==>
        (forall i | 0 <= i < |b.objects| :: b.objects[i].ref in cas && cas[b.objects[i].ref] == b.objects[i].payload)
        && (forall i | 0 <= i < |b.blobs| :: b.blobs[i].ref in cas && cas[b.blobs[i].ref] == b.blobs[i].payload)
    {
      for i := 0 to |b.objects|
        invariant ContentAddressed(cas) && Extends(old(cas), cas)
        invariant forall k | 0 <= k < i :: b.objects[k].ref == BytesDigest(b.objects[k].payload) && b.objects[k].ref in cas
      {
        var stored := BytesDigest(b.objects[i].payload);
        cas := cas[stored := b.objects[i].payload];
        if stored != b.objects[i].ref { return false; }
      }
      for i := 0 to |b.blobs|
        invariant ContentAddressed(cas) && Extends(old(cas), cas)
        invariant forall k | 0 <= k < |b.objects| :: b.objects[k].ref == BytesDigest(b.objects[k].payload) && b.objects[k].ref in cas
        invariant forall k | 0 <= k < i :: b.blobs[k].ref == BytesDigest(b.blobs[k].payload) && b.blobs[k].ref in cas
      {
        var stored := BytesDigest(b.blobs[i].payload);
        cas := cas[stored := b.blobs[i].payload];
        if stored != b.blobs[i].ref { return false; }
      }
      return true;
    }

    /** Stage the bytes, publish the record by compare-and-swap, then tell the index. */
    method PublishCommit(b: CommitBundle, expectedHead: Digest) returns (hash: Option<Digest>)
      requires Valid()
      modifies this, log, index
      ensures Valid() && Extends(old(cas), cas)
      ensures hash.Some? <==> ValidBundle(b) && b.expectedHead == expectedHead && Head(old(log.records)) == expectedHead
      ensures log.records == (if hash.Some? then old(log.records) + [Commit(b.record)] else old(log.records))
      ensures hash.Some? ==> hash.value == b.recordHash == Head(log.records)
    {
      hide Verified, ValidBundle, RowsResolvable, LogicalRecords, ContentAddressed;
      BundlePayloads(b);
      var staged := StageCommitPayloads(b);
      StillResolvable(log.records, old(cas), cas);
      StoreGrew(index, indexBuilt, LogicalRecords(log.records), old(cas), cas, decode);
      if !staged { return None; }
      hash := log.AppendPrepared(b, expectedHead);
      if hash.None? { return; }
      NewRecordResolvable(old(log.records), b, cas);
      hide Resolvable, BundleRows;
      BundleAnnouncesItsRows(b);
      LogicalAppend(old(log.records), Commit(b.record));
      NewRowsFetchable(LogicalRecords(old(log.records)), b, cas);
      if indexBuilt { TellIndex(BundleRows(b)); }
    }

    /** Feed the index the rows a published bundle announces. */
    method TellIndex(rows: seq<LogicalRow>)
      requires index.Valid(ObjectLookup())
      modifies index
      ensures index.Valid(ObjectLookup()) && index.rows == old(index.rows) + rows
    {
      for i := 0 to |rows|
        invariant index.Valid(ObjectLookup()) && index.rows == old(index.rows) + rows[..i]
      {
        assert rows[..i + 1] == rows[..i] + [rows[i]];
        index.OnRecord(rows[i], ObjectLookup());
      }
      assert rows[..|rows|] == rows;
    }

    /** Validate the objects, plan against the current head and publish what was planned. */
    method CommitValues(i: PlanInput) returns (hash: Option<Digest>)
      requires Valid()
      modifies this, log, index
      ensures Valid() && Extends(old(cas), cas)
      ensures hash.Some? <==>
        (forall k | 0 <= k < |i.objects| :: validate(i.objects[k])) && PlanCommit(i.(expectedHead := Head(old(log.records)))).Planned?
      ensures log.records == (if hash.Some? then old(log.records) + [Commit(PlanCommit(i.(expectedHead := Head(old(log.records)))).bundle.record)]
                              else old(log.records))
    {
      hide Verified, ValidBundle, Resolvable, LogicalRecords, ContentAddressed, PlanCommit, Extends;
      for k := 0 to |i.objects|
        invariant cas == old(cas) && log.records == old(log.records) && Valid()
        invariant forall j | 0 <= j < k :: validate(i.objects[j])
      {
        if !validate(i.objects[k]) {
          SameStore(cas);
          return None;
        }
      }
      var head := Head(log.records);
      var planned := RunPlanCommit(i.(expectedHead := head));
      if !planned.Planned? {
        SameStore(cas);
        return None;
      }
      PlannedIsValid(i.(expectedHead := head));
      hash := PublishCommit(planned.bundle, head);
    }

    /** Validate an object that holds floats, store its first-generation bytes, and log it in
        the first-generation format. */
    method PutLegacyObject(obj: Json, payload: seq<byte>, schema: string, createdAt: string) returns (hash: Option<Digest>)
      requires Valid()
      modifies this, log, index
      ensures Valid() && Extends(old(cas), cas) && (validate(obj) ==> BytesDigest(payload) in cas && cas[BytesDigest(payload)] == payload)
      ensures hash.Some? <==> validate(obj) && createdAt != "" && ValidRoot(Head(old(log.records)))
      ensures hash.None? ==> log.records == old(log.records)
      ensures hash.Some? ==>
        LogicalRecords(log.records)
          == LogicalRecords(old(log.records)) + [AddObjectRow(createdAt, BytesDigest(payload), schema, None, None)]
    {
      hide Verified, RowsResolvable, LogicalRecords, ValidRoot;
      if !validate(obj) {
        SameStore(cas);
        return None;
      }
      cas := cas[BytesDigest(payload) := payload];
      StillResolvable(log.records, old(cas), cas);
      StoreGrew(index, indexBuilt, LogicalRecords(log.records), old(cas), cas, decode);
      var core := LegacyRecord("add_object", createdAt, BytesDigest(payload), schema, None, None, None, []);
      hash := log.Append(core);
      if hash.None? { return; }
      LogicalAppend(old(log.records), Legacy(Stamped(core, Head(old(log.records)))));
      if indexBuilt {
        index.OnRecord(AddObjectRow(createdAt, BytesDigest(payload), schema, None, None), ObjectLookup());
      }
    }

    /** The edges a status query considers: those a fresh scan of the log would find whose
        stored bytes point at the target. */
    method EdgesAt(target: Digest) returns (edges: set<Digest>)
      requires Valid()
      modifies this`indexBuilt, index
      ensures Valid()
      ensures forall edge :: edge in edges <==>
        && EdgeLogged(log.records, edge)
        && edge in cas && decode(cas[edge]).Some? && decode(cas[edge]).value.toRef == target && IsRef(target)
    {
      hide Verified, Resolvable, LogicalRecords, ContentAddressed, AuthorityEdge, EdgeLogged, IsRef;
      EnsureIndex();
      edges := index.EdgesByTarget(target, ObjectLookup());
      forall edge ensures AuthorityEdge(LogicalRecords(log.records), edge) <==> EdgeLogged(log.records, edge) {
        ScanExactly(log.records, EDGE_SCHEMA, edge);
      }
    }

    /** The hops of a path query: those of the authoritative semantic edges, read from the
        pad's own store. */
    method Hops() returns (adj: Adjacency)
      requires Valid()
      modifies this`indexBuilt, index
      ensures Valid()
      ensures forall node, h ::
        multiset(HopsFrom(adj, node))[h]
          == (if EdgeLogged(log.records, h.edge) then HopCount(h.edge, node, h, Fetch(cas, decode)) else 0)
    {
      hide Verified, Resolvable, LogicalRecords, ContentAddressed, AuthorityEdge, EdgeLogged, HopCount, HopsFrom;
      EnsureIndex();
      adj := index.SemanticAdjacency(ObjectLookup());
      forall edge ensures AuthorityEdge(LogicalRecords(log.records), edge) <==> EdgeLogged(log.records, edge) {
        ScanExactly(log.records, EDGE_SCHEMA, edge);
      }
    }
  }

  /** A store that only grew answers as before about everything the index has seen. */
  lemma StoreGrew(index: Index, built: bool, rows: seq<LogicalRow>, before: Store, after: Store, decode: seq<byte> -> Option<EdgeObject>)
    requires Fetchable(rows, before) && Extends(before, after)
    requires built ==> index.Valid(Fetch(before, decode)) && index.rows == rows
    ensures Fetchable(rows, after)
    ensures built ==> index.Valid(Fetch(after, decode))
  {
    if built {
      hide LoggedAs, ListsTargets, ListsHops, RefsOf;
      forall edge | edge in index.edgeRefs ensures Fetch(before, decode)(edge) == Fetch(after, decode)(edge) {
        assert AuthorityEdge(rows, edge);
      }
      hide AuthorityEdge, Fetch;
      ValidAlike(index, Fetch(before, decode), Fetch(after, decode));
    }
  }

  lemma NewRowsFetchable(rows: seq<LogicalRow>, b: CommitBundle, cas: Store)
    requires Fetchable(rows, cas)
    requires forall i | 0 <= i < |b.objects| :: b.objects[i].ref in cas
    ensures Fetchable(rows + BundleRows(b), cas)
  {
    forall i | 0 <= i < |rows + BundleRows(b)| && (rows + BundleRows(b))[i].AddObjectRow?
      ensures (rows + BundleRows(b))[i].ref in cas
    {
      if i >= |rows| && i - |rows| < |b.objects| { assert BundleRows(b)[i - |rows|].ref == b.objects[i - |rows|].ref; }
    }
  }

  lemma SameStore(cas: Store)
    ensures Extends(cas, cas)
  {
  }

  lemma StillResolvable(records: seq<LogRecord>, before: Store, after: Store)
    requires Resolvable(records, before) && Extends(before, after)
    ensures Resolvable(records, after)
  {
    forall i | 0 <= i < |records| && records[i].Commit? ensures RowsResolvable(records[i].commit.core, after) {
      assert RowsResolvable(records[i].commit.core, before);
    }
  }

  lemma BundlePayloads(b: CommitBundle)
    ensures ValidBundle(b) ==>
      (forall i | 0 <= i < |b.objects| :: b.objects[i].ref == BytesDigest(b.objects[i].payload))
      && (forall i | 0 <= i < |b.blobs| :: b.blobs[i].ref == BytesDigest(b.blobs[i].payload))
  {
    hide ValidCommitRecord, ObjectRows, BlobRows;
  }

  lemma NewRecordResolvable(records: seq<LogRecord>, b: CommitBundle, cas: Store)
    requires Resolvable(records, cas) && ValidBundle(b)
    requires forall i | 0 <= i < |b.objects| :: b.objects[i].ref in cas && cas[b.objects[i].ref] == b.objects[i].payload
    requires forall i | 0 <= i < |b.blobs| :: b.blobs[i].ref in cas && cas[b.blobs[i].ref] == b.blobs[i].payload
    ensures Resolvable(records + [Commit(b.record)], cas)
  {
    hide ValidCommitRecord;
    var core, all := b.record.core, records + [Commit(b.record)];
    assert RowsResolvable(core, cas);
    hide RowsResolvable, ValidBundle;
    forall i | 0 <= i < |all| && all[i].Commit? ensures RowsResolvable(all[i].commit.core, cas) {
      if i < |records| { assert all[i] == records[i]; }
    }
  }

  lemma LogicalAppend(records: seq<LogRecord>, r: LogRecord)
    ensures LogicalRecords(records + [r]) == LogicalRecords(records) + RowsOf(r)
  {
    assert (records + [r])[..|records|] == records;
  }
}
