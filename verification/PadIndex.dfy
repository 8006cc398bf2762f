/** The derived index over the logical log, with two lazily built caches: every query answers
    what a fresh scan of the rows would. */
module PadIndex {
  import opened Prelude
  import opened CommitRecords
  import opened AuthorityLog

  /** A stored edge object as the index reads it. */
  datatype EdgeObject = EdgeObject(edgeType: string, fromRef: Digest, toRef: Digest, tag: string)

  datatype Hop = Hop(edge: Digest, next: Digest)

  type Adjacency = map<Digest, seq<Hop>>

  // ----- What a fresh scan says -----------------------------------------------------------------------------------

  predicate Indexable(row: LogicalRow) { row.AddObjectRow? && IsRef(row.ref) }

  ghost predicate LoggedAs(rows: seq<LogicalRow>, schema: string, ref: Digest) {
    exists i | 0 <= i < |rows| :: Indexable(rows[i]) && rows[i].schema == schema && rows[i].ref == ref
  }

  /** An edge some row logs with authority; an edge logged only in quarantine is not. */
  ghost predicate AuthorityEdge(rows: seq<LogicalRow>, ref: Digest) {
    exists i | 0 <= i < |rows| ::
      Indexable(rows[i]) && rows[i].schema == EDGE_SCHEMA && rows[i].ref == ref && rows[i].scope != Some("import_quarantined")
  }

  predicate Targets(edge: Digest, target: Digest, lookup: Digest -> Option<EdgeObject>) {
    lookup(edge).Some? && lookup(edge).value.toRef == target && IsRef(target)
  }

  predicate Semantic(edge: Digest, lookup: Digest -> Option<EdgeObject>) {
    && lookup(edge).Some? && lookup(edge).value.edgeType == "semantic"
    && IsRef(lookup(edge).value.fromRef) && IsRef(lookup(edge).value.toRef)
  }

  /** How often an edge lists a hop at a node: once forward, and once back if equivalent. */
  function HopCount(edge: Digest, node: Digest, h: Hop, lookup: Digest -> Option<EdgeObject>): nat {
    if Semantic(edge, lookup) && h.edge == edge then Crossings(lookup(edge).value, node, h.next) else 0
  }

  function Crossings(e: EdgeObject, node: Digest, next: Digest): nat {
    (if e.fromRef == node && e.toRef == next then 1 else 0)
    + (if e.tag == EQUIVALENCE && e.toRef == node && e.fromRef == next then 1 else 0)
  }

  function HopsFrom(adj: Adjacency, node: Digest): seq<Hop> { if node in adj then adj[node] else [] }

  /** The adjacency lists every hop of these edges as often as the edges do. */
  ghost predicate ListsHops(adj: Adjacency, edges: set<Digest>, lookup: Digest -> Option<EdgeObject>) {
    forall node, h :: multiset(HopsFrom(adj, node))[h] == if h.edge in edges then HopCount(h.edge, node, h, lookup) else 0
  }

  ghost predicate ListsTargets(targets: map<Digest, set<Digest>>, edges: set<Digest>, lookup: Digest -> Option<EdgeObject>) {
    forall target, edge :: target in targets && edge in targets[target] <==> edge in edges && Targets(edge, target, lookup)
  }

  // ----- The same, told by the log records ------------------------------------------------------------------------

  /** The record logs this object: a first-generation addition, or a commit that holds it. */
  ghost predicate Logs(r: LogRecord, schema: string, ref: Digest) {
    match r
    case Legacy(l) => l.op == "add_object" && l.objSchema == schema && l.objRef == ref
    case Commit(c) => exists k | 0 <= k < |c.core.objects| :: c.core.objects[k].ref == ref && c.core.objects[k].schema == schema
    case UnknownSchema => false
  }

  /** The record keeps what it logs in quarantine. */
  ghost predicate InQuarantine(r: LogRecord) {
    match r
    case Legacy(l) => l.authorityScope == Some("import_quarantined")
    case Commit(c) => Quarantines(c.core.receipt.policyVersion)
    case UnknownSchema => false
  }

  /** Some record logs this edge and does not keep it in quarantine. */
  ghost predicate EdgeLogged(records: seq<LogRecord>, edge: Digest) {
    IsRef(edge) && exists i | 0 <= i < |records| :: Logs(records[i], "popperpad/edge/v1", edge) && !InQuarantine(records[i])
  }

  ghost predicate ObjectLogged(records: seq<LogRecord>, schema: string, ref: Digest) {
    IsRef(ref) && exists i | 0 <= i < |records| :: Logs(records[i], schema, ref)
  }

  lemma LegacyRows(l: LegacyRecord, schema: string, ref: Digest)
    ensures LoggedAs(RowsOf(Legacy(l)), schema, ref) <==> IsRef(ref) && Logs(Legacy(l), schema, ref)
    ensures AuthorityEdge(RowsOf(Legacy(l)), ref)
      <==> IsRef(ref) && Logs(Legacy(l), "popperpad/edge/v1", ref) && !InQuarantine(Legacy(l))
  {
    hide IsRef, AuthorityScope, Quarantines;
    assert l.op == "add_object" ==> RowsOf(Legacy(l))[0] == AddObjectRow(l.createdAt, l.objRef, l.objSchema, l.authorityScope, None);
  }

  lemma CommittedRows(c: CommitRecord, schema: string, ref: Digest)
    ensures LoggedAs(RowsOf(Commit(c)), schema, ref) <==> IsRef(ref) && Logs(Commit(c), schema, ref)
    ensures AuthorityEdge(RowsOf(Commit(c)), ref)
      <==> IsRef(ref) && Logs(Commit(c), "popperpad/edge/v1", ref) && !InQuarantine(Commit(c))
  {
    hide IsRef, AuthorityScope, Quarantines;
    ScopeExactly(c.core.receipt.policyVersion);
    var rows := RowsOf(Commit(c));
    assert forall k {:trigger c.core.objects[k]} {:trigger rows[k]} | 0 <= k < |c.core.objects| ::
      rows[k] == AddObjectRow(c.core.createdAt, c.core.objects[k].ref, c.core.objects[k].schema,
                              AuthorityScope(c.core.receipt.policyVersion), Some(c.recordHash));
    assert forall k | |c.core.objects| <= k < |rows| :: rows[k].AddBlobRow?;
    hide RowsOf;
  }

  /** What one record adds. */
  lemma RecordRows(r: LogRecord, schema: string, ref: Digest)
    ensures LoggedAs(RowsOf(r), schema, ref) <==> IsRef(ref) && Logs(r, schema, ref)
    ensures AuthorityEdge(RowsOf(r), ref) <==> IsRef(ref) && Logs(r, "popperpad/edge/v1", ref) && !InQuarantine(r)
  {
    match r
    case Legacy(l) => LegacyRows(l, schema, ref);
    case UnknownSchema =>
    case Commit(c) =>
      hide LoggedAs, AuthorityEdge, RowsOf, Logs;
      CommittedRows(c, schema, ref);
  }

  lemma RowsJoined(a: seq<LogicalRow>, b: seq<LogicalRow>, schema: string, ref: Digest)
    ensures LoggedAs(a + b, schema, ref) <==> LoggedAs(a, schema, ref) || LoggedAs(b, schema, ref)
    ensures AuthorityEdge(a + b, ref) <==> AuthorityEdge(a, ref) || AuthorityEdge(b, ref)
  {
    hide Indexable;
    assert forall i {:trigger a[i]} | 0 <= i < |a| :: (a + b)[i] == a[i];
    assert forall i {:trigger b[i]} | 0 <= i < |b| :: (a + b)[|a| + i] == b[i];
  }

  lemma OneMoreRecord(records: seq<LogRecord>, r: LogRecord, schema: string, ref: Digest)
    ensures ObjectLogged(records + [r], schema, ref) <==> ObjectLogged(records, schema, ref) || (IsRef(ref) && Logs(r, schema, ref))
    ensures EdgeLogged(records + [r], ref)
      <==> EdgeLogged(records, ref) || (IsRef(ref) && Logs(r, "popperpad/edge/v1", ref) && !InQuarantine(r))
  {
    hide Logs, InQuarantine, IsRef;
    var more := records + [r];
    assert more[|records|] == r;
    assert forall i {:trigger records[i]} | 0 <= i < |records| :: more[i] == records[i];
  }

  lemma RecordsSnoc(records: seq<LogRecord>)
    requires records != []
    ensures LogicalRecords(records) == LogicalRecords(records[..|records| - 1]) + RowsOf(records[|records| - 1])
  {
    hide RowsOf;
  }

  /** A scan of the rows finds exactly what the records log. */
  lemma {:induction false} ScanExactly(records: seq<LogRecord>, schema: string, ref: Digest)
    ensures LoggedAs(LogicalRecords(records), schema, ref) <==> ObjectLogged(records, schema, ref)
    ensures AuthorityEdge(LogicalRecords(records), ref) <==> EdgeLogged(records, ref)
  {
    if records != [] {
      hide *;
      var init, last := records[..|records| - 1], records[|records| - 1];
      RecordsSnoc(records);
      ScanExactly(init, schema, ref);
      RecordRows(last, schema, ref);
      RowsJoined(LogicalRecords(init), RowsOf(last), schema, ref);
      assert records == init + [last];
      OneMoreRecord(init, last, schema, ref);
    }
  }

  function RefsOf(m: map<string, set<Digest>>, schema: string): set<Digest> { if schema in m then m[schema] else {} }

  // ----- The index --------------------------------------------------------------------------------------------------

  class Index {
    var schemaToRefs: map<string, set<Digest>>
    var edgeRefs: set<Digest>
    var edgeTargets: Option<map<Digest, set<Digest>>>
    var semanticAdj: Option<Adjacency>
    ghost var rows: seq<LogicalRow>

    constructor ()
      ensures rows == [] && forall lookup :: Valid(lookup)
    {
      schemaToRefs, edgeRefs, edgeTargets, semanticAdj, rows := map[], {}, None, None, [];
    }

    /** The tables hold exactly what the rows seen so far say, and a cache that is present is
        the one these tables would build. */
    ghost predicate Valid(lookup: Digest -> Option<EdgeObject>)
      reads this
    {
      && (forall schema, ref :: ref in RefsOf(schemaToRefs, schema) <==> LoggedAs(rows, schema, ref))
      && (forall ref :: ref in edgeRefs <==> AuthorityEdge(rows, ref))
      && (edgeTargets.Some? ==> ListsTargets(edgeTargets.value, edgeRefs, lookup))
      && (semanticAdj.Some? ==> ListsHops(semanticAdj.value, edgeRefs, lookup))
    }

    method OnRecord(row: LogicalRow, ghost lookup: Digest -> Option<EdgeObject>)
      requires Valid(lookup)
      modifies this
      ensures Valid(lookup) && rows == old(rows) + [row]
    {
      hide ListsTargets, ListsHops, IsRef, LoggedAs, AuthorityEdge;
      OneMoreRow(rows, row);
      rows := rows + [row];
      if !row.AddObjectRow? { return; }
      if !IsRef(row.ref) { return; }
      schemaToRefs := schemaToRefs[row.schema := RefsOf(schemaToRefs, row.schema) + {row.ref}];
      if row.schema == EDGE_SCHEMA {
        if row.scope != Some("import_quarantined") {
          edgeRefs := edgeRefs + {row.ref};
        }
        edgeTargets := None;
        semanticAdj := None;
      }
    }

    method RebuildFromLog(records: seq<LogicalRow>, ghost lookup: Digest -> Option<EdgeObject>)
      modifies this
      ensures Valid(lookup) && rows == records
    {
      schemaToRefs, edgeRefs, edgeTargets, semanticAdj, rows := map[], {}, None, None, [];
      NoRows();
      assert Valid(lookup) by { hide LoggedAs, AuthorityEdge; }
      for i := 0 to |records|
        invariant Valid(lookup) && rows == records[..i]
      {
        hide LoggedAs, AuthorityEdge, ListsTargets, ListsHops, RefsOf;
        OnRecord(records[i], lookup);
        assert records[..i + 1] == records[..i] + [records[i]];
      }
      assert records[..|records|] == records;
    }

    method RefsBySchema(schema: string, ghost lookup: Digest -> Option<EdgeObject>) returns (refs: set<Digest>)
      requires Valid(lookup)
      ensures forall ref :: ref in refs <==> LoggedAs(rows, schema, ref)
    {
      refs := RefsOf(schemaToRefs, schema);
    }

    /** The authoritative edges that point at a target, from the cache or built into it. */
    method EdgesByTarget(target: Digest, lookup: Digest -> Option<EdgeObject>) returns (edges: set<Digest>)
      requires Valid(lookup)
      modifies this`edgeTargets
      ensures Valid(lookup)
      ensures forall edge :: edge in edges <==> AuthorityEdge(rows, edge) && Targets(edge, target, lookup)
    {
      hide LoggedAs, AuthorityEdge, ListsHops, Targets;
      if edgeTargets.None? {
        var built := BuildEdgeTargets(edgeRefs, lookup);
        edgeTargets := Some(built);
      }
      edges := if target in edgeTargets.value then edgeTargets.value[target] else {};
    }

    /** The hops of every authoritative semantic edge, from the cache or built into it. */
    method SemanticAdjacency(lookup: Digest -> Option<EdgeObject>) returns (adj: Adjacency)
      requires Valid(lookup)
      modifies this`semanticAdj
      ensures Valid(lookup)
      ensures forall node, h ::
        multiset(HopsFrom(adj, node))[h] == (if AuthorityEdge(rows, h.edge) then HopCount(h.edge, node, h, lookup) else 0)
    {
      hide LoggedAs, AuthorityEdge, ListsTargets, HopCount, HopsFrom;
      if semanticAdj.None? {
        var built := BuildSemanticAdjacency(edgeRefs, lookup);
        semanticAdj := Some(built);
      }
      adj := semanticAdj.value;
    }
  }

  /** Only what is looked up for the edges seen matters. */
  lemma ValidAlike(index: Index, f: Digest -> Option<EdgeObject>, g: Digest -> Option<EdgeObject>)
    requires index.Valid(f) && forall edge | edge in index.edgeRefs :: f(edge) == g(edge)
    ensures index.Valid(g)
  {
    hide LoggedAs, AuthorityEdge, RefsOf, IsRef;
    if index.edgeTargets.Some? {
      var targets := index.edgeTargets.value;
      forall target, edge ensures target in targets && edge in targets[target] <==> edge in index.edgeRefs && Targets(edge, target, g) {
        assert target in targets && edge in targets[target] <==> edge in index.edgeRefs && Targets(edge, target, f);
      }
    }
    if index.semanticAdj.Some? {
      var adj := index.semanticAdj.value;
      forall node, h ensures
        multiset(HopsFrom(adj, node))[h] == if h.edge in index.edgeRefs then HopCount(h.edge, node, h, g) else 0
      {
        assert multiset(HopsFrom(adj, node))[h] == if h.edge in index.edgeRefs then HopCount(h.edge, node, h, f) else 0;
      }
    }
  }

  lemma NoRows()
    ensures forall schema, ref :: !LoggedAs([], schema, ref)
    ensures forall ref :: !AuthorityEdge([], ref)
  {
  }

  /** What one more row adds to a scan. */
  lemma OneMoreRow(rows: seq<LogicalRow>, row: LogicalRow)
    ensures forall schema, ref ::
      LoggedAs(rows + [row], schema, ref) <==>
      (LoggedAs(rows, schema, ref) || (Indexable(row) && row.schema == schema && row.ref == ref))
    ensures forall ref ::
      AuthorityEdge(rows + [row], ref) <==>
      (AuthorityEdge(rows, ref)
       || (Indexable(row) && row.schema == EDGE_SCHEMA && row.ref == ref && row.scope != Some("import_quarantined")))
  {
    var more := rows + [row];
    hide IsRef;
    assert forall i {:trigger rows[i]} | 0 <= i < |rows| :: more[i] == rows[i];
    assert more[|rows|] == row;
  }

  // ----- Building the caches ------------------------------------------------------------------------------------------

  method BuildEdgeTargets(edges: set<Digest>, lookup: Digest -> Option<EdgeObject>) returns (targets: map<Digest, set<Digest>>)
    ensures ListsTargets(targets, edges, lookup)
  {
    targets := map[];
    var todo := edges;
    ghost var done: set<Digest> := {};
    assert ListsTargets(targets, done, lookup);
    hide IsRef, ListsTargets, AddTarget, Targets;
    while todo != {}
      invariant done + todo == edges && done !! todo
      invariant ListsTargets(targets, done, lookup)
      decreases |todo|
    {
      var edge :| edge in todo;
      todo := todo - {edge};
      var e := lookup(edge);
      TargetAdded(targets, done, edge, lookup);
      done := done + {edge};
      if e.None? { continue; }
      if IsRef(e.value.toRef) {
        targets := AddTarget(targets, e.value.toRef, edge);
      }
    }
    assert done == edges;
  }

  /** One more edge adds its target, if it has one. */
  lemma TargetAdded(targets: map<Digest, set<Digest>>, done: set<Digest>, edge: Digest, lookup: Digest -> Option<EdgeObject>)
    requires ListsTargets(targets, done, lookup)
    ensures var e := lookup(edge);
      ListsTargets(if e.Some? && IsRef(e.value.toRef) then AddTarget(targets, e.value.toRef, edge) else targets, done + {edge}, lookup)
  {
    hide IsRef;
    var e := lookup(edge);
    var out := if e.Some? && IsRef(e.value.toRef) then AddTarget(targets, e.value.toRef, edge) else targets;
    forall target, x ensures target in out && x in out[target] <==> x in done + {edge} && Targets(x, target, lookup) {
      assert target in targets && x in targets[target] <==> x in done && Targets(x, target, lookup);
    }
  }

  function AddTarget(targets: map<Digest, set<Digest>>, target: Digest, edge: Digest): (out: map<Digest, set<Digest>>)
    ensures forall t, e :: t in out && e in out[t] <==> (t in targets && e in targets[t]) || (t == target && e == edge)
  {
    targets[target := (if target in targets then targets[target] else {}) + {edge}]
  }

  function AddHop(adj: Adjacency, node: Digest, h: Hop): Adjacency {
    adj[node := HopsFrom(adj, node) + [h]]
  }

  lemma AddHopCount(adj: Adjacency, node: Digest, h: Hop, n: Digest, g: Hop)
    ensures multiset(HopsFrom(AddHop(adj, node, h), n))[g]
      == multiset(HopsFrom(adj, n))[g] + (if n == node && g == h then 1 else 0)
  {
  }

  /** The adjacency with the hops of one edge, if it is a semantic edge between refs. */
  function AddEdge(adj: Adjacency, edge: Digest, lookup: Digest -> Option<EdgeObject>): (out: Adjacency) {
    if lookup(edge).None? || lookup(edge).value.edgeType != "semantic" then adj
    else
      var e := lookup(edge).value;
      if !IsRef(e.fromRef) || !IsRef(e.toRef) then adj
      else
        var forward := AddHop(adj, e.fromRef, Hop(edge, e.toRef));
        if e.tag == EQUIVALENCE then AddHop(forward, e.toRef, Hop(edge, e.fromRef)) else forward
  }

  lemma AddEdgeCounts(adj: Adjacency, edge: Digest, lookup: Digest -> Option<EdgeObject>)
    ensures forall node, h ::
      multiset(HopsFrom(AddEdge(adj, edge, lookup), node))[h] == multiset(HopsFrom(adj, node))[h] + HopCount(edge, node, h, lookup)
  {
    hide *;
    forall node, h ensures
      multiset(HopsFrom(AddEdge(adj, edge, lookup), node))[h] == multiset(HopsFrom(adj, node))[h] + HopCount(edge, node, h, lookup)
    {
      AddEdgeCount(adj, edge, lookup, node, h);
    }
  }

  lemma AddEdgeCount(adj: Adjacency, edge: Digest, lookup: Digest -> Option<EdgeObject>, node: Digest, h: Hop)
    ensures multiset(HopsFrom(AddEdge(adj, edge, lookup), node))[h]
      == multiset(HopsFrom(adj, node))[h] + HopCount(edge, node, h, lookup)
  {
    hide IsRef, AddHop, HopsFrom;
    if Semantic(edge, lookup) {
      var e := lookup(edge).value;
      var forward := AddHop(adj, e.fromRef, Hop(edge, e.toRef));
      AddHopCount(adj, e.fromRef, Hop(edge, e.toRef), node, h);
      AddHopCount(forward, e.toRef, Hop(edge, e.fromRef), node, h);
    }
  }

  method BuildSemanticAdjacency(edges: set<Digest>, lookup: Digest -> Option<EdgeObject>) returns (adj: Adjacency)
    ensures ListsHops(adj, edges, lookup)
  {
    adj := map[];
    var todo := edges;
    ghost var done: set<Digest> := {};
    assert ListsHops(adj, done, lookup);
    hide ListsHops, HopCount, AddEdge, HopsFrom;
    while todo != {}
      invariant done + todo == edges && done !! todo
      invariant ListsHops(adj, done, lookup)
      decreases |todo|
    {
      var edge :| edge in todo;
      todo := todo - {edge};
      AddEdgeCounts(adj, edge, lookup);
      EdgeAdded(adj, AddEdge(adj, edge, lookup), done, edge, lookup);
      adj := AddEdge(adj, edge, lookup);
      done := done + {edge};
    }
    assert done == edges;
  }

  lemma EdgeAdded(before: Adjacency, after: Adjacency, done: set<Digest>, edge: Digest, lookup: Digest -> Option<EdgeObject>)
    requires ListsHops(before, done, lookup) && edge !in done
    requires forall node, h :: multiset(HopsFrom(after, node))[h] == multiset(HopsFrom(before, node))[h] + HopCount(edge, node, h, lookup)
    ensures ListsHops(after, done + {edge}, lookup)
  {
    forall node, h
      ensures multiset(HopsFrom(after, node))[h] == if h.edge in done + {edge} then HopCount(h.edge, node, h, lookup) else 0
    {
      assert multiset(HopsFrom(before, node))[h] == if h.edge in done then HopCount(h.edge, node, h, lookup) else 0;
      hide HopsFrom;
    }
  }
}
