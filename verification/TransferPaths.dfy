/** Bounded transfer paths over the semantic graph: a worklist that finds exactly the
    node-simple paths, each once and in order. */
module TransferPaths {
  import opened Prelude

  datatype EvidenceRecord = EvidenceRecord(
    ref: string,
    recipeRef: string,
    contextRef: Option<string>,
    subjectRefs: seq<string>,
    status: string)

  datatype Obligation = Obligation(obligationId: string, recipeRef: string)

  datatype SemanticEdge = SemanticEdge(
    ref: string,
    fromRef: string,
    toRef: string,
    tag: string,
    obligations: seq<Obligation>,
    evidenceRefs: seq<string>)

  datatype TransferSnapshot = TransferSnapshot(edges: seq<SemanticEdge>, evidence: seq<EvidenceRecord>)

  datatype OpenObligation = OpenObligation(edgeRef: string, obligationId: string, recipeRef: string)

  datatype TransferPath = TransferPath(edgeRefs: seq<string>, obligationsOpen: seq<OpenObligation>)

  // ----- Lookups and open obligations -----------------------------------------------------------------

  /** A dictionary built from the records keeps the last one of each ref. */
  function EvidenceByRef(records: seq<EvidenceRecord>, ref: string): Option<EvidenceRecord> {
    if records == [] then None
    else if records[|records| - 1].ref == ref then Some(records[|records| - 1])
    else EvidenceByRef(records[..|records| - 1], ref)
  }

  function EdgeByRef(edges: seq<SemanticEdge>, ref: string): (r: Option<SemanticEdge>)
    ensures r.Some? ==> r.value in edges && r.value.ref == ref
    ensures r.None? ==> forall e | e in edges :: e.ref != ref
  {
    if edges == [] then None
    else
      var last := edges[|edges| - 1];
      assert edges == edges[..|edges| - 1] + [last];
      if last.ref == ref then Some(last) else EdgeByRef(edges[..|edges| - 1], ref)
  }

  /** The status reads "pass" once lower-cased. */
  predicate Passed(status: string) {
    |status| == 4 && status[0] in "pP" && status[1] in "aA" && status[2] in "sS" && status[3] in "sS"
  }

  predicate Satisfied(o: Obligation, evidenceRefs: seq<string>, evidence: seq<EvidenceRecord>) {
    exists k | 0 <= k < |evidenceRefs| ::
      var found := EvidenceByRef(evidence, evidenceRefs[k]);
      found.Some? && found.value.recipeRef == o.recipeRef && Passed(found.value.status)
  }

  /** The obligations nothing satisfies, in order. */
  function OpenOf(ref: string, obligations: seq<Obligation>, evidenceRefs: seq<string>, evidence: seq<EvidenceRecord>): seq<OpenObligation> {
    if obligations == [] then []
    else
      var last := obligations[|obligations| - 1];
      OpenOf(ref, obligations[..|obligations| - 1], evidenceRefs, evidence)
      + (if Satisfied(last, evidenceRefs, evidence) then [] else [OpenObligation(ref, last.obligationId, last.recipeRef)])
  }

  function OpenEdge(e: SemanticEdge, evidence: seq<EvidenceRecord>): seq<OpenObligation> {
    OpenOf(e.ref, e.obligations, e.evidenceRefs, evidence)
  }

  /** Open obligations of the edge a ref stands for. */
  function OpenRef(s: TransferSnapshot, ref: string): seq<OpenObligation> {
    var e := EdgeByRef(s.edges, ref);
    if e.None? then [] else OpenEdge(e.value, s.evidence)
  }

  function OpenPath(s: TransferSnapshot, refs: seq<string>): seq<OpenObligation> {
    if refs == [] then [] else OpenPath(s, refs[..|refs| - 1]) + OpenRef(s, refs[|refs| - 1])
  }

  lemma {:induction false} OpenPathEmpty(s: TransferSnapshot, refs: seq<string>)
    ensures OpenPath(s, refs) == [] <==> forall k | 0 <= k < |refs| :: OpenRef(s, refs[k]) == []
  {
    hide OpenRef;
    if refs != [] {
      var init, last := refs[..|refs| - 1], refs[|refs| - 1];
      OpenPathEmpty(s, init);
      assert OpenPath(s, refs) == OpenPath(s, init) + OpenRef(s, last);
      hide OpenPath;
      if OpenPath(s, refs) == [] {
        assert OpenPath(s, init) == [] && OpenRef(s, last) == [];
        forall k | 0 <= k < |refs| ensures OpenRef(s, refs[k]) == [] {
          if k < |init| { assert init[k] == refs[k]; }
        }
      }
    }
  }

  // ----- What these lookups find ------------------------------------------------------------------------

  /** The record at i is the last one of its ref. */
  ghost predicate LastRecord(records: seq<EvidenceRecord>, i: int) {
    0 <= i < |records| && forall j | i < j < |records| :: records[j].ref != records[i].ref
  }

  /** "pass", letter by letter in either case. */
  ghost predicate ReadsPass(status: string) {
    |status| == 4 && forall i | 0 <= i < 4 :: status[i] == "pass"[i] || status[i] == "PASS"[i]
  }

  lemma PassedExactly(status: string)
    ensures Passed(status) <==> ReadsPass(status)
  {
    if |status| == 4 {
      assert "pass"[0] == 'p' && "pass"[1] == 'a' && "pass"[2] == 's' && "pass"[3] == 's';
      assert "PASS"[0] == 'P' && "PASS"[1] == 'A' && "PASS"[2] == 'S' && "PASS"[3] == 'S';
    }
  }

  lemma {:induction false} LastFound(records: seq<EvidenceRecord>, ref: string)
    ensures var found := EvidenceByRef(records, ref);
      && (found.Some? ==> exists i :: LastRecord(records, i) && records[i] == found.value && records[i].ref == ref)
      && (found.None? ==> forall i | 0 <= i < |records| :: records[i].ref != ref)
  {
    if records != [] && records[|records| - 1].ref != ref {
      var init := records[..|records| - 1];
      LastFound(init, ref);
      if EvidenceByRef(init, ref).Some? {
        var i :| LastRecord(init, i) && init[i] == EvidenceByRef(init, ref).value && init[i].ref == ref;
        assert LastRecord(records, i) && records[i] == init[i];
      } else {
        assert forall i {:trigger records[i]} | 0 <= i < |init| :: records[i] == init[i];
      }
    } else if records != [] {
      assert LastRecord(records, |records| - 1);
    }
  }

  /** The record found is the one record that is the last of its ref. */
  lemma FoundIsLast(records: seq<EvidenceRecord>, i: int)
    requires LastRecord(records, i)
    ensures EvidenceByRef(records, records[i].ref) == Some(records[i])
  {
    LastFound(records, records[i].ref);
    hide EvidenceByRef;
    var k :| LastRecord(records, k) && records[k].ref == records[i].ref
      && records[k] == EvidenceByRef(records, records[i].ref).value;
    assert k == i;
  }

  /** Some evidence listed for the edge is on record, its last record names the obligation's
      recipe, and it passed. */
  ghost predicate Discharged(o: Obligation, evidenceRefs: seq<string>, evidence: seq<EvidenceRecord>) {
    exists i :: LastRecord(evidence, i) && evidence[i].ref in evidenceRefs
      && evidence[i].recipeRef == o.recipeRef && ReadsPass(evidence[i].status)
  }

  lemma SatisfiedExactly(o: Obligation, evidenceRefs: seq<string>, evidence: seq<EvidenceRecord>)
    ensures Satisfied(o, evidenceRefs, evidence) <==> Discharged(o, evidenceRefs, evidence)
  {
    hide EvidenceByRef, Passed, ReadsPass;
    if Satisfied(o, evidenceRefs, evidence) {
      var k :| 0 <= k < |evidenceRefs|
        && var found := EvidenceByRef(evidence, evidenceRefs[k]);
           found.Some? && found.value.recipeRef == o.recipeRef && Passed(found.value.status);
      LastFound(evidence, evidenceRefs[k]);
      PassedExactly(EvidenceByRef(evidence, evidenceRefs[k]).value.status);
    }
    if Discharged(o, evidenceRefs, evidence) {
      var i :| LastRecord(evidence, i) && evidence[i].ref in evidenceRefs
        && evidence[i].recipeRef == o.recipeRef && ReadsPass(evidence[i].status);
      FoundIsLast(evidence, i);
      PassedExactly(evidence[i].status);
      var k :| 0 <= k < |evidenceRefs| && evidenceRefs[k] == evidence[i].ref;
      assert EvidenceByRef(evidence, evidenceRefs[k]) == Some(evidence[i]);
    }
  }

  /** An edge has open exactly the obligations nothing discharges, in order. */
  lemma {:induction false} OpenExactly(ref: string, obligations: seq<Obligation>, evidenceRefs: seq<string>, evidence: seq<EvidenceRecord>)
    ensures forall x :: x in OpenOf(ref, obligations, evidenceRefs, evidence) <==>
      exists o :: o in obligations && !Discharged(o, evidenceRefs, evidence) && x == OpenObligation(ref, o.obligationId, o.recipeRef)
  {
    hide Satisfied, Discharged;
    if obligations != [] {
      var init, last := obligations[..|obligations| - 1], obligations[|obligations| - 1];
      assert obligations == init + [last];
      OpenExactly(ref, init, evidenceRefs, evidence);
      SatisfiedExactly(last, evidenceRefs, evidence);
    }
  }

  /** The edge a ref stands for is the last of that ref. */
  lemma {:induction false} EdgeFoundIsLast(edges: seq<SemanticEdge>, i: nat)
    requires i < |edges| && forall j | i < j < |edges| :: edges[j].ref != edges[i].ref
    ensures EdgeByRef(edges, edges[i].ref) == Some(edges[i])
  {
    if i < |edges| - 1 { EdgeFoundIsLast(edges[..|edges| - 1], i); }
  }

  method OpenEdgeObligations(e: SemanticEdge, evidence: seq<EvidenceRecord>) returns (open: seq<OpenObligation>)
    ensures open == OpenEdge(e, evidence)
  {
    open := [];
    for i := 0 to |e.obligations|
      invariant open == OpenOf(e.ref, e.obligations[..i], e.evidenceRefs, evidence)
    {
      var o := e.obligations[i];
      assert e.obligations[..i + 1][..i] == e.obligations[..i];
      if !Satisfied(o, e.evidenceRefs, evidence) {
        open := open + [OpenObligation(e.ref, o.obligationId, o.recipeRef)];
      }
    }
    assert e.obligations[..|e.obligations|] == e.obligations;
  }

  method OpenPathObligations(s: TransferSnapshot, refs: seq<string>) returns (open: seq<OpenObligation>)
    requires forall k | 0 <= k < |refs| :: EdgeByRef(s.edges, refs[k]).Some?
    ensures open == OpenPath(s, refs)
  {
    open := [];
    for i := 0 to |refs|
      invariant open == OpenPath(s, refs[..i])
    {
      assert refs[..i + 1][..i] == refs[..i];
      var more := OpenEdgeObligations(EdgeByRef(s.edges, refs[i]).value, s.evidence);
      open := open + more;
    }
    assert refs[..|refs|] == refs;
  }

  // ----- What a transfer path is --------------------------------------------------------------------------

  datatype Hop = Hop(ref: string, next: string)

  /** The edge may be crossed from `node` as this hop says. */
  predicate Crosses(e: SemanticEdge, node: string, h: Hop) {
    && h.ref == e.ref
    && ((e.fromRef == node && e.toRef == h.next) || (e.tag == EQUIVALENCE && e.toRef == node && e.fromRef == h.next))
  }

  ghost predicate Links(edges: seq<SemanticEdge>, node: string, h: Hop) {
    exists e :: e in edges && Crosses(e, node, h)
  }

  /** The refs lead through exactly these nodes, none twice. */
  ghost predicate Walks(edges: seq<SemanticEdge>, refs: seq<string>, nodes: seq<string>) {
    && |nodes| == |refs| + 1
    && Distinct(nodes)
    && forall k | 0 <= k < |refs| :: Links(edges, nodes[k], Hop(refs[k], nodes[k + 1]))
  }

  /** Only edges with nothing open may be used when validation is required. */
  ghost predicate Allowed(s: TransferSnapshot, refs: seq<string>, requireValidated: bool) {
    requireValidated ==> forall k | 0 <= k < |refs| :: OpenRef(s, refs[k]) == []
  }

  /** A simple path from one node to another with at most `depth` edges. */
  ghost predicate SimplePath(s: TransferSnapshot, from: string, to: string, depth: nat, refs: seq<string>, nodes: seq<string>) {
    && Walks(s.edges, refs, nodes)
    && nodes[0] == from && nodes[|refs|] == to
    && |refs| <= depth
  }

  ghost predicate IsPath(s: TransferSnapshot, from: string, to: string, depth: nat, requireValidated: bool, refs: seq<string>) {
    Allowed(s, refs, requireValidated) && exists nodes :: SimplePath(s, from, to, depth, refs, nodes)
  }

  function PathLe(a: TransferPath, b: TransferPath): bool { StringsLe(a.edgeRefs, b.edgeRefs) }

  function EdgeLe(a: SemanticEdge, b: SemanticEdge): bool { StringLe(a.ref, b.ref) }

  function HopLe(a: Hop, b: Hop): bool { StringsLe([a.ref, a.next], [b.ref, b.next]) }

  predicate EdgesApart(a: SemanticEdge, b: SemanticEdge) { a.ref != b.ref }

  predicate PathsApart(a: TransferPath, b: TransferPath) { a.edgeRefs != b.edgeRefs }

  ghost predicate UniqueRefs(edges: seq<SemanticEdge>) {
    Pairwise(edges, EdgesApart)
  }

  /** The promised answer: the simple paths, each with its open obligations, sorted, and
      without repetition when refs name edges uniquely. */
  ghost predicate ExactPaths(s: TransferSnapshot, from: string, to: string, depth: nat, requireValidated: bool, out: seq<TransferPath>) {
    && (forall path :: path in out <==>
          (IsPath(s, from, to, depth, requireValidated, path.edgeRefs) && path.obligationsOpen == OpenPath(s, path.edgeRefs)))
    && SortedBy(out, PathLe)
    && (UniqueRefs(s.edges) ==> Pairwise(out, PathsApart))
  }

  // ----- Adjacency ------------------------------------------------------------------------------------------

  function HopsFrom(adjacency: map<string, seq<Hop>>, node: string): seq<Hop> {
    if node in adjacency then adjacency[node] else []
  }

  function WithHop(adjacency: map<string, seq<Hop>>, node: string, h: Hop): (out: map<string, seq<Hop>>)
    ensures forall n :: HopsFrom(out, n) == if n == node then HopsFrom(adjacency, n) + [h] else HopsFrom(adjacency, n)
  {
    adjacency[node := HopsFrom(adjacency, node) + [h]]
  }

  /** The adjacency lists every hop the edges allow. With unique refs, two hops of one node
      share a ref only when they are the two directions of a loop. */
  ghost predicate Adjacent(edges: seq<SemanticEdge>, adjacency: map<string, seq<Hop>>) {
    && (forall node, h :: h in HopsFrom(adjacency, node) <==> Links(edges, node, h))
    && (forall node :: |HopsFrom(adjacency, node)| <= 2 * |edges|)
    && (UniqueRefs(edges) ==> forall node :: LoopsOnly(HopsFrom(adjacency, node), node))
  }

  ghost predicate LoopsOnly(hops: seq<Hop>, node: string) {
    forall i, j | 0 <= i < j < |hops| && hops[i].ref == hops[j].ref :: hops[i].next == hops[j].next == node
  }

  function AddEdge(adjacency: map<string, seq<Hop>>, e: SemanticEdge): map<string, seq<Hop>> {
    var one := WithHop(adjacency, e.fromRef, Hop(e.ref, e.toRef));
    if e.tag == EQUIVALENCE then WithHop(one, e.toRef, Hop(e.ref, e.fromRef)) else one
  }

  lemma LinksMore(edges: seq<SemanticEdge>, e: SemanticEdge, node: string, h: Hop)
    ensures Links(edges + [e], node, h) <==> Links(edges, node, h) || Crosses(e, node, h)
  {
    if Links(edges, node, h) {
      var f :| f in edges && Crosses(f, node, h);
      assert f in edges + [e];
    }
    assert e in edges + [e];
  }

  lemma AddEdgeHops(adjacency: map<string, seq<Hop>>, e: SemanticEdge, node: string) returns (more: seq<Hop>)
    ensures HopsFrom(AddEdge(adjacency, e), node) == HopsFrom(adjacency, node) + more && |more| <= 2
    ensures forall h :: h in more <==> Crosses(e, node, h)
    ensures LoopsOnly(more, node) && forall h | h in more :: h.ref == e.ref
  {
    var forward := if e.fromRef == node then [Hop(e.ref, e.toRef)] else [];
    var back := if e.tag == EQUIVALENCE && e.toRef == node then [Hop(e.ref, e.fromRef)] else [];
    more := forward + back;
    AddEdgeAppends(adjacency, e, node);
  }

  lemma AddEdgeAppends(adjacency: map<string, seq<Hop>>, e: SemanticEdge, node: string)
    ensures HopsFrom(AddEdge(adjacency, e), node)
      == HopsFrom(adjacency, node) + ((if e.fromRef == node then [Hop(e.ref, e.toRef)] else [])
                                      + (if e.tag == EQUIVALENCE && e.toRef == node then [Hop(e.ref, e.fromRef)] else []))
  {
    hide WithHop, HopsFrom;
  }

  lemma AddEdgeKeeps(edges: seq<SemanticEdge>, adjacency: map<string, seq<Hop>>, e: SemanticEdge)
    requires Adjacent(edges, adjacency)
    ensures Adjacent(edges + [e], AddEdge(adjacency, e))
  {
    hide Links, LoopsOnly, UniqueRefs, HopsFrom, AddEdge, Crosses;
    var out, all := AddEdge(adjacency, e), edges + [e];
    if UniqueRefs(all) { UniqueInit(edges, e); }
    forall node ensures |HopsFrom(out, node)| <= 2 * |all|
      ensures UniqueRefs(all) ==> LoopsOnly(HopsFrom(out, node), node)
      ensures forall h :: h in HopsFrom(out, node) <==> Links(all, node, h)
    {
      NodeKeeps(edges, adjacency, e, node);
    }
  }

  lemma UniqueInit(edges: seq<SemanticEdge>, e: SemanticEdge)
    requires UniqueRefs(edges + [e])
    ensures UniqueRefs(edges) && forall f | f in edges :: f.ref != e.ref
  {
    var all := edges + [e];
    forall f | f in edges ensures f.ref != e.ref {
      var i :| 0 <= i < |edges| && edges[i] == f;
      assert all[i] == f && all[|edges|] == e;
    }
    assert forall i {:trigger edges[i]} | 0 <= i < |edges| :: all[i] == edges[i];
  }

  lemma NodeKeeps(edges: seq<SemanticEdge>, adjacency: map<string, seq<Hop>>, e: SemanticEdge, node: string)
    requires Adjacent(edges, adjacency)
    ensures var hops := HopsFrom(AddEdge(adjacency, e), node);
      && |hops| <= 2 * |edges + [e]|
      && (UniqueRefs(edges + [e]) ==> LoopsOnly(hops, node))
      && (forall h :: h in hops <==> Links(edges + [e], node, h))
  {
    hide UniqueRefs, AddEdge;
    var more := AddEdgeHops(adjacency, e, node);
    var before, after := HopsFrom(adjacency, node), HopsFrom(AddEdge(adjacency, e), node);
    hide HopsFrom;
    forall h ensures h in after <==> Links(edges + [e], node, h) {
      LinksMore(edges, e, node, h);
    }
    if UniqueRefs(edges + [e]) {
      UniqueInit(edges, e);
      forall h | h in before ensures h.ref != e.ref {
        var f :| f in edges && Crosses(f, node, h);
      }
      ConcatLoopsOnly(before, more, node);
    }
  }

  lemma ConcatLoopsOnly(a: seq<Hop>, b: seq<Hop>, node: string)
    requires LoopsOnly(a, node) && LoopsOnly(b, node)
    requires forall g, h | g in a && h in b :: g.ref != h.ref
    ensures LoopsOnly(a + b, node)
  {
    var all := a + b;
    forall i, j | 0 <= i < j < |all| && all[i].ref == all[j].ref ensures all[i].next == all[j].next == node {
      if j < |a| { assert all[i] == a[i] && all[j] == a[j]; }
      else if i >= |a| { assert all[i] == b[i - |a|] && all[j] == b[j - |a|]; }
    }
  }

  lemma SortedAdjacent(edges: seq<SemanticEdge>, sorted: seq<SemanticEdge>, adjacency: map<string, seq<Hop>>)
    requires sorted == SortBy(edges, EdgeLe) && Adjacent(sorted, adjacency)
    ensures Adjacent(edges, adjacency)
  {
    SortByElements(edges, EdgeLe);
    if UniqueRefs(edges) { SortByPairwise(edges, EdgeLe, EdgesApart); }
    forall node, h ensures Links(sorted, node, h) <==> Links(edges, node, h) { }
    hide Links, LoopsOnly, HopsFrom, UniqueRefs;
  }

  /** Each list of hops put in order. */
  function SortHops(adjacency: map<string, seq<Hop>>): map<string, seq<Hop>> {
    map node | node in adjacency :: SortBy(adjacency[node], HopLe)
  }

  lemma SortHopsAdjacent(edges: seq<SemanticEdge>, adjacency: map<string, seq<Hop>>)
    requires Adjacent(edges, adjacency)
    ensures Adjacent(edges, SortHops(adjacency)) && forall node :: SortedBy(HopsFrom(SortHops(adjacency), node), HopLe)
  {
    var out := SortHops(adjacency);
    forall node ensures HopsFrom(out, node) == SortBy(HopsFrom(adjacency, node), HopLe) && SortedBy(HopsFrom(out, node), HopLe) {
      HopOrderLinear();
      SortBySorted(HopsFrom(adjacency, node), HopLe);
    }
    hide SortHops, HopsFrom, Links, UniqueRefs;
    forall node ensures forall h :: h in HopsFrom(out, node) <==> h in HopsFrom(adjacency, node)
      ensures LoopsOnly(HopsFrom(adjacency, node), node) ==> LoopsOnly(HopsFrom(out, node), node)
    {
      SortByElements(HopsFrom(adjacency, node), HopLe);
      var r := (g: Hop, h: Hop) => g.ref == h.ref ==> g.next == h.next == node;
      if LoopsOnly(HopsFrom(adjacency, node), node) { SortByPairwise(HopsFrom(adjacency, node), HopLe, r); }
    }
    hide LoopsOnly;
  }

  lemma HopOrderLinear()
    ensures LinearOrder(HopLe)
  {
    forall a: Hop, b: Hop ensures HopLe(a, b) || HopLe(b, a) { StringsLeTotal([a.ref, a.next], [b.ref, b.next]); }
    forall a: Hop, b: Hop, c: Hop | HopLe(a, b) && HopLe(b, c) ensures HopLe(a, c) {
      StringsLeTransitive([a.ref, a.next], [b.ref, b.next], [c.ref, c.next]);
    }
  }

  lemma NothingAdjacent()
    ensures Adjacent([], map[])
  {
  }

  /** Collect the hops of each node, edge by edge in order of ref, then order each list. */
  method BuildAdjacency(edges: seq<SemanticEdge>) returns (adjacency: map<string, seq<Hop>>)
    ensures Adjacent(edges, adjacency)
    ensures forall node :: SortedBy(HopsFrom(adjacency, node), HopLe)
  {
    hide SortedBy, AddEdge, SortHops, HopsFrom, Links, UniqueRefs, LoopsOnly;
    var sorted := SortBy(edges, EdgeLe);
    adjacency := map[];
    NothingAdjacent();
    assert sorted[..0] == [];
    hide Adjacent;
    for i := 0 to |sorted|
      invariant Adjacent(sorted[..i], adjacency)
    {
      AddEdgeKeeps(sorted[..i], adjacency, sorted[i]);
      assert sorted[..i + 1] == sorted[..i] + [sorted[i]];
      var e := sorted[i];
      adjacency := AddEdge(adjacency, e);
    }
    assert sorted[..|sorted|] == sorted;
    SortedAdjacent(edges, sorted, adjacency);
    SortHopsAdjacent(edges, adjacency);
    adjacency := SortHops(adjacency);
  }
}
