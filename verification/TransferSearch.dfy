/** The path worklist: partial paths grow hop by hop until the queue is empty. */
module TransferSearch {
  import opened Prelude
  import opened TransferPaths

  /** A partial path: where it stands, the edges taken, the nodes passed. */
  datatype Item = Item(node: string, path: seq<string>, visited: set<string>)

  /** The question being answered. */
  datatype Query = Query(snapshot: TransferSnapshot, from: string, to: string, depth: nat, requireValidated: bool)

  predicate Usable(q: Query, item: Item, h: Hop) {
    h.next !in item.visited && (q.requireValidated ==> OpenRef(q.snapshot, h.ref) == [])
  }

  function Extended(item: Item, h: Hop): Item {
    Item(h.next, item.path + [h.ref], item.visited + {h.next})
  }

  /** The partial paths one hop further. */
  function Extensions(q: Query, item: Item, hops: seq<Hop>): (out: seq<Item>)
    ensures |out| <= |hops|
    ensures forall it | it in out :: exists h :: h in hops && Usable(q, item, h) && it == Extended(item, h)
    ensures forall h | h in hops && Usable(q, item, h) :: Extended(item, h) in out
  {
    if hops == [] then []
    else
      var last := hops[|hops| - 1];
      assert hops == hops[..|hops| - 1] + [last];
      Extensions(q, item, hops[..|hops| - 1]) + (if Usable(q, item, last) then [Extended(item, last)] else [])
  }

  // ----- Invariants ---------------------------------------------------------------------------------------

  /** The item follows this trail of nodes from the source, not yet through the target. */
  ghost predicate OnTrail(q: Query, item: Item, trail: seq<string>) {
    && Walks(q.snapshot.edges, item.path, trail)
    && trail[0] == q.from && trail[|item.path|] == item.node
    && (forall n :: n in item.visited <==> n in trail)
    && |item.path| <= q.depth
    && Allowed(q.snapshot, item.path, q.requireValidated)
    && (forall k | 0 <= k < |item.path| :: trail[k] != q.to)
  }

  ghost predicate AllOnTrail(q: Query, queue: seq<Item>, trails: seq<seq<string>>) {
    |trails| == |queue| && forall i | 0 <= i < |queue| :: OnTrail(q, queue[i], trails[i])
  }

  ghost predicate Answers(q: Query, path: TransferPath) {
    && IsPath(q.snapshot, q.from, q.to, q.depth, q.requireValidated, path.edgeRefs)
    && path.obligationsOpen == OpenPath(q.snapshot, path.edgeRefs)
  }

  function Answer(q: Query, refs: seq<string>): TransferPath {
    TransferPath(refs, OpenPath(q.snapshot, refs))
  }

  /** Some item is a prefix of this path along these nodes. */
  ghost predicate Pending(queue: seq<Item>, trails: seq<seq<string>>, refs: seq<string>, nodes: seq<string>)
    requires |trails| == |queue|
  {
    exists i | 0 <= i < |queue| :: queue[i].path <= refs && trails[i] <= nodes
  }

  /** Every path asked for has been found or is still pending. */
  ghost predicate Covered(q: Query, found: seq<TransferPath>, queue: seq<Item>, trails: seq<seq<string>>)
    requires |trails| == |queue|
  {
    forall refs, nodes | Allowed(q.snapshot, refs, q.requireValidated)
      && SimplePath(q.snapshot, q.from, q.to, q.depth, refs, nodes) ::
      Answer(q, refs) in found || Pending(queue, trails, refs, nodes)
  }

  predicate Incomparable(a: seq<string>, b: seq<string>) { !(a <= b) && !(b <= a) }

  /** The edge lists found or in work; none continues another. */
  function Frontier(found: seq<TransferPath>, queue: seq<Item>): (out: seq<seq<string>>)
    ensures |out| == |found| + |queue|
  {
    seq(|found|, i requires 0 <= i < |found| => found[i].edgeRefs) + seq(|queue|, i requires 0 <= i < |queue| => queue[i].path)
  }

  ghost predicate Invariant(q: Query, found: seq<TransferPath>, queue: seq<Item>, trails: seq<seq<string>>) {
    && AllOnTrail(q, queue, trails)
    && (forall path | path in found :: Answers(q, path))
    && Covered(q, found, queue, trails)
    && (UniqueRefs(q.snapshot.edges) ==> Pairwise(Frontier(found, queue), Incomparable))
  }

  lemma StartInvariant(q: Query)
    ensures Invariant(q, [], [Item(q.from, [], {q.from})], [[q.from]])
  {
    var queue, trails := [Item(q.from, [], {q.from})], [[q.from]];
    forall refs, nodes | SimplePath(q.snapshot, q.from, q.to, q.depth, refs, nodes)
      ensures Pending(queue, trails, refs, nodes)
    {
      assert queue[0].path <= refs && trails[0] <= nodes;
    }
  }

  // ----- The item at the target is an answer ----------------------------------------------------------------

  /** A path through a node that is already the target ends there. */
  lemma TargetEnds(q: Query, item: Item, trail: seq<string>, refs: seq<string>, nodes: seq<string>)
    requires OnTrail(q, item, trail) && item.node == q.to
    requires SimplePath(q.snapshot, q.from, q.to, q.depth, refs, nodes)
    requires item.path <= refs && trail <= nodes
    ensures refs == item.path
  {
    assert nodes[|item.path|] == trail[|item.path|] == q.to;
    assert nodes[|refs|] == q.to;
  }

  lemma TargetFound(q: Query, found: seq<TransferPath>, queue: seq<Item>, trails: seq<seq<string>>)
    requires queue != [] && Invariant(q, found, queue, trails) && queue[0].node == q.to
    ensures Invariant(q, found + [Answer(q, queue[0].path)], queue[1..], trails[1..])
  {
    var item, more := queue[0], found + [Answer(q, queue[0].path)];
    assert SimplePath(q.snapshot, q.from, q.to, q.depth, item.path, trails[0]);
    assert Frontier(more, queue[1..]) == Frontier(found, queue);
    hide Frontier, UniqueRefs, Allowed, OpenPath;
    forall refs, nodes | Allowed(q.snapshot, refs, q.requireValidated)
      && SimplePath(q.snapshot, q.from, q.to, q.depth, refs, nodes)
      ensures Answer(q, refs) in more || Pending(queue[1..], trails[1..], refs, nodes)
    {
      TargetCovers(q, found, queue, trails, refs, nodes);
    }
    hide SimplePath, IsPath, OnTrail, Pending;
    assert forall i {:trigger queue[1..][i]} | 0 <= i < |queue| - 1 :: queue[1..][i] == queue[i + 1] && trails[1..][i] == trails[i + 1];
  }

  lemma TargetCovers(q: Query, found: seq<TransferPath>, queue: seq<Item>, trails: seq<seq<string>>, refs: seq<string>, nodes: seq<string>)
    requires queue != [] && AllOnTrail(q, queue, trails) && queue[0].node == q.to
    requires SimplePath(q.snapshot, q.from, q.to, q.depth, refs, nodes)
    requires Answer(q, refs) in found || Pending(queue, trails, refs, nodes)
    ensures Answer(q, refs) in found + [Answer(q, queue[0].path)] || Pending(queue[1..], trails[1..], refs, nodes)
  {
    hide OpenPath;
    if Answer(q, refs) !in found {
      var i :| 0 <= i < |queue| && queue[i].path <= refs && trails[i] <= nodes;
      if i == 0 { TargetEnds(q, queue[0], trails[0], refs, nodes); }
      else { assert queue[1..][i - 1] == queue[i] && trails[1..][i - 1] == trails[i]; }
    }
  }

  // ----- An exhausted item leads nowhere --------------------------------------------------------------------

  lemma DeadEnd(q: Query, found: seq<TransferPath>, queue: seq<Item>, trails: seq<seq<string>>)
    requires queue != [] && Invariant(q, found, queue, trails)
    requires queue[0].node != q.to && |queue[0].path| >= q.depth
    ensures Invariant(q, found, queue[1..], trails[1..])
  {
    hide UniqueRefs, Allowed, OpenPath, Answers;
    forall refs, nodes | Allowed(q.snapshot, refs, q.requireValidated)
      && SimplePath(q.snapshot, q.from, q.to, q.depth, refs, nodes)
      ensures Answer(q, refs) in found || Pending(queue[1..], trails[1..], refs, nodes)
    {
      if Answer(q, refs) !in found {
        var i :| 0 <= i < |queue| && queue[i].path <= refs && trails[i] <= nodes;
        if i > 0 { assert queue[1..][i - 1] == queue[i] && trails[1..][i - 1] == trails[i]; }
      }
    }
    hide SimplePath, OnTrail, Pending;
    FrontierDrop(found, queue);
    assert forall i {:trigger queue[1..][i]} | 0 <= i < |queue| - 1 :: queue[1..][i] == queue[i + 1] && trails[1..][i] == trails[i + 1];
  }

  lemma FrontierDrop(found: seq<TransferPath>, queue: seq<Item>)
    requires queue != []
    ensures Pairwise(Frontier(found, queue), Incomparable) ==> Pairwise(Frontier(found, queue[1..]), Incomparable)
  {
    var a, b := Frontier(found, queue), Frontier(found, queue[1..]);
    assert forall i {:trigger b[i]} | 0 <= i < |b| :: b[i] == if i < |found| then a[i] else a[i + 1];
    hide Incomparable;
  }

  // ----- An item grows by every usable hop ------------------------------------------------------------------

  lemma ExtendedOnTrail(q: Query, item: Item, trail: seq<string>, h: Hop)
    requires OnTrail(q, item, trail) && item.node != q.to && |item.path| < q.depth
    requires Links(q.snapshot.edges, item.node, h) && Usable(q, item, h)
    ensures OnTrail(q, Extended(item, h), trail + [h.next])
  {
    hide Links, OpenRef;
    var refs, nodes := item.path + [h.ref], trail + [h.next];
    forall k | 0 <= k < |refs| ensures Links(q.snapshot.edges, nodes[k], Hop(refs[k], nodes[k + 1])) {
      if k < |item.path| { assert refs[k] == item.path[k] && nodes[k + 1] == trail[k + 1]; }
    }
    forall k | 0 <= k < |refs| && q.requireValidated ensures OpenRef(q.snapshot, refs[k]) == [] {
      if k < |item.path| { assert refs[k] == item.path[k]; }
    }
  }

  function NewTrails(trail: seq<string>, items: seq<Item>): (out: seq<seq<string>>)
    ensures |out| == |items|
  {
    seq(|items|, i requires 0 <= i < |items| => trail + [items[i].node])
  }

  /** A path asked for that continues this item continues one of its extensions. */
  lemma ExtensionPending(q: Query, item: Item, trail: seq<string>, hops: seq<Hop>, refs: seq<string>, nodes: seq<string>)
    requires OnTrail(q, item, trail) && item.node != q.to
    requires forall h :: h in hops <==> Links(q.snapshot.edges, item.node, h)
    requires Allowed(q.snapshot, refs, q.requireValidated)
    requires SimplePath(q.snapshot, q.from, q.to, q.depth, refs, nodes)
    requires item.path <= refs && trail <= nodes
    ensures var more := Extensions(q, item, hops); Pending(more, NewTrails(trail, more), refs, nodes)
  {
    hide Links, OpenRef, Extensions;
    var n := |item.path|;
    assert nodes[n] == trail[n];
    assert |refs| > n;
    var h := Hop(refs[n], nodes[n + 1]);
    assert h in hops;
    assert forall k | 0 <= k < |trail| :: trail[k] == nodes[k] != nodes[n + 1];
    assert Usable(q, item, h);
    var more := Extensions(q, item, hops);
    var i :| 0 <= i < |more| && more[i] == Extended(item, h);
    assert more[i].path == refs[..n + 1] && NewTrails(trail, more)[i] == nodes[..n + 2];
  }

  ghost predicate DistinctPaths(items: seq<Item>) {
    forall i, j | 0 <= i < j < |items| :: items[i].path != items[j].path
  }

  lemma {:induction false} ExtensionsApart(q: Query, item: Item, hops: seq<Hop>)
    requires LoopsOnly(hops, item.node) && item.node in item.visited
    ensures DistinctPaths(Extensions(q, item, hops))
  {
    if hops != [] {
      var init, last := hops[..|hops| - 1], hops[|hops| - 1];
      ExtensionsApart(q, item, init);
      var rest := Extensions(q, item, init);
      forall i | 0 <= i < |rest| && Usable(q, item, last) ensures rest[i].path != Extended(item, last).path {
        assert rest[i] in rest;
        var g :| g in init && Usable(q, item, g) && rest[i] == Extended(item, g);
        var k :| 0 <= k < |init| && init[k] == g;
        assert hops[k] == g && hops[|hops| - 1] == last;
        assert rest[i].path[|item.path|] == g.ref && Extended(item, last).path[|item.path|] == last.ref;
        assert g.next != item.node && g.ref != last.ref;
      }
      var out := Extensions(q, item, hops);
      assert out == rest + (if Usable(q, item, last) then [Extended(item, last)] else []);
      assert DistinctPaths(rest);
      hide Extensions, LoopsOnly, Usable, Extended;
      forall i, j | 0 <= i < j < |out| ensures out[i].path != out[j].path {
        assert out[i] == rest[i];
        if j < |rest| { assert out[j] == rest[j]; } else { assert out[j] == Extended(item, last); }
      }
    }
  }

  lemma Continuations(path: seq<string>, a: seq<string>, r: string)
    requires Incomparable(path, a)
    ensures Incomparable(path + [r], a) && Incomparable(a, path + [r])
  {
    var longer := path + [r];
    assert longer[..|path|] == path;
    assert a <= longer ==> (if |a| <= |path| then a <= path else a == longer);
  }

  lemma SiblingsApart(path: seq<string>, r: string, s: string)
    requires r != s
    ensures Incomparable(path + [r], path + [s])
  {
    assert (path + [r])[|path|] == r && (path + [s])[|path|] == s;
  }

  /** Replacing the first item by distinct one-hop continuations keeps the frontier apart. */
  lemma FrontierExtend(found: seq<TransferPath>, queue: seq<Item>, more: seq<Item>)
    requires queue != [] && Pairwise(Frontier(found, queue), Incomparable)
    requires forall i | 0 <= i < |more| :: |more[i].path| == |queue[0].path| + 1 && more[i].path[..|queue[0].path|] == queue[0].path
    requires DistinctPaths(more)
    ensures Pairwise(Frontier(found, queue[1..] + more), Incomparable)
  {
    hide Incomparable;
    FrontierDrop(found, queue);
    var path := queue[0].path;
    var a, b, c := Frontier(found, queue), Frontier(found, queue[1..]), Frontier(found, queue[1..] + more);
    var n := |b|;
    assert forall i {:trigger c[i]} | 0 <= i < |c| :: c[i] == if i < n then b[i] else more[i - n].path;
    forall i, j | 0 <= i < j < |c| ensures Incomparable(c[i], c[j]) {
      if j >= n {
        var x := more[j - n].path;
        assert x == path + [x[|path|]];
        if i < n {
          assert b[i] == if i < |found| then a[i] else a[i + 1];
          assert a[|found|] == path;
          FirstApart(a, |found|, if i < |found| then i else i + 1);
          Continuations(path, b[i], x[|path|]);
        } else {
          var y := more[i - n].path;
          assert y == path + [y[|path|]];
          SiblingsApart(path, y[|path|], x[|path|]);
        }
      }
    }
  }

  lemma FirstApart(a: seq<seq<string>>, i: nat, j: nat)
    requires Pairwise(a, Incomparable) && i < |a| && j < |a| && i != j
    ensures Incomparable(a[i], a[j])
  {
    if j < i { assert Incomparable(a[j], a[i]); }
  }

  lemma Extends(q: Query, found: seq<TransferPath>, queue: seq<Item>, trails: seq<seq<string>>, hops: seq<Hop>)
    requires queue != [] && Invariant(q, found, queue, trails)
    requires queue[0].node != q.to && |queue[0].path| < q.depth
    requires forall h :: h in hops <==> Links(q.snapshot.edges, queue[0].node, h)
    requires UniqueRefs(q.snapshot.edges) ==> LoopsOnly(hops, queue[0].node)
    ensures var more := Extensions(q, queue[0], hops);
      Invariant(q, found, queue[1..] + more, trails[1..] + NewTrails(trails[0], more))
  {
    hide Links, OpenRef, UniqueRefs, Allowed, OpenPath, Answers, LoopsOnly, Extensions, SimplePath, OnTrail, Frontier;
    var item, more := queue[0], Extensions(q, queue[0], hops);
    var next, ahead := queue[1..] + more, trails[1..] + NewTrails(trails[0], more);
    assert OnTrail(q, item, trails[0]);
    forall i | 0 <= i < |next| ensures OnTrail(q, next[i], ahead[i]) {
      if i < |queue| - 1 {
        assert next[i] == queue[i + 1] && ahead[i] == trails[i + 1];
      } else {
        var k := i - (|queue| - 1);
        assert next[i] == more[k] && more[k] in more;
        var h :| h in hops && Usable(q, item, h) && more[k] == Extended(item, h);
        ExtendedOnTrail(q, item, trails[0], h);
      }
    }
    forall refs, nodes | Allowed(q.snapshot, refs, q.requireValidated)
      && SimplePath(q.snapshot, q.from, q.to, q.depth, refs, nodes)
      ensures Answer(q, refs) in found || Pending(next, ahead, refs, nodes)
    {
      if Answer(q, refs) !in found { StillPending(q, queue, trails, hops, refs, nodes); }
    }
    if UniqueRefs(q.snapshot.edges) {
      OnTrailStands(q, item, trails[0]);
      ExtensionsApart(q, item, hops);
      ExtensionsOneLonger(q, item, hops);
      FrontierExtend(found, queue, more);
    }
    hide Pending, Pairwise;
  }

  lemma OnTrailStands(q: Query, item: Item, trail: seq<string>)
    requires OnTrail(q, item, trail)
    ensures item.node in item.visited
  {
  }

  lemma ExtensionsOneLonger(q: Query, item: Item, hops: seq<Hop>)
    ensures forall i | 0 <= i < |Extensions(q, item, hops)| ::
      && |Extensions(q, item, hops)[i].path| == |item.path| + 1
      && Extensions(q, item, hops)[i].path[..|item.path|] == item.path
  {
    var more := Extensions(q, item, hops);
    hide Extensions;
    forall i | 0 <= i < |more| ensures |more[i].path| == |item.path| + 1 && more[i].path[..|item.path|] == item.path {
      assert more[i] in more;
      var h :| h in hops && Usable(q, item, h) && more[i] == Extended(item, h);
    }
  }

  lemma StillPending(q: Query, queue: seq<Item>, trails: seq<seq<string>>, hops: seq<Hop>, refs: seq<string>, nodes: seq<string>)
    requires queue != [] && AllOnTrail(q, queue, trails) && queue[0].node != q.to
    requires forall h :: h in hops <==> Links(q.snapshot.edges, queue[0].node, h)
    requires Allowed(q.snapshot, refs, q.requireValidated)
    requires SimplePath(q.snapshot, q.from, q.to, q.depth, refs, nodes) && Pending(queue, trails, refs, nodes)
    ensures var more := Extensions(q, queue[0], hops);
      Pending(queue[1..] + more, trails[1..] + NewTrails(trails[0], more), refs, nodes)
  {
    hide Links, OpenRef, Allowed, Extensions, SimplePath, OnTrail;
    var more := Extensions(q, queue[0], hops);
    var next, ahead := queue[1..] + more, trails[1..] + NewTrails(trails[0], more);
    var i :| 0 <= i < |queue| && queue[i].path <= refs && trails[i] <= nodes;
    if i > 0 {
      assert next[i - 1] == queue[i] && ahead[i - 1] == trails[i];
    } else {
      ExtensionPending(q, queue[0], trails[0], hops, refs, nodes);
      var k :| 0 <= k < |more| && more[k].path <= refs && NewTrails(trails[0], more)[k] <= nodes;
      assert next[|queue| - 1 + k] == more[k] && ahead[|queue| - 1 + k] == NewTrails(trails[0], more)[k];
    }
  }

  // ----- Termination ----------------------------------------------------------------------------------------

  function Power(b: nat, n: nat): nat { if n == 0 then 1 else b * Power(b, n - 1) }

  /** An item outweighs all its extensions together: it may have fewer than b of them. */
  function Weight(queue: seq<Item>, b: nat, depth: nat): nat {
    if queue == [] then 0
    else (if |queue[0].path| <= depth then Power(b, depth - |queue[0].path| + 1) else 0) + Weight(queue[1..], b, depth)
  }

  lemma {:induction false} WeightConcat(xs: seq<Item>, ys: seq<Item>, b: nat, depth: nat)
    ensures Weight(xs + ys, b, depth) == Weight(xs, b, depth) + Weight(ys, b, depth)
  {
    if xs == [] {
      assert xs + ys == ys;
    } else {
      assert (xs + ys)[1..] == xs[1..] + ys;
      WeightConcat(xs[1..], ys, b, depth);
    }
  }

  lemma {:induction false} WeightLevel(xs: seq<Item>, b: nat, depth: nat, length: nat)
    requires length <= depth && forall i | 0 <= i < |xs| :: |xs[i].path| == length
    ensures Weight(xs, b, depth) == |xs| * Power(b, depth - length + 1)
  {
    if xs != [] { WeightLevel(xs[1..], b, depth, length); }
  }

  lemma PowerPositive(b: nat, n: nat)
    requires b > 0
    ensures Power(b, n) > 0
  {
    if n > 0 { PowerPositive(b, n - 1); }
  }

  lemma WeightDrops(q: Query, queue: seq<Item>, hops: seq<Hop>, b: nat)
    requires queue != [] && |queue[0].path| < q.depth && |hops| < b
    ensures Weight(queue[1..] + Extensions(q, queue[0], hops), b, q.depth) < Weight(queue, b, q.depth)
  {
    var more, n := Extensions(q, queue[0], hops), q.depth - |queue[0].path|;
    ExtensionsOneLonger(q, queue[0], hops);
    WeightConcat(queue[1..], more, b, q.depth);
    WeightLevel(more, b, q.depth, |queue[0].path| + 1);
    PowerPositive(b, n);
    hide Extensions;
    Scaled(|more|, b, Power(b, n));
  }

  lemma Scaled(m: nat, b: nat, unit: nat)
    requires m < b && unit > 0
    ensures m * unit < b * unit
  {
  }

  // ----- The search -----------------------------------------------------------------------------------------

  lemma LookupLinked(edges: seq<SemanticEdge>, refs: seq<string>, nodes: seq<string>)
    requires Walks(edges, refs, nodes)
    ensures forall k | 0 <= k < |refs| :: EdgeByRef(edges, refs[k]).Some?
  {
    hide EdgeByRef;
    forall k | 0 <= k < |refs| ensures EdgeByRef(edges, refs[k]).Some? {
      assert Links(edges, nodes[k], Hop(refs[k], nodes[k + 1]));
      var e :| e in edges && Crosses(e, nodes[k], Hop(refs[k], nodes[k + 1]));
    }
  }

  /** Append every usable continuation of an item to the queue. */
  method Expand(q: Query, item: Item, hops: seq<Hop>, rest: seq<Item>) returns (queue: seq<Item>)
    requires forall h | h in hops :: EdgeByRef(q.snapshot.edges, h.ref).Some?
    ensures queue == rest + Extensions(q, item, hops)
  {
    hide OpenEdge, EdgeByRef;
    queue := rest;
    for j := 0 to |hops|
      invariant queue == rest + Extensions(q, item, hops[..j])
    {
      var h := hops[j];
      assert h in hops && hops[..j + 1][..j] == hops[..j];
      if h.next in item.visited { continue; }
      var open := OpenEdgeObligations(EdgeByRef(q.snapshot.edges, h.ref).value, q.snapshot.evidence);
      if q.requireValidated && open != [] { continue; }
      queue := queue + [Item(h.next, item.path + [h.ref], item.visited + {h.next})];
    }
    assert hops[..|hops|] == hops;
  }

  lemma Finished(q: Query, found: seq<TransferPath>, trails: seq<seq<string>>)
    requires Invariant(q, found, [], trails)
    ensures ExactPaths(q.snapshot, q.from, q.to, q.depth, q.requireValidated, SortBy(found, PathLe))
  {
    hide OpenPath, Allowed, SimplePath, Walks;
    var out := SortBy(found, PathLe);
    SortByElements(found, PathLe);
    forall path ensures path in out <==> Answers(q, path) {
      if Answers(q, path) {
        var nodes :| SimplePath(q.snapshot, q.from, q.to, q.depth, path.edgeRefs, nodes);
        assert Answer(q, path.edgeRefs) == path;
        assert !Pending([], trails, path.edgeRefs, nodes);
      }
    }
    PathOrderLinear();
    SortBySorted(found, PathLe);
    if UniqueRefs(q.snapshot.edges) {
      var frontier := Frontier(found, []);
      forall i, j | 0 <= i < j < |found| ensures PathsApart(found[i], found[j]) {
        assert Incomparable(frontier[i], frontier[j]);
      }
      SortByPairwise(found, PathLe, PathsApart);
    }
    hide Invariant, IsPath, UniqueRefs, SortedBy, Pairwise;
  }

  lemma PathOrderLinear()
    ensures LinearOrder(PathLe)
  {
    forall a: TransferPath, b: TransferPath ensures PathLe(a, b) || PathLe(b, a) { StringsLeTotal(a.edgeRefs, b.edgeRefs); }
    forall a: TransferPath, b: TransferPath, c: TransferPath | PathLe(a, b) && PathLe(b, c) ensures PathLe(a, c) {
      StringsLeTransitive(a.edgeRefs, b.edgeRefs, c.edgeRefs);
    }
  }

  /** All bounded simple paths from one ref to another; None for a depth out of bounds. */
  method FindTransferPaths(s: TransferSnapshot, from: string, to: string, maxDepth: int, requireValidated: bool)
    returns (out: Option<seq<TransferPath>>)
    ensures out.Some? <==> 1 <= maxDepth <= 12
    ensures out.Some? ==> ExactPaths(s, from, to, maxDepth, requireValidated, out.value)
  {
    if !(1 <= maxDepth <= 12) { return None; }
    var q := Query(s, from, to, maxDepth, requireValidated);
    var b := 2 * |s.edges| + 1;
    var adjacency := BuildAdjacency(s.edges);
    hide ExactPaths, Weight, Extensions, OpenPath, Frontier, UniqueRefs, LoopsOnly, Links, Covered, Answers, HopsFrom, EdgeByRef;
    StartInvariant(q);
    hide Invariant;
    var found: seq<TransferPath> := [];
    var queue := [Item(from, [], {from})];
    ghost var trails := [[from]];
    while queue != []
      invariant Invariant(q, found, queue, trails)
      decreases Weight(queue, b, q.depth)
    {
      var item, rest := queue[0], queue[1..];
      assert queue == [item] + rest;
      ItemFacts(q, found, queue, trails);
      PopLighter(queue, b, q.depth);
      if item.node == to {
        var open := OpenPathObligations(s, item.path);
        TargetFound(q, found, queue, trails);
        found, queue, trails := found + [TransferPath(item.path, open)], rest, trails[1..];
        continue;
      }
      if |item.path| >= maxDepth {
        DeadEnd(q, found, queue, trails);
        queue, trails := rest, trails[1..];
        continue;
      }
      var hops := HopsFrom(adjacency, item.node);
      HopsKnown(s.edges, adjacency, item.node);
      Extends(q, found, queue, trails, hops);
      WeightDrops(q, queue, hops, b);
      queue := Expand(q, item, hops, rest);
      trails := trails[1..] + NewTrails(trails[0], Extensions(q, item, hops));
    }
    Finished(q, found, trails);
    out := Some(SortBy(found, PathLe));
  }

  lemma ItemFacts(q: Query, found: seq<TransferPath>, queue: seq<Item>, trails: seq<seq<string>>)
    requires queue != [] && Invariant(q, found, queue, trails)
    ensures |trails| == |queue| && |queue[0].path| <= q.depth
    ensures forall k | 0 <= k < |queue[0].path| :: EdgeByRef(q.snapshot.edges, queue[0].path[k]).Some?
  {
    hide Covered, Answers, Frontier, EdgeByRef;
    assert OnTrail(q, queue[0], trails[0]);
    LookupLinked(q.snapshot.edges, queue[0].path, trails[0]);
  }

  lemma PopLighter(queue: seq<Item>, b: nat, depth: nat)
    requires queue != [] && b > 0 && |queue[0].path| <= depth
    ensures Weight(queue[1..], b, depth) < Weight(queue, b, depth)
  {
    PowerPositive(b, depth - |queue[0].path| + 1);
  }

  lemma HopsKnown(edges: seq<SemanticEdge>, adjacency: map<string, seq<Hop>>, node: string)
    requires Adjacent(edges, adjacency)
    ensures |HopsFrom(adjacency, node)| <= 2 * |edges|
    ensures UniqueRefs(edges) ==> LoopsOnly(HopsFrom(adjacency, node), node)
    ensures forall h :: h in HopsFrom(adjacency, node) <==> Links(edges, node, h)
    ensures forall h | h in HopsFrom(adjacency, node) :: EdgeByRef(edges, h.ref).Some?
  {
    hide EdgeByRef, HopsFrom, UniqueRefs, LoopsOnly;
    forall h | Links(edges, node, h) ensures EdgeByRef(edges, h.ref).Some? {
      var e :| e in edges && Crosses(e, node, h);
    }
  }

  // ----- Validation is a filter -----------------------------------------------------------------------------

  function Validated(paths: seq<TransferPath>): seq<TransferPath> {
    if paths == [] then []
    else (if paths[0].obligationsOpen == [] then [paths[0]] else []) + Validated(paths[1..])
  }

  lemma {:induction false} ValidatedFacts(paths: seq<TransferPath>)
    requires SortedBy(paths, PathLe) && Pairwise(paths, PathsApart)
    ensures forall path :: path in Validated(paths) <==> path in paths && path.obligationsOpen == []
    ensures SortedBy(Validated(paths), PathLe) && Pairwise(Validated(paths), PathsApart)
  {
    if paths != [] {
      var rest := Validated(paths[1..]);
      ValidatedFacts(paths[1..]);
      forall j | 0 <= j < |rest| ensures PathLe(paths[0], rest[j]) && PathsApart(paths[0], rest[j]) {
        assert rest[j] in paths[1..];
        var k :| 0 <= k < |paths| - 1 && paths[1..][k] == rest[j];
        assert PathLe(paths[0], paths[k + 1]) && PathsApart(paths[0], paths[k + 1]);
      }
      hide PathLe, PathsApart;
    }
  }

  /** Requiring validation returns exactly the paths of the unrestricted search that have
      nothing open, in the same order. */
  lemma ValidatedIsFilter(s: TransferSnapshot, from: string, to: string, depth: nat, all: seq<TransferPath>, validated: seq<TransferPath>)
    requires UniqueRefs(s.edges)
    requires ExactPaths(s, from, to, depth, false, all) && ExactPaths(s, from, to, depth, true, validated)
    ensures validated == Validated(all)
  {
    ValidatedFacts(all);
    hide UniqueRefs, SimplePath, Validated, OpenPath;
    forall path ensures path in validated <==> path in Validated(all) {
      OpenPathEmpty(s, path.edgeRefs);
    }
    forall a, b | PathLe(a, b) && PathLe(b, a) && (a in validated || a in Validated(all)) && (b in validated || b in Validated(all))
      ensures a == b
    {
      StringsLeTotal(a.edgeRefs, b.edgeRefs);
    }
    hide IsPath, PathLe;
    SortedDetermined(validated, Validated(all), PathLe);
  }
}
