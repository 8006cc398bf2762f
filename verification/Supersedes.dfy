/** Cycle detection on the supersedes graph: a depth-first search that finds a cycle exactly
    when there is one. */
module Supersedes {
  import opened Prelude

  type Graph = map<string, seq<string>>

  /** A logged object as the graph builder sees it; a missing reference is None. */
  datatype LoggedObject = LoggedObject(schema: string, edgeType: string, fromRef: Option<string>, toRef: Option<string>)

  predicate IsRef(r: Option<string>) { r.Some? && IsRefText(r.value) }

  /** A well-formed supersedes edge between two references. */
  predicate Supersedes(o: LoggedObject, a: string, b: string) {
    && o.schema == EDGE_SCHEMA && o.edgeType == "supersedes"
    && IsRef(o.fromRef) && IsRef(o.toRef)
    && o.fromRef == Some(a) && o.toRef == Some(b)
  }

  predicate Edge(g: Graph, a: string, b: string) { a in g && b in g[a] }

  function AddSuccessor(g: Graph, a: string, b: string): (out: Graph)
    ensures forall x, y :: Edge(out, x, y) <==> Edge(g, x, y) || (x == a && y == b)
  {
    g[a := (if a in g then g[a] else []) + [b]]
  }

  method SupersedesGraph(objects: seq<LoggedObject>) returns (g: Graph)
    ensures forall a, b :: Edge(g, a, b) <==> exists i | 0 <= i < |objects| :: Supersedes(objects[i], a, b)
  {
    g := map[];
    for i := 0 to |objects|
      invariant forall a, b :: Edge(g, a, b) <==> exists j | 0 <= j < i :: Supersedes(objects[j], a, b)
    {
      hide IsRefText;
      var o := objects[i];
      if o.schema != EDGE_SCHEMA || o.edgeType != "supersedes" { continue; }
      if IsRef(o.fromRef) && IsRef(o.toRef) {
        var a, b := o.fromRef.value, o.toRef.value;
        assert Supersedes(objects[i], a, b);
        g := AddSuccessor(g, a, b);
      }
    }
  }

  // ----- Walks and cycles ---------------------------------------------------------------------------------

  ghost predicate Walk(g: Graph, w: seq<string>) {
    forall k | 0 <= k < |w| - 1 :: Edge(g, w[k], w[k + 1])
  }

  /** A walk along edges that returns to where it started. */
  ghost predicate ClosedWalk(g: Graph, w: seq<string>) {
    |w| >= 2 && Walk(g, w) && w[0] == w[|w| - 1]
  }

  /** A closed walk that repeats no node but its end. */
  ghost predicate Cycle(g: Graph, w: seq<string>) {
    ClosedWalk(g, w) && Distinct(w[..|w| - 1])
  }

  function IndexOf(xs: seq<string>, x: string): (j: nat)
    requires x in xs
    ensures j < |xs| && xs[j] == x
  {
    if xs[0] == x then 0 else 1 + IndexOf(xs[1..], x)
  }

  function ExtractCycle(stack: seq<string>, target: string): seq<string> {
    if target in stack then stack[IndexOf(stack, target)..] + [target] else [target, target]
  }

  function Successors(g: Graph, node: string): seq<string> {
    if node in g then g[node] else []
  }

  function Nodes(g: Graph): (out: set<string>)
    ensures forall a, b | Edge(g, a, b) :: a in out && b in out
    ensures g.Keys <= out
  {
    g.Keys + set a, k | a in g && 0 <= k < |g[a]| :: g[a][k]
  }

  /** Every edge out of a finished node leads to a node finished before it. */
  ghost predicate FinishOrder(g: Graph, done: seq<string>) {
    forall i, b | 0 <= i < |done| && Edge(g, done[i], b) :: b in done[..i]
  }

  /** Along a walk through finished nodes the finishing position falls, so none closes. */
  lemma {:induction false} WalkDescends(g: Graph, done: seq<string>, w: seq<string>, i: nat)
    requires FinishOrder(g, done) && Distinct(done) && Walk(g, w) && |w| >= 1
    requires i < |done| && done[i] == w[0]
    ensures exists j :: 0 <= j <= i && done[j] == w[|w| - 1] && (|w| > 1 ==> j < i)
    decreases |w|
  {
    if |w| > 1 {
      assert Edge(g, w[0], w[1]);
      assert w[1] in done[..i];
      var k :| 0 <= k < i && done[k] == w[1];
      assert Walk(g, w[1..]) by {
        forall m | 0 <= m < |w[1..]| - 1 ensures Edge(g, w[1..][m], w[1..][m + 1]) { assert Edge(g, w[m + 1], w[m + 2]); }
      }
      WalkDescends(g, done, w[1..], k);
    }
  }

  lemma FinishedIsAcyclic(g: Graph, done: seq<string>, w: seq<string>)
    requires FinishOrder(g, done) && Distinct(done) && forall a | a in g :: a in done
    ensures !ClosedWalk(g, w)
  {
    if ClosedWalk(g, w) {
      assert Edge(g, w[0], w[1]);
      var i :| 0 <= i < |done| && done[i] == w[0];
      WalkDescends(g, done, w, i);
      assert false;
    }
  }

  // ----- The search ---------------------------------------------------------------------------------------

  /** The branch is a simple walk; every node seen is on it or finished, never both; and
      finished nodes lead only to nodes finished before them. */
  ghost predicate Consistent(g: Graph, visited: set<string>, onStack: set<string>, stack: seq<string>, done: seq<string>) {
    && Distinct(stack + done)
    && Walk(g, stack)
    && (forall n :: n in onStack <==> n in stack)
    && (forall n :: n in visited <==> n in stack || n in done)
    && visited <= Nodes(g)
    && FinishOrder(g, done)
  }

  /** The state the recursive search shares: nodes seen, nodes on the current branch, and
      the branch itself. `done` records the order in which nodes were left. */
  class Search {
    const graph: Graph
    var visited: set<string>
    var onStack: set<string>
    var stack: seq<string>
    ghost var done: seq<string>

    constructor (g: Graph)
      ensures graph == g && Valid() && stack == [] && visited == {} && done == []
    {
      graph := g;
      visited, onStack, stack, done := {}, {}, [], [];
    }

    ghost predicate Valid()
      reads this
    {
      Consistent(graph, visited, onStack, stack, done)
    }

    /** Explore from an unseen node below the current branch. */
    method Dfs(node: string) returns (cycle: Option<seq<string>>)
      requires Valid() && node !in visited && node in Nodes(graph)
      requires stack != [] ==> Edge(graph, stack[|stack| - 1], node)
      modifies this
      ensures cycle.Some? ==> Cycle(graph, cycle.value)
      ensures cycle.None? ==> Valid() && stack == old(stack) && old(done) <= done && node in done
      ensures cycle.None? ==> old(visited) <= visited
      decreases Nodes(graph) - visited
    {
      hide Nodes, Consistent, Cycle, ExtractCycle, Successors;
      Enter(graph, visited, onStack, stack, done, node);
      visited := visited + {node};
      onStack := onStack + {node};
      stack := stack + [node];
      var next := Successors(graph, node);
      SuccessorEdges(graph, node);
      for k := 0 to |next|
        invariant Valid() && stack == old(stack) + [node] && old(done) <= done
        invariant old(visited) + {node} <= visited
        invariant forall j | 0 <= j < k :: next[j] in done
      {
        SeenOrDone(graph, visited, onStack, stack, done, next[k]);
        if next[k] in onStack {
          CycleFound(graph, visited, onStack, stack, done, next[k]);
          return Some(ExtractCycle(stack, next[k]));
        }
        if next[k] !in visited {
          var found := Dfs(next[k]);
          if found.Some? { return found; }
        }
      }
      Leave(graph, visited, onStack, old(stack), done, node);
      stack := stack[..|stack| - 1];
      onStack := onStack - {node};
      done := done + [node];
      assert stack == old(stack);
      return None;
    }
  }

  lemma SuccessorEdges(g: Graph, node: string)
    ensures forall b :: b in Successors(g, node) <==> Edge(g, node, b)
    ensures forall b | b in Successors(g, node) :: b in Nodes(g)
  {
    forall b | b in Successors(g, node) ensures b in Nodes(g) { assert Edge(g, node, b); }
  }

  lemma SeenOrDone(g: Graph, visited: set<string>, onStack: set<string>, stack: seq<string>, done: seq<string>, node: string)
    requires Consistent(g, visited, onStack, stack, done)
    ensures node in visited && node !in onStack ==> node in done
    ensures visited <= Nodes(g)
  {
    hide Nodes, FinishOrder, Walk, Distinct;
  }

  lemma Enter(g: Graph, visited: set<string>, onStack: set<string>, stack: seq<string>, done: seq<string>, node: string)
    requires Consistent(g, visited, onStack, stack, done) && node !in visited && node in Nodes(g)
    requires stack != [] ==> Edge(g, stack[|stack| - 1], node)
    ensures Consistent(g, visited + {node}, onStack + {node}, stack + [node], done)
    ensures visited <= Nodes(g)
  {
    hide Nodes, FinishOrder;
    var before, after := stack + done, stack + [node] + done;
    assert forall i {:trigger after[i]} | 0 <= i < |after| ::
      after[i] == if i < |stack| then before[i] else if i == |stack| then node else before[i - 1];
    assert node !in stack && node !in done;
    forall i, j | 0 <= i < j < |after| ensures after[i] != after[j] { }
  }

  lemma Leave(g: Graph, visited: set<string>, onStack: set<string>, stack: seq<string>, done: seq<string>, node: string)
    requires Consistent(g, visited, onStack, stack + [node], done)
    requires forall b | Edge(g, node, b) :: b in done
    ensures Consistent(g, visited, onStack - {node}, stack, done + [node])
  {
    hide Nodes, Edge;
    var before, after := stack + [node] + done, stack + (done + [node]);
    assert forall i {:trigger after[i]} | 0 <= i < |after| ::
      after[i] == if i < |stack| then before[i] else if i == |after| - 1 then before[|stack|] else before[i + 1];
    forall i, j | 0 <= i < j < |after| ensures after[i] != after[j] { }
    assert node !in stack by {
      assert before[|stack|] == node;
      assert forall i | 0 <= i < |stack| :: before[i] == stack[i];
    }
    forall i, b | 0 <= i < |done| + 1 && Edge(g, (done + [node])[i], b) ensures b in (done + [node])[..i] {
      assert (done + [node])[..i] == done[..i];
    }
    forall k | 0 <= k < |stack| - 1 ensures Edge(g, stack[k], stack[k + 1]) {
      assert Edge(g, (stack + [node])[k], (stack + [node])[k + 1]);
    }
  }

  lemma DistinctMiddle(stack: seq<string>, done: seq<string>, j: nat)
    requires Distinct(stack + done) && j <= |stack|
    ensures Distinct(stack[j..])
  {
    var all := stack + done;
    assert forall i {:trigger stack[i]} | 0 <= i < |stack| :: all[i] == stack[i];
  }

  /** A node on the branch, reached again from its end, closes a cycle. */
  lemma CycleFound(g: Graph, visited: set<string>, onStack: set<string>, stack: seq<string>, done: seq<string>, target: string)
    requires Consistent(g, visited, onStack, stack, done) && stack != [] && target in onStack
    requires Edge(g, stack[|stack| - 1], target)
    ensures Cycle(g, ExtractCycle(stack, target))
  {
    hide Nodes, FinishOrder, Edge, IndexOf;
    var j := IndexOf(stack, target);
    var w := ExtractCycle(stack, target);
    forall k | 0 <= k < |w| - 1 ensures Edge(g, w[k], w[k + 1]) {
      if k < |w| - 2 { assert Edge(g, stack[j + k], stack[j + k + 1]); }
    }
    assert w[..|w| - 1] == stack[j..];
    DistinctMiddle(stack, done, j);
  }

  /** Search from every key not yet seen, in the order given. */
  method FindCycle(g: Graph, keys: seq<string>) returns (cycle: Option<seq<string>>)
    requires forall a :: a in g <==> a in keys
    ensures cycle.Some? ==> Cycle(g, cycle.value)
    ensures cycle.None? ==> forall w :: !ClosedWalk(g, w)
  {
    var search := new Search(g);
    hide Nodes, Cycle, Consistent;
    for i := 0 to |keys|
      invariant search.graph == g && search.Valid() && search.stack == [] && fresh(search)
      invariant forall j | 0 <= j < i :: keys[j] in search.done
    {
      SeenOrDone(g, search.visited, search.onStack, search.stack, search.done, keys[i]);
      NothingOnBranch(g, search.visited, search.onStack, search.done);
      if keys[i] in search.visited { continue; }
      var found := search.Dfs(keys[i]);
      if found.Some? { return found; }
    }
    ghost var done := search.done;
    NothingOnBranch(g, search.visited, search.onStack, done);
    forall w ensures !ClosedWalk(g, w) { FinishedIsAcyclic(g, done, w); }
    return None;
  }

  lemma NothingOnBranch(g: Graph, visited: set<string>, onStack: set<string>, done: seq<string>)
    requires Consistent(g, visited, onStack, [], done)
    ensures onStack == {} && Distinct(done) && FinishOrder(g, done)
  {
    assert [] + done == done;
  }
}
