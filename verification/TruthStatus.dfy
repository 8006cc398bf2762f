/** The derived status of a hypothesis: which edges count, in what order, and how the verdict
    moves as edges arrive. */
module TruthStatus {
  import opened Prelude
  import opened TransferPaths

  datatype RecipeRecord = RecipeRecord(ref: string, verdictOnPass: string)

  datatype Kind = Supporting | Refuting

  datatype TruthEdge = TruthEdge(
    ref: string,
    kind: Kind,
    fromRef: string,
    toRef: string,
    contextRef: Option<string>,
    evidenceRefs: seq<string>)

  datatype StatusSnapshot = StatusSnapshot(
    hypothesisRef: string,
    contextRef: Option<string>,
    acceptedRecipeRefs: set<string>,
    edges: seq<TruthEdge>,
    evidence: seq<EvidenceRecord>,
    recipes: seq<RecipeRecord>)

  datatype State = Unknown | Supported | Falsified | Disputed

  datatype StatusResult = StatusResult(state: State, supports: seq<string>, refutes: seq<string>)

  function RecipeByRef(recipes: seq<RecipeRecord>, ref: string): Option<RecipeRecord> {
    if recipes == [] then None
    else if recipes[|recipes| - 1].ref == ref then Some(recipes[|recipes| - 1])
    else RecipeByRef(recipes[..|recipes| - 1], ref)
  }

  /** The evidence backs the edge: it is about the hypothesis, in the edge's context, passed,
      and its recipe is accepted and yields the edge's verdict. */
  predicate Backs(s: StatusSnapshot, e: TruthEdge, evidenceRef: string) {
    var found := EvidenceByRef(s.evidence, evidenceRef);
    && found.Some?
    && s.hypothesisRef in found.value.subjectRefs
    && found.value.contextRef == e.contextRef
    && Passed(found.value.status)
    && found.value.recipeRef in s.acceptedRecipeRefs
    && var recipe := RecipeByRef(s.recipes, found.value.recipeRef);
       recipe.Some? && recipe.value.verdictOnPass == (if e.kind.Supporting? then "support" else "refute")
  }

  /** The edge counts: it points at the hypothesis, in the context asked for if any, and some
      evidence backs it. */
  predicate Counts(s: StatusSnapshot, e: TruthEdge) {
    && e.toRef == s.hypothesisRef
    && (s.contextRef.Some? ==> e.contextRef == s.contextRef)
    && exists k | 0 <= k < |e.evidenceRefs| :: Backs(s, e, e.evidenceRefs[k])
  }

  /** The refs of the counting edges of one kind, in the order given. */
  function CountingRefs(s: StatusSnapshot, edges: seq<TruthEdge>, kind: Kind): (refs: seq<string>)
    ensures forall ref :: ref in refs <==> exists e :: e in edges && Counts(s, e) && e.kind == kind && e.ref == ref
  {
    if edges == [] then []
    else
      var last := edges[|edges| - 1];
      assert edges == edges[..|edges| - 1] + [last];
      CountingRefs(s, edges[..|edges| - 1], kind) + (if Counts(s, last) && last.kind == kind then [last.ref] else [])
  }

  // ----- What makes an edge count ---------------------------------------------------------------------------------

  ghost predicate LastRecipe(recipes: seq<RecipeRecord>, j: int) {
    0 <= j < |recipes| && forall k | j < k < |recipes| :: recipes[k].ref != recipes[j].ref
  }

  lemma {:induction false} LastRecipeFound(recipes: seq<RecipeRecord>, ref: string)
    ensures var found := RecipeByRef(recipes, ref);
      && (found.Some? ==> exists j :: LastRecipe(recipes, j) && recipes[j] == found.value && recipes[j].ref == ref)
      && (found.None? ==> forall j | 0 <= j < |recipes| :: recipes[j].ref != ref)
  {
    if recipes != [] && recipes[|recipes| - 1].ref != ref {
      var init := recipes[..|recipes| - 1];
      LastRecipeFound(init, ref);
      if RecipeByRef(init, ref).Some? {
        var j :| LastRecipe(init, j) && init[j] == RecipeByRef(init, ref).value && init[j].ref == ref;
        assert LastRecipe(recipes, j) && recipes[j] == init[j];
      } else {
        assert forall j {:trigger recipes[j]} | 0 <= j < |init| :: recipes[j] == init[j];
      }
    } else if recipes != [] {
      assert LastRecipe(recipes, |recipes| - 1);
    }
  }

  lemma RecipeIsLast(recipes: seq<RecipeRecord>, j: int)
    requires LastRecipe(recipes, j)
    ensures RecipeByRef(recipes, recipes[j].ref) == Some(recipes[j])
  {
    LastRecipeFound(recipes, recipes[j].ref);
    hide RecipeByRef;
    var k :| LastRecipe(recipes, k) && recipes[k].ref == recipes[j].ref && recipes[k] == RecipeByRef(recipes, recipes[j].ref).value;
    assert k == j;
  }

  /** The evidence record at i, last of its ref, is one the edge cites, is about the hypothesis
      in the edge's context, passed, and was made by an accepted recipe. */
  ghost predicate GoodEvidence(s: StatusSnapshot, e: TruthEdge, i: int) {
    && LastRecord(s.evidence, i) && s.evidence[i].ref in e.evidenceRefs
    && s.hypothesisRef in s.evidence[i].subjectRefs
    && s.evidence[i].contextRef == e.contextRef
    && ReadsPass(s.evidence[i].status)
    && s.evidence[i].recipeRef in s.acceptedRecipeRefs
  }

  /** The edge is of this kind, points at the hypothesis in the context asked for, and cites
      good evidence whose recipe, by its last record, gives this verdict on passing. */
  ghost predicate Stands(s: StatusSnapshot, e: TruthEdge, kind: Kind, verdict: string) {
    && e.kind == kind && e.toRef == s.hypothesisRef
    && (s.contextRef.None? || e.contextRef == s.contextRef)
    && exists i, j :: GoodEvidence(s, e, i) && LastRecipe(s.recipes, j)
         && s.recipes[j].ref == s.evidence[i].recipeRef && s.recipes[j].verdictOnPass == verdict
  }

  ghost predicate Supports(s: StatusSnapshot, e: TruthEdge) { Stands(s, e, Supporting, "support") }

  ghost predicate Refutes(s: StatusSnapshot, e: TruthEdge) { Stands(s, e, Refuting, "refute") }

  lemma BacksExactly(s: StatusSnapshot, e: TruthEdge, k: nat) returns (i: int, j: int)
    requires k < |e.evidenceRefs| && Backs(s, e, e.evidenceRefs[k])
    ensures GoodEvidence(s, e, i) && LastRecipe(s.recipes, j) && s.recipes[j].ref == s.evidence[i].recipeRef
    ensures s.recipes[j].verdictOnPass == (if e.kind.Supporting? then "support" else "refute")
  {
    hide EvidenceByRef, RecipeByRef, Passed, ReadsPass;
    LastFound(s.evidence, e.evidenceRefs[k]);
    var found := EvidenceByRef(s.evidence, e.evidenceRefs[k]).value;
    i :| LastRecord(s.evidence, i) && s.evidence[i] == found && s.evidence[i].ref == e.evidenceRefs[k];
    PassedExactly(found.status);
    LastRecipeFound(s.recipes, found.recipeRef);
    j :| LastRecipe(s.recipes, j) && s.recipes[j] == RecipeByRef(s.recipes, found.recipeRef).value && s.recipes[j].ref == found.recipeRef;
  }

  lemma EvidenceBacks(s: StatusSnapshot, e: TruthEdge, i: int, j: int) returns (k: nat)
    requires GoodEvidence(s, e, i) && LastRecipe(s.recipes, j) && s.recipes[j].ref == s.evidence[i].recipeRef
    requires s.recipes[j].verdictOnPass == (if e.kind.Supporting? then "support" else "refute")
    ensures k < |e.evidenceRefs| && Backs(s, e, e.evidenceRefs[k])
  {
    hide EvidenceByRef, RecipeByRef, Passed, ReadsPass;
    FoundIsLast(s.evidence, i);
    RecipeIsLast(s.recipes, j);
    PassedExactly(s.evidence[i].status);
    k :| 0 <= k < |e.evidenceRefs| && e.evidenceRefs[k] == s.evidence[i].ref;
  }

  /** An edge counts exactly when it supports or refutes. */
  lemma CountsExactly(s: StatusSnapshot, e: TruthEdge)
    ensures Counts(s, e) && e.kind.Supporting? <==> Supports(s, e)
    ensures Counts(s, e) && e.kind.Refuting? <==> Refutes(s, e)
  {
    hide Backs, ReadsPass;
    var verdict := if e.kind.Supporting? then "support" else "refute";
    if Counts(s, e) {
      var k :| 0 <= k < |e.evidenceRefs| && Backs(s, e, e.evidenceRefs[k]);
      var i, j := BacksExactly(s, e, k);
      assert Stands(s, e, e.kind, verdict);
    }
    if Stands(s, e, e.kind, verdict) {
      var i, j :| GoodEvidence(s, e, i) && LastRecipe(s.recipes, j)
        && s.recipes[j].ref == s.evidence[i].recipeRef && s.recipes[j].verdictOnPass == verdict;
      var k := EvidenceBacks(s, e, i, j);
    }
  }

  function Classify(supports: seq<string>, refutes: seq<string>): State {
    if supports != [] && refutes != [] then Disputed
    else if refutes != [] then Falsified
    else if supports != [] then Supported
    else Unknown
  }

  function EdgeRefLe(a: TruthEdge, b: TruthEdge): bool { StringLe(a.ref, b.ref) }

  lemma CountingStep(s: StatusSnapshot, edges: seq<TruthEdge>, i: nat, kind: Kind)
    requires i < |edges|
    ensures CountingRefs(s, edges[..i + 1], kind)
      == CountingRefs(s, edges[..i], kind) + (if Counts(s, edges[i]) && edges[i].kind == kind then [edges[i].ref] else [])
  {
    assert edges[..i + 1][..i] == edges[..i];
    hide Counts;
  }

  /** Go through the edges in order of ref, keeping those that count. */
  method DeriveStatus(s: StatusSnapshot) returns (r: StatusResult)
    ensures r.supports == CountingRefs(s, SortBy(s.edges, EdgeRefLe), Supporting)
    ensures r.refutes == CountingRefs(s, SortBy(s.edges, EdgeRefLe), Refuting)
    ensures r.state == Classify(r.supports, r.refutes)
    ensures Derived(s, r)
  {
    var sorted := SortBy(s.edges, EdgeRefLe);
    var supports: seq<string>, refutes: seq<string> := [], [];
    for i := 0 to |sorted|
      invariant supports == CountingRefs(s, sorted[..i], Supporting)
      invariant refutes == CountingRefs(s, sorted[..i], Refuting)
    {
      hide Backs, CountingRefs;
      var e := sorted[i];
      CountingStep(s, sorted, i, Supporting);
      CountingStep(s, sorted, i, Refuting);
      if e.toRef != s.hypothesisRef { continue; }
      if s.contextRef.Some? && e.contextRef != s.contextRef { continue; }
      if !exists k | 0 <= k < |e.evidenceRefs| :: Backs(s, e, e.evidenceRefs[k]) { continue; }
      if e.kind.Supporting? { supports := supports + [e.ref]; } else { refutes := refutes + [e.ref]; }
    }
    assert sorted[..|sorted|] == sorted;
    r := StatusResult(Classify(supports, refutes), supports, refutes);
    DerivedExactly(s, r);
  }

  /** The answer, told by the snapshot alone: the refs of the supporting and of the refuting
      edges, each in order, and the verdict they give together. */
  ghost predicate Derived(s: StatusSnapshot, r: StatusResult) {
    && (forall ref :: ref in r.supports <==> exists e :: e in s.edges && Supports(s, e) && e.ref == ref)
    && (forall ref :: ref in r.refutes <==> exists e :: e in s.edges && Refutes(s, e) && e.ref == ref)
    && SortedBy(r.supports, StringLe) && SortedBy(r.refutes, StringLe)
    && (r.state.Supported? || r.state.Disputed? <==> exists e :: e in s.edges && Supports(s, e))
    && (r.state.Falsified? || r.state.Disputed? <==> exists e :: e in s.edges && Refutes(s, e))
  }

  lemma DerivedExactly(s: StatusSnapshot, r: StatusResult)
    requires r.supports == CountingRefs(s, SortBy(s.edges, EdgeRefLe), Supporting)
    requires r.refutes == CountingRefs(s, SortBy(s.edges, EdgeRefLe), Refuting)
    requires r.state == Classify(r.supports, r.refutes)
    ensures Derived(s, r)
  {
    hide SortBy, SortedBy, CountingRefs, Supports, Refutes;
    Listed(s, r.supports, Supporting);
    Listed(s, r.refutes, Refuting);
  }

  /** The edge counts for this kind. */
  ghost predicate CountsFor(s: StatusSnapshot, e: TruthEdge, kind: Kind) {
    if kind.Supporting? then Supports(s, e) else Refutes(s, e)
  }

  lemma Listed(s: StatusSnapshot, refs: seq<string>, kind: Kind)
    requires refs == CountingRefs(s, SortBy(s.edges, EdgeRefLe), kind)
    ensures forall ref :: ref in refs <==> exists e :: e in s.edges && CountsFor(s, e, kind) && e.ref == ref
    ensures SortedBy(refs, StringLe)
    ensures refs != [] <==> exists e :: e in s.edges && CountsFor(s, e, kind)
  {
    hide SortBy, SortedBy, Counts, Supports, Refutes;
    var sorted := SortBy(s.edges, EdgeRefLe);
    SortByElements(s.edges, EdgeRefLe);
    RefOrderLinear();
    SortBySorted(s.edges, EdgeRefLe);
    CountingSorted(s, sorted, kind);
    forall e ensures CountsFor(s, e, kind) <==> Counts(s, e) && e.kind == kind { CountsExactly(s, e); }
    SomeListed(s, refs, kind);
    hide CountsFor, CountingRefs, StringLe;
  }

  /** A list of counting refs is empty exactly when no edge of its kind counts. */
  lemma SomeListed(s: StatusSnapshot, refs: seq<string>, kind: Kind)
    requires refs == CountingRefs(s, SortBy(s.edges, EdgeRefLe), kind)
    ensures refs != [] <==> exists e :: e in s.edges && Counts(s, e) && e.kind == kind
  {
    SortByElements(s.edges, EdgeRefLe);
    hide Counts, SortBy;
    assert refs != [] ==> refs[0] in refs;
    if e :| e in s.edges && Counts(s, e) && e.kind == kind {
      assert e in SortBy(s.edges, EdgeRefLe);
      assert e.ref in refs;
    }
  }

  // ----- Order does not matter, and the verdict only rises --------------------------------------------------------

  /** Some edge stands for this kind of verdict. */
  ghost predicate SomeStands(s: StatusSnapshot, kind: Kind) {
    exists e :: e in s.edges && CountsFor(s, e, kind)
  }

  /** The verdict says exactly whether some edge supports and whether some edge refutes. */
  lemma VerdictExact(s: StatusSnapshot)
    ensures var sorted := SortBy(s.edges, EdgeRefLe);
      Classify(CountingRefs(s, sorted, Supporting), CountingRefs(s, sorted, Refuting))
        == if SomeStands(s, Supporting) then (if SomeStands(s, Refuting) then Disputed else Supported)
           else if SomeStands(s, Refuting) then Falsified else Unknown
  {
    hide SortBy, SortedBy, CountingRefs, Supports, Refutes;
    var sorted := SortBy(s.edges, EdgeRefLe);
    Listed(s, CountingRefs(s, sorted, Supporting), Supporting);
    Listed(s, CountingRefs(s, sorted, Refuting), Refuting);
  }

  lemma {:induction false} CountingSorted(s: StatusSnapshot, edges: seq<TruthEdge>, kind: Kind)
    requires SortedBy(edges, EdgeRefLe)
    ensures SortedBy(CountingRefs(s, edges, kind), StringLe)
  {
    if edges != [] {
      var init, last := edges[..|edges| - 1], edges[|edges| - 1];
      CountingSorted(s, init, kind);
      var refs := CountingRefs(s, init, kind);
      forall i | 0 <= i < |refs| ensures StringLe(refs[i], last.ref) {
        assert refs[i] in refs;
        var e :| e in init && Counts(s, e) && e.kind == kind && e.ref == refs[i];
        var k :| 0 <= k < |init| && init[k] == e;
        assert EdgeRefLe(edges[k], last);
      }
      hide Counts, StringLe;
    }
  }

  lemma RefOrderLinear()
    ensures LinearOrder(EdgeRefLe)
  {
    forall a: TruthEdge, b: TruthEdge ensures EdgeRefLe(a, b) || EdgeRefLe(b, a) { StringLeTotal(a.ref, b.ref); }
    forall a: TruthEdge, b: TruthEdge, c: TruthEdge | EdgeRefLe(a, b) && EdgeRefLe(b, c) ensures EdgeRefLe(a, c) {
      StringLeTransitive(a.ref, b.ref, c.ref);
    }
  }

  predicate RefsApart(a: TruthEdge, b: TruthEdge) { a.ref != b.ref }

  lemma {:induction false} CountingDistinct(s: StatusSnapshot, edges: seq<TruthEdge>, kind: Kind)
    requires Pairwise(edges, RefsApart)
    ensures Distinct(CountingRefs(s, edges, kind))
  {
    if edges != [] {
      var init, last := edges[..|edges| - 1], edges[|edges| - 1];
      CountingDistinct(s, init, kind);
      var refs := CountingRefs(s, init, kind);
      forall i | 0 <= i < |refs| ensures refs[i] != last.ref {
        assert refs[i] in refs;
        var e :| e in init && Counts(s, e) && e.kind == kind && e.ref == refs[i];
        var k :| 0 <= k < |init| && init[k] == e;
        assert RefsApart(edges[k], last);
      }
      hide Counts;
    }
  }

  /** With distinct edge refs the answer depends on which edges there are, not on their order. */
  lemma OrderIrrelevant(s: StatusSnapshot, t: StatusSnapshot, kind: Kind)
    requires t == s.(edges := t.edges) && (forall e :: e in s.edges <==> e in t.edges)
    requires Pairwise(s.edges, RefsApart) && Pairwise(t.edges, RefsApart)
    ensures CountingRefs(s, SortBy(s.edges, EdgeRefLe), kind) == CountingRefs(t, SortBy(t.edges, EdgeRefLe), kind)
  {
    hide Backs, StringLe;
    RefOrderLinear();
    var a, b := SortBy(s.edges, EdgeRefLe), SortBy(t.edges, EdgeRefLe);
    SortBySorted(s.edges, EdgeRefLe);
    SortBySorted(t.edges, EdgeRefLe);
    SortByElements(s.edges, EdgeRefLe);
    SortByElements(t.edges, EdgeRefLe);
    SortByPairwise(s.edges, EdgeRefLe, RefsApart);
    SortByPairwise(t.edges, EdgeRefLe, RefsApart);
    CountingSorted(s, a, kind);
    CountingSorted(t, b, kind);
    CountingDistinct(s, a, kind);
    CountingDistinct(t, b, kind);
    SameCounting(s, t, a, b, kind);
    forall x, y | StringLe(x, y) && StringLe(y, x) ensures x == y { StringLeTotal(x, y); }
    hide SortBy, SortedBy, Pairwise, CountingRefs;
    SortedDetermined(CountingRefs(s, a, kind), CountingRefs(t, b, kind), StringLe);
  }

  lemma SameCounting(s: StatusSnapshot, t: StatusSnapshot, a: seq<TruthEdge>, b: seq<TruthEdge>, kind: Kind)
    requires t == s.(edges := t.edges) && forall e :: e in a <==> e in b
    ensures forall ref :: ref in CountingRefs(s, a, kind) <==> ref in CountingRefs(t, b, kind)
  {
    hide CountingRefs;
    forall e: TruthEdge, ref ensures Backs(s, e, ref) <==> Backs(t, e, ref) { }
    hide Backs;
    forall e ensures Counts(s, e) <==> Counts(t, e) { }
    hide Counts;
  }

  /** How much a verdict has seen: support and refutation are kept once found. */
  predicate AtMost(a: State, b: State) { a == b || a.Unknown? || b.Disputed? }

  /** More edges never lower a verdict: support or refutation, once derived, stays. */
  lemma VerdictRises(s: StatusSnapshot, more: seq<TruthEdge>)
    ensures var t := s.(edges := s.edges + more);
      var a, b := SortBy(s.edges, EdgeRefLe), SortBy(t.edges, EdgeRefLe);
      AtMost(Classify(CountingRefs(s, a, Supporting), CountingRefs(s, a, Refuting)),
             Classify(CountingRefs(t, b, Supporting), CountingRefs(t, b, Refuting)))
  {
    var t := s.(edges := s.edges + more);
    VerdictExact(s);
    VerdictExact(t);
    hide SortBy, CountingRefs, Classify, CountsFor;
    forall kind | SomeStands(s, kind) ensures SomeStands(t, kind) {
      var e :| e in s.edges && CountsFor(s, e, kind);
      StandsAlike(s, t, e, kind);
      assert e in t.edges;
    }
  }

  lemma StandsAlike(s: StatusSnapshot, t: StatusSnapshot, e: TruthEdge, kind: Kind)
    requires t == s.(edges := t.edges)
    ensures CountsFor(s, e, kind) <==> CountsFor(t, e, kind)
  {
    forall i ensures GoodEvidence(s, e, i) <==> GoodEvidence(t, e, i) { }
    hide GoodEvidence, LastRecipe;
  }
}
