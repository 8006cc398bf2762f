/** Admission of imported truth: every truth-bearing edge needs exactly one receipt per
    evidence, and every receipt must be needed. */
module TrustedTruth {
  import opened Prelude
  import opened CanonicalJson
  import opened VerifierReceipts

  datatype Edge = Edge(edgeType: string, toRef: Option<string>, contextRef: Option<string>, evidenceRefs: Option<seq<string>>)

  /** Evidence as admission reads it; None stands for a missing or mistyped field. */
  datatype Evidence = Evidence(
    status: Option<string>,
    subjectRefs: Option<seq<string>>,
    contextRef: Option<string>,
    recipeRef: Option<string>,
    outputs: Option<seq<Option<string>>>,
    stdoutRef: string,
    stderrRef: string)

  datatype Content =
    | ReceiptContent(raw: Json)
    | EdgeContent(edge: Edge)
    | EvidenceContent(evidence: Evidence)
    | OtherContent

  datatype Entry = Entry(ref: string, content: Content)

  datatype Verifier = Verifier(keyId: string, publicKey: seq<byte>)

  datatype Policy = Policy(
    quarantined: bool,
    verifiers: seq<Verifier>,
    versions: seq<string>,
    policyHashes: seq<string>,
    toolchainHashes: seq<string>)

  /** The bundle under admission: its objects, the refs it owns, and the two opaque
      functions of the cryptography. */
  datatype Bundle = Bundle(
    objects: seq<Entry>,
    owned: set<string>,
    root: Receipt -> string,
    verifies: (seq<byte>, seq<byte>, Statement) -> bool)

  datatype TruthCode =
    | InvalidVerifierReceipt | UntrustedVerifier | InvalidVerifierSignature | ReceiptRefOutsideBundle
    | InvalidTruthEvidenceRefs | TruthEvidenceOutsideBundle | TruthEvidenceSchemaMismatch | TruthEvidenceNotPassing
    | TruthInputRootsMismatch | TruthContextMismatch | InvalidTruthOutputs | DuplicateTruthOutput | InvalidTruthBinding
    | VerifierReceiptCardinality | UnacceptedVerifierVersion | ReceiptPolicyMismatch | ToolchainMismatch
    | ReplayBindingMismatch | UnboundVerifierReceipt | MissingVerifierReceipts

  datatype Admission = Admitted(roots: set<string>) | Rejected(code: TruthCode)

  datatype Checked<T> = Good(value: T) | Bad(code: TruthCode)

  // ----- One receipt --------------------------------------------------------------------------------------------------

  /** The trusted key with this id; of several the last. */
  function KeyOf(verifiers: seq<Verifier>, id: string): Option<seq<byte>> {
    if verifiers == [] then None
    else if verifiers[|verifiers| - 1].keyId == id then Some(verifiers[|verifiers| - 1].publicKey)
    else KeyOf(verifiers[..|verifiers| - 1], id)
  }

  predicate OwnsReferences(s: Statement, owned: set<string>) {
    && s.claimRef in owned && s.recipeRef in owned && s.evidenceRef in owned && s.edgeRef in owned
    && (forall i | 0 <= i < |s.inputRoots| :: s.inputRoots[i] in owned)
    && (forall i | 0 <= i < |s.outputRoots| :: s.outputRoots[i] in owned)
    && (s.contextRef.Some? ==> s.contextRef.value in owned)
  }

  /** Decode, authenticate, and keep to the bundle. */
  function CheckReceipt(b: Bundle, p: Policy, raw: Json): (r: Checked<Receipt>)
    ensures r.Bad? ==> !r.code.MissingVerifierReceipts?
  {
    var parsed := ParseReceipt(raw, b.root);
    if parsed.None? then Bad(InvalidVerifierReceipt)
    else
      var r := parsed.value;
      var key := KeyOf(p.verifiers, r.signerKeyId);
      if key.None? then Bad(UntrustedVerifier)
      else if !b.verifies(key.value, r.signature, r.statement) then Bad(InvalidVerifierSignature)
      else if !OwnsReferences(r.statement, b.owned) then Bad(ReceiptRefOutsideBundle)
      else Good(r)
  }

  // ----- One truth binding ----------------------------------------------------------------------------------------------

  datatype Binding = Binding(
    claimRef: string,
    contextRef: Option<string>,
    recipeRef: string,
    evidenceRef: string,
    edgeRef: string,
    inputRoots: seq<string>,
    result: VerifierResult,
    outputRoots: seq<string>)

  predicate TruthEdge(c: Content) {
    c.EdgeContent? && (c.edge.edgeType == "supports" || c.edge.edgeType == "refutes")
  }

  /** The refs of all outputs, the two streams last. */
  function OutputRefs(e: Evidence): Option<seq<string>> {
    if e.outputs.None? || exists i | 0 <= i < |e.outputs.value| :: e.outputs.value[i].None? then None
    else
      var listed := seq(|e.outputs.value|, i requires 0 <= i < |e.outputs.value| => e.outputs.value[i].value);
      Some(listed + (if e.stdoutRef == "" then [] else [e.stdoutRef]) + (if e.stderrRef == "" then [] else [e.stderrRef]))
  }

  predicate ValidBinding(b: Binding) {
    && ValidRefText(b.claimRef) && ValidRefText(b.recipeRef) && ValidRefText(b.evidenceRef) && ValidRefText(b.edgeRef)
    && (b.contextRef.Some? ==> ValidRefText(b.contextRef.value))
    && ValidRootList(b.inputRoots) && ValidRootList(b.outputRoots)
  }

  /** What a receipt must say to support this edge with this evidence. */
  function TruthBinding(edgeRef: string, edge: Edge, evidenceRef: string, c: Content): Checked<Binding>
    requires TruthEdge(EdgeContent(edge))
  {
    if !c.EvidenceContent? then Bad(TruthEvidenceSchemaMismatch)
    else
      var e := c.evidence;
      if e.status != Some("pass") then Bad(TruthEvidenceNotPassing)
      else if e.subjectRefs.None? || !SortedUnique(e.subjectRefs.value) || edge.toRef.None? || edge.toRef.value !in e.subjectRefs.value then
        Bad(TruthInputRootsMismatch)
      else if edge.contextRef != e.contextRef then Bad(TruthContextMismatch)
      else
        var outputs := OutputRefs(e);
        if outputs.None? then Bad(InvalidTruthOutputs)
        else if !Distinct(outputs.value) then Bad(DuplicateTruthOutput)
        else if e.recipeRef.None? then Bad(InvalidTruthBinding)
        else
          var b := Binding(edge.toRef.value, edge.contextRef, e.recipeRef.value, evidenceRef, edgeRef, e.subjectRefs.value,
                           if edge.edgeType == "supports" then Supports else Refutes, SortBy(outputs.value, StringLe));
          if ValidBinding(b) then Good(b) else Bad(InvalidTruthBinding)
  }

  /** The receipt says exactly what the binding requires. */
  predicate Agrees(s: Statement, b: Binding) {
    && s.claimRef == b.claimRef && s.contextRef == b.contextRef && s.recipeRef == b.recipeRef
    && s.evidenceRef == b.evidenceRef && s.edgeRef == b.edgeRef && s.inputRoots == b.inputRoots
    && s.result == b.result && s.outputRoots == b.outputRoots
  }

  function AdmitReceipt(r: Receipt, b: Binding, p: Policy): Option<TruthCode> {
    if !(exists i | 0 <= i < |p.verifiers| :: p.verifiers[i].keyId == r.statement.verifierId) then Some(UntrustedVerifier)
    else if r.statement.verifierVersion !in p.versions then Some(UnacceptedVerifierVersion)
    else if r.statement.policyHash !in p.policyHashes then Some(ReceiptPolicyMismatch)
    else if r.statement.toolchainHash !in p.toolchainHashes then Some(ToolchainMismatch)
    else if !Agrees(r.statement, b) then Some(ReplayBindingMismatch)
    else None
  }

  // ----- What admission promises --------------------------------------------------------------------------------------------

  function FindEntry(objects: seq<Entry>, ref: string): (r: Option<Content>)
    ensures r.Some? ==> exists i :: 0 <= i < |objects| && objects[i] == Entry(ref, r.value)
  {
    if objects == [] then None
    else if objects[0].ref == ref then Some(objects[0].content)
    else
      var r := FindEntry(objects[1..], ref);
      assert r.Some? ==> exists i :: 0 <= i < |objects| && objects[i] == Entry(ref, r.value) by {
        if r.Some? {
          var i :| 0 <= i < |objects[1..]| && objects[1..][i] == Entry(ref, r.value);
          assert objects[i + 1] == Entry(ref, r.value);
        }
      }
      r
  }

  ghost predicate IsReceipt(b: Bundle, i: nat) { i < |b.objects| && b.objects[i].content.ReceiptContent? }

  ghost predicate ReceiptGood(b: Bundle, p: Policy, i: nat)
    requires i < |b.objects|
  {
    b.objects[i].content.ReceiptContent? ==> CheckReceipt(b, p, b.objects[i].content.raw).Good?
  }

  /** The receipt at i is about this edge and this evidence. */
  ghost predicate About(b: Bundle, p: Policy, i: nat, edgeRef: string, evidenceRef: string) {
    && IsReceipt(b, i) && CheckReceipt(b, p, b.objects[i].content.raw).Good?
    && CheckReceipt(b, p, b.objects[i].content.raw).value.statement.edgeRef == edgeRef
    && CheckReceipt(b, p, b.objects[i].content.raw).value.statement.evidenceRef == evidenceRef
  }

  /** An edge at position j needs evidence at position k of its list. */
  ghost predicate Needs(b: Bundle, j: nat, k: nat) {
    && j < |b.objects| && TruthEdge(b.objects[j].content)
    && b.objects[j].content.edge.evidenceRefs.Some? && k < |b.objects[j].content.edge.evidenceRefs.value|
  }

  function EvidenceRefAt(b: Bundle, j: nat, k: nat): string
    requires j < |b.objects| && b.objects[j].content.EdgeContent?
    requires b.objects[j].content.edge.evidenceRefs.Some? && k < |b.objects[j].content.edge.evidenceRefs.value|
  {
    b.objects[j].content.edge.evidenceRefs.value[k]
  }

  /** The receipt at i is the only one about this pair, and is admitted for its binding. */
  ghost predicate Covers(b: Bundle, p: Policy, i: nat, j: nat, k: nat)
    requires Needs(b, j, k)
  {
    var edgeRef, evidenceRef := b.objects[j].ref, EvidenceRefAt(b, j, k);
    && About(b, p, i, edgeRef, evidenceRef)
    && (forall other | About(b, p, other, edgeRef, evidenceRef) :: other == i)
    && FindEntry(b.objects, evidenceRef).Some?
    && TruthBinding(edgeRef, b.objects[j].content.edge, evidenceRef, FindEntry(b.objects, evidenceRef).value).Good?
    && AdmitReceipt(CheckReceipt(b, p, b.objects[i].content.raw).value,
                    TruthBinding(edgeRef, b.objects[j].content.edge, evidenceRef, FindEntry(b.objects, evidenceRef).value).value, p).None?
  }

  ghost predicate EdgeListGood(b: Bundle, j: nat)
    requires j < |b.objects|
  {
    TruthEdge(b.objects[j].content) ==>
      var refs := b.objects[j].content.edge.evidenceRefs;
      refs.Some? && refs.value != [] && SortedUnique(refs.value)
  }

  /** A perfect matching of receipts and needed pairs: every receipt is sound, every pair has
      exactly one receipt, which agrees with it in full, and every receipt has its pair. */
  ghost predicate Matched(b: Bundle, p: Policy) {
    && (forall i | 0 <= i < |b.objects| :: ReceiptGood(b, p, i))
    && (forall j | 0 <= j < |b.objects| :: EdgeListGood(b, j))
    && (forall j: nat, k: nat | Needs(b, j, k) :: exists i: nat :: Covers(b, p, i, j, k))
    && (forall i: nat | IsReceipt(b, i) :: exists j: nat, k: nat :: Needs(b, j, k) && Covers(b, p, i, j, k))
  }

  ghost predicate DistinctRefs(objects: seq<Entry>) {
    forall i, j | 0 <= i < j < |objects| :: objects[i].ref != objects[j].ref
  }

  /** No two receipts of the bundle share a root. */
  ghost predicate DistinctRoots(b: Bundle, p: Policy) {
    forall i: nat, j: nat | IsReceipt(b, i) && IsReceipt(b, j) && i != j && ReceiptGood(b, p, i) && ReceiptGood(b, p, j) ::
      b.root(ReceiptAt(b, p, i)) != b.root(ReceiptAt(b, p, j))
  }

  ghost function ReceiptAt(b: Bundle, p: Policy, i: nat): Receipt
    requires IsReceipt(b, i) && ReceiptGood(b, p, i)
  {
    CheckReceipt(b, p, b.objects[i].content.raw).value
  }

  /** No receipt serves two pairs: its statement names the one it is for. */
  lemma MatchingIsInjective(b: Bundle, p: Policy, i: nat, j: nat, k: nat, m: nat, n: nat)
    requires DistinctRefs(b.objects) && (forall x | 0 <= x < |b.objects| :: EdgeListGood(b, x))
    requires Needs(b, j, k) && Needs(b, m, n) && Covers(b, p, i, j, k) && Covers(b, p, i, m, n)
    ensures j == m && k == n
  {
    hide CheckReceipt, TruthBinding, AdmitReceipt, FindEntry;
    assert b.objects[j].ref == b.objects[m].ref;
    assert j == m;
    assert EvidenceRefAt(b, j, k) == EvidenceRefAt(b, m, n);
    assert EdgeListGood(b, j);
  }

  /** Why a pair has no receipt to cover it. */
  ghost predicate PairFault(b: Bundle, p: Policy, j: nat, k: nat, code: TruthCode)
    requires Needs(b, j, k)
  {
    var edgeRef, evidenceRef, edge := b.objects[j].ref, EvidenceRefAt(b, j, k), b.objects[j].content.edge;
    match FindEntry(b.objects, evidenceRef)
    case None => code.TruthEvidenceOutsideBundle?
    case Some(evidence) =>
      match TruthBinding(edgeRef, edge, evidenceRef, evidence)
      case Bad(why) => code == why
      case Good(binding) =>
        || (code.VerifierReceiptCardinality?
            && forall i: nat | About(b, p, i, edgeRef, evidenceRef) :: exists other :: other != i && About(b, p, other, edgeRef, evidenceRef))
        || (exists i: nat :: About(b, p, i, edgeRef, evidenceRef)
              && AdmitReceipt(CheckReceipt(b, p, b.objects[i].content.raw).value, binding, p) == Some(code))
  }

  /** Something in the bundle calls for this code. */
  ghost predicate Caused(b: Bundle, p: Policy, code: TruthCode) {
    || (exists i: nat :: IsReceipt(b, i) && CheckReceipt(b, p, b.objects[i].content.raw) == Bad(code))
    || (code.InvalidTruthEvidenceRefs? && exists j: nat :: j < |b.objects| && !EdgeListGood(b, j))
    || (exists j: nat, k: nat :: Needs(b, j, k) && PairFault(b, p, j, k, code))
  }

  // ----- Collecting the receipts ----------------------------------------------------------------------------------------------

  datatype Authenticated = Authenticated(index: nat, receipt: Receipt)

  type Candidates = map<(string, string), seq<Authenticated>>

  function CandidatesFor(m: Candidates, edgeRef: string, evidenceRef: string): seq<Authenticated> {
    if (edgeRef, evidenceRef) in m then m[(edgeRef, evidenceRef)] else []
  }

  /** The first n objects' receipts, listed by the pair they are about. */
  ghost predicate Lists(b: Bundle, p: Policy, m: Candidates, n: nat) {
    forall edgeRef, evidenceRef ::
      var found := CandidatesFor(m, edgeRef, evidenceRef);
      && (forall c :: c in found <==> (c.index < n && About(b, p, c.index, edgeRef, evidenceRef)
                                       && c.receipt == CheckReceipt(b, p, b.objects[c.index].content.raw).value))
      && (forall x, y | 0 <= x < y < |found| :: found[x].index < found[y].index)
  }

  function AddCandidate(m: Candidates, c: Authenticated): (out: Candidates)
    ensures forall edgeRef, evidenceRef ::
      CandidatesFor(out, edgeRef, evidenceRef) ==
        if c.receipt.statement.edgeRef == edgeRef && c.receipt.statement.evidenceRef == evidenceRef
        then CandidatesFor(m, edgeRef, evidenceRef) + [c] else CandidatesFor(m, edgeRef, evidenceRef)
  {
    var key := (c.receipt.statement.edgeRef, c.receipt.statement.evidenceRef);
    m[key := CandidatesFor(m, key.0, key.1) + [c]]
  }

  lemma ListsStep(b: Bundle, p: Policy, m: Candidates, n: nat)
    requires n < |b.objects| && Lists(b, p, m, n) && ReceiptGood(b, p, n)
    ensures IsReceipt(b, n) ==> Lists(b, p, AddCandidate(m, Authenticated(n, ReceiptAt(b, p, n))), n + 1)
    ensures !IsReceipt(b, n) ==> Lists(b, p, m, n + 1)
  {
    hide CheckReceipt, CandidatesFor, AddCandidate;
    if IsReceipt(b, n) {
      var c := Authenticated(n, ReceiptAt(b, p, n));
      var out := AddCandidate(m, c);
      forall edgeRef, evidenceRef
        ensures var found := CandidatesFor(out, edgeRef, evidenceRef);
          && (forall d :: d in found <==> (d.index < n + 1 && About(b, p, d.index, edgeRef, evidenceRef)
                                           && d.receipt == CheckReceipt(b, p, b.objects[d.index].content.raw).value))
          && (forall x, y | 0 <= x < y < |found| :: found[x].index < found[y].index)
      {
        var before := CandidatesFor(m, edgeRef, evidenceRef);
        assert forall x {:trigger before[x]} | 0 <= x < |before| :: before[x] in before;
      }
    }
  }

  method CollectReceipts(b: Bundle, p: Policy)
    returns (fault: Option<TruthCode>, m: Candidates, refs: set<string>, ghost indices: set<nat>)
    requires DistinctRefs(b.objects)
    ensures fault.Some? ==> !Matched(b, p) && Caused(b, p, fault.value) && !fault.value.MissingVerifierReceipts?
    ensures fault.None? ==>
      && (forall i | 0 <= i < |b.objects| :: ReceiptGood(b, p, i))
      && Lists(b, p, m, |b.objects|)
      && |refs| == |indices| && (forall i: nat :: i in indices <==> IsReceipt(b, i))
  {
    hide CheckReceipt, Lists, Matched, ReceiptGood, EarlierRefs, DistinctRefs, Caused;
    NoEarlierRefs(b);
    m, refs, indices := map[], {}, {};
    assert Lists(b, p, m, 0) by { ListsNone(b, p); }
    for i := 0 to |b.objects|
      invariant forall x | 0 <= x < i :: ReceiptGood(b, p, x)
      invariant Lists(b, p, m, i)
      invariant |refs| == |indices|
      invariant forall x: nat :: x in indices <==> x < i && IsReceipt(b, x)
      invariant EarlierRefs(b, refs, i)
    {
      var o := b.objects[i];
      if o.content.ReceiptContent? {
        var checked := CheckReceipt(b, p, o.content.raw);
        ReceiptGoodIs(b, p, i);
        if checked.Bad? {
          BadReceipt(b, p, i);
          return Some(checked.code), m, refs, indices;
        }
        ListsStep(b, p, m, i);
        m := AddCandidate(m, Authenticated(i, checked.value));
        FreshRef(b, refs, i);
        refs := refs + {o.ref};
        indices := indices + {i};
      } else {
        ReceiptGoodIs(b, p, i);
        ListsStep(b, p, m, i);
        LaterRefs(b, refs, i);
      }
    }
    fault := None;
  }

  /** These refs belong to objects before position n. */
  ghost predicate EarlierRefs(b: Bundle, refs: set<string>, n: nat) {
    forall ref | ref in refs :: exists x :: 0 <= x < n && x < |b.objects| && b.objects[x].ref == ref
  }

  lemma NoEarlierRefs(b: Bundle)
    ensures EarlierRefs(b, {}, 0)
  {
  }

  lemma LaterRefs(b: Bundle, refs: set<string>, n: nat)
    requires n < |b.objects| && EarlierRefs(b, refs, n)
    ensures EarlierRefs(b, refs, n + 1)
  {
  }

  lemma FreshRef(b: Bundle, refs: set<string>, n: nat)
    requires DistinctRefs(b.objects) && n < |b.objects| && EarlierRefs(b, refs, n)
    ensures b.objects[n].ref !in refs && EarlierRefs(b, refs + {b.objects[n].ref}, n + 1)
  {
  }

  lemma ReceiptGoodIs(b: Bundle, p: Policy, i: nat)
    requires i < |b.objects|
    ensures ReceiptGood(b, p, i) <==> (IsReceipt(b, i) ==> CheckReceipt(b, p, b.objects[i].content.raw).Good?)
  {
    hide CheckReceipt;
  }

  lemma BadReceipt(b: Bundle, p: Policy, i: nat)
    requires i < |b.objects| && !ReceiptGood(b, p, i)
    ensures !Matched(b, p)
    ensures IsReceipt(b, i) && CheckReceipt(b, p, b.objects[i].content.raw).Bad?
    ensures Caused(b, p, CheckReceipt(b, p, b.objects[i].content.raw).code)
  {
    hide EdgeListGood, Needs, Covers, CheckReceipt, PairFault;
    assert IsReceipt(b, i);
  }

  lemma ListsNone(b: Bundle, p: Policy)
    ensures Lists(b, p, map[], 0)
  {
  }

  // ----- Matching pairs ---------------------------------------------------------------------------------------------------------

  /** A pair is covered by the one candidate listed for it, or by nothing. */
  lemma OneCandidate(b: Bundle, p: Policy, m: Candidates, j: nat, k: nat)
    requires Lists(b, p, m, |b.objects|) && Needs(b, j, k)
    ensures var found := CandidatesFor(m, b.objects[j].ref, EvidenceRefAt(b, j, k));
      && (|found| != 1 ==> forall i: nat :: !Covers(b, p, i, j, k))
      && (|found| != 1 ==> forall i: nat | About(b, p, i, b.objects[j].ref, EvidenceRefAt(b, j, k)) ::
            exists other :: other != i && About(b, p, other, b.objects[j].ref, EvidenceRefAt(b, j, k)))
      && (|found| == 1 ==>
            && About(b, p, found[0].index, b.objects[j].ref, EvidenceRefAt(b, j, k))
            && found[0].receipt == CheckReceipt(b, p, b.objects[found[0].index].content.raw).value
            && forall i: nat | About(b, p, i, b.objects[j].ref, EvidenceRefAt(b, j, k)) :: i == found[0].index)
  {
    hide CheckReceipt, TruthBinding, AdmitReceipt, FindEntry, CandidatesFor;
    var edgeRef, evidenceRef := b.objects[j].ref, EvidenceRefAt(b, j, k);
    var found := CandidatesFor(m, edgeRef, evidenceRef);
    forall i: nat | About(b, p, i, edgeRef, evidenceRef)
      ensures Authenticated(i, CheckReceipt(b, p, b.objects[i].content.raw).value) in found
    {
    }
    assert |found| > 0 ==> found[0] in found;
    if |found| > 1 {
      assert found[0] in found && found[1] in found;
      assert found[0].index != found[1].index;
    }
  }

  method MatchPair(b: Bundle, p: Policy, m: Candidates, j: nat, k: nat) returns (fault: Option<TruthCode>, i: nat, root: string)
    requires (forall x | 0 <= x < |b.objects| :: ReceiptGood(b, p, x)) && Lists(b, p, m, |b.objects|) && Needs(b, j, k)
    ensures fault.None? ==> Covers(b, p, i, j, k) && IsReceipt(b, i) && ReceiptGood(b, p, i) && root == b.root(ReceiptAt(b, p, i))
    ensures fault.Some? ==> (forall x: nat :: !Covers(b, p, x, j, k)) && PairFault(b, p, j, k, fault.value)
    ensures fault.Some? ==> !fault.value.MissingVerifierReceipts?
  {
    hide CheckReceipt, Lists, ReceiptGood;
    i, root := 0, "";
    var edge, evidenceRef := b.objects[j].content.edge, EvidenceRefAt(b, j, k);
    var evidence := FindEntry(b.objects, evidenceRef);
    if evidence.None? { return Some(TruthEvidenceOutsideBundle), i, root; }
    var binding := TruthBinding(b.objects[j].ref, edge, evidenceRef, evidence.value);
    if binding.Bad? { return Some(binding.code), i, root; }
    OneCandidate(b, p, m, j, k);
    var found := CandidatesFor(m, b.objects[j].ref, evidenceRef);
    if |found| != 1 { return Some(VerifierReceiptCardinality), i, root; }
    var admitted := AdmitReceipt(found[0].receipt, binding.value, p);
    if admitted.Some? { return Some(admitted.value), i, root; }
    i := found[0].index;
    root := b.root(found[0].receipt);
    fault := None;
  }

  // ----- Admission --------------------------------------------------------------------------------------------------------------

  /** A receipt used: it covers some pair, and its root is one of those used. */
  ghost predicate Served(b: Bundle, p: Policy, roots: set<string>, i: nat) {
    IsReceipt(b, i) && ReceiptGood(b, p, i) && b.root(ReceiptAt(b, p, i)) in roots && HasPair(b, p, i)
  }

  ghost predicate Rooted(b: Bundle, p: Policy, i: nat, root: string) {
    IsReceipt(b, i) && ReceiptGood(b, p, i) && b.root(ReceiptAt(b, p, i)) == root
  }

  /** The receipts used so far, and the roots used, which are theirs. */
  ghost predicate Used(b: Bundle, p: Policy, roots: set<string>, indices: set<nat>) {
    && (forall i | i in indices :: Served(b, p, roots, i))
    && RootsOf(b, p, roots, indices)
    && |roots| <= |indices|
    && (DistinctRoots(b, p) ==> |roots| == |indices|)
  }

  ghost predicate RootsOf(b: Bundle, p: Policy, roots: set<string>, indices: set<nat>) {
    forall root | root in roots :: exists i :: i in indices && Rooted(b, p, i, root)
  }

  ghost predicate HasPair(b: Bundle, p: Policy, i: nat) {
    exists j: nat, k: nat :: Needs(b, j, k) && Covers(b, p, i, j, k)
  }

  ghost predicate CoveredBy(b: Bundle, p: Policy, indices: set<nat>, j: nat, k: nat)
    requires Needs(b, j, k)
  {
    exists i :: i in indices && Covers(b, p, i, j, k)
  }

  lemma UseOne(b: Bundle, p: Policy, roots: set<string>, indices: set<nat>, i: nat, j: nat, k: nat)
    requires Used(b, p, roots, indices) && Needs(b, j, k) && Covers(b, p, i, j, k) && IsReceipt(b, i) && ReceiptGood(b, p, i)
    ensures Used(b, p, roots + {b.root(ReceiptAt(b, p, i))}, indices + {i})
    ensures CoveredBy(b, p, indices + {i}, j, k)
  {
    hide Covers, Needs, IsReceipt, ReceiptGood, ReceiptAt, HasPair, CoveredBy, Rooted, DistinctRoots, Served, RootsOf;
    NowPaired(b, p, indices, i, j, k);
    var root := b.root(ReceiptAt(b, p, i));
    NowRooted(b, p, i);
    ServeOne(b, p, roots, indices, i);
    RootOne(b, p, roots, indices, i, root);
    CountOne(b, p, roots, indices, i, root);
  }

  lemma ServeOne(b: Bundle, p: Policy, roots: set<string>, indices: set<nat>, i: nat)
    requires (forall x | x in indices :: Served(b, p, roots, x)) && IsReceipt(b, i) && ReceiptGood(b, p, i) && HasPair(b, p, i)
    ensures forall x | x in indices + {i} :: Served(b, p, roots + {b.root(ReceiptAt(b, p, i))}, x)
  {
    hide IsReceipt, ReceiptGood, ReceiptAt, HasPair;
  }

  lemma RootOne(b: Bundle, p: Policy, roots: set<string>, indices: set<nat>, i: nat, root: string)
    requires RootsOf(b, p, roots, indices) && Rooted(b, p, i, root)
    ensures RootsOf(b, p, roots + {root}, indices + {i})
  {
    hide Rooted;
    forall r | r in roots + {root} ensures exists x :: x in indices + {i} && Rooted(b, p, x, r) {
      if r in roots {
        var x :| x in indices && Rooted(b, p, x, r);
        assert x in indices + {i};
      } else {
        assert i in indices + {i};
      }
    }
  }

  lemma CountOne(b: Bundle, p: Policy, roots: set<string>, indices: set<nat>, i: nat, root: string)
    requires |roots| <= |indices| && (DistinctRoots(b, p) ==> |roots| == |indices|)
    requires RootsOf(b, p, roots, indices) && Rooted(b, p, i, root) && (i in indices ==> Served(b, p, roots, i))
    ensures |roots + {root}| <= |indices + {i}| && (DistinctRoots(b, p) ==> |roots + {root}| == |indices + {i}|)
  {
    hide DistinctRoots, ReceiptAt, ReceiptGood, IsReceipt, HasPair;
    if i in indices {
      assert indices + {i} == indices && roots + {root} == roots;
    } else if root in roots {
      var x :| x in indices && Rooted(b, p, x, root);
      RootedTwice(b, p, i, x, root);
      assert roots + {root} == roots;
    }
  }

  lemma NowRooted(b: Bundle, p: Policy, i: nat)
    requires IsReceipt(b, i) && ReceiptGood(b, p, i)
    ensures Rooted(b, p, i, b.root(ReceiptAt(b, p, i)))
  {
    hide ReceiptAt, ReceiptGood, IsReceipt;
  }

  lemma RootedTwice(b: Bundle, p: Policy, i: nat, j: nat, root: string)
    requires Rooted(b, p, i, root) && Rooted(b, p, j, root) && i != j
    ensures !DistinctRoots(b, p)
  {
    hide ReceiptAt, CheckReceipt;
  }

  lemma NowPaired(b: Bundle, p: Policy, indices: set<nat>, i: nat, j: nat, k: nat)
    requires Needs(b, j, k) && Covers(b, p, i, j, k)
    ensures HasPair(b, p, i) && CoveredBy(b, p, indices + {i}, j, k)
  {
    hide Covers, Needs;
    assert i in indices + {i};
  }

  lemma StaysCovered(b: Bundle, p: Policy, indices: set<nat>, more: set<nat>, j: nat, k: nat)
    requires Needs(b, j, k) && CoveredBy(b, p, indices, j, k) && indices <= more
    ensures CoveredBy(b, p, more, j, k)
  {
    hide Covers, Needs;
  }

  /** All pairs of the first n objects are covered. */
  ghost predicate CoveredUpTo(b: Bundle, p: Policy, indices: set<nat>, n: nat) {
    forall j: nat, k: nat | Needs(b, j, k) && j < n :: CoveredBy(b, p, indices, j, k)
  }

  /** Match every pair of the edge at j. */
  method MatchEdge(b: Bundle, p: Policy, m: Candidates, j: nat, roots: set<string>, ghost indices: set<nat>)
    returns (fault: Option<TruthCode>, used: set<string>, ghost after: set<nat>)
    requires (forall x | 0 <= x < |b.objects| :: ReceiptGood(b, p, x)) && Lists(b, p, m, |b.objects|)
    requires j < |b.objects| && TruthEdge(b.objects[j].content)
    requires Used(b, p, roots, indices)
    ensures fault.Some? ==> !Matched(b, p) && Caused(b, p, fault.value) && !fault.value.MissingVerifierReceipts?
    ensures fault.None? ==>
      && EdgeListGood(b, j) && Used(b, p, used, after) && indices <= after && used != {}
      && forall k: nat | Needs(b, j, k) :: CoveredBy(b, p, after, j, k)
  {
    hide Lists, Used, Covers, Matched, ReceiptGood, CoveredBy, Caused, PairFault;
    used, after := roots, indices;
    var refs := b.objects[j].content.edge.evidenceRefs;
    if refs.None? || refs.value == [] || !SortedUnique(refs.value) {
      UnmatchedList(b, p, j);
      return Some(InvalidTruthEvidenceRefs), used, after;
    }
    for k := 0 to |refs.value|
      invariant Used(b, p, used, after) && indices <= after && (k > 0 ==> used != {})
      invariant forall x: nat | x < k :: Needs(b, j, x) && CoveredBy(b, p, after, j, x)
    {
      assert Needs(b, j, k);
      var bad, i, root := MatchPair(b, p, m, j, k);
      if bad.Some? {
        UnmatchedPair(b, p, j, k);
        PairCauses(b, p, j, k, bad.value);
        return bad, used, after;
      }
      UseOne(b, p, used, after, i, j, k);
      forall x: nat | x < k ensures CoveredBy(b, p, after + {i}, j, x) { StaysCovered(b, p, after, after + {i}, j, x); }
      used := used + {root};
      after := after + {i};
    }
    fault := None;
  }

  lemma UnmatchedList(b: Bundle, p: Policy, j: nat)
    requires j < |b.objects| && !EdgeListGood(b, j)
    ensures !Matched(b, p) && Caused(b, p, InvalidTruthEvidenceRefs)
  {
    hide ReceiptGood, EdgeListGood, Needs, Covers, IsReceipt;
  }

  lemma PairCauses(b: Bundle, p: Policy, j: nat, k: nat, code: TruthCode)
    requires Needs(b, j, k) && PairFault(b, p, j, k, code)
    ensures Caused(b, p, code)
  {
    hide PairFault, EdgeListGood, CheckReceipt;
  }

  lemma UnmatchedPair(b: Bundle, p: Policy, j: nat, k: nat)
    requires Needs(b, j, k) && forall i: nat :: !Covers(b, p, i, j, k)
    ensures !Matched(b, p)
  {
    hide ReceiptGood, EdgeListGood, Needs, Covers, IsReceipt;
  }

  /** All receipts used makes a matching; a matching uses all receipts. */
  lemma MatchedExactly(b: Bundle, p: Policy, indices: set<nat>, roots: set<string>)
    requires (forall i | 0 <= i < |b.objects| :: ReceiptGood(b, p, i)) && (forall j | 0 <= j < |b.objects| :: EdgeListGood(b, j))
    requires Used(b, p, roots, indices) && CoveredUpTo(b, p, indices, |b.objects|)
    ensures Matched(b, p) <==> forall i: nat | IsReceipt(b, i) :: i in indices
  {
    hide ReceiptGood, EdgeListGood, IsReceipt;
    forall j: nat, k: nat | Needs(b, j, k) ensures exists i: nat :: Covers(b, p, i, j, k) {
      assert CoveredBy(b, p, indices, j, k);
    }
    if Matched(b, p) {
      forall i: nat | IsReceipt(b, i) ensures i in indices {
        var j: nat, k: nat :| Needs(b, j, k) && Covers(b, p, i, j, k);
        CoverersAgree(b, p, indices, i, j, k);
      }
    }
    hide Needs, Covers;
    if forall i: nat | IsReceipt(b, i) :: i in indices {
      forall i: nat | IsReceipt(b, i) ensures exists j: nat, k: nat :: Needs(b, j, k) && Covers(b, p, i, j, k) {
        assert HasPair(b, p, i);
      }
    }
  }

  lemma CoverersAgree(b: Bundle, p: Policy, indices: set<nat>, i: nat, j: nat, k: nat)
    requires Needs(b, j, k) && Covers(b, p, i, j, k) && CoveredBy(b, p, indices, j, k)
    ensures i in indices
  {
    hide About, TruthBinding, AdmitReceipt, FindEntry, CheckReceipt;
    var x :| x in indices && Covers(b, p, x, j, k);
    assert x == i;
  }

  lemma SubsetFull(a: set<nat>, b: set<nat>)
    requires a <= b && |a| == |b|
    ensures a == b
  {
    if exists x :: x in b && x !in a {
      var x :| x in b && x !in a;
      SubsetSize(a, b - {x});
    }
  }

  // ----- The same promise, condition by condition -----------------------------------------------------------------------------

  /** The trusted key with the signer's id, of several the last, verifies the signature over
      the statement. */
  ghost predicate SignedByTrusted(b: Bundle, p: Policy, r: Receipt) {
    exists n :: 0 <= n < |p.verifiers| && p.verifiers[n].keyId == r.signerKeyId
      && (forall m | n < m < |p.verifiers| :: p.verifiers[m].keyId != r.signerKeyId)
      && b.verifies(p.verifiers[n].publicKey, r.signature, r.statement)
  }

  /** Every reference the statement names belongs to the bundle. */
  ghost predicate KeepsToBundle(s: Statement, owned: set<string>) {
    && {s.claimRef, s.recipeRef, s.evidenceRef, s.edgeRef} <= owned
    && (forall ref | ref in s.inputRoots :: ref in owned) && (forall ref | ref in s.outputRoots :: ref in owned)
    && (s.contextRef.None? || s.contextRef.value in owned)
  }

  /** The object at i decodes to this receipt, a trusted verifier signed it, and it keeps to
      the bundle. */
  ghost predicate Vouches(b: Bundle, p: Policy, i: nat, r: Receipt) {
    && i < |b.objects| && b.objects[i].content.ReceiptContent?
    && ParseReceipt(b.objects[i].content.raw, b.root) == Some(r)
    && SignedByTrusted(b, p, r) && KeepsToBundle(r.statement, b.owned)
  }

  lemma {:induction false} KeyFound(verifiers: seq<Verifier>, id: string)
    ensures var key := KeyOf(verifiers, id);
      && (key.Some? ==> exists n :: 0 <= n < |verifiers| && verifiers[n].keyId == id && verifiers[n].publicKey == key.value
                          && forall m | n < m < |verifiers| :: verifiers[m].keyId != id)
      && (key.None? ==> forall n | 0 <= n < |verifiers| :: verifiers[n].keyId != id)
  {
    if verifiers != [] && verifiers[|verifiers| - 1].keyId != id {
      var init := verifiers[..|verifiers| - 1];
      KeyFound(init, id);
      if KeyOf(init, id).Some? {
        var n :| 0 <= n < |init| && init[n].keyId == id && init[n].publicKey == KeyOf(init, id).value
          && forall m | n < m < |init| :: init[m].keyId != id;
        assert verifiers[n] == init[n];
      } else {
        assert forall n {:trigger verifiers[n]} | 0 <= n < |init| :: verifiers[n] == init[n];
      }
    }
  }

  lemma SignedExactly(b: Bundle, p: Policy, r: Receipt)
    ensures SignedByTrusted(b, p, r) <==>
      KeyOf(p.verifiers, r.signerKeyId).Some? && b.verifies(KeyOf(p.verifiers, r.signerKeyId).value, r.signature, r.statement)
  {
    KeyFound(p.verifiers, r.signerKeyId);
    hide KeyOf;
  }

  /** A receipt object passes the checks exactly when it vouches. */
  lemma CheckExactly(b: Bundle, p: Policy, i: nat, r: Receipt)
    requires IsReceipt(b, i)
    ensures CheckReceipt(b, p, b.objects[i].content.raw) == Good(r) <==> Vouches(b, p, i, r)
  {
    SignedExactly(b, p, r);
    hide ParseReceipt, KeyOf, SignedByTrusted;
  }

  /** The refs of the evidence's outputs and of its two streams, as far as they are there. */
  ghost function OutputsOf(v: Evidence): multiset<string>
    requires v.outputs.Some? && forall o | o in v.outputs.value :: o.Some?
  {
    multiset(seq(|v.outputs.value|, i requires 0 <= i < |v.outputs.value| => v.outputs.value[i].value))
    + (if v.stdoutRef == "" then multiset{} else multiset{v.stdoutRef})
    + (if v.stderrRef == "" then multiset{} else multiset{v.stderrRef})
  }

  /** The statement says of this edge and this passing evidence what they say themselves. */
  ghost predicate Corroborates(s: Statement, e: Edge, v: Evidence) {
    && ((e.edgeType == "supports" && s.result.Supports?) || (e.edgeType == "refutes" && s.result.Refutes?))
    && e.toRef == Some(s.claimRef) && e.contextRef == s.contextRef
    && v.status == Some("pass") && v.contextRef == s.contextRef && v.recipeRef == Some(s.recipeRef)
    && v.subjectRefs == Some(s.inputRoots) && s.claimRef in s.inputRoots
    && v.outputs.Some? && (forall o | o in v.outputs.value :: o.Some?) && multiset(s.outputRoots) == OutputsOf(v)
  }

  ghost predicate MeetsPolicy(s: Statement, p: Policy) {
    && (exists verifier :: verifier in p.verifiers && verifier.keyId == s.verifierId)
    && s.verifierVersion in p.versions && s.policyHash in p.policyHashes && s.toolchainHash in p.toolchainHashes
  }

  lemma OutputsExactly(s: Statement, v: Evidence)
    requires ValidStatement(s)
    ensures (OutputRefs(v).Some? && Distinct(OutputRefs(v).value) && SortBy(OutputRefs(v).value, StringLe) == s.outputRoots)
      <==> (v.outputs.Some? && (forall o | o in v.outputs.value :: o.Some?) && multiset(s.outputRoots) == OutputsOf(v))
  {
    hide ValidRefText, StringLe;
    if OutputRefs(v).Some? {
      var all := OutputRefs(v).value;
      assert multiset(all) == OutputsOf(v);
      hide OutputRefs, OutputsOf;
      if multiset(all) == multiset(s.outputRoots) { SameRoots(all, s.outputRoots); }
    }
  }

  /** A sorted list without repetition is what sorting any arrangement of it gives. */
  lemma SameRoots(all: seq<string>, sorted: seq<string>)
    requires multiset(all) == multiset(sorted) && SortedUnique(sorted)
    ensures Distinct(all) && SortBy(all, StringLe) == sorted
  {
    assert Distinct(sorted);
    DistinctAlike(all, sorted);
    assert Pairwise(all, Unequal);
    SortByPairwise(all, StringLe, Unequal);
    var out := SortBy(all, StringLe);
    assert forall i, j | 0 <= i < j < |out| :: Unequal(out[i], out[j]);
    StringOrderLinear();
    SortBySorted(all, StringLe);
    forall x, y | StringLe(x, y) && StringLe(y, x) ensures x == y { StringLeTotal(x, y); }
    forall x ensures x in out <==> x in sorted { assert x in multiset(out) <==> x in multiset(sorted); }
    hide SortBy, StringLe;
    SortedDetermined(out, sorted, StringLe);
  }

  predicate Unequal(a: string, b: string) { a != b }

  lemma StringOrderLinear()
    ensures LinearOrder(StringLe)
  {
    forall a, b ensures StringLe(a, b) || StringLe(b, a) { StringLeTotal(a, b); }
    forall a, b, c | StringLe(a, b) && StringLe(b, c) ensures StringLe(a, c) { StringLeTransitive(a, b, c); }
  }

  lemma DistinctAlike(a: seq<string>, b: seq<string>)
    requires multiset(a) == multiset(b) && Distinct(b)
    ensures Distinct(a)
  {
    DistinctOnce(b);
    forall i, j | 0 <= i < j < |a| ensures a[i] != a[j] {
      if a[i] == a[j] { Repeated(a, i, j); }
    }
  }

  lemma Repeated(a: seq<string>, i: nat, j: nat)
    requires i < j < |a| && a[i] == a[j]
    ensures multiset(a)[a[j]] >= 2
  {
    assert a == a[..j] + [a[j]] + a[j + 1..];
    assert a[..j][i] == a[j];
    assert a[j] in multiset(a[..j]);
  }

  lemma {:induction false} DistinctOnce(b: seq<string>)
    requires Distinct(b)
    ensures forall x :: multiset(b)[x] <= 1
  {
    if b != [] {
      assert b == [b[0]] + b[1..];
      DistinctOnce(b[1..]);
      assert b[0] !in b[1..];
    }
  }

  /** A binding exists and the statement agrees with it exactly when the statement is about
      this pair and corroborates it. */
  lemma BindingExactly(edgeRef: string, e: Edge, evidenceRef: string, v: Evidence, s: Statement)
    requires TruthEdge(EdgeContent(e)) && ValidStatement(s)
    ensures (TruthBinding(edgeRef, e, evidenceRef, EvidenceContent(v)).Good?
             && Agrees(s, TruthBinding(edgeRef, e, evidenceRef, EvidenceContent(v)).value))
      <==> (s.edgeRef == edgeRef && s.evidenceRef == evidenceRef && Corroborates(s, e, v))
  {
    hide OutputRefs, OutputsOf, SortBy, Distinct, SortedUnique, ValidBinding, ValidStatement;
    OutputsExactly(s, v);
    SubjectsSorted(s);
    if s.edgeRef == edgeRef && s.evidenceRef == evidenceRef && Corroborates(s, e, v) {
      var d := Binding(s.claimRef, s.contextRef, s.recipeRef, evidenceRef, edgeRef, s.inputRoots,
                       if e.edgeType == "supports" then Supports else Refutes, s.outputRoots);
      AgreedIsValid(s, d);
    }
  }

  lemma SubjectsSorted(s: Statement)
    requires ValidStatement(s)
    ensures SortedUnique(s.inputRoots)
  {
  }

  lemma AgreedIsValid(s: Statement, d: Binding)
    requires ValidStatement(s) && Agrees(s, d)
    ensures ValidBinding(d)
  {
    hide ValidRefText, ValidRootList;
  }

  lemma ParsedValid(raw: Json, root: Receipt -> string)
    ensures ParseReceipt(raw, root).Some? ==> ValidReceipt(ParseReceipt(raw, root).value)
  {
    hide ValidReceipt, ParseStatement, ValuesOf;
  }

  lemma PolicyExactly(s: Statement, p: Policy)
    ensures MeetsPolicy(s, p) <==>
      (exists i | 0 <= i < |p.verifiers| :: p.verifiers[i].keyId == s.verifierId)
      && s.verifierVersion in p.versions && s.policyHash in p.policyHashes && s.toolchainHash in p.toolchainHashes
  {
    if exists i | 0 <= i < |p.verifiers| :: p.verifiers[i].keyId == s.verifierId {
      var i :| 0 <= i < |p.verifiers| && p.verifiers[i].keyId == s.verifierId;
      assert p.verifiers[i] in p.verifiers;
    }
  }

  lemma {:induction false} EntryFound(objects: seq<Entry>, m: nat)
    requires DistinctRefs(objects) && m < |objects|
    ensures FindEntry(objects, objects[m].ref) == Some(objects[m].content)
  {
    if m > 0 {
      assert objects[0].ref != objects[m].ref;
      assert DistinctRefs(objects[1..]);
      EntryFound(objects[1..], m - 1);
    }
  }

  /** An edge of the bundle asserts support or refutation and cites this evidence. */
  ghost predicate Demands(b: Bundle, edgeRef: string, e: Edge, evidenceRef: string) {
    && Entry(edgeRef, EdgeContent(e)) in b.objects && e.edgeType in {"supports", "refutes"}
    && e.evidenceRefs.Some? && evidenceRef in e.evidenceRefs.value
  }

  /** The receipt at i, and no other receipt of the bundle, is about this pair; it meets the
      policy and corroborates the evidence the bundle holds under that ref. */
  ghost predicate Witnesses(b: Bundle, p: Policy, i: nat, edgeRef: string, e: Edge, evidenceRef: string) {
    && (exists r: Receipt, v: Evidence ::
          && Vouches(b, p, i, r) && r.statement.edgeRef == edgeRef && r.statement.evidenceRef == evidenceRef
          && Entry(evidenceRef, EvidenceContent(v)) in b.objects
          && Corroborates(r.statement, e, v) && MeetsPolicy(r.statement, p))
    && (forall other: nat, r: Receipt | Vouches(b, p, other, r) && r.statement.edgeRef == edgeRef && r.statement.evidenceRef == evidenceRef ::
          other == i)
  }

  /** Every receipt vouches, every truth-bearing edge lists evidence, sorted and without
      repetition, every pair it demands has its witness, and every receipt witnesses one. */
  ghost predicate Perfect(b: Bundle, p: Policy) {
    && (forall i: nat | IsReceipt(b, i) :: exists r :: Vouches(b, p, i, r))
    && (forall edgeRef, e: Edge | Entry(edgeRef, EdgeContent(e)) in b.objects && e.edgeType in {"supports", "refutes"} ::
          e.evidenceRefs.Some? && e.evidenceRefs.value != [] && SortedUnique(e.evidenceRefs.value))
    && (forall edgeRef, e, evidenceRef | Demands(b, edgeRef, e, evidenceRef) ::
          exists i: nat :: Witnesses(b, p, i, edgeRef, e, evidenceRef))
    && (forall i: nat | IsReceipt(b, i) ::
          exists edgeRef, e, evidenceRef :: Demands(b, edgeRef, e, evidenceRef) && Witnesses(b, p, i, edgeRef, e, evidenceRef))
  }

  lemma AboutExactly(b: Bundle, p: Policy, i: nat, edgeRef: string, evidenceRef: string)
    ensures About(b, p, i, edgeRef, evidenceRef) <==>
      exists r :: Vouches(b, p, i, r) && r.statement.edgeRef == edgeRef && r.statement.evidenceRef == evidenceRef
    ensures About(b, p, i, edgeRef, evidenceRef) ==> Vouches(b, p, i, CheckReceipt(b, p, b.objects[i].content.raw).value)
  {
    hide CheckReceipt, ParseReceipt, SignedByTrusted, KeepsToBundle;
    if i < |b.objects| && b.objects[i].content.ReceiptContent? {
      forall r ensures CheckReceipt(b, p, b.objects[i].content.raw) == Good(r) <==> Vouches(b, p, i, r) { CheckExactly(b, p, i, r); }
    }
  }

  /** The entry admission looks up is the only one with that ref. */
  lemma EntryExactly(objects: seq<Entry>, ref: string, c: Content)
    requires DistinctRefs(objects)
    ensures FindEntry(objects, ref) == Some(c) <==> Entry(ref, c) in objects
  {
    if Entry(ref, c) in objects {
      var m :| 0 <= m < |objects| && objects[m] == Entry(ref, c);
      EntryFound(objects, m);
    }
  }

  /** A vouching receipt about the pair is admitted for its binding exactly when the evidence
      is there and corroborates. */
  lemma AdmittedExactly(b: Bundle, p: Policy, r: Receipt, edgeRef: string, e: Edge, evidenceRef: string)
    requires DistinctRefs(b.objects) && TruthEdge(EdgeContent(e)) && ValidStatement(r.statement)
    requires r.statement.edgeRef == edgeRef && r.statement.evidenceRef == evidenceRef
    ensures (FindEntry(b.objects, evidenceRef).Some?
             && TruthBinding(edgeRef, e, evidenceRef, FindEntry(b.objects, evidenceRef).value).Good?
             && AdmitReceipt(r, TruthBinding(edgeRef, e, evidenceRef, FindEntry(b.objects, evidenceRef).value).value, p).None?)
      <==> (MeetsPolicy(r.statement, p)
            && exists v :: Entry(evidenceRef, EvidenceContent(v)) in b.objects && Corroborates(r.statement, e, v))
  {
    hide DistinctRefs, MeetsPolicy, Corroborates, Agrees, FindEntry, ValidStatement;
    var found := FindEntry(b.objects, evidenceRef);
    if found.Some? { EntryExactly(b.objects, evidenceRef, found.value); }
    forall v ensures found == Some(EvidenceContent(v)) <==> Entry(evidenceRef, EvidenceContent(v)) in b.objects {
      EntryExactly(b.objects, evidenceRef, EvidenceContent(v));
    }
    PolicyExactly(r.statement, p);
    if found.Some? && found.value.EvidenceContent? { BindingExactly(edgeRef, e, evidenceRef, found.value.evidence, r.statement); }
  }

  /** A receipt covers a pair exactly when it witnesses it. */
  lemma CoversExactly(b: Bundle, p: Policy, i: nat, j: nat, k: nat)
    requires DistinctRefs(b.objects) && Needs(b, j, k)
    ensures Covers(b, p, i, j, k) <==> Witnesses(b, p, i, b.objects[j].ref, b.objects[j].content.edge, EvidenceRefAt(b, j, k))
  {
    hide DistinctRefs, Vouches, CheckReceipt, TruthBinding, AdmitReceipt, FindEntry, MeetsPolicy, Corroborates;
    var edgeRef, e, evidenceRef := b.objects[j].ref, b.objects[j].content.edge, EvidenceRefAt(b, j, k);
    OnlyOne(b, p, i, edgeRef, evidenceRef);
    if About(b, p, i, edgeRef, evidenceRef) {
      AboutExactly(b, p, i, edgeRef, evidenceRef);
      AboutStates(b, p, i, edgeRef, evidenceRef);
      var r := CheckReceipt(b, p, b.objects[i].content.raw).value;
      AdmittedExactly(b, p, r, edgeRef, e, evidenceRef);
      forall other | Vouches(b, p, i, other) ensures other == r { VouchedOnce(b, p, i, other); }
    } else {
      AboutExactly(b, p, i, edgeRef, evidenceRef);
    }
  }

  lemma OnlyOne(b: Bundle, p: Policy, i: nat, edgeRef: string, evidenceRef: string)
    ensures (forall other | About(b, p, other, edgeRef, evidenceRef) :: other == i) <==>
      (forall other: nat, r: Receipt | Vouches(b, p, other, r) && r.statement.edgeRef == edgeRef && r.statement.evidenceRef == evidenceRef ::
         other == i)
  {
    hide Vouches, About;
    forall other: nat ensures About(b, p, other, edgeRef, evidenceRef) <==>
      exists r :: Vouches(b, p, other, r) && r.statement.edgeRef == edgeRef && r.statement.evidenceRef == evidenceRef
    {
      AboutExactly(b, p, other, edgeRef, evidenceRef);
    }
    forall other: nat, r | Vouches(b, p, other, r) && r.statement.edgeRef == edgeRef && r.statement.evidenceRef == evidenceRef
      ensures About(b, p, other, edgeRef, evidenceRef)
    {
      AboutExactly(b, p, other, edgeRef, evidenceRef);
    }
  }

  lemma VouchedOnce(b: Bundle, p: Policy, i: nat, r: Receipt)
    requires Vouches(b, p, i, r)
    ensures IsReceipt(b, i) && CheckReceipt(b, p, b.objects[i].content.raw) == Good(r) && ValidStatement(r.statement)
  {
    CheckExactly(b, p, i, r);
    ParsedValid(b.objects[i].content.raw, b.root);
    hide CheckReceipt, ParseReceipt, SignedByTrusted, KeepsToBundle, ValidStatement;
  }

  lemma AboutStates(b: Bundle, p: Policy, i: nat, edgeRef: string, evidenceRef: string)
    requires About(b, p, i, edgeRef, evidenceRef)
    ensures var s := CheckReceipt(b, p, b.objects[i].content.raw).value.statement;
      ValidStatement(s) && s.edgeRef == edgeRef && s.evidenceRef == evidenceRef
  {
    hide CheckReceipt, ValidStatement, Vouches;
    AboutExactly(b, p, i, edgeRef, evidenceRef);
    VouchedOnce(b, p, i, CheckReceipt(b, p, b.objects[i].content.raw).value);
  }

  /** The matching the admission loops look for is the perfect one. */
  lemma PerfectExactly(b: Bundle, p: Policy)
    requires DistinctRefs(b.objects)
    ensures Matched(b, p) <==> Perfect(b, p)
  {
    hide DistinctRefs, Vouches, CheckReceipt, TruthBinding, AdmitReceipt, FindEntry, About, Covers, Witnesses, SortedUnique;
    ReceiptsVouch(b, p);
    ListsExactly(b);
    forall i: nat, j: nat, k: nat | Needs(b, j, k)
      ensures Covers(b, p, i, j, k) <==> Witnesses(b, p, i, b.objects[j].ref, b.objects[j].content.edge, EvidenceRefAt(b, j, k))
    {
      CoversExactly(b, p, i, j, k);
    }
    forall j: nat, k: nat | Needs(b, j, k) ensures Demands(b, b.objects[j].ref, b.objects[j].content.edge, EvidenceRefAt(b, j, k)) {
      assert b.objects[j] == Entry(b.objects[j].ref, EdgeContent(b.objects[j].content.edge));
    }
    forall edgeRef, e, evidenceRef | Demands(b, edgeRef, e, evidenceRef)
      ensures exists j: nat, k: nat :: Needs(b, j, k) && b.objects[j] == Entry(edgeRef, EdgeContent(e)) && EvidenceRefAt(b, j, k) == evidenceRef
    {
      Demanded(b, edgeRef, e, evidenceRef);
    }
    hide Needs, Demands, EvidenceRefAt, ReceiptGood, EdgeListGood, IsReceipt;
  }

  lemma Demanded(b: Bundle, edgeRef: string, e: Edge, evidenceRef: string)
    requires Demands(b, edgeRef, e, evidenceRef)
    ensures exists j: nat, k: nat :: Needs(b, j, k) && b.objects[j] == Entry(edgeRef, EdgeContent(e)) && EvidenceRefAt(b, j, k) == evidenceRef
  {
    var j :| 0 <= j < |b.objects| && b.objects[j] == Entry(edgeRef, EdgeContent(e));
    var k :| 0 <= k < |e.evidenceRefs.value| && e.evidenceRefs.value[k] == evidenceRef;
    assert Needs(b, j, k);
  }

  lemma ReceiptsVouch(b: Bundle, p: Policy)
    ensures (forall i | 0 <= i < |b.objects| :: ReceiptGood(b, p, i)) <==>
      (forall i: nat | IsReceipt(b, i) :: exists r :: Vouches(b, p, i, r))
  {
    hide CheckReceipt, Vouches;
    forall i: nat, r | IsReceipt(b, i) ensures CheckReceipt(b, p, b.objects[i].content.raw) == Good(r) <==> Vouches(b, p, i, r) {
      CheckExactly(b, p, i, r);
    }
    forall i: nat | IsReceipt(b, i) ensures ReceiptGood(b, p, i) <==> exists r :: Vouches(b, p, i, r) {
      if ReceiptGood(b, p, i) {
        assert CheckReceipt(b, p, b.objects[i].content.raw) == Good(CheckReceipt(b, p, b.objects[i].content.raw).value);
      }
    }
  }

  lemma ListsExactly(b: Bundle)
    ensures (forall j | 0 <= j < |b.objects| :: EdgeListGood(b, j)) <==>
      (forall edgeRef, e: Edge | Entry(edgeRef, EdgeContent(e)) in b.objects && e.edgeType in {"supports", "refutes"} ::
         e.evidenceRefs.Some? && e.evidenceRefs.value != [] && SortedUnique(e.evidenceRefs.value))
  {
    hide SortedUnique;
    if forall j | 0 <= j < |b.objects| :: EdgeListGood(b, j) {
      forall edgeRef, e: Edge | Entry(edgeRef, EdgeContent(e)) in b.objects && e.edgeType in {"supports", "refutes"}
        ensures e.evidenceRefs.Some? && e.evidenceRefs.value != [] && SortedUnique(e.evidenceRefs.value)
      {
        var j :| 0 <= j < |b.objects| && b.objects[j] == Entry(edgeRef, EdgeContent(e));
        assert EdgeListGood(b, j);
      }
    } else {
      var j :| 0 <= j < |b.objects| && !EdgeListGood(b, j);
      assert b.objects[j] == Entry(b.objects[j].ref, EdgeContent(b.objects[j].content.edge));
    }
  }

  /** No two receipts share a root, as a collision-free hash of the receipt makes it. */
  ghost predicate CollisionFree(root: Receipt -> string) {
    forall r: Receipt, s: Receipt :: root(r) == root(s) ==> r == s
  }

  /** Then a perfect matching has distinct roots: equal receipts would be about one pair, and
      the matching covers it by one. */
  lemma MatchedRootsDistinct(b: Bundle, p: Policy)
    requires Matched(b, p) && CollisionFree(b.root)
    ensures DistinctRoots(b, p)
  {
    hide CheckReceipt, TruthBinding, AdmitReceipt, FindEntry;
    forall i: nat, j: nat | IsReceipt(b, i) && IsReceipt(b, j) && ReceiptGood(b, p, i) && ReceiptGood(b, p, j)
      && b.root(ReceiptAt(b, p, i)) == b.root(ReceiptAt(b, p, j))
      ensures i == j
    {
      assert ReceiptAt(b, p, i) == ReceiptAt(b, p, j);
      var e: nat, k: nat :| Needs(b, e, k) && Covers(b, p, i, e, k);
      assert About(b, p, j, b.objects[e].ref, EvidenceRefAt(b, e, k));
    }
  }

  /** Admission under trusted receipts succeeds only on a perfect matching of receipts and
      pairs, and, as roots do not collide, on every one; under quarantine nothing is admitted
      as truth. */
  method AdmitTrustedTruth(b: Bundle, p: Policy) returns (r: Admission)
    requires DistinctRefs(b.objects)
    ensures p.quarantined ==> r == Admitted({})
    ensures !p.quarantined && r.Admitted? ==>
      && Perfect(b, p)
      && forall root :: root in r.roots <==> Vouched(b, p, root)
    ensures !p.quarantined && Perfect(b, p) && DistinctRoots(b, p) ==> r.Admitted?
    ensures !p.quarantined && CollisionFree(b.root) ==> (r.Admitted? <==> Perfect(b, p))
    ensures r.Rejected? ==> Caused(b, p, r.code) || (r.code.UnboundVerifierReceipt? && !(Perfect(b, p) && DistinctRoots(b, p)))
    ensures r.Rejected? ==> !r.code.MissingVerifierReceipts?
  {
    hide Lists, Matched, Perfect, Vouched, Caused, DistinctRoots, DistinctRefs, CollisionFree, Used, CoveredUpTo, EdgeListGood, ReceiptGood, IsReceipt;
    if p.quarantined { return Admitted({}); }
    Summary(b, p);
    var bad, m, receiptRefs, all := CollectReceipts(b, p);
    if bad.Some? { return Rejected(bad.value); }
    var used: set<string> := {};
    ghost var indices: set<nat> := {};
    var truthEdges := 0;
    NothingUsed(b, p);
    for j := 0 to |b.objects|
      invariant forall x | 0 <= x < j :: EdgeListGood(b, x)
      invariant Used(b, p, used, indices) && CoveredUpTo(b, p, indices, j)
      invariant truthEdges > 0 ==> used != {}
    {
      NoTruthHere(b, p, indices, j);
      if TruthEdge(b.objects[j].content) {
        truthEdges := truthEdges + 1;
        var fault, next, after := MatchEdge(b, p, m, j, used, indices);
        if fault.Some? { return Rejected(fault.value); }
        CoverNext(b, p, indices, after, j);
        used, indices := next, after;
      }
    }
    Conclude(b, p, used, indices, all, receiptRefs);
    if receiptRefs != {} && |used| != |receiptRefs| { return Rejected(UnboundVerifierReceipt); }
    if truthEdges > 0 && used == {} { return Rejected(MissingVerifierReceipts); }
    r := Admitted(used);
  }

  /** Some vouching receipt has this root. */
  ghost predicate Vouched(b: Bundle, p: Policy, root: string) {
    exists i: nat, r :: Vouches(b, p, i, r) && b.root(r) == root
  }

  lemma VouchedExactly(b: Bundle, p: Policy, root: string)
    ensures Vouched(b, p, root) <==> exists i: nat :: Rooted(b, p, i, root)
  {
    hide CheckReceipt, Vouches;
    forall i: nat, r | Vouches(b, p, i, r) && b.root(r) == root ensures Rooted(b, p, i, root) { VouchedOnce(b, p, i, r); }
    if i: nat :| Rooted(b, p, i, root) {
      CheckExactly(b, p, i, ReceiptAt(b, p, i));
      assert Vouches(b, p, i, ReceiptAt(b, p, i));
    }
  }

  lemma Summary(b: Bundle, p: Policy)
    requires DistinctRefs(b.objects)
    ensures Matched(b, p) <==> Perfect(b, p)
    ensures Matched(b, p) && CollisionFree(b.root) ==> DistinctRoots(b, p)
  {
    hide Matched, Perfect, DistinctRefs, CollisionFree, DistinctRoots;
    PerfectExactly(b, p);
    if Matched(b, p) && CollisionFree(b.root) { MatchedRootsDistinct(b, p); }
  }

  lemma NothingUsed(b: Bundle, p: Policy)
    ensures Used(b, p, {}, {}) && CoveredUpTo(b, p, {}, 0)
  {
  }

  lemma NoTruthHere(b: Bundle, p: Policy, indices: set<nat>, j: nat)
    requires j < |b.objects| && CoveredUpTo(b, p, indices, j)
    ensures !TruthEdge(b.objects[j].content) ==> EdgeListGood(b, j) && CoveredUpTo(b, p, indices, j + 1)
  {
    hide CoveredBy;
  }

  lemma CoverNext(b: Bundle, p: Policy, indices: set<nat>, after: set<nat>, j: nat)
    requires CoveredUpTo(b, p, indices, j) && indices <= after
    requires forall k: nat | Needs(b, j, k) :: CoveredBy(b, p, after, j, k)
    ensures CoveredUpTo(b, p, after, j + 1)
  {
    hide CoveredBy, Needs;
    forall x: nat, k: nat | Needs(b, x, k) && x < j + 1 ensures CoveredBy(b, p, after, x, k) {
      if x < j { StaysCovered(b, p, indices, after, x, k); }
    }
  }

  /** The final count decides whether every receipt was used. */
  lemma Conclude(b: Bundle, p: Policy, used: set<string>, indices: set<nat>, all: set<nat>, receiptRefs: set<string>)
    requires (forall i | 0 <= i < |b.objects| :: ReceiptGood(b, p, i)) && (forall j | 0 <= j < |b.objects| :: EdgeListGood(b, j))
    requires Used(b, p, used, indices) && CoveredUpTo(b, p, indices, |b.objects|)
    requires |receiptRefs| == |all| && forall i: nat :: i in all <==> IsReceipt(b, i)
    ensures receiptRefs == {} || |used| == |receiptRefs| ==>
      Matched(b, p) && forall root :: root in used <==> Vouched(b, p, root)
    ensures Matched(b, p) && DistinctRoots(b, p) ==> |used| == |receiptRefs|
  {
    hide ReceiptGood, EdgeListGood, IsReceipt, CoveredUpTo, Matched, HasPair, ReceiptAt, DistinctRoots, Vouched;
    assert indices <= all;
    SubsetSize(indices, all);
    MatchedExactly(b, p, indices, used);
    if receiptRefs == {} || |used| == |receiptRefs| {
      SubsetFull(indices, all);
      forall root ensures root in used <==> Vouched(b, p, root) { VouchedExactly(b, p, root); }
    }
    if Matched(b, p) { assert indices == all; }
  }
}
