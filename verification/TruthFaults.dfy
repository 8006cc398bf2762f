/** What each refusal of trusted truth means: the objects of the bundle that call for it. */
module TruthFaults {
  import opened Prelude
  import opened CanonicalJson
  import opened VerifierReceipts
  import opened TrustedTruth

  // ----- Faults of a receipt ------------------------------------------------------------------------------------

  /** A receipt object that decodes to r. */
  ghost predicate Holds(b: Bundle, i: nat, r: Receipt) {
    i < |b.objects| && b.objects[i].content.ReceiptContent? && ParseReceipt(b.objects[i].content.raw, b.root) == Some(r)
  }

  ghost predicate Trusted(p: Policy, id: string) { exists v :: v in p.verifiers && v.keyId == id }

  ghost predicate ReceiptFlaw(b: Bundle, p: Policy, code: TruthCode) {
    match code
    case InvalidVerifierReceipt => exists raw, ref :: Entry(ref, ReceiptContent(raw)) in b.objects && ParseReceipt(raw, b.root).None?
    case UntrustedVerifier => exists i: nat, r :: Holds(b, i, r) && !Trusted(p, r.signerKeyId)
    case InvalidVerifierSignature => exists i: nat, r :: Holds(b, i, r) && Trusted(p, r.signerKeyId) && !SignedByTrusted(b, p, r)
    case ReceiptRefOutsideBundle => exists i: nat, r :: Holds(b, i, r) && SignedByTrusted(b, p, r) && !KeepsToBundle(r.statement, b.owned)
    case _ => false
  }

  lemma TrustedExactly(p: Policy, id: string)
    ensures Trusted(p, id) <==> KeyOf(p.verifiers, id).Some?
  {
    KeyFound(p.verifiers, id);
    hide KeyOf;
    if Trusted(p, id) {
      var v :| v in p.verifiers && v.keyId == id;
      var n :| 0 <= n < |p.verifiers| && p.verifiers[n] == v;
      assert p.verifiers[n].keyId == id;
    }
  }

  lemma OwnsExactly(s: Statement, owned: set<string>)
    ensures OwnsReferences(s, owned) <==> KeepsToBundle(s, owned)
  {
  }

  lemma ReceiptRefused(b: Bundle, p: Policy, i: nat, code: TruthCode)
    requires IsReceipt(b, i) && CheckReceipt(b, p, b.objects[i].content.raw) == Bad(code)
    ensures ReceiptFlaw(b, p, code)
  {
    hide ParseReceipt, KeyOf, Trusted, SignedByTrusted, OwnsReferences, KeepsToBundle;
    var raw := b.objects[i].content.raw;
    var parsed := ParseReceipt(raw, b.root);
    if parsed.Some? {
      var r := parsed.value;
      assert Holds(b, i, r);
      hide Holds;
      TrustedExactly(p, r.signerKeyId);
      SignedExactly(b, p, r);
      OwnsExactly(r.statement, b.owned);
    } else {
      assert b.objects[i] == Entry(b.objects[i].ref, ReceiptContent(raw));
    }
  }

  // ----- Faults of a pair -----------------------------------------------------------------------------------------

  ghost predicate Text(refs: seq<string>) { forall ref | ref in refs :: ValidRefText(ref) }

  /** Some reference of the pair is missing or not a reference, or the subjects are unsorted. */
  ghost predicate Unbindable(edgeRef: string, e: Edge, evidenceRef: string, v: Evidence) {
    || v.recipeRef.None? || e.toRef.None? || v.outputs.None? || v.subjectRefs.None?
    || !Text([edgeRef, evidenceRef, e.toRef.value, v.recipeRef.value]) || !Text(v.subjectRefs.value)
    || (e.contextRef.Some? && !ValidRefText(e.contextRef.value))
    || (exists o :: o in v.outputs.value && (o.None? || !ValidRefText(o.value)))
    || (v.stdoutRef != "" && !ValidRefText(v.stdoutRef)) || (v.stderrRef != "" && !ValidRefText(v.stderrRef))
  }

  /** What is wrong with the evidence itself, for this edge. */
  ghost predicate EvidenceFlaw(edgeRef: string, e: Edge, evidenceRef: string, v: Evidence, code: TruthCode) {
    match code
    case TruthEvidenceNotPassing => v.status != Some("pass")
    case TruthInputRootsMismatch =>
      v.subjectRefs.None? || !SortedUnique(v.subjectRefs.value) || e.toRef.None? || e.toRef.value !in v.subjectRefs.value
    case TruthContextMismatch => e.contextRef != v.contextRef
    case InvalidTruthOutputs => v.outputs.None? || exists o :: o in v.outputs.value && o.None?
    case DuplicateTruthOutput =>
      v.outputs.Some? && (forall o | o in v.outputs.value :: o.Some?) && exists ref :: OutputsOf(v)[ref] > 1
    case InvalidTruthBinding => Unbindable(edgeRef, e, evidenceRef, v)
    case _ => false
  }

  /** What is wrong with a receipt about the pair, or with the number of them. */
  ghost predicate MatchFlaw(b: Bundle, p: Policy, edgeRef: string, e: Edge, evidenceRef: string, code: TruthCode) {
    match code
    case VerifierReceiptCardinality =>
      forall i: nat, r | Speaks(b, p, i, r, edgeRef, evidenceRef) ::
        exists other: nat, o :: other != i && Speaks(b, p, other, o, edgeRef, evidenceRef)
    case UnacceptedVerifierVersion =>
      exists i: nat, r :: Speaks(b, p, i, r, edgeRef, evidenceRef) && r.statement.verifierVersion !in p.versions
    case ReceiptPolicyMismatch =>
      exists i: nat, r :: Speaks(b, p, i, r, edgeRef, evidenceRef) && r.statement.policyHash !in p.policyHashes
    case ToolchainMismatch =>
      exists i: nat, r :: Speaks(b, p, i, r, edgeRef, evidenceRef) && r.statement.toolchainHash !in p.toolchainHashes
    case ReplayBindingMismatch =>
      exists i: nat, r, v :: Speaks(b, p, i, r, edgeRef, evidenceRef) && Entry(evidenceRef, EvidenceContent(v)) in b.objects
        && !Corroborates(r.statement, e, v)
    case _ => false
  }

  /** A vouching receipt about this pair. */
  ghost predicate Speaks(b: Bundle, p: Policy, i: nat, r: Receipt, edgeRef: string, evidenceRef: string) {
    Vouches(b, p, i, r) && r.statement.edgeRef == edgeRef && r.statement.evidenceRef == evidenceRef
  }

  ghost predicate PairFlaw(b: Bundle, p: Policy, edgeRef: string, e: Edge, evidenceRef: string, code: TruthCode) {
    || (code.TruthEvidenceOutsideBundle? && forall c :: Entry(evidenceRef, c) !in b.objects)
    || (code.TruthEvidenceSchemaMismatch? && exists c: Content :: Entry(evidenceRef, c) in b.objects && !c.EvidenceContent?)
    || (exists v :: Entry(evidenceRef, EvidenceContent(v)) in b.objects && EvidenceFlaw(edgeRef, e, evidenceRef, v, code))
    || MatchFlaw(b, p, edgeRef, e, evidenceRef, code)
  }

  /** Something in the bundle is wrong in the way the code says. */
  ghost predicate Flaw(b: Bundle, p: Policy, code: TruthCode) {
    || ReceiptFlaw(b, p, code)
    || (code.InvalidTruthEvidenceRefs?
        && exists edgeRef, e: Edge :: Entry(edgeRef, EdgeContent(e)) in b.objects && e.edgeType in {"supports", "refutes"}
             && (e.evidenceRefs.None? || e.evidenceRefs.value == [] || !SortedUnique(e.evidenceRefs.value)))
    || (exists edgeRef, e, evidenceRef :: Demands(b, edgeRef, e, evidenceRef) && PairFlaw(b, p, edgeRef, e, evidenceRef, code))
  }

  lemma BindingRefused(edgeRef: string, e: Edge, evidenceRef: string, v: Evidence, code: TruthCode)
    requires TruthEdge(EdgeContent(e)) && TruthBinding(edgeRef, e, evidenceRef, EvidenceContent(v)) == Bad(code)
    ensures EvidenceFlaw(edgeRef, e, evidenceRef, v, code)
  {
    hide ValidRefText, StringLe, SortBy, SortedUnique, Distinct, OutputRefs, OutputsOf, ValidBinding, Unbindable;
    OutputsThere(v);
    if code.DuplicateTruthOutput? { RepeatedOutput(v); }
    if code.InvalidTruthBinding? { BindingTexts(edgeRef, e, evidenceRef, v); }
  }

  lemma OutputsThere(v: Evidence)
    ensures OutputRefs(v).Some? <==> v.outputs.Some? && forall o | o in v.outputs.value :: o.Some?
  {
  }

  lemma RepeatedOutput(v: Evidence)
    requires OutputRefs(v).Some? && !Distinct(OutputRefs(v).value)
    ensures v.outputs.Some? && (forall o | o in v.outputs.value :: o.Some?) && exists ref :: OutputsOf(v)[ref] > 1
  {
    var all := OutputRefs(v).value;
    assert multiset(all) == OutputsOf(v);
    var i, j :| 0 <= i < j < |all| && all[i] == all[j];
    Repeated(all, i, j);
    assert OutputsOf(v)[all[j]] > 1;
  }

  /** References without repetition sort to a root list. */
  lemma SortedRoots(refs: seq<string>)
    requires Distinct(refs) && Text(refs)
    ensures ValidRootList(SortBy(refs, StringLe))
  {
    hide ValidRefText, StringLe, SortBy;
    StringOrderLinear();
    SortBySorted(refs, StringLe);
    SortByElements(refs, StringLe);
    SortByPairwise(refs, StringLe, Unequal);
    var out := SortBy(refs, StringLe);
    assert forall i | 0 <= i < |out| :: out[i] in out;
    assert forall i, j | 0 <= i < j < |out| :: Unequal(out[i], out[j]);
  }

  lemma OutputTexts(v: Evidence)
    requires OutputRefs(v).Some?
    requires forall o | o in v.outputs.value :: o.Some? && ValidRefText(o.value)
    requires (v.stdoutRef != "" ==> ValidRefText(v.stdoutRef)) && (v.stderrRef != "" ==> ValidRefText(v.stderrRef))
    ensures Text(OutputRefs(v).value)
  {
    hide ValidRefText;
  }

  lemma BindingTexts(edgeRef: string, e: Edge, evidenceRef: string, v: Evidence)
    requires TruthEdge(EdgeContent(e)) && TruthBinding(edgeRef, e, evidenceRef, EvidenceContent(v)) == Bad(InvalidTruthBinding)
    ensures Unbindable(edgeRef, e, evidenceRef, v)
  {
    hide ValidRefText, StringLe, SortBy, SortedUnique, Distinct, OutputRefs, ValidRootList;
    OutputsThere(v);
    if !Unbindable(edgeRef, e, evidenceRef, v) {
      OutputTexts(v);
      SortedRoots(OutputRefs(v).value);
      SubjectRoots(v.subjectRefs.value);
      assert forall x | x in [edgeRef, evidenceRef, e.toRef.value, v.recipeRef.value] :: ValidRefText(x);
    }
  }

  lemma SubjectRoots(refs: seq<string>)
    requires SortedUnique(refs) && Text(refs)
    ensures ValidRootList(refs)
  {
    hide ValidRefText, SortedUnique;
  }

  lemma SpeaksExactly(b: Bundle, p: Policy, i: nat, edgeRef: string, evidenceRef: string)
    ensures About(b, p, i, edgeRef, evidenceRef) <==> exists r :: Speaks(b, p, i, r, edgeRef, evidenceRef)
    ensures About(b, p, i, edgeRef, evidenceRef) ==>
      Speaks(b, p, i, CheckReceipt(b, p, b.objects[i].content.raw).value, edgeRef, evidenceRef)
  {
    AboutExactly(b, p, i, edgeRef, evidenceRef);
    hide CheckReceipt, Vouches;
  }

  /** A receipt that passed the checks names a trusted verifier. */
  lemma VouchedTrusted(b: Bundle, p: Policy, i: nat, r: Receipt)
    requires Vouches(b, p, i, r)
    ensures ValidStatement(r.statement) && exists n | 0 <= n < |p.verifiers| :: p.verifiers[n].keyId == r.statement.verifierId
  {
    ParsedValid(b.objects[i].content.raw, b.root);
    hide ParseReceipt, KeepsToBundle, ValidStatement;
  }

  /** The checks of a receipt's admission, one by one. */
  lemma AdmissionCodes(r: Receipt, d: TrustedTruth.Binding, p: Policy, code: TruthCode)
    requires AdmitReceipt(r, d, p) == Some(code)
    requires exists n | 0 <= n < |p.verifiers| :: p.verifiers[n].keyId == r.statement.verifierId
    ensures || (code.UnacceptedVerifierVersion? && r.statement.verifierVersion !in p.versions)
            || (code.ReceiptPolicyMismatch? && r.statement.policyHash !in p.policyHashes)
            || (code.ToolchainMismatch? && r.statement.toolchainHash !in p.toolchainHashes)
            || (code.ReplayBindingMismatch? && !Agrees(r.statement, d))
  {
    hide Agrees;
  }

  lemma AdmissionRefused(b: Bundle, p: Policy, i: nat, r: Receipt, edgeRef: string, e: Edge, evidenceRef: string, v: Evidence, code: TruthCode)
    requires Speaks(b, p, i, r, edgeRef, evidenceRef) && TruthEdge(EdgeContent(e)) && Entry(evidenceRef, EvidenceContent(v)) in b.objects
    requires TruthBinding(edgeRef, e, evidenceRef, EvidenceContent(v)).Good?
    requires AdmitReceipt(r, TruthBinding(edgeRef, e, evidenceRef, EvidenceContent(v)).value, p) == Some(code)
    ensures MatchFlaw(b, p, edgeRef, e, evidenceRef, code)
  {
    hide TruthBinding, ValidStatement, Corroborates, Agrees, AdmitReceipt, Vouches;
    VouchedTrusted(b, p, i, r);
    AdmissionCodes(r, TruthBinding(edgeRef, e, evidenceRef, EvidenceContent(v)).value, p, code);
    BindingExactly(edgeRef, e, evidenceRef, v, r.statement);
    assert r.statement.edgeRef == edgeRef && r.statement.evidenceRef == evidenceRef;
    hide Speaks;
  }

  lemma PairRefused(b: Bundle, p: Policy, j: nat, k: nat, code: TruthCode)
    requires DistinctRefs(b.objects) && Needs(b, j, k) && PairFault(b, p, j, k, code)
    ensures PairFlaw(b, p, b.objects[j].ref, b.objects[j].content.edge, EvidenceRefAt(b, j, k), code)
  {
    hide DistinctRefs, FindEntry, TruthBinding, AdmitReceipt, CheckReceipt, EvidenceFlaw, MatchFlaw, About, Speaks;
    var edgeRef, e, evidenceRef := b.objects[j].ref, b.objects[j].content.edge, EvidenceRefAt(b, j, k);
    forall c ensures FindEntry(b.objects, evidenceRef) == Some(c) <==> Entry(evidenceRef, c) in b.objects {
      EntryExactly(b.objects, evidenceRef, c);
    }
    var found := FindEntry(b.objects, evidenceRef);
    if found.Some? {
      var binding := TruthBinding(edgeRef, e, evidenceRef, found.value);
      if !found.value.EvidenceContent? {
        assert binding == Bad(TruthEvidenceSchemaMismatch) by { WrongSchema(edgeRef, e, evidenceRef, found.value); }
      } else if binding.Bad? {
        BindingRefused(edgeRef, e, evidenceRef, found.value.evidence, code);
      } else {
        MatchRefused(b, p, j, k, found.value.evidence, code);
      }
    }
  }

  lemma WrongSchema(edgeRef: string, e: Edge, evidenceRef: string, c: Content)
    requires TruthEdge(EdgeContent(e)) && !c.EvidenceContent?
    ensures TruthBinding(edgeRef, e, evidenceRef, c) == Bad(TruthEvidenceSchemaMismatch)
  {
  }

  lemma CountRefused(b: Bundle, p: Policy, edgeRef: string, e: Edge, evidenceRef: string)
    requires forall i: nat | About(b, p, i, edgeRef, evidenceRef) :: exists other :: other != i && About(b, p, other, edgeRef, evidenceRef)
    ensures MatchFlaw(b, p, edgeRef, e, evidenceRef, VerifierReceiptCardinality)
  {
    hide About, Speaks;
    forall i: nat, r | Speaks(b, p, i, r, edgeRef, evidenceRef)
      ensures exists other: nat, o :: other != i && Speaks(b, p, other, o, edgeRef, evidenceRef)
    {
      SpeaksExactly(b, p, i, edgeRef, evidenceRef);
      var other: nat :| other != i && About(b, p, other, edgeRef, evidenceRef);
      SpeaksExactly(b, p, other, edgeRef, evidenceRef);
    }
  }

  lemma MatchRefused(b: Bundle, p: Policy, j: nat, k: nat, v: Evidence, code: TruthCode)
    requires Needs(b, j, k) && PairFault(b, p, j, k, code)
    requires FindEntry(b.objects, EvidenceRefAt(b, j, k)) == Some(EvidenceContent(v))
    requires Entry(EvidenceRefAt(b, j, k), EvidenceContent(v)) in b.objects
    requires TruthBinding(b.objects[j].ref, b.objects[j].content.edge, EvidenceRefAt(b, j, k), EvidenceContent(v)).Good?
    ensures MatchFlaw(b, p, b.objects[j].ref, b.objects[j].content.edge, EvidenceRefAt(b, j, k), code)
  {
    hide FindEntry, TruthBinding, AdmitReceipt, CheckReceipt, Speaks, MatchFlaw;
    var edgeRef, e, evidenceRef := b.objects[j].ref, b.objects[j].content.edge, EvidenceRefAt(b, j, k);
    var binding := TruthBinding(edgeRef, e, evidenceRef, EvidenceContent(v)).value;
    if Refusing(b, p, edgeRef, evidenceRef, binding, code) {
      var i: nat :| About(b, p, i, edgeRef, evidenceRef) && AdmitReceipt(CheckReceipt(b, p, b.objects[i].content.raw).value, binding, p) == Some(code);
      SpeaksExactly(b, p, i, edgeRef, evidenceRef);
      AdmissionRefused(b, p, i, CheckReceipt(b, p, b.objects[i].content.raw).value, edgeRef, e, evidenceRef, v, code);
    } else {
      hide About;
      CountRefused(b, p, edgeRef, e, evidenceRef);
    }
  }

  /** A receipt about the pair is refused with this code. */
  ghost predicate Refusing(b: Bundle, p: Policy, edgeRef: string, evidenceRef: string, binding: TrustedTruth.Binding, code: TruthCode) {
    exists i: nat :: About(b, p, i, edgeRef, evidenceRef) && AdmitReceipt(CheckReceipt(b, p, b.objects[i].content.raw).value, binding, p) == Some(code)
  }

  /** Every refusal but that of an unneeded receipt names something wrong in the bundle. */
  lemma RefusalsTruthful(b: Bundle, p: Policy, code: TruthCode)
    requires DistinctRefs(b.objects) && Caused(b, p, code)
    ensures Flaw(b, p, code)
  {
    hide DistinctRefs, CheckReceipt, PairFault, PairFlaw, ReceiptFlaw, SortedUnique;
    if i: nat :| IsReceipt(b, i) && CheckReceipt(b, p, b.objects[i].content.raw) == Bad(code) {
      ReceiptRefused(b, p, i, code);
    } else if j: nat, k: nat :| Needs(b, j, k) && PairFault(b, p, j, k, code) {
      PairRefused(b, p, j, k, code);
      assert b.objects[j] == Entry(b.objects[j].ref, EdgeContent(b.objects[j].content.edge));
      assert Demands(b, b.objects[j].ref, b.objects[j].content.edge, EvidenceRefAt(b, j, k));
    } else {
      var j: nat :| j < |b.objects| && !EdgeListGood(b, j);
      assert b.objects[j] == Entry(b.objects[j].ref, EdgeContent(b.objects[j].content.edge));
    }
  }
}
