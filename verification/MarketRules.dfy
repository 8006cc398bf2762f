/** The rules of the market on their own: when each command commits and what it then
    changes, in terms of the bounty's terms, the policy, the lists of the state and the
    command. The transition follows these rules and no others. */
module MarketRules {
  import opened Prelude
  import opened MarketTypes
  import opened MarketInvariants
  import opened Market
  import opened MarketValidity
  import opened MarketOutcomes

  // ----- When a command commits -----------------------------------------------------------------------

  /** The evidence holds the cited receipt, it states exactly this, and the named verifier
      issued it. */
  ghost predicate Cites(evidence: seq<VerifierReceipt>, ref: Ref, statement: VerifierStatement, verifierRef: Ref) {
    exists r :: r in evidence && ref == ReceiptRef(r) && r.statement == statement && verifierRef == KeyRef(r.publicKey)
  }

  ghost predicate OpenRule(s: BountyState, c: MarketCommand, p: MarketPolicy)
    requires c.OpenBounty?
  {
    && s.phase.Draft? && c.now < s.terms.deadline && c.sponsorRef == s.terms.sponsorRef
    && c.funded >= s.terms.reward && c.funded >= p.minimumBounty
    && (c.funded == s.terms.reward || c.funded == p.minimumBounty)
  }

  ghost predicate SubmitRule(s: BountyState, c: MarketCommand, p: MarketPolicy)
    requires c.SubmitCandidate?
  {
    && s.phase.Open? && c.now <= s.terms.deadline
    && ValidId(c.submissionId) && c.submitterRef != ""
    && (forall i | 0 <= i < |s.submissions| :: s.submissions[i].submissionId != c.submissionId)
    && c.recipeRef in s.terms.acceptedRecipeRefs && c.verifierRef in s.terms.acceptedVerifierRefs
    && c.evidenceRefs != [] && ValidRefs(c.evidenceRefs + c.artifactRefs)
    && c.bond >= s.terms.minimumSubmissionBond && c.bond >= p.minimumSubmissionBond
  }

  /** The submission at i awaits this verdict from this verifier, who gave it in the cited
      receipt, for this very state and policy. */
  ghost predicate Judges(s: BountyState, c: MarketCommand, p: MarketPolicy, evidence: seq<VerifierReceipt>, i: nat)
    requires c.VerifySubmission?
  {
    && i < |s.submissions|
    && var sub := s.submissions[i];
    && sub.submissionId == c.submissionId && sub.status.Pending? && sub.verifierRef == c.verifierRef
    && Cites(evidence, c.receiptRef,
             SubmissionStatement(StateHash(s), PolicyHash(p), s.terms.bountyId, s.terms.claimRef, s.terms.contextRef,
                                 c.submissionId, sub.recipeRef, sub.evidenceRefs, sub.artifactRefs, c.accepted),
             c.verifierRef)
  }

  ghost predicate VerifyRule(s: BountyState, c: MarketCommand, p: MarketPolicy, evidence: seq<VerifierReceipt>)
    requires c.VerifySubmission?
  {
    && s.phase.Open? && c.now <= s.terms.deadline + s.terms.challengeWindow
    && c.verifierRef in s.terms.acceptedVerifierRefs
    && exists i: nat :: Judges(s, c, p, evidence, i)
  }

  ghost predicate DisputeRule(s: BountyState, c: MarketCommand, p: MarketPolicy)
    requires c.OpenChallenge?
  {
    && s.phase.Open? && c.now <= s.terms.deadline + s.terms.challengeWindow
    && ValidId(c.challengeId) && c.challengerRef != ""
    && (forall i | 0 <= i < |s.challenges| :: s.challenges[i].challengeId != c.challengeId)
    && (exists i :: 0 <= i < |s.submissions| && s.submissions[i].submissionId == c.submissionId && s.submissions[i].status.Verified?)
    && (forall i | 0 <= i < |s.challenges| && s.challenges[i].submissionId == c.submissionId :: !s.challenges[i].status.ChallengeOpen?)
    && c.findingKind in p.slashableFindings
    && c.evidenceRefs != [] && ValidRefs(c.evidenceRefs)
    && c.deposit >= p.minimumChallengeDeposit
  }

  /** The challenge at i is open and still adjudicable, and the cited receipt decides it. */
  ghost predicate Settles(s: BountyState, c: MarketCommand, p: MarketPolicy, evidence: seq<VerifierReceipt>, i: nat)
    requires c.ResolveChallenge?
  {
    && i < |s.challenges|
    && var ch := s.challenges[i];
    && ch.challengeId == c.challengeId && ch.status.ChallengeOpen?
    && (c.now <= s.terms.deadline + s.terms.challengeWindow || c.now <= ch.openedAt + p.resolutionSeconds)
    && Cites(evidence, c.receiptRef,
             ChallengeStatement(StateHash(s), PolicyHash(p), s.terms.bountyId, s.terms.claimRef, s.terms.contextRef,
                                c.challengeId, ch.submissionId, ch.findingKind, ch.evidenceRefs, c.upheld),
             c.verifierRef)
  }

  ghost predicate ResolveRule(s: BountyState, c: MarketCommand, p: MarketPolicy, evidence: seq<VerifierReceipt>)
    requires c.ResolveChallenge?
  {
    s.phase.Open? && c.verifierRef in s.terms.acceptedVerifierRefs && exists i: nat :: Settles(s, c, p, evidence, i)
  }

  /** The challenge window is over and so is the time to resolve each open challenge. */
  ghost predicate AdvanceRule(s: BountyState, c: MarketCommand, p: MarketPolicy)
    requires c.AdvanceBounty?
  {
    && s.phase.Open? && c.now > s.terms.deadline + s.terms.challengeWindow
    && forall i | 0 <= i < |s.challenges| && s.challenges[i].status.ChallengeOpen? ::
         c.now > s.challenges[i].openedAt + p.resolutionSeconds
  }

  /** The running totals of the payouts. */
  ghost predicate Totals(payouts: seq<Payout>, sums: seq<nat>) {
    && |sums| == |payouts| + 1 && sums[0] == 0
    && forall k | 0 <= k < |payouts| :: sums[k + 1] == sums[k] + payouts[k].amount
  }

  ghost predicate Pays(s: BountyState, payout: Payout) {
    && payout.submissionId in s.payableIds
    && exists i :: 0 <= i < |s.submissions| && s.submissions[i].submissionId == payout.submissionId
                   && s.submissions[i].submitterRef == payout.recipientRef
  }

  ghost predicate SettleRule(s: BountyState, c: MarketCommand)
    requires c.SettleBounty?
  {
    && s.phase.Payable? && c.settlementRef != "" && c.payouts != []
    && (forall k | 0 <= k < |c.payouts| :: Pays(s, c.payouts[k]))
    && (forall j, k | 0 <= j < k < |c.payouts| :: c.payouts[j].submissionId != c.payouts[k].submissionId)
    && exists sums :: Totals(c.payouts, sums) && sums[|c.payouts|] == s.escrowLocked
  }

  ghost predicate CancelRule(s: BountyState, c: MarketCommand)
    requires c.CancelBounty?
  {
    && s.phase.Open? && c.now < s.terms.deadline && c.sponsorRef == s.terms.sponsorRef
    && s.submissions == [] && s.challenges == []
  }

  ghost predicate Rule(s: BountyState, c: MarketCommand, p: MarketPolicy, evidence: seq<VerifierReceipt>) {
    match c
    case OpenBounty(_, _, _, _) => OpenRule(s, c, p)
    case SubmitCandidate(_, _, _, _, _, _, _, _, _) => SubmitRule(s, c, p)
    case VerifySubmission(_, _, _, _, _, _) => VerifyRule(s, c, p, evidence)
    case OpenChallenge(_, _, _, _, _, _, _, _) => DisputeRule(s, c, p)
    case ResolveChallenge(_, _, _, _, _, _) => ResolveRule(s, c, p, evidence)
    case AdvanceBounty(_, _) => AdvanceRule(s, c, p)
    case SettleBounty(_, _, _, _) => SettleRule(s, c)
    case CancelBounty(_, _, _) => CancelRule(s, c)
  }

  /** What every command needs: a fresh id, a time, a usable policy, and receipts that their
      keys signed, none of them twice. */
  ghost predicate WellMade(s: BountyState, c: MarketCommand, p: MarketPolicy, evidence: seq<VerifierReceipt>) {
    && ValidId(c.commandId) && c.commandId !in s.processed && c.now >= 0
    && p.slashableFindings != {} && "" !in p.slashableFindings && p.treasuryRef != "" && p.version != "" && p.resolutionSeconds >= 0
    && (forall r | r in evidence :: r.signature == Signed(r.publicKey, r.statement))
    && (forall i, j | 0 <= i < j < |evidence| :: evidence[i] != evidence[j])
  }

  // ----- The handlers follow the rules -----------------------------------------------------------------

  lemma ReceiptFound(evidence: seq<VerifierReceipt>, ref: Ref)
    ensures FindReceipt(evidence, ref).Some? <==> exists r :: r in evidence && ref == ReceiptRef(r)
    ensures FindReceipt(evidence, ref).Some? ==> ref == ReceiptRef(FindReceipt(evidence, ref).value)
  {
    hide FindReceipt;
  }

  /** Admission passes exactly on a citation of an authentic receipt of an accepted verifier. */
  lemma AdmissionExactly(evidence: seq<VerifierReceipt>, ref: Ref, expected: VerifierStatement, verifierRef: Ref,
                         subject: Option<Ref>, terms: BountyTerms)
    requires forall i | 0 <= i < |evidence| :: Authentic(evidence[i])
    ensures AdmissionFault(evidence, ref, expected, verifierRef, subject, terms).None? <==>
      (Cites(evidence, ref, expected, verifierRef) && (subject.Some? ==> subject.value == verifierRef)
       && verifierRef in terms.acceptedVerifierRefs)
  {
    hide FindReceipt, Authentic;
    ReceiptFound(evidence, ref);
  }

  lemma OpenFollows(s: BountyState, c: MarketCommand, p: MarketPolicy)
    requires c.OpenBounty?
    ensures DecideOpen(s, c, p).Committed() <==> OpenRule(s, c, p)
  {
  }

  lemma SubmitFollows(s: BountyState, c: MarketCommand, p: MarketPolicy)
    requires c.SubmitCandidate? && ValidTerms(s.terms)
    ensures DecideSubmit(s, c, p).Committed() <==> SubmitRule(s, c, p)
  {
    hide FindSubmission, ValidId, ValidRef;
    assert ValidRefs(c.evidenceRefs + c.artifactRefs) <==> ValidRefs(c.evidenceRefs) && ValidRefs(c.artifactRefs) by {
      RefsJoined(c.evidenceRefs, c.artifactRefs);
    }
    hide ValidRefs;
    if exists i | 0 <= i < |s.submissions| :: s.submissions[i].submissionId == c.submissionId {
      var found := FindSubmission(s.submissions, c.submissionId);
    }
  }

  lemma RefsJoined(a: seq<Ref>, b: seq<Ref>)
    ensures ValidRefs(a + b) <==> ValidRefs(a) && ValidRefs(b)
  {
    hide ValidRef;
    forall i | 0 <= i < |b| ensures b[i] == (a + b)[|a| + i] { }
    forall i | 0 <= i < |a| ensures a[i] == (a + b)[i] { }
  }

  lemma VerifyFollows(s: BountyState, c: MarketCommand, p: MarketPolicy, evidence: seq<VerifierReceipt>)
    requires c.VerifySubmission? && ValidState(s) && ValidEvidence(evidence)
    ensures DecideVerify(s, c, p, evidence).Committed() <==> VerifyRule(s, c, p, evidence)
  {
    hide ValidState, ValidEvidence, AdmissionFault, ApplyVerdict, Cites, FindSubmission, ValidId;
    assert UniqueSubmissions(s.submissions) && ValidSubmissions(s.submissions) by { ListsSound(s); }
    forall i: nat | i < |s.submissions| && s.submissions[i].submissionId == c.submissionId
      ensures FindSubmission(s.submissions, c.submissionId) == Some(s.submissions[i]) && ValidId(c.submissionId)
    {
      FindSubmissionAt(s.submissions, i);
      assert ValidSubmission(s.submissions[i]);
    }
    var found := FindSubmission(s.submissions, c.submissionId);
    if found.Some? {
      var at: nat :| at < |s.submissions| && s.submissions[at] == found.value;
      hide ValidSubmission, UniqueSubmissions, ValidSubmissions;
      assert (exists i: nat :: Judges(s, c, p, evidence, i)) <==> Judges(s, c, p, evidence, at);
      AuthenticEvidence(evidence);
      AdmissionExactly(evidence, c.receiptRef, SubmissionStatementFor(s, c.accepted, p, found.value), c.verifierRef,
                       Some(found.value.verifierRef), s.terms);
      CitedIsReference(evidence, c.receiptRef, SubmissionStatementFor(s, c.accepted, p, found.value), c.verifierRef);
      if s.phase.Open? { VerdictCommits(s, c, found.value); }
    }
  }

  lemma VerdictCommits(s: BountyState, c: MarketCommand, sub: SubmissionState)
    requires c.VerifySubmission? && s.phase.Open?
    ensures ApplyVerdict(s, c, sub).Committed()
  {
    hide PutSubmission;
  }

  lemma ResolutionCommits(s: BountyState, c: MarketCommand, p: MarketPolicy, ch: ChallengeState, sub: SubmissionState)
    requires c.ResolveChallenge? && s.phase.Open?
    ensures ApplyResolution(s, c, p, ch, sub).Committed()
  {
    hide PutSubmission, PutChallenge;
  }

  lemma ListsSound(s: BountyState)
    requires ValidState(s)
    ensures UniqueSubmissions(s.submissions) && ValidSubmissions(s.submissions)
    ensures UniqueChallenges(s.challenges) && ValidChallenges(s.challenges) && ReferencesResolve(s.submissions, s.challenges)
  {
  }

  lemma AuthenticEvidence(evidence: seq<VerifierReceipt>)
    requires ValidEvidence(evidence)
    ensures forall i | 0 <= i < |evidence| :: Authentic(evidence[i])
  {
  }

  lemma CitedIsReference(evidence: seq<VerifierReceipt>, ref: Ref, statement: VerifierStatement, verifierRef: Ref)
    ensures Cites(evidence, ref, statement, verifierRef) ==> ValidRef(ref) && ValidRef(verifierRef)
  {
  }

  lemma ChallengeFollows(s: BountyState, c: MarketCommand, p: MarketPolicy)
    requires c.OpenChallenge? && ValidState(s) && "" !in p.slashableFindings
    ensures DecideChallenge(s, c, p).Committed() <==> DisputeRule(s, c, p)
  {
    hide ValidState, FindSubmission, FindChallenge, ValidId, ValidRefs;
    assert UniqueSubmissions(s.submissions) && ValidSubmissions(s.submissions) by { ListsSound(s); }
    forall i: nat | i < |s.submissions| && s.submissions[i].submissionId == c.submissionId
      ensures FindSubmission(s.submissions, c.submissionId) == Some(s.submissions[i]) && ValidId(c.submissionId)
    {
      FindSubmissionAt(s.submissions, i);
      assert ValidSubmission(s.submissions[i]);
    }
    hide ValidSubmission, UniqueSubmissions, ValidSubmissions;
    var found := FindSubmission(s.submissions, c.submissionId);
    if found.Some? {
      var at :| 0 <= at < |s.submissions| && s.submissions[at] == found.value;
    }
  }

  lemma ResolveFollows(s: BountyState, c: MarketCommand, p: MarketPolicy, evidence: seq<VerifierReceipt>)
    requires c.ResolveChallenge? && ValidState(s) && ValidEvidence(evidence)
    ensures DecideResolve(s, c, p, evidence).Committed() <==> ResolveRule(s, c, p, evidence)
  {
    hide ValidState, ValidEvidence, AdmissionFault, ApplyResolution, Cites, FindSubmission, FindChallenge, ValidId;
    assert UniqueChallenges(s.challenges) && ValidChallenges(s.challenges) && ReferencesResolve(s.submissions, s.challenges) by { ListsSound(s); }
    forall i: nat | i < |s.challenges| && s.challenges[i].challengeId == c.challengeId
      ensures FindChallenge(s.challenges, c.challengeId) == Some(s.challenges[i]) && ValidId(c.challengeId)
    {
      FindChallengeAt(s.challenges, i);
      assert ValidChallenge(s.challenges[i]);
    }
    var found := FindChallenge(s.challenges, c.challengeId);
    if found.Some? {
      var at: nat :| at < |s.challenges| && s.challenges[at] == found.value;
      assert (exists i: nat :: Settles(s, c, p, evidence, i)) <==> Settles(s, c, p, evidence, at);
      assert HasSubmission(s.submissions, found.value.submissionId);
      hide ValidChallenge, UniqueChallenges, ValidChallenges, ReferencesResolve;
      AuthenticEvidence(evidence);
      AdmissionExactly(evidence, c.receiptRef, ChallengeStatementFor(s, c.upheld, p, found.value), c.verifierRef, None, s.terms);
      CitedIsReference(evidence, c.receiptRef, ChallengeStatementFor(s, c.upheld, p, found.value), c.verifierRef);
      if s.phase.Open? { ResolutionCommits(s, c, p, found.value, FindSubmission(s.submissions, found.value.submissionId).value); }
    }
  }

  lemma AdvanceFollows(s: BountyState, c: MarketCommand, p: MarketPolicy)
    requires c.AdvanceBounty?
    ensures DecideAdvance(s, c, p).Committed() <==> AdvanceRule(s, c, p)
  {
    hide EligibleIds, TimeoutEffects, CloseOpen, ReleaseBonds, BondRefunds;
  }

  lemma CancelFollows(s: BountyState, c: MarketCommand)
    requires c.CancelBounty?
    ensures DecideCancel(s, c).Committed() <==> CancelRule(s, c)
  {
  }

  lemma {:induction false} TotalsExactly(payouts: seq<Payout>, sums: seq<nat>)
    requires Totals(payouts, sums)
    ensures sums[|payouts|] == PayoutTotal(payouts)
  {
    if payouts != [] { TotalsExactly(payouts[..|payouts| - 1], sums[..|payouts|]); }
  }

  lemma {:induction false} TotalsExist(payouts: seq<Payout>) returns (sums: seq<nat>)
    ensures Totals(payouts, sums)
  {
    sums := [0];
    if payouts != [] {
      var init := TotalsExist(payouts[..|payouts| - 1]);
      sums := init + [init[|payouts| - 1] + payouts[|payouts| - 1].amount];
    }
  }

  lemma PaysExactly(s: BountyState, payout: Payout)
    requires UniqueSubmissions(s.submissions)
    ensures Pays(s, payout) <==>
      EligibleSubmission(s, payout.submissionId).Some?
      && EligibleSubmission(s, payout.submissionId).value.submitterRef == payout.recipientRef
  {
    hide FindSubmission;
    if i: nat :| i < |s.submissions| && s.submissions[i].submissionId == payout.submissionId && s.submissions[i].submitterRef == payout.recipientRef {
      FindSubmissionAt(s.submissions, i);
    }
    var found := FindSubmission(s.submissions, payout.submissionId);
    if found.Some? {
      var at :| 0 <= at < |s.submissions| && s.submissions[at] == found.value;
    }
  }

  lemma PaidIsNamed(s: BountyState, payout: Payout)
    requires ValidSubmissions(s.submissions) && Pays(s, payout)
    ensures ValidId(payout.submissionId) && payout.recipientRef != ""
  {
    var i :| 0 <= i < |s.submissions| && s.submissions[i].submissionId == payout.submissionId && s.submissions[i].submitterRef == payout.recipientRef;
    assert ValidSubmission(s.submissions[i]);
  }

  lemma FaultsExactly(s: BountyState, payouts: seq<Payout>)
    requires UniqueSubmissions(s.submissions)
    ensures FirstPayoutFault(s, payouts, 0).None? <==>
      (forall k | 0 <= k < |payouts| :: Pays(s, payouts[k]))
      && (forall j, k | 0 <= j < k < |payouts| :: payouts[j].submissionId != payouts[k].submissionId)
  {
    hide FirstPayoutFault, UniqueSubmissions, Pays, EligibleSubmission;
    forall k | 0 <= k < |payouts| ensures PayoutFault(s, payouts, k).None? <==>
      Pays(s, payouts[k]) && forall j | 0 <= j < k :: payouts[j].submissionId != payouts[k].submissionId
    {
      PaysExactly(s, payouts[k]);
    }
    if FirstPayoutFault(s, payouts, 0).None? {
      forall k | 0 <= k < |payouts| ensures PayoutFault(s, payouts, k).None? { NoPayoutFault(s, payouts, 0, k); }
    } else if forall k | 0 <= k < |payouts| :: PayoutFault(s, payouts, k).None? {
      FirstPayoutFaultAt(s, payouts, 0, |payouts|);
      NoMoreFaults(s, payouts);
    }
  }

  lemma NoMoreFaults(s: BountyState, payouts: seq<Payout>)
    ensures FirstPayoutFault(s, payouts, |payouts|).None?
  {
  }

  lemma SettleFollows(s: BountyState, c: MarketCommand)
    requires c.SettleBounty? && ValidState(s)
    ensures DecideSettle(s, c).Committed() <==> SettleRule(s, c)
  {
    hide ValidState, FirstPayoutFault, PayoutTotal, Totals, Pays, ValidId, ReleaseBonds, BondRefunds, PayoutEffects;
    assert UniqueSubmissions(s.submissions) && ValidSubmissions(s.submissions) by { ListsSound(s); }
    hide UniqueSubmissions, ValidSubmissions;
    FaultsExactly(s, c.payouts);
    forall k | 0 <= k < |c.payouts| && Pays(s, c.payouts[k])
      ensures ValidId(c.payouts[k].submissionId) && c.payouts[k].recipientRef != ""
    {
      PaidIsNamed(s, c.payouts[k]);
    }
    var sums := TotalsExist(c.payouts);
    forall sums: seq<nat> | Totals(c.payouts, sums) ensures |sums| == |c.payouts| + 1 && sums[|c.payouts|] == PayoutTotal(c.payouts) {
      TotalsExactly(c.payouts, sums);
      TotalsLength(c.payouts, sums);
    }
  }

  lemma TotalsLength(payouts: seq<Payout>, sums: seq<nat>)
    requires Totals(payouts, sums)
    ensures |sums| == |payouts| + 1
  {
  }

  lemma HandlersFollow(s: BountyState, c: MarketCommand, p: MarketPolicy, evidence: seq<VerifierReceipt>)
    requires ValidState(s) && ValidEvidence(evidence) && "" !in p.slashableFindings
    ensures Dispatch(s, c, p, evidence).Committed() <==> Rule(s, c, p, evidence)
  {
    hide ValidState, ValidEvidence, DecideOpen, DecideSubmit, DecideVerify, DecideChallenge, DecideResolve, DecideAdvance, DecideSettle, DecideCancel;
    hide OpenRule, SubmitRule, VerifyRule, DisputeRule, ResolveRule, AdvanceRule, SettleRule, CancelRule;
    match c {
      case OpenBounty(_, _, _, _) => OpenFollows(s, c, p);
      case SubmitCandidate(_, _, _, _, _, _, _, _, _) => SubmitFollows(s, c, p) by { ValidStateParts(s); }
      case VerifySubmission(_, _, _, _, _, _) => VerifyFollows(s, c, p, evidence);
      case OpenChallenge(_, _, _, _, _, _, _, _) => ChallengeFollows(s, c, p);
      case ResolveChallenge(_, _, _, _, _, _) => ResolveFollows(s, c, p, evidence);
      case AdvanceBounty(_, _) => AdvanceFollows(s, c, p);
      case SettleBounty(_, _, _, _) => SettleFollows(s, c);
      case CancelBounty(_, _, _) => CancelFollows(s, c);
    }
  }

  /** A cited receipt fits every command that follows its rule. */
  lemma RuleBinds(s: BountyState, c: MarketCommand, p: MarketPolicy, evidence: seq<VerifierReceipt>)
    requires ValidState(s) && Rule(s, c, p, evidence)
    ensures BindingFault(s, c, p, evidence).None?
  {
    hide ValidState, FindReceipt, FindSubmission, FindChallenge, OpenRule, SubmitRule, DisputeRule, AdvanceRule, SettleRule, CancelRule;
    ListsSound(s);
    if c.VerifySubmission? {
      var i: nat :| Judges(s, c, p, evidence, i);
      FindSubmissionAt(s.submissions, i);
      ReceiptFound(evidence, c.receiptRef);
    }
    if c.ResolveChallenge? {
      var i: nat :| Settles(s, c, p, evidence, i);
      FindChallengeAt(s.challenges, i);
      ReceiptFound(evidence, c.receiptRef);
    }
  }

  lemma RuleChecks(s: BountyState, c: MarketCommand, p: MarketPolicy, evidence: seq<VerifierReceipt>)
    requires WellMade(s, c, p, evidence) && Rule(s, c, p, evidence)
    ensures CommonFault(c).None?
  {
    hide ValidId, OpenRule, VerifyRule, ResolveRule, AdvanceRule, SettleRule, CancelRule, ValidRefs;
    if c.SubmitCandidate? { RefsJoined(c.evidenceRefs, c.artifactRefs); }
  }

  lemma WellMadeExactly(s: BountyState, c: MarketCommand, p: MarketPolicy, evidence: seq<VerifierReceipt>)
    ensures WellMade(s, c, p, evidence) <==>
      (ValidId(c.commandId) && c.commandId !in s.processed && c.now >= 0 && ValidPolicy(p) && ValidEvidence(evidence))
  {
    hide ValidId;
  }

  /** A command commits exactly when the state is valid, the command is well made and its
      rule holds. */
  lemma CommitsExactly(s: BountyState, c: MarketCommand, p: MarketPolicy, evidence: seq<VerifierReceipt>)
    ensures ApplyMarketCommand(s, c, p, evidence).Committed() <==>
      ValidState(s) && WellMade(s, c, p, evidence) && Rule(s, c, p, evidence)
  {
    hide ValidState, ValidEvidence, Dispatch, Rule, WellMade, ValidId, BindingFault;
    WellMadeExactly(s, c, p, evidence);
    if ValidState(s) && ValidPolicy(p) && ValidEvidence(evidence) {
      HandlersFollow(s, c, p, evidence);
      if WellMade(s, c, p, evidence) && Rule(s, c, p, evidence) {
        RuleBinds(s, c, p, evidence);
        RuleChecks(s, c, p, evidence);
      }
    }
  }
}
