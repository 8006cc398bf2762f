/** What each refusal of the market means: its code and field name something that is really
    wrong. And the entry point, held to the rules, the changes and the refusals. */
module MarketRefusals {
  import opened Prelude
  import opened MarketTypes
  import opened MarketInvariants
  import opened Market
  import opened MarketValidity
  import opened MarketRules
  import opened MarketChanges

  datatype Refusal = Refusal(code: RejectCode, field: string)

  // ----- What each refusal says ------------------------------------------------------------------------

  ghost predicate Unusable(s: BountyState, c: MarketCommand, p: MarketPolicy, evidence: seq<VerifierReceipt>, r: Refusal) {
    || (r == Refusal(InvalidState, "state") && !ValidState(s))
    || (r == Refusal(InvalidPolicy, "policy")
        && (p.slashableFindings == {} || "" in p.slashableFindings || p.treasuryRef == "" || p.version == "" || p.resolutionSeconds < 0))
    || (r == Refusal(InvalidCommand, "command_id") && !ValidId(c.commandId))
    || (r == Refusal(InvalidCommand, "now_epoch_s") && c.now < 0)
    || (r == Refusal(InvalidEvidence, "evidence")
        && ((exists x :: x in evidence && x.signature != Signed(x.publicKey, x.statement))
            || (exists i, j :: 0 <= i < j < |evidence| && evidence[i] == evidence[j])))
    || (r == Refusal(DuplicateCommand, "command_id") && c.commandId in s.processed)
  }

  ghost predicate OpenWrong(s: BountyState, c: MarketCommand, p: MarketPolicy, r: Refusal)
    requires c.OpenBounty?
  {
    || (r == Refusal(WrongPhase, "phase") && !s.phase.Draft?)
    || (r == Refusal(TimeWindow, "deadline") && c.now >= s.terms.deadline)
    || (r == Refusal(PolicyMismatch, "sponsor_ref") && c.sponsorRef != s.terms.sponsorRef)
    || (r == Refusal(InsufficientAmount, "funded")
        && (c.funded < s.terms.reward || c.funded < p.minimumBounty || (c.funded > s.terms.reward && c.funded > p.minimumBounty)))
  }

  /** Some submission has this id. */
  ghost predicate Known(s: BountyState, id: string) {
    exists i :: 0 <= i < |s.submissions| && s.submissions[i].submissionId == id
  }

  ghost predicate KnownChallenge(s: BountyState, id: string) {
    exists i :: 0 <= i < |s.challenges| && s.challenges[i].challengeId == id
  }

  ghost predicate SubmitWrong(s: BountyState, c: MarketCommand, p: MarketPolicy, r: Refusal)
    requires c.SubmitCandidate?
  {
    || (r == Refusal(InvalidCommand, "submit_candidate") && !ValidRefs(c.evidenceRefs + c.artifactRefs))
    || (r == Refusal(InvalidCommand, "submission") && (!ValidId(c.submissionId) || c.submitterRef == ""))
    || (r == Refusal(InvalidCommand, "recipe_or_verifier_ref") && !(ValidRef(c.recipeRef) && ValidRef(c.verifierRef)))
    || (r == Refusal(WrongPhase, "phase") && !s.phase.Open?)
    || (r == Refusal(TimeWindow, "deadline") && c.now > s.terms.deadline)
    || (r == Refusal(DuplicateEntity, "submission_id") && Known(s, c.submissionId))
    || (r == Refusal(PolicyMismatch, "recipe_ref") && c.recipeRef !in s.terms.acceptedRecipeRefs)
    || (r == Refusal(PolicyMismatch, "verifier_ref") && c.verifierRef !in s.terms.acceptedVerifierRefs)
    || (r == Refusal(MissingEvidence, "evidence_refs") && c.evidenceRefs == [])
    || (r == Refusal(InsufficientAmount, "bond") && (c.bond < s.terms.minimumSubmissionBond || c.bond < p.minimumSubmissionBond))
  }

  /** The receipt does not state this verdict on this submission for this state and policy. */
  ghost predicate OffVerdict(s: BountyState, c: MarketCommand, p: MarketPolicy, st: VerifierStatement)
    requires c.VerifySubmission?
  {
    || (forall recipe, evidence, artifacts ::
          st != SubmissionStatement(StateHash(s), PolicyHash(p), s.terms.bountyId, s.terms.claimRef, s.terms.contextRef,
                                    c.submissionId, recipe, evidence, artifacts, c.accepted))
    || (exists i :: 0 <= i < |s.submissions| && s.submissions[i].submissionId == c.submissionId && st.SubmissionStatement?
          && (st.recipeRef, st.evidenceRefs, st.artifactRefs)
             != (s.submissions[i].recipeRef, s.submissions[i].evidenceRefs, s.submissions[i].artifactRefs))
  }

  ghost predicate VerifyWrong(s: BountyState, c: MarketCommand, p: MarketPolicy, evidence: seq<VerifierReceipt>, r: Refusal)
    requires c.VerifySubmission?
  {
    || (r == Refusal(InvalidCommand, "submission_or_verifier") && !(ValidId(c.submissionId) && ValidRef(c.verifierRef)))
    || (r == Refusal(InvalidCommand, "verifier_receipt_ref") && !ValidRef(c.receiptRef))
    || (r == Refusal(InvalidEvidence, "verifier_receipt")
        && exists x :: x in evidence && c.receiptRef == ReceiptRef(x) && OffVerdict(s, c, p, x.statement))
    || (r == Refusal(InvalidEvidence, "verifier_ref")
        && exists x :: x in evidence && c.receiptRef == ReceiptRef(x)
             && (KeyRef(x.publicKey) != c.verifierRef
                 || exists i :: 0 <= i < |s.submissions| && s.submissions[i].submissionId == c.submissionId
                                && KeyRef(x.publicKey) != s.submissions[i].verifierRef))
    || (r == Refusal(WrongPhase, "phase") && !s.phase.Open?)
    || (r == Refusal(TimeWindow, "challenge_deadline") && c.now > s.terms.deadline + s.terms.challengeWindow)
    || (r == Refusal(UnknownEntity, "submission_id") && !Known(s, c.submissionId))
    || (r == Refusal(PolicyMismatch, "submission_status")
        && exists i :: 0 <= i < |s.submissions| && s.submissions[i].submissionId == c.submissionId && !s.submissions[i].status.Pending?)
    || (r == Refusal(PolicyMismatch, "verifier_ref")
        && (c.verifierRef !in s.terms.acceptedVerifierRefs
            || exists i :: 0 <= i < |s.submissions| && s.submissions[i].submissionId == c.submissionId
                           && s.submissions[i].verifierRef != c.verifierRef))
    || (r == Refusal(MissingEvidence, "verifier_receipt_ref") && forall x | x in evidence :: c.receiptRef != ReceiptRef(x))
  }

  ghost predicate ChallengeWrong(s: BountyState, c: MarketCommand, p: MarketPolicy, r: Refusal)
    requires c.OpenChallenge?
  {
    || (r == Refusal(InvalidCommand, "open_challenge") && !ValidRefs(c.evidenceRefs))
    || (r == Refusal(InvalidCommand, "challenge_or_submission_id") && !(ValidId(c.challengeId) && ValidId(c.submissionId)))
    || (r == Refusal(InvalidCommand, "challenger_or_finding") && (c.challengerRef == "" || c.findingKind == ""))
    || (r == Refusal(WrongPhase, "phase") && !s.phase.Open?)
    || (r == Refusal(TimeWindow, "challenge_deadline") && c.now > s.terms.deadline + s.terms.challengeWindow)
    || (r == Refusal(DuplicateEntity, "challenge_id") && KnownChallenge(s, c.challengeId))
    || (r == Refusal(UnknownEntity, "submission_id") && !Known(s, c.submissionId))
    || (r == Refusal(PolicyMismatch, "submission_status")
        && exists i :: 0 <= i < |s.submissions| && s.submissions[i].submissionId == c.submissionId && !s.submissions[i].status.Verified?)
    || (r == Refusal(PolicyMismatch, "submission_id")
        && exists i :: 0 <= i < |s.challenges| && s.challenges[i].submissionId == c.submissionId && s.challenges[i].status.ChallengeOpen?)
    || (r == Refusal(PolicyMismatch, "finding_kind") && c.findingKind !in p.slashableFindings)
    || (r == Refusal(MissingEvidence, "evidence_refs") && c.evidenceRefs == [])
    || (r == Refusal(InsufficientAmount, "deposit") && c.deposit < p.minimumChallengeDeposit)
  }

  ghost predicate OffResolution(s: BountyState, c: MarketCommand, p: MarketPolicy, st: VerifierStatement)
    requires c.ResolveChallenge?
  {
    || (forall submission, finding, evidence ::
          st != ChallengeStatement(StateHash(s), PolicyHash(p), s.terms.bountyId, s.terms.claimRef, s.terms.contextRef,
                                   c.challengeId, submission, finding, evidence, c.upheld))
    || (exists j :: 0 <= j < |s.challenges| && s.challenges[j].challengeId == c.challengeId && st.ChallengeStatement?
          && (st.submissionId, st.findingKind, st.evidenceRefs)
             != (s.challenges[j].submissionId, s.challenges[j].findingKind, s.challenges[j].evidenceRefs))
  }

  ghost predicate ResolveWrong(s: BountyState, c: MarketCommand, p: MarketPolicy, evidence: seq<VerifierReceipt>, r: Refusal)
    requires c.ResolveChallenge?
  {
    || (r == Refusal(InvalidCommand, "challenge_or_verifier") && !(ValidId(c.challengeId) && ValidRef(c.verifierRef)))
    || (r == Refusal(InvalidCommand, "verifier_receipt_ref") && !ValidRef(c.receiptRef))
    || (r == Refusal(InvalidEvidence, "verifier_receipt")
        && exists x :: x in evidence && c.receiptRef == ReceiptRef(x) && OffResolution(s, c, p, x.statement))
    || (r == Refusal(InvalidEvidence, "verifier_ref")
        && exists x :: x in evidence && c.receiptRef == ReceiptRef(x) && KeyRef(x.publicKey) != c.verifierRef)
    || (r == Refusal(WrongPhase, "phase") && !s.phase.Open?)
    || (r == Refusal(UnknownEntity, "challenge_id") && !KnownChallenge(s, c.challengeId))
    || (r == Refusal(PolicyMismatch, "challenge_status")
        && exists j :: 0 <= j < |s.challenges| && s.challenges[j].challengeId == c.challengeId && !s.challenges[j].status.ChallengeOpen?)
    || (r == Refusal(TimeWindow, "resolution_deadline")
        && c.now > s.terms.deadline + s.terms.challengeWindow
        && exists j :: 0 <= j < |s.challenges| && s.challenges[j].challengeId == c.challengeId
                       && c.now > s.challenges[j].openedAt + p.resolutionSeconds)
    || (r == Refusal(PolicyMismatch, "verifier_ref") && c.verifierRef !in s.terms.acceptedVerifierRefs)
    || (r == Refusal(MissingEvidence, "verifier_receipt_ref") && forall x | x in evidence :: c.receiptRef != ReceiptRef(x))
  }

  ghost predicate AdvanceWrong(s: BountyState, c: MarketCommand, p: MarketPolicy, r: Refusal)
    requires c.AdvanceBounty?
  {
    || (r == Refusal(WrongPhase, "phase") && !s.phase.Open?)
    || (r == Refusal(TimeWindow, "challenge_deadline") && c.now <= s.terms.deadline + s.terms.challengeWindow)
    || (r == Refusal(PolicyMismatch, "challenges")
        && exists j :: 0 <= j < |s.challenges| && s.challenges[j].status.ChallengeOpen?
                       && c.now <= s.challenges[j].openedAt + p.resolutionSeconds)
  }

  ghost predicate SettleWrong(s: BountyState, c: MarketCommand, r: Refusal)
    requires c.SettleBounty?
  {
    || (r == Refusal(InvalidCommand, "settlement_ref") && c.settlementRef == "")
    || (r == Refusal(InvalidCommand, "payout")
        && exists k :: 0 <= k < |c.payouts| && (!ValidId(c.payouts[k].submissionId) || c.payouts[k].recipientRef == ""))
    || (r == Refusal(WrongPhase, "phase") && !s.phase.Payable?)
    || (r == Refusal(MissingEvidence, "payouts") && c.payouts == [])
    || (r == Refusal(UnknownEntity, "submission_id")
        && exists k :: 0 <= k < |c.payouts| && c.payouts[k].submissionId !in s.payableIds)
    || (r == Refusal(DuplicateEntity, "submission_id")
        && exists j, k :: 0 <= j < k < |c.payouts| && c.payouts[j].submissionId == c.payouts[k].submissionId)
    || (r == Refusal(PolicyMismatch, "recipient_ref")
        && exists k, i :: 0 <= k < |c.payouts| && 0 <= i < |s.submissions|
             && s.submissions[i].submissionId == c.payouts[k].submissionId && s.submissions[i].submitterRef != c.payouts[k].recipientRef)
    || (r == Refusal(ConservationFailure, "payouts")
        && exists sums :: Totals(c.payouts, sums) && sums[|c.payouts|] != s.escrowLocked)
  }

  ghost predicate CancelWrong(s: BountyState, c: MarketCommand, r: Refusal)
    requires c.CancelBounty?
  {
    || (r == Refusal(WrongPhase, "phase") && !s.phase.Open?)
    || (r == Refusal(TimeWindow, "deadline") && c.now >= s.terms.deadline)
    || (r == Refusal(PolicyMismatch, "market_activity") && (s.submissions != [] || s.challenges != []))
    || (r == Refusal(PolicyMismatch, "sponsor_ref") && c.sponsorRef != s.terms.sponsorRef)
  }

  ghost predicate Wrong(s: BountyState, c: MarketCommand, p: MarketPolicy, evidence: seq<VerifierReceipt>, r: Refusal) {
    Unusable(s, c, p, evidence, r)
    || match c
       case OpenBounty(_, _, _, _) => OpenWrong(s, c, p, r)
       case SubmitCandidate(_, _, _, _, _, _, _, _, _) => SubmitWrong(s, c, p, r)
       case VerifySubmission(_, _, _, _, _, _) => VerifyWrong(s, c, p, evidence, r)
       case OpenChallenge(_, _, _, _, _, _, _, _) => ChallengeWrong(s, c, p, r)
       case ResolveChallenge(_, _, _, _, _, _) => ResolveWrong(s, c, p, evidence, r)
       case AdvanceBounty(_, _) => AdvanceWrong(s, c, p, r)
       case SettleBounty(_, _, _, _) => SettleWrong(s, c, r)
       case CancelBounty(_, _, _) => CancelWrong(s, c, r)
  }

  function Named(d: Decision): Refusal
    requires d.Reject?
  {
    Refusal(d.code, d.field)
  }

  // ----- The handlers refuse truthfully -----------------------------------------------------------------

  lemma OtherTruthful(s: BountyState, c: MarketCommand, p: MarketPolicy, evidence: seq<VerifierReceipt>)
    requires c.OpenBounty? || c.CancelBounty? || c.AdvanceBounty?
    requires Dispatch(s, c, p, evidence).Reject?
    ensures Wrong(s, c, p, evidence, Named(Dispatch(s, c, p, evidence)))
  {
    hide Unusable, EligibleIds, TimeoutEffects, BondRefunds, CloseOpen, ReleaseBonds;
  }

  lemma SubmitTruthful(s: BountyState, c: MarketCommand, p: MarketPolicy)
    requires c.SubmitCandidate? && CommonFault(c).None? && DecideSubmit(s, c, p).Reject?
    ensures SubmitWrong(s, c, p, Named(DecideSubmit(s, c, p)))
  {
    hide ValidId, ValidRef, FindSubmission, ValidRefs;
  }

  lemma ChallengeTruthful(s: BountyState, c: MarketCommand, p: MarketPolicy)
    requires c.OpenChallenge? && CommonFault(c).None? && DecideChallenge(s, c, p).Reject?
    ensures ChallengeWrong(s, c, p, Named(DecideChallenge(s, c, p)))
  {
    hide ValidId, ValidRef, FindSubmission, FindChallenge, ValidRefs;
  }

  /** The submission a lookup returns stands in the list under that id. */
  lemma FoundAt(subs: seq<SubmissionState>, id: string)
    ensures FindSubmission(subs, id).Some? ==>
      exists i :: 0 <= i < |subs| && subs[i].submissionId == id && subs[i] == FindSubmission(subs, id).value
  {
    hide FindSubmission;
  }

  lemma ChallengeFoundAt(chs: seq<ChallengeState>, id: string)
    ensures FindChallenge(chs, id).Some? ==>
      exists i :: 0 <= i < |chs| && chs[i].challengeId == id && chs[i] == FindChallenge(chs, id).value
  {
    hide FindChallenge;
  }

  lemma BindingTruthful(s: BountyState, c: MarketCommand, p: MarketPolicy, evidence: seq<VerifierReceipt>)
    requires c.VerifySubmission? && BindingFault(s, c, p, evidence).Some?
    ensures VerifyWrong(s, c, p, evidence, Named(BindingFault(s, c, p, evidence).value))
  {
    hide FindReceipt, FindSubmission, ValidId, ValidRef;
    ReceiptFound(evidence, c.receiptRef);
    FoundAt(s.submissions, c.submissionId);
    var x := FindReceipt(evidence, c.receiptRef).value;
    assert x in evidence && c.receiptRef == ReceiptRef(x);
    if BindingFault(s, c, p, evidence).value.field == "verifier_receipt" {
      assert OffVerdict(s, c, p, x.statement);
      hide OffVerdict;
    }
  }

  lemma ResolveBindingTruthful(s: BountyState, c: MarketCommand, p: MarketPolicy, evidence: seq<VerifierReceipt>)
    requires c.ResolveChallenge? && BindingFault(s, c, p, evidence).Some?
    ensures ResolveWrong(s, c, p, evidence, Named(BindingFault(s, c, p, evidence).value))
  {
    hide FindReceipt, FindChallenge, ValidId, ValidRef;
    ReceiptFound(evidence, c.receiptRef);
    ChallengeFoundAt(s.challenges, c.challengeId);
    var x := FindReceipt(evidence, c.receiptRef).value;
    assert x in evidence && c.receiptRef == ReceiptRef(x);
    if BindingFault(s, c, p, evidence).value.field == "verifier_receipt" {
      assert OffResolution(s, c, p, x.statement);
      hide OffResolution;
    }
  }

  /** Once the cited receipt fits the command, admission can only miss it or its issuer. */
  lemma AdmissionTruthful(evidence: seq<VerifierReceipt>, ref: Ref, expected: VerifierStatement, verifierRef: Ref,
                          subject: Option<Ref>, terms: BountyTerms)
    requires forall i | 0 <= i < |evidence| :: Authentic(evidence[i])
    requires FindReceipt(evidence, ref).Some? ==>
      && FindReceipt(evidence, ref).value.statement == expected && KeyRef(FindReceipt(evidence, ref).value.publicKey) == verifierRef
    requires subject.Some? ==> subject.value == verifierRef
    ensures var fault := AdmissionFault(evidence, ref, expected, verifierRef, subject, terms);
      fault.Some? ==>
        || (fault == Some(Reject(MissingEvidence, "verifier_receipt_ref")) && forall x | x in evidence :: ref != ReceiptRef(x))
        || (fault == Some(Reject(PolicyMismatch, "verifier_ref")) && verifierRef !in terms.acceptedVerifierRefs)
  {
    ReceiptFound(evidence, ref);
    hide FindReceipt, Authentic;
  }

  lemma VerifyTruthful(s: BountyState, c: MarketCommand, p: MarketPolicy, evidence: seq<VerifierReceipt>)
    requires c.VerifySubmission? && ValidEvidence(evidence) && BindingFault(s, c, p, evidence).None?
    requires DecideVerify(s, c, p, evidence).Reject?
    ensures VerifyWrong(s, c, p, evidence, Named(DecideVerify(s, c, p, evidence)))
  {
    hide FindReceipt, FindSubmission, ValidId, ValidRef, ValidEvidence, AdmissionFault, ApplyVerdict, OffVerdict;
    FoundAt(s.submissions, c.submissionId);
    AuthenticEvidence(evidence);
    hide Authentic;
    var found := FindSubmission(s.submissions, c.submissionId);
    if found.Some? {
      if s.phase.Open? { VerdictCommits(s, c, found.value); }
      if c.verifierRef == found.value.verifierRef {
        AdmissionTruthful(evidence, c.receiptRef, SubmissionStatementFor(s, c.accepted, p, found.value), c.verifierRef,
                          Some(found.value.verifierRef), s.terms);
      }
    }
    hide SubmissionStatementFor, BoundToBounty;
  }

  lemma ResolveTruthful(s: BountyState, c: MarketCommand, p: MarketPolicy, evidence: seq<VerifierReceipt>)
    requires c.ResolveChallenge? && ValidEvidence(evidence) && BindingFault(s, c, p, evidence).None?
    requires ReferencesResolve(s.submissions, s.challenges) && DecideResolve(s, c, p, evidence).Reject?
    ensures ResolveWrong(s, c, p, evidence, Named(DecideResolve(s, c, p, evidence)))
  {
    hide FindReceipt, FindSubmission, FindChallenge, ValidId, ValidRef, ValidEvidence, AdmissionFault, ApplyResolution, OffResolution;
    ChallengeFoundAt(s.challenges, c.challengeId);
    AuthenticEvidence(evidence);
    hide Authentic;
    var found := FindChallenge(s.challenges, c.challengeId);
    if found.Some? {
      assert HasSubmission(s.submissions, found.value.submissionId);
      var subject := FindSubmission(s.submissions, found.value.submissionId);
      if s.phase.Open? { ResolutionCommits(s, c, p, found.value, subject.value); }
      AdmissionTruthful(evidence, c.receiptRef, ChallengeStatementFor(s, c.upheld, p, found.value), c.verifierRef, None, s.terms);
    }
    hide ChallengeStatementFor, BoundToBounty, ReferencesResolve;
  }

  lemma {:induction false} PayoutsTruthful(s: BountyState, c: MarketCommand, k: nat)
    requires c.SettleBounty? && k <= |c.payouts| && PayableVerified(s.submissions, s.payableIds)
    requires FirstPayoutFault(s, c.payouts, k).Some?
    ensures SettleWrong(s, c, Named(FirstPayoutFault(s, c.payouts, k).value))
    decreases |c.payouts| - k
  {
    hide FindSubmission, SettleWrong, PayableVerified, Totals;
    if PayoutFault(s, c.payouts, k).Some? { PayoutTruthful(s, c, k); }
    else { PayoutsTruthful(s, c, k + 1); }
  }

  lemma PayoutTruthful(s: BountyState, c: MarketCommand, k: nat)
    requires c.SettleBounty? && k < |c.payouts| && PayableVerified(s.submissions, s.payableIds)
    requires PayoutFault(s, c.payouts, k).Some?
    ensures SettleWrong(s, c, Named(PayoutFault(s, c.payouts, k).value))
  {
    hide FindSubmission, Totals, ValidId;
    var id := c.payouts[k].submissionId;
    FoundAt(s.submissions, id);
    if id in s.payableIds { assert HasVerified(s.submissions, id); }
    hide PayableVerified;
  }

  lemma SettleTruthful(s: BountyState, c: MarketCommand)
    requires c.SettleBounty? && PayableVerified(s.submissions, s.payableIds) && DecideSettle(s, c).Reject?
    ensures SettleWrong(s, c, Named(DecideSettle(s, c)))
  {
    hide FirstPayoutFault, PayoutTotal, ReleaseBonds, BondRefunds, PayoutEffects, ValidId, PayableVerified, Totals;
    if FirstPayoutFault(s, c.payouts, 0).Some? { PayoutsTruthful(s, c, 0); }
    var sums := TotalsExist(c.payouts);
    TotalsExactly(c.payouts, sums);
    TotalsLength(c.payouts, sums);
  }

  lemma ChecksTruthful(s: BountyState, c: MarketCommand, p: MarketPolicy, evidence: seq<VerifierReceipt>)
    requires CommonFault(c).Some?
    ensures Wrong(s, c, p, evidence, Named(CommonFault(c).value))
  {
    hide ValidId, ValidRefs, VerifyWrong, ResolveWrong, OpenWrong, AdvanceWrong, SettleWrong, CancelWrong;
    if c.SubmitCandidate? { RefsJoined(c.evidenceRefs, c.artifactRefs); }
  }

  lemma EvidenceTruthful(evidence: seq<VerifierReceipt>)
    requires !ValidEvidence(evidence)
    ensures (exists x :: x in evidence && x.signature != Signed(x.publicKey, x.statement))
      || (exists i, j :: 0 <= i < j < |evidence| && evidence[i] == evidence[j])
  {
    if i :| 0 <= i < |evidence| && !Authentic(evidence[i]) { assert evidence[i] in evidence; }
  }

  lemma HandlersTruthful(s: BountyState, c: MarketCommand, p: MarketPolicy, evidence: seq<VerifierReceipt>)
    requires ValidState(s) && CommonFault(c).None? && ValidEvidence(evidence) && BindingFault(s, c, p, evidence).None?
    requires Dispatch(s, c, p, evidence).Reject?
    ensures Wrong(s, c, p, evidence, Named(Dispatch(s, c, p, evidence)))
  {
    hide ValidEvidence, CommonFault, BindingFault, Unusable, DecideOpen, DecideSubmit, DecideVerify, DecideChallenge, DecideResolve,
         DecideAdvance, DecideSettle, DecideCancel;
    hide OpenWrong, SubmitWrong, VerifyWrong, ChallengeWrong, ResolveWrong, AdvanceWrong, SettleWrong, CancelWrong;
    PartsSound(s);
    hide ValidState;
    match c {
      case OpenBounty(_, _, _, _) => OtherTruthful(s, c, p, evidence);
      case AdvanceBounty(_, _) => OtherTruthful(s, c, p, evidence);
      case CancelBounty(_, _, _) => OtherTruthful(s, c, p, evidence);
      case SubmitCandidate(_, _, _, _, _, _, _, _, _) => SubmitTruthful(s, c, p);
      case OpenChallenge(_, _, _, _, _, _, _, _) => ChallengeTruthful(s, c, p);
      case VerifySubmission(_, _, _, _, _, _) => VerifyTruthful(s, c, p, evidence);
      case ResolveChallenge(_, _, _, _, _, _) => ResolveTruthful(s, c, p, evidence);
      case SettleBounty(_, _, _, _) => SettleTruthful(s, c);
    }
  }

  lemma PartsSound(s: BountyState)
    requires ValidState(s)
    ensures PayableVerified(s.submissions, s.payableIds) && ReferencesResolve(s.submissions, s.challenges)
  {
  }

  /** Every refusal names something that is wrong. */
  lemma RefusalsTruthful(s: BountyState, c: MarketCommand, p: MarketPolicy, evidence: seq<VerifierReceipt>)
    requires ApplyMarketCommand(s, c, p, evidence).Reject?
    ensures Wrong(s, c, p, evidence, Named(ApplyMarketCommand(s, c, p, evidence)))
  {
    hide ValidState, ValidEvidence, Dispatch, ValidId, BindingFault, CommonFault;
    hide OpenWrong, SubmitWrong, VerifyWrong, ChallengeWrong, ResolveWrong, AdvanceWrong, SettleWrong, CancelWrong;
    if !ValidState(s) || !ValidPolicy(p) {
    } else if CommonFault(c).Some? {
      ChecksTruthful(s, c, p, evidence);
    } else if !ValidEvidence(evidence) {
      EvidenceTruthful(evidence);
    } else if BindingFault(s, c, p, evidence).Some? {
      CitingBound(s, c, p, evidence);
    } else if c.commandId !in s.processed {
      HandlersTruthful(s, c, p, evidence);
    }
  }

  lemma CitingBound(s: BountyState, c: MarketCommand, p: MarketPolicy, evidence: seq<VerifierReceipt>)
    requires BindingFault(s, c, p, evidence).Some?
    ensures Wrong(s, c, p, evidence, Named(BindingFault(s, c, p, evidence).value))
  {
    hide FindReceipt, FindSubmission, FindChallenge, Unusable, VerifyWrong, ResolveWrong;
    if c.VerifySubmission? { BindingTruthful(s, c, p, evidence); }
    if c.ResolveChallenge? { ResolveBindingTruthful(s, c, p, evidence); }
  }

  lemma Explained(s: BountyState, c: MarketCommand, p: MarketPolicy, evidence: seq<VerifierReceipt>)
    ensures var d := ApplyMarketCommand(s, c, p, evidence);
      && (d.Committed() <==> ValidState(s) && WellMade(s, c, p, evidence) && Rule(s, c, p, evidence))
      && (d.Committed() ==> Change(s, c, p, d)) && (d.Reject? ==> Wrong(s, c, p, evidence, Named(d)))
  {
    hide ApplyMarketCommand, Rule, WellMade, Change, Wrong, ValidState;
    CommitsExactly(s, c, p, evidence);
    if ApplyMarketCommand(s, c, p, evidence).Committed() { ChangesExactly(s, c, p, evidence); }
    else { RefusalsTruthful(s, c, p, evidence); }
  }

  // ----- Entry point ------------------------------------------------------------------------------------

  /** The entry point as the source runs it: staged validation, then the looping handlers.
      It commits exactly by the rules, changes exactly what they say, and refuses only for
      what it names. */
  method RunMarketCommand(s: BountyState, c: MarketCommand, p: MarketPolicy, evidence: seq<VerifierReceipt>)
    returns (d: Decision)
    ensures d == ApplyMarketCommand(s, c, p, evidence)
    ensures d.Committed() <==> ValidState(s) && WellMade(s, c, p, evidence) && Rule(s, c, p, evidence)
    ensures d.Committed() ==> Change(s, c, p, d)
    ensures d.Reject? ==> Wrong(s, c, p, evidence, Named(d))
  {
    hide Rule, WellMade, Change, Wrong, ValidState;
    Explained(s, c, p, evidence);
    var violations := MarketStateViolations(s);
    if violations != [] { return Reject(InvalidState, "state"); }
    if !ValidPolicy(p) { return Reject(InvalidPolicy, "policy"); }
    var common := CommonFault(c);
    if common.Some? { return common.value; }
    if !ValidEvidence(evidence) { return Reject(InvalidEvidence, "evidence"); }
    var binding := BindingFault(s, c, p, evidence);
    if binding.Some? { return binding.value; }
    if c.commandId in s.processed { return Reject(DuplicateCommand, "command_id"); }
    hide ValidEvidence, ValidPolicy, CommonFault, BindingFault;
    ListsSound(s);
    if c.AdvanceBounty? { d := RunAdvance(s, c, p); }
    else if c.SettleBounty? { d := RunSettle(s, c); }
    else { d := Dispatch(s, c, p, evidence); }
  }
}
