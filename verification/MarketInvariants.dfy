/** The one definition of a valid bounty state, and the staged checker that reports
    which invariants a state breaks. */
module MarketInvariants {
  import opened Prelude
  import opened MarketTypes

  // ----- Field syntax -----------------------------------------------------------

  predicate ValidTerms(t: BountyTerms) {
    && ValidId(t.bountyId)
    && t.sponsorRef != ""
    && ValidRef(t.claimRef)
    && ValidOptionalRef(t.contextRef)
    && t.reward > 0
    && t.deadline >= 0
    && t.challengeWindow >= 0
    && ValidRefSet(t.acceptedRecipeRefs)
    && ValidRefSet(t.acceptedVerifierRefs)
  }

  predicate ValidSubmission(s: SubmissionState) {
    && ValidId(s.submissionId)
    && s.submitterRef != ""
    && ValidRef(s.recipeRef)
    && ValidRef(s.verifierRef)
    && ValidRefs(s.evidenceRefs)
    && ValidRefs(s.artifactRefs)
    && s.submittedAt >= 0
    && ValidOptionalRef(s.receiptRef)
  }

  predicate ValidChallenge(c: ChallengeState) {
    && ValidId(c.challengeId)
    && ValidId(c.submissionId)
    && c.challengerRef != ""
    && c.findingKind != ""
    && ValidRefs(c.evidenceRefs)
    && c.openedAt >= 0
    && ValidOptionalRef(c.receiptRef)
  }

  predicate ValidSubmissions(subs: seq<SubmissionState>) {
    forall i | 0 <= i < |subs| :: ValidSubmission(subs[i])
  }

  predicate ValidChallenges(chs: seq<ChallengeState>) {
    forall i | 0 <= i < |chs| :: ValidChallenge(chs[i])
  }

  predicate ValidIds(ids: seq<string>) {
    forall i | 0 <= i < |ids| :: ValidId(ids[i])
  }

  predicate ValidCollections(s: BountyState) {
    && ValidIds(s.payableIds)
    && s.settlementRef != Some("")
    && forall id | id in s.processed :: ValidId(id)
  }

  // ----- Structure ----------------------------------------------------------------

  predicate UniqueSubmissions(subs: seq<SubmissionState>) {
    forall i, j | 0 <= i < j < |subs| :: subs[i].submissionId != subs[j].submissionId
  }

  predicate UniqueChallenges(chs: seq<ChallengeState>) {
    forall i, j | 0 <= i < j < |chs| :: chs[i].challengeId != chs[j].challengeId
  }

  predicate HasSubmission(subs: seq<SubmissionState>, id: string) {
    exists i | 0 <= i < |subs| :: subs[i].submissionId == id
  }

  predicate HasVerified(subs: seq<SubmissionState>, id: string) {
    exists i | 0 <= i < |subs| :: subs[i].submissionId == id && subs[i].status.Verified?
  }

  predicate ReferencesResolve(subs: seq<SubmissionState>, chs: seq<ChallengeState>) {
    forall i | 0 <= i < |chs| :: HasSubmission(subs, chs[i].submissionId)
  }

  predicate PayableVerified(subs: seq<SubmissionState>, ids: seq<string>) {
    forall i | 0 <= i < |ids| :: HasVerified(subs, ids[i])
  }

  predicate OneOpenPerSubmission(chs: seq<ChallengeState>) {
    forall i, j | 0 <= i < j < |chs| && chs[i].status.ChallengeOpen? && chs[j].status.ChallengeOpen? ::
      chs[i].submissionId != chs[j].submissionId
  }

  predicate NoOpenChallenge(chs: seq<ChallengeState>) {
    forall i | 0 <= i < |chs| :: !chs[i].status.ChallengeOpen?
  }

  /** A deposit is locked exactly while its challenge is open. */
  predicate DepositsMatchStatus(chs: seq<ChallengeState>) {
    forall i | 0 <= i < |chs| :: chs[i].status.ChallengeOpen? <==> chs[i].depositLocked > 0
  }

  predicate RejectedHoldNoBond(subs: seq<SubmissionState>) {
    forall i | 0 <= i < |subs| && subs[i].status.SubmissionRejected? :: subs[i].bondLocked == 0
  }

  predicate NoBonds(subs: seq<SubmissionState>) {
    forall i | 0 <= i < |subs| :: subs[i].bondLocked == 0
  }

  predicate NoDeposits(chs: seq<ChallengeState>) {
    forall i | 0 <= i < |chs| :: chs[i].depositLocked == 0
  }

  predicate Terminal(phase: BountyPhase) {
    phase.Settled? || phase.Expired? || phase.Canceled?
  }

  /** What each phase holds: escrow, payable ids, settlement reference, bonds. */
  predicate ValidPhase(s: BountyState) {
    && (s.phase.Open? || s.phase.Payable? <==> s.escrowLocked > 0)
    && (s.phase.Payable? || s.phase.Settled? <==> s.payableIds != [])
    && (s.phase.Settled? <==> s.settlementRef.Some?)
    && (s.phase.Draft? || s.phase.Canceled? ==> s.submissions == [] && s.challenges == [])
    && (Terminal(s.phase) ==> NoBonds(s.submissions))
  }

  predicate ValidState(s: BountyState) {
    && ValidTerms(s.terms)
    && ValidSubmissions(s.submissions)
    && ValidChallenges(s.challenges)
    && ValidCollections(s)
    && UniqueSubmissions(s.submissions)
    && UniqueChallenges(s.challenges)
    && Distinct(s.payableIds)
    && ReferencesResolve(s.submissions, s.challenges)
    && PayableVerified(s.submissions, s.payableIds)
    && OneOpenPerSubmission(s.challenges)
    && (!s.phase.Open? ==> NoOpenChallenge(s.challenges))
    && DepositsMatchStatus(s.challenges)
    && RejectedHoldNoBond(s.submissions)
    && ValidPhase(s)
  }

  // ----- Violation codes ------------------------------------------------------------

  /** Violation codes, grouped by the check that reports them. */
  datatype Code =
    | ChallengeUnknownSubmission
    | Terms(codeTerms: TermsCode)
    | InSubmission(codeInSubmission: SubmissionCode)
    | InChallenge(codeInChallenge: ChallengeCode)
    | Collection(codeCollection: CollectionCode)
    | Uniqueness(codeUniqueness: UniquenessCode)
    | PayableId(codePayableId: PayableCode)
    | ChallengeRule(codeChallengeRule: ChallengeRuleCode)
    | Phase(codePhase: PhaseCode)
    | TerminalRule(codeTerminalRule: TerminalCode)

  datatype TermsCode =
    | TermsBountyId | TermsSponsorRef | TermsClaimRef | TermsContextRef | TermsReward
    | TermsDeadline | TermsChallengeWindow | TermsRecipeRefs | TermsVerifierRefs

  datatype SubmissionCode =
    | SubmissionId | SubmissionSubmitterRef | SubmissionRecipeRef | SubmissionVerifierRef
    | SubmissionEvidenceRefs | SubmissionArtifactRefs | SubmissionSubmittedAt
    | SubmissionReceiptRef

  datatype ChallengeCode =
    | ChallengeId | ChallengeSubmissionId | ChallengeChallengerRef | ChallengeFindingKind
    | ChallengeEvidenceRefs | ChallengeOpenedAt | ChallengeReceiptRef

  datatype CollectionCode =
    | PayableIdsFormat | SettlementRefType | ProcessedCommandIdsFormat

  datatype UniquenessCode =
    | DuplicateSubmissionId | DuplicateChallengeId | DuplicatePayableSubmissionId

  datatype PayableCode =
    | PayableUnknownSubmission | PayableSubmissionNotVerified

  datatype ChallengeRuleCode =
    | MultipleOpenChallenges | OpenChallengeOutsideOpenPhase | OpenChallengeWithoutDeposit
    | ResolvedChallengeRetainsDeposit | RejectedSubmissionRetainsBond

  datatype PhaseCode =
    | DraftHasEscrow | DraftHasActivity | OpenWithoutEscrow | OpenHasPayableIds
    | OpenHasSettlement | PayableWithoutEscrow | PayableWithoutSubmission
    | PayableWithOpenChallenge | SettledRetainsEscrow | SettledWithoutPayableSubmission
    | SettledWithoutReceipt | ExpiredRetainsEscrow | ExpiredHasPayableIds
    | CanceledRetainsEscrow | CanceledHasActivity

  datatype TerminalCode =
    | NonSettledHasSettlement | TerminalRetainsBond | TerminalRetainsDeposit
    | TerminalHasOpenChallenge

  predicate TermsBreak(t: BountyTerms, c: TermsCode) {
    || (c == TermsBountyId && !ValidId(t.bountyId))
    || (c == TermsSponsorRef && t.sponsorRef == "")
    || (c == TermsClaimRef && !ValidRef(t.claimRef))
    || (c == TermsContextRef && !ValidOptionalRef(t.contextRef))
    || (c == TermsReward && t.reward == 0)
    || (c == TermsDeadline && t.deadline < 0)
    || (c == TermsChallengeWindow && t.challengeWindow < 0)
    || (c == TermsRecipeRefs && !ValidRefSet(t.acceptedRecipeRefs))
    || (c == TermsVerifierRefs && !ValidRefSet(t.acceptedVerifierRefs))
  }

  predicate SubmissionBreaks(s: SubmissionState, c: SubmissionCode) {
    || (c == SubmissionId && !ValidId(s.submissionId))
    || (c == SubmissionSubmitterRef && s.submitterRef == "")
    || (c == SubmissionRecipeRef && !ValidRef(s.recipeRef))
    || (c == SubmissionVerifierRef && !ValidRef(s.verifierRef))
    || (c == SubmissionEvidenceRefs && !ValidRefs(s.evidenceRefs))
    || (c == SubmissionArtifactRefs && !ValidRefs(s.artifactRefs))
    || (c == SubmissionSubmittedAt && s.submittedAt < 0)
    || (c == SubmissionReceiptRef && !ValidOptionalRef(s.receiptRef))
  }

  predicate ChallengeBreaks(h: ChallengeState, c: ChallengeCode) {
    || (c == ChallengeId && !ValidId(h.challengeId))
    || (c == ChallengeSubmissionId && !ValidId(h.submissionId))
    || (c == ChallengeChallengerRef && h.challengerRef == "")
    || (c == ChallengeFindingKind && h.findingKind == "")
    || (c == ChallengeEvidenceRefs && !ValidRefs(h.evidenceRefs))
    || (c == ChallengeOpenedAt && h.openedAt < 0)
    || (c == ChallengeReceiptRef && !ValidOptionalRef(h.receiptRef))
  }

  predicate CollectionBreaks(s: BountyState, c: CollectionCode) {
    || (c == PayableIdsFormat && !ValidIds(s.payableIds))
    || (c == SettlementRefType && s.settlementRef == Some(""))
    || (c == ProcessedCommandIdsFormat
        && exists id | id in s.processed :: !ValidId(id))
  }

  predicate UniquenessBreaks(s: BountyState, c: UniquenessCode) {
    || (c == DuplicateSubmissionId && !UniqueSubmissions(s.submissions))
    || (c == DuplicateChallengeId && !UniqueChallenges(s.challenges))
    || (c == DuplicatePayableSubmissionId && !Distinct(s.payableIds))
  }

  /** The id index Python builds: the last submission with an id wins. */
  function SubmissionsById(subs: seq<SubmissionState>): (m: map<string, SubmissionState>)
    ensures forall id :: id in m <==> HasSubmission(subs, id)
    ensures forall id | id in m :: m[id] in subs && m[id].submissionId == id
  {
    if subs == [] then map[]
    else
      var last := subs[|subs| - 1];
      var m := SubmissionsById(subs[..|subs| - 1]);
      assert forall id | HasSubmission(subs[..|subs| - 1], id) :: HasSubmission(subs, id);
      assert HasSubmission(subs, last.submissionId);
      m[last.submissionId := last]
  }

  predicate PayableIdBreaks(subs: seq<SubmissionState>, id: string, c: PayableCode) {
    var m := SubmissionsById(subs);
    || (c == PayableUnknownSubmission && id !in m)
    || (c == PayableSubmissionNotVerified && id in m && !m[id].status.Verified?)
  }

  predicate ChallengeRuleBreaks(s: BountyState, c: ChallengeRuleCode) {
    || (c == MultipleOpenChallenges && !OneOpenPerSubmission(s.challenges))
    || (c == OpenChallengeOutsideOpenPhase && !s.phase.Open? && !NoOpenChallenge(s.challenges))
    || (c == OpenChallengeWithoutDeposit
        && exists i | 0 <= i < |s.challenges| :: s.challenges[i].status.ChallengeOpen? && s.challenges[i].depositLocked == 0)
    || (c == ResolvedChallengeRetainsDeposit
        && exists i | 0 <= i < |s.challenges| :: !s.challenges[i].status.ChallengeOpen? && s.challenges[i].depositLocked > 0)
    || (c == RejectedSubmissionRetainsBond && !RejectedHoldNoBond(s.submissions))
  }

  predicate PhaseBreaks(s: BountyState, c: PhaseCode) {
    || (c == DraftHasEscrow && s.phase.Draft? && s.escrowLocked > 0)
    || (c == DraftHasActivity && s.phase.Draft? && !(s.submissions == [] && s.challenges == [] && s.payableIds == [] && s.settlementRef.None?))
    || (c == OpenWithoutEscrow && s.phase.Open? && s.escrowLocked == 0)
    || (c == OpenHasPayableIds && s.phase.Open? && s.payableIds != [])
    || (c == OpenHasSettlement && s.phase.Open? && s.settlementRef.Some?)
    || (c == PayableWithoutEscrow && s.phase.Payable? && s.escrowLocked == 0)
    || (c == PayableWithoutSubmission && s.phase.Payable? && s.payableIds == [])
    || (c == PayableWithOpenChallenge && s.phase.Payable? && !NoOpenChallenge(s.challenges))
    || (c == SettledRetainsEscrow && s.phase.Settled? && s.escrowLocked > 0)
    || (c == SettledWithoutPayableSubmission && s.phase.Settled? && s.payableIds == [])
    || (c == SettledWithoutReceipt && s.phase.Settled? && (s.settlementRef.None? || s.settlementRef == Some("")))
    || (c == ExpiredRetainsEscrow && s.phase.Expired? && s.escrowLocked > 0)
    || (c == ExpiredHasPayableIds && s.phase.Expired? && s.payableIds != [])
    || (c == CanceledRetainsEscrow && s.phase.Canceled? && s.escrowLocked > 0)
    || (c == CanceledHasActivity && s.phase.Canceled? && !(s.submissions == [] && s.challenges == [] && s.payableIds == []))
  }

  predicate TerminalBreaks(s: BountyState, c: TerminalCode) {
    || (c == NonSettledHasSettlement && !s.phase.Settled? && s.settlementRef.Some?)
    || (c == TerminalRetainsBond && Terminal(s.phase) && !NoBonds(s.submissions))
    || (c == TerminalRetainsDeposit && Terminal(s.phase) && !NoDeposits(s.challenges))
    || (c == TerminalHasOpenChallenge && Terminal(s.phase) && !NoOpenChallenge(s.challenges))
  }

  ghost predicate Breaks(s: BountyState, c: Code) {
    match c
    case Terms(k) => TermsBreak(s.terms, k)
    case InSubmission(k) => SomeSubmissionBreaks(s.submissions, |s.submissions|, k)
    case InChallenge(k) => SomeChallengeBreaks(s.challenges, |s.challenges|, k)
    case Collection(k) => CollectionBreaks(s, k)
    case Uniqueness(k) => UniquenessBreaks(s, k)
    case ChallengeUnknownSubmission => SomeReferenceBreaks(s, |s.challenges|)
    case PayableId(k) => SomePayableBreaks(s, |s.payableIds|, k)
    case ChallengeRule(k) => ChallengeRuleBreaks(s, k)
    case Phase(k) => PhaseBreaks(s, k)
    case TerminalRule(k) => TerminalBreaks(s, k)
  }

  ghost predicate SomeSubmissionBreaks(subs: seq<SubmissionState>, n: nat, c: SubmissionCode)
    requires n <= |subs|
  {
    exists i | 0 <= i < n :: SubmissionBreaks(subs[i], c)
  }

  ghost predicate SomeChallengeBreaks(chs: seq<ChallengeState>, n: nat, c: ChallengeCode)
    requires n <= |chs|
  {
    exists i | 0 <= i < n :: ChallengeBreaks(chs[i], c)
  }

  ghost predicate SomeReferenceBreaks(s: BountyState, n: nat)
    requires n <= |s.challenges|
  {
    exists i | 0 <= i < n :: !HasSubmission(s.submissions, s.challenges[i].submissionId)
  }

  ghost predicate SomePayableBreaks(s: BountyState, n: nat, c: PayableCode)
    requires n <= |s.payableIds|
  {
    exists i | 0 <= i < n :: PayableIdBreaks(s.submissions, s.payableIds[i], c)
  }

  /** The first four checks stop the checker as soon as one of them reports. */
  function Stage(c: Code): nat {
    match c
    case Terms(_) => 0
    case InSubmission(_) => 1
    case InChallenge(_) => 2
    case Collection(_) => 3
    case _ => 4
  }

  // ----- A state is valid exactly when no code is broken -----------------------------

  lemma TermsCheck(t: BountyTerms)
    ensures ValidTerms(t) <==> forall k :: !TermsBreak(t, k)
  {
    if forall k :: !TermsBreak(t, k) {
      assert !TermsBreak(t, TermsBountyId) && !TermsBreak(t, TermsSponsorRef) && !TermsBreak(t, TermsClaimRef);
      assert !TermsBreak(t, TermsContextRef) && !TermsBreak(t, TermsReward) && !TermsBreak(t, TermsDeadline);
      assert !TermsBreak(t, TermsChallengeWindow) && !TermsBreak(t, TermsRecipeRefs);
      assert !TermsBreak(t, TermsVerifierRefs);
    }
  }

  lemma SubmissionCheck(s: SubmissionState)
    ensures ValidSubmission(s) <==> forall k :: !SubmissionBreaks(s, k)
  {
    if forall k :: !SubmissionBreaks(s, k) {
      assert !SubmissionBreaks(s, SubmissionId) && !SubmissionBreaks(s, SubmissionSubmitterRef);
      assert !SubmissionBreaks(s, SubmissionRecipeRef) && !SubmissionBreaks(s, SubmissionVerifierRef);
      assert !SubmissionBreaks(s, SubmissionEvidenceRefs) && !SubmissionBreaks(s, SubmissionArtifactRefs);
      assert !SubmissionBreaks(s, SubmissionSubmittedAt) && !SubmissionBreaks(s, SubmissionReceiptRef);
    }
  }

  lemma ChallengeCheck(h: ChallengeState)
    ensures ValidChallenge(h) <==> forall k :: !ChallengeBreaks(h, k)
  {
    if forall k :: !ChallengeBreaks(h, k) {
      assert !ChallengeBreaks(h, ChallengeId) && !ChallengeBreaks(h, ChallengeSubmissionId);
      assert !ChallengeBreaks(h, ChallengeChallengerRef) && !ChallengeBreaks(h, ChallengeFindingKind);
      assert !ChallengeBreaks(h, ChallengeEvidenceRefs) && !ChallengeBreaks(h, ChallengeOpenedAt);
      assert !ChallengeBreaks(h, ChallengeReceiptRef);
    }
  }

  lemma SubmissionsCheck(subs: seq<SubmissionState>)
    ensures ValidSubmissions(subs) <==> forall k :: !SomeSubmissionBreaks(subs, |subs|, k)
  {
    forall i | 0 <= i < |subs| ensures ValidSubmission(subs[i]) <==> forall k :: !SubmissionBreaks(subs[i], k) {
      SubmissionCheck(subs[i]);
    }
    hide ValidSubmission, SubmissionBreaks;
    if i :| 0 <= i < |subs| && !ValidSubmission(subs[i]) {
      var k :| SubmissionBreaks(subs[i], k);
      assert SomeSubmissionBreaks(subs, |subs|, k);
    }
  }

  lemma ChallengesCheck(chs: seq<ChallengeState>)
    ensures ValidChallenges(chs) <==> forall k :: !SomeChallengeBreaks(chs, |chs|, k)
  {
    forall i | 0 <= i < |chs| ensures ValidChallenge(chs[i]) <==> forall k :: !ChallengeBreaks(chs[i], k) {
      ChallengeCheck(chs[i]);
    }
    hide ValidChallenge, ChallengeBreaks;
    if i :| 0 <= i < |chs| && !ValidChallenge(chs[i]) {
      var k :| ChallengeBreaks(chs[i], k);
      assert SomeChallengeBreaks(chs, |chs|, k);
    }
  }

  lemma CollectionCheck(s: BountyState)
    ensures ValidCollections(s) <==> forall k :: !CollectionBreaks(s, k)
  {
    if forall k :: !CollectionBreaks(s, k) {
      assert !CollectionBreaks(s, PayableIdsFormat) && !CollectionBreaks(s, SettlementRefType);
      assert !CollectionBreaks(s, ProcessedCommandIdsFormat);
    }
  }

  lemma UniquenessCheck(s: BountyState)
    ensures (forall k :: !UniquenessBreaks(s, k)) <==>
      UniqueSubmissions(s.submissions) && UniqueChallenges(s.challenges) && Distinct(s.payableIds)
  {
    if forall k :: !UniquenessBreaks(s, k) {
      assert !UniquenessBreaks(s, DuplicateSubmissionId) && !UniquenessBreaks(s, DuplicateChallengeId);
      assert !UniquenessBreaks(s, DuplicatePayableSubmissionId);
    }
  }

  lemma PayableCheck(s: BountyState)
    requires UniqueSubmissions(s.submissions)
    ensures (forall k :: !SomePayableBreaks(s, |s.payableIds|, k)) <==> PayableVerified(s.submissions, s.payableIds)
  {
    var m := SubmissionsById(s.submissions);
    if forall k :: !SomePayableBreaks(s, |s.payableIds|, k) {
      assert !SomePayableBreaks(s, |s.payableIds|, PayableUnknownSubmission);
      assert !SomePayableBreaks(s, |s.payableIds|, PayableSubmissionNotVerified);
      forall i | 0 <= i < |s.payableIds| ensures HasVerified(s.submissions, s.payableIds[i]) {
        var id := s.payableIds[i];
        assert !PayableIdBreaks(s.submissions, id, PayableUnknownSubmission);
        assert !PayableIdBreaks(s.submissions, id, PayableSubmissionNotVerified);
        assert m[id] in s.submissions;
      }
    }
    if PayableVerified(s.submissions, s.payableIds) {
      forall i | 0 <= i < |s.payableIds|
        ensures s.payableIds[i] in m && m[s.payableIds[i]].status.Verified?
      {
        assert HasVerified(s.submissions, s.payableIds[i]);
      }
    }
  }

  ghost predicate ChallengeRules(s: BountyState) {
    && OneOpenPerSubmission(s.challenges)
    && (!s.phase.Open? ==> NoOpenChallenge(s.challenges))
    && DepositsMatchStatus(s.challenges)
    && RejectedHoldNoBond(s.submissions)
  }

  lemma ChallengeRuleCheck(s: BountyState)
    ensures ChallengeRules(s) <==> forall k :: !ChallengeRuleBreaks(s, k)
  {
    if forall k :: !ChallengeRuleBreaks(s, k) {
      assert !ChallengeRuleBreaks(s, MultipleOpenChallenges);
      assert !ChallengeRuleBreaks(s, OpenChallengeOutsideOpenPhase);
      assert !ChallengeRuleBreaks(s, OpenChallengeWithoutDeposit);
      assert !ChallengeRuleBreaks(s, ResolvedChallengeRetainsDeposit);
      assert !ChallengeRuleBreaks(s, RejectedSubmissionRetainsBond);
    }
  }

  lemma PhaseCheck(s: BountyState)
    requires ChallengeRules(s)
    requires s.settlementRef != Some("")
    ensures ValidPhase(s) <==> (forall k :: !PhaseBreaks(s, k)) && forall k :: !TerminalBreaks(s, k)
  {
    if (forall k :: !PhaseBreaks(s, k)) && forall k :: !TerminalBreaks(s, k) {
      NoPhaseBreakIsValid(s);
    }
  }

  lemma NoPhaseBreakIsValid(s: BountyState)
    requires forall k :: !PhaseBreaks(s, k)
    requires forall k :: !TerminalBreaks(s, k)
    ensures ValidPhase(s)
  {
    assert !TerminalBreaks(s, NonSettledHasSettlement) && !TerminalBreaks(s, TerminalRetainsBond);
    match s.phase {
      case Draft => assert !PhaseBreaks(s, DraftHasEscrow) && !PhaseBreaks(s, DraftHasActivity);
      case Open =>
        assert !PhaseBreaks(s, OpenWithoutEscrow) && !PhaseBreaks(s, OpenHasPayableIds);
      case Payable =>
        assert !PhaseBreaks(s, PayableWithoutEscrow) && !PhaseBreaks(s, PayableWithoutSubmission);
      case Settled =>
        assert !PhaseBreaks(s, SettledRetainsEscrow) && !PhaseBreaks(s, SettledWithoutPayableSubmission);
        assert !PhaseBreaks(s, SettledWithoutReceipt);
      case Expired => assert !PhaseBreaks(s, ExpiredRetainsEscrow) && !PhaseBreaks(s, ExpiredHasPayableIds);
      case Canceled => assert !PhaseBreaks(s, CanceledRetainsEscrow) && !PhaseBreaks(s, CanceledHasActivity);
    }
  }

  ghost predicate Structured(s: BountyState) {
    && UniqueSubmissions(s.submissions) && UniqueChallenges(s.challenges) && Distinct(s.payableIds)
    && ReferencesResolve(s.submissions, s.challenges)
    && PayableVerified(s.submissions, s.payableIds)
    && ChallengeRules(s)
    && ValidPhase(s)
  }

  lemma StructureCheck(s: BountyState)
    requires ValidCollections(s)
    ensures Structured(s) <==> forall c | Stage(c) == 4 :: !Breaks(s, c)
  {
    UniquenessCheck(s);
    ChallengeRuleCheck(s);
    if UniqueSubmissions(s.submissions) { PayableCheck(s); }
    if ChallengeRules(s) { PhaseCheck(s); }
    hide UniquenessBreaks, ChallengeRuleBreaks, PhaseBreaks, TerminalBreaks, ValidPhase, PayableVerified, ChallengeRules;
    hide UniqueSubmissions, UniqueChallenges, ValidCollections, SomePayableBreaks;
    if forall c | Stage(c) == 4 :: !Breaks(s, c) {
      forall k ensures !UniquenessBreaks(s, k) { assert !Breaks(s, Uniqueness(k)); }
      forall k ensures !ChallengeRuleBreaks(s, k) { assert !Breaks(s, ChallengeRule(k)); }
      forall k ensures !PhaseBreaks(s, k) { assert !Breaks(s, Phase(k)); }
      forall k ensures !TerminalBreaks(s, k) { assert !Breaks(s, TerminalRule(k)); }
      forall k ensures !SomePayableBreaks(s, |s.payableIds|, k) { assert !Breaks(s, PayableId(k)); }
      assert !Breaks(s, ChallengeUnknownSubmission);
    }
  }

  /** The declarative definition and the table of violation codes agree. */
  lemma ValidIffNothingBroken(s: BountyState)
    ensures ValidState(s) <==> forall c :: !Breaks(s, c)
  {
    assert ValidState(s) <==> (
        && ValidTerms(s.terms) && ValidSubmissions(s.submissions)
        && ValidChallenges(s.challenges) && ValidCollections(s) && Structured(s));
    TermsCheck(s.terms);
    SubmissionsCheck(s.submissions);
    ChallengesCheck(s.challenges);
    CollectionCheck(s);
    if ValidCollections(s) { StructureCheck(s); }
    hide ValidState, Structured, ValidTerms, ValidSubmissions, ValidChallenges, ValidCollections;
    hide TermsBreak, CollectionBreaks, SomeSubmissionBreaks, SomeChallengeBreaks;
    if forall c :: !Breaks(s, c) {
      forall k ensures !TermsBreak(s.terms, k) { assert !Breaks(s, Terms(k)); }
      forall k ensures !SomeSubmissionBreaks(s.submissions, |s.submissions|, k) { assert !Breaks(s, InSubmission(k)); }
      forall k ensures !SomeChallengeBreaks(s.challenges, |s.challenges|, k) { assert !Breaks(s, InChallenge(k)); }
      forall k ensures !CollectionBreaks(s, k) { assert !Breaks(s, Collection(k)); }
    }
  }

  // ----- The staged checker -----------------------------------------------------------

  /** Append a code to the report when its condition fails to hold. */
  method Report(out: seq<Code>, broken: bool, code: Code) returns (r: seq<Code>)
    ensures forall c :: c in r <==> c in out || (broken && c == code)
  {
    r := if broken then out + [code] else out;
  }

  method CheckTerms(t: BountyTerms, out: seq<Code>) returns (r: seq<Code>)
    ensures forall c :: c in r <==> c in out || (c.Terms? && TermsBreak(t, c.codeTerms))
  {
    hide ValidId, ValidRef, ValidOptionalRef, ValidRefSet;
    r := Report(out, !ValidId(t.bountyId), Terms(TermsBountyId));
    r := Report(r, t.sponsorRef == "", Terms(TermsSponsorRef));
    r := Report(r, !ValidRef(t.claimRef), Terms(TermsClaimRef));
    r := Report(r, !ValidOptionalRef(t.contextRef), Terms(TermsContextRef));
    r := Report(r, !(t.reward > 0), Terms(TermsReward));
    r := Report(r, !(t.deadline >= 0), Terms(TermsDeadline));
    r := Report(r, !(t.challengeWindow >= 0), Terms(TermsChallengeWindow));
    r := Report(r, !ValidRefSet(t.acceptedRecipeRefs), Terms(TermsRecipeRefs));
    r := Report(r, !ValidRefSet(t.acceptedVerifierRefs), Terms(TermsVerifierRefs));
  }

  method CheckSubmission(s: SubmissionState, out: seq<Code>) returns (r: seq<Code>)
    ensures forall c :: c in r <==> c in out || (c.InSubmission? && SubmissionBreaks(s, c.codeInSubmission))
  {
    r := Report(out, !ValidId(s.submissionId), InSubmission(SubmissionId));
    r := Report(r, s.submitterRef == "", InSubmission(SubmissionSubmitterRef));
    r := Report(r, !ValidRef(s.recipeRef), InSubmission(SubmissionRecipeRef));
    r := Report(r, !ValidRef(s.verifierRef), InSubmission(SubmissionVerifierRef));
    r := Report(r, !ValidRefs(s.evidenceRefs), InSubmission(SubmissionEvidenceRefs));
    r := Report(r, !ValidRefs(s.artifactRefs), InSubmission(SubmissionArtifactRefs));
    r := Report(r, !(s.submittedAt >= 0), InSubmission(SubmissionSubmittedAt));
    r := Report(r, !ValidOptionalRef(s.receiptRef), InSubmission(SubmissionReceiptRef));
  }

  method CheckSubmissions(subs: seq<SubmissionState>, out: seq<Code>) returns (r: seq<Code>)
    ensures forall c :: c in r <==> c in out || (c.InSubmission? && SomeSubmissionBreaks(subs, |subs|, c.codeInSubmission))
  {
    r := out;
    for n := 0 to |subs|
      invariant forall c :: c in r <==> c in out || (c.InSubmission? && SomeSubmissionBreaks(subs, n, c.codeInSubmission))
    {
      hide SubmissionBreaks;
      r := CheckSubmission(subs[n], r);
    }
  }

  method CheckChallenge(h: ChallengeState, out: seq<Code>) returns (r: seq<Code>)
    ensures forall c :: c in r <==> c in out || (c.InChallenge? && ChallengeBreaks(h, c.codeInChallenge))
  {
    r := Report(out, !ValidId(h.challengeId), InChallenge(ChallengeId));
    r := Report(r, !ValidId(h.submissionId), InChallenge(ChallengeSubmissionId));
    r := Report(r, h.challengerRef == "", InChallenge(ChallengeChallengerRef));
    r := Report(r, h.findingKind == "", InChallenge(ChallengeFindingKind));
    r := Report(r, !ValidRefs(h.evidenceRefs), InChallenge(ChallengeEvidenceRefs));
    r := Report(r, !(h.openedAt >= 0), InChallenge(ChallengeOpenedAt));
    r := Report(r, !ValidOptionalRef(h.receiptRef), InChallenge(ChallengeReceiptRef));
  }

  method CheckChallenges(chs: seq<ChallengeState>, out: seq<Code>) returns (r: seq<Code>)
    ensures forall c :: c in r <==> c in out || (c.InChallenge? && SomeChallengeBreaks(chs, |chs|, c.codeInChallenge))
  {
    r := out;
    for n := 0 to |chs|
      invariant forall c :: c in r <==> c in out || (c.InChallenge? && SomeChallengeBreaks(chs, n, c.codeInChallenge))
    {
      hide ChallengeBreaks;
      r := CheckChallenge(chs[n], r);
    }
  }

  method CheckCollections(s: BountyState, out: seq<Code>) returns (r: seq<Code>)
    ensures forall c :: c in r <==> c in out || (c.Collection? && CollectionBreaks(s, c.codeCollection))
  {
    r := Report(out, !ValidIds(s.payableIds), Collection(PayableIdsFormat));
    r := Report(r, s.settlementRef == Some(""), Collection(SettlementRefType));
    r := Report(r, !(forall id | id in s.processed :: ValidId(id)), Collection(ProcessedCommandIdsFormat));
  }

  method CheckUniqueness(s: BountyState, out: seq<Code>) returns (r: seq<Code>)
    ensures forall c :: c in r <==> c in out || (c.Uniqueness? && UniquenessBreaks(s, c.codeUniqueness))
  {
    r := Report(out, !UniqueSubmissions(s.submissions), Uniqueness(DuplicateSubmissionId));
    r := Report(r, !UniqueChallenges(s.challenges), Uniqueness(DuplicateChallengeId));
    r := Report(r, !Distinct(s.payableIds), Uniqueness(DuplicatePayableSubmissionId));
  }

  method CheckReferences(s: BountyState, out: seq<Code>) returns (r: seq<Code>)
    ensures forall c :: c in r <==> c in out || (c.ChallengeUnknownSubmission? && SomeReferenceBreaks(s, |s.challenges|))
  {
    r := out;
    var byId := SubmissionsById(s.submissions);
    for n := 0 to |s.challenges|
      invariant forall c :: c in r <==> c in out || (c.ChallengeUnknownSubmission? && SomeReferenceBreaks(s, n))
    {
      r := Report(r, s.challenges[n].submissionId !in byId, ChallengeUnknownSubmission);
    }
  }

  method CheckPayable(s: BountyState, out: seq<Code>) returns (r: seq<Code>)
    ensures forall c :: c in r <==> c in out || (c.PayableId? && SomePayableBreaks(s, |s.payableIds|, c.codePayableId))
  {
    r := out;
    var byId := SubmissionsById(s.submissions);
    for n := 0 to |s.payableIds|
      invariant forall c :: c in r <==> c in out || (c.PayableId? && SomePayableBreaks(s, n, c.codePayableId))
    {
      var id := s.payableIds[n];
      if id !in byId {
        r := Report(r, true, PayableId(PayableUnknownSubmission));
      } else {
        r := Report(r, !byId[id].status.Verified?, PayableId(PayableSubmissionNotVerified));
      }
    }
  }

  method CheckChallengeRules(s: BountyState, out: seq<Code>) returns (r: seq<Code>)
    ensures forall c :: c in r <==> c in out || (c.ChallengeRule? && ChallengeRuleBreaks(s, c.codeChallengeRule))
  {
    var unfunded, retained := DepositFaults(s.challenges);
    r := Report(out, !OneOpenPerSubmission(s.challenges), ChallengeRule(MultipleOpenChallenges));
    r := Report(r, !NoOpenChallenge(s.challenges) && !s.phase.Open?, ChallengeRule(OpenChallengeOutsideOpenPhase));
    r := Report(r, unfunded, ChallengeRule(OpenChallengeWithoutDeposit));
    r := Report(r, retained, ChallengeRule(ResolvedChallengeRetainsDeposit));
    r := Report(r, !RejectedHoldNoBond(s.submissions), ChallengeRule(RejectedSubmissionRetainsBond));
  }

  method DepositFaults(chs: seq<ChallengeState>) returns (unfunded: bool, retained: bool)
    ensures unfunded <==> exists i | 0 <= i < |chs| :: chs[i].status.ChallengeOpen? && chs[i].depositLocked == 0
    ensures retained <==> exists i | 0 <= i < |chs| :: !chs[i].status.ChallengeOpen? && chs[i].depositLocked > 0
  {
    unfunded, retained := false, false;
    for n := 0 to |chs|
      invariant unfunded <==> exists i | 0 <= i < n :: chs[i].status.ChallengeOpen? && chs[i].depositLocked == 0
      invariant retained <==> exists i | 0 <= i < n :: !chs[i].status.ChallengeOpen? && chs[i].depositLocked > 0
    {
      if chs[n].status.ChallengeOpen? && chs[n].depositLocked <= 0 { unfunded := true; }
      if !chs[n].status.ChallengeOpen? && chs[n].depositLocked != 0 { retained := true; }
    }
  }

  method CheckPhase(s: BountyState, out: seq<Code>) returns (r: seq<Code>)
    ensures forall c :: c in r <==> c in out || (c.Phase? && PhaseBreaks(s, c.codePhase))
  {
    r := out;
    var idle := s.submissions == [] && s.challenges == [] && s.payableIds == [];
    match s.phase {
      case Draft =>
        r := Report(r, s.escrowLocked != 0, Phase(DraftHasEscrow));
        r := Report(r, !idle || s.settlementRef.Some?, Phase(DraftHasActivity));
      case Open =>
        r := Report(r, s.escrowLocked <= 0, Phase(OpenWithoutEscrow));
        r := Report(r, s.payableIds != [], Phase(OpenHasPayableIds));
        r := Report(r, s.settlementRef.Some?, Phase(OpenHasSettlement));
      case Payable =>
        r := Report(r, s.escrowLocked <= 0, Phase(PayableWithoutEscrow));
        r := Report(r, s.payableIds == [], Phase(PayableWithoutSubmission));
        r := Report(r, !NoOpenChallenge(s.challenges), Phase(PayableWithOpenChallenge));
      case Settled =>
        r := Report(r, s.escrowLocked != 0, Phase(SettledRetainsEscrow));
        r := Report(r, s.payableIds == [], Phase(SettledWithoutPayableSubmission));
        r := Report(r, s.settlementRef.None? || s.settlementRef == Some(""), Phase(SettledWithoutReceipt));
      case Expired =>
        r := Report(r, s.escrowLocked != 0, Phase(ExpiredRetainsEscrow));
        r := Report(r, s.payableIds != [], Phase(ExpiredHasPayableIds));
      case Canceled =>
        r := Report(r, s.escrowLocked != 0, Phase(CanceledRetainsEscrow));
        r := Report(r, !idle, Phase(CanceledHasActivity));
    }
  }

  method CheckTerminal(s: BountyState, out: seq<Code>) returns (r: seq<Code>)
    ensures forall c :: c in r <==> c in out || (c.TerminalRule? && TerminalBreaks(s, c.codeTerminalRule))
  {
    r := Report(out, !s.phase.Settled? && s.settlementRef.Some?, TerminalRule(NonSettledHasSettlement));
    if !Terminal(s.phase) { return; }
    r := Report(r, !NoBonds(s.submissions), TerminalRule(TerminalRetainsBond));
    r := Report(r, !NoDeposits(s.challenges), TerminalRule(TerminalRetainsDeposit));
    r := Report(r, !NoOpenChallenge(s.challenges), TerminalRule(TerminalHasOpenChallenge));
  }

  method CheckStructure(s: BountyState, out: seq<Code>) returns (r: seq<Code>)
    ensures forall c :: c in r <==> c in out || (Stage(c) == 4 && Breaks(s, c))
  {
    hide UniquenessBreaks, ChallengeRuleBreaks, PhaseBreaks, TerminalBreaks, SomePayableBreaks, SomeReferenceBreaks;
    r := CheckUniqueness(s, out);
    r := CheckReferences(s, r);
    r := CheckPayable(s, r);
    r := CheckChallengeRules(s, r);
    r := CheckPhase(s, r);
    r := CheckTerminal(s, r);
  }

  /** Reports exactly the broken codes of the first stage that has any; reports nothing
      exactly when the state is valid. */
  method MarketStateViolations(s: BountyState) returns (r: seq<Code>)
    ensures r == [] <==> ValidState(s)
    ensures forall c :: c in r <==> Breaks(s, c) && forall d | Breaks(s, d) :: Stage(c) <= Stage(d)
  {
    ValidIffNothingBroken(s);
    hide TermsBreak, SomeSubmissionBreaks, SomeChallengeBreaks, CollectionBreaks, ValidState;
    hide UniquenessBreaks, ChallengeRuleBreaks, PhaseBreaks, TerminalBreaks, SomePayableBreaks, SomeReferenceBreaks;
    r := CheckTerms(s.terms, []);
    assert forall c :: c in r <==> Breaks(s, c) && Stage(c) == 0;
    if r != [] { assert r[0] in r; return; }
    r := CheckSubmissions(s.submissions, r);
    assert forall c :: c in r <==> Breaks(s, c) && Stage(c) == 1;
    if r != [] { assert r[0] in r; return; }
    r := CheckChallenges(s.challenges, r);
    assert forall c :: c in r <==> Breaks(s, c) && Stage(c) == 2;
    if r != [] { assert r[0] in r; return; }
    r := CheckCollections(s, r);
    assert forall c :: c in r <==> Breaks(s, c) && Stage(c) == 3;
    if r != [] { assert r[0] in r; return; }
    r := CheckStructure(s, r);
    assert r != [] ==> r[0] in r;
  }
}
