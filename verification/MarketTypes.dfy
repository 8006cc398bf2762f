/** Values of the falsification market: terms, submissions, challenges, the bounty
    state, commands, effects, decisions and verifier receipts.

    SHA-256 and Ed25519 are symbolic. A digest is a constructor applied to what was
    digested, so digests are collision free and unbounded; a signature either names
    its signer and message or verifies under no key. */
module MarketTypes {
  import opened Prelude

  datatype BountyPhase = Draft | Open | Payable | Settled | Expired | Canceled
  datatype SubmissionStatus = Pending | Verified | SubmissionRejected
  datatype ChallengeStatus = ChallengeOpen | Upheld | ChallengeRejected

  datatype PublicKey = PublicKey(id: nat)

  /** A content reference: caller-supplied text, or the digest of a known value. */
  datatype Ref =
    | TextRef(text: string)
    | ReceiptRef(receipt: VerifierReceipt)
    | KeyRef(key: PublicKey)

  datatype BountyTerms = BountyTerms(
    bountyId: string,
    sponsorRef: string,
    claimRef: Ref,
    contextRef: Option<Ref>,
    reward: nat,
    minimumSubmissionBond: nat,
    deadline: int,
    challengeWindow: int,
    acceptedRecipeRefs: set<Ref>,
    acceptedVerifierRefs: set<Ref>)

  datatype SubmissionState = SubmissionState(
    submissionId: string,
    submitterRef: string,
    recipeRef: Ref,
    verifierRef: Ref,
    evidenceRefs: seq<Ref>,
    artifactRefs: seq<Ref>,
    submittedAt: int,
    status: SubmissionStatus,
    bondLocked: nat,
    receiptRef: Option<Ref>)

  datatype ChallengeState = ChallengeState(
    challengeId: string,
    submissionId: string,
    challengerRef: string,
    findingKind: string,
    evidenceRefs: seq<Ref>,
    openedAt: int,
    status: ChallengeStatus,
    depositLocked: nat,
    receiptRef: Option<Ref>)

  datatype BountyState = BountyState(
    terms: BountyTerms,
    phase: BountyPhase,
    escrowLocked: nat,
    submissions: seq<SubmissionState>,
    challenges: seq<ChallengeState>,
    payableIds: seq<string>,
    settlementRef: Option<string>,
    processed: set<string>)

  datatype MarketPolicy = MarketPolicy(
    minimumBounty: nat,
    minimumSubmissionBond: nat,
    minimumChallengeDeposit: nat,
    slashableFindings: set<string>,
    treasuryRef: string,
    resolutionSeconds: int,
    version: string)

  datatype StateHash = StateHash(state: BountyState)
  datatype PolicyHash = PolicyHash(policy: MarketPolicy)

  datatype VerifierStatement =
    | SubmissionStatement(
        preStateHash: StateHash,
        policyHash: PolicyHash,
        bountyId: string,
        claimRef: Ref,
        contextRef: Option<Ref>,
        submissionId: string,
        recipeRef: Ref,
        evidenceRefs: seq<Ref>,
        artifactRefs: seq<Ref>,
        accepted: bool)
    | ChallengeStatement(
        preStateHash: StateHash,
        policyHash: PolicyHash,
        bountyId: string,
        claimRef: Ref,
        contextRef: Option<Ref>,
        challengeId: string,
        submissionId: string,
        findingKind: string,
        evidenceRefs: seq<Ref>,
        upheld: bool)

  datatype Signature =
    | Signed(signer: PublicKey, message: VerifierStatement)
    | Unverifiable(bytes: seq<nat>)

  datatype VerifierReceipt = VerifierReceipt(
    statement: VerifierStatement,
    publicKey: PublicKey,
    signature: Signature)

  datatype Payout = Payout(recipientRef: string, submissionId: string, amount: nat)

  datatype MarketCommand =
    | OpenBounty(commandId: string, sponsorRef: string, funded: nat, now: int)
    | SubmitCandidate(
        commandId: string,
        submissionId: string,
        submitterRef: string,
        recipeRef: Ref,
        verifierRef: Ref,
        evidenceRefs: seq<Ref>,
        artifactRefs: seq<Ref>,
        bond: nat,
        now: int)
    | VerifySubmission(
        commandId: string,
        submissionId: string,
        verifierRef: Ref,
        receiptRef: Ref,
        accepted: bool,
        now: int)
    | OpenChallenge(
        commandId: string,
        challengeId: string,
        submissionId: string,
        challengerRef: string,
        findingKind: string,
        evidenceRefs: seq<Ref>,
        deposit: nat,
        now: int)
    | ResolveChallenge(
        commandId: string,
        challengeId: string,
        verifierRef: Ref,
        receiptRef: Ref,
        upheld: bool,
        now: int)
    | AdvanceBounty(commandId: string, now: int)
    | SettleBounty(commandId: string, settlementRef: string, payouts: seq<Payout>, now: int)
    | CancelBounty(commandId: string, sponsorRef: string, now: int)

  datatype EffectKind =
    | LockEscrow
    | RefundEscrow
    | PayoutEffect
    | LockSubmissionBond
    | RefundSubmissionBond
    | SlashSubmissionBond
    | LockChallengeDeposit
    | RefundChallengeDeposit
    | SlashChallengeDeposit

  datatype MarketEffect = MarketEffect(
    kind: EffectKind,
    accountRef: string,
    amount: nat,
    subjectRef: string,
    metadata: map<string, string>)

  datatype RejectCode =
    | InvalidState
    | InvalidPolicy
    | InvalidCommand
    | InvalidEvidence
    | DuplicateCommand
    | WrongPhase
    | TimeWindow
    | DuplicateEntity
    | UnknownEntity
    | PolicyMismatch
    | MissingEvidence
    | InsufficientAmount
    | ConservationFailure

  datatype FailureCode = VerifierRejected | ChallengeWasRejected | NoPayableSubmission

  /** The receipt of a committed transition; its three digests are symbolic. */
  datatype TransitionReceipt = TransitionReceipt(
    bountyId: string,
    eventKind: string,
    previousPhase: BountyPhase,
    command: MarketCommand,
    stateHash: StateHash,
    effectPlan: seq<MarketEffect>)

  datatype Decision =
    | Accept(next: BountyState, effects: seq<MarketEffect>, receipt: TransitionReceipt)
    | Reject(code: RejectCode, field: string)
    | CommittedFailure(failure: FailureCode, next: BountyState, effects: seq<MarketEffect>, receipt: TransitionReceipt)
  {
    predicate Committed() { !Reject? }
  }

  predicate ValidRef(r: Ref) {
    r.TextRef? ==> ValidRefText(r.text)
  }

  predicate ValidOptionalRef(r: Option<Ref>) {
    r.Some? ==> ValidRef(r.value)
  }

  predicate ValidRefs(rs: seq<Ref>) {
    forall i | 0 <= i < |rs| :: ValidRef(rs[i])
  }

  predicate ValidRefSet(rs: set<Ref>) {
    rs != {} && forall r | r in rs :: ValidRef(r)
  }

  function InitialBounty(terms: BountyTerms): BountyState {
    BountyState(terms, Draft, 0, [], [], [], None, {})
  }

  /** The first submission with this id, as the source's linear scan finds it. */
  function FindSubmission(submissions: seq<SubmissionState>, id: string): (r: Option<SubmissionState>)
    ensures r.Some? ==> r.value in submissions && r.value.submissionId == id
    ensures r.None? ==> forall i | 0 <= i < |submissions| :: submissions[i].submissionId != id
  {
    if submissions == [] then None
    else if submissions[0].submissionId == id then Some(submissions[0])
    else FindSubmission(submissions[1..], id)
  }

  function FindChallenge(challenges: seq<ChallengeState>, id: string): (r: Option<ChallengeState>)
    ensures r.Some? ==> r.value in challenges && r.value.challengeId == id
    ensures r.None? ==> forall i | 0 <= i < |challenges| :: challenges[i].challengeId != id
  {
    if challenges == [] then None
    else if challenges[0].challengeId == id then Some(challenges[0])
    else FindChallenge(challenges[1..], id)
  }

  function ChallengeDeadline(terms: BountyTerms): int {
    terms.deadline + terms.challengeWindow
  }

  function Max(a: int, b: int): int { if a >= b then a else b }
}
