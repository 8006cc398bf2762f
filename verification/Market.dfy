/** The market transition: eight command handlers behind one validating entry point. */
module Market {
  import opened Prelude
  import opened MarketTypes
  import opened MarketInvariants

  // ----- Building decisions -----------------------------------------------------------

  function Effect(kind: EffectKind, account: string, amount: nat, subject: string): MarketEffect {
    MarketEffect(kind, account, amount, subject, map[])
  }

  function EffectWithReason(kind: EffectKind, account: string, amount: nat, subject: string, reason: string): MarketEffect {
    MarketEffect(kind, account, amount, subject, map["reason" := reason])
  }

  function Receipt(before: BountyState, after: BountyState, command: MarketCommand,
                   event: string, effects: seq<MarketEffect>): TransitionReceipt {
    TransitionReceipt(after.terms.bountyId, event, before.phase, command, StateHash(after), effects)
  }

  function Accepted(before: BountyState, after: BountyState, command: MarketCommand,
                    event: string, effects: seq<MarketEffect>): Decision {
    Accept(after, effects, Receipt(before, after, command, event, effects))
  }

  function Failed(before: BountyState, after: BountyState, command: MarketCommand,
                  event: string, failure: FailureCode, effects: seq<MarketEffect>): Decision {
    CommittedFailure(failure, after, effects, Receipt(before, after, command, event, effects))
  }

  function PutSubmission(subs: seq<SubmissionState>, r: SubmissionState): (out: seq<SubmissionState>)
    ensures |out| == |subs|
  {
    seq(|subs|, i requires 0 <= i < |subs| => if subs[i].submissionId == r.submissionId then r else subs[i])
  }

  function PutChallenge(chs: seq<ChallengeState>, r: ChallengeState): (out: seq<ChallengeState>)
    ensures |out| == |chs|
  {
    seq(|chs|, i requires 0 <= i < |chs| => if chs[i].challengeId == r.challengeId then r else chs[i])
  }

  function ResolutionDeadline(terms: BountyTerms, challenge: ChallengeState, policy: MarketPolicy): int {
    Max(ChallengeDeadline(terms), challenge.openedAt + policy.resolutionSeconds)
  }

  // ----- Validation of policy, command and evidence -------------------------------------

  predicate ValidPolicy(p: MarketPolicy) {
    && p.slashableFindings != {}
    && "" !in p.slashableFindings
    && p.treasuryRef != ""
    && p.resolutionSeconds >= 0
    && p.version != ""
  }

  /** The checks every command passes first; None means it passed. */
  function CommonFault(c: MarketCommand): (r: Option<Decision>)
    ensures r.Some? ==> r.value.Reject?
  {
    if !ValidId(c.commandId) then Some(Reject(InvalidCommand, "command_id"))
    else if c.now < 0 then Some(Reject(InvalidCommand, "now_epoch_s"))
    else match c
      case SubmitCandidate(_, _, _, _, _, evidence, artifacts, _, _) =>
        if ValidRefs(evidence) && ValidRefs(artifacts) then None else Some(Reject(InvalidCommand, "submit_candidate"))
      case OpenChallenge(_, _, _, _, _, evidence, _, _) =>
        if ValidRefs(evidence) then None else Some(Reject(InvalidCommand, "open_challenge"))
      case _ => None
  }

  /** A receipt is authentic when its key really signed its statement. */
  predicate Authentic(r: VerifierReceipt) {
    r.signature == Signed(r.publicKey, r.statement)
  }

  /** Every receipt is authentic and no receipt, hence no receipt digest, repeats. */
  predicate ValidEvidence(evidence: seq<VerifierReceipt>) {
    && (forall i | 0 <= i < |evidence| :: Authentic(evidence[i]))
    && Distinct(evidence)
  }

  /** The supplied receipt whose digest is `ref`. */
  function FindReceipt(evidence: seq<VerifierReceipt>, ref: Ref): (r: Option<VerifierReceipt>)
    ensures r.Some? ==> r.value in evidence && ref == ReceiptRef(r.value)
    ensures r.None? ==> forall i | 0 <= i < |evidence| :: ReceiptRef(evidence[i]) != ref
  {
    if evidence == [] then None
    else if ReceiptRef(evidence[0]) == ref then Some(evidence[0])
    else FindReceipt(evidence[1..], ref)
  }

  function SubmissionStatementFor(s: BountyState, accepted: bool, p: MarketPolicy, sub: SubmissionState): VerifierStatement {
    SubmissionStatement(StateHash(s), PolicyHash(p), s.terms.bountyId, s.terms.claimRef, s.terms.contextRef,
                        sub.submissionId, sub.recipeRef, sub.evidenceRefs, sub.artifactRefs, accepted)
  }

  function ChallengeStatementFor(s: BountyState, upheld: bool, p: MarketPolicy, ch: ChallengeState): VerifierStatement {
    ChallengeStatement(StateHash(s), PolicyHash(p), s.terms.bountyId, s.terms.claimRef, s.terms.contextRef,
                       ch.challengeId, ch.submissionId, ch.findingKind, ch.evidenceRefs, upheld)
  }

  /** The statement is about this state, policy and bounty. */
  predicate BoundToBounty(st: VerifierStatement, s: BountyState, p: MarketPolicy) {
    && st.preStateHash == StateHash(s)
    && st.policyHash == PolicyHash(p)
    && st.bountyId == s.terms.bountyId
    && st.claimRef == s.terms.claimRef
    && st.contextRef == s.terms.contextRef
  }

  /** A cited receipt that is present must fit the command; None means no fault. */
  function BindingFault(s: BountyState, c: MarketCommand, p: MarketPolicy, evidence: seq<VerifierReceipt>): (r: Option<Decision>)
    ensures r.Some? ==> r.value.Reject?
  {
    match c
    case VerifySubmission(_, subId, verifierRef, receiptRef, accepted, _) =>
      var found := FindReceipt(evidence, receiptRef);
      if found.None? then None
      else
        var st := found.value.statement;
        var sub := FindSubmission(s.submissions, subId);
        if !st.SubmissionStatement? then Some(Reject(InvalidEvidence, "verifier_receipt"))
        else if !(BoundToBounty(st, s, p) && st.submissionId == subId && st.accepted == accepted) then
          Some(Reject(InvalidEvidence, "verifier_receipt"))
        else if sub.Some? && st != SubmissionStatementFor(s, accepted, p, sub.value) then
          Some(Reject(InvalidEvidence, "verifier_receipt"))
        else if KeyRef(found.value.publicKey) != verifierRef
             || (sub.Some? && KeyRef(found.value.publicKey) != sub.value.verifierRef) then
          Some(Reject(InvalidEvidence, "verifier_ref"))
        else None
    case ResolveChallenge(_, chId, verifierRef, receiptRef, upheld, _) =>
      var found := FindReceipt(evidence, receiptRef);
      if found.None? then None
      else
        var st := found.value.statement;
        var ch := FindChallenge(s.challenges, chId);
        if !st.ChallengeStatement? then Some(Reject(InvalidEvidence, "verifier_receipt"))
        else if !(BoundToBounty(st, s, p) && st.challengeId == chId && st.upheld == upheld) then
          Some(Reject(InvalidEvidence, "verifier_receipt"))
        else if ch.Some? && st != ChallengeStatementFor(s, upheld, p, ch.value) then
          Some(Reject(InvalidEvidence, "verifier_receipt"))
        else if KeyRef(found.value.publicKey) != verifierRef then
          Some(Reject(InvalidEvidence, "verifier_ref"))
        else None
    case _ => None
  }

  /** Admission of the cited receipt against one exact expected statement. */
  function AdmissionFault(evidence: seq<VerifierReceipt>, receiptRef: Ref, expected: VerifierStatement,
                          verifierRef: Ref, subjectVerifier: Option<Ref>, terms: BountyTerms): (r: Option<Decision>)
    ensures r.Some? ==> r.value.Reject?
  {
    var found := FindReceipt(evidence, receiptRef);
    if found.None? then Some(Reject(MissingEvidence, "verifier_receipt_ref"))
    else
      var key := KeyRef(found.value.publicKey);
      if !Authentic(found.value) then Some(Reject(InvalidEvidence, "verifier_receipt"))
      else if found.value.statement != expected then Some(Reject(InvalidEvidence, "verifier_receipt"))
      else if key != verifierRef || (subjectVerifier.Some? && key != subjectVerifier.value) then
        Some(Reject(InvalidEvidence, "verifier_ref"))
      else if key !in terms.acceptedVerifierRefs then Some(Reject(PolicyMismatch, "verifier_ref"))
      else None
  }

  // ----- Handlers -----------------------------------------------------------------------

  function Rank(phase: BountyPhase): nat {
    match phase
    case Draft => 0
    case Open => 1
    case Payable => 2
    case _ => 3
  }

  /** The phase graph: draft opens; open stays, becomes payable, expires or is canceled;
      payable settles; the last three phases have no way out. */
  predicate PhaseStep(a: BountyPhase, b: BountyPhase) {
    match a
    case Draft => b.Open?
    case Open => b.Open? || b.Payable? || b.Expired? || b.Canceled?
    case Payable => b.Settled?
    case _ => false
  }

  /** What every committed decision has in common: the terms stay, the command id is
      recorded, the phase takes one step of the phase graph, payable ids appear only on
      becoming payable, and the receipt binds the command, the new state and the effects. */
  predicate Commits(s: BountyState, c: MarketCommand, d: Decision) {
    d.Committed() ==>
      && d.next.terms == s.terms
      && d.next.processed == s.processed + {c.commandId}
      && PhaseStep(s.phase, d.next.phase)
      && (d.next.payableIds != s.payableIds ==> d.next.phase.Payable?)
      && d.receipt.command == c
      && d.receipt.previousPhase == s.phase
      && d.receipt.stateHash == StateHash(d.next)
      && d.receipt.effectPlan == d.effects
  }

  function DecideOpen(s: BountyState, c: MarketCommand, p: MarketPolicy): (d: Decision)
    requires c.OpenBounty?
    ensures Commits(s, c, d)
  {
    if !s.phase.Draft? then Reject(WrongPhase, "phase")
    else if c.now >= s.terms.deadline then Reject(TimeWindow, "deadline")
    else if c.sponsorRef != s.terms.sponsorRef then Reject(PolicyMismatch, "sponsor_ref")
    else if c.funded != Max(s.terms.reward, p.minimumBounty) then Reject(InsufficientAmount, "funded")
    else
      var next := s.(phase := Open, escrowLocked := c.funded, processed := s.processed + {c.commandId});
      Accepted(s, next, c, "bounty_opened", [Effect(LockEscrow, c.sponsorRef, c.funded, s.terms.bountyId)])
  }

  function NewSubmission(c: MarketCommand): SubmissionState
    requires c.SubmitCandidate?
  {
    SubmissionState(c.submissionId, c.submitterRef, c.recipeRef, c.verifierRef, c.evidenceRefs,
                    c.artifactRefs, c.now, Pending, c.bond, None)
  }

  function DecideSubmit(s: BountyState, c: MarketCommand, p: MarketPolicy): (d: Decision)
    requires c.SubmitCandidate?
    ensures Commits(s, c, d)
  {
    if !ValidId(c.submissionId) || c.submitterRef == "" then Reject(InvalidCommand, "submission")
    else if !(ValidRef(c.recipeRef) && ValidRef(c.verifierRef)) then Reject(InvalidCommand, "recipe_or_verifier_ref")
    else if !(ValidRefs(c.evidenceRefs) && ValidRefs(c.artifactRefs)) then Reject(InvalidCommand, "evidence_or_artifact_ref")
    else if !s.phase.Open? then Reject(WrongPhase, "phase")
    else if c.now > s.terms.deadline then Reject(TimeWindow, "deadline")
    else if FindSubmission(s.submissions, c.submissionId).Some? then Reject(DuplicateEntity, "submission_id")
    else if c.recipeRef !in s.terms.acceptedRecipeRefs then Reject(PolicyMismatch, "recipe_ref")
    else if c.verifierRef !in s.terms.acceptedVerifierRefs then Reject(PolicyMismatch, "verifier_ref")
    else if c.evidenceRefs == [] then Reject(MissingEvidence, "evidence_refs")
    else if c.bond < Max(s.terms.minimumSubmissionBond, p.minimumSubmissionBond) then Reject(InsufficientAmount, "bond")
    else
      var next := s.(submissions := s.submissions + [NewSubmission(c)], processed := s.processed + {c.commandId});
      Accepted(s, next, c, "candidate_submitted",
               [Effect(LockSubmissionBond, c.submitterRef, c.bond, c.submissionId)])
  }

  function DecideVerify(s: BountyState, c: MarketCommand, p: MarketPolicy, evidence: seq<VerifierReceipt>): (d: Decision)
    requires c.VerifySubmission?
    ensures Commits(s, c, d)
  {
    if !(ValidId(c.submissionId) && ValidRef(c.verifierRef)) then Reject(InvalidCommand, "submission_or_verifier")
    else if !ValidRef(c.receiptRef) then Reject(InvalidCommand, "verifier_receipt_ref")
    else if !s.phase.Open? then Reject(WrongPhase, "phase")
    else if c.now > ChallengeDeadline(s.terms) then Reject(TimeWindow, "challenge_deadline")
    else
      var found := FindSubmission(s.submissions, c.submissionId);
      if found.None? then Reject(UnknownEntity, "submission_id")
      else
        var sub := found.value;
        if !sub.status.Pending? then Reject(PolicyMismatch, "submission_status")
        else if c.verifierRef != sub.verifierRef then Reject(PolicyMismatch, "verifier_ref")
        else
          var fault := AdmissionFault(evidence, c.receiptRef, SubmissionStatementFor(s, c.accepted, p, sub),
                                      c.verifierRef, Some(sub.verifierRef), s.terms);
          if fault.Some? then fault.value else ApplyVerdict(s, c, sub)
  }

  function ApplyVerdict(s: BountyState, c: MarketCommand, sub: SubmissionState): (d: Decision)
    requires c.VerifySubmission? && s.phase.Open?
    ensures Commits(s, c, d)
  {
    var judged := sub.(status := if c.accepted then Verified else SubmissionRejected,
                       bondLocked := if c.accepted then sub.bondLocked else 0,
                       receiptRef := Some(c.receiptRef));
    var next := s.(submissions := PutSubmission(s.submissions, judged), processed := s.processed + {c.commandId});
    if c.accepted then Accepted(s, next, c, "submission_verified", [])
    else Failed(s, next, c, "submission_rejected", VerifierRejected,
                [EffectWithReason(RefundSubmissionBond, sub.submitterRef, sub.bondLocked, sub.submissionId,
                                  "honest_verifier_rejection")])
  }

  function NewChallenge(c: MarketCommand): ChallengeState
    requires c.OpenChallenge?
  {
    ChallengeState(c.challengeId, c.submissionId, c.challengerRef, c.findingKind, c.evidenceRefs,
                   c.now, ChallengeOpen, c.deposit, None)
  }

  predicate HasOpenChallenge(chs: seq<ChallengeState>, submissionId: string) {
    exists i | 0 <= i < |chs| :: chs[i].submissionId == submissionId && chs[i].status.ChallengeOpen?
  }

  function DecideChallenge(s: BountyState, c: MarketCommand, p: MarketPolicy): (d: Decision)
    requires c.OpenChallenge?
    ensures Commits(s, c, d)
  {
    if !(ValidId(c.challengeId) && ValidId(c.submissionId)) then Reject(InvalidCommand, "challenge_or_submission_id")
    else if c.challengerRef == "" || c.findingKind == "" then Reject(InvalidCommand, "challenger_or_finding")
    else if !ValidRefs(c.evidenceRefs) then Reject(InvalidCommand, "evidence_refs")
    else if !s.phase.Open? then Reject(WrongPhase, "phase")
    else if c.now > ChallengeDeadline(s.terms) then Reject(TimeWindow, "challenge_deadline")
    else if FindChallenge(s.challenges, c.challengeId).Some? then Reject(DuplicateEntity, "challenge_id")
    else
      var found := FindSubmission(s.submissions, c.submissionId);
      if found.None? then Reject(UnknownEntity, "submission_id")
      else if !found.value.status.Verified? then Reject(PolicyMismatch, "submission_status")
      else if HasOpenChallenge(s.challenges, c.submissionId) then Reject(PolicyMismatch, "submission_id")
      else if c.findingKind !in p.slashableFindings then Reject(PolicyMismatch, "finding_kind")
      else if c.evidenceRefs == [] then Reject(MissingEvidence, "evidence_refs")
      else if c.deposit < p.minimumChallengeDeposit then Reject(InsufficientAmount, "deposit")
      else
        var next := s.(challenges := s.challenges + [NewChallenge(c)], processed := s.processed + {c.commandId});
        Accepted(s, next, c, "challenge_opened",
                 [Effect(LockChallengeDeposit, c.challengerRef, c.deposit, c.challengeId)])
  }

  function DecideResolve(s: BountyState, c: MarketCommand, p: MarketPolicy, evidence: seq<VerifierReceipt>): (d: Decision)
    requires c.ResolveChallenge?
    ensures Commits(s, c, d)
  {
    if !(ValidId(c.challengeId) && ValidRef(c.verifierRef)) then Reject(InvalidCommand, "challenge_or_verifier")
    else if !ValidRef(c.receiptRef) then Reject(InvalidCommand, "verifier_receipt_ref")
    else if !s.phase.Open? then Reject(WrongPhase, "phase")
    else
      var found := FindChallenge(s.challenges, c.challengeId);
      if found.None? then Reject(UnknownEntity, "challenge_id")
      else
        var ch := found.value;
        if !ch.status.ChallengeOpen? then Reject(PolicyMismatch, "challenge_status")
        else if c.now > ResolutionDeadline(s.terms, ch, p) then Reject(TimeWindow, "resolution_deadline")
        else if c.verifierRef !in s.terms.acceptedVerifierRefs then Reject(PolicyMismatch, "verifier_ref")
        else
          var subject := FindSubmission(s.submissions, ch.submissionId);
          if subject.None? then Reject(UnknownEntity, "submission_id")
          else
            var fault := AdmissionFault(evidence, c.receiptRef, ChallengeStatementFor(s, c.upheld, p, ch),
                                        c.verifierRef, None, s.terms);
            if fault.Some? then fault.value else ApplyResolution(s, c, p, ch, subject.value)
  }

  function ApplyResolution(s: BountyState, c: MarketCommand, p: MarketPolicy,
                           ch: ChallengeState, sub: SubmissionState): (d: Decision)
    requires c.ResolveChallenge? && s.phase.Open?
    ensures Commits(s, c, d)
  {
    var closed := ch.(status := if c.upheld then Upheld else ChallengeRejected,
                      depositLocked := 0,
                      receiptRef := Some(c.receiptRef));
    if c.upheld then
      var struck := sub.(status := SubmissionRejected, bondLocked := 0);
      var next := s.(submissions := PutSubmission(s.submissions, struck),
                     challenges := PutChallenge(s.challenges, closed),
                     processed := s.processed + {c.commandId});
      Accepted(s, next, c, "challenge_upheld",
               [Effect(RefundChallengeDeposit, ch.challengerRef, ch.depositLocked, ch.challengeId),
                MarketEffect(SlashSubmissionBond, p.treasuryRef, sub.bondLocked, sub.submissionId,
                             map["finding_kind" := ch.findingKind])])
    else
      var next := s.(challenges := PutChallenge(s.challenges, closed), processed := s.processed + {c.commandId});
      Failed(s, next, c, "challenge_rejected", ChallengeWasRejected,
             [MarketEffect(SlashChallengeDeposit, p.treasuryRef, ch.depositLocked, ch.challengeId,
                           map["finding_kind" := ch.findingKind])])
  }

  function DecideCancel(s: BountyState, c: MarketCommand): (d: Decision)
    requires c.CancelBounty?
    ensures Commits(s, c, d)
  {
    if !s.phase.Open? then Reject(WrongPhase, "phase")
    else if c.now >= s.terms.deadline then Reject(TimeWindow, "deadline")
    else if s.submissions != [] || s.challenges != [] then Reject(PolicyMismatch, "market_activity")
    else if c.sponsorRef != s.terms.sponsorRef then Reject(PolicyMismatch, "sponsor_ref")
    else
      var next := s.(phase := Canceled, escrowLocked := 0, processed := s.processed + {c.commandId});
      Accepted(s, next, c, "bounty_canceled",
               [EffectWithReason(RefundEscrow, s.terms.sponsorRef, s.escrowLocked, s.terms.bountyId,
                                 "sponsor_cancel_before_activity")])
  }

  // ----- Advance: what the loops of the advance handler compute ---------------------------

  function TimedOut(ch: ChallengeState): ChallengeState {
    ch.(status := ChallengeRejected, depositLocked := 0)
  }

  /** Every open challenge timed out, every other challenge untouched. */
  function CloseOpen(chs: seq<ChallengeState>): (out: seq<ChallengeState>)
    ensures |out| == |chs|
  {
    seq(|chs|, i requires 0 <= i < |chs| => if chs[i].status.ChallengeOpen? then TimedOut(chs[i]) else chs[i])
  }

  function TimeoutEffect(ch: ChallengeState, p: MarketPolicy): MarketEffect {
    MarketEffect(SlashChallengeDeposit, p.treasuryRef, ch.depositLocked, ch.challengeId,
                 map["finding_kind" := ch.findingKind, "reason" := "resolution_timeout"])
  }

  function TimeoutEffects(chs: seq<ChallengeState>, p: MarketPolicy): seq<MarketEffect> {
    if chs == [] then []
    else
      var last := chs[|chs| - 1];
      TimeoutEffects(chs[..|chs| - 1], p) + (if last.status.ChallengeOpen? then [TimeoutEffect(last, p)] else [])
  }

  /** Submissions are paid in order of arrival, ties broken by id. */
  predicate ArrivesBefore(a: SubmissionState, b: SubmissionState) {
    a.submittedAt < b.submittedAt || (a.submittedAt == b.submittedAt && StringLe(a.submissionId, b.submissionId))
  }

  function SortByArrival(subs: seq<SubmissionState>): seq<SubmissionState> { SortBy(subs, ArrivesBefore) }

  /** Ids of the verified submissions, in the order given. */
  function VerifiedIds(subs: seq<SubmissionState>): seq<string> {
    if subs == [] then []
    else (if subs[0].status.Verified? then [subs[0].submissionId] else []) + VerifiedIds(subs[1..])
  }

  function EligibleIds(subs: seq<SubmissionState>): seq<string> {
    VerifiedIds(SortByArrival(subs))
  }

  /** Every bond released. */
  function ReleaseBonds(subs: seq<SubmissionState>): (out: seq<SubmissionState>)
    ensures |out| == |subs|
  {
    seq(|subs|, i requires 0 <= i < |subs| => subs[i].(bondLocked := 0))
  }

  function BondRefunds(subs: seq<SubmissionState>, reason: string): seq<MarketEffect> {
    if subs == [] then []
    else
      var last := subs[|subs| - 1];
      BondRefunds(subs[..|subs| - 1], reason) +
      (if last.bondLocked > 0
       then [EffectWithReason(RefundSubmissionBond, last.submitterRef, last.bondLocked, last.submissionId, reason)]
       else [])
  }

  predicate AdjudicationOpen(s: BountyState, now: int, p: MarketPolicy) {
    exists i | 0 <= i < |s.challenges| ::
      s.challenges[i].status.ChallengeOpen? && now <= ResolutionDeadline(s.terms, s.challenges[i], p)
  }

  function DecideAdvance(s: BountyState, c: MarketCommand, p: MarketPolicy): (d: Decision)
    requires c.AdvanceBounty?
    ensures Commits(s, c, d)
  {
    if !s.phase.Open? then Reject(WrongPhase, "phase")
    else if c.now <= ChallengeDeadline(s.terms) then Reject(TimeWindow, "challenge_deadline")
    else if AdjudicationOpen(s, c.now, p) then Reject(PolicyMismatch, "challenges")
    else
      var eligible := EligibleIds(s.submissions);
      var timeouts := TimeoutEffects(s.challenges, p);
      if eligible != [] then
        var next := s.(phase := Payable, challenges := CloseOpen(s.challenges), payableIds := eligible,
                       processed := s.processed + {c.commandId});
        Accepted(s, next, c, "bounty_payable", timeouts)
      else
        var next := s.(phase := Expired, escrowLocked := 0, submissions := ReleaseBonds(s.submissions),
                       challenges := CloseOpen(s.challenges), processed := s.processed + {c.commandId});
        var refund := EffectWithReason(RefundEscrow, s.terms.sponsorRef, s.escrowLocked, s.terms.bountyId,
                                       "no_payable_submission");
        Failed(s, next, c, "bounty_expired", NoPayableSubmission,
               timeouts + [refund] + BondRefunds(s.submissions, "bounty_expired"))
  }

  // ----- Settle: what the loops of the settlement handler compute --------------------------

  function EligibleSubmission(s: BountyState, id: string): Option<SubmissionState> {
    if id in s.payableIds then FindSubmission(s.submissions, id) else None
  }

  /** The fault found at the k-th payout, given the ones before it. */
  function PayoutFault(s: BountyState, payouts: seq<Payout>, k: nat): (r: Option<Decision>)
    requires k < |payouts|
    ensures r.Some? ==> r.value.Reject?
  {
    var sub := EligibleSubmission(s, payouts[k].submissionId);
    if sub.None? then Some(Reject(UnknownEntity, "submission_id"))
    else if exists j | 0 <= j < k :: payouts[j].submissionId == payouts[k].submissionId then
      Some(Reject(DuplicateEntity, "submission_id"))
    else if payouts[k].recipientRef != sub.value.submitterRef then Some(Reject(PolicyMismatch, "recipient_ref"))
    else None
  }

  function FirstPayoutFault(s: BountyState, payouts: seq<Payout>, k: nat): (r: Option<Decision>)
    requires k <= |payouts|
    ensures r.Some? ==> r.value.Reject?
    decreases |payouts| - k
  {
    if k == |payouts| then None
    else
      var fault := PayoutFault(s, payouts, k);
      if fault.Some? then fault else FirstPayoutFault(s, payouts, k + 1)
  }

  function PayoutTotal(payouts: seq<Payout>): nat {
    if payouts == [] then 0 else PayoutTotal(payouts[..|payouts| - 1]) + payouts[|payouts| - 1].amount
  }

  function PayoutEffects(payouts: seq<Payout>): (out: seq<MarketEffect>)
    ensures |out| == |payouts|
  {
    seq(|payouts|, i requires 0 <= i < |payouts| =>
      Effect(PayoutEffect, payouts[i].recipientRef, payouts[i].amount, payouts[i].submissionId))
  }

  function DecideSettle(s: BountyState, c: MarketCommand): (d: Decision)
    requires c.SettleBounty?
    ensures Commits(s, c, d)
  {
    if c.settlementRef == "" then Reject(InvalidCommand, "settlement_ref")
    else if exists i | 0 <= i < |c.payouts| :: !ValidId(c.payouts[i].submissionId) || c.payouts[i].recipientRef == "" then
      Reject(InvalidCommand, "payout")
    else if !s.phase.Payable? then Reject(WrongPhase, "phase")
    else if c.payouts == [] then Reject(MissingEvidence, "payouts")
    else
      var fault := FirstPayoutFault(s, c.payouts, 0);
      if fault.Some? then fault.value
      else if PayoutTotal(c.payouts) != s.escrowLocked then Reject(ConservationFailure, "payouts")
      else
        var next := s.(phase := Settled, escrowLocked := 0, submissions := ReleaseBonds(s.submissions),
                       settlementRef := Some(c.settlementRef), processed := s.processed + {c.commandId});
        Accepted(s, next, c, "bounty_settled",
                 PayoutEffects(c.payouts) + BondRefunds(s.submissions, "settlement_complete"))
  }

  // ----- Entry point ------------------------------------------------------------------------

  function Dispatch(s: BountyState, c: MarketCommand, p: MarketPolicy, evidence: seq<VerifierReceipt>): (d: Decision)
    ensures Commits(s, c, d)
  {
    match c
    case OpenBounty(_, _, _, _) => DecideOpen(s, c, p)
    case SubmitCandidate(_, _, _, _, _, _, _, _, _) => DecideSubmit(s, c, p)
    case VerifySubmission(_, _, _, _, _, _) => DecideVerify(s, c, p, evidence)
    case OpenChallenge(_, _, _, _, _, _, _, _) => DecideChallenge(s, c, p)
    case ResolveChallenge(_, _, _, _, _, _) => DecideResolve(s, c, p, evidence)
    case AdvanceBounty(_, _) => DecideAdvance(s, c, p)
    case SettleBounty(_, _, _, _) => DecideSettle(s, c)
    case CancelBounty(_, _, _) => DecideCancel(s, c)
  }

  /** One market transition, with every validation in the source's order. */
  function ApplyMarketCommand(s: BountyState, c: MarketCommand, p: MarketPolicy, evidence: seq<VerifierReceipt>): (d: Decision)
    ensures Commits(s, c, d)
    ensures d.Committed() ==> ValidState(s) && c.commandId !in s.processed
  {
    if !ValidState(s) then Reject(InvalidState, "state")
    else if !ValidPolicy(p) then Reject(InvalidPolicy, "policy")
    else if CommonFault(c).Some? then CommonFault(c).value
    else if !ValidEvidence(evidence) then Reject(InvalidEvidence, "evidence")
    else if BindingFault(s, c, p, evidence).Some? then BindingFault(s, c, p, evidence).value
    else if c.commandId in s.processed then Reject(DuplicateCommand, "command_id")
    else Dispatch(s, c, p, evidence)
  }

  // ----- The handlers that loop, as loops ------------------------------------------------

  lemma CloseOpenStep(chs: seq<ChallengeState>, i: nat)
    requires UniqueChallenges(chs) && i < |chs|
    ensures var prefix := CloseOpen(chs[..i]) + chs[i..];
      CloseOpen(chs[..i + 1]) + chs[i + 1..]
        == if chs[i].status.ChallengeOpen? then PutChallenge(prefix, TimedOut(chs[i])) else prefix
  {
    var prefix := CloseOpen(chs[..i]) + chs[i..];
    var after := CloseOpen(chs[..i + 1]) + chs[i + 1..];
    forall k | 0 <= k < |chs| && k != i ensures after[k] == prefix[k] && prefix[k].challengeId != chs[i].challengeId {
    }
  }

  /** Time out every open challenge, one replacement at a time. */
  method CloseChallenges(chs: seq<ChallengeState>, p: MarketPolicy)
    returns (next: seq<ChallengeState>, effects: seq<MarketEffect>)
    requires UniqueChallenges(chs)
    ensures next == CloseOpen(chs)
    ensures effects == TimeoutEffects(chs, p)
  {
    next, effects := chs, [];
    for i := 0 to |chs|
      invariant next == CloseOpen(chs[..i]) + chs[i..]
      invariant effects == TimeoutEffects(chs[..i], p)
    {
      CloseOpenStep(chs, i);
      assert chs[..i + 1][..i] == chs[..i];
      if chs[i].status.ChallengeOpen? {
        next := PutChallenge(next, TimedOut(chs[i]));
        effects := effects + [TimeoutEffect(chs[i], p)];
      }
    }
    assert chs[..|chs|] == chs;
  }

  /** Release every bond still locked, one submission at a time. */
  method RefundBonds(subs: seq<SubmissionState>, reason: string, before: seq<MarketEffect>)
    returns (next: seq<SubmissionState>, effects: seq<MarketEffect>)
    ensures next == ReleaseBonds(subs)
    ensures effects == before + BondRefunds(subs, reason)
  {
    next, effects := [], before;
    for i := 0 to |subs|
      invariant next == ReleaseBonds(subs[..i])
      invariant effects == before + BondRefunds(subs[..i], reason)
    {
      var sub := subs[i];
      assert subs[..i + 1][..i] == subs[..i];
      assert ReleaseBonds(subs[..i + 1]) == ReleaseBonds(subs[..i]) + [sub.(bondLocked := 0)];
      if sub.bondLocked > 0 {
        effects := effects +
          [EffectWithReason(RefundSubmissionBond, sub.submitterRef, sub.bondLocked, sub.submissionId, reason)];
        next := next + [sub.(bondLocked := 0)];
      } else {
        next := next + [sub];
      }
    }
    assert subs[..|subs|] == subs;
  }

  method RunAdvance(s: BountyState, c: MarketCommand, p: MarketPolicy) returns (d: Decision)
    requires c.AdvanceBounty? && UniqueChallenges(s.challenges)
    ensures d == DecideAdvance(s, c, p)
  {
    if !s.phase.Open? { return Reject(WrongPhase, "phase"); }
    if c.now <= ChallengeDeadline(s.terms) { return Reject(TimeWindow, "challenge_deadline"); }
    if AdjudicationOpen(s, c.now, p) { return Reject(PolicyMismatch, "challenges"); }
    var nextChallenges, effects := CloseChallenges(s.challenges, p);
    var eligible := EligibleIds(s.submissions);
    if eligible != [] {
      var payable := s.(phase := Payable, challenges := nextChallenges, payableIds := eligible,
                        processed := s.processed + {c.commandId});
      return Accepted(s, payable, c, "bounty_payable", effects);
    }
    effects := effects + [EffectWithReason(RefundEscrow, s.terms.sponsorRef, s.escrowLocked, s.terms.bountyId,
                                           "no_payable_submission")];
    var nextSubmissions;
    nextSubmissions, effects := RefundBonds(s.submissions, "bounty_expired", effects);
    var expired := s.(phase := Expired, escrowLocked := 0, submissions := nextSubmissions,
                      challenges := nextChallenges, processed := s.processed + {c.commandId});
    return Failed(s, expired, c, "bounty_expired", NoPayableSubmission, effects);
  }

  lemma FirstPayoutFaultAt(s: BountyState, payouts: seq<Payout>, k: nat, n: nat)
    requires k <= n <= |payouts|
    requires forall j | k <= j < n :: PayoutFault(s, payouts, j).None?
    ensures FirstPayoutFault(s, payouts, k) == FirstPayoutFault(s, payouts, n)
    decreases n - k
  {
    if k < n { FirstPayoutFaultAt(s, payouts, k + 1, n); }
  }

  /** Check the payouts one by one, remembering the ids already paid and the running total. */
  method CheckPayouts(s: BountyState, payouts: seq<Payout>) returns (fault: Option<Decision>, total: nat)
    ensures fault == FirstPayoutFault(s, payouts, 0)
    ensures fault.None? ==> total == PayoutTotal(payouts)
  {
    var seen: set<string> := {};
    total := 0;
    for i := 0 to |payouts|
      invariant forall j | 0 <= j < i :: PayoutFault(s, payouts, j).None?
      invariant forall id :: id in seen <==> exists j | 0 <= j < i :: payouts[j].submissionId == id
      invariant total == PayoutTotal(payouts[..i])
    {
      FirstPayoutFaultAt(s, payouts, 0, i);
      var sub := EligibleSubmission(s, payouts[i].submissionId);
      if sub.None? { return Some(Reject(UnknownEntity, "submission_id")), total; }
      if payouts[i].submissionId in seen { return Some(Reject(DuplicateEntity, "submission_id")), total; }
      seen := seen + {payouts[i].submissionId};
      if payouts[i].recipientRef != sub.value.submitterRef { return Some(Reject(PolicyMismatch, "recipient_ref")), total; }
      assert payouts[..i + 1][..i] == payouts[..i];
      total := total + payouts[i].amount;
    }
    FirstPayoutFaultAt(s, payouts, 0, |payouts|);
    assert payouts[..|payouts|] == payouts;
    fault := None;
  }

  method RunSettle(s: BountyState, c: MarketCommand) returns (d: Decision)
    requires c.SettleBounty?
    ensures d == DecideSettle(s, c)
  {
    if c.settlementRef == "" { return Reject(InvalidCommand, "settlement_ref"); }
    if exists i | 0 <= i < |c.payouts| :: !ValidId(c.payouts[i].submissionId) || c.payouts[i].recipientRef == "" {
      return Reject(InvalidCommand, "payout");
    }
    if !s.phase.Payable? { return Reject(WrongPhase, "phase"); }
    if c.payouts == [] { return Reject(MissingEvidence, "payouts"); }
    var fault, total := CheckPayouts(s, c.payouts);
    if fault.Some? { return fault.value; }
    if total != s.escrowLocked { return Reject(ConservationFailure, "payouts"); }
    var nextSubmissions, effects := RefundBonds(s.submissions, "settlement_complete", PayoutEffects(c.payouts));
    var next := s.(phase := Settled, escrowLocked := 0, submissions := nextSubmissions,
                   settlementRef := Some(c.settlementRef), processed := s.processed + {c.commandId});
    return Accepted(s, next, c, "bounty_settled", effects);
  }
}
