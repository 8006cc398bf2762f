/** What the adapter answers, on abstract states alone: which requests it accepts, when a
    step is a transition, and what the transition does to the abstract state. */
module AbstractSteps {
  import opened Prelude
  import opened MarketTypes
  import opened MarketInvariants
  import opened Market
  import opened MarketErasure
  import opened MarketValidity
  import opened MarketRules
  import opened MarketChanges
  import opened FiniteState
  import opened MarketAdapter
  import opened MarketRefinement

  // ----- Times --------------------------------------------------------------------------------------------

  /** The profile gives this time, an integer, for this class. */
  ghost predicate StandsFor(p: Profile, tc: TimeClass, epoch: int) {
    var name :=
      match tc
      case PreDeadline => "pre_deadline"
      case AtDeadline => "at_deadline"
      case ChallengeWindow => "challenge_window"
      case PostChallengeWindow => "post_challenge_window"
      case PostResolutionDeadline => "post_resolution_deadline";
    name in p.times && p.times[name] == Stamp(epoch)
  }

  /** The first class, in their fixed order, standing for this time. */
  ghost predicate First(p: Profile, tc: TimeClass, epoch: int) {
    exists n :: 0 <= n < |TIME_CLASSES| && TIME_CLASSES[n] == tc && StandsFor(p, tc, epoch)
      && forall k | 0 <= k < n :: !StandsFor(p, TIME_CLASSES[k], epoch)
  }

  lemma StandsExactly(p: Profile, tc: TimeClass, epoch: int)
    ensures StandsFor(p, tc, epoch) <==> ClassEpoch(p, tc) == Some(epoch)
  {
  }

  lemma FirstExactly(p: Profile, tc: TimeClass, epoch: int)
    ensures First(p, tc, epoch) <==> EpochClass(p, epoch) == Some(tc)
  {
    forall t: TimeClass ensures StandsFor(p, t, epoch) <==> ClassEpoch(p, t) == Some(epoch) { StandsExactly(p, t, epoch); }
    hide StandsFor, ClassEpoch;
    assert TIME_CLASSES[0] == PreDeadline && TIME_CLASSES[1] == AtDeadline && TIME_CLASSES[2] == ChallengeWindow;
    assert TIME_CLASSES[3] == PostChallengeWindow && TIME_CLASSES[4] == PostResolutionDeadline;
  }

  // ----- Which requests are accepted ------------------------------------------------------------------------

  /** The state is of the abstraction's shape, within the profile's bounds, and every class it
      records has a time. */
  ghost predicate InDomain(p: Profile, a: AbstractState) {
    && (a.submissionStatus.Some? <==> a.submissionTime.Some?) && (a.challengeStatus.Some? <==> a.challengeTime.Some?)
    && a.escrow <= p.reward && a.bond <= p.bond && a.deposit <= p.deposit
    && (a.submissionTime.Some? ==> exists t :: StandsFor(p, a.submissionTime.value, t))
    && (a.challengeTime.Some? ==> exists t :: StandsFor(p, a.challengeTime.value, t))
  }

  /** The command carries the verdict its kind needs and no other, a receipt only where one
      is read, and has an id. */
  ghost predicate CommandInDomain(p: Profile, c: AbstractCommand, receipt: Option<VerifierReceipt>) {
    && (c.accepted.Some? <==> c.kind == VerifyKind) && (c.upheld.Some? <==> c.kind == ResolveKind)
    && (receipt.Some? ==> c.kind in {VerifyKind, ResolveKind})
    && c.kind in p.commandIds
  }

  /** The named time of the request is its time, a truth value counting as 0 or 1. */
  ghost predicate TimeInDomain(p: Profile, r: Request) {
    r.timeClass in p.times && (p.times[r.timeClass] == Stamp(r.now) || (p.times[r.timeClass] == Flag(r.now == 1) && r.now <= 1))
  }

  /** Why a request is turned away before any market decision. */
  ghost predicate InputWrong(p: Profile, binding: Binding, r: Request, code: InvalidCode) {
    match code
    case ProfileMismatch => binding.profileHash != ProfileHash(p)
    case BindingMismatch => r.bindingHash != BindingHash(binding)
    case PreStateMismatch => r.expectedPreState != AbstractHash(r.state)
    case StateOutOfDomain => !InDomain(p, r.state) || (r.operation.Step? && !TimeInDomain(p, r))
    case CommandOutOfDomain => r.operation.Step? && !CommandInDomain(p, r.operation.command, r.operation.receipt)
  }

  lemma TimesExactly(p: Profile, a: AbstractState)
    requires a.submissionStatus.Some? <==> a.submissionTime.Some?
    requires a.challengeStatus.Some? <==> a.challengeTime.Some?
    ensures ConcretizeState(p, a).Some? <==>
      (a.submissionTime.Some? ==> exists t :: StandsFor(p, a.submissionTime.value, t))
      && (a.challengeTime.Some? ==> exists t :: StandsFor(p, a.challengeTime.value, t))
  {
    hide ProcessedIds, ClassEpoch, StandsFor;
    forall tc: TimeClass, t ensures StandsFor(p, tc, t) <==> ClassEpoch(p, tc) == Some(t) { StandsExactly(p, tc, t); }
    forall tc: TimeClass | ClassEpoch(p, tc).Some? ensures StandsFor(p, tc, ClassEpoch(p, tc).value) { }
  }

  lemma DomainExactly(p: Profile, a: AbstractState)
    ensures InDomain(p, a) <==>
      TemporallyConsistent(a) && WithinBounds(a, p.reward, p.bond, p.deposit) && ConcretizeState(p, a).Some?
  {
    if TemporallyConsistent(a) { TimesExactly(p, a); }
    hide ConcretizeState, StandsFor;
  }

  lemma CommandExactly(p: Profile, c: AbstractCommand, receipt: Option<VerifierReceipt>, now: int)
    ensures CommandInDomain(p, c, receipt) <==>
      WellFormedCommand(c) && !(receipt.Some? && !(c.kind.VerifyKind? || c.kind.ResolveKind?))
      && ConcretizeCommand(p, c, now, EvidenceRef(receipt)).Some?
  {
  }

  /** A request is turned away exactly when something is wrong with it, and the code names
      such a thing; checking a state answers whether the state it stands for is valid. */
  lemma InputExactly(p: Profile, binding: Binding, r: Request)
    ensures var answer := ApplyDataAdapter(p, binding, r);
      && (answer.InvalidInput? <==> exists code :: InputWrong(p, binding, r, code))
      && (answer.InvalidInput? ==> InputWrong(p, binding, r, answer.code))
      && (answer.Validated? <==> r.operation.ValidateState? && !answer.InvalidInput?)
      && (answer.Validated? ==> ConcretizeState(p, r.state).Some? && (answer.violations <==> !ValidState(ConcretizeState(p, r.state).value)))
  {
    hide InDomain, TimeInDomain, CommandInDomain, ConcretizeState, ConcretizeCommand, ApplyMarketCommand, DecisionResponse, ValidState;
    hide TemporallyConsistent, WithinBounds, EvidenceRef, Evidence, EqualsTime, WellFormedCommand;
    DomainExactly(p, r.state);
    if r.operation.Step? {
      CommandExactly(p, r.operation.command, r.operation.receipt, r.now);
      TimeExactly(p, r);
      DecisionsAnswer(p);
    }
    var answer := ApplyDataAdapter(p, binding, r);
    if answer.InvalidInput? { assert InputWrong(p, binding, r, answer.code); }
    else { assert forall code :: !InputWrong(p, binding, r, code); }
    assert answer.Validated? <==> r.operation.ValidateState? && !answer.InvalidInput?;
  }

  lemma DecisionsAnswer(p: Profile)
    ensures forall d :: DecisionResponse(p, d).Refusal? || DecisionResponse(p, d).Transition? || DecisionResponse(p, d).Raised?
  {
    hide ProjectState;
  }

  lemma TimeExactly(p: Profile, r: Request)
    ensures TimeInDomain(p, r) <==> r.timeClass in p.times && EqualsTime(p.times[r.timeClass], r.now)
  {
  }

  // ----- The state an abstract state stands for -----------------------------------------------------------------

  /** The profile's one submission and one challenge, as the abstract state records them, at
      times of their classes. */
  ghost predicate Pictures(p: Profile, a: AbstractState, c: BountyState) {
    Shows(p, a, c) && forall id :: id in c.processed <==> Done(p, a, id)
  }

  ghost predicate Shows(p: Profile, a: AbstractState, c: BountyState) {
    && c.terms == p.terms && c.phase == a.phase && c.escrowLocked == a.escrow
    && c.payableIds == (if a.payable then [p.submissionId] else [])
    && c.settlementRef == (if a.settled then Some(p.settlementRef) else None)
    && PicturesSubmission(p, a, c.submissions) && PicturesChallenge(p, a, c.challenges)
  }

  /** The id belongs to a command kind whose bit is set. */
  ghost predicate Done(p: Profile, a: AbstractState, id: string) {
    exists k: CommandKind :: HasBit(a.mask, k) && k in p.commandIds && p.commandIds[k] == id
  }

  ghost predicate PicturesSubmission(p: Profile, a: AbstractState, subs: seq<SubmissionState>) {
    if a.submissionStatus.None? then subs == []
    else
      && |subs| == 1 && a.submissionTime.Some? && StandsFor(p, a.submissionTime.value, subs[0].submittedAt)
      && subs[0] == SubmissionState(p.submissionId, p.submitterRef, p.recipeRef, p.verifierRef, p.evidenceRefs, p.artifactRefs,
                                    subs[0].submittedAt, a.submissionStatus.value, a.bond, subs[0].receiptRef)
  }

  ghost predicate PicturesChallenge(p: Profile, a: AbstractState, chs: seq<ChallengeState>) {
    if a.challengeStatus.None? then chs == []
    else
      && |chs| == 1 && a.challengeTime.Some? && StandsFor(p, a.challengeTime.value, chs[0].openedAt)
      && chs[0] == ChallengeState(p.challengeId, p.submissionId, p.challengerRef, "invalid_signature", p.challengeEvidenceRefs,
                                  chs[0].openedAt, a.challengeStatus.value, a.deposit, chs[0].receiptRef)
  }

  lemma ConcretePictures(p: Profile, a: AbstractState)
    requires InDomain(p, a)
    ensures ConcretizeState(p, a).Some? && Pictures(p, a, ConcretizeState(p, a).value)
  {
    DomainExactly(p, a);
    forall tc: TimeClass, t ensures StandsFor(p, tc, t) <==> ClassEpoch(p, tc) == Some(t) { StandsExactly(p, tc, t); }
    hide InDomain, HasBit, ClassEpoch, StandsFor, WithinBounds;
  }

  // ----- When a step is a transition ------------------------------------------------------------------------------

  /** The verifier of the profile issued this receipt for exactly this statement. */
  ghost predicate Issued(p: Profile, receipt: Option<VerifierReceipt>, statement: VerifierStatement) {
    receipt.Some? && receipt.value.statement == statement && KeyRef(receipt.value.publicKey) == p.verifierRef
  }

  /** The step's id is usable and fresh, the policy usable, and a receipt authentic. */
  ghost predicate Presentable(p: Profile, a: AbstractState, kind: CommandKind, receipt: Option<VerifierReceipt>)
    requires kind in p.commandIds
  {
    && ValidId(p.commandIds[kind]) && !Done(p, a, p.commandIds[kind])
    && p.policy.slashableFindings != {} && "" !in p.policy.slashableFindings && p.policy.treasuryRef != ""
    && p.policy.version != "" && p.policy.resolutionSeconds >= 0
    && (receipt.Some? ==> receipt.value.signature == Signed(receipt.value.publicKey, receipt.value.statement))
  }

  /** What each kind of step needs of the abstract state, the profile and the time. */
  ghost predicate Due(p: Profile, a: AbstractState, c: AbstractCommand, now: int, receipt: Option<VerifierReceipt>, pre: StateHash)
    requires (c.kind.VerifyKind? ==> c.accepted.Some?) && (c.kind.ResolveKind? ==> c.upheld.Some?)
  {
    var t := p.terms;
    match c.kind
    case OpenKind =>
      && a.phase.Draft? && now < t.deadline && p.sponsorRef == t.sponsorRef
      && p.reward >= t.reward && p.reward >= p.policy.minimumBounty && (p.reward == t.reward || p.reward == p.policy.minimumBounty)
    case SubmitKind =>
      && a.phase.Open? && now <= t.deadline && a.submissionStatus.None?
      && ValidId(p.submissionId) && p.submitterRef != ""
      && p.recipeRef in t.acceptedRecipeRefs && p.verifierRef in t.acceptedVerifierRefs
      && p.evidenceRefs != [] && ValidRefs(p.evidenceRefs + p.artifactRefs)
      && p.bond >= t.minimumSubmissionBond && p.bond >= p.policy.minimumSubmissionBond
    case VerifyKind =>
      && a.phase.Open? && now <= t.deadline + t.challengeWindow && a.submissionStatus == Some(Pending)
      && p.verifierRef in t.acceptedVerifierRefs
      && Issued(p, receipt, SubmissionStatement(pre, PolicyHash(p.policy), t.bountyId, t.claimRef, t.contextRef, p.submissionId,
                                                p.recipeRef, p.evidenceRefs, p.artifactRefs, c.accepted.value))
    case ChallengeKind =>
      && a.phase.Open? && now <= t.deadline + t.challengeWindow
      && a.submissionStatus == Some(Verified) && a.challengeStatus.None?
      && ValidId(p.challengeId) && p.challengerRef != "" && "invalid_signature" in p.policy.slashableFindings
      && p.challengeEvidenceRefs != [] && ValidRefs(p.challengeEvidenceRefs)
      && p.deposit >= p.policy.minimumChallengeDeposit
    case ResolveKind =>
      && a.phase.Open? && a.challengeStatus == Some(ChallengeOpen) && a.challengeTime.Some?
      && (now <= t.deadline + t.challengeWindow
          || exists since :: StandsFor(p, a.challengeTime.value, since) && now <= since + p.policy.resolutionSeconds)
      && p.verifierRef in t.acceptedVerifierRefs
      && Issued(p, receipt, ChallengeStatement(pre, PolicyHash(p.policy), t.bountyId, t.claimRef, t.contextRef, p.challengeId,
                                               p.submissionId, "invalid_signature", p.challengeEvidenceRefs, c.upheld.value))
    case AdvanceKind =>
      && a.phase.Open? && now > t.deadline + t.challengeWindow
      && (a.challengeStatus == Some(ChallengeOpen) && a.challengeTime.Some? ==>
            forall since | StandsFor(p, a.challengeTime.value, since) :: now > since + p.policy.resolutionSeconds)
    case SettleKind =>
      a.phase.Payable? && p.settlementRef != "" && p.reward == a.escrow
    case CancelKind =>
      && a.phase.Open? && now < t.deadline && p.sponsorRef == t.sponsorRef
      && a.submissionStatus.None? && a.challengeStatus.None?
  }

  lemma CitesIssued(p: Profile, receipt: Option<VerifierReceipt>, statement: VerifierStatement, ref: Ref)
    requires receipt.Some? ==> ref == ReceiptRef(receipt.value)
    ensures Cites(Evidence(receipt), ref, statement, p.verifierRef) <==> Issued(p, receipt, statement)
  {
    if receipt.Some? { assert receipt.value in Evidence(receipt); }
  }

  lemma PresentableExactly(p: Profile, a: AbstractState, c: BountyState, m: MarketCommand, kind: CommandKind, receipt: Option<VerifierReceipt>)
    requires kind in p.commandIds && Pictures(p, a, c) && m.commandId == p.commandIds[kind] && m.now >= 0
    ensures WellMade(c, m, p.policy, Evidence(receipt)) <==> Presentable(p, a, kind, receipt)
  {
    hide ValidId, Done, PicturesSubmission, PicturesChallenge;
  }

  lemma EntriesDue(p: Profile, a: AbstractState, c: BountyState, cmd: AbstractCommand, now: int, m: MarketCommand)
    requires Pictures(p, a, c) && CommandInDomain(p, cmd, None) && ConcretizeCommand(p, cmd, now, None) == Some(m)
    requires cmd.kind in {OpenKind, SubmitKind, ChallengeKind, CancelKind}
    ensures Rule(c, m, p.policy, []) <==> Due(p, a, cmd, now, None, StateHash(c))
  {
    hide ValidId, ValidRefs, Done, StandsFor;
  }

  lemma AdvanceDue(p: Profile, a: AbstractState, c: BountyState, cmd: AbstractCommand, now: int, m: MarketCommand)
    requires Pictures(p, a, c) && CommandInDomain(p, cmd, None) && ConcretizeCommand(p, cmd, now, None) == Some(m)
    requires cmd.kind.AdvanceKind?
    ensures AdvanceRule(c, m, p.policy) <==> Due(p, a, cmd, now, None, StateHash(c))
  {
    OneTime(p);
    hide Done, StandsFor;
  }

  lemma OneTime(p: Profile)
    ensures forall tc: TimeClass, s, t | StandsFor(p, tc, s) && StandsFor(p, tc, t) :: s == t
  {
  }

  lemma VerifyDue(p: Profile, a: AbstractState, c: BountyState, cmd: AbstractCommand, now: int, receipt: Option<VerifierReceipt>, m: MarketCommand)
    requires Pictures(p, a, c) && CommandInDomain(p, cmd, receipt) && ConcretizeCommand(p, cmd, now, EvidenceRef(receipt)) == Some(m)
    requires cmd.kind.VerifyKind?
    ensures VerifyRule(c, m, p.policy, Evidence(receipt)) <==> Due(p, a, cmd, now, receipt, StateHash(c))
  {
    var statement := SubmissionStatement(StateHash(c), PolicyHash(p.policy), p.terms.bountyId, p.terms.claimRef, p.terms.contextRef,
                                         p.submissionId, p.recipeRef, p.evidenceRefs, p.artifactRefs, cmd.accepted.value);
    CitesIssued(p, receipt, statement, m.receiptRef);
    hide Done, StandsFor, Cites, Issued, Evidence;
    if c.submissions != [] {
      assert (exists i: nat :: Judges(c, m, p.policy, Evidence(receipt), i)) <==> Judges(c, m, p.policy, Evidence(receipt), 0);
    }
  }

  lemma ResolveDue(p: Profile, a: AbstractState, c: BountyState, cmd: AbstractCommand, now: int, receipt: Option<VerifierReceipt>, m: MarketCommand)
    requires Pictures(p, a, c) && CommandInDomain(p, cmd, receipt) && ConcretizeCommand(p, cmd, now, EvidenceRef(receipt)) == Some(m)
    requires cmd.kind.ResolveKind?
    ensures ResolveRule(c, m, p.policy, Evidence(receipt)) <==> Due(p, a, cmd, now, receipt, StateHash(c))
  {
    var statement := ChallengeStatement(StateHash(c), PolicyHash(p.policy), p.terms.bountyId, p.terms.claimRef, p.terms.contextRef,
                                        p.challengeId, p.submissionId, "invalid_signature", p.challengeEvidenceRefs, cmd.upheld.value);
    CitesIssued(p, receipt, statement, m.receiptRef);
    OneTime(p);
    hide Done, StandsFor, Cites, Issued, Evidence;
    if c.challenges != [] {
      assert (exists i: nat :: Settles(c, m, p.policy, Evidence(receipt), i)) <==> Settles(c, m, p.policy, Evidence(receipt), 0);
    }
  }

  lemma PayableSlot(p: Profile, a: AbstractState, c: BountyState)
    requires Pictures(p, a, c) && ValidState(c) && c.phase.Payable?
    ensures c.payableIds == [p.submissionId] && |c.submissions| == 1
    ensures c.submissions[0].submissionId == p.submissionId && c.submissions[0].submitterRef == p.submitterRef
  {
    assert ValidPhase(c) && PayableVerified(c.submissions, c.payableIds);
    hide ValidState, Done, StandsFor;
    assert HasVerified(c.submissions, c.payableIds[0]);
  }

  lemma WholePayout(s: BountyState, payout: Payout)
    ensures (exists sums :: Totals([payout], sums) && sums[1] == s.escrowLocked) <==> payout.amount == s.escrowLocked
  {
    assert Totals([payout], [0, payout.amount]);
  }

  lemma SettleDue(p: Profile, a: AbstractState, c: BountyState, cmd: AbstractCommand, now: int, m: MarketCommand)
    requires Pictures(p, a, c) && ValidState(c) && CommandInDomain(p, cmd, None) && ConcretizeCommand(p, cmd, now, None) == Some(m)
    requires cmd.kind.SettleKind?
    ensures SettleRule(c, m) <==> Due(p, a, cmd, now, None, StateHash(c))
  {
    hide ValidState, Pictures, Totals;
    var payout := Payout(p.submitterRef, p.submissionId, p.reward);
    assert m == SettleBounty(m.commandId, p.settlementRef, [payout], now);
    SamePhase(p, a, c);
    WholePayout(c, payout);
    if c.phase.Payable? {
      PayableSlot(p, a, c);
      assert Pays(c, payout);
    }
    hide Pays, ConcretizeCommand, CommandInDomain;
  }

  lemma SamePhase(p: Profile, a: AbstractState, c: BountyState)
    requires Pictures(p, a, c)
    ensures c.phase == a.phase && c.escrowLocked == a.escrow && c.terms == p.terms
  {
    hide Done, PicturesSubmission, PicturesChallenge;
  }

  // ----- What a transition does ------------------------------------------------------------------------------------

  /** The state and the effects a committed step is due, for some class of its time. */
  ghost predicate Expected(p: Profile, a: AbstractState, c: AbstractCommand, now: int,
                           failure: Option<FailureCode>, e: AbstractState, effects: seq<MarketEffect>)
    requires (c.kind.VerifyKind? ==> c.accepted.Some?) && (c.kind.ResolveKind? ==> c.upheld.Some?)
  {
    match c.kind
    case OpenKind =>
      && failure.None? && e == a.(phase := Open, escrow := p.reward)
      && effects == [MarketEffect(LockEscrow, p.terms.sponsorRef, p.reward, p.terms.bountyId, map[])]
    case SubmitKind =>
      && failure.None? && e.submissionTime.Some? && StandsFor(p, e.submissionTime.value, now)
      && e == a.(submissionStatus := Some(Pending), submissionTime := e.submissionTime, bond := p.bond)
      && effects == [MarketEffect(LockSubmissionBond, p.submitterRef, p.bond, p.submissionId, map[])]
    case VerifyKind =>
      if c.accepted.value then failure.None? && e == a.(submissionStatus := Some(Verified)) && effects == []
      else
        && failure == Some(VerifierRejected) && e == a.(submissionStatus := Some(SubmissionRejected), bond := 0)
        && effects == [MarketEffect(RefundSubmissionBond, p.submitterRef, a.bond, p.submissionId,
                                    map["reason" := "honest_verifier_rejection"])]
    case ChallengeKind =>
      && failure.None? && e.challengeTime.Some? && StandsFor(p, e.challengeTime.value, now)
      && e == a.(challengeStatus := Some(ChallengeOpen), challengeTime := e.challengeTime, deposit := p.deposit)
      && effects == [MarketEffect(LockChallengeDeposit, p.challengerRef, p.deposit, p.challengeId, map[])]
    case ResolveKind =>
      if c.upheld.value then
        && failure.None?
        && e == a.(challengeStatus := Some(Upheld), deposit := 0, submissionStatus := Some(SubmissionRejected), bond := 0)
        && effects == [MarketEffect(RefundChallengeDeposit, p.challengerRef, a.deposit, p.challengeId, map[]),
                       MarketEffect(SlashSubmissionBond, p.policy.treasuryRef, a.bond, p.submissionId,
                                    map["finding_kind" := "invalid_signature"])]
      else
        && failure == Some(ChallengeWasRejected) && e == a.(challengeStatus := Some(ChallengeRejected), deposit := 0)
        && effects == [MarketEffect(SlashChallengeDeposit, p.policy.treasuryRef, a.deposit, p.challengeId,
                                    map["finding_kind" := "invalid_signature"])]
    case AdvanceKind =>
      var open := a.challengeStatus == Some(ChallengeOpen);
      var closed := if open then a.(challengeStatus := Some(ChallengeRejected), deposit := 0) else a;
      var slash := if !open then [] else
        [MarketEffect(SlashChallengeDeposit, p.policy.treasuryRef, a.deposit, p.challengeId,
                      map["finding_kind" := "invalid_signature", "reason" := "resolution_timeout"])];
      if a.submissionStatus == Some(Verified) then
        failure.None? && e == closed.(phase := Payable, payable := true) && effects == slash
      else
        && failure == Some(NoPayableSubmission) && e == closed.(phase := Expired, escrow := 0, bond := 0)
        && effects == slash
             + [MarketEffect(RefundEscrow, p.terms.sponsorRef, a.escrow, p.terms.bountyId, map["reason" := "no_payable_submission"])]
             + BondBack(p, a, "bounty_expired")
    case SettleKind =>
      && failure.None? && e == a.(phase := Settled, settled := true, escrow := 0, bond := 0)
      && effects == [MarketEffect(PayoutEffect, p.submitterRef, a.escrow, p.submissionId, map[])] + BondBack(p, a, "settlement_complete")
    case CancelKind =>
      && failure.None? && e == a.(phase := Canceled, escrow := 0)
      && effects == [MarketEffect(RefundEscrow, p.terms.sponsorRef, a.escrow, p.terms.bountyId,
                                  map["reason" := "sponsor_cancel_before_activity"])]
  }

  /** The refund of the bond of the slot's submission, if it holds one. */
  ghost function BondBack(p: Profile, a: AbstractState, reason: string): seq<MarketEffect> {
    if a.submissionStatus.None? || a.bond == 0 then []
    else [MarketEffect(RefundSubmissionBond, p.submitterRef, a.bond, p.submissionId, map["reason" := reason])]
  }

  /** The class is read back from its time. */
  ghost predicate ReadBack(p: Profile, before: Option<TimeClass>, after: Option<TimeClass>) {
    match before
    case None => after.None?
    case Some(tc) => after.Some? && exists t :: StandsFor(p, tc, t) && First(p, after.value, t)
  }

  /** The answer shows the expected state as the adapter reads it: no amount for an empty
      slot, each class the first of its time, and the bits of the ids that are done. */
  ghost predicate Reads(p: Profile, a: AbstractState, kind: CommandKind, e: AbstractState, post: AbstractState)
    requires kind in p.commandIds
  {
    && post == e.(submissionTime := post.submissionTime, challengeTime := post.challengeTime, mask := post.mask,
                  bond := if e.submissionStatus.None? then 0 else e.bond,
                  deposit := if e.challengeStatus.None? then 0 else e.deposit)
    && ReadBack(p, e.submissionTime, post.submissionTime) && ReadBack(p, e.challengeTime, post.challengeTime)
    && forall k: CommandKind :: HasBit(post.mask, k) <==>
         k in p.commandIds && (Done(p, a, p.commandIds[k]) || p.commandIds[k] == p.commandIds[kind])
  }

  ghost predicate Moves(p: Profile, a: AbstractState, c: AbstractCommand, now: int,
                        failure: Option<FailureCode>, post: AbstractState, effects: seq<MarketEffect>)
    requires (c.kind.VerifyKind? ==> c.accepted.Some?) && (c.kind.ResolveKind? ==> c.upheld.Some?) && c.kind in p.commandIds
  {
    exists e :: Expected(p, a, c, now, failure, e, effects) && Reads(p, a, c.kind, e, post)
  }

  lemma SlotFound(p: Profile, e: AbstractState, c: BountyState)
    requires Shows(p, e, c)
    ensures FindSubmission(c.submissions, p.submissionId) == if c.submissions == [] then None else Some(c.submissions[0])
    ensures FindChallenge(c.challenges, p.challengeId) == if c.challenges == [] then None else Some(c.challenges[0])
  {
    hide StandsFor;
  }

  lemma TimesReread(p: Profile, e: AbstractState, c: BountyState, post: AbstractState)
    requires Shows(p, e, c) && ProjectState(p, c) == Some(post)
    requires (e.submissionStatus.None? ==> e.submissionTime.None?) && (e.challengeStatus.None? ==> e.challengeTime.None?)
    ensures ReadBack(p, e.submissionTime, post.submissionTime) && ReadBack(p, e.challengeTime, post.challengeTime)
  {
    hide FindSubmission, FindChallenge, StandsFor, EpochClass, MaskOf, First;
    SlotFound(p, e, c);
    if c.submissions != [] { FirstExactly(p, post.submissionTime.value, c.submissions[0].submittedAt); }
    if c.challenges != [] { FirstExactly(p, post.challengeTime.value, c.challenges[0].openedAt); }
  }

  lemma Reread(p: Profile, a: AbstractState, kind: CommandKind, e: AbstractState, c: BountyState, post: AbstractState)
    requires kind in p.commandIds && Shows(p, e, c) && (e.settled <==> e.phase.Settled?)
    requires (e.submissionStatus.None? ==> e.submissionTime.None?) && (e.challengeStatus.None? ==> e.challengeTime.None?)
    requires forall id :: id in c.processed <==> Done(p, a, id) || id == p.commandIds[kind]
    requires ProjectState(p, c) == Some(post)
    ensures Reads(p, a, kind, e, post)
  {
    hide FindSubmission, FindChallenge, StandsFor, EpochClass, Done, HasBit, MaskOf, ReadBack;
    SlotFound(p, e, c);
    TimesReread(p, e, c, post);
    assert forall k: CommandKind :: HasBit(MaskOf(c.processed, p.commandIds), k) <==> k in p.commandIds && p.commandIds[k] in c.processed;
  }

  function FailureOf(d: Decision): Option<FailureCode>
    requires d.Committed()
  {
    if d.CommittedFailure? then Some(d.failure) else None
  }

  /** The fields of the abstract state a step never leaves inconsistent. */
  ghost predicate Sane(a: AbstractState) {
    && (a.settled <==> a.phase.Settled?)
    && (a.submissionStatus.None? ==> a.submissionTime.None?) && (a.challengeStatus.None? ==> a.challengeTime.None?)
  }

  /** Once the next state shows the expected one, the answer moves as expected. */
  lemma Moved(p: Profile, a: AbstractState, c: BountyState, cmd: AbstractCommand, now: int, d: Decision, e: AbstractState, post: AbstractState)
    requires Pictures(p, a, c) && cmd.kind in p.commandIds
    requires (cmd.kind.VerifyKind? ==> cmd.accepted.Some?) && (cmd.kind.ResolveKind? ==> cmd.upheld.Some?)
    requires d.Committed() && ProjectState(p, d.next) == Some(post) && d.next.processed == c.processed + {p.commandIds[cmd.kind]}
    requires Expected(p, a, cmd, now, FailureOf(d), e, d.effects) && Shows(p, e, d.next) && Sane(e)
    ensures Moves(p, a, cmd, now, FailureOf(d), post, d.effects)
  {
    hide Expected, Shows, Done, Reads, ProjectState;
    Reread(p, a, cmd.kind, e, d.next, post);
  }

  lemma VerifyMoves(p: Profile, a: AbstractState, c: BountyState, cmd: AbstractCommand, now: int, receipt: Option<VerifierReceipt>,
                    m: MarketCommand, d: Decision, post: AbstractState)
    requires Pictures(p, a, c) && Sane(a) && CommandInDomain(p, cmd, receipt)
    requires ConcretizeCommand(p, cmd, now, EvidenceRef(receipt)) == Some(m) && cmd.kind.VerifyKind?
    requires d.Committed() && VerifyChange(c, m, d) && ProjectState(p, d.next) == Some(post)
    ensures Moves(p, a, cmd, now, FailureOf(d), post, d.effects)
  {
    hide ProjectState, Done, StandsFor, Moves;
    var e := if cmd.accepted.value then a.(submissionStatus := Some(Verified))
             else a.(submissionStatus := Some(SubmissionRejected), bond := 0);
    assert c.submissions[0].status.Pending?;
    assert PicturesSubmission(p, e, d.next.submissions);
    Moved(p, a, c, cmd, now, d, e, post);
  }

  lemma ResolveMoves(p: Profile, a: AbstractState, c: BountyState, cmd: AbstractCommand, now: int, receipt: Option<VerifierReceipt>,
                     m: MarketCommand, d: Decision, post: AbstractState)
    requires Pictures(p, a, c) && Sane(a) && CommandInDomain(p, cmd, receipt)
    requires ConcretizeCommand(p, cmd, now, EvidenceRef(receipt)) == Some(m) && cmd.kind.ResolveKind?
    requires d.Committed() && ResolveChange(c, m, p.policy, d) && ProjectState(p, d.next) == Some(post)
    ensures Moves(p, a, cmd, now, FailureOf(d), post, d.effects)
  {
    hide ProjectState, Done, StandsFor, Moves;
    var e := if cmd.upheld.value then a.(challengeStatus := Some(Upheld), deposit := 0, submissionStatus := Some(SubmissionRejected), bond := 0)
             else a.(challengeStatus := Some(ChallengeRejected), deposit := 0);
    assert c.challenges[0].status.ChallengeOpen? && c.submissions != [];
    assert PicturesSubmission(p, e, d.next.submissions) && PicturesChallenge(p, e, d.next.challenges);
    Moved(p, a, c, cmd, now, d, e, post);
  }

  lemma OpenMoves(p: Profile, a: AbstractState, c: BountyState, cmd: AbstractCommand, now: int, m: MarketCommand, d: Decision, post: AbstractState)
    requires Pictures(p, a, c) && Sane(a) && CommandInDomain(p, cmd, None) && ConcretizeCommand(p, cmd, now, None) == Some(m)
    requires cmd.kind in {OpenKind, CancelKind} && !a.phase.Settled?
    requires d.Committed() && Change(c, m, p.policy, d) && ProjectState(p, d.next) == Some(post)
    ensures Moves(p, a, cmd, now, FailureOf(d), post, d.effects)
  {
    hide ProjectState, Done, StandsFor, Moves, PicturesSubmission, PicturesChallenge;
    var e := if cmd.kind.OpenKind? then a.(phase := Open, escrow := p.reward) else a.(phase := Canceled, escrow := 0);
    SubmissionUnread(p, a, e, c.submissions);
    ChallengeUnread(p, a, e, c.challenges);
    Moved(p, a, c, cmd, now, d, e, post);
  }

  /** The picture of a slot reads no other field. */
  lemma SubmissionUnread(p: Profile, a: AbstractState, e: AbstractState, subs: seq<SubmissionState>)
    requires (a.submissionStatus, a.submissionTime, a.bond) == (e.submissionStatus, e.submissionTime, e.bond)
    ensures PicturesSubmission(p, a, subs) == PicturesSubmission(p, e, subs)
  {
  }

  lemma ChallengeUnread(p: Profile, a: AbstractState, e: AbstractState, chs: seq<ChallengeState>)
    requires (a.challengeStatus, a.challengeTime, a.deposit) == (e.challengeStatus, e.challengeTime, e.deposit)
    ensures PicturesChallenge(p, a, chs) == PicturesChallenge(p, e, chs)
  {
  }

  lemma SubmitMoves(p: Profile, a: AbstractState, c: BountyState, cmd: AbstractCommand, now: int, m: MarketCommand, d: Decision, post: AbstractState)
    requires Pictures(p, a, c) && Sane(a) && CommandInDomain(p, cmd, None) && ConcretizeCommand(p, cmd, now, None) == Some(m)
    requires cmd.kind.SubmitKind? && a.submissionStatus.None?
    requires d.Committed() && SubmitChange(c, m, d) && ProjectState(p, d.next) == Some(post)
    ensures Moves(p, a, cmd, now, FailureOf(d), post, d.effects)
  {
    hide Done, StandsFor, Moves, EpochClass, MaskOf, FindChallenge, PicturesChallenge;
    assert EpochClass(p, now) == post.submissionTime;
    FirstExactly(p, post.submissionTime.value, now);
    hide First;
    var e := a.(submissionStatus := Some(Pending), submissionTime := post.submissionTime, bond := p.bond);
    ChallengeUnread(p, a, e, c.challenges);
    Moved(p, a, c, cmd, now, d, e, post);
  }

  lemma ChallengeMoves(p: Profile, a: AbstractState, c: BountyState, cmd: AbstractCommand, now: int, m: MarketCommand, d: Decision, post: AbstractState)
    requires Pictures(p, a, c) && Sane(a) && CommandInDomain(p, cmd, None) && ConcretizeCommand(p, cmd, now, None) == Some(m)
    requires cmd.kind.ChallengeKind? && a.challengeStatus.None?
    requires d.Committed() && ChallengeChange(c, m, d) && ProjectState(p, d.next) == Some(post)
    ensures Moves(p, a, cmd, now, FailureOf(d), post, d.effects)
  {
    hide Done, StandsFor, Moves, EpochClass, MaskOf, FindSubmission, PicturesSubmission;
    assert EpochClass(p, now) == post.challengeTime;
    FirstExactly(p, post.challengeTime.value, now);
    hide First;
    var e := a.(challengeStatus := Some(ChallengeOpen), challengeTime := post.challengeTime, deposit := p.deposit);
    SubmissionUnread(p, a, e, c.submissions);
    Moved(p, a, c, cmd, now, d, e, post);
  }

  // ----- Lists of at most one entry ----------------------------------------------------------------------------

  lemma {:induction false} AscendingShort(at: seq<nat>, n: nat)
    requires Ascending(at, n)
    ensures |at| <= n
  {
    if at != [] { AscendingShort(at[..|at| - 1], at[|at| - 1]); }
  }

  lemma AscendingOne(at: seq<nat>, n: nat)
    requires Ascending(at, n) && n <= 1
    ensures at == if 0 in at then [0] else []
  {
    AscendingShort(at, n);
    if at != [] { assert at[0] in at && at == [at[0]]; }
  }

  lemma SlashedOne(chs: seq<ChallengeState>, p: MarketPolicy, effects: seq<MarketEffect>)
    requires |chs| <= 1 && Slashed(chs, p, effects)
    ensures effects == if chs == [] || !chs[0].status.ChallengeOpen? then [] else
      [MarketEffect(SlashChallengeDeposit, p.treasuryRef, chs[0].depositLocked, chs[0].challengeId,
                    map["finding_kind" := chs[0].findingKind, "reason" := "resolution_timeout"])]
  {
    var at :| SlashedAt(chs, p, effects, at);
    AscendingOne(at, |chs|);
    assert 0 in at ==> chs != [];
  }

  lemma RefundedOne(subs: seq<SubmissionState>, reason: string, effects: seq<MarketEffect>)
    requires |subs| <= 1 && Refunded(subs, reason, effects)
    ensures effects == if subs == [] || subs[0].bondLocked == 0 then [] else
      [MarketEffect(RefundSubmissionBond, subs[0].submitterRef, subs[0].bondLocked, subs[0].submissionId, map["reason" := reason])]
  {
    var at :| RefundedAt(subs, reason, effects, at);
    AscendingOne(at, |subs|);
    assert 0 in at ==> subs != [];
  }

  lemma QueueOfOne(ids: seq<string>, subs: seq<SubmissionState>)
    requires |subs| == 1 && subs[0].status.Verified? && Queue(ids, subs)
    ensures ids == [subs[0].submissionId]
  {
    hide StringLe;
    assert subs[0].submissionId in ids;
    assert forall k | 0 <= k < |ids| :: ids[k] in ids;
    if |ids| > 1 { TwoDiffer(ids, subs[0].submissionId); }
  }

  lemma TwoDiffer(ids: seq<string>, id: string)
    requires |ids| > 1 && Distinct(ids)
    ensures exists k :: 0 <= k < |ids| && ids[k] != id
  {
    assert ids[0] != ids[1];
  }

  lemma RefundIsBondBack(p: Profile, a: AbstractState, c: BountyState, reason: string, effects: seq<MarketEffect>)
    requires Pictures(p, a, c) && Refunded(c.submissions, reason, effects)
    ensures effects == BondBack(p, a, reason)
  {
    hide Done, StandsFor, PicturesChallenge, Refunded;
    RefundedOne(c.submissions, reason, effects);
  }

  lemma BondsGoneShown(p: Profile, a: AbstractState, e: AbstractState, subs: seq<SubmissionState>, after: seq<SubmissionState>)
    requires PicturesSubmission(p, a, subs) && BondsGone(subs, after)
    requires e.submissionStatus == a.submissionStatus && e.submissionTime == a.submissionTime && e.bond == 0
    ensures PicturesSubmission(p, e, after)
  {
    hide StandsFor;
  }

  lemma TimedOutShown(p: Profile, a: AbstractState, e: AbstractState, chs: seq<ChallengeState>, after: seq<ChallengeState>)
    requires PicturesChallenge(p, a, chs) && TimedOutAll(chs, after)
    requires e.challengeTime == a.challengeTime
    requires (e.challengeStatus, e.deposit) ==
      if a.challengeStatus == Some(ChallengeOpen) then (Some(ChallengeRejected), 0) else (a.challengeStatus, a.deposit)
    ensures PicturesChallenge(p, e, after)
  {
    hide StandsFor;
  }

  lemma SettleMoves(p: Profile, a: AbstractState, c: BountyState, cmd: AbstractCommand, now: int, m: MarketCommand, d: Decision, post: AbstractState)
    requires Pictures(p, a, c) && Sane(a) && CommandInDomain(p, cmd, None) && ConcretizeCommand(p, cmd, now, None) == Some(m)
    requires cmd.kind.SettleKind? && p.reward == a.escrow
    requires d.Committed() && SettleChange(c, m, d) && ProjectState(p, d.next) == Some(post)
    ensures Moves(p, a, cmd, now, FailureOf(d), post, d.effects)
  {
    hide ProjectState, Done, StandsFor, Moves, PicturesSubmission, PicturesChallenge, BondBack, BondsGone, Refunded;
    var submissions, paid, refunds :| BondsGone(c.submissions, submissions)
      && PaidOut(m.payouts, paid) && Refunded(c.submissions, "settlement_complete", refunds)
      && Leaves(c, m, d, None, "bounty_settled",
                c.(phase := Settled, escrowLocked := 0, submissions := submissions, settlementRef := Some(m.settlementRef),
                   processed := c.processed + {m.commandId}),
                paid + refunds);
    var e := a.(phase := Settled, settled := true, escrow := 0, bond := 0);
    RefundIsBondBack(p, a, c, "settlement_complete", refunds);
    BondsGoneShown(p, a, e, c.submissions, submissions);
    ChallengeUnread(p, a, e, c.challenges);
    assert paid == [MarketEffect(PayoutEffect, p.submitterRef, a.escrow, p.submissionId, map[])];
    Moved(p, a, c, cmd, now, d, e, post);
  }

  /** The abstract state with an open challenge timed out. */
  ghost function Closed(a: AbstractState): AbstractState {
    if a.challengeStatus == Some(ChallengeOpen) then a.(challengeStatus := Some(ChallengeRejected), deposit := 0) else a
  }

  ghost predicate AdvanceStep(p: Profile, a: AbstractState, c: BountyState, cmd: AbstractCommand, now: int, m: MarketCommand) {
    && Pictures(p, a, c) && Sane(a) && cmd.kind.AdvanceKind? && a.phase.Open? && cmd.accepted.None? && cmd.upheld.None?
    && cmd.kind in p.commandIds && m == AdvanceBounty(p.commandIds[cmd.kind], now)
  }

  lemma PayableMoves(p: Profile, a: AbstractState, c: BountyState, cmd: AbstractCommand, now: int, m: MarketCommand, d: Decision,
                     post: AbstractState, challenges: seq<ChallengeState>, slashes: seq<MarketEffect>)
    requires AdvanceStep(p, a, c, cmd, now, m) && a.submissionStatus == Some(Verified)
    requires TimedOutAll(c.challenges, challenges) && Slashed(c.challenges, p.policy, slashes)
    requires d.Committed() && BecomesPayable(c, m, d, challenges, slashes) && ProjectState(p, d.next) == Some(post)
    ensures Moves(p, a, cmd, now, FailureOf(d), post, d.effects)
  {
    hide ProjectState, Done, StandsFor, Moves, BondBack, Slashed, TimedOutAll, Queue, MaskOf;
    SlashedOne(c.challenges, p.policy, slashes);
    var ids :| Queue(ids, c.submissions)
      && Leaves(c, m, d, None, "bounty_payable",
                c.(phase := Payable, challenges := challenges, payableIds := ids, processed := c.processed + {m.commandId}), slashes);
    QueueOfOne(ids, c.submissions);
    var e := Closed(a).(phase := Payable, payable := true);
    TimedOutShown(p, a, e, c.challenges, challenges);
    Moved(p, a, c, cmd, now, d, e, post);
  }

  lemma ExpiryMoves(p: Profile, a: AbstractState, c: BountyState, cmd: AbstractCommand, now: int, m: MarketCommand, d: Decision,
                    post: AbstractState, challenges: seq<ChallengeState>, slashes: seq<MarketEffect>)
    requires AdvanceStep(p, a, c, cmd, now, m) && a.submissionStatus != Some(Verified)
    requires TimedOutAll(c.challenges, challenges) && Slashed(c.challenges, p.policy, slashes)
    requires d.Committed() && RunsOut(c, m, d, challenges, slashes) && ProjectState(p, d.next) == Some(post)
    ensures Moves(p, a, cmd, now, FailureOf(d), post, d.effects)
  {
    hide ProjectState, Done, StandsFor, Moves, BondBack, Slashed, Refunded, BondsGone, TimedOutAll, MaskOf;
    SlashedOne(c.challenges, p.policy, slashes);
    var submissions, refunds :| BondsGone(c.submissions, submissions) && Refunded(c.submissions, "bounty_expired", refunds)
      && Leaves(c, m, d, Some(NoPayableSubmission), "bounty_expired",
                c.(phase := Expired, escrowLocked := 0, challenges := challenges, submissions := submissions,
                   processed := c.processed + {m.commandId}),
                slashes + [MarketEffect(RefundEscrow, c.terms.sponsorRef, c.escrowLocked, c.terms.bountyId,
                                        map["reason" := "no_payable_submission"])] + refunds);
    RefundIsBondBack(p, a, c, "bounty_expired", refunds);
    var e := Closed(a).(phase := Expired, escrow := 0, bond := 0);
    TimedOutShown(p, a, e, c.challenges, challenges);
    BondsGoneShown(p, a, e, c.submissions, submissions);
    Moved(p, a, c, cmd, now, d, e, post);
  }

  lemma AdvanceMoves(p: Profile, a: AbstractState, c: BountyState, cmd: AbstractCommand, now: int, m: MarketCommand, d: Decision, post: AbstractState)
    requires AdvanceStep(p, a, c, cmd, now, m)
    requires d.Committed() && AdvanceChange(c, m, p.policy, d) && ProjectState(p, d.next) == Some(post)
    ensures Moves(p, a, cmd, now, FailureOf(d), post, d.effects)
  {
    hide ProjectState, Done, StandsFor, Moves, TimedOutAll, Slashed, BecomesPayable, RunsOut;
    var verified := exists i :: 0 <= i < |c.submissions| && c.submissions[i].status.Verified?;
    var challenges, slashes :| TimedOutAll(c.challenges, challenges) && Slashed(c.challenges, p.policy, slashes)
      && if verified then BecomesPayable(c, m, d, challenges, slashes) else RunsOut(c, m, d, challenges, slashes);
    if a.submissionStatus == Some(Verified) {
      assert c.submissions[0].status.Verified?;
      PayableMoves(p, a, c, cmd, now, m, d, post, challenges, slashes);
    } else {
      ExpiryMoves(p, a, c, cmd, now, m, d, post, challenges, slashes);
    }
  }

  // ----- The adapter's answer ------------------------------------------------------------------------------------

  lemma SaneInDomain(p: Profile, a: AbstractState, c: BountyState)
    requires InDomain(p, a) && Pictures(p, a, c) && ValidState(c)
    ensures Sane(a)
  {
    assert ValidPhase(c);
    hide ValidState, Done, StandsFor, PicturesSubmission, PicturesChallenge;
  }

  /** A step's market command and evidence follow the market's rule exactly when the step is
      presentable and due. */
  lemma RuleIsDue(p: Profile, a: AbstractState, c: BountyState, cmd: AbstractCommand, now: int, receipt: Option<VerifierReceipt>, m: MarketCommand)
    requires Pictures(p, a, c) && ValidState(c) && CommandInDomain(p, cmd, receipt) && now >= 0
    requires ConcretizeCommand(p, cmd, now, EvidenceRef(receipt)) == Some(m)
    ensures WellMade(c, m, p.policy, Evidence(receipt)) && Rule(c, m, p.policy, Evidence(receipt))
      <==> Presentable(p, a, cmd.kind, receipt) && Due(p, a, cmd, now, receipt, StateHash(c))
  {
    assert m.commandId == p.commandIds[cmd.kind] && m.now == now;
    PresentableExactly(p, a, c, m, cmd.kind, receipt);
    hide Pictures, ValidState, WellMade, Presentable, Due;
    hide OpenRule, SubmitRule, VerifyRule, DisputeRule, ResolveRule, AdvanceRule, SettleRule, CancelRule;
    match cmd.kind {
      case OpenKind => EntriesDue(p, a, c, cmd, now, m);
      case SubmitKind => EntriesDue(p, a, c, cmd, now, m);
      case ChallengeKind => EntriesDue(p, a, c, cmd, now, m);
      case CancelKind => EntriesDue(p, a, c, cmd, now, m);
      case VerifyKind => VerifyDue(p, a, c, cmd, now, receipt, m);
      case ResolveKind => ResolveDue(p, a, c, cmd, now, receipt, m);
      case AdvanceKind => AdvanceDue(p, a, c, cmd, now, m);
      case SettleKind => SettleDue(p, a, c, cmd, now, m);
    }
  }

  /** What a committed step changed, seen through the projection. */
  lemma ChangeMoves(p: Profile, a: AbstractState, c: BountyState, cmd: AbstractCommand, now: int, receipt: Option<VerifierReceipt>,
                    m: MarketCommand, d: Decision, post: AbstractState)
    requires Pictures(p, a, c) && Sane(a) && CommandInDomain(p, cmd, receipt)
    requires ConcretizeCommand(p, cmd, now, EvidenceRef(receipt)) == Some(m) && Due(p, a, cmd, now, receipt, StateHash(c))
    requires d.Committed() && Change(c, m, p.policy, d) && ProjectState(p, d.next) == Some(post)
    ensures Moves(p, a, cmd, now, FailureOf(d), post, d.effects)
  {
    hide Pictures, ProjectState, Moves, Issued, ValidId, ValidRefs, StandsFor;
    hide OpenChange, SubmitChange, VerifyChange, ChallengeChange, ResolveChange, AdvanceChange, SettleChange, CancelChange;
    match cmd.kind {
      case OpenKind => OpenMoves(p, a, c, cmd, now, m, d, post);
      case CancelKind => OpenMoves(p, a, c, cmd, now, m, d, post);
      case SubmitKind => SubmitMoves(p, a, c, cmd, now, m, d, post);
      case ChallengeKind => ChallengeMoves(p, a, c, cmd, now, m, d, post);
      case VerifyKind => VerifyMoves(p, a, c, cmd, now, receipt, m, d, post);
      case ResolveKind => ResolveMoves(p, a, c, cmd, now, receipt, m, d, post);
      case AdvanceKind => AdvanceMoves(p, a, c, cmd, now, m, d, post);
      case SettleKind => SettleMoves(p, a, c, cmd, now, m, d, post);
    }
  }

  /** Some class stands for this time. */
  ghost predicate HasClass(p: Profile, now: int) {
    exists tc: TimeClass :: StandsFor(p, tc, now)
  }

  lemma ClassExactly(p: Profile, now: int)
    ensures HasClass(p, now) <==> EpochClass(p, now).Some?
  {
    forall tc: TimeClass ensures StandsFor(p, tc, now) <==> ClassEpoch(p, tc) == Some(now) { StandsExactly(p, tc, now); }
    hide StandsFor, ClassEpoch, EpochClass;
  }

  lemma DecisionFor(p: Profile, binding: Binding, r: Request)
    requires r.operation.Step? && !ApplyDataAdapter(p, binding, r).InvalidInput?
    ensures InDomain(p, r.state) && CommandInDomain(p, r.operation.command, r.operation.receipt)
    ensures ConcretizeState(p, r.state).Some?
    ensures ConcretizeCommand(p, r.operation.command, r.now, EvidenceRef(r.operation.receipt)).Some?
    ensures ApplyDataAdapter(p, binding, r) == DecisionResponse(p,
      ApplyMarketCommand(ConcretizeState(p, r.state).value,
                         ConcretizeCommand(p, r.operation.command, r.now, EvidenceRef(r.operation.receipt)).value,
                         p.policy, Evidence(r.operation.receipt)))
  {
    hide InDomain, CommandInDomain, ConcretizeState, ConcretizeCommand, ApplyMarketCommand, DecisionResponse, ValidState;
    hide TemporallyConsistent, WithinBounds, EvidenceRef, Evidence, EqualsTime, WellFormedCommand;
    DomainExactly(p, r.state);
    CommandExactly(p, r.operation.command, r.operation.receipt, r.now);
  }

  /** An accepted step request is refused, or is a transition that moves the abstract state as
      its command is due to, exactly when the state it stands for is valid, the step is
      presentable and it is due; it raises when it would record a time of no class. */
  lemma StepExactly(p: Profile, binding: Binding, r: Request)
    requires r.operation.Step? && !ApplyDataAdapter(p, binding, r).InvalidInput?
    ensures InDomain(p, r.state) && CommandInDomain(p, r.operation.command, r.operation.receipt) && ConcretizeState(p, r.state).Some?
    ensures var answer, cmd, c := ApplyDataAdapter(p, binding, r), r.operation.command, ConcretizeState(p, r.state).value;
      && (!answer.Refusal? <==>
            ValidState(c) && Presentable(p, r.state, cmd.kind, r.operation.receipt)
            && Due(p, r.state, cmd, r.now, r.operation.receipt, StateHash(c)))
      && (answer.Raised? <==> !answer.Refusal? && cmd.kind in {SubmitKind, ChallengeKind} && !HasClass(p, r.now))
      && (answer.Transition? <==> !answer.Refusal? && !answer.Raised?)
      && (answer.Transition? ==> Moves(p, r.state, cmd, r.now, answer.failure, answer.post, answer.effects))
  {
    hide *;
    DecisionFor(p, binding, r);
    var a, cmd, receipt := r.state, r.operation.command, r.operation.receipt;
    CommandExactly(p, cmd, receipt, r.now);
    var c := ConcretizeState(p, a).value;
    var m := ConcretizeCommand(p, cmd, r.now, EvidenceRef(receipt)).value;
    ConcretePictures(p, a);
    StepOutcome(p, a, c, cmd, r.now, receipt, m);
  }

  lemma StepOutcome(p: Profile, a: AbstractState, c: BountyState, cmd: AbstractCommand, now: nat, receipt: Option<VerifierReceipt>, m: MarketCommand)
    requires InDomain(p, a) && Pictures(p, a, c) && ConcretizeState(p, a) == Some(c) && CommandInDomain(p, cmd, receipt)
    requires ConcretizeCommand(p, cmd, now, EvidenceRef(receipt)) == Some(m)
    ensures var answer := DecisionResponse(p, ApplyMarketCommand(c, m, p.policy, Evidence(receipt)));
      && (!answer.Refusal? <==>
            ValidState(c) && Presentable(p, a, cmd.kind, receipt) && Due(p, a, cmd, now, receipt, StateHash(c)))
      && (answer.Raised? <==> !answer.Refusal? && cmd.kind in {SubmitKind, ChallengeKind} && !HasClass(p, now))
      && (answer.Transition? <==> !answer.Refusal? && !answer.Raised?)
      && (answer.Transition? ==> Moves(p, a, cmd, now, answer.failure, answer.post, answer.effects))
  {
    hide ApplyMarketCommand, DecisionResponse, ProjectState, ConcretizeState, ConcretizeCommand, InDomain, Pictures, ValidState;
    hide WellMade, Rule, Change, Presentable, Due, Moves, CommandInDomain, HasClass, Evidence, EvidenceRef;
    var d := ApplyMarketCommand(c, m, p.policy, Evidence(receipt));
    CommitsExactly(c, m, p.policy, Evidence(receipt));
    if ValidState(c) { RuleIsDue(p, a, c, cmd, now, receipt, m); }
    AnswerShape(p, d);
    if d.Committed() {
      ChangesExactly(c, m, p.policy, Evidence(receipt));
      SaneInDomain(p, a, c);
      RaisesOnlyFor(p, a, c, cmd, now, receipt, m);
      if ProjectState(p, d.next).Some? { ChangeMoves(p, a, c, cmd, now, receipt, m, d, ProjectState(p, d.next).value); }
    }
  }

  lemma AnswerShape(p: Profile, d: Decision)
    ensures var answer := DecisionResponse(p, d);
      if d.Reject? then answer.Refusal?
      else if ProjectState(p, d.next).None? then answer.Raised?
      else answer == Transition(FailureOf(d), ProjectState(p, d.next).value, d.effects)
  {
    hide ProjectState;
  }

  lemma RaisesOnlyFor(p: Profile, a: AbstractState, c: BountyState, cmd: AbstractCommand, now: nat, receipt: Option<VerifierReceipt>, m: MarketCommand)
    requires InDomain(p, a) && ConcretizeState(p, a) == Some(c) && CommandInDomain(p, cmd, receipt)
    requires ConcretizeCommand(p, cmd, now, EvidenceRef(receipt)) == Some(m)
    requires ApplyMarketCommand(c, m, p.policy, Evidence(receipt)).Committed()
    ensures ProjectState(p, ApplyMarketCommand(c, m, p.policy, Evidence(receipt)).next).None?
      <==> cmd.kind in {SubmitKind, ChallengeKind} && !HasClass(p, now)
  {
    hide ApplyMarketCommand, ProjectState, ConcretizeState, ConcretizeCommand, InDomain, ValidState, SlotState, SlotCommand;
    hide CommandInDomain, HasClass, Evidence, EvidenceRef, EpochClass, TemporallyConsistent, WithinBounds, WellFormedCommand;
    CommandExactly(p, cmd, receipt, now);
    DomainExactly(p, a);
    ClassExactly(p, now);
    ConcretizedIsSlotCommand(p, cmd, now, EvidenceRef(receipt));
    CommitPassesChecks(c, m, p.policy, Evidence(receipt));
    ConcretizedIsSlot(p, a);
    if StoresTime(m) && EpochClass(p, m.now).None? { UnprojectableTime(p, c, m, Evidence(receipt)); }
    else {
      StepStaysInSlot(p, c, m, p.policy, Evidence(receipt));
      ProjectSlot(p, ApplyMarketCommand(c, m, p.policy, Evidence(receipt)).next);
    }
  }

  /** With an id per kind and a time per class, the new state is the expected one with the
      amounts of empty slots dropped and the bit of the command set. */
  lemma UnambiguousReads(p: Profile, a: AbstractState, kind: CommandKind, e: AbstractState, post: AbstractState)
    requires Unambiguous(p) && kind in p.commandIds && Reads(p, a, kind, e, post)
    ensures post == e.(bond := if e.submissionStatus.None? then 0 else e.bond,
                       deposit := if e.challengeStatus.None? then 0 else e.deposit,
                       mask := a.mask | SlotBit(kind))
  {
    hide ReadBack, HasBit, SlotBit, Done, Unambiguous;
    UnambiguousTimes(p, e.submissionTime, post.submissionTime);
    UnambiguousTimes(p, e.challengeTime, post.challengeTime);
    UnambiguousMask(p, a, kind, post.mask);
  }

  lemma UnambiguousMask(p: Profile, a: AbstractState, kind: CommandKind, mask: bv8)
    requires Unambiguous(p) && kind in p.commandIds
    requires forall k: CommandKind :: HasBit(mask, k) <==>
      k in p.commandIds && (Done(p, a, p.commandIds[k]) || p.commandIds[k] == p.commandIds[kind])
    ensures mask == a.mask | SlotBit(kind)
  {
    hide HasBit, SlotBit, Done;
    forall k: CommandKind ensures HasBit(mask, k) <==> HasBit(a.mask | SlotBit(kind), k) {
      SetBit(a.mask, kind, k);
      OwnBit(p, a, k);
    }
    MaskExtensional(mask, a.mask | SlotBit(kind));
  }

  lemma OwnBit(p: Profile, a: AbstractState, k: CommandKind)
    requires Unambiguous(p)
    ensures Done(p, a, p.commandIds[k]) <==> HasBit(a.mask, k)
  {
    hide HasBit;
  }

  lemma UnambiguousTimes(p: Profile, before: Option<TimeClass>, after: Option<TimeClass>)
    requires Unambiguous(p) && ReadBack(p, before, after)
    ensures after == before
  {
    if before.Some? {
      var t :| StandsFor(p, before.value, t) && First(p, after.value, t);
      StandsExactly(p, before.value, t);
      StandsExactly(p, after.value, t);
      hide StandsFor, ClassEpoch;
    }
  }

  /** The receipt issued with a step is the one the step is due: it states the step's own
      verdict about the slot's entry, and the verifier signed it. */
  lemma IssuedIsDue(p: Profile, a: AbstractState, i: StepInput, key: PublicKey)
    requires Usable(p) && WellFormedCommand(i.command) && InDomain(p, a) && KeyRef(key) == p.verifierRef
    ensures ConcretizeState(p, a).Some?
    ensures var receipt, pre := IssuedRequest(p, a, i, key).operation.receipt, StateHash(ConcretizeState(p, a).value);
      && (i.command.kind.VerifyKind? && a.submissionStatus.Some? ==>
            Issued(p, receipt, SubmissionStatement(pre, PolicyHash(p.policy), p.terms.bountyId, p.terms.claimRef, p.terms.contextRef,
                                                   p.submissionId, p.recipeRef, p.evidenceRefs, p.artifactRefs, i.command.accepted.value)))
      && (i.command.kind.ResolveKind? && a.challengeStatus.Some? ==>
            Issued(p, receipt, ChallengeStatement(pre, PolicyHash(p.policy), p.terms.bountyId, p.terms.claimRef, p.terms.contextRef,
                                                  p.challengeId, p.submissionId, "invalid_signature", p.challengeEvidenceRefs,
                                                  i.command.upheld.value)))
      && (receipt.Some? ==> receipt.value.signature == Signed(receipt.value.publicKey, receipt.value.statement))
  {
    ConcretePictures(p, a);
    var c := ConcretizeState(p, a).value;
    SlotFound(p, a, c);
    hide ConcretizeState, InDomain, FindSubmission, FindChallenge, StandsFor, Done, ClassEpoch, ValidRef;
  }
}
