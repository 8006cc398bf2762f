/** The adapter between the finite abstraction and the market: projection, concretization
    and one total operation that steps the abstract state through the real transition. */
module MarketAdapter {
  import opened Prelude
  import opened MarketTypes
  import opened MarketInvariants
  import opened Market
  import opened MarketErasure
  import opened FiniteState

  /** What a profile gives as a time: an integer, a truth value, which equals 0 or 1 in a
      comparison but is no time, or something else. */
  datatype Representative = Stamp(epoch: int) | Flag(on: bool) | NoTime

  predicate EqualsTime(r: Representative, now: int) {
    match r
    case Stamp(epoch) => epoch == now
    case Flag(on) => now == if on then 1 else 0
    case NoTime => false
  }

  /** The fixed identities, amounts and times of one slot. Times are keyed by name, and a
      profile may name more times than the five classes. */
  datatype Profile = Profile(
    terms: BountyTerms,
    policy: MarketPolicy,
    submissionId: string,
    challengeId: string,
    commandIds: map<CommandKind, string>,
    sponsorRef: string,
    submitterRef: string,
    challengerRef: string,
    recipeRef: Ref,
    verifierRef: Ref,
    evidenceRefs: seq<Ref>,
    artifactRefs: seq<Ref>,
    verifierReceiptRef: Ref,
    challengeEvidenceRefs: seq<Ref>,
    challengeReceiptRef: Ref,
    settlementRef: string,
    times: map<string, Representative>,
    reward: nat,
    bond: nat,
    deposit: nat)

  function ClassName(tc: TimeClass): (name: string) {
    match tc
    case PreDeadline => "pre_deadline"
    case AtDeadline => "at_deadline"
    case ChallengeWindow => "challenge_window"
    case PostChallengeWindow => "post_challenge_window"
    case PostResolutionDeadline => "post_resolution_deadline"
  }

  function ClassEpoch(p: Profile, tc: TimeClass): Option<int> {
    if ClassName(tc) in p.times && p.times[ClassName(tc)].Stamp? then Some(p.times[ClassName(tc)].epoch) else None
  }

  /** The first class standing for this time. */
  function EpochClass(p: Profile, epoch: int): (r: Option<TimeClass>)
    ensures r.Some? ==> ClassEpoch(p, r.value) == Some(epoch)
    ensures r.None? ==> forall tc: TimeClass :: ClassEpoch(p, tc) != Some(epoch)
  {
    if ClassEpoch(p, PreDeadline) == Some(epoch) then Some(PreDeadline)
    else if ClassEpoch(p, AtDeadline) == Some(epoch) then Some(AtDeadline)
    else if ClassEpoch(p, ChallengeWindow) == Some(epoch) then Some(ChallengeWindow)
    else if ClassEpoch(p, PostChallengeWindow) == Some(epoch) then Some(PostChallengeWindow)
    else if ClassEpoch(p, PostResolutionDeadline) == Some(epoch) then Some(PostResolutionDeadline)
    else None
  }

  // ----- Projection ---------------------------------------------------------------------------

  /** The abstract view of a concrete state; None when a stored time is in no class. */
  function ProjectState(p: Profile, c: BountyState): (r: Option<AbstractState>) {
    var sub := FindSubmission(c.submissions, p.submissionId);
    var ch := FindChallenge(c.challenges, p.challengeId);
    var submittedAt := if sub.None? then None else EpochClass(p, sub.value.submittedAt);
    var openedAt := if ch.None? then None else EpochClass(p, ch.value.openedAt);
    if (sub.Some? && submittedAt.None?) || (ch.Some? && openedAt.None?) then None
    else Some(AbstractState(
      c.phase,
      c.escrowLocked,
      if sub.None? then None else Some(sub.value.status),
      submittedAt,
      if sub.None? then 0 else sub.value.bondLocked,
      if ch.None? then None else Some(ch.value.status),
      openedAt,
      if ch.None? then 0 else ch.value.depositLocked,
      c.payableIds != [],
      c.phase.Settled?,
      MaskOf(c.processed, p.commandIds)))
  }

  // ----- Concretization -------------------------------------------------------------------------

  function OptionalEpoch(p: Profile, tc: Option<TimeClass>): Option<int> {
    if tc.None? then Some(0) else ClassEpoch(p, tc.value)
  }

  function SlotSubmission(p: Profile, submittedAt: int, status: SubmissionStatus, bond: nat, receipt: Option<Ref>): SubmissionState {
    SubmissionState(p.submissionId, p.submitterRef, p.recipeRef, p.verifierRef, p.evidenceRefs, p.artifactRefs,
                    submittedAt, status, bond, receipt)
  }

  function SlotChallenge(p: Profile, openedAt: int, status: ChallengeStatus, deposit: nat, receipt: Option<Ref>): ChallengeState {
    ChallengeState(p.challengeId, p.submissionId, p.challengerRef, "invalid_signature", p.challengeEvidenceRefs,
                   openedAt, status, deposit, receipt)
  }

  function ConcretizeSubmissions(p: Profile, a: AbstractState): Option<seq<SubmissionState>> {
    if a.submissionStatus.None? then Some([])
    else
      var at := OptionalEpoch(p, a.submissionTime);
      var status := a.submissionStatus.value;
      if at.None? then None
      else Some([SlotSubmission(p, at.value, status, a.bond, if status.Pending? then None else Some(p.verifierReceiptRef))])
  }

  function ConcretizeChallenges(p: Profile, a: AbstractState): Option<seq<ChallengeState>> {
    if a.challengeStatus.None? then Some([])
    else
      var at := OptionalEpoch(p, a.challengeTime);
      var status := a.challengeStatus.value;
      if at.None? then None
      else Some([SlotChallenge(p, at.value, status, a.deposit, if status.ChallengeOpen? then None else Some(p.challengeReceiptRef))])
  }

  function ProcessedIds(p: Profile, mask: bv8): set<string> {
    set k: CommandKind | HasBit(mask, k) && k in p.commandIds :: p.commandIds[k]
  }

  /** The concrete state an abstract state stands for; None when a time class has no time. */
  function ConcretizeState(p: Profile, a: AbstractState): Option<BountyState> {
    var subs := ConcretizeSubmissions(p, a);
    var chs := ConcretizeChallenges(p, a);
    if subs.None? || chs.None? then None
    else Some(BountyState(
      p.terms, a.phase, a.escrow, subs.value, chs.value,
      if a.payable then [p.submissionId] else [],
      if a.settled then Some(p.settlementRef) else None,
      ProcessedIds(p, a.mask)))
  }

  /** The concrete command; None when the profile has no id for its kind. */
  function ConcretizeCommand(p: Profile, c: AbstractCommand, now: int, receipt: Option<Ref>): Option<MarketCommand>
    requires WellFormedCommand(c)
  {
    if c.kind !in p.commandIds then None
    else
      var id := p.commandIds[c.kind];
      match c.kind
      case OpenKind => Some(OpenBounty(id, p.sponsorRef, p.reward, now))
      case SubmitKind =>
        Some(SubmitCandidate(id, p.submissionId, p.submitterRef, p.recipeRef, p.verifierRef, p.evidenceRefs,
                             p.artifactRefs, p.bond, now))
      case VerifyKind =>
        Some(VerifySubmission(id, p.submissionId, p.verifierRef,
                              if receipt.Some? then receipt.value else p.verifierReceiptRef, c.accepted.value, now))
      case ChallengeKind =>
        Some(OpenChallenge(id, p.challengeId, p.submissionId, p.challengerRef, "invalid_signature",
                           p.challengeEvidenceRefs, p.deposit, now))
      case ResolveKind =>
        Some(ResolveChallenge(id, p.challengeId, p.verifierRef,
                              if receipt.Some? then receipt.value else p.challengeReceiptRef, c.upheld.value, now))
      case AdvanceKind => Some(AdvanceBounty(id, now))
      case SettleKind =>
        Some(SettleBounty(id, p.settlementRef, [Payout(p.submitterRef, p.submissionId, p.reward)], now))
      case CancelKind => Some(CancelBounty(id, p.sponsorRef, now))
  }

  // ----- The adapter operation --------------------------------------------------------------------

  /** Digests of a profile, a binding and an abstract state, symbolic like all others. */
  datatype ProfileHash = ProfileHash(profile: Profile)
  datatype Binding = Binding(profileHash: ProfileHash)
  datatype BindingHash = BindingHash(binding: Binding)
  datatype AbstractHash = AbstractHash(state: AbstractState)

  datatype Operation =
    | ValidateState
    | Step(command: AbstractCommand, receipt: Option<VerifierReceipt>)

  datatype Request = Request(
    bindingHash: BindingHash,
    operation: Operation,
    state: AbstractState,
    timeClass: string,
    now: nat,
    expectedPreState: AbstractHash)

  datatype InvalidCode =
    | ProfileMismatch | BindingMismatch | StateOutOfDomain | CommandOutOfDomain | PreStateMismatch

  /** An answer, or the exception that escapes when the successor cannot be projected. */
  datatype Response =
    | InvalidInput(code: InvalidCode)
    | Validated(violations: bool)
    | Refusal(reason: RejectCode, field: string)
    | Transition(failure: Option<FailureCode>, post: AbstractState, effects: seq<MarketEffect>)
    | Raised

  function DecisionResponse(p: Profile, d: Decision): Response {
    match d
    case Reject(code, field) => Refusal(code, field)
    case Accept(next, effects, _) =>
      var post := ProjectState(p, next);
      if post.None? then Raised else Transition(None, post.value, effects)
    case CommittedFailure(failure, next, effects, _) =>
      var post := ProjectState(p, next);
      if post.None? then Raised else Transition(Some(failure), post.value, effects)
  }

  function Evidence(receipt: Option<VerifierReceipt>): seq<VerifierReceipt> {
    if receipt.None? then [] else [receipt.value]
  }

  function EvidenceRef(receipt: Option<VerifierReceipt>): Option<Ref> {
    if receipt.None? then None else Some(ReceiptRef(receipt.value))
  }

  function HandleStep(p: Profile, r: Request, c: BountyState): Response
    requires r.operation.Step?
  {
    var cmd := r.operation.command;
    if !WellFormedCommand(cmd) then InvalidInput(CommandOutOfDomain)
    else if r.operation.receipt.Some? && !(cmd.kind.VerifyKind? || cmd.kind.ResolveKind?) then InvalidInput(CommandOutOfDomain)
    else if !(r.timeClass in p.times && EqualsTime(p.times[r.timeClass], r.now)) then InvalidInput(StateOutOfDomain)
    else
      var command := ConcretizeCommand(p, cmd, r.now, EvidenceRef(r.operation.receipt));
      if command.None? then InvalidInput(CommandOutOfDomain)
      else DecisionResponse(p, ApplyMarketCommand(c, command.value, p.policy, Evidence(r.operation.receipt)))
  }

  function ApplyDataAdapter(p: Profile, binding: Binding, r: Request): Response {
    if binding.profileHash != ProfileHash(p) then InvalidInput(ProfileMismatch)
    else if r.bindingHash != BindingHash(binding) then InvalidInput(BindingMismatch)
    else if !TemporallyConsistent(r.state) then InvalidInput(StateOutOfDomain)
    else if !WithinBounds(r.state, p.reward, p.bond, p.deposit) then InvalidInput(StateOutOfDomain)
    else
      var c := ConcretizeState(p, r.state);
      if c.None? then InvalidInput(StateOutOfDomain)
      else if r.expectedPreState != AbstractHash(r.state) then InvalidInput(PreStateMismatch)
      else if r.operation.ValidateState? then Validated(!ValidState(c.value))
      else HandleStep(p, r, c.value)
  }
}
