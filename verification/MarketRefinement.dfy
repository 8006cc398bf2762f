/** The adapter refines the market: concretized states differ from real ones only in receipt
    references, every step and every whole run answers alike, and projection undoes
    concretization exactly when no amount is recorded for an empty slot. */
module MarketRefinement {
  import opened Prelude
  import opened MarketTypes
  import opened MarketInvariants
  import opened Market
  import opened MarketValidity
  import opened MarketErasure
  import opened MarketRuns
  import opened FiniteState
  import opened MarketAdapter

  // ----- States and commands of one slot ----------------------------------------------------------

  ghost predicate IsSlotSubmission(p: Profile, s: SubmissionState) {
    && s == SlotSubmission(p, s.submittedAt, s.status, s.bondLocked, s.receiptRef)
    && EpochClass(p, s.submittedAt).Some?
    && s.bondLocked <= p.bond
    && ValidOptionalRef(s.receiptRef)
  }

  ghost predicate IsSlotChallenge(p: Profile, c: ChallengeState) {
    && c == SlotChallenge(p, c.openedAt, c.status, c.depositLocked, c.receiptRef)
    && EpochClass(p, c.openedAt).Some?
    && c.depositLocked <= p.deposit
    && ValidOptionalRef(c.receiptRef)
  }

  /** A concrete state the single slot can describe. */
  ghost predicate SlotState(p: Profile, c: BountyState) {
    && c.terms == p.terms
    && c.escrowLocked <= p.reward
    && |c.submissions| <= 1 && (c.submissions != [] ==> IsSlotSubmission(p, c.submissions[0]))
    && |c.challenges| <= 1 && (c.challenges != [] ==> IsSlotChallenge(p, c.challenges[0]))
    && (c.payableIds == [] || c.payableIds == [p.submissionId])
    && c.settlementRef == (if c.phase.Settled? then Some(p.settlementRef) else None)
    && forall id | id in c.processed :: id in p.commandIds.Values
  }

  /** A command the profile can produce, whatever receipt it cites. */
  ghost predicate SlotCommand(p: Profile, m: MarketCommand) {
    && m.commandId in p.commandIds.Values
    && match m
       case OpenBounty(_, _, funded, _) => funded == p.reward
       case SubmitCandidate(id, sub, submitter, recipe, verifier, evidence, artifacts, bond, now) =>
         m == SubmitCandidate(id, p.submissionId, p.submitterRef, p.recipeRef, p.verifierRef, p.evidenceRefs, p.artifactRefs, p.bond, now)
       case OpenChallenge(id, ch, sub, challenger, finding, evidence, deposit, now) =>
         m == OpenChallenge(id, p.challengeId, p.submissionId, p.challengerRef, "invalid_signature", p.challengeEvidenceRefs, p.deposit, now)
       case SettleBounty(_, settlement, _, _) => settlement == p.settlementRef
       case _ => true
  }

  /** Only these two commands store the time they run at. */
  predicate StoresTime(m: MarketCommand) { m.SubmitCandidate? || m.OpenChallenge? }

  lemma ConcretizedIsSlotCommand(p: Profile, c: AbstractCommand, now: int, receipt: Option<Ref>)
    requires WellFormedCommand(c) && ConcretizeCommand(p, c, now, receipt).Some?
    ensures var m := ConcretizeCommand(p, c, now, receipt).value;
      && SlotCommand(p, m) && m.now == now
      && (StoresTime(m) <==> c.kind.SubmitKind? || c.kind.ChallengeKind?)
  {
    assert p.commandIds[c.kind] in p.commandIds.Values;
  }

  // ----- Every committed step stays in the slot ------------------------------------------------------

  lemma SubmitStaysInSlot(p: Profile, c: BountyState, m: MarketCommand, policy: MarketPolicy)
    requires SlotState(p, c) && SlotCommand(p, m) && m.SubmitCandidate? && DecideSubmit(c, m, policy).Committed()
    ensures var next := DecideSubmit(c, m, policy).next;
      && next.submissions == [NewSubmission(m)]
      && (EpochClass(p, m.now).Some? ==> SlotState(p, next))
  {
    assert c.submissions == [];
    hide FindSubmission, EpochClass, ValidId, ValidRef, ValidRefs;
  }

  lemma ChallengeStaysInSlot(p: Profile, c: BountyState, m: MarketCommand, policy: MarketPolicy)
    requires SlotState(p, c) && SlotCommand(p, m) && m.OpenChallenge? && DecideChallenge(c, m, policy).Committed()
    ensures var next := DecideChallenge(c, m, policy).next;
      && next.challenges == [NewChallenge(m)]
      && (EpochClass(p, m.now).Some? ==> SlotState(p, next))
  {
    assert c.challenges == [];
    hide FindSubmission, FindChallenge, EpochClass, ValidId, ValidRef, ValidRefs, HasOpenChallenge;
  }

  lemma VerifyStaysInSlot(p: Profile, c: BountyState, m: MarketCommand, policy: MarketPolicy, evidence: seq<VerifierReceipt>)
    requires SlotState(p, c) && SlotCommand(p, m) && m.VerifySubmission? && DecideVerify(c, m, policy, evidence).Committed()
    ensures SlotState(p, DecideVerify(c, m, policy, evidence).next)
  {
    var sub := VerifyCommits(c, m, policy, evidence);
    hide EpochClass, ValidRef, DecideVerify, SubmissionStatementFor, FindSubmission;
    assert c.submissions == [sub];
  }

  lemma ResolveStaysInSlot(p: Profile, c: BountyState, m: MarketCommand, policy: MarketPolicy, evidence: seq<VerifierReceipt>)
    requires SlotState(p, c) && SlotCommand(p, m) && m.ResolveChallenge? && DecideResolve(c, m, policy, evidence).Committed()
    ensures SlotState(p, DecideResolve(c, m, policy, evidence).next)
  {
    hide EpochClass, ValidRef, DecideResolve, ChallengeStatementFor, FindSubmission, FindChallenge;
    var ch, sub := ResolveCommits(c, m, policy, evidence);
    assert c.submissions == [sub] && c.challenges == [ch];
  }

  lemma EligibleOfOne(subs: seq<SubmissionState>)
    requires |subs| <= 1
    ensures EligibleIds(subs) == if subs != [] && subs[0].status.Verified? then [subs[0].submissionId] else []
  {
    if subs != [] {
      var sub := subs[0];
      assert subs == [sub];
      assert SortByArrival([sub]) == InsertBy(sub, [], ArrivesBefore) == [sub];
      assert VerifiedIds([sub]) == (if sub.status.Verified? then [sub.submissionId] else []) + VerifiedIds([]);
    }
  }

  lemma ClosedStaysInSlot(p: Profile, c: BountyState)
    requires SlotState(p, c)
    ensures c.challenges != [] ==> IsSlotChallenge(p, CloseOpen(c.challenges)[0])
  {
    hide EpochClass, ValidRef, IsSlotSubmission;
  }

  lemma ReleasedStaysInSlot(p: Profile, c: BountyState)
    requires SlotState(p, c)
    ensures c.submissions != [] ==>
      && IsSlotSubmission(p, ReleaseBonds(c.submissions)[0])
      && c.submissions[0].submissionId == p.submissionId
  {
    hide EpochClass, ValidRef, IsSlotChallenge;
  }

  lemma AdvanceStaysInSlot(p: Profile, c: BountyState, m: MarketCommand, policy: MarketPolicy)
    requires SlotState(p, c) && SlotCommand(p, m) && m.AdvanceBounty? && DecideAdvance(c, m, policy).Committed()
    ensures SlotState(p, DecideAdvance(c, m, policy).next)
  {
    EligibleOfOne(c.submissions);
    ClosedStaysInSlot(p, c);
    ReleasedStaysInSlot(p, c);
    hide IsSlotSubmission, IsSlotChallenge, CloseOpen, ReleaseBonds, SlotCommand;
    hide EpochClass, ValidRef, EligibleIds, TimeoutEffects, BondRefunds, AdjudicationOpen;
  }

  lemma StepStaysInSlot(p: Profile, c: BountyState, m: MarketCommand, policy: MarketPolicy, evidence: seq<VerifierReceipt>)
    requires SlotState(p, c) && SlotCommand(p, m) && (StoresTime(m) ==> EpochClass(p, m.now).Some?)
    requires ApplyMarketCommand(c, m, policy, evidence).Committed()
    ensures SlotState(p, ApplyMarketCommand(c, m, policy, evidence).next)
  {
    CommitPassesChecks(c, m, policy, evidence);
    match m
    case SubmitCandidate(_, _, _, _, _, _, _, _, _) => SubmitStaysInSlot(p, c, m, policy);
    case VerifySubmission(_, _, _, _, _, _) => VerifyStaysInSlot(p, c, m, policy, evidence);
    case OpenChallenge(_, _, _, _, _, _, _, _) => ChallengeStaysInSlot(p, c, m, policy);
    case ResolveChallenge(_, _, _, _, _, _) => ResolveStaysInSlot(p, c, m, policy, evidence);
    case AdvanceBounty(_, _) => AdvanceStaysInSlot(p, c, m, policy);
    case OpenBounty(_, _, _, _) => OthersStayInSlot(p, c, m, policy);
    case SettleBounty(_, _, _, _) => OthersStayInSlot(p, c, m, policy);
    case CancelBounty(_, _, _) => OthersStayInSlot(p, c, m, policy);
  }

  lemma OthersStayInSlot(p: Profile, c: BountyState, m: MarketCommand, policy: MarketPolicy)
    requires SlotState(p, c) && SlotCommand(p, m)
    ensures m.OpenBounty? && DecideOpen(c, m, policy).Committed() ==> SlotState(p, DecideOpen(c, m, policy).next)
    ensures m.SettleBounty? && DecideSettle(c, m).Committed() ==> SlotState(p, DecideSettle(c, m).next)
    ensures m.CancelBounty? && DecideCancel(c, m).Committed() ==> SlotState(p, DecideCancel(c, m).next)
  {
    hide EpochClass, ValidRef, FirstPayoutFault, PayoutTotal, PayoutEffects, BondRefunds, ValidId;
  }

  // ----- Projection and concretization ------------------------------------------------------------

  lemma ProjectErased(p: Profile, c: BountyState)
    ensures ProjectState(p, Erase(c)) == ProjectState(p, c)
  {
    FindSubmissionErased(c.submissions, p.submissionId);
    FindChallengeErased(c.challenges, p.challengeId);
    hide FindSubmission, FindChallenge, EraseSubmissions, EraseChallenges, EpochClass, MaskOf;
  }

  /** What projection sees of a slot state. */
  lemma ProjectSlot(p: Profile, c: BountyState)
    requires SlotState(p, c)
    ensures FindSubmission(c.submissions, p.submissionId) == if c.submissions == [] then None else Some(c.submissions[0])
    ensures FindChallenge(c.challenges, p.challengeId) == if c.challenges == [] then None else Some(c.challenges[0])
    ensures ProjectState(p, c).Some?
  {
    hide EpochClass, ValidRef, MaskOf;
  }

  lemma ProcessedRoundTrip(p: Profile, processed: set<string>)
    requires forall id | id in processed :: id in p.commandIds.Values
    ensures ProcessedIds(p, MaskOf(processed, p.commandIds)) == processed
  {
    var mask := MaskOf(processed, p.commandIds);
    forall id | id in processed ensures id in ProcessedIds(p, mask) {
      var k :| k in p.commandIds && p.commandIds[k] == id;
      assert HasBit(mask, k);
    }
  }

  /** Concretizing the projection of a slot state gives that state back, receipt references
      aside. */
  lemma ConcretizeProjected(p: Profile, c: BountyState)
    requires SlotState(p, c)
    ensures ProjectState(p, c).Some?
    ensures TemporallyConsistent(ProjectState(p, c).value)
    ensures WithinBounds(ProjectState(p, c).value, p.reward, p.bond, p.deposit)
    ensures ConcretizeState(p, ProjectState(p, c).value).Some?
    ensures Erase(ConcretizeState(p, ProjectState(p, c).value).value) == Erase(c)
  {
    ProjectSlot(p, c);
    ProcessedRoundTrip(p, c.processed);
    var a := ProjectState(p, c).value;
    ConcretizeSubmissionsProjected(p, c);
    ConcretizeChallengesProjected(p, c);
    hide FindSubmission, FindChallenge, EpochClass, MaskOf, ProcessedIds, EraseSubmissions, EraseChallenges;
    hide ConcretizeSubmissions, ConcretizeChallenges, ValidRef;
  }

  lemma ConcretizeSubmissionsProjected(p: Profile, c: BountyState)
    requires SlotState(p, c) && ProjectState(p, c).Some?
    ensures var out := ConcretizeSubmissions(p, ProjectState(p, c).value);
      out.Some? && EraseSubmissions(out.value) == EraseSubmissions(c.submissions)
  {
    ProjectSlot(p, c);
    hide FindSubmission, FindChallenge, EpochClass, MaskOf, ValidRef;
  }

  lemma ConcretizeChallengesProjected(p: Profile, c: BountyState)
    requires SlotState(p, c) && ProjectState(p, c).Some?
    ensures var out := ConcretizeChallenges(p, ProjectState(p, c).value);
      out.Some? && EraseChallenges(out.value) == EraseChallenges(c.challenges)
  {
    ProjectSlot(p, c);
    hide FindSubmission, FindChallenge, EpochClass, MaskOf, ValidRef;
  }

  // ----- One step ---------------------------------------------------------------------------------

  /** A profile the enumerator can drive: every command id and every class time is given,
      times are not negative, and the placeholder receipts are references. */
  ghost predicate Usable(p: Profile) {
    && (forall k: CommandKind :: k in p.commandIds)
    && (forall tc: TimeClass :: ClassEpoch(p, tc).Some? && ClassEpoch(p, tc).value >= 0)
    && ValidRef(p.verifierReceiptRef) && ValidRef(p.challengeReceiptRef)
  }

  datatype StepInput = StepInput(command: AbstractCommand, timeClass: TimeClass)

  ghost predicate WellFormedSteps(steps: seq<StepInput>) {
    forall i | 0 <= i < |steps| :: WellFormedCommand(steps[i].command)
  }

  function StepTime(p: Profile, i: StepInput): nat
    requires Usable(p)
  {
    assert ClassEpoch(p, i.timeClass).Some?;
    p.times[ClassName(i.timeClass)].epoch
  }

  /** The market command of a step, before a receipt is issued for it. */
  function StepCommand(p: Profile, i: StepInput): MarketCommand
    requires Usable(p) && WellFormedCommand(i.command)
  {
    ConcretizeCommand(p, i.command, StepTime(p, i), None).value
  }

  /** The receipt the verifier issues for this step in this concrete state, if any is due. */
  function IssuedReceipt(p: Profile, c: BountyState, i: StepInput, key: PublicKey): Option<VerifierReceipt>
    requires Usable(p) && WellFormedCommand(i.command)
  {
    var st := StatementFor(c, StepCommand(p, i), p.policy);
    if st.None? then None else Some(Sign(st.value, key))
  }

  /** The adapter request for a step from an abstract state, its receipt issued for the
      concretized state. */
  function IssuedRequest(p: Profile, a: AbstractState, i: StepInput, key: PublicKey): Request
    requires Usable(p) && WellFormedCommand(i.command)
  {
    var c := ConcretizeState(p, a);
    var receipt := if c.None? then None else IssuedReceipt(p, c.value, i, key);
    Request(BindingHash(Binding(ProfileHash(p))), Step(i.command, receipt), a, ClassName(i.timeClass),
            StepTime(p, i), AbstractHash(a))
  }

  function AdapterAnswer(p: Profile, a: AbstractState, i: StepInput, key: PublicKey): Response
    requires Usable(p) && WellFormedCommand(i.command)
  {
    ApplyDataAdapter(p, Binding(ProfileHash(p)), IssuedRequest(p, a, i, key))
  }

  lemma IssuedCommand(p: Profile, c: BountyState, i: StepInput, key: PublicKey)
    requires Usable(p) && WellFormedCommand(i.command)
    ensures var receipt := IssuedReceipt(p, c, i, key);
      && ConcretizeCommand(p, i.command, StepTime(p, i), EvidenceRef(receipt)) == Some(Citing(c, StepCommand(p, i), p.policy, key))
      && Evidence(receipt) == IssuedEvidence(c, StepCommand(p, i), p.policy, key)
      && (receipt.Some? ==> i.command.kind.VerifyKind? || i.command.kind.ResolveKind?)
  {
    hide FindSubmission, FindChallenge, SubmissionStatementFor, ChallengeStatementFor, Sign, ValidRef;
  }

  /** On a state it accepts, the adapter answers with the market's decision. */
  lemma AnswerIsDecision(p: Profile, a: AbstractState, i: StepInput, key: PublicKey)
    requires Usable(p) && WellFormedCommand(i.command)
    requires TemporallyConsistent(a) && WithinBounds(a, p.reward, p.bond, p.deposit)
    requires ConcretizeState(p, a).Some?
    ensures AdapterAnswer(p, a, i, key)
      == DecisionResponse(p, ApplyIssued(ConcretizeState(p, a).value, StepCommand(p, i), p.policy, key))
  {
    var c := ConcretizeState(p, a).value;
    IssuedCommand(p, c, i, key);
    hide ConcretizeState, ConcretizeCommand, ApplyMarketCommand, DecisionResponse, IssuedReceipt, Citing, IssuedEvidence, Evidence;
    hide EvidenceRef, StepCommand, ValidRef, WithinBounds, TemporallyConsistent;
    assert ClassEpoch(p, i.timeClass).Some?;
  }

  lemma ResponseFromObservation(p: Profile, d: Decision, e: Decision)
    requires Observe(d) == Observe(e)
    ensures DecisionResponse(p, d) == DecisionResponse(p, e)
  {
    if d.Committed() {
      ProjectErased(p, d.next);
      ProjectErased(p, e.next);
    }
    hide ProjectState, Erase;
  }

  /** The adapter, run on the projection of a real state, answers exactly as the market does
      on the real state: same refusal, or same kind, code, effects and projected successor. */
  lemma AdapterSimulates(p: Profile, c: BountyState, i: StepInput, key: PublicKey)
    requires Usable(p) && WellFormedCommand(i.command) && SlotState(p, c)
    ensures ProjectState(p, c).Some?
    ensures AdapterAnswer(p, ProjectState(p, c).value, i, key)
      == DecisionResponse(p, ApplyIssued(c, StepCommand(p, i), p.policy, key))
  {
    ConcretizeProjected(p, c);
    SlotReceiptsValid(p, c);
    var a := ProjectState(p, c).value;
    var c', m := ConcretizeState(p, a).value, StepCommand(p, i);
    ConcretizedReceiptsValid(p, a);
    hide *;
    AnswerIsDecision(p, a, i, key);
    SameErasureSameAnswer(c', c, m, p.policy, key);
    ResponseFromObservation(p, ApplyIssued(c', m, p.policy, key), ApplyIssued(c, m, p.policy, key));
  }

  lemma SameErasureSameAnswer(a: BountyState, b: BountyState, m: MarketCommand, policy: MarketPolicy, key: PublicKey)
    requires Erase(a) == Erase(b) && ReceiptsValid(a) && ReceiptsValid(b)
    ensures Observe(ApplyIssued(a, m, policy, key)) == Observe(ApplyIssued(b, m, policy, key))
  {
    hide *;
    ReceiptsUnobservable(a, m, policy, key);
    ReceiptsUnobservable(b, m, policy, key);
  }

  lemma SlotReceiptsValid(p: Profile, c: BountyState)
    requires SlotState(p, c)
    ensures ReceiptsValid(c)
  {
  }

  lemma ConcretizedReceiptsValid(p: Profile, a: AbstractState)
    requires Usable(p) && ConcretizeState(p, a).Some?
    ensures ReceiptsValid(ConcretizeState(p, a).value)
  {
    hide ValidRef, ClassEpoch, ProcessedIds;
  }

  // ----- Whole runs -------------------------------------------------------------------------------

  function AdapterNext(p: Profile, a: AbstractState, i: StepInput, key: PublicKey): AbstractState
    requires Usable(p) && WellFormedCommand(i.command)
  {
    var r := AdapterAnswer(p, a, i, key);
    if r.Transition? then r.post else a
  }

  /** The abstract state after a run of the adapter from the initial abstract state. */
  function AdapterRun(p: Profile, steps: seq<StepInput>, key: PublicKey): AbstractState
    requires Usable(p) && WellFormedSteps(steps)
  {
    if steps == [] then INITIAL_ABSTRACT_STATE
    else AdapterNext(p, AdapterRun(p, steps[..|steps| - 1], key), steps[|steps| - 1], key)
  }

  /** The market input of a step in a concrete state, with its receipt issued. */
  function StepMarketInput(p: Profile, c: BountyState, i: StepInput, key: PublicKey): Input
    requires Usable(p) && WellFormedCommand(i.command)
  {
    var m := StepCommand(p, i);
    Input(Citing(c, m, p.policy, key), p.policy, IssuedEvidence(c, m, p.policy, key))
  }

  /** The market inputs of a whole run, each receipt issued for the state it is used in. */
  function MarketInputs(p: Profile, steps: seq<StepInput>, key: PublicKey): (inputs: seq<Input>)
    requires Usable(p) && WellFormedSteps(steps)
    ensures |inputs| == |steps|
  {
    if steps == [] then []
    else
      var before := MarketInputs(p, steps[..|steps| - 1], key);
      before + [StepMarketInput(p, Run(InitialBounty(p.terms), before), steps[|steps| - 1], key)]
  }

  function MarketRun(p: Profile, steps: seq<StepInput>, key: PublicKey): BountyState
    requires Usable(p) && WellFormedSteps(steps)
  {
    Run(InitialBounty(p.terms), MarketInputs(p, steps, key))
  }

  lemma MarketRunStep(p: Profile, steps: seq<StepInput>, key: PublicKey)
    requires Usable(p) && WellFormedSteps(steps) && steps != []
    ensures var c := MarketRun(p, steps[..|steps| - 1], key);
      && MarketRun(p, steps, key) == Next(c, StepMarketInput(p, c, steps[|steps| - 1], key))
      && Decide(c, StepMarketInput(p, c, steps[|steps| - 1], key)) == ApplyIssued(c, StepCommand(p, steps[|steps| - 1]), p.policy, key)
  {
    var before := MarketInputs(p, steps[..|steps| - 1], key);
    var inputs := MarketInputs(p, steps, key);
    assert inputs[..|inputs| - 1] == before;
    hide ApplyMarketCommand, StepCommand, Citing, IssuedEvidence, ClassEpoch, ValidRef;
  }

  lemma InitialSlot(p: Profile)
    ensures SlotState(p, InitialBounty(p.terms))
    ensures ProjectState(p, InitialBounty(p.terms)) == Some(INITIAL_ABSTRACT_STATE)
  {
    MaskExtensional(MaskOf({}, p.commandIds), 0);
  }

  /** Committing a slot command at a class time stays in the slot and can be projected. */
  lemma StepProjects(p: Profile, c: BountyState, i: StepInput, key: PublicKey)
    requires Usable(p) && WellFormedCommand(i.command) && SlotState(p, c)
    requires ApplyIssued(c, StepCommand(p, i), p.policy, key).Committed()
    ensures var next := ApplyIssued(c, StepCommand(p, i), p.policy, key).next;
      SlotState(p, next) && ProjectState(p, next).Some?
  {
    var receipt := IssuedReceipt(p, c, i, key);
    var m := Citing(c, StepCommand(p, i), p.policy, key);
    IssuedCommand(p, c, i, key);
    ConcretizedIsSlotCommand(p, i.command, StepTime(p, i), EvidenceRef(receipt));
    assert ClassEpoch(p, i.timeClass) == Some(StepTime(p, i));
    assert EpochClass(p, m.now).Some?;
    var d := ApplyIssued(c, StepCommand(p, i), p.policy, key);
    assert d == ApplyMarketCommand(c, m, p.policy, IssuedEvidence(c, StepCommand(p, i), p.policy, key));
    hide *;
    StepStaysInSlot(p, c, m, p.policy, IssuedEvidence(c, StepCommand(p, i), p.policy, key));
    ProjectSlot(p, d.next);
  }

  /** Along every run the adapter's state is the projection of a state the market really
      reaches, and its next answer is the market's. */
  lemma {:induction false} RunRefines(p: Profile, steps: seq<StepInput>, key: PublicKey)
    requires Usable(p) && WellFormedSteps(steps)
    ensures SlotState(p, MarketRun(p, steps, key))
    ensures ProjectState(p, MarketRun(p, steps, key)) == Some(AdapterRun(p, steps, key))
    ensures forall i: StepInput | WellFormedCommand(i.command) ::
      AdapterAnswer(p, AdapterRun(p, steps, key), i, key)
        == DecisionResponse(p, ApplyIssued(MarketRun(p, steps, key), StepCommand(p, i), p.policy, key))
  {
    if steps == [] {
      InitialSlot(p);
    } else {
      var prefix, last := steps[..|steps| - 1], steps[|steps| - 1];
      RunRefines(p, prefix, key);
      MarketRunStep(p, steps, key);
      StepRefines(p, MarketRun(p, prefix, key), AdapterRun(p, prefix, key), last, key);
    }
    var c := MarketRun(p, steps, key);
    forall i: StepInput | WellFormedCommand(i.command)
      ensures AdapterAnswer(p, AdapterRun(p, steps, key), i, key)
        == DecisionResponse(p, ApplyIssued(c, StepCommand(p, i), p.policy, key))
    {
      AdapterSimulates(p, c, i, key);
    }
  }

  lemma StepRefines(p: Profile, c: BountyState, a: AbstractState, i: StepInput, key: PublicKey)
    requires Usable(p) && WellFormedCommand(i.command) && SlotState(p, c) && ProjectState(p, c) == Some(a)
    requires Decide(c, StepMarketInput(p, c, i, key)) == ApplyIssued(c, StepCommand(p, i), p.policy, key)
    ensures SlotState(p, Next(c, StepMarketInput(p, c, i, key)))
    ensures ProjectState(p, Next(c, StepMarketInput(p, c, i, key))) == Some(AdapterNext(p, a, i, key))
  {
    AdapterSimulates(p, c, i, key);
    var d := ApplyIssued(c, StepCommand(p, i), p.policy, key);
    if d.Committed() { StepProjects(p, c, i, key); }
    hide ApplyIssued, StepCommand, ProjectState, Decide, AdapterAnswer, SlotState, StepMarketInput, WellFormedCommand, ClassEpoch, ValidRef;
  }

  // ----- Projection after concretization ------------------------------------------------------------

  /** Different commands have different ids and different classes different times. */
  ghost predicate Unambiguous(p: Profile) {
    && (forall k: CommandKind :: k in p.commandIds)
    && (forall j: CommandKind, k: CommandKind | j in p.commandIds && k in p.commandIds && p.commandIds[j] == p.commandIds[k] :: j == k)
    && (forall s: TimeClass, t: TimeClass | ClassEpoch(p, s).Some? && ClassEpoch(p, s) == ClassEpoch(p, t) :: s == t)
  }

  lemma MaskRoundTrip(p: Profile, mask: bv8)
    requires Unambiguous(p)
    ensures MaskOf(ProcessedIds(p, mask), p.commandIds) == mask
  {
    var processed := ProcessedIds(p, mask);
    forall k: CommandKind ensures HasBit(mask, k) <==> p.commandIds[k] in processed {
      if HasBit(mask, k) { assert p.commandIds[k] in processed; }
    }
    MaskExtensional(MaskOf(processed, p.commandIds), mask);
  }

  lemma EpochOfClass(p: Profile, tc: TimeClass)
    requires Unambiguous(p) && ClassEpoch(p, tc).Some?
    ensures EpochClass(p, ClassEpoch(p, tc).value) == Some(tc)
  {
    var found := EpochClass(p, ClassEpoch(p, tc).value);
    assert ClassEpoch(p, tc) == Some(ClassEpoch(p, tc).value);
    hide EpochClass;
  }

  /** What projection recovers from a concretized state whose phase agrees with `settled`. */
  lemma ProjectConcretized(p: Profile, a: AbstractState)
    requires Unambiguous(p) && TemporallyConsistent(a) && ConcretizeState(p, a).Some?
    requires a.settled <==> a.phase.Settled?
    ensures ProjectState(p, ConcretizeState(p, a).value)
      == Some(a.(bond := if a.submissionStatus.None? then 0 else a.bond,
                 deposit := if a.challengeStatus.None? then 0 else a.deposit))
  {
    var c := ConcretizeState(p, a).value;
    MaskRoundTrip(p, a.mask);
    if a.submissionStatus.Some? { EpochOfClass(p, a.submissionTime.value); }
    if a.challengeStatus.Some? { EpochOfClass(p, a.challengeTime.value); }
    assert FindSubmission(c.submissions, p.submissionId) == if c.submissions == [] then None else Some(c.submissions[0]);
    assert FindChallenge(c.challenges, p.challengeId) == if c.challenges == [] then None else Some(c.challenges[0]);
    hide FindSubmission, FindChallenge, EpochClass, ClassEpoch, MaskOf, ProcessedIds;
  }

  /** Projection undoes concretization of a valid state exactly when the abstract state
      records no bond without a submission and no deposit without a challenge. */
  lemma ProjectionExact(p: Profile, a: AbstractState)
    requires Unambiguous(p) && TemporallyConsistent(a) && ConcretizeState(p, a).Some?
    requires ValidState(ConcretizeState(p, a).value)
    ensures ProjectState(p, ConcretizeState(p, a).value) == Some(a)
      <==> ((a.submissionStatus.None? ==> a.bond == 0) && (a.challengeStatus.None? ==> a.deposit == 0))
  {
    var c := ConcretizeState(p, a).value;
    assert ValidPhase(c);
    hide ValidState;
    ProjectConcretized(p, a);
    hide ProjectState, ConcretizeState;
  }

  function SlotName(k: CommandKind): string {
    match k
    case OpenKind => "0"
    case SubmitKind => "1"
    case VerifyKind => "2"
    case ChallengeKind => "3"
    case ResolveKind => "4"
    case AdvanceKind => "5"
    case SettleKind => "6"
    case CancelKind => "7"
  }

  lemma SlotNamesDiffer(j: CommandKind, k: CommandKind)
    requires SlotName(j) == SlotName(k)
    ensures j == k
  {
    assert SlotName(j)[0] == SlotName(k)[0];
  }

  const EXAMPLE_REF := KeyRef(PublicKey(0))

  const EXAMPLE_PROFILE := Profile(
    BountyTerms("b", "sponsor", EXAMPLE_REF, None, 1, 0, 10, 10, {EXAMPLE_REF}, {EXAMPLE_REF}),
    MarketPolicy(1, 0, 1, {"invalid_signature"}, "treasury", 0, "v1"),
    "s", "h", map k: CommandKind :: SlotName(k), "sponsor", "submitter", "challenger", EXAMPLE_REF, EXAMPLE_REF,
    [EXAMPLE_REF], [EXAMPLE_REF], EXAMPLE_REF, [EXAMPLE_REF], EXAMPLE_REF, "settled", map[], 1, 1, 1)

  lemma ExampleUnambiguous()
    ensures Unambiguous(EXAMPLE_PROFILE)
  {
    var p := EXAMPLE_PROFILE;
    forall j: CommandKind, k: CommandKind | p.commandIds[j] == p.commandIds[k] ensures j == k { SlotNamesDiffer(j, k); }
    assert forall tc: TimeClass :: ClassEpoch(p, tc).None?;
  }

  /** The condition can fail: a valid open state that records a bond for an empty slot. */
  lemma OrphanBondExample()
    ensures var p, a := EXAMPLE_PROFILE, INITIAL_ABSTRACT_STATE.(phase := Open, escrow := 1, bond := 1);
      && Unambiguous(p) && TemporallyConsistent(a) && WithinBounds(a, p.reward, p.bond, p.deposit)
      && ConcretizeState(p, a).Some? && ValidState(ConcretizeState(p, a).value)
      && ProjectState(p, ConcretizeState(p, a).value) != Some(a)
  {
    ExampleUnambiguous();
    var p, a := EXAMPLE_PROFILE, INITIAL_ABSTRACT_STATE.(phase := Open, escrow := 1, bond := 1);
    var c := ConcretizeState(p, a).value;
    assert ProcessedIds(p, 0) == {};
    assert c == BountyState(p.terms, Open, 1, [], [], [], None, {});
    OpenStateValid(c);
    ProjectionExact(p, a);
  }

  // ----- When the adapter raises --------------------------------------------------------------------

  lemma ConcretizedIsSlot(p: Profile, a: AbstractState)
    requires TemporallyConsistent(a) && WithinBounds(a, p.reward, p.bond, p.deposit)
    requires ConcretizeState(p, a).Some? && ValidState(ConcretizeState(p, a).value)
    ensures SlotState(p, ConcretizeState(p, a).value)
  {
    var c := ConcretizeState(p, a).value;
    assert ValidPhase(c) && ValidSubmissions(c.submissions) && ValidChallenges(c.challenges);
    hide ValidState, ValidRef, EpochClass, HasBit;
  }

  lemma UnprojectableTime(p: Profile, c: BountyState, m: MarketCommand, evidence: seq<VerifierReceipt>)
    requires SlotState(p, c) && SlotCommand(p, m) && StoresTime(m) && EpochClass(p, m.now).None?
    requires ApplyMarketCommand(c, m, p.policy, evidence).Committed()
    ensures ProjectState(p, ApplyMarketCommand(c, m, p.policy, evidence).next).None?
  {
    CommitPassesChecks(c, m, p.policy, evidence);
    if m.SubmitCandidate? { SubmitStaysInSlot(p, c, m, p.policy); }
    else { ChallengeStaysInSlot(p, c, m, p.policy); }
    hide ApplyMarketCommand, DecideSubmit, DecideChallenge, EpochClass, SlotState;
  }

  /** The adapter is not quite total: past its input checks it raises exactly when a
      submission or a challenge commits at a time that none of the five classes stands for,
      which takes a profile naming an extra time, or a truth value for a class. */
  lemma RaisesExactly(p: Profile, r: Request)
    requires r.operation.Step? && WellFormedCommand(r.operation.command)
    requires r.bindingHash == BindingHash(Binding(ProfileHash(p))) && r.expectedPreState == AbstractHash(r.state)
    requires r.operation.receipt.Some? ==> r.operation.command.kind.VerifyKind? || r.operation.command.kind.ResolveKind?
    requires TemporallyConsistent(r.state) && WithinBounds(r.state, p.reward, p.bond, p.deposit)
    requires ConcretizeState(p, r.state).Some?
    requires r.timeClass in p.times && EqualsTime(p.times[r.timeClass], r.now)
    requires ConcretizeCommand(p, r.operation.command, r.now, EvidenceRef(r.operation.receipt)).Some?
    ensures
      var m := ConcretizeCommand(p, r.operation.command, r.now, EvidenceRef(r.operation.receipt)).value;
      var d := ApplyMarketCommand(ConcretizeState(p, r.state).value, m, p.policy, Evidence(r.operation.receipt));
      ApplyDataAdapter(p, Binding(ProfileHash(p)), r).Raised? <==>
        (d.Committed() && StoresTime(m) && EpochClass(p, r.now).None?)
  {
    var c := ConcretizeState(p, r.state).value;
    var m := ConcretizeCommand(p, r.operation.command, r.now, EvidenceRef(r.operation.receipt)).value;
    var ev := Evidence(r.operation.receipt);
    var d := ApplyMarketCommand(c, m, p.policy, ev);
    assert ApplyDataAdapter(p, Binding(ProfileHash(p)), r) == DecisionResponse(p, d) by {
      hide DecisionResponse, ApplyMarketCommand, ConcretizeState, ConcretizeCommand, EvidenceRef, Evidence, WithinBounds, TemporallyConsistent;
    }
    ConcretizedIsSlotCommand(p, r.operation.command, r.now, EvidenceRef(r.operation.receipt));
    assert DecisionResponse(p, d).Raised? <==> d.Committed() && ProjectState(p, d.next).None? by {
      hide ProjectState, ApplyMarketCommand;
    }
    hide *;
    if d.Committed() {
      ConcretizedIsSlot(p, r.state);
      if StoresTime(m) && EpochClass(p, m.now).None? { UnprojectableTime(p, c, m, ev); }
      else { StepStaysInSlot(p, c, m, p.policy, ev); ProjectSlot(p, d.next); }
    }
  }

  /** So a profile whose every time is the time of some class never makes it raise,
      whatever the request. */
  lemma NeverRaises(p: Profile, binding: Binding, r: Request)
    requires forall name, now: int | name in p.times && EqualsTime(p.times[name], now) :: EpochClass(p, now).Some?
    ensures !ApplyDataAdapter(p, binding, r).Raised?
  {
    hide EpochClass, ConcretizeState, ConcretizeCommand, ApplyMarketCommand, DecisionResponse, TemporallyConsistent, WithinBounds;
    hide WellFormedCommand, Evidence, EvidenceRef, ValidState, EqualsTime;
    if ApplyDataAdapter(p, binding, r).Raised? { RaisesExactly(p, r); }
  }

  /** It can raise: a submission at a sixth time named by the profile, or at a class whose
      time is given as a truth value. */
  lemma RaisesExample(extra: bool)
    ensures if extra then RaisesAt("extra", Stamp(5), 5) else RaisesAt("pre_deadline", Flag(true), 1)
  {
    var name, rep, now := if extra then "extra" else "pre_deadline", if extra then Stamp(5) else Flag(true), if extra then 5 else 1;
    var p := EXAMPLE_PROFILE.(times := map[name := rep]);
    var a := INITIAL_ABSTRACT_STATE.(phase := Open, escrow := 1);
    var cmd := AbstractCommand(SubmitKind, None, None);
    var r := ExampleRequest(p, name, now);
    var c := ConcretizeState(p, a).value;
    assert ProcessedIds(p, 0) == {};
    assert c == BountyState(p.terms, Open, 1, [], [], [], None, {});
    var m := ConcretizeCommand(p, cmd, now, None).value;
    ExampleSubmitCommits(p, c, m);
    assert EpochClass(p, now).None?;
    hide ApplyMarketCommand, ConcretizeState, ConcretizeCommand, ApplyDataAdapter, EpochClass;
    RaisesExactly(p, r);
  }

  function ExampleRequest(p: Profile, name: string, now: nat): Request {
    var a := INITIAL_ABSTRACT_STATE.(phase := Open, escrow := 1);
    Request(BindingHash(Binding(ProfileHash(p))), Step(AbstractCommand(SubmitKind, None, None), None), a, name, now, AbstractHash(a))
  }

  predicate RaisesAt(name: string, rep: Representative, now: nat) {
    var p := EXAMPLE_PROFILE.(times := map[name := rep]);
    ApplyDataAdapter(p, Binding(ProfileHash(p)), ExampleRequest(p, name, now)).Raised?
  }

  lemma ExampleSubmitCommits(p: Profile, c: BountyState, m: MarketCommand)
    requires p == EXAMPLE_PROFILE.(times := p.times)
    requires c == BountyState(p.terms, Open, 1, [], [], [], None, {})
    requires m.SubmitCandidate? && 0 <= m.now <= 10
    requires m == SubmitCandidate("1", "s", "submitter", EXAMPLE_REF, EXAMPLE_REF, [EXAMPLE_REF], [EXAMPLE_REF], 1, m.now)
    ensures ApplyMarketCommand(c, m, p.policy, []).Committed()
  {
    OpenStateValid(c);
    assert ValidState(c);
    hide ValidState;
    assert DecideSubmit(c, m, p.policy).Committed();
    assert CommonFault(m).None? && BindingFault(c, m, p.policy, []).None?;
  }
}
