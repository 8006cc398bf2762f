/** Breadth-first enumeration of the abstract states: it visits reachable states only, and
    finishes within its budget exactly when the budget covers all of them. */
module Enumerator {
  import opened Prelude
  import opened MarketTypes
  import opened MarketInvariants
  import opened Market
  import opened MarketValidity
  import opened MarketErasure
  import opened MarketRuns
  import opened FiniteState
  import opened MarketAdapter
  import opened MarketRefinement

  // ----- The cases: every command variant at every time class ---------------------------------------

  const COMMAND_VARIANTS: seq<AbstractCommand> := [
    AbstractCommand(OpenKind, None, None),
    AbstractCommand(SubmitKind, None, None),
    AbstractCommand(VerifyKind, Some(true), None),
    AbstractCommand(VerifyKind, Some(false), None),
    AbstractCommand(ChallengeKind, None, None),
    AbstractCommand(ResolveKind, None, Some(true)),
    AbstractCommand(ResolveKind, None, Some(false)),
    AbstractCommand(AdvanceKind, None, None),
    AbstractCommand(SettleKind, None, None),
    AbstractCommand(CancelKind, None, None)]

  const CASES := 50

  function VariantIndex(c: AbstractCommand): (n: nat)
    requires WellFormedCommand(c)
    ensures n < 10
  {
    match c.kind
    case OpenKind => 0
    case SubmitKind => 1
    case VerifyKind => if c.accepted.value then 2 else 3
    case ChallengeKind => 4
    case ResolveKind => if c.upheld.value then 5 else 6
    case AdvanceKind => 7
    case SettleKind => 8
    case CancelKind => 9
  }

  function ClassIndex(tc: TimeClass): (n: nat)
    ensures n < 5 && TIME_CLASSES[n] == tc
  {
    match tc
    case PreDeadline => 0
    case AtDeadline => 1
    case ChallengeWindow => 2
    case PostChallengeWindow => 3
    case PostResolutionDeadline => 4
  }

  /** The n-th case, in the order the nested loops reach it. */
  function Case(n: nat): StepInput
    requires n < CASES
  {
    StepInput(COMMAND_VARIANTS[n / 5], TIME_CLASSES[n % 5])
  }

  lemma VariantsWellFormed(v: nat)
    requires v < 10
    ensures WellFormedCommand(COMMAND_VARIANTS[v])
  {
  }

  /** The ten variants are all the well-formed commands there are. */
  lemma VariantsComplete(c: AbstractCommand)
    requires WellFormedCommand(c)
    ensures COMMAND_VARIANTS[VariantIndex(c)] == c
  {
  }

  lemma CasesComplete(i: StepInput) returns (n: nat)
    requires WellFormedCommand(i.command)
    ensures n < CASES && Case(n) == i
  {
    VariantsComplete(i.command);
    n := 5 * VariantIndex(i.command) + ClassIndex(i.timeClass);
    assert n / 5 == VariantIndex(i.command) && n % 5 == ClassIndex(i.timeClass);
  }

  // ----- Reachability ---------------------------------------------------------------------------------

  ghost predicate Reachable(p: Profile, key: PublicKey, a: AbstractState)
    requires Usable(p)
  {
    exists steps :: WellFormedSteps(steps) && AdapterRun(p, steps, key) == a
  }

  lemma InitialReachable(p: Profile, key: PublicKey)
    requires Usable(p)
    ensures Reachable(p, key, INITIAL_ABSTRACT_STATE)
  {
    assert WellFormedSteps([]) && AdapterRun(p, [], key) == INITIAL_ABSTRACT_STATE;
  }

  lemma StepReachable(p: Profile, key: PublicKey, a: AbstractState, i: StepInput)
    requires Usable(p) && Reachable(p, key, a) && WellFormedCommand(i.command)
    ensures Reachable(p, key, AdapterNext(p, a, i, key))
  {
    var steps :| WellFormedSteps(steps) && AdapterRun(p, steps, key) == a;
    var longer := steps + [i];
    assert longer[..|longer| - 1] == steps;
    hide AdapterNext, WellFormedCommand, ClassEpoch, ValidRef;
    assert WellFormedSteps(longer) && AdapterRun(p, longer, key) == AdapterNext(p, a, i, key);
  }

  /** A set closed under every step that holds the initial state holds all reachable ones. */
  ghost predicate Closed(p: Profile, key: PublicKey, states: set<AbstractState>)
    requires Usable(p)
  {
    forall a, i: StepInput | a in states && WellFormedCommand(i.command) :: AdapterNext(p, a, i, key) in states
  }

  lemma {:induction false} ClosedHoldsRun(p: Profile, key: PublicKey, states: set<AbstractState>, steps: seq<StepInput>)
    requires Usable(p) && INITIAL_ABSTRACT_STATE in states && Closed(p, key, states) && WellFormedSteps(steps)
    ensures AdapterRun(p, steps, key) in states
  {
    hide AdapterNext, ClassEpoch, ValidRef;
    if steps != [] {
      ClosedHoldsRun(p, key, states, steps[..|steps| - 1]);
      assert WellFormedCommand(steps[|steps| - 1].command);
    }
  }

  // ----- Answers the enumerator meets -----------------------------------------------------------------

  predicate BadEvidence(r: Response) {
    r.Refusal? && (r.reason.InvalidEvidence? || r.reason.MissingEvidence?)
  }

  /** A receipt issued by the slot's own verifier is never found invalid or missing. */
  lemma VerifyAdmitted(c: BountyState, m: MarketCommand, policy: MarketPolicy, key: PublicKey, sub: SubmissionState)
    requires m.VerifySubmission? && FindSubmission(c.submissions, m.submissionId) == Some(sub)
    requires KeyRef(key) == m.verifierRef == sub.verifierRef
    ensures var d := ApplyIssued(c, m, policy, key); d.Reject? ==> !d.code.InvalidEvidence? && !d.code.MissingEvidence?
  {
    IssuedIsValid(c, m, policy, key);
    VerifyBindingOfIssued(c, m, policy, key, sub);
    VerifyAdmission(c, m, policy, key, sub);
    hide ValidState, ValidPolicy, ValidEvidence, BindingFault, FindSubmission, AdmissionFault, Citing, IssuedEvidence, ApplyVerdict;
    hide SubmissionStatementFor, ValidRef, ValidId, FindReceipt;
  }

  lemma ResolveAdmitted(c: BountyState, m: MarketCommand, policy: MarketPolicy, key: PublicKey, ch: ChallengeState)
    requires m.ResolveChallenge? && FindChallenge(c.challenges, m.challengeId) == Some(ch)
    requires KeyRef(key) == m.verifierRef
    ensures var d := ApplyIssued(c, m, policy, key); d.Reject? ==> !d.code.InvalidEvidence? && !d.code.MissingEvidence?
  {
    IssuedIsValid(c, m, policy, key);
    ResolveBindingOfIssued(c, m, policy, key, ch);
    ResolveAdmission(c, m, policy, key, ch);
    hide ValidState, ValidPolicy, ValidEvidence, BindingFault, FindSubmission, FindChallenge, AdmissionFault, Citing, IssuedEvidence;
    hide ChallengeStatementFor, ValidRef, ValidId, FindReceipt, ApplyResolution;
  }

  /** Whether the adapter is given a receipt for this step. */
  function ReceiptIssued(p: Profile, a: AbstractState, i: StepInput, key: PublicKey): bool
    requires Usable(p) && WellFormedCommand(i.command)
  {
    IssuedRequest(p, a, i, key).operation.receipt.Some?
  }

  lemma IssuedAdmitted(p: Profile, c: BountyState, i: StepInput, key: PublicKey)
    requires Usable(p) && WellFormedCommand(i.command) && SlotState(p, c) && KeyRef(key) == p.verifierRef
    requires IssuedReceipt(p, c, i, key).Some?
    ensures !BadEvidence(DecisionResponse(p, ApplyIssued(c, StepCommand(p, i), p.policy, key)))
  {
    var m := StepCommand(p, i);
    ProjectSlot(p, c);
    if m.VerifySubmission? {
      VerifyAdmitted(c, m, p.policy, key, c.submissions[0]);
    } else {
      ResolveAdmitted(c, m, p.policy, key, c.challenges[0]);
    }
    hide ApplyIssued, ProjectState, FindSubmission, FindChallenge, SlotState;
  }

  lemma StatementErased(c: BountyState, m: MarketCommand, policy: MarketPolicy)
    ensures StatementFor(Erase(c), m, policy).Some? <==> StatementFor(c, m, policy).Some?
  {
    if m.VerifySubmission? { FindSubmissionErased(c.submissions, m.submissionId); }
    if m.ResolveChallenge? { FindChallengeErased(c.challenges, m.challengeId); }
    hide FindSubmission, FindChallenge, EraseSubmissions, EraseChallenges, SubmissionStatementFor, ChallengeStatementFor;
  }

  /** From a reachable state every case gets a real answer: never an input error, never an
      exception, and never a complaint about the evidence issued for it. */
  lemma ReachableAnswers(p: Profile, key: PublicKey, a: AbstractState, i: StepInput)
    requires Usable(p) && KeyRef(key) == p.verifierRef && Reachable(p, key, a) && WellFormedCommand(i.command)
    ensures var r := AdapterAnswer(p, a, i, key);
      && (r.Transition? || r.Refusal?)
      && (ReceiptIssued(p, a, i, key) ==> !BadEvidence(r))
  {
    hide ApplyIssued, ProjectState, AdapterAnswer, StepCommand, MarketRun, AdapterRun;
    var steps :| WellFormedSteps(steps) && AdapterRun(p, steps, key) == a;
    RunRefines(p, steps, key);
    var c := MarketRun(p, steps, key);
    var d := ApplyIssued(c, StepCommand(p, i), p.policy, key);
    assert AdapterAnswer(p, a, i, key) == DecisionResponse(p, d);
    if d.Committed() { StepProjects(p, c, i, key); }
    if ReceiptIssued(p, a, i, key) {
      ConcretizeProjected(p, c);
      var c' := ConcretizeState(p, a).value;
      StatementErased(c, StepCommand(p, i), p.policy);
      StatementErased(c', StepCommand(p, i), p.policy);
      SameStatement(p, c, c', i, key);
      IssuedAdmitted(p, c, i, key);
    }
  }

  lemma SameStatement(p: Profile, c: BountyState, c': BountyState, i: StepInput, key: PublicKey)
    requires Usable(p) && WellFormedCommand(i.command) && Erase(c) == Erase(c')
    ensures IssuedReceipt(p, c, i, key).Some? <==> IssuedReceipt(p, c', i, key).Some?
  {
    StatementErased(c, StepCommand(p, i), p.policy);
    StatementErased(c', StepCommand(p, i), p.policy);
    hide StatementFor, StepCommand, Erase;
  }
}
