/** Conduct of the market: money reaches the account it belongs to, commands commit only in
    their time window, and every entity of a reachable state was admissible when it entered. */
module MarketConduct {
  import opened Prelude
  import opened MarketTypes
  import opened MarketInvariants
  import opened Market
  import opened MarketValidity
  import opened MarketRuns
  import MarketOutcomes

  // ----- Whose money it is ----------------------------------------------------------------------------------------

  ghost predicate SubmittedBy(subs: seq<SubmissionState>, id: string, account: string) {
    exists i | 0 <= i < |subs| :: subs[i].submissionId == id && subs[i].submitterRef == account
  }

  ghost predicate ChallengedBy(chs: seq<ChallengeState>, id: string, account: string) {
    exists i | 0 <= i < |chs| :: chs[i].challengeId == id && chs[i].challengerRef == account
  }

  /** The effect names the account its kind is about: sponsor, submitter, challenger or
      treasury. */
  ghost predicate ReachesOwner(s: BountyState, p: MarketPolicy, e: MarketEffect) {
    match e.kind
    case LockEscrow => e.accountRef == s.terms.sponsorRef && e.subjectRef == s.terms.bountyId
    case RefundEscrow => e.accountRef == s.terms.sponsorRef && e.subjectRef == s.terms.bountyId
    case PayoutEffect => SubmittedBy(s.submissions, e.subjectRef, e.accountRef)
    case LockSubmissionBond => SubmittedBy(s.submissions, e.subjectRef, e.accountRef)
    case RefundSubmissionBond => SubmittedBy(s.submissions, e.subjectRef, e.accountRef)
    case SlashSubmissionBond => e.accountRef == p.treasuryRef
    case LockChallengeDeposit => ChallengedBy(s.challenges, e.subjectRef, e.accountRef)
    case RefundChallengeDeposit => ChallengedBy(s.challenges, e.subjectRef, e.accountRef)
    case SlashChallengeDeposit => e.accountRef == p.treasuryRef
  }

  ghost predicate AllReachOwners(s: BountyState, p: MarketPolicy, effects: seq<MarketEffect>) {
    forall i | 0 <= i < |effects| :: ReachesOwner(s, p, effects[i])
  }

  lemma {:induction false} RefundsReachOwners(s: BountyState, p: MarketPolicy, subs: seq<SubmissionState>, reason: string)
    requires forall i | 0 <= i < |subs| :: SubmittedBy(s.submissions, subs[i].submissionId, subs[i].submitterRef)
    ensures AllReachOwners(s, p, BondRefunds(subs, reason))
  {
    hide SubmittedBy;
    if subs != [] { RefundsReachOwners(s, p, subs[..|subs| - 1], reason); }
  }

  lemma {:induction false} TimeoutsReachTreasury(s: BountyState, p: MarketPolicy, chs: seq<ChallengeState>)
    ensures AllReachOwners(s, p, TimeoutEffects(chs, p))
  {
    if chs != [] { TimeoutsReachTreasury(s, p, chs[..|chs| - 1]); }
  }

  /** Releasing bonds or judging a submission leaves every submitter where it was. */
  lemma OwnersStay(subs: seq<SubmissionState>, r: SubmissionState, sub: SubmissionState)
    requires sub in subs && r.submissionId == sub.submissionId && r.submitterRef == sub.submitterRef
    ensures SubmittedBy(PutSubmission(subs, r), r.submissionId, r.submitterRef)
    ensures forall i | 0 <= i < |subs| :: SubmittedBy(ReleaseBonds(subs), subs[i].submissionId, subs[i].submitterRef)
  {
    var out, released := PutSubmission(subs, r), ReleaseBonds(subs);
    var k :| 0 <= k < |subs| && subs[k] == sub;
    assert out[k] == r;
    forall i | 0 <= i < |subs| ensures SubmittedBy(released, subs[i].submissionId, subs[i].submitterRef) {
      assert released[i].submissionId == subs[i].submissionId;
    }
  }

  lemma ReleasedOwners(subs: seq<SubmissionState>)
    ensures forall i | 0 <= i < |subs| :: SubmittedBy(ReleaseBonds(subs), subs[i].submissionId, subs[i].submitterRef)
  {
    if subs != [] { OwnersStay(subs, subs[0], subs[0]); }
  }

  lemma ChallengerStays(chs: seq<ChallengeState>, r: ChallengeState, ch: ChallengeState)
    requires ch in chs && r.challengeId == ch.challengeId && r.challengerRef == ch.challengerRef
    ensures ChallengedBy(PutChallenge(chs, r), r.challengeId, r.challengerRef)
  {
    var out := PutChallenge(chs, r);
    var k :| 0 <= k < |chs| && chs[k] == ch;
    assert out[k] == r;
  }

  lemma VerifyReachesOwners(s: BountyState, c: MarketCommand, p: MarketPolicy, evidence: seq<VerifierReceipt>)
    requires c.VerifySubmission? && DecideVerify(s, c, p, evidence).Committed()
    ensures var d := DecideVerify(s, c, p, evidence); AllReachOwners(d.next, p, d.effects)
  {
    var sub := VerifyCommits(s, c, p, evidence);
    hide DecideVerify, SubmittedBy, PutSubmission;
    var judged := sub.(status := if c.accepted then Verified else SubmissionRejected,
                       bondLocked := if c.accepted then sub.bondLocked else 0,
                       receiptRef := Some(c.receiptRef));
    OwnersStay(s.submissions, judged, sub);
  }

  lemma ResolveReachesOwners(s: BountyState, c: MarketCommand, p: MarketPolicy, evidence: seq<VerifierReceipt>)
    requires c.ResolveChallenge? && DecideResolve(s, c, p, evidence).Committed()
    ensures var d := DecideResolve(s, c, p, evidence); AllReachOwners(d.next, p, d.effects)
  {
    var ch, sub := ResolveCommits(s, c, p, evidence);
    hide DecideResolve, ChallengedBy, PutSubmission, PutChallenge;
    var closed := ch.(status := if c.upheld then Upheld else ChallengeRejected, depositLocked := 0, receiptRef := Some(c.receiptRef));
    ChallengerStays(s.challenges, closed, ch);
  }

  lemma AdvanceReachesOwners(s: BountyState, c: MarketCommand, p: MarketPolicy)
    requires c.AdvanceBounty? && DecideAdvance(s, c, p).Committed()
    ensures var d := DecideAdvance(s, c, p); AllReachOwners(d.next, p, d.effects)
  {
    var d := DecideAdvance(s, c, p);
    hide EligibleIds, AdjudicationOpen, SubmittedBy, BondRefunds, TimeoutEffects, ReleaseBonds, CloseOpen;
    TimeoutsReachTreasury(d.next, p, s.challenges);
    if d.CommittedFailure? {
      ReleasedOwners(s.submissions);
      RefundsReachOwners(d.next, p, s.submissions, "bounty_expired");
    }
  }

  lemma SettleReachesOwners(s: BountyState, c: MarketCommand, p: MarketPolicy)
    requires c.SettleBounty? && DecideSettle(s, c).Committed()
    ensures var d := DecideSettle(s, c); AllReachOwners(d.next, p, d.effects)
  {
    var d := DecideSettle(s, c);
    ReleasedOwners(s.submissions);
    var payouts := PayoutEffects(c.payouts);
    forall k | 0 <= k < |payouts| ensures ReachesOwner(d.next, p, payouts[k]) {
      MarketOutcomes.NoPayoutFault(s, c.payouts, 0, k);
      var sub := EligibleSubmission(s, c.payouts[k].submissionId).value;
      var i :| 0 <= i < |s.submissions| && s.submissions[i] == sub;
      hide SubmittedBy, ReleaseBonds;
    }
    hide SubmittedBy, BondRefunds, FirstPayoutFault, PayoutTotal, PayoutEffects, ValidId, ReleaseBonds;
    RefundsReachOwners(d.next, p, s.submissions, "settlement_complete");
  }

  lemma OthersReachOwners(s: BountyState, c: MarketCommand, p: MarketPolicy)
    ensures c.OpenBounty? && DecideOpen(s, c, p).Committed() ==> AllReachOwners(DecideOpen(s, c, p).next, p, DecideOpen(s, c, p).effects)
    ensures c.CancelBounty? && DecideCancel(s, c).Committed() ==> AllReachOwners(DecideCancel(s, c).next, p, DecideCancel(s, c).effects)
  {
  }

  lemma EntrantsReachOwners(s: BountyState, c: MarketCommand, p: MarketPolicy)
    ensures c.SubmitCandidate? && DecideSubmit(s, c, p).Committed() ==>
      AllReachOwners(DecideSubmit(s, c, p).next, p, DecideSubmit(s, c, p).effects)
    ensures c.OpenChallenge? && DecideChallenge(s, c, p).Committed() ==>
      AllReachOwners(DecideChallenge(s, c, p).next, p, DecideChallenge(s, c, p).effects)
  {
    hide ValidId, ValidRef, ValidRefs, FindSubmission, FindChallenge, HasOpenChallenge;
    if c.SubmitCandidate? && DecideSubmit(s, c, p).Committed() {
      var next := DecideSubmit(s, c, p).next;
      assert next.submissions[|s.submissions|] == NewSubmission(c);
    }
    if c.OpenChallenge? && DecideChallenge(s, c, p).Committed() {
      var next := DecideChallenge(s, c, p).next;
      assert next.challenges[|s.challenges|] == NewChallenge(c);
    }
  }

  /** Every effect of every committed command names the account it belongs to. */
  lemma EffectsReachOwners(s: BountyState, i: Input)
    requires Decide(s, i).Committed()
    ensures AllReachOwners(Decide(s, i).next, i.policy, Decide(s, i).effects)
  {
    var c, p := i.command, i.policy;
    CommitPassesChecks(s, c, p, i.evidence);
    hide ApplyMarketCommand, AllReachOwners;
    match c
    case VerifySubmission(_, _, _, _, _, _) => VerifyReachesOwners(s, c, p, i.evidence);
    case ResolveChallenge(_, _, _, _, _, _) => ResolveReachesOwners(s, c, p, i.evidence);
    case AdvanceBounty(_, _) => AdvanceReachesOwners(s, c, p);
    case SettleBounty(_, _, _, _) => SettleReachesOwners(s, c, p);
    case OpenBounty(_, _, _, _) => OthersReachOwners(s, c, p);
    case CancelBounty(_, _, _) => OthersReachOwners(s, c, p);
    case SubmitCandidate(_, _, _, _, _, _, _, _, _) => EntrantsReachOwners(s, c, p);
    case OpenChallenge(_, _, _, _, _, _, _, _) => EntrantsReachOwners(s, c, p);
  }

  // ----- When commands commit -----------------------------------------------------------------------------------------

  /** The time window and the standing each committed command had. */
  ghost predicate InWindow(s: BountyState, c: MarketCommand, p: MarketPolicy) {
    match c
    case OpenBounty(_, sponsor, _, now) => now < s.terms.deadline && sponsor == s.terms.sponsorRef
    case SubmitCandidate(_, _, _, _, _, _, _, _, now) => now <= s.terms.deadline
    case VerifySubmission(_, _, _, _, _, now) => now <= s.terms.deadline + s.terms.challengeWindow
    case OpenChallenge(_, _, _, _, finding, _, _, now) => now <= s.terms.deadline + s.terms.challengeWindow && finding in p.slashableFindings
    case ResolveChallenge(_, id, _, _, _, now) =>
      exists i | 0 <= i < |s.challenges| ::
        s.challenges[i].challengeId == id && s.challenges[i].status.ChallengeOpen?
        && (now <= s.terms.deadline + s.terms.challengeWindow || now <= s.challenges[i].openedAt + p.resolutionSeconds)
    case AdvanceBounty(_, now) =>
      && now > s.terms.deadline + s.terms.challengeWindow
      && forall i | 0 <= i < |s.challenges| && s.challenges[i].status.ChallengeOpen? :: now > s.challenges[i].openedAt + p.resolutionSeconds
    case SettleBounty(_, _, _, _) => true
    case CancelBounty(_, sponsor, now) =>
      now < s.terms.deadline && sponsor == s.terms.sponsorRef && s.submissions == [] && s.challenges == []
  }

  lemma ResolveInWindow(s: BountyState, c: MarketCommand, p: MarketPolicy, evidence: seq<VerifierReceipt>)
    requires c.ResolveChallenge? && DecideResolve(s, c, p, evidence).Committed()
    ensures InWindow(s, c, p)
  {
    var ch, sub := ResolveCommits(s, c, p, evidence);
    assert c.now <= ResolutionDeadline(s.terms, ch, p);
    hide DecideResolve;
  }

  /** A command commits only inside its window. */
  lemma CommitsInWindow(s: BountyState, i: Input)
    requires Decide(s, i).Committed()
    ensures InWindow(s, i.command, i.policy)
  {
    CommitPassesChecks(s, i.command, i.policy, i.evidence);
    hide ApplyMarketCommand, ValidId, ValidRef, ValidRefs, FindSubmission, FindChallenge, AdmissionFault, EligibleIds, TimeoutEffects;
    if i.command.ResolveChallenge? { ResolveInWindow(s, i.command, i.policy, i.evidence); }
    else { DispatchInWindow(s, i.command, i.policy, i.evidence); }
  }

  lemma DispatchInWindow(s: BountyState, c: MarketCommand, p: MarketPolicy, evidence: seq<VerifierReceipt>)
    requires !c.ResolveChallenge? && Dispatch(s, c, p, evidence).Committed()
    ensures InWindow(s, c, p)
  {
    hide ValidId, ValidRef, ValidRefs, FindSubmission, FindChallenge, AdmissionFault, EligibleIds, TimeoutEffects, HasOpenChallenge;
    hide BondRefunds, FirstPayoutFault, PayoutTotal, ApplyVerdict;
  }

  // ----- What entered the market ----------------------------------------------------------------------------------------

  ghost predicate AdmissibleSubmission(t: BountyTerms, s: SubmissionState) {
    && s.submittedAt <= t.deadline && s.evidenceRefs != []
    && s.recipeRef in t.acceptedRecipeRefs && s.verifierRef in t.acceptedVerifierRefs
    && (s.bondLocked > 0 ==> s.bondLocked >= t.minimumSubmissionBond)
    && (s.status.Pending? ==> s.receiptRef.None?)
  }

  ghost predicate AdmissibleChallenge(t: BountyTerms, c: ChallengeState) {
    c.openedAt <= ChallengeDeadline(t) && c.evidenceRefs != [] && (c.status.ChallengeOpen? ==> c.receiptRef.None?)
  }

  /** Entities entered in time, with evidence, under accepted recipes and verifiers, and a
      funded bounty holds at least its reward. */
  ghost predicate Admissible(s: BountyState) {
    && (forall i | 0 <= i < |s.submissions| :: AdmissibleSubmission(s.terms, s.submissions[i]))
    && (forall i | 0 <= i < |s.challenges| :: AdmissibleChallenge(s.terms, s.challenges[i]))
    && (s.phase.Open? || s.phase.Payable? ==> s.escrowLocked >= s.terms.reward)
  }

  lemma SubmitAdmissible(s: BountyState, c: MarketCommand, p: MarketPolicy)
    requires Admissible(s) && c.SubmitCandidate? && DecideSubmit(s, c, p).Committed()
    ensures Admissible(DecideSubmit(s, c, p).next)
  {
    hide ValidId, ValidRef, ValidRefs, FindSubmission;
  }

  lemma ChallengeAdmissible(s: BountyState, c: MarketCommand, p: MarketPolicy)
    requires Admissible(s) && c.OpenChallenge? && DecideChallenge(s, c, p).Committed()
    ensures Admissible(DecideChallenge(s, c, p).next)
  {
    hide ValidId, ValidRef, ValidRefs, FindSubmission, FindChallenge, HasOpenChallenge;
  }

  lemma VerifyAdmissible(s: BountyState, c: MarketCommand, p: MarketPolicy, evidence: seq<VerifierReceipt>)
    requires Admissible(s) && c.VerifySubmission? && DecideVerify(s, c, p, evidence).Committed()
    ensures Admissible(DecideVerify(s, c, p, evidence).next)
  {
    var sub := VerifyCommits(s, c, p, evidence);
    hide DecideVerify, SubmissionStatementFor;
    assert AdmissibleSubmission(s.terms, sub);
  }

  lemma ResolveAdmissible(s: BountyState, c: MarketCommand, p: MarketPolicy, evidence: seq<VerifierReceipt>)
    requires Admissible(s) && c.ResolveChallenge? && DecideResolve(s, c, p, evidence).Committed()
    ensures Admissible(DecideResolve(s, c, p, evidence).next)
  {
    var ch, sub := ResolveCommits(s, c, p, evidence);
    hide DecideResolve, ChallengeStatementFor;
    assert AdmissibleSubmission(s.terms, sub) && AdmissibleChallenge(s.terms, ch);
  }

  lemma AdvanceAdmissible(s: BountyState, c: MarketCommand, p: MarketPolicy)
    requires Admissible(s) && c.AdvanceBounty? && DecideAdvance(s, c, p).Committed()
    ensures Admissible(DecideAdvance(s, c, p).next)
  {
    hide EligibleIds, AdjudicationOpen, BondRefunds, TimeoutEffects;
  }

  lemma OthersAdmissible(s: BountyState, c: MarketCommand, p: MarketPolicy)
    requires Admissible(s)
    ensures c.OpenBounty? && DecideOpen(s, c, p).Committed() ==> Admissible(DecideOpen(s, c, p).next)
    ensures c.SettleBounty? && DecideSettle(s, c).Committed() ==> Admissible(DecideSettle(s, c).next)
    ensures c.CancelBounty? && DecideCancel(s, c).Committed() ==> Admissible(DecideCancel(s, c).next)
  {
    hide BondRefunds, FirstPayoutFault, PayoutTotal, PayoutEffects, ValidId;
  }

  lemma StepAdmissible(s: BountyState, i: Input)
    requires Admissible(s)
    ensures Admissible(Next(s, i))
  {
    if Decide(s, i).Committed() {
      var c, p := i.command, i.policy;
      CommitPassesChecks(s, c, p, i.evidence);
      hide ApplyMarketCommand, Admissible;
      match c
      case SubmitCandidate(_, _, _, _, _, _, _, _, _) => SubmitAdmissible(s, c, p);
      case OpenChallenge(_, _, _, _, _, _, _, _) => ChallengeAdmissible(s, c, p);
      case VerifySubmission(_, _, _, _, _, _) => VerifyAdmissible(s, c, p, i.evidence);
      case ResolveChallenge(_, _, _, _, _, _) => ResolveAdmissible(s, c, p, i.evidence);
      case AdvanceBounty(_, _) => AdvanceAdmissible(s, c, p);
      case OpenBounty(_, _, _, _) => OthersAdmissible(s, c, p);
      case SettleBounty(_, _, _, _) => OthersAdmissible(s, c, p);
      case CancelBounty(_, _, _) => OthersAdmissible(s, c, p);
    }
  }

  /** Every reachable state holds only what was admissible when it entered. */
  lemma {:induction false} ReachableAdmissible(terms: BountyTerms, inputs: seq<Input>)
    ensures Admissible(Run(InitialBounty(terms), inputs))
  {
    if inputs != [] {
      ReachableAdmissible(terms, inputs[..|inputs| - 1]);
      StepAdmissible(Run(InitialBounty(terms), inputs[..|inputs| - 1]), inputs[|inputs| - 1]);
      hide Admissible, Next;
    }
  }
}
