/** Whole runs of the market: what every reachable state satisfies, how a run ends, and
    what happens at most once along it. */
module MarketRuns {
  import opened Prelude
  import opened MarketTypes
  import opened MarketInvariants
  import opened Market
  import opened MarketValidity

  datatype Input = Input(command: MarketCommand, policy: MarketPolicy, evidence: seq<VerifierReceipt>)

  function Decide(s: BountyState, i: Input): Decision {
    ApplyMarketCommand(s, i.command, i.policy, i.evidence)
  }

  function Next(s: BountyState, i: Input): BountyState {
    var d := Decide(s, i);
    if d.Committed() then d.next else s
  }

  function Emitted(s: BountyState, i: Input): seq<MarketEffect> {
    var d := Decide(s, i);
    if d.Committed() then d.effects else []
  }

  /** The state after a run; rejected commands leave it alone. */
  function Run(s: BountyState, inputs: seq<Input>): BountyState {
    if inputs == [] then s
    else Next(Run(s, inputs[..|inputs| - 1]), inputs[|inputs| - 1])
  }

  /** Every effect committed along a run, in order. */
  function Ledger(s: BountyState, inputs: seq<Input>): seq<MarketEffect> {
    if inputs == [] then []
    else Ledger(s, inputs[..|inputs| - 1]) + Emitted(Run(s, inputs[..|inputs| - 1]), inputs[|inputs| - 1])
  }

  // ----- Invariants of reachable states beyond validity --------------------------------------

  ghost predicate OpenTargetVerified(subs: seq<SubmissionState>, chs: seq<ChallengeState>) {
    forall i, j | 0 <= i < |chs| && 0 <= j < |subs| && chs[i].submissionId == subs[j].submissionId
      && chs[i].status.ChallengeOpen? :: subs[j].status.Verified?
  }

  ghost predicate UpheldTargetRejected(subs: seq<SubmissionState>, chs: seq<ChallengeState>) {
    forall i, j | 0 <= i < |chs| && 0 <= j < |subs| && chs[i].submissionId == subs[j].submissionId
      && chs[i].status.Upheld? :: subs[j].status.SubmissionRejected?
  }

  ghost predicate SoundLists(subs: seq<SubmissionState>, chs: seq<ChallengeState>) {
    && UniqueSubmissions(subs)
    && UniqueChallenges(chs)
    && ReferencesResolve(subs, chs)
    && OpenTargetVerified(subs, chs)
    && UpheldTargetRejected(subs, chs)
  }

  ghost predicate Sound(s: BountyState) {
    && SoundLists(s.submissions, s.challenges)
    && (s.phase.Payable? || s.phase.Settled? ==> ExactlyEligible(s.payableIds, s.submissions))
  }

  lemma InitialSound(terms: BountyTerms)
    ensures Sound(InitialBounty(terms))
  {
  }

  /** Judging a pending submission disturbs no challenge: none can target it yet. */
  lemma JudgePending(subs: seq<SubmissionState>, chs: seq<ChallengeState>, sub: SubmissionState, judged: SubmissionState)
    requires SoundLists(subs, chs)
    requires sub in subs && sub.status.Pending? && judged.submissionId == sub.submissionId
    ensures SoundLists(PutSubmission(subs, judged), chs)
  {
    PutSubmissionFacts(subs, sub, judged);
    SameIdsKeepReferences(subs, PutSubmission(subs, judged), chs);
    hide PutSubmission;
  }

  /** Closing one challenge as rejected, or as upheld together with its target. */
  lemma CloseChallenge(subs: seq<SubmissionState>, chs: seq<ChallengeState>, ch: ChallengeState, closed: ChallengeState)
    requires SoundLists(subs, chs)
    requires ch in chs && closed.challengeId == ch.challengeId && closed.submissionId == ch.submissionId
    requires closed.status.ChallengeRejected?
    ensures SoundLists(subs, PutChallenge(chs, closed))
  {
    PutChallengeFacts(chs, ch, closed);
    hide PutChallenge;
  }

  lemma StrikeSubmission(subs: seq<SubmissionState>, chs: seq<ChallengeState>, sub: SubmissionState, struck: SubmissionState)
    requires SoundLists(subs, chs)
    requires sub in subs && struck.submissionId == sub.submissionId && struck.status.SubmissionRejected?
    requires forall i | 0 <= i < |chs| && chs[i].status.ChallengeOpen? :: chs[i].submissionId != sub.submissionId
    ensures SoundLists(PutSubmission(subs, struck), chs)
  {
    PutSubmissionFacts(subs, sub, struck);
    SameIdsKeepReferences(subs, PutSubmission(subs, struck), chs);
    hide PutSubmission;
  }

  lemma UpholdChallenge(subs: seq<SubmissionState>, chs: seq<ChallengeState>, ch: ChallengeState, closed: ChallengeState)
    requires SoundLists(subs, chs)
    requires ch in chs && closed.challengeId == ch.challengeId && closed.submissionId == ch.submissionId
    requires closed.status.Upheld?
    requires forall j | 0 <= j < |subs| && subs[j].submissionId == ch.submissionId :: subs[j].status.SubmissionRejected?
    ensures SoundLists(subs, PutChallenge(chs, closed))
  {
    PutChallengeFacts(chs, ch, closed);
    hide PutChallenge;
  }

  lemma VerifyStepSound(s: BountyState, c: MarketCommand, p: MarketPolicy, evidence: seq<VerifierReceipt>)
    requires Sound(s) && c.VerifySubmission?
    requires DecideVerify(s, c, p, evidence).Committed()
    ensures Sound(DecideVerify(s, c, p, evidence).next)
  {
    var sub := VerifyCommits(s, c, p, evidence);
    var judged := sub.(status := if c.accepted then Verified else SubmissionRejected,
                       bondLocked := if c.accepted then sub.bondLocked else 0,
                       receiptRef := Some(c.receiptRef));
    JudgePending(s.submissions, s.challenges, sub, judged);
    hide DecideVerify, ExactlyEligible, UniqueSubmissions, UniqueChallenges, ReferencesResolve;
    hide OpenTargetVerified, UpheldTargetRejected, PutSubmission;
  }

  lemma SubmitStepSound(s: BountyState, c: MarketCommand, p: MarketPolicy)
    requires ValidState(s) && Sound(s) && c.SubmitCandidate?
    requires DecideSubmit(s, c, p).Committed()
    ensures Sound(DecideSubmit(s, c, p).next)
  {
    var next := DecideSubmit(s, c, p).next;
    hide ValidState, ExactlyEligible;
    forall i | 0 <= i < |s.challenges|
      ensures HasSubmission(next.submissions, s.challenges[i].submissionId)
      ensures s.challenges[i].submissionId != c.submissionId
    {
      assert HasSubmission(s.submissions, s.challenges[i].submissionId);
      var j :| 0 <= j < |s.submissions| && s.submissions[j].submissionId == s.challenges[i].submissionId;
      assert next.submissions[j] == s.submissions[j];
    }
  }

  lemma ChallengeStepSound(s: BountyState, c: MarketCommand, p: MarketPolicy)
    requires ValidState(s) && Sound(s) && c.OpenChallenge?
    requires DecideChallenge(s, c, p).Committed()
    ensures Sound(DecideChallenge(s, c, p).next)
  {
    var next := DecideChallenge(s, c, p).next;
    var sub := FindSubmission(s.submissions, c.submissionId).value;
    hide ValidState, ExactlyEligible;
    var n := |s.challenges|;
    assert next.challenges[n] == NewChallenge(c) && forall i | 0 <= i < n :: next.challenges[i] == s.challenges[i];
    assert HasSubmission(s.submissions, c.submissionId);
    forall j | 0 <= j < |s.submissions| && s.submissions[j].submissionId == c.submissionId
      ensures s.submissions[j] == sub
    {
      var k :| 0 <= k < |s.submissions| && s.submissions[k] == sub;
    }
  }

  /** Rejecting the challenge first and the submission next reaches the upheld lists in
      sound steps: the challenge is closed, its target struck, the verdict recorded. */
  lemma UpheldLists(subs: seq<SubmissionState>, chs: seq<ChallengeState>, ch: ChallengeState, closed: ChallengeState,
                    sub: SubmissionState, struck: SubmissionState)
    requires SoundLists(subs, chs) && OneOpenPerSubmission(chs)
    requires ch in chs && ch.status.ChallengeOpen?
    requires closed.challengeId == ch.challengeId && closed.submissionId == ch.submissionId && closed.status.Upheld?
    requires sub in subs && sub.submissionId == ch.submissionId == struck.submissionId && struck.status.SubmissionRejected?
    ensures SoundLists(PutSubmission(subs, struck), PutChallenge(chs, closed))
  {
    var shut := closed.(status := ChallengeRejected);
    var mid := PutChallenge(chs, shut);
    CloseChallenge(subs, chs, ch, shut);
    PutChallengeFacts(chs, ch, shut);
    forall i | 0 <= i < |mid| && mid[i].status.ChallengeOpen? ensures mid[i].submissionId != sub.submissionId {
      var k :| 0 <= k < |chs| && chs[k] == ch;
    }
    StrikeSubmission(subs, mid, sub, struck);
    PutSubmissionFacts(subs, sub, struck);
    var k :| 0 <= k < |chs| && chs[k] == ch;
    assert mid[k] == shut;
    UpholdChallenge(PutSubmission(subs, struck), mid, shut, closed);
    assert PutChallenge(mid, closed) == PutChallenge(chs, closed);
  }

  lemma ResolveStepSound(s: BountyState, c: MarketCommand, p: MarketPolicy, evidence: seq<VerifierReceipt>)
    requires OneOpenPerSubmission(s.challenges) && Sound(s) && c.ResolveChallenge?
    requires DecideResolve(s, c, p, evidence).Committed()
    ensures Sound(DecideResolve(s, c, p, evidence).next)
  {
    var ch, sub := ResolveCommits(s, c, p, evidence);
    var closed := ch.(status := if c.upheld then Upheld else ChallengeRejected,
                      depositLocked := 0, receiptRef := Some(c.receiptRef));
    if c.upheld {
      UpheldLists(s.submissions, s.challenges, ch, closed, sub, sub.(status := SubmissionRejected, bondLocked := 0));
    } else {
      CloseChallenge(s.submissions, s.challenges, ch, closed);
    }
    hide DecideResolve, ExactlyEligible, UniqueSubmissions, UniqueChallenges, ReferencesResolve, OneOpenPerSubmission;
    hide OpenTargetVerified, UpheldTargetRejected, PutSubmission, PutChallenge;
  }

  lemma ExactlyEligibleAfterRelease(ids: seq<string>, subs: seq<SubmissionState>)
    requires ExactlyEligible(ids, subs)
    ensures ExactlyEligible(ids, ReleaseBonds(subs))
  {
    var out := ReleaseBonds(subs);
    forall id ensures HasVerified(out, id) <==> HasVerified(subs, id) {
      if HasVerified(subs, id) {
        var i :| 0 <= i < |subs| && subs[i].submissionId == id && subs[i].status.Verified?;
        assert out[i].submissionId == id;
      }
    }
  }

  lemma ReleaseKeepsLists(subs: seq<SubmissionState>, chs: seq<ChallengeState>)
    requires UniqueSubmissions(subs) && ReferencesResolve(subs, chs)
    requires UpheldTargetRejected(subs, chs)
    ensures var out := ReleaseBonds(subs);
      UniqueSubmissions(out) && ReferencesResolve(out, chs) && UpheldTargetRejected(out, chs)
  {
    SameIdsKeepReferences(subs, ReleaseBonds(subs), chs);
  }

  lemma CloseKeepsLists(subs: seq<SubmissionState>, chs: seq<ChallengeState>)
    requires UniqueChallenges(chs) && ReferencesResolve(subs, chs) && UpheldTargetRejected(subs, chs)
    ensures var out := CloseOpen(chs);
      && UniqueChallenges(out) && ReferencesResolve(subs, out) && UpheldTargetRejected(subs, out)
      && NoOpenChallenge(out)
  {
    var out := CloseOpen(chs);
    forall i | 0 <= i < |out| ensures HasSubmission(subs, out[i].submissionId) {
      assert HasSubmission(subs, chs[i].submissionId);
    }
  }

  lemma AdvanceStepSound(s: BountyState, c: MarketCommand, p: MarketPolicy)
    requires ValidState(s) && Sound(s) && c.AdvanceBounty?
    requires DecideAdvance(s, c, p).Committed()
    ensures Sound(DecideAdvance(s, c, p).next)
  {
    hide ValidState, EligibleIds, CloseOpen, ReleaseBonds, AdjudicationOpen, TimeoutEffects, BondRefunds, ExactlyEligible;
    hide UniqueSubmissions, UniqueChallenges, ReferencesResolve, UpheldTargetRejected;
    CloseKeepsLists(s.submissions, s.challenges);
    ReleaseKeepsLists(s.submissions, CloseOpen(s.challenges));
    EligibleIsExact(s.submissions);
  }

  lemma SettleStepSound(s: BountyState, c: MarketCommand)
    requires ValidState(s) && Sound(s) && c.SettleBounty?
    requires DecideSettle(s, c).Committed()
    ensures Sound(DecideSettle(s, c).next)
  {
    assert NoOpenChallenge(s.challenges);
    ReleaseKeepsLists(s.submissions, s.challenges);
    ExactlyEligibleAfterRelease(s.payableIds, s.submissions);
    hide ValidState, ReleaseBonds, FirstPayoutFault, PayoutTotal, BondRefunds, ExactlyEligible;
    hide UniqueSubmissions, UniqueChallenges, ReferencesResolve, UpheldTargetRejected;
  }

  lemma StepSound(s: BountyState, i: Input)
    requires Sound(s)
    ensures Sound(Next(s, i))
  {
    var Input(c, p, evidence) := i;
    if Decide(s, i).Committed() {
      CommitPassesChecks(s, c, p, evidence);
      hide ApplyMarketCommand, ValidEvidence, ValidPolicy, ValidId;
      match c {
        case OpenBounty(_, _, _, _) =>
        case SubmitCandidate(_, _, _, _, _, _, _, _, _) => SubmitStepSound(s, c, p);
        case VerifySubmission(_, _, _, _, _, _) => VerifyStepSound(s, c, p, evidence);
        case OpenChallenge(_, _, _, _, _, _, _, _) => ChallengeStepSound(s, c, p);
        case ResolveChallenge(_, _, _, _, _, _) => ResolveStepSound(s, c, p, evidence);
        case AdvanceBounty(_, _) => AdvanceStepSound(s, c, p);
        case SettleBounty(_, _, _, _) => SettleStepSound(s, c);
        case CancelBounty(_, _, _) =>
      }
    }
  }

  /** Payability in every reachable state: open challenges target verified submissions,
      upheld ones rejected submissions, and the payable ids of a payable or settled bounty
      are exactly its verified submissions in arrival order. */
  lemma {:induction false} ReachableSound(terms: BountyTerms, inputs: seq<Input>)
    ensures Sound(Run(InitialBounty(terms), inputs))
  {
    if inputs == [] {
      InitialSound(terms);
    } else {
      ReachableSound(terms, inputs[..|inputs| - 1]);
      StepSound(Run(InitialBounty(terms), inputs[..|inputs| - 1]), inputs[|inputs| - 1]);
    }
  }
}
