/** What each committed command changes, and what each refusal means, list by list and
    field by field; and the entry point, held to both. */
module MarketChanges {
  import opened Prelude
  import opened MarketTypes
  import opened MarketInvariants
  import opened Market
  import opened MarketValidity
  import opened MarketRules

  // ----- The decision a command leaves -----------------------------------------------------------------

  /** The decision commits this state and these effects, as a failure or as a success, under
      a receipt that binds the command, the event, the state and the effects. */
  ghost predicate Leaves(s: BountyState, c: MarketCommand, d: Decision, failure: Option<FailureCode>, event: string,
                         next: BountyState, effects: seq<MarketEffect>)
  {
    && next.processed == s.processed + {c.commandId}
    && var receipt := TransitionReceipt(s.terms.bountyId, event, s.phase, c, StateHash(next), effects);
    && d == match failure
         case None => Accept(next, effects, receipt)
         case Some(f) => CommittedFailure(f, next, effects, receipt)
  }

  ghost predicate OpenChange(s: BountyState, c: MarketCommand, d: Decision)
    requires c.OpenBounty?
  {
    Leaves(s, c, d, None, "bounty_opened",
           s.(phase := Open, escrowLocked := c.funded, processed := s.processed + {c.commandId}),
           [MarketEffect(LockEscrow, s.terms.sponsorRef, c.funded, s.terms.bountyId, map[])])
  }

  ghost predicate SubmitChange(s: BountyState, c: MarketCommand, d: Decision)
    requires c.SubmitCandidate?
  {
    var entry := SubmissionState(c.submissionId, c.submitterRef, c.recipeRef, c.verifierRef, c.evidenceRefs, c.artifactRefs,
                                 c.now, Pending, c.bond, None);
    Leaves(s, c, d, None, "candidate_submitted",
           s.(submissions := s.submissions + [entry], processed := s.processed + {c.commandId}),
           [MarketEffect(LockSubmissionBond, c.submitterRef, c.bond, c.submissionId, map[])])
  }

  /** An acceptance keeps the bond; a rejection, a committed failure, refunds it. */
  ghost predicate VerifyChange(s: BountyState, c: MarketCommand, d: Decision)
    requires c.VerifySubmission?
  {
    exists i :: 0 <= i < |s.submissions| && s.submissions[i].submissionId == c.submissionId && s.submissions[i].status.Pending?
      && var sub := s.submissions[i];
      if c.accepted then
        Leaves(s, c, d, None, "submission_verified",
               s.(submissions := s.submissions[i := sub.(status := Verified, receiptRef := Some(c.receiptRef))],
                  processed := s.processed + {c.commandId}),
               [])
      else
        Leaves(s, c, d, Some(VerifierRejected), "submission_rejected",
               s.(submissions := s.submissions[i := sub.(status := SubmissionRejected, bondLocked := 0, receiptRef := Some(c.receiptRef))],
                  processed := s.processed + {c.commandId}),
               [MarketEffect(RefundSubmissionBond, sub.submitterRef, sub.bondLocked, sub.submissionId,
                             map["reason" := "honest_verifier_rejection"])])
  }

  ghost predicate ChallengeChange(s: BountyState, c: MarketCommand, d: Decision)
    requires c.OpenChallenge?
  {
    var entry := ChallengeState(c.challengeId, c.submissionId, c.challengerRef, c.findingKind, c.evidenceRefs, c.now,
                                ChallengeOpen, c.deposit, None);
    Leaves(s, c, d, None, "challenge_opened",
           s.(challenges := s.challenges + [entry], processed := s.processed + {c.commandId}),
           [MarketEffect(LockChallengeDeposit, c.challengerRef, c.deposit, c.challengeId, map[])])
  }

  /** Upheld: the deposit returns to the challenger and the bond goes to the treasury with
      the submission struck. Rejected: the deposit goes to the treasury. */
  ghost predicate ResolveChange(s: BountyState, c: MarketCommand, p: MarketPolicy, d: Decision)
    requires c.ResolveChallenge?
  {
    exists j, i :: 0 <= j < |s.challenges| && 0 <= i < |s.submissions|
      && s.challenges[j].challengeId == c.challengeId && s.challenges[j].status.ChallengeOpen?
      && s.submissions[i].submissionId == s.challenges[j].submissionId
      && var ch, sub := s.challenges[j], s.submissions[i];
      if c.upheld then
        Leaves(s, c, d, None, "challenge_upheld",
               s.(challenges := s.challenges[j := ch.(status := Upheld, depositLocked := 0, receiptRef := Some(c.receiptRef))],
                  submissions := s.submissions[i := sub.(status := SubmissionRejected, bondLocked := 0)],
                  processed := s.processed + {c.commandId}),
               [MarketEffect(RefundChallengeDeposit, ch.challengerRef, ch.depositLocked, ch.challengeId, map[]),
                MarketEffect(SlashSubmissionBond, p.treasuryRef, sub.bondLocked, sub.submissionId, map["finding_kind" := ch.findingKind])])
      else
        Leaves(s, c, d, Some(ChallengeWasRejected), "challenge_rejected",
               s.(challenges := s.challenges[j := ch.(status := ChallengeRejected, depositLocked := 0, receiptRef := Some(c.receiptRef))],
                  processed := s.processed + {c.commandId}),
               [MarketEffect(SlashChallengeDeposit, p.treasuryRef, ch.depositLocked, ch.challengeId, map["finding_kind" := ch.findingKind])])
  }

  /** Positions below n in ascending order. */
  ghost predicate Ascending(at: seq<nat>, n: nat) {
    (forall k | 0 <= k < |at| :: at[k] < n) && (forall j, k | 0 <= j < k < |at| :: at[j] < at[k])
  }

  /** One slash for each open challenge, in order. */
  ghost predicate Slashed(chs: seq<ChallengeState>, p: MarketPolicy, effects: seq<MarketEffect>) {
    exists at :: SlashedAt(chs, p, effects, at)
  }

  ghost predicate SlashedAt(chs: seq<ChallengeState>, p: MarketPolicy, effects: seq<MarketEffect>, at: seq<nat>) {
    && Ascending(at, |chs|) && (forall i: nat | i < |chs| :: i in at <==> chs[i].status.ChallengeOpen?)
    && |effects| == |at|
    && forall k | 0 <= k < |at| ::
         effects[k] == MarketEffect(SlashChallengeDeposit, p.treasuryRef, chs[at[k]].depositLocked, chs[at[k]].challengeId,
                                    map["finding_kind" := chs[at[k]].findingKind, "reason" := "resolution_timeout"])
  }

  /** One refund for each bond still locked, in order. */
  ghost predicate Refunded(subs: seq<SubmissionState>, reason: string, effects: seq<MarketEffect>) {
    exists at :: RefundedAt(subs, reason, effects, at)
  }

  ghost predicate RefundedAt(subs: seq<SubmissionState>, reason: string, effects: seq<MarketEffect>, at: seq<nat>) {
    && Ascending(at, |subs|) && (forall i: nat | i < |subs| :: i in at <==> subs[i].bondLocked > 0)
    && |effects| == |at|
    && forall k | 0 <= k < |at| ::
         effects[k] == MarketEffect(RefundSubmissionBond, subs[at[k]].submitterRef, subs[at[k]].bondLocked, subs[at[k]].submissionId,
                                    map["reason" := reason])
  }

  /** Every open challenge is rejected with its deposit gone; the others stay. */
  ghost predicate TimedOutAll(before: seq<ChallengeState>, after: seq<ChallengeState>) {
    && |after| == |before|
    && forall i | 0 <= i < |before| ::
         after[i] == if before[i].status.ChallengeOpen? then before[i].(status := ChallengeRejected, depositLocked := 0) else before[i]
  }

  ghost predicate BondsGone(before: seq<SubmissionState>, after: seq<SubmissionState>) {
    |after| == |before| && forall i | 0 <= i < |before| :: after[i] == before[i].(bondLocked := 0)
  }

  /** The ids of the verified submissions, each once, earlier arrivals first and then by id. */
  ghost predicate Queue(ids: seq<string>, subs: seq<SubmissionState>) {
    && Distinct(ids)
    && (forall id :: id in ids <==> exists i :: 0 <= i < |subs| && subs[i].submissionId == id && subs[i].status.Verified?)
    && (forall j, k, a, b | 0 <= j < k < |ids| && 0 <= a < |subs| && 0 <= b < |subs|
          && subs[a].submissionId == ids[j] && subs[b].submissionId == ids[k] ::
          subs[a].submittedAt < subs[b].submittedAt
          || (subs[a].submittedAt == subs[b].submittedAt && StringLe(subs[a].submissionId, subs[b].submissionId)))
  }

  ghost predicate BecomesPayable(s: BountyState, c: MarketCommand, d: Decision, challenges: seq<ChallengeState>, slashes: seq<MarketEffect>)
    requires c.AdvanceBounty?
  {
    exists ids :: Queue(ids, s.submissions)
      && Leaves(s, c, d, None, "bounty_payable",
                s.(phase := Payable, challenges := challenges, payableIds := ids, processed := s.processed + {c.commandId}), slashes)
  }

  ghost predicate RunsOut(s: BountyState, c: MarketCommand, d: Decision, challenges: seq<ChallengeState>, slashes: seq<MarketEffect>)
    requires c.AdvanceBounty?
  {
    exists submissions, refunds :: BondsGone(s.submissions, submissions) && Refunded(s.submissions, "bounty_expired", refunds)
      && Leaves(s, c, d, Some(NoPayableSubmission), "bounty_expired",
                s.(phase := Expired, escrowLocked := 0, challenges := challenges, submissions := submissions,
                   processed := s.processed + {c.commandId}),
                slashes + [MarketEffect(RefundEscrow, s.terms.sponsorRef, s.escrowLocked, s.terms.bountyId,
                                        map["reason" := "no_payable_submission"])] + refunds)
  }

  /** With a verified submission the bounty becomes payable; with none it expires, and escrow
      and bonds return. */
  ghost predicate AdvanceChange(s: BountyState, c: MarketCommand, p: MarketPolicy, d: Decision)
    requires c.AdvanceBounty?
  {
    exists challenges, slashes :: TimedOutAll(s.challenges, challenges) && Slashed(s.challenges, p, slashes)
      && if exists i :: 0 <= i < |s.submissions| && s.submissions[i].status.Verified? then BecomesPayable(s, c, d, challenges, slashes)
         else RunsOut(s, c, d, challenges, slashes)
  }

  ghost predicate PaidOut(payouts: seq<Payout>, effects: seq<MarketEffect>) {
    && |effects| == |payouts|
    && forall k | 0 <= k < |payouts| ::
         effects[k] == MarketEffect(PayoutEffect, payouts[k].recipientRef, payouts[k].amount, payouts[k].submissionId, map[])
  }

  ghost predicate SettleChange(s: BountyState, c: MarketCommand, d: Decision)
    requires c.SettleBounty?
  {
    exists submissions, paid, refunds :: BondsGone(s.submissions, submissions)
      && PaidOut(c.payouts, paid) && Refunded(s.submissions, "settlement_complete", refunds)
      && Leaves(s, c, d, None, "bounty_settled",
                s.(phase := Settled, escrowLocked := 0, submissions := submissions, settlementRef := Some(c.settlementRef),
                   processed := s.processed + {c.commandId}),
                paid + refunds)
  }

  ghost predicate CancelChange(s: BountyState, c: MarketCommand, d: Decision)
    requires c.CancelBounty?
  {
    Leaves(s, c, d, None, "bounty_canceled",
           s.(phase := Canceled, escrowLocked := 0, processed := s.processed + {c.commandId}),
           [MarketEffect(RefundEscrow, s.terms.sponsorRef, s.escrowLocked, s.terms.bountyId,
                         map["reason" := "sponsor_cancel_before_activity"])])
  }

  ghost predicate Change(s: BountyState, c: MarketCommand, p: MarketPolicy, d: Decision) {
    match c
    case OpenBounty(_, _, _, _) => OpenChange(s, c, d)
    case SubmitCandidate(_, _, _, _, _, _, _, _, _) => SubmitChange(s, c, d)
    case VerifySubmission(_, _, _, _, _, _) => VerifyChange(s, c, d)
    case OpenChallenge(_, _, _, _, _, _, _, _) => ChallengeChange(s, c, d)
    case ResolveChallenge(_, _, _, _, _, _) => ResolveChange(s, c, p, d)
    case AdvanceBounty(_, _) => AdvanceChange(s, c, p, d)
    case SettleBounty(_, _, _, _) => SettleChange(s, c, d)
    case CancelBounty(_, _, _) => CancelChange(s, c, d)
  }

  // ----- The handlers leave these decisions ----------------------------------------------------------------

  /** Replacing by id replaces one position. */
  lemma PutSubmissionAt(subs: seq<SubmissionState>, i: nat, r: SubmissionState)
    requires UniqueSubmissions(subs) && i < |subs| && r.submissionId == subs[i].submissionId
    ensures PutSubmission(subs, r) == subs[i := r]
  {
  }

  lemma PutChallengeAt(chs: seq<ChallengeState>, i: nat, r: ChallengeState)
    requires UniqueChallenges(chs) && i < |chs| && r.challengeId == chs[i].challengeId
    ensures PutChallenge(chs, r) == chs[i := r]
  {
  }

  lemma VerifyChanges(s: BountyState, c: MarketCommand, p: MarketPolicy, evidence: seq<VerifierReceipt>)
    requires c.VerifySubmission? && UniqueSubmissions(s.submissions) && DecideVerify(s, c, p, evidence).Committed()
    ensures VerifyChange(s, c, DecideVerify(s, c, p, evidence))
  {
    hide DecideVerify, PutSubmission, FindSubmission, SubmissionStatementFor;
    var sub := VerifyCommits(s, c, p, evidence);
    var i: nat :| i < |s.submissions| && s.submissions[i] == sub;
    PutSubmissionAt(s.submissions, i, sub.(status := if c.accepted then Verified else SubmissionRejected,
                                           bondLocked := if c.accepted then sub.bondLocked else 0,
                                           receiptRef := Some(c.receiptRef)));
    hide UniqueSubmissions;
  }

  lemma ResolutionChanges(s: BountyState, c: MarketCommand, p: MarketPolicy, j: nat, i: nat)
    requires c.ResolveChallenge? && s.phase.Open? && UniqueSubmissions(s.submissions) && UniqueChallenges(s.challenges)
    requires j < |s.challenges| && i < |s.submissions|
    requires s.challenges[j].challengeId == c.challengeId && s.challenges[j].status.ChallengeOpen?
    requires s.submissions[i].submissionId == s.challenges[j].submissionId
    ensures ResolveChange(s, c, p, ApplyResolution(s, c, p, s.challenges[j], s.submissions[i]))
  {
    hide PutSubmission, PutChallenge;
    var ch, sub := s.challenges[j], s.submissions[i];
    PutChallengeAt(s.challenges, j, ch.(status := if c.upheld then Upheld else ChallengeRejected, depositLocked := 0,
                                        receiptRef := Some(c.receiptRef)));
    PutSubmissionAt(s.submissions, i, sub.(status := SubmissionRejected, bondLocked := 0));
    hide UniqueSubmissions, UniqueChallenges;
  }

  lemma ResolveChanges(s: BountyState, c: MarketCommand, p: MarketPolicy, evidence: seq<VerifierReceipt>)
    requires c.ResolveChallenge? && UniqueSubmissions(s.submissions) && UniqueChallenges(s.challenges)
    requires DecideResolve(s, c, p, evidence).Committed()
    ensures ResolveChange(s, c, p, DecideResolve(s, c, p, evidence))
  {
    hide DecideResolve, ApplyResolution, ResolveChange, FindSubmission, FindChallenge, ChallengeStatementFor, UniqueSubmissions, UniqueChallenges;
    var ch, sub := ResolveCommits(s, c, p, evidence);
    var i: nat :| i < |s.submissions| && s.submissions[i] == sub;
    var j: nat :| j < |s.challenges| && s.challenges[j] == ch;
    ResolutionChanges(s, c, p, j, i);
  }

  lemma AscendingNext(at: seq<nat>, n: nat)
    requires Ascending(at, n)
    ensures Ascending(at, n + 1) && Ascending(at + [n], n + 1)
    ensures n !in at && forall i: nat :: i in at + [n] <==> i in at || i == n
  {
  }

  lemma {:induction false} TimeoutsSlash(chs: seq<ChallengeState>, p: MarketPolicy) returns (at: seq<nat>)
    ensures SlashedAt(chs, p, TimeoutEffects(chs, p), at)
  {
    at := [];
    if chs != [] {
      var init := chs[..|chs| - 1];
      at := TimeoutsSlash(init, p);
      AscendingNext(at, |init|);
      hide Ascending;
      assert forall i: nat | i < |init| :: init[i] == chs[i];
      if chs[|chs| - 1].status.ChallengeOpen? { at := at + [|chs| - 1]; }
    }
  }

  lemma {:induction false} BondsRefunded(subs: seq<SubmissionState>, reason: string) returns (at: seq<nat>)
    ensures RefundedAt(subs, reason, BondRefunds(subs, reason), at)
  {
    at := [];
    if subs != [] {
      var init := subs[..|subs| - 1];
      at := BondsRefunded(init, reason);
      AscendingNext(at, |init|);
      hide Ascending;
      assert forall i: nat | i < |init| :: init[i] == subs[i];
      if subs[|subs| - 1].bondLocked > 0 { at := at + [|subs| - 1]; }
    }
  }

  lemma QueueExactly(subs: seq<SubmissionState>)
    requires UniqueSubmissions(subs)
    ensures Queue(EligibleIds(subs), subs)
    ensures EligibleIds(subs) != [] <==> exists i :: 0 <= i < |subs| && subs[i].status.Verified?
  {
    EligibleIsExact(subs);
    hide EligibleIds, StringLe;
    var ids := EligibleIds(subs);
    if ids != [] { assert ids[0] in ids; }
    if i :| 0 <= i < |subs| && subs[i].status.Verified? { assert HasVerified(subs, subs[i].submissionId); }
  }

  lemma AdvanceChanges(s: BountyState, c: MarketCommand, p: MarketPolicy)
    requires c.AdvanceBounty? && UniqueSubmissions(s.submissions) && DecideAdvance(s, c, p).Committed()
    ensures AdvanceChange(s, c, p, DecideAdvance(s, c, p))
  {
    hide AdjudicationOpen, EligibleIds, TimeoutEffects, BondRefunds, SlashedAt, RefundedAt, Queue, UniqueSubmissions, ChallengeDeadline;
    var at := TimeoutsSlash(s.challenges, p);
    var rt := BondsRefunded(s.submissions, "bounty_expired");
    QueueExactly(s.submissions);
    assert TimedOutAll(s.challenges, CloseOpen(s.challenges));
    assert Slashed(s.challenges, p, TimeoutEffects(s.challenges, p));
    assert BondsGone(s.submissions, ReleaseBonds(s.submissions));
    assert Refunded(s.submissions, "bounty_expired", BondRefunds(s.submissions, "bounty_expired"));
    hide TimedOutAll, Slashed, BondsGone, Refunded, CloseOpen, ReleaseBonds;
  }

  lemma SettleChanges(s: BountyState, c: MarketCommand)
    requires c.SettleBounty? && DecideSettle(s, c).Committed()
    ensures SettleChange(s, c, DecideSettle(s, c))
  {
    hide FirstPayoutFault, PayoutTotal, BondRefunds, RefundedAt, ValidId;
    var rt := BondsRefunded(s.submissions, "settlement_complete");
    assert BondsGone(s.submissions, ReleaseBonds(s.submissions));
    assert Refunded(s.submissions, "settlement_complete", BondRefunds(s.submissions, "settlement_complete"));
    assert PaidOut(c.payouts, PayoutEffects(c.payouts));
    hide PaidOut, BondsGone, Refunded, ReleaseBonds, PayoutEffects;
  }

  lemma EntrantsChange(s: BountyState, c: MarketCommand, p: MarketPolicy)
    requires c.OpenBounty? || c.SubmitCandidate? || c.OpenChallenge? || c.CancelBounty?
    requires Dispatch(s, c, p, []).Committed()
    ensures Change(s, c, p, Dispatch(s, c, p, []))
  {
    hide ValidId, ValidRef, ValidRefs, FindSubmission, FindChallenge, HasOpenChallenge, ChallengeDeadline, Max;
  }

  /** A committed command changes the state, emits the effects and issues the receipt its
      rule says, and nothing else. */
  lemma ChangesExactly(s: BountyState, c: MarketCommand, p: MarketPolicy, evidence: seq<VerifierReceipt>)
    requires ApplyMarketCommand(s, c, p, evidence).Committed()
    ensures Change(s, c, p, ApplyMarketCommand(s, c, p, evidence))
  {
    hide ApplyMarketCommand, ValidState, ValidPolicy, ValidEvidence, ValidId, DecideVerify, DecideResolve, DecideAdvance, DecideSettle;
    hide OpenChange, SubmitChange, ChallengeChange, CancelChange, VerifyChange, ResolveChange, AdvanceChange, SettleChange;
    CommitPassesChecks(s, c, p, evidence);
    ListsSound(s);
    match c {
      case OpenBounty(_, _, _, _) => EntrantsChange(s, c, p);
      case SubmitCandidate(_, _, _, _, _, _, _, _, _) => EntrantsChange(s, c, p);
      case OpenChallenge(_, _, _, _, _, _, _, _) => EntrantsChange(s, c, p);
      case CancelBounty(_, _, _) => EntrantsChange(s, c, p);
      case VerifySubmission(_, _, _, _, _, _) => VerifyChanges(s, c, p, evidence);
      case ResolveChallenge(_, _, _, _, _, _) => ResolveChanges(s, c, p, evidence);
      case AdvanceBounty(_, _) => AdvanceChanges(s, c, p);
      case SettleBounty(_, _, _, _) => SettleChanges(s, c);
    }
  }
}
