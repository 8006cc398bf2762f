/** Conservation: along every run, whatever was locked is still locked, refunded, slashed
    or paid out, for the escrow, for every submission bond and for every challenge deposit. */
module MarketMoney {
  import opened Prelude
  import opened MarketTypes
  import opened MarketInvariants
  import opened Market
  import opened MarketValidity
  import opened MarketRuns

  /** Where money can be locked: the bounty's escrow, a submission's bond, a challenge's deposit. */
  datatype Holding = Escrow | Bond(submissionId: string) | Deposit(challengeId: string)

  /** What an effect locks into a holding. */
  function Locks(e: MarketEffect, h: Holding): nat {
    match h
    case Escrow => if e.kind.LockEscrow? then e.amount else 0
    case Bond(id) => if e.kind.LockSubmissionBond? && e.subjectRef == id then e.amount else 0
    case Deposit(id) => if e.kind.LockChallengeDeposit? && e.subjectRef == id then e.amount else 0
  }

  /** What an effect takes out of a holding: a refund, a payout or a slash. */
  function Releases(e: MarketEffect, h: Holding): nat {
    match h
    case Escrow => if e.kind.RefundEscrow? || e.kind.PayoutEffect? then e.amount else 0
    case Bond(id) =>
      if (e.kind.RefundSubmissionBond? || e.kind.SlashSubmissionBond?) && e.subjectRef == id then e.amount else 0
    case Deposit(id) =>
      if (e.kind.RefundChallengeDeposit? || e.kind.SlashChallengeDeposit?) && e.subjectRef == id then e.amount else 0
  }

  function TotalLocked(effects: seq<MarketEffect>, h: Holding): nat {
    if effects == [] then 0
    else TotalLocked(effects[..|effects| - 1], h) + Locks(effects[|effects| - 1], h)
  }

  function TotalReleased(effects: seq<MarketEffect>, h: Holding): nat {
    if effects == [] then 0
    else TotalReleased(effects[..|effects| - 1], h) + Releases(effects[|effects| - 1], h)
  }

  lemma {:induction false} TotalsConcat(a: seq<MarketEffect>, b: seq<MarketEffect>, h: Holding)
    ensures TotalLocked(a + b, h) == TotalLocked(a, h) + TotalLocked(b, h)
    ensures TotalReleased(a + b, h) == TotalReleased(a, h) + TotalReleased(b, h)
  {
    if b == [] {
      assert a + b == a;
    } else {
      assert (a + b)[..|a + b| - 1] == a + b[..|b| - 1];
      TotalsConcat(a, b[..|b| - 1], h);
      hide Locks, Releases;
    }
  }

  lemma TotalsOne(e: MarketEffect, h: Holding)
    ensures TotalLocked([e], h) == Locks(e, h) && TotalReleased([e], h) == Releases(e, h)
  {
    assert [e][..0] == [];
  }

  lemma TotalsTwo(d: MarketEffect, e: MarketEffect, h: Holding)
    ensures TotalLocked([d, e], h) == Locks(d, h) + Locks(e, h)
    ensures TotalReleased([d, e], h) == Releases(d, h) + Releases(e, h)
  {
    assert [d, e] == [d] + [e];
    TotalsConcat([d], [e], h);
    TotalsOne(d, h);
    TotalsOne(e, h);
  }

  /** What a state holds. */
  function Held(s: BountyState, h: Holding): nat {
    match h
    case Escrow => s.escrowLocked
    case Bond(id) => BondOf(s.submissions, id)
    case Deposit(id) => DepositOf(s.challenges, id)
  }

  function BondOf(subs: seq<SubmissionState>, id: string): nat {
    var sub := FindSubmission(subs, id);
    if sub.Some? then sub.value.bondLocked else 0
  }

  function DepositOf(chs: seq<ChallengeState>, id: string): nat {
    var ch := FindChallenge(chs, id);
    if ch.Some? then ch.value.depositLocked else 0
  }

  /** Held before plus locked is held after plus released. */
  ghost predicate Balanced(before: nat, effects: seq<MarketEffect>, after: nat, h: Holding) {
    before + TotalLocked(effects, h) == after + TotalReleased(effects, h)
  }

  // ----- Totals behind the looping handlers ----------------------------------------------------

  lemma RefundsOfLast(subs: seq<SubmissionState>, reason: string, h: Holding)
    requires subs != []
    ensures var init, last := subs[..|subs| - 1], subs[|subs| - 1];
      && TotalLocked(BondRefunds(subs, reason), h) == TotalLocked(BondRefunds(init, reason), h)
      && TotalReleased(BondRefunds(subs, reason), h)
        == TotalReleased(BondRefunds(init, reason), h) + (if h == Bond(last.submissionId) then last.bondLocked else 0)
  {
    hide TotalLocked, TotalReleased;
    var init, last := subs[..|subs| - 1], subs[|subs| - 1];
    var refund := EffectWithReason(RefundSubmissionBond, last.submitterRef, last.bondLocked, last.submissionId, reason);
    TotalsOne(refund, h);
    TotalsConcat(BondRefunds(init, reason), [refund], h);
    if last.bondLocked == 0 { assert BondRefunds(subs, reason) == BondRefunds(init, reason); }
    else { assert BondRefunds(subs, reason) == BondRefunds(init, reason) + [refund]; }
    hide BondRefunds;
  }

  lemma {:induction false} RefundTotals(subs: seq<SubmissionState>, reason: string, h: Holding)
    requires UniqueSubmissions(subs)
    ensures TotalLocked(BondRefunds(subs, reason), h) == 0
    ensures TotalReleased(BondRefunds(subs, reason), h) == if h.Bond? then BondOf(subs, h.submissionId) else 0
  {
    if subs != [] {
      var init, last := subs[..|subs| - 1], subs[|subs| - 1];
      RefundTotals(init, reason, h);
      RefundsOfLast(subs, reason, h);
      if h.Bond? { FindLastSubmission(subs, h.submissionId); }
      hide TotalLocked, TotalReleased, FindSubmission, BondRefunds;
    }
  }

  lemma {:induction false} FindLastSubmission(subs: seq<SubmissionState>, id: string)
    requires subs != []
    ensures var init, last := subs[..|subs| - 1], subs[|subs| - 1];
      FindSubmission(subs, id) ==
        if FindSubmission(init, id).Some? then FindSubmission(init, id)
        else if last.submissionId == id then Some(last) else None
  {
    if |subs| > 1 {
      assert subs[1..][..|subs| - 2] == subs[..|subs| - 1][1..];
      FindLastSubmission(subs[1..], id);
    }
  }

  lemma {:induction false} FindLastChallenge(chs: seq<ChallengeState>, id: string)
    requires chs != []
    ensures var init, last := chs[..|chs| - 1], chs[|chs| - 1];
      FindChallenge(chs, id) ==
        if FindChallenge(init, id).Some? then FindChallenge(init, id)
        else if last.challengeId == id then Some(last) else None
  {
    if |chs| > 1 {
      assert chs[1..][..|chs| - 2] == chs[..|chs| - 1][1..];
      FindLastChallenge(chs[1..], id);
    }
  }

  lemma {:induction false} TimeoutTotals(chs: seq<ChallengeState>, p: MarketPolicy, h: Holding)
    requires UniqueChallenges(chs) && DepositsMatchStatus(chs)
    ensures TotalLocked(TimeoutEffects(chs, p), h) == 0
    ensures TotalReleased(TimeoutEffects(chs, p), h) == if h.Deposit? then DepositOf(chs, h.challengeId) else 0
  {
    if chs != [] {
      var init, last := chs[..|chs| - 1], chs[|chs| - 1];
      TimeoutTotals(init, p, h);
      if h.Deposit? { FindLastChallenge(chs, h.challengeId); }
      TotalsOne(TimeoutEffect(last, p), h);
      TotalsConcat(TimeoutEffects(init, p), [TimeoutEffect(last, p)], h);
      assert !last.status.ChallengeOpen? ==> TimeoutEffects(chs, p) == TimeoutEffects(init, p);
      hide TotalLocked, TotalReleased, FindChallenge;
    }
  }

  lemma {:induction false} PayoutTotals(payouts: seq<Payout>, h: Holding)
    ensures TotalLocked(PayoutEffects(payouts), h) == 0
    ensures TotalReleased(PayoutEffects(payouts), h) == if h.Escrow? then PayoutTotal(payouts) else 0
  {
    if payouts != [] {
      var init, last := payouts[..|payouts| - 1], payouts[|payouts| - 1];
      var e := Effect(PayoutEffect, last.recipientRef, last.amount, last.submissionId);
      PayoutTotals(init, h);
      assert PayoutEffects(payouts)[..|payouts| - 1] == PayoutEffects(init);
    }
  }

  // ----- How lookups see the new lists ----------------------------------------------------------

  lemma {:induction false} PutSubmissionLookup(subs: seq<SubmissionState>, r: SubmissionState, id: string)
    ensures FindSubmission(PutSubmission(subs, r), id) ==
      if FindSubmission(subs, id).Some? && id == r.submissionId then Some(r) else FindSubmission(subs, id)
  {
    if subs != [] {
      assert PutSubmission(subs, r)[1..] == PutSubmission(subs[1..], r);
      PutSubmissionLookup(subs[1..], r, id);
    }
  }

  lemma {:induction false} PutChallengeLookup(chs: seq<ChallengeState>, r: ChallengeState, id: string)
    ensures FindChallenge(PutChallenge(chs, r), id) ==
      if FindChallenge(chs, id).Some? && id == r.challengeId then Some(r) else FindChallenge(chs, id)
  {
    if chs != [] {
      assert PutChallenge(chs, r)[1..] == PutChallenge(chs[1..], r);
      PutChallengeLookup(chs[1..], r, id);
    }
  }

  lemma {:induction false} ReleasedBond(subs: seq<SubmissionState>, id: string)
    ensures BondOf(ReleaseBonds(subs), id) == 0
  {
    if subs != [] {
      assert ReleaseBonds(subs)[1..] == ReleaseBonds(subs[1..]);
      ReleasedBond(subs[1..], id);
    }
  }

  lemma {:induction false} ClosedDeposit(chs: seq<ChallengeState>, id: string)
    requires DepositsMatchStatus(chs)
    ensures DepositOf(CloseOpen(chs), id) == 0
  {
    if chs != [] {
      assert CloseOpen(chs)[1..] == CloseOpen(chs[1..]);
      ClosedDeposit(chs[1..], id);
    }
  }

  // ----- One transition ---------------------------------------------------------------------------

  lemma OpenBalanced(s: BountyState, c: MarketCommand, p: MarketPolicy, h: Holding)
    requires ValidState(s) && c.OpenBounty? && DecideOpen(s, c, p).Committed()
    ensures var d := DecideOpen(s, c, p); Balanced(Held(s, h), d.effects, Held(d.next, h), h)
  {
    assert s.escrowLocked == 0;
    TotalsOne(DecideOpen(s, c, p).effects[0], h);
    hide TotalLocked, TotalReleased, ValidState, BondOf, DepositOf;
  }

  lemma CancelBalanced(s: BountyState, c: MarketCommand, h: Holding)
    requires c.CancelBounty? && DecideCancel(s, c).Committed()
    ensures var d := DecideCancel(s, c); Balanced(Held(s, h), d.effects, Held(d.next, h), h)
  {
    TotalsOne(DecideCancel(s, c).effects[0], h);
    hide TotalLocked, TotalReleased, BondOf, DepositOf;
  }

  lemma SubmitBalanced(s: BountyState, c: MarketCommand, p: MarketPolicy, h: Holding)
    requires c.SubmitCandidate? && DecideSubmit(s, c, p).Committed()
    ensures var d := DecideSubmit(s, c, p); Balanced(Held(s, h), d.effects, Held(d.next, h), h)
  {
    var d := DecideSubmit(s, c, p);
    TotalsOne(d.effects[0], h);
    if h.Bond? { FindLastSubmission(d.next.submissions, h.submissionId); }
    assert d.next.submissions[..|s.submissions|] == s.submissions;
    hide TotalLocked, TotalReleased, DepositOf, ValidRef, ValidRefs, ValidId, FindSubmission;
  }

  lemma VerifyBalanced(s: BountyState, c: MarketCommand, p: MarketPolicy, evidence: seq<VerifierReceipt>, h: Holding)
    requires c.VerifySubmission? && DecideVerify(s, c, p, evidence).Committed()
    ensures var d := DecideVerify(s, c, p, evidence); Balanced(Held(s, h), d.effects, Held(d.next, h), h)
  {
    var d := DecideVerify(s, c, p, evidence);
    var sub := VerifyCommits(s, c, p, evidence);
    var judged := sub.(status := if c.accepted then Verified else SubmissionRejected,
                       bondLocked := if c.accepted then sub.bondLocked else 0,
                       receiptRef := Some(c.receiptRef));
    if h.Bond? { PutSubmissionLookup(s.submissions, judged, h.submissionId); }
    if !c.accepted { TotalsOne(d.effects[0], h); }
    assert TotalLocked([], h) == TotalReleased([], h) == 0;
    hide TotalLocked, TotalReleased, DecideVerify, DepositOf, FindSubmission, PutSubmission;
  }

  lemma ChallengeBalanced(s: BountyState, c: MarketCommand, p: MarketPolicy, h: Holding)
    requires c.OpenChallenge? && DecideChallenge(s, c, p).Committed()
    ensures var d := DecideChallenge(s, c, p); Balanced(Held(s, h), d.effects, Held(d.next, h), h)
  {
    var d := DecideChallenge(s, c, p);
    TotalsOne(d.effects[0], h);
    if h.Deposit? { FindLastChallenge(d.next.challenges, h.challengeId); }
    assert d.next.challenges[..|s.challenges|] == s.challenges;
    hide TotalLocked, TotalReleased, BondOf, ValidRef, ValidRefs, ValidId, FindSubmission, FindChallenge;
  }

  lemma ResolveBalanced(s: BountyState, c: MarketCommand, p: MarketPolicy, evidence: seq<VerifierReceipt>, h: Holding)
    requires c.ResolveChallenge? && DecideResolve(s, c, p, evidence).Committed()
    ensures var d := DecideResolve(s, c, p, evidence); Balanced(Held(s, h), d.effects, Held(d.next, h), h)
  {
    hide DecideResolve, FindSubmission, FindChallenge, PutSubmission, PutChallenge, TotalLocked, TotalReleased;
    hide ChallengeStatementFor, ValidRef, Authentic;
    var d := DecideResolve(s, c, p, evidence);
    var ch, sub := ResolveCommits(s, c, p, evidence);
    var closed := ch.(status := if c.upheld then Upheld else ChallengeRejected,
                      depositLocked := 0, receiptRef := Some(c.receiptRef));
    if h.Deposit? { PutChallengeLookup(s.challenges, closed, h.challengeId); }
    TotalsOne(d.effects[0], h);
    if c.upheld {
      if h.Bond? { PutSubmissionLookup(s.submissions, sub.(status := SubmissionRejected, bondLocked := 0), h.submissionId); }
      TotalsTwo(d.effects[0], d.effects[1], h);
    }
  }

  lemma SettleBalanced(s: BountyState, c: MarketCommand, h: Holding)
    requires ValidState(s) && c.SettleBounty? && DecideSettle(s, c).Committed()
    ensures var d := DecideSettle(s, c); Balanced(Held(s, h), d.effects, Held(d.next, h), h)
  {
    PayoutTotals(c.payouts, h);
    RefundTotals(s.submissions, "settlement_complete", h);
    TotalsConcat(PayoutEffects(c.payouts), BondRefunds(s.submissions, "settlement_complete"), h);
    if h.Bond? { ReleasedBond(s.submissions, h.submissionId); }
    hide TotalLocked, TotalReleased, ValidState, BondOf, DepositOf, FirstPayoutFault, PayoutTotal, PayoutEffects;
    hide BondRefunds, ReleaseBonds, ValidId;
  }

  /** The totals of an expiry: every deposit slashed, the escrow and every bond refunded. */
  lemma ExpiryTotals(s: BountyState, p: MarketPolicy, refund: MarketEffect, h: Holding)
    requires UniqueSubmissions(s.submissions) && UniqueChallenges(s.challenges) && DepositsMatchStatus(s.challenges)
    requires refund.kind.RefundEscrow? && refund.amount == s.escrowLocked
    ensures var effects := TimeoutEffects(s.challenges, p) + [refund] + BondRefunds(s.submissions, "bounty_expired");
      TotalLocked(effects, h) == 0 && TotalReleased(effects, h) == Held(s, h)
  {
    var timeouts, refunds := TimeoutEffects(s.challenges, p), BondRefunds(s.submissions, "bounty_expired");
    TimeoutTotals(s.challenges, p, h);
    RefundTotals(s.submissions, "bounty_expired", h);
    TotalsOne(refund, h);
    TotalsConcat(timeouts, [refund], h);
    TotalsConcat(timeouts + [refund], refunds, h);
    hide TotalLocked, TotalReleased, BondOf, DepositOf, TimeoutEffects, BondRefunds;
    hide UniqueSubmissions, UniqueChallenges, DepositsMatchStatus;
  }

  lemma AdvanceBalanced(s: BountyState, c: MarketCommand, p: MarketPolicy, h: Holding)
    requires ValidState(s) && c.AdvanceBounty? && DecideAdvance(s, c, p).Committed()
    ensures var d := DecideAdvance(s, c, p); Balanced(Held(s, h), d.effects, Held(d.next, h), h)
  {
    ExpiryTotals(s, p, EffectWithReason(RefundEscrow, s.terms.sponsorRef, s.escrowLocked, s.terms.bountyId,
                                        "no_payable_submission"), h);
    TimeoutTotals(s.challenges, p, h);
    if h.Deposit? { ClosedDeposit(s.challenges, h.challengeId); }
    if h.Bond? { ReleasedBond(s.submissions, h.submissionId); }
    hide TotalLocked, TotalReleased, ValidState, BondOf, DepositOf, TimeoutEffects, BondRefunds, ReleaseBonds, CloseOpen;
    hide EligibleIds, AdjudicationOpen;
  }

  lemma StepBalanced(s: BountyState, i: Input, h: Holding)
    ensures Balanced(Held(s, h), Emitted(s, i), Held(Next(s, i), h), h)
  {
    var Input(c, p, evidence) := i;
    if Decide(s, i).Committed() {
      CommitPassesChecks(s, c, p, evidence);
      hide ApplyMarketCommand, ValidState, ValidEvidence, ValidPolicy, ValidId, Balanced, Held;
      match c {
        case OpenBounty(_, _, _, _) => OpenBalanced(s, c, p, h);
        case SubmitCandidate(_, _, _, _, _, _, _, _, _) => SubmitBalanced(s, c, p, h);
        case VerifySubmission(_, _, _, _, _, _) => VerifyBalanced(s, c, p, evidence, h);
        case OpenChallenge(_, _, _, _, _, _, _, _) => ChallengeBalanced(s, c, p, h);
        case ResolveChallenge(_, _, _, _, _, _) => ResolveBalanced(s, c, p, evidence, h);
        case AdvanceBounty(_, _) => AdvanceBalanced(s, c, p, h);
        case SettleBounty(_, _, _, _) => SettleBalanced(s, c, h);
        case CancelBounty(_, _, _) => CancelBalanced(s, c, h);
      }
    }
  }

  // ----- Whole runs --------------------------------------------------------------------------------

  /** Along any run from any state every holding balances. */
  lemma {:induction false} RunBalanced(s: BountyState, inputs: seq<Input>, h: Holding)
    ensures Balanced(Held(s, h), Ledger(s, inputs), Held(Run(s, inputs), h), h)
  {
    if inputs != [] {
      var init, last := inputs[..|inputs| - 1], inputs[|inputs| - 1];
      RunBalanced(s, init, h);
      StepBalanced(Run(s, init), last, h);
      TotalsConcat(Ledger(s, init), Emitted(Run(s, init), last), h);
      hide TotalLocked, TotalReleased, Emitted, Next, Held;
    }
  }

  /** What a reachable state holds is exactly what its ledger locked and has not released. */
  lemma HeldIsLockedMinusReleased(terms: BountyTerms, inputs: seq<Input>, h: Holding)
    ensures Held(Run(InitialBounty(terms), inputs), h)
      == TotalLocked(Ledger(InitialBounty(terms), inputs), h) - TotalReleased(Ledger(InitialBounty(terms), inputs), h)
  {
    RunBalanced(InitialBounty(terms), inputs, h);
    assert Held(InitialBounty(terms), h) == 0;
    hide Run, Ledger, TotalLocked, TotalReleased, Held;
  }

  lemma {:induction false} NoBondsLookup(subs: seq<SubmissionState>, id: string)
    requires NoBonds(subs)
    ensures BondOf(subs, id) == 0
  {
    if subs != [] { NoBondsLookup(subs[1..], id); }
  }

  lemma {:induction false} NoDepositsLookup(chs: seq<ChallengeState>, id: string)
    requires NoOpenChallenge(chs) && DepositsMatchStatus(chs)
    ensures DepositOf(chs, id) == 0
  {
    if chs != [] { NoDepositsLookup(chs[1..], id); }
  }

  /** A state a run reaches in a terminal phase is valid, whatever the policies were. */
  lemma {:induction false} TerminalValid(terms: BountyTerms, inputs: seq<Input>)
    requires Terminal(Run(InitialBounty(terms), inputs).phase)
    ensures ValidState(Run(InitialBounty(terms), inputs))
  {
    if inputs != [] {
      var before, i := Run(InitialBounty(terms), inputs[..|inputs| - 1]), inputs[|inputs| - 1];
      if Decide(before, i).Reject? {
        TerminalValid(terms, inputs[..|inputs| - 1]);
      } else {
        ValidityExact(before, i.command, i.policy, i.evidence);
        if i.command.OpenChallenge? { ChallengeStaysOpen(before, i); }
      }
      hide ValidState, ApplyMarketCommand;
    }
  }

  lemma ChallengeStaysOpen(s: BountyState, i: Input)
    requires Decide(s, i).Committed() && i.command.OpenChallenge?
    ensures Next(s, i).phase.Open?
  {
    CommitPassesChecks(s, i.command, i.policy, i.evidence);
    hide ApplyMarketCommand, ValidState, ValidEvidence, ValidPolicy, ValidId;
    assert DecideChallenge(s, i.command, i.policy).Committed();
  }

  /** Once a run ends in a terminal phase, everything ever locked has left exactly once:
      the escrow as refund or payouts, each bond and each deposit as refund or slash. */
  lemma TerminalReleasesEverything(terms: BountyTerms, inputs: seq<Input>, h: Holding)
    requires Terminal(Run(InitialBounty(terms), inputs).phase)
    ensures TotalLocked(Ledger(InitialBounty(terms), inputs), h) == TotalReleased(Ledger(InitialBounty(terms), inputs), h)
  {
    var s := Run(InitialBounty(terms), inputs);
    HeldIsLockedMinusReleased(terms, inputs, h);
    TerminalValid(terms, inputs);
    if h.Bond? { NoBondsLookup(s.submissions, h.submissionId); }
    if h.Deposit? { NoDepositsLookup(s.challenges, h.challengeId); }
    hide Run, Ledger, TotalLocked, TotalReleased, BondOf, DepositOf;
  }
}
