/** How runs end and what happens at most once: absorption, progress, single use of
    command ids and verifier receipts, and who can be paid. */
module MarketOutcomes {
  import opened Prelude
  import opened MarketTypes
  import opened MarketInvariants
  import opened Market
  import opened MarketValidity
  import opened MarketRuns

  // ----- Positions along a run ---------------------------------------------------------------

  function StateAt(s: BountyState, inputs: seq<Input>, k: nat): BountyState
    requires k <= |inputs|
  {
    Run(s, inputs[..k])
  }

  predicate CommitsAt(s: BountyState, inputs: seq<Input>, k: nat)
    requires k < |inputs|
  {
    Decide(StateAt(s, inputs, k), inputs[k]).Committed()
  }

  lemma StateAtStep(s: BountyState, inputs: seq<Input>, k: nat)
    requires k < |inputs|
    ensures StateAt(s, inputs, k + 1) == Next(StateAt(s, inputs, k), inputs[k])
  {
    assert inputs[..k + 1][..k] == inputs[..k];
  }

  /** A run only ever adds command ids, moves the phase forward and keeps the terms. */
  lemma {:induction false} RunMonotone(s: BountyState, inputs: seq<Input>, i: nat, j: nat)
    requires i <= j <= |inputs|
    ensures var a, b := StateAt(s, inputs, i), StateAt(s, inputs, j);
      && a.terms == b.terms
      && a.processed <= b.processed
      && Rank(a.phase) <= Rank(b.phase)
    decreases j - i
  {
    if i < j {
      RunMonotone(s, inputs, i, j - 1);
      StateAtStep(s, inputs, j - 1);
      hide ApplyMarketCommand;
    }
  }

  /** A terminal phase is absorbing: no command ever commits there. */
  lemma TerminalAbsorbs(s: BountyState, c: MarketCommand, p: MarketPolicy, evidence: seq<VerifierReceipt>)
    requires Terminal(s.phase)
    ensures ApplyMarketCommand(s, c, p, evidence).Reject?
  {
    hide ApplyMarketCommand;
    assert Commits(s, c, ApplyMarketCommand(s, c, p, evidence));
  }

  predicate CitesReceipt(c: MarketCommand) {
    c.VerifySubmission? || c.ResolveChallenge?
  }

  /** A committed verification or resolution cites an authentic receipt whose statement
      names the very state it was applied to. */
  lemma CitedReceiptNamesState(s: BountyState, i: Input)
    requires CitesReceipt(i.command) && Decide(s, i).Committed()
    ensures i.command.receiptRef.ReceiptRef?
    ensures Authentic(i.command.receiptRef.receipt)
    ensures i.command.receiptRef.receipt.statement.preStateHash == StateHash(s)
    ensures KeyRef(i.command.receiptRef.receipt.publicKey) in s.terms.acceptedVerifierRefs
  {
    var Input(c, p, evidence) := i;
    CommitPassesChecks(s, c, p, evidence);
    hide ApplyMarketCommand, ValidState, ValidEvidence, ValidPolicy, ValidId, Authentic;
    if c.VerifySubmission? {
      var sub := VerifyCommits(s, c, p, evidence);
    } else {
      var ch, sub := ResolveCommits(s, c, p, evidence);
    }
  }

  /** Two committed steps of one run differ in command id, in the state they start from and
      in any verifier receipt they cite; each adds exactly its own command id. */
  lemma CommittedOnce(s: BountyState, inputs: seq<Input>, i: nat, j: nat)
    requires i < j < |inputs| && CommitsAt(s, inputs, i) && CommitsAt(s, inputs, j)
    ensures inputs[i].command.commandId != inputs[j].command.commandId
    ensures StateAt(s, inputs, i) != StateAt(s, inputs, j)
    ensures |StateAt(s, inputs, i + 1).processed| == |StateAt(s, inputs, i).processed| + 1
    ensures CitesReceipt(inputs[i].command) && CitesReceipt(inputs[j].command)
      ==> inputs[i].command.receiptRef != inputs[j].command.receiptRef
  {
    StateAtStep(s, inputs, i);
    RunMonotone(s, inputs, i + 1, j);
    hide Run, ApplyMarketCommand;
    var a, b := StateAt(s, inputs, i), StateAt(s, inputs, j);
    assert inputs[i].command.commandId in b.processed && inputs[i].command.commandId !in a.processed;
    if CitesReceipt(inputs[i].command) { CitedReceiptNamesState(a, inputs[i]); }
    if CitesReceipt(inputs[j].command) { CitedReceiptNamesState(b, inputs[j]); }
  }

  // ----- Verdicts are final --------------------------------------------------------------------

  /** `b` extends `a` in place: same ids, and a rejected submission stays rejected. */
  ghost predicate Evolves(a: seq<SubmissionState>, b: seq<SubmissionState>) {
    && |a| <= |b|
    && forall k | 0 <= k < |a| ::
        && a[k].submissionId == b[k].submissionId
        && a[k].submitterRef == b[k].submitterRef
        && (a[k].status.SubmissionRejected? ==> b[k].status.SubmissionRejected?)
        && (b[k].status.Pending? ==> a[k].status.Pending?)
  }

  lemma PutEvolves(subs: seq<SubmissionState>, sub: SubmissionState, r: SubmissionState)
    requires UniqueSubmissions(subs) && sub in subs
    requires r.submissionId == sub.submissionId && r.submitterRef == sub.submitterRef
    requires !r.status.Pending? && (sub.status.SubmissionRejected? ==> r.status.SubmissionRejected?)
    ensures Evolves(subs, PutSubmission(subs, r))
  {
    PutSubmissionFacts(subs, sub, r);
  }

  lemma VerifyEvolves(s: BountyState, c: MarketCommand, p: MarketPolicy, evidence: seq<VerifierReceipt>)
    requires UniqueSubmissions(s.submissions)
    requires c.VerifySubmission? && DecideVerify(s, c, p, evidence).Committed()
    ensures Evolves(s.submissions, DecideVerify(s, c, p, evidence).next.submissions)
  {
    var sub := VerifyCommits(s, c, p, evidence);
    PutEvolves(s.submissions, sub, sub.(status := if c.accepted then Verified else SubmissionRejected,
                                        bondLocked := if c.accepted then sub.bondLocked else 0,
                                        receiptRef := Some(c.receiptRef)));
    hide DecideVerify, Evolves;
  }

  lemma ResolveEvolves(s: BountyState, c: MarketCommand, p: MarketPolicy, evidence: seq<VerifierReceipt>)
    requires UniqueSubmissions(s.submissions)
    requires c.ResolveChallenge? && DecideResolve(s, c, p, evidence).Committed()
    ensures Evolves(s.submissions, DecideResolve(s, c, p, evidence).next.submissions)
  {
    var ch, sub := ResolveCommits(s, c, p, evidence);
    PutEvolves(s.submissions, sub, sub.(status := SubmissionRejected, bondLocked := 0));
    assert Evolves(s.submissions, s.submissions);
    hide DecideResolve, Evolves;
  }

  lemma StepEvolves(s: BountyState, i: Input)
    ensures Evolves(s.submissions, Next(s, i).submissions)
  {
    var Input(c, p, evidence) := i;
    if Decide(s, i).Committed() {
      CommitPassesChecks(s, c, p, evidence);
      assert UniqueSubmissions(s.submissions);
      hide ApplyMarketCommand, ValidState, ValidEvidence, ValidPolicy, ValidId, UniqueSubmissions;
      if c.VerifySubmission? {
        VerifyEvolves(s, c, p, evidence);
      } else if c.ResolveChallenge? {
        ResolveEvolves(s, c, p, evidence);
      } else {
        OtherEvolves(s, c, p);
        hide DecideVerify, DecideResolve, DecideOpen, DecideSubmit, DecideChallenge, DecideAdvance, DecideSettle, DecideCancel;
      }
    }
  }

  lemma SubmitEvolves(s: BountyState, c: MarketCommand, p: MarketPolicy)
    requires c.SubmitCandidate? && DecideSubmit(s, c, p).Committed()
    ensures Evolves(s.submissions, DecideSubmit(s, c, p).next.submissions)
  {
    assert Evolves(s.submissions, s.submissions + [NewSubmission(c)]);
    hide Evolves, FindSubmission, ValidRefs, ValidRef, ValidId;
  }

  lemma AdvanceEvolves(s: BountyState, c: MarketCommand, p: MarketPolicy)
    requires c.AdvanceBounty? && DecideAdvance(s, c, p).Committed()
    ensures Evolves(s.submissions, DecideAdvance(s, c, p).next.submissions)
  {
    assert Evolves(s.submissions, s.submissions) && Evolves(s.submissions, ReleaseBonds(s.submissions));
    hide Evolves, ReleaseBonds, BondRefunds, TimeoutEffects, EligibleIds, AdjudicationOpen, CloseOpen;
  }

  lemma OtherEvolves(s: BountyState, c: MarketCommand, p: MarketPolicy)
    ensures c.OpenBounty? && DecideOpen(s, c, p).Committed() ==> Evolves(s.submissions, DecideOpen(s, c, p).next.submissions)
    ensures c.SubmitCandidate? && DecideSubmit(s, c, p).Committed()
      ==> Evolves(s.submissions, DecideSubmit(s, c, p).next.submissions)
    ensures c.OpenChallenge? && DecideChallenge(s, c, p).Committed()
      ==> Evolves(s.submissions, DecideChallenge(s, c, p).next.submissions)
    ensures c.AdvanceBounty? && DecideAdvance(s, c, p).Committed()
      ==> Evolves(s.submissions, DecideAdvance(s, c, p).next.submissions)
    ensures c.SettleBounty? && DecideSettle(s, c).Committed()
      ==> Evolves(s.submissions, DecideSettle(s, c).next.submissions)
    ensures c.CancelBounty? && DecideCancel(s, c).Committed()
      ==> Evolves(s.submissions, DecideCancel(s, c).next.submissions)
  {
    assert Evolves(s.submissions, s.submissions);
    if c.SubmitCandidate? && DecideSubmit(s, c, p).Committed() { SubmitEvolves(s, c, p); }
    if c.AdvanceBounty? && DecideAdvance(s, c, p).Committed() { AdvanceEvolves(s, c, p); }
    assert Evolves(s.submissions, ReleaseBonds(s.submissions));
    hide Evolves, ReleaseBonds, DecideSubmit, DecideAdvance, FirstPayoutFault, PayoutTotal, BondRefunds, ValidRefs, ValidRef, ValidId;
  }

  /** Along a run submissions keep their place, a rejected one stays rejected and a judged
      one never becomes pending again. */
  lemma {:induction false} RunEvolves(s: BountyState, inputs: seq<Input>, i: nat, j: nat)
    requires i <= j <= |inputs|
    ensures Evolves(StateAt(s, inputs, i).submissions, StateAt(s, inputs, j).submissions)
    decreases j - i
  {
    hide StateAt, Next;
    if i < j {
      RunEvolves(s, inputs, i, j - 1);
      StateAtStep(s, inputs, j - 1);
      StepEvolves(StateAt(s, inputs, j - 1), inputs[j - 1]);
    }
  }

  // ----- Who is paid ----------------------------------------------------------------------------

  ghost predicate PaidVerified(effects: seq<MarketEffect>, subs: seq<SubmissionState>) {
    forall e | e in effects && e.kind.PayoutEffect? :: HasVerified(subs, e.subjectRef)
  }

  ghost predicate HasPayout(effects: seq<MarketEffect>) {
    exists e | e in effects :: e.kind.PayoutEffect?
  }

  lemma {:induction false} RefundsPayNobody(subs: seq<SubmissionState>, reason: string)
    ensures !HasPayout(BondRefunds(subs, reason))
  {
    if subs != [] { RefundsPayNobody(subs[..|subs| - 1], reason); }
  }

  lemma {:induction false} TimeoutsPayNobody(chs: seq<ChallengeState>, p: MarketPolicy)
    ensures !HasPayout(TimeoutEffects(chs, p))
  {
    if chs != [] { TimeoutsPayNobody(chs[..|chs| - 1], p); }
  }

  lemma {:induction false} NoPayoutFault(s: BountyState, payouts: seq<Payout>, k: nat, n: nat)
    requires k <= n < |payouts| && FirstPayoutFault(s, payouts, k).None?
    ensures PayoutFault(s, payouts, n).None?
    decreases n - k
  {
    if k < n { NoPayoutFault(s, payouts, k + 1, n); }
  }

  /** A committed settlement pays distinct payable submissions, each to its submitter. */
  lemma SettlementPaysEligible(s: BountyState, c: MarketCommand)
    requires c.SettleBounty? && DecideSettle(s, c).Committed()
    ensures forall k | 0 <= k < |c.payouts| ::
      && c.payouts[k].submissionId in s.payableIds
      && EligibleSubmission(s, c.payouts[k].submissionId).Some?
      && c.payouts[k].recipientRef == EligibleSubmission(s, c.payouts[k].submissionId).value.submitterRef
    ensures forall j, k | 0 <= j < k < |c.payouts| :: c.payouts[j].submissionId != c.payouts[k].submissionId
    ensures PayoutTotal(c.payouts) == s.escrowLocked
  {
    forall k | 0 <= k < |c.payouts|
      ensures c.payouts[k].submissionId in s.payableIds && EligibleSubmission(s, c.payouts[k].submissionId).Some?
      ensures c.payouts[k].recipientRef == EligibleSubmission(s, c.payouts[k].submissionId).value.submitterRef
      ensures forall j | 0 <= j < k :: c.payouts[j].submissionId != c.payouts[k].submissionId
    {
      NoPayoutFault(s, c.payouts, 0, k);
    }
    hide FirstPayoutFault, PayoutTotal;
  }

  lemma SettleEffectsVerified(s: BountyState, c: MarketCommand)
    requires ValidState(s) && c.SettleBounty? && DecideSettle(s, c).Committed()
    ensures PaidVerified(DecideSettle(s, c).effects, DecideSettle(s, c).next.submissions)
  {
    SettlementPaysEligible(s, c);
    RefundsPayNobody(s.submissions, "settlement_complete");
    assert PayableVerified(s.submissions, s.payableIds);
    hide ValidState, FirstPayoutFault, PayoutTotal, BondRefunds, EligibleSubmission, ReleaseBonds;
    var d := DecideSettle(s, c);
    forall e | e in d.effects && e.kind.PayoutEffect? ensures HasVerified(d.next.submissions, e.subjectRef) {
      assert e in PayoutEffects(c.payouts);
      var k :| 0 <= k < |c.payouts| && e == PayoutEffects(c.payouts)[k];
      var m :| 0 <= m < |s.payableIds| && s.payableIds[m] == e.subjectRef;
      assert HasVerified(s.submissions, s.payableIds[m]);
      ReleaseKeepsVerified(s.submissions, e.subjectRef);
    }
  }

  lemma ReleaseKeepsVerified(subs: seq<SubmissionState>, id: string)
    requires HasVerified(subs, id)
    ensures HasVerified(ReleaseBonds(subs), id)
  {
    var i :| 0 <= i < |subs| && subs[i].submissionId == id && subs[i].status.Verified?;
    assert ReleaseBonds(subs)[i].submissionId == id;
  }

  /** Only settlement pays out. */
  lemma OnlySettlementPays(s: BountyState, i: Input)
    requires Decide(s, i).Committed() && HasPayout(Decide(s, i).effects)
    ensures i.command.SettleBounty? && Decide(s, i) == DecideSettle(s, i.command)
  {
    var Input(c, p, evidence) := i;
    CommitPassesChecks(s, c, p, evidence);
    hide ApplyMarketCommand, ValidState, ValidEvidence, ValidPolicy, ValidId;
    if c.VerifySubmission? {
      var sub := VerifyCommits(s, c, p, evidence);
    } else if c.ResolveChallenge? {
      var ch, sub := ResolveCommits(s, c, p, evidence);
    } else {
      OthersPayNobody(s, c, p);
    }
    hide DecideVerify, DecideResolve, DecideOpen, DecideSubmit, DecideChallenge, DecideAdvance, DecideSettle, DecideCancel;
  }

  lemma OthersPayNobody(s: BountyState, c: MarketCommand, p: MarketPolicy)
    ensures c.OpenBounty? && DecideOpen(s, c, p).Committed() ==> !HasPayout(DecideOpen(s, c, p).effects)
    ensures c.SubmitCandidate? && DecideSubmit(s, c, p).Committed() ==> !HasPayout(DecideSubmit(s, c, p).effects)
    ensures c.OpenChallenge? && DecideChallenge(s, c, p).Committed() ==> !HasPayout(DecideChallenge(s, c, p).effects)
    ensures c.AdvanceBounty? && DecideAdvance(s, c, p).Committed() ==> !HasPayout(DecideAdvance(s, c, p).effects)
    ensures c.CancelBounty? && DecideCancel(s, c).Committed() ==> !HasPayout(DecideCancel(s, c).effects)
  {
    TimeoutsPayNobody(s.challenges, p);
    RefundsPayNobody(s.submissions, "bounty_expired");
    hide TimeoutEffects, BondRefunds, EligibleIds, AdjudicationOpen, CloseOpen, ReleaseBonds, ValidRefs, ValidRef, ValidId;
  }

  /** Every payout ever committed went to a submission that is verified at the end of the run. */
  lemma {:induction false} PaidStayVerified(terms: BountyTerms, inputs: seq<Input>)
    ensures var s := InitialBounty(terms);
      && PaidVerified(Ledger(s, inputs), Run(s, inputs).submissions)
      && (HasPayout(Ledger(s, inputs)) ==> Run(s, inputs).phase.Settled?)
  {
    if inputs != [] {
      var s, i := InitialBounty(terms), inputs[|inputs| - 1];
      var before := Run(s, inputs[..|inputs| - 1]);
      PaidStayVerified(terms, inputs[..|inputs| - 1]);
      var d := Decide(before, i);
      if d.Committed() {
        if HasPayout(d.effects) {
          OnlySettlementPays(before, i);
          CommitPassesChecks(before, i.command, i.policy, i.evidence);
          SettleEffectsVerified(before, i.command);
          assert before.phase.Payable? && d.next.phase.Settled?;
        } else if HasPayout(Ledger(s, inputs[..|inputs| - 1])) {
          TerminalAbsorbs(before, i.command, i.policy, i.evidence);
        }
      }
      hide ApplyMarketCommand, DecideSettle, HasVerified;
    }
  }

  /** A submission with an upheld challenge is rejected and is never paid. */
  lemma UpheldNeverPaid(terms: BountyTerms, inputs: seq<Input>, k: nat, i: nat)
    requires var s := Run(InitialBounty(terms), inputs);
      k < |s.challenges| && s.challenges[k].status.Upheld?
      && i < |s.submissions| && s.submissions[i].submissionId == s.challenges[k].submissionId
    ensures var s := Run(InitialBounty(terms), inputs);
      && s.submissions[i].status.SubmissionRejected?
      && s.submissions[i].submissionId !in s.payableIds
      && forall e | e in Ledger(InitialBounty(terms), inputs) && e.kind.PayoutEffect? ::
           e.subjectRef != s.submissions[i].submissionId
  {
    var s := Run(InitialBounty(terms), inputs);
    ReachableSound(terms, inputs);
    PaidStayVerified(terms, inputs);
    PayableIdsReachable(terms, inputs);
    hide Run, Ledger;
  }

  /** Ids are payable only in the payable and settled phases. */
  lemma {:induction false} PayableIdsReachable(terms: BountyTerms, inputs: seq<Input>)
    ensures var s := Run(InitialBounty(terms), inputs);
      s.payableIds != [] ==> s.phase.Payable? || s.phase.Settled?
  {
    if inputs != [] {
      var before, i := Run(InitialBounty(terms), inputs[..|inputs| - 1]), inputs[|inputs| - 1];
      PayableIdsReachable(terms, inputs[..|inputs| - 1]);
      if Decide(before, i).Committed() {
        assert Commits(before, i.command, Decide(before, i));
        hide ApplyMarketCommand, Run;
      }
    }
  }

  // ----- Progress ---------------------------------------------------------------------------------

  /** When every command of a run is judged under a policy demanding some deposit, every
      state of the run is valid. */
  lemma {:induction false} ReachableValid(terms: BountyTerms, inputs: seq<Input>)
    requires ValidTerms(terms)
    requires forall k | 0 <= k < |inputs| :: inputs[k].policy.minimumChallengeDeposit > 0
    ensures ValidState(Run(InitialBounty(terms), inputs))
  {
    if inputs == [] {
      ValidStateParts(InitialBounty(terms));
    } else {
      var before, i := Run(InitialBounty(terms), inputs[..|inputs| - 1]), inputs[|inputs| - 1];
      ReachableValid(terms, inputs[..|inputs| - 1]);
      if Decide(before, i).Committed() { ValidityInductive(before, i.command, i.policy, i.evidence); }
      hide ValidState, ApplyMarketCommand;
    }
  }

  /** The last moment at which some open challenge may still be adjudicated. */
  function Horizon(terms: BountyTerms, chs: seq<ChallengeState>, p: MarketPolicy): (h: int)
    ensures h >= terms.deadline + terms.challengeWindow
    ensures forall i | 0 <= i < |chs| && chs[i].status.ChallengeOpen? :: chs[i].openedAt + p.resolutionSeconds <= h
  {
    if chs == [] then ChallengeDeadline(terms)
    else
      var h := Horizon(terms, chs[..|chs| - 1], p);
      Max(h, ResolutionDeadline(terms, chs[|chs| - 1], p))
  }

  /** A command that only its handler could still reject. */
  lemma ReachesHandler(s: BountyState, c: MarketCommand, p: MarketPolicy)
    requires ValidState(s) && ValidPolicy(p) && c.now >= 0
    requires ValidId(c.commandId) && c.commandId !in s.processed
    requires c.AdvanceBounty? || c.SettleBounty?
    ensures ApplyMarketCommand(s, c, p, []) == Dispatch(s, c, p, [])
  {
    hide ValidState, ValidPolicy, ValidId, Dispatch;
  }

  lemma NoAdjudicationAfter(s: BountyState, p: MarketPolicy, now: int)
    requires now > Horizon(s.terms, s.challenges, p)
    ensures now > ChallengeDeadline(s.terms) && !AdjudicationOpen(s, now, p)
  {
  }

  lemma SomeEligible(subs: seq<SubmissionState>)
    requires UniqueSubmissions(subs)
    ensures EligibleIds(subs) != [] <==> exists id :: HasVerified(subs, id)
  {
    EligibleIsExact(subs);
    var eligible := EligibleIds(subs);
    if eligible != [] { assert eligible[0] in eligible; }
  }

  /** From a valid open state every advance that is late enough commits; it makes the
      bounty payable exactly when some submission is verified. */
  lemma AdvanceCommits(s: BountyState, p: MarketPolicy, id: string, now: int)
    requires ValidState(s) && s.phase.Open? && ValidPolicy(p)
    requires ValidId(id) && id !in s.processed
    requires now > Horizon(s.terms, s.challenges, p)
    ensures var d := ApplyMarketCommand(s, AdvanceBounty(id, now), p, []);
      && d.Committed()
      && (d.next.phase.Payable? <==> exists k :: HasVerified(s.submissions, k))
      && (d.next.phase.Expired? <==> !exists k :: HasVerified(s.submissions, k))
  {
    var c := AdvanceBounty(id, now);
    assert now >= 0 by { assert ValidTerms(s.terms); }
    ReachesHandler(s, c, p);
    SomeEligible(s.submissions);
    NoAdjudicationAfter(s, p, now);
    hide ValidState, ValidPolicy, ValidId, ApplyMarketCommand, Horizon, EligibleIds, HasVerified, AdjudicationOpen;
    hide CloseOpen, ReleaseBonds, TimeoutEffects, BondRefunds, ChallengeDeadline;
  }

  /** From a valid payable state, paying the whole escrow to the first payable submission
      settles the bounty. */
  lemma SettleCommits(s: BountyState, p: MarketPolicy, id: string, settlementRef: string, now: nat)
    requires ValidState(s) && s.phase.Payable? && ValidPolicy(p)
    requires ValidId(id) && id !in s.processed && settlementRef != ""
    ensures s.payableIds != [] && FindSubmission(s.submissions, s.payableIds[0]).Some?
    ensures
      var payee := FindSubmission(s.submissions, s.payableIds[0]).value;
      var c := SettleBounty(id, settlementRef, [Payout(payee.submitterRef, payee.submissionId, s.escrowLocked)], now);
      var d := ApplyMarketCommand(s, c, p, []);
      d.Committed() && d.next.phase.Settled?
  {
    assert HasVerified(s.submissions, s.payableIds[0]);
    var payee := FindSubmission(s.submissions, s.payableIds[0]).value;
    var payouts := [Payout(payee.submitterRef, payee.submissionId, s.escrowLocked)];
    var c := SettleBounty(id, settlementRef, payouts, now);
    ReachesHandler(s, c, p);
    assert ValidId(payee.submissionId) && payee.submitterRef != "" by { assert ValidSubmission(payee); }
    assert payouts[..0] == [] && PayoutTotal(payouts) == PayoutTotal(payouts[..0]) + s.escrowLocked;
    assert PayoutFault(s, payouts, 0).None? && FirstPayoutFault(s, payouts, 1).None?;
    hide ValidState, ValidPolicy, ValidId, ApplyMarketCommand, PayoutTotal, ReleaseBonds, BondRefunds;
  }

  /** A terminal phase is at most two commands away from any valid open state. */
  lemma TwoCommandsToEnd(s: BountyState, p: MarketPolicy, first: string, second: string, now: int)
    returns (inputs: seq<Input>)
    requires ValidState(s) && s.phase.Open? && ValidPolicy(p)
    requires ValidId(first) && ValidId(second) && first != second
    requires first !in s.processed && second !in s.processed
    requires now > Horizon(s.terms, s.challenges, p)
    ensures |inputs| <= 2 && Terminal(Run(s, inputs).phase)
  {
    var a := Input(AdvanceBounty(first, now), p, []);
    assert now >= 0 by { assert ValidTerms(s.terms); }
    AdvanceCommits(s, p, first, now);
    ValidityExact(s, a.command, p, []);
    var mid := Next(s, a);
    assert Commits(s, a.command, Decide(s, a));
    hide ValidState, ValidPolicy, ValidId, ApplyMarketCommand, Horizon, HasVerified, EligibleIds;
    inputs := [a];
    assert inputs[..0] == [] && Run(s, []) == s && Run(s, inputs) == mid;
    if mid.phase.Payable? {
      SettleCommits(mid, p, second, "settled", now);
      var payee := FindSubmission(mid.submissions, mid.payableIds[0]).value;
      var b := Input(SettleBounty(second, "settled", [Payout(payee.submitterRef, payee.submissionId, mid.escrowLocked)], now), p, []);
      inputs := [a, b];
      assert inputs[..1] == [a];
    }
  }

  // ----- The zero-deposit case ----------------------------------------------------------------------

  /** A challenge opened with a zero deposit commits a state every later command rejects. */
  lemma ZeroDepositFreezes(s: BountyState, i: Input, later: Input)
    requires Decide(s, i).Committed() && i.command.OpenChallenge? && i.command.deposit == 0
    ensures Decide(Next(s, i), later) == Reject(InvalidState, "state")
  {
    ValidityExact(s, i.command, i.policy, i.evidence);
    hide ValidState;
  }

  /** A concrete valid state and input for which that happens. */
  lemma ZeroDepositExample() returns (s: BountyState, i: Input)
    ensures ValidState(s) && i.policy.minimumChallengeDeposit == 0
    ensures Decide(s, i).Committed() && !ValidState(Next(s, i))
  {
    var ref := KeyRef(PublicKey(0));
    var terms := BountyTerms("b", "sponsor", ref, None, 1, 0, 10, 10, {ref}, {ref});
    var sub := SubmissionState("s", "submitter", ref, ref, [ref], [], 0, Verified, 0, Some(ref));
    s := BountyState(terms, Open, 1, [sub], [], [], None, {});
    var policy := MarketPolicy(1, 0, 0, {"fraud"}, "treasury", 0, "v1");
    var c := OpenChallenge("c", "h", "s", "challenger", "fraud", [ref], 0, 5);
    i := Input(c, policy, []);
    OpenStateValid(s);
    assert FindSubmission(s.submissions, "s") == Some(sub);
    FreeChallengeCommits(s, c, policy, sub);
    hide ApplyMarketCommand, ValidState;
    ValidityExact(s, c, policy, []);
  }

  lemma FreeChallengeCommits(s: BountyState, c: MarketCommand, p: MarketPolicy, sub: SubmissionState)
    requires ValidState(s) && s.phase.Open? && s.challenges == [] && s.processed == {} && s.terms.deadline == 10
    requires s.terms.challengeWindow == 10
    requires FindSubmission(s.submissions, "s") == Some(sub) && sub.status.Verified? && sub.submittedAt == 0
    requires p == MarketPolicy(1, 0, 0, {"fraud"}, "treasury", 0, "v1")
    requires c.OpenChallenge? && |c.evidenceRefs| == 1 && ValidRef(c.evidenceRefs[0])
    requires c == OpenChallenge("c", "h", "s", "challenger", "fraud", c.evidenceRefs, 0, 5)
    ensures ApplyMarketCommand(s, c, p, []).Committed()
  {
    hide ValidState, FindSubmission, ValidRef;
    assert CommonFault(c).None? && BindingFault(s, c, p, []).None?;
    assert DecideChallenge(s, c, p).Committed();
  }
}
