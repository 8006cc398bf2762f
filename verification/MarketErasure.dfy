/** Verifier-receipt references stored in a state are unobservable: erase them all, reissue
    the receipt each command cites, and every decision, effect and successor is the same. */
module MarketErasure {
  import opened Prelude
  import opened MarketTypes
  import opened MarketInvariants
  import opened Market
  import opened MarketValidity

  function EraseSubmission(s: SubmissionState): SubmissionState { s.(receiptRef := None) }

  function EraseChallenge(c: ChallengeState): ChallengeState { c.(receiptRef := None) }

  function EraseSubmissions(subs: seq<SubmissionState>): (out: seq<SubmissionState>)
    ensures |out| == |subs|
  {
    seq(|subs|, i requires 0 <= i < |subs| => EraseSubmission(subs[i]))
  }

  function EraseChallenges(chs: seq<ChallengeState>): (out: seq<ChallengeState>)
    ensures |out| == |chs|
  {
    seq(|chs|, i requires 0 <= i < |chs| => EraseChallenge(chs[i]))
  }

  function Erase(s: BountyState): BountyState {
    s.(submissions := EraseSubmissions(s.submissions), challenges := EraseChallenges(s.challenges))
  }

  /** What a caller sees of a decision: its kind and code, its effects, and the successor
      without receipt references. */
  datatype Observation =
    | Refused(code: RejectCode, field: string)
    | Moved(failure: Option<FailureCode>, next: BountyState, effects: seq<MarketEffect>)

  function Observe(d: Decision): Observation {
    match d
    case Accept(next, effects, _) => Moved(None, Erase(next), effects)
    case Reject(code, field) => Refused(code, field)
    case CommittedFailure(failure, next, effects, _) => Moved(Some(failure), Erase(next), effects)
  }

  function ErasedOption(x: Option<SubmissionState>): Option<SubmissionState> {
    if x.None? then None else Some(EraseSubmission(x.value))
  }

  // ----- Every helper commutes with erasure ---------------------------------------------------

  lemma {:induction false} FindSubmissionErased(subs: seq<SubmissionState>, id: string)
    ensures FindSubmission(EraseSubmissions(subs), id) == ErasedOption(FindSubmission(subs, id))
  {
    if subs != [] {
      assert EraseSubmissions(subs)[1..] == EraseSubmissions(subs[1..]);
      FindSubmissionErased(subs[1..], id);
    }
  }

  lemma {:induction false} FindChallengeErased(chs: seq<ChallengeState>, id: string)
    ensures FindChallenge(EraseChallenges(chs), id)
      == if FindChallenge(chs, id).None? then None else Some(EraseChallenge(FindChallenge(chs, id).value))
  {
    if chs != [] {
      assert EraseChallenges(chs)[1..] == EraseChallenges(chs[1..]);
      FindChallengeErased(chs[1..], id);
    }
  }

  lemma PutSubmissionErased(subs: seq<SubmissionState>, r: SubmissionState)
    ensures forall q | EraseSubmission(q) == EraseSubmission(r) ::
      EraseSubmissions(PutSubmission(EraseSubmissions(subs), q)) == EraseSubmissions(PutSubmission(subs, r))
  {
    forall q | EraseSubmission(q) == EraseSubmission(r)
      ensures EraseSubmissions(PutSubmission(EraseSubmissions(subs), q)) == EraseSubmissions(PutSubmission(subs, r))
    {
      var a, b := EraseSubmissions(PutSubmission(EraseSubmissions(subs), q)), EraseSubmissions(PutSubmission(subs, r));
      forall i | 0 <= i < |subs| ensures a[i] == b[i] { }
    }
  }

  lemma PutChallengeErased(chs: seq<ChallengeState>, r: ChallengeState)
    ensures forall q | EraseChallenge(q) == EraseChallenge(r) ::
      EraseChallenges(PutChallenge(EraseChallenges(chs), q)) == EraseChallenges(PutChallenge(chs, r))
  {
    forall q | EraseChallenge(q) == EraseChallenge(r)
      ensures EraseChallenges(PutChallenge(EraseChallenges(chs), q)) == EraseChallenges(PutChallenge(chs, r))
    {
      var a, b := EraseChallenges(PutChallenge(EraseChallenges(chs), q)), EraseChallenges(PutChallenge(chs, r));
      forall i | 0 <= i < |chs| ensures a[i] == b[i] { }
    }
  }

  lemma ListsErased(subs: seq<SubmissionState>, chs: seq<ChallengeState>)
    ensures EraseSubmissions(EraseSubmissions(subs)) == EraseSubmissions(subs)
    ensures EraseChallenges(EraseChallenges(chs)) == EraseChallenges(chs)
    ensures EraseSubmissions(ReleaseBonds(EraseSubmissions(subs))) == EraseSubmissions(ReleaseBonds(subs))
    ensures EraseChallenges(CloseOpen(EraseChallenges(chs))) == EraseChallenges(CloseOpen(chs))
  {
  }

  lemma {:induction false} TimeoutEffectsErased(chs: seq<ChallengeState>, p: MarketPolicy)
    ensures TimeoutEffects(EraseChallenges(chs), p) == TimeoutEffects(chs, p)
  {
    if chs != [] {
      assert EraseChallenges(chs)[..|chs| - 1] == EraseChallenges(chs[..|chs| - 1]);
      TimeoutEffectsErased(chs[..|chs| - 1], p);
    }
  }

  lemma {:induction false} BondRefundsErased(subs: seq<SubmissionState>, reason: string)
    ensures BondRefunds(EraseSubmissions(subs), reason) == BondRefunds(subs, reason)
  {
    if subs != [] {
      assert EraseSubmissions(subs)[..|subs| - 1] == EraseSubmissions(subs[..|subs| - 1]);
      BondRefundsErased(subs[..|subs| - 1], reason);
    }
  }

  lemma EraseCons(x: SubmissionState, tail: seq<SubmissionState>)
    ensures EraseSubmissions([x] + tail) == [EraseSubmission(x)] + EraseSubmissions(tail)
    ensures EraseSubmissions([]) == []
  {
    hide EraseSubmission;
  }

  lemma {:induction false} InsertErased(x: SubmissionState, sorted: seq<SubmissionState>)
    ensures InsertBy(EraseSubmission(x), EraseSubmissions(sorted), ArrivesBefore) == EraseSubmissions(InsertBy(x, sorted, ArrivesBefore))
  {
    hide StringLe, EraseSubmissions;
    EraseCons(x, sorted);
    if sorted != [] {
      assert ArrivesBefore(EraseSubmission(x), EraseSubmission(sorted[0])) <==> ArrivesBefore(x, sorted[0]);
      hide ArrivesBefore, EraseSubmission;
      var first, tail := sorted[0], sorted[1..];
      assert sorted == [first] + tail;
      EraseCons(first, tail);
      InsertErased(x, tail);
      EraseCons(first, InsertBy(x, tail, ArrivesBefore));
    } else {
      EraseCons(x, []);
    }
  }

  lemma {:induction false} SortErased(subs: seq<SubmissionState>)
    ensures SortByArrival(EraseSubmissions(subs)) == EraseSubmissions(SortByArrival(subs))
  {
    if subs != [] {
      assert EraseSubmissions(subs)[1..] == EraseSubmissions(subs[1..]);
      SortErased(subs[1..]);
      InsertErased(subs[0], SortByArrival(subs[1..]));
    }
  }

  lemma {:induction false} VerifiedIdsErased(subs: seq<SubmissionState>)
    ensures VerifiedIds(EraseSubmissions(subs)) == VerifiedIds(subs)
  {
    if subs != [] {
      assert EraseSubmissions(subs)[1..] == EraseSubmissions(subs[1..]);
      VerifiedIdsErased(subs[1..]);
    }
  }

  lemma EligibleIdsErased(subs: seq<SubmissionState>)
    ensures EligibleIds(EraseSubmissions(subs)) == EligibleIds(subs)
  {
    SortErased(subs);
    VerifiedIdsErased(SortByArrival(subs));
  }

  lemma {:induction false} PayoutFaultErased(s: BountyState, payouts: seq<Payout>, k: nat)
    requires k <= |payouts|
    ensures FirstPayoutFault(Erase(s), payouts, k) == FirstPayoutFault(s, payouts, k)
    decreases |payouts| - k
  {
    if k < |payouts| {
      FindSubmissionErased(s.submissions, payouts[k].submissionId);
      PayoutFaultErased(s, payouts, k + 1);
    }
  }

  // ----- Validity -------------------------------------------------------------------------------

  ghost predicate ReceiptsValid(s: BountyState) {
    && (forall i | 0 <= i < |s.submissions| :: ValidOptionalRef(s.submissions[i].receiptRef))
    && (forall i | 0 <= i < |s.challenges| :: ValidOptionalRef(s.challenges[i].receiptRef))
  }

  lemma FieldsErased(subs: seq<SubmissionState>, chs: seq<ChallengeState>)
    requires forall i | 0 <= i < |subs| :: ValidOptionalRef(subs[i].receiptRef)
    requires forall i | 0 <= i < |chs| :: ValidOptionalRef(chs[i].receiptRef)
    ensures ValidSubmissions(EraseSubmissions(subs)) <==> ValidSubmissions(subs)
    ensures ValidChallenges(EraseChallenges(chs)) <==> ValidChallenges(chs)
  {
    var a, b := EraseSubmissions(subs), EraseChallenges(chs);
    forall i | 0 <= i < |subs| ensures ValidSubmission(a[i]) <==> ValidSubmission(subs[i]) { }
    forall i | 0 <= i < |chs| ensures ValidChallenge(b[i]) <==> ValidChallenge(chs[i]) { }
    hide ValidSubmission, ValidChallenge;
    if ValidSubmissions(a) {
      forall i | 0 <= i < |subs| ensures ValidSubmission(subs[i]) { assert ValidSubmission(a[i]); }
    }
    if ValidChallenges(b) {
      forall i | 0 <= i < |chs| ensures ValidChallenge(chs[i]) { assert ValidChallenge(b[i]); }
    }
  }

  lemma ReferencesErased(subs: seq<SubmissionState>, chs: seq<ChallengeState>)
    ensures ReferencesResolve(EraseSubmissions(subs), EraseChallenges(chs)) <==> ReferencesResolve(subs, chs)
    ensures forall id :: HasVerified(EraseSubmissions(subs), id) <==> HasVerified(subs, id)
  {
    var a, b := EraseSubmissions(subs), EraseChallenges(chs);
    forall id ensures HasSubmission(a, id) <==> HasSubmission(subs, id) {
      if HasSubmission(subs, id) {
        var i :| 0 <= i < |subs| && subs[i].submissionId == id;
        assert a[i].submissionId == id;
      }
    }
    forall id ensures HasVerified(a, id) <==> HasVerified(subs, id) {
      if HasVerified(subs, id) {
        var i :| 0 <= i < |subs| && subs[i].submissionId == id && subs[i].status.Verified?;
        assert a[i].submissionId == id;
      }
    }
    hide HasSubmission, HasVerified;
    if ReferencesResolve(a, b) {
      forall i | 0 <= i < |chs| ensures HasSubmission(subs, chs[i].submissionId) {
        assert HasSubmission(a, b[i].submissionId);
      }
    }
  }

  /** Rules about one list survive erasure in both directions, since no rule reads a receipt. */
  lemma RulesErased(subs: seq<SubmissionState>, chs: seq<ChallengeState>)
    ensures UniqueSubmissions(EraseSubmissions(subs)) <==> UniqueSubmissions(subs)
    ensures RejectedHoldNoBond(EraseSubmissions(subs)) <==> RejectedHoldNoBond(subs)
    ensures NoBonds(EraseSubmissions(subs)) <==> NoBonds(subs)
    ensures UniqueChallenges(EraseChallenges(chs)) <==> UniqueChallenges(chs)
    ensures OneOpenPerSubmission(EraseChallenges(chs)) <==> OneOpenPerSubmission(chs)
    ensures NoOpenChallenge(EraseChallenges(chs)) <==> NoOpenChallenge(chs)
    ensures DepositsMatchStatus(EraseChallenges(chs)) <==> DepositsMatchStatus(chs)
  {
    SubmissionRulesErased(subs);
    ChallengeRulesErased(chs);
  }

  lemma SubmissionRulesErased(subs: seq<SubmissionState>)
    ensures UniqueSubmissions(EraseSubmissions(subs)) <==> UniqueSubmissions(subs)
    ensures RejectedHoldNoBond(EraseSubmissions(subs)) <==> RejectedHoldNoBond(subs)
    ensures NoBonds(EraseSubmissions(subs)) <==> NoBonds(subs)
  {
    var a := EraseSubmissions(subs);
    assert forall i {:trigger subs[i]} | 0 <= i < |subs| :: a[i] == EraseSubmission(subs[i]);
  }

  lemma ChallengeRulesErased(chs: seq<ChallengeState>)
    ensures UniqueChallenges(EraseChallenges(chs)) <==> UniqueChallenges(chs)
    ensures OneOpenPerSubmission(EraseChallenges(chs)) <==> OneOpenPerSubmission(chs)
    ensures NoOpenChallenge(EraseChallenges(chs)) <==> NoOpenChallenge(chs)
    ensures DepositsMatchStatus(EraseChallenges(chs)) <==> DepositsMatchStatus(chs)
  {
    var a := EraseChallenges(chs);
    assert forall i {:trigger chs[i]} | 0 <= i < |chs| :: a[i] == EraseChallenge(chs[i]);
  }

  lemma ValidErased(s: BountyState)
    requires ReceiptsValid(s)
    ensures ValidState(Erase(s)) <==> ValidState(s)
  {
    FieldsErased(s.submissions, s.challenges);
    ReferencesErased(s.submissions, s.challenges);
    RulesErased(s.submissions, s.challenges);
    ValidStateParts(s);
    ValidStateParts(Erase(s));
    hide ValidState, ValidTerms, ValidSubmissions, ValidChallenges, UniqueSubmissions, UniqueChallenges, ReferencesResolve;
    hide HasVerified, OneOpenPerSubmission, NoOpenChallenge, DepositsMatchStatus, RejectedHoldNoBond, NoBonds, Distinct;
    hide ReceiptsValid, ValidIds, ValidId;
    assert EraseSubmissions(s.submissions) == [] <==> s.submissions == [];
    assert EraseChallenges(s.challenges) == [] <==> s.challenges == [];
  }

  // ----- Commands with reissued receipts ---------------------------------------------------------

  /** The statement a verifier must sign for this command in this state, if its target exists. */
  function StatementFor(s: BountyState, c: MarketCommand, p: MarketPolicy): Option<VerifierStatement> {
    match c
    case VerifySubmission(_, id, _, _, accepted, _) =>
      var sub := FindSubmission(s.submissions, id);
      if sub.None? then None else Some(SubmissionStatementFor(s, accepted, p, sub.value))
    case ResolveChallenge(_, id, _, _, upheld, _) =>
      var ch := FindChallenge(s.challenges, id);
      if ch.None? then None else Some(ChallengeStatementFor(s, upheld, p, ch.value))
    case _ => None
  }

  function Sign(st: VerifierStatement, key: PublicKey): VerifierReceipt {
    VerifierReceipt(st, key, Signed(key, st))
  }

  function IssuedEvidence(s: BountyState, c: MarketCommand, p: MarketPolicy, key: PublicKey): seq<VerifierReceipt> {
    var st := StatementFor(s, c, p);
    if st.None? then [] else [Sign(st.value, key)]
  }

  /** The same command citing another receipt. */
  function WithReceipt(c: MarketCommand, r: Ref): MarketCommand {
    match c
    case VerifySubmission(id, submission, verifier, _, accepted, now) =>
      VerifySubmission(id, submission, verifier, r, accepted, now)
    case ResolveChallenge(id, challenge, verifier, _, upheld, now) =>
      ResolveChallenge(id, challenge, verifier, r, upheld, now)
    case _ => c
  }

  /** The command citing the receipt just issued for it, or unchanged when there is none. */
  function Citing(s: BountyState, c: MarketCommand, p: MarketPolicy, key: PublicKey): MarketCommand {
    var st := StatementFor(s, c, p);
    if st.None? then c else WithReceipt(c, ReceiptRef(Sign(st.value, key)))
  }

  /** Apply a command with a receipt `key` issues for exactly this state. */
  function ApplyIssued(s: BountyState, c: MarketCommand, p: MarketPolicy, key: PublicKey): Decision {
    ApplyMarketCommand(s, Citing(s, c, p, key), p, IssuedEvidence(s, c, p, key))
  }

  // ----- Handlers see no receipt reference ---------------------------------------------------------

  lemma OpenErased(s: BountyState, c: MarketCommand, p: MarketPolicy)
    requires c.OpenBounty?
    ensures Observe(DecideOpen(Erase(s), c, p)) == Observe(DecideOpen(s, c, p))
  {
    ListsErased(s.submissions, s.challenges);
  }

  lemma CancelErased(s: BountyState, c: MarketCommand)
    requires c.CancelBounty?
    ensures Observe(DecideCancel(Erase(s), c)) == Observe(DecideCancel(s, c))
  {
    ListsErased(s.submissions, s.challenges);
    assert EraseSubmissions(s.submissions) == [] <==> s.submissions == [];
    assert EraseChallenges(s.challenges) == [] <==> s.challenges == [];
    hide EraseSubmissions, EraseChallenges;
  }

  lemma SubmitErased(s: BountyState, c: MarketCommand, p: MarketPolicy)
    requires c.SubmitCandidate?
    ensures Observe(DecideSubmit(Erase(s), c, p)) == Observe(DecideSubmit(s, c, p))
  {
    ListsErased(s.submissions, s.challenges);
    FindSubmissionErased(s.submissions, c.submissionId);
    assert EraseSubmissions(EraseSubmissions(s.submissions) + [NewSubmission(c)])
      == EraseSubmissions(s.submissions + [NewSubmission(c)]);
    hide EraseSubmissions, EraseChallenges, FindSubmission, ValidId, ValidRef, ValidRefs;
  }

  lemma ChallengeErased(s: BountyState, c: MarketCommand, p: MarketPolicy)
    requires c.OpenChallenge?
    ensures Observe(DecideChallenge(Erase(s), c, p)) == Observe(DecideChallenge(s, c, p))
  {
    ListsErased(s.submissions, s.challenges);
    FindSubmissionErased(s.submissions, c.submissionId);
    FindChallengeErased(s.challenges, c.challengeId);
    assert EraseChallenges(EraseChallenges(s.challenges) + [NewChallenge(c)])
      == EraseChallenges(s.challenges + [NewChallenge(c)]);
    assert HasOpenChallenge(EraseChallenges(s.challenges), c.submissionId) <==> HasOpenChallenge(s.challenges, c.submissionId) by {
      var a := EraseChallenges(s.challenges);
      assert forall i {:trigger s.challenges[i]} | 0 <= i < |a| :: a[i] == EraseChallenge(s.challenges[i]);
    }
    hide EraseSubmissions, EraseChallenges, FindSubmission, FindChallenge, ValidId, ValidRef, ValidRefs, HasOpenChallenge;
  }

  lemma AdjudicationErased(s: BountyState, now: int, p: MarketPolicy)
    ensures AdjudicationOpen(Erase(s), now, p) <==> AdjudicationOpen(s, now, p)
  {
    var a := EraseChallenges(s.challenges);
    assert forall i {:trigger s.challenges[i]} | 0 <= i < |a| :: a[i] == EraseChallenge(s.challenges[i]);
  }

  lemma AdvanceErased(s: BountyState, c: MarketCommand, p: MarketPolicy)
    requires c.AdvanceBounty?
    ensures Observe(DecideAdvance(Erase(s), c, p)) == Observe(DecideAdvance(s, c, p))
  {
    ListsErased(s.submissions, s.challenges);
    EligibleIdsErased(s.submissions);
    TimeoutEffectsErased(s.challenges, p);
    BondRefundsErased(s.submissions, "bounty_expired");
    AdjudicationErased(s, c.now, p);
    hide EraseSubmissions, EraseChallenges, AdjudicationOpen, EligibleIds, TimeoutEffects, BondRefunds, CloseOpen, ReleaseBonds;
    hide Receipt, EffectWithReason, PhaseStep, Commits;
  }

  lemma SettleErased(s: BountyState, c: MarketCommand)
    requires c.SettleBounty?
    ensures Observe(DecideSettle(Erase(s), c)) == Observe(DecideSettle(s, c))
  {
    ListsErased(s.submissions, s.challenges);
    PayoutFaultErased(s, c.payouts, 0);
    BondRefundsErased(s.submissions, "settlement_complete");
    hide EraseSubmissions, EraseChallenges, BondRefunds, ReleaseBonds, FirstPayoutFault, PayoutTotal, PayoutEffects, ValidId;
  }

  function KeyFault(key: PublicKey, verifierRef: Ref, subject: Option<Ref>, terms: BountyTerms): Option<Decision> {
    if KeyRef(key) != verifierRef || (subject.Some? && KeyRef(key) != subject.value)
    then Some(Reject(InvalidEvidence, "verifier_ref"))
    else if KeyRef(key) !in terms.acceptedVerifierRefs then Some(Reject(PolicyMismatch, "verifier_ref"))
    else None
  }

  /** With an issued receipt admission depends on the key alone. */
  lemma AdmissionOfIssued(st: VerifierStatement, key: PublicKey, verifierRef: Ref, subject: Option<Ref>, terms: BountyTerms)
    ensures AdmissionFault([Sign(st, key)], ReceiptRef(Sign(st, key)), st, verifierRef, subject, terms)
      == KeyFault(key, verifierRef, subject, terms)
  {
    var r := Sign(st, key);
    assert FindReceipt([r], ReceiptRef(r)) == Some(r);
  }

  lemma VerdictErased(s: BountyState, c: MarketCommand, d: MarketCommand, sub: SubmissionState)
    requires s.phase.Open? && c.VerifySubmission? && d.VerifySubmission? && d == WithReceipt(c, d.receiptRef)
    ensures Observe(ApplyVerdict(Erase(s), d, EraseSubmission(sub))) == Observe(ApplyVerdict(s, c, sub))
  {
    var judged := sub.(status := if c.accepted then Verified else SubmissionRejected,
                       bondLocked := if c.accepted then sub.bondLocked else 0,
                       receiptRef := Some(c.receiptRef));
    ListsErased(s.submissions, s.challenges);
    PutSubmissionErased(s.submissions, judged);
    assert EraseSubmission(judged.(receiptRef := Some(d.receiptRef))) == EraseSubmission(judged);
    hide EraseSubmissions, EraseChallenges, PutSubmission;
  }

  lemma ResolutionErased(s: BountyState, c: MarketCommand, d: MarketCommand, p: MarketPolicy, ch: ChallengeState, sub: SubmissionState)
    requires s.phase.Open? && c.ResolveChallenge? && d.ResolveChallenge? && d == WithReceipt(c, d.receiptRef)
    ensures Observe(ApplyResolution(Erase(s), d, p, EraseChallenge(ch), EraseSubmission(sub)))
      == Observe(ApplyResolution(s, c, p, ch, sub))
  {
    var closed := ch.(status := if c.upheld then Upheld else ChallengeRejected,
                      depositLocked := 0, receiptRef := Some(c.receiptRef));
    var struck := sub.(status := SubmissionRejected, bondLocked := 0);
    ListsErased(s.submissions, s.challenges);
    PutSubmissionErased(s.submissions, struck);
    PutChallengeErased(s.challenges, closed);
    assert EraseChallenge(closed.(receiptRef := Some(d.receiptRef))) == EraseChallenge(closed);
    hide EraseSubmissions, EraseChallenges, PutSubmission, PutChallenge;
  }

  /** With the issued receipt the binding check, too, depends on the keys alone. */
  lemma VerifyBindingOfIssued(s: BountyState, c: MarketCommand, p: MarketPolicy, key: PublicKey, sub: SubmissionState)
    requires c.VerifySubmission? && FindSubmission(s.submissions, c.submissionId) == Some(sub)
    ensures BindingFault(s, Citing(s, c, p, key), p, IssuedEvidence(s, c, p, key))
      == if KeyRef(key) != c.verifierRef || KeyRef(key) != sub.verifierRef
         then Some(Reject(InvalidEvidence, "verifier_ref")) else None
  {
    var r := Sign(SubmissionStatementFor(s, c.accepted, p, sub), key);
    assert FindReceipt([r], ReceiptRef(r)) == Some(r);
  }

  lemma ResolveBindingOfIssued(s: BountyState, c: MarketCommand, p: MarketPolicy, key: PublicKey, ch: ChallengeState)
    requires c.ResolveChallenge? && FindChallenge(s.challenges, c.challengeId) == Some(ch)
    ensures BindingFault(s, Citing(s, c, p, key), p, IssuedEvidence(s, c, p, key))
      == if KeyRef(key) != c.verifierRef then Some(Reject(InvalidEvidence, "verifier_ref")) else None
  {
    var r := Sign(ChallengeStatementFor(s, c.upheld, p, ch), key);
    assert FindReceipt([r], ReceiptRef(r)) == Some(r);
  }

  lemma BindingErased(s: BountyState, c: MarketCommand, p: MarketPolicy, key: PublicKey)
    ensures BindingFault(Erase(s), Citing(Erase(s), c, p, key), p, IssuedEvidence(Erase(s), c, p, key))
      == BindingFault(s, Citing(s, c, p, key), p, IssuedEvidence(s, c, p, key))
  {
    if c.VerifySubmission? {
      FindSubmissionErased(s.submissions, c.submissionId);
      var found := FindSubmission(s.submissions, c.submissionId);
      if found.Some? {
        VerifyBindingOfIssued(s, c, p, key, found.value);
        VerifyBindingOfIssued(Erase(s), c, p, key, EraseSubmission(found.value));
        hide *;
        assert EraseSubmission(found.value).verifierRef == found.value.verifierRef;
      }
    } else if c.ResolveChallenge? {
      FindChallengeErased(s.challenges, c.challengeId);
      var found := FindChallenge(s.challenges, c.challengeId);
      if found.Some? {
        ResolveBindingOfIssued(s, c, p, key, found.value);
        ResolveBindingOfIssued(Erase(s), c, p, key, EraseChallenge(found.value));
        hide *;
      }
    }
  }

  lemma VerifyAdmission(s: BountyState, c: MarketCommand, p: MarketPolicy, key: PublicKey, sub: SubmissionState)
    requires c.VerifySubmission? && FindSubmission(s.submissions, c.submissionId) == Some(sub)
    ensures var d := Citing(s, c, p, key);
      && d.VerifySubmission? && d == WithReceipt(c, d.receiptRef) && ValidRef(d.receiptRef)
      && AdmissionFault(IssuedEvidence(s, c, p, key), d.receiptRef, SubmissionStatementFor(s, c.accepted, p, sub),
                        c.verifierRef, Some(sub.verifierRef), s.terms)
         == KeyFault(key, c.verifierRef, Some(sub.verifierRef), s.terms)
  {
    AdmissionOfIssued(SubmissionStatementFor(s, c.accepted, p, sub), key, c.verifierRef, Some(sub.verifierRef), s.terms);
  }

  lemma ResolveAdmission(s: BountyState, c: MarketCommand, p: MarketPolicy, key: PublicKey, ch: ChallengeState)
    requires c.ResolveChallenge? && FindChallenge(s.challenges, c.challengeId) == Some(ch)
    ensures var d := Citing(s, c, p, key);
      && d.ResolveChallenge? && d == WithReceipt(c, d.receiptRef) && ValidRef(d.receiptRef)
      && AdmissionFault(IssuedEvidence(s, c, p, key), d.receiptRef, ChallengeStatementFor(s, c.upheld, p, ch),
                        c.verifierRef, None, s.terms)
         == KeyFault(key, c.verifierRef, None, s.terms)
  {
    AdmissionOfIssued(ChallengeStatementFor(s, c.upheld, p, ch), key, c.verifierRef, None, s.terms);
  }

  /** The verify handler reads a state only through the submission it finds. */
  lemma VerifyAgrees(s: BountyState, t: BountyState, d: MarketCommand, e: MarketCommand, p: MarketPolicy,
                     ev: seq<VerifierReceipt>, fv: seq<VerifierReceipt>, sub: SubmissionState, bus: SubmissionState)
    requires d.VerifySubmission? && e.VerifySubmission? && e == WithReceipt(d, e.receiptRef)
    requires ValidRef(d.receiptRef) && ValidRef(e.receiptRef) && t.phase == s.phase && t.terms == s.terms
    requires FindSubmission(s.submissions, d.submissionId) == Some(sub)
    requires FindSubmission(t.submissions, d.submissionId) == Some(bus)
    requires bus.status == sub.status && bus.verifierRef == sub.verifierRef
    requires AdmissionFault(ev, d.receiptRef, SubmissionStatementFor(s, d.accepted, p, sub), d.verifierRef, Some(sub.verifierRef), s.terms)
      == AdmissionFault(fv, e.receiptRef, SubmissionStatementFor(t, d.accepted, p, bus), d.verifierRef, Some(sub.verifierRef), s.terms)
    requires s.phase.Open? ==> Observe(ApplyVerdict(t, e, bus)) == Observe(ApplyVerdict(s, d, sub))
    ensures Observe(DecideVerify(t, e, p, fv)) == Observe(DecideVerify(s, d, p, ev))
  {
    hide Observe, FindSubmission, ValidId, AdmissionFault, ApplyVerdict, SubmissionStatementFor, ValidRef, Commits, ChallengeDeadline;
  }

  lemma ResolveAgrees(s: BountyState, t: BountyState, d: MarketCommand, e: MarketCommand, p: MarketPolicy,
                      ev: seq<VerifierReceipt>, fv: seq<VerifierReceipt>, ch: ChallengeState, hc: ChallengeState)
    requires d.ResolveChallenge? && e.ResolveChallenge? && e == WithReceipt(d, e.receiptRef)
    requires ValidRef(d.receiptRef) && ValidRef(e.receiptRef) && t.phase == s.phase && t.terms == s.terms
    requires FindChallenge(s.challenges, d.challengeId) == Some(ch)
    requires FindChallenge(t.challenges, d.challengeId) == Some(hc)
    requires hc.status == ch.status && hc.submissionId == ch.submissionId && hc.openedAt == ch.openedAt
    requires AdmissionFault(ev, d.receiptRef, ChallengeStatementFor(s, d.upheld, p, ch), d.verifierRef, None, s.terms)
      == AdmissionFault(fv, e.receiptRef, ChallengeStatementFor(t, d.upheld, p, hc), d.verifierRef, None, s.terms)
    requires FindSubmission(t.submissions, ch.submissionId) == ErasedOption(FindSubmission(s.submissions, ch.submissionId))
    requires forall sub | s.phase.Open? && FindSubmission(s.submissions, ch.submissionId) == Some(sub) ::
      Observe(ApplyResolution(t, e, p, hc, EraseSubmission(sub))) == Observe(ApplyResolution(s, d, p, ch, sub))
    ensures Observe(DecideResolve(t, e, p, fv)) == Observe(DecideResolve(s, d, p, ev))
  {
    hide Observe, FindSubmission, FindChallenge, ValidId, AdmissionFault, ApplyResolution, ChallengeStatementFor, ValidRef, Commits;
    hide EraseSubmission;
    assert ResolutionDeadline(s.terms, hc, p) == ResolutionDeadline(s.terms, ch, p);
    hide ResolutionDeadline;
  }

  lemma VerifyErased(s: BountyState, c: MarketCommand, p: MarketPolicy, key: PublicKey)
    requires c.VerifySubmission?
    ensures Observe(DecideVerify(Erase(s), Citing(Erase(s), c, p, key), p, IssuedEvidence(Erase(s), c, p, key)))
      == Observe(DecideVerify(s, Citing(s, c, p, key), p, IssuedEvidence(s, c, p, key)))
  {
    FindSubmissionErased(s.submissions, c.submissionId);
    var found := FindSubmission(s.submissions, c.submissionId);
    if found.None? {
      assert Citing(s, c, p, key) == Citing(Erase(s), c, p, key) == c;
      hide Observe, FindSubmission, ValidId, ValidRef, Citing, IssuedEvidence, ChallengeDeadline, EraseSubmissions, EraseChallenges;
    } else {
      var sub, e := found.value, EraseSubmission(found.value);
      var d, d' := Citing(s, c, p, key), Citing(Erase(s), c, p, key);
      VerifyAdmission(s, c, p, key, sub);
      VerifyAdmission(Erase(s), c, p, key, e);
      if s.phase.Open? { VerdictErased(s, d, d', sub); }
      hide Observe, FindSubmission, AdmissionFault, KeyFault, Citing, IssuedEvidence, DecideVerify, ApplyVerdict, ValidRef;
      hide SubmissionStatementFor, EraseSubmissions, EraseChallenges;
      VerifyAgrees(s, Erase(s), d, d', p, IssuedEvidence(s, c, p, key), IssuedEvidence(Erase(s), c, p, key), sub, e);
    }
  }

  lemma ResolveErased(s: BountyState, c: MarketCommand, p: MarketPolicy, key: PublicKey)
    requires c.ResolveChallenge?
    ensures Observe(DecideResolve(Erase(s), Citing(Erase(s), c, p, key), p, IssuedEvidence(Erase(s), c, p, key)))
      == Observe(DecideResolve(s, Citing(s, c, p, key), p, IssuedEvidence(s, c, p, key)))
  {
    FindChallengeErased(s.challenges, c.challengeId);
    var found := FindChallenge(s.challenges, c.challengeId);
    if found.None? {
      assert Citing(s, c, p, key) == Citing(Erase(s), c, p, key) == c;
      hide Observe, FindChallenge, ValidId, ValidRef, Citing, IssuedEvidence, EraseSubmissions, EraseChallenges;
    } else {
      var ch, e := found.value, EraseChallenge(found.value);
      var d, d' := Citing(s, c, p, key), Citing(Erase(s), c, p, key);
      FindSubmissionErased(s.submissions, ch.submissionId);
      ResolveAdmission(s, c, p, key, ch);
      ResolveAdmission(Erase(s), c, p, key, e);
      forall sub | s.phase.Open? && FindSubmission(s.submissions, ch.submissionId) == Some(sub)
        ensures Observe(ApplyResolution(Erase(s), d', p, e, EraseSubmission(sub))) == Observe(ApplyResolution(s, d, p, ch, sub))
      {
        ResolutionErased(s, d, d', p, ch, sub);
      }
      hide Observe, FindSubmission, FindChallenge, AdmissionFault, KeyFault, Citing, IssuedEvidence, DecideResolve, ApplyResolution;
      hide ValidRef, ChallengeStatementFor, EraseSubmissions, EraseChallenges, ErasedOption;
      ResolveAgrees(s, Erase(s), d, d', p, IssuedEvidence(s, c, p, key), IssuedEvidence(Erase(s), c, p, key), ch, e);
    }
  }

  lemma DispatchErased(s: BountyState, c: MarketCommand, p: MarketPolicy, key: PublicKey)
    ensures Observe(Dispatch(Erase(s), Citing(Erase(s), c, p, key), p, IssuedEvidence(Erase(s), c, p, key)))
      == Observe(Dispatch(s, Citing(s, c, p, key), p, IssuedEvidence(s, c, p, key)))
  {
    match c
    case OpenBounty(_, _, _, _) => OpenErased(s, c, p);
    case SubmitCandidate(_, _, _, _, _, _, _, _, _) => SubmitErased(s, c, p);
    case VerifySubmission(_, _, _, _, _, _) => VerifyErased(s, c, p, key);
    case OpenChallenge(_, _, _, _, _, _, _, _) => ChallengeErased(s, c, p);
    case ResolveChallenge(_, _, _, _, _, _) => ResolveErased(s, c, p, key);
    case AdvanceBounty(_, _) => AdvanceErased(s, c, p);
    case SettleBounty(_, _, _, _) => SettleErased(s, c);
    case CancelBounty(_, _, _) => CancelErased(s, c);
  }

  /** Issued evidence is always well formed, and citing it changes nothing else that the
      common checks look at. */
  lemma IssuedIsValid(s: BountyState, c: MarketCommand, p: MarketPolicy, key: PublicKey)
    ensures ValidEvidence(IssuedEvidence(s, c, p, key))
    ensures CommonFault(Citing(s, c, p, key)) == CommonFault(c)
    ensures Citing(s, c, p, key).commandId == c.commandId
  {
  }

  /** The receipt references a state remembers cannot be observed: forget them all, let the
      verifier issue its receipt for the forgetful state instead, and every command gets the
      same answer, the same effects and the same successor up to receipt references. */
  lemma ReceiptsUnobservable(s: BountyState, c: MarketCommand, p: MarketPolicy, key: PublicKey)
    requires ReceiptsValid(s)
    ensures Observe(ApplyIssued(Erase(s), c, p, key)) == Observe(ApplyIssued(s, c, p, key))
  {
    ValidErased(s);
    IssuedIsValid(s, c, p, key);
    IssuedIsValid(Erase(s), c, p, key);
    BindingErased(s, c, p, key);
    DispatchErased(s, c, p, key);
    assert Erase(s).processed == s.processed;
    hide ValidState, ValidPolicy, CommonFault, ValidEvidence, BindingFault, Dispatch, Citing, IssuedEvidence, Erase;
  }
}
