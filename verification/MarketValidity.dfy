/** Which transitions keep a state valid, and what else every reachable state satisfies. */
module MarketValidity {
  import opened Prelude
  import opened MarketTypes
  import opened MarketInvariants
  import opened Market

  // ----- Lookup under unique ids ------------------------------------------------------------

  lemma {:induction false} FindSubmissionAt(subs: seq<SubmissionState>, i: nat)
    requires UniqueSubmissions(subs) && i < |subs|
    ensures FindSubmission(subs, subs[i].submissionId) == Some(subs[i])
  {
    if i > 0 { FindSubmissionAt(subs[1..], i - 1); }
  }

  lemma {:induction false} FindChallengeAt(chs: seq<ChallengeState>, i: nat)
    requires UniqueChallenges(chs) && i < |chs|
    ensures FindChallenge(chs, chs[i].challengeId) == Some(chs[i])
  {
    if i > 0 { FindChallengeAt(chs[1..], i - 1); }
  }

  // ----- Parts of the state each handler rewrites ---------------------------------------------

  /** The list keeps its ids, and only the entry `r` replaces changes. */
  lemma PutSubmissionFacts(subs: seq<SubmissionState>, target: SubmissionState, r: SubmissionState)
    requires UniqueSubmissions(subs) && target in subs && r.submissionId == target.submissionId
    ensures var out := PutSubmission(subs, r);
      && UniqueSubmissions(out)
      && (forall i | 0 <= i < |subs| :: out[i].submissionId == subs[i].submissionId)
      && (forall i | 0 <= i < |subs| :: out[i] == if subs[i] == target then r else subs[i])
  {
  }

  lemma PutChallengeFacts(chs: seq<ChallengeState>, target: ChallengeState, r: ChallengeState)
    requires UniqueChallenges(chs) && target in chs && r.challengeId == target.challengeId
    ensures var out := PutChallenge(chs, r);
      && UniqueChallenges(out)
      && (forall i | 0 <= i < |chs| :: out[i].challengeId == chs[i].challengeId)
      && (forall i | 0 <= i < |chs| :: out[i] == if chs[i] == target then r else chs[i])
  {
  }

  /** Same ids in the same places. */
  ghost predicate SameIds(a: seq<SubmissionState>, b: seq<SubmissionState>) {
    |a| == |b| && forall i | 0 <= i < |a| :: a[i].submissionId == b[i].submissionId
  }

  lemma SameIdsKeepReferences(a: seq<SubmissionState>, b: seq<SubmissionState>, chs: seq<ChallengeState>)
    requires SameIds(a, b) && ReferencesResolve(a, chs)
    ensures ReferencesResolve(b, chs)
  {
    forall i | 0 <= i < |chs| ensures HasSubmission(b, chs[i].submissionId) {
      assert HasSubmission(a, chs[i].submissionId);
      var j :| 0 <= j < |a| && a[j].submissionId == chs[i].submissionId;
      assert b[j].submissionId == chs[i].submissionId;
    }
  }

  ghost predicate SameReferences(a: seq<ChallengeState>, b: seq<ChallengeState>) {
    |a| == |b| && forall i | 0 <= i < |a| :: a[i].challengeId == b[i].challengeId && a[i].submissionId == b[i].submissionId
  }

  /** The parts of validity that speak of submissions and challenges only. */
  ghost predicate ValidLists(subs: seq<SubmissionState>, chs: seq<ChallengeState>) {
    && ValidSubmissions(subs)
    && ValidChallenges(chs)
    && UniqueSubmissions(subs)
    && UniqueChallenges(chs)
    && ReferencesResolve(subs, chs)
    && OneOpenPerSubmission(chs)
    && DepositsMatchStatus(chs)
    && RejectedHoldNoBond(subs)
  }

  lemma ValidStateParts(s: BountyState)
    ensures ValidState(s) <==> (
      && ValidTerms(s.terms)
      && ValidLists(s.submissions, s.challenges)
      && ValidCollections(s)
      && Distinct(s.payableIds)
      && PayableVerified(s.submissions, s.payableIds)
      && (!s.phase.Open? ==> NoOpenChallenge(s.challenges))
      && ValidPhase(s))
  {
  }

  /** An open state is valid exactly when its terms, lists and command ids are, it holds
      escrow, and nothing is payable or settled yet. */
  lemma OpenStateValid(s: BountyState)
    requires s.phase.Open?
    ensures ValidState(s) <==> (
      && ValidTerms(s.terms)
      && ValidLists(s.submissions, s.challenges)
      && (forall id | id in s.processed :: ValidId(id))
      && s.escrowLocked > 0 && s.payableIds == [] && s.settlementRef.None?)
  {
    ValidStateParts(s);
    hide ValidState, ValidLists, ValidTerms;
  }

  // ----- Handlers keep validity -----------------------------------------------------------------

  lemma OpenKeepsValidity(s: BountyState, c: MarketCommand, p: MarketPolicy)
    requires ValidState(s) && c.OpenBounty? && ValidId(c.commandId)
    requires DecideOpen(s, c, p).Committed()
    ensures ValidState(DecideOpen(s, c, p).next)
  {
    var next := DecideOpen(s, c, p).next;
    ValidStateParts(s);
    OpenStateValid(next);
    hide ValidState;
    assert next.submissions == [] && next.challenges == [];
  }

  lemma SubmitKeepsValidity(s: BountyState, c: MarketCommand, p: MarketPolicy)
    requires ValidState(s) && c.SubmitCandidate? && ValidId(c.commandId) && c.now >= 0
    requires DecideSubmit(s, c, p).Committed()
    ensures ValidState(DecideSubmit(s, c, p).next)
  {
    var next := DecideSubmit(s, c, p).next;
    OpenStateValid(s);
    OpenStateValid(next);
    AppendSubmission(s.submissions, NewSubmission(c), s.challenges);
    hide ValidState, ValidLists, ValidTerms;
  }

  lemma AppendSubmission(subs: seq<SubmissionState>, x: SubmissionState, chs: seq<ChallengeState>)
    requires ValidLists(subs, chs)
    requires ValidSubmission(x) && x.status.Pending?
    requires forall i | 0 <= i < |subs| :: subs[i].submissionId != x.submissionId
    ensures ValidLists(subs + [x], chs)
  {
    hide ValidSubmission, ValidChallenge;
    forall i | 0 <= i < |chs| ensures HasSubmission(subs + [x], chs[i].submissionId) {
      assert HasSubmission(subs, chs[i].submissionId);
      var j :| 0 <= j < |subs| && subs[j].submissionId == chs[i].submissionId;
      assert (subs + [x])[j] == subs[j];
    }
  }

  lemma ReplaceSubmission(subs: seq<SubmissionState>, target: SubmissionState, r: SubmissionState, chs: seq<ChallengeState>)
    requires ValidLists(subs, chs)
    requires target in subs && r.submissionId == target.submissionId
    requires ValidSubmission(r) && (r.status.SubmissionRejected? ==> r.bondLocked == 0)
    ensures ValidLists(PutSubmission(subs, r), chs)
  {
    hide ValidSubmission, ValidChallenge;
    PutSubmissionFacts(subs, target, r);
    SameIdsKeepReferences(subs, PutSubmission(subs, r), chs);
  }

  lemma VerifyKeepsValidity(s: BountyState, c: MarketCommand, p: MarketPolicy, evidence: seq<VerifierReceipt>)
    requires ValidState(s) && c.VerifySubmission? && ValidId(c.commandId)
    requires DecideVerify(s, c, p, evidence).Committed()
    ensures ValidState(DecideVerify(s, c, p, evidence).next)
  {
    var d := DecideVerify(s, c, p, evidence);
    var sub := VerifyCommits(s, c, p, evidence);
    OpenStateValid(s);
    OpenStateValid(d.next);
    var judged := sub.(status := if c.accepted then Verified else SubmissionRejected,
                       bondLocked := if c.accepted then sub.bondLocked else 0,
                       receiptRef := Some(c.receiptRef));
    ReplaceSubmission(s.submissions, sub, judged, s.challenges) by {
      assert ValidSubmission(sub);
    }
    hide ValidState, ValidLists, ValidTerms;
  }

  /** When a verification commits, and on what. */
  lemma VerifyCommits(s: BountyState, c: MarketCommand, p: MarketPolicy, evidence: seq<VerifierReceipt>)
    returns (sub: SubmissionState)
    requires c.VerifySubmission? && DecideVerify(s, c, p, evidence).Committed()
    ensures FindSubmission(s.submissions, c.submissionId) == Some(sub)
    ensures sub in s.submissions && sub.submissionId == c.submissionId && sub.status.Pending?
    ensures s.phase.Open? && ValidRef(c.receiptRef)
    ensures c.receiptRef.ReceiptRef? && Authentic(c.receiptRef.receipt)
    ensures c.receiptRef.receipt.statement == SubmissionStatementFor(s, c.accepted, p, sub)
    ensures KeyRef(c.receiptRef.receipt.publicKey) == sub.verifierRef == c.verifierRef
    ensures c.verifierRef in s.terms.acceptedVerifierRefs
    ensures c.now <= s.terms.deadline + s.terms.challengeWindow
    ensures DecideVerify(s, c, p, evidence) == ApplyVerdict(s, c, sub)
  {
    sub := FindSubmission(s.submissions, c.submissionId).value;
    hide ApplyVerdict, SubmissionStatementFor, Authentic;
  }

  /** When a resolution commits, and on what. */
  lemma ResolveCommits(s: BountyState, c: MarketCommand, p: MarketPolicy, evidence: seq<VerifierReceipt>)
    returns (ch: ChallengeState, sub: SubmissionState)
    requires c.ResolveChallenge? && DecideResolve(s, c, p, evidence).Committed()
    ensures FindChallenge(s.challenges, c.challengeId) == Some(ch)
    ensures FindSubmission(s.submissions, ch.submissionId) == Some(sub)
    ensures ch in s.challenges && ch.challengeId == c.challengeId && ch.status.ChallengeOpen?
    ensures sub in s.submissions && sub.submissionId == ch.submissionId
    ensures s.phase.Open? && ValidRef(c.receiptRef)
    ensures c.receiptRef.ReceiptRef? && Authentic(c.receiptRef.receipt)
    ensures c.receiptRef.receipt.statement == ChallengeStatementFor(s, c.upheld, p, ch)
    ensures KeyRef(c.receiptRef.receipt.publicKey) == c.verifierRef
    ensures c.verifierRef in s.terms.acceptedVerifierRefs
    ensures c.now <= s.terms.deadline + s.terms.challengeWindow || c.now <= ch.openedAt + p.resolutionSeconds
    ensures DecideResolve(s, c, p, evidence) == ApplyResolution(s, c, p, ch, sub)
  {
    ch := FindChallenge(s.challenges, c.challengeId).value;
    sub := FindSubmission(s.submissions, ch.submissionId).value;
    hide ApplyResolution, ChallengeStatementFor, Authentic;
  }

  lemma AppendChallenge(subs: seq<SubmissionState>, chs: seq<ChallengeState>, x: ChallengeState)
    requires ValidLists(subs, chs)
    requires ValidChallenge(x) && x.status.ChallengeOpen?
    requires HasSubmission(subs, x.submissionId) && !HasOpenChallenge(chs, x.submissionId)
    requires forall i | 0 <= i < |chs| :: chs[i].challengeId != x.challengeId
    ensures ValidLists(subs, chs + [x]) <==> x.depositLocked > 0
  {
    hide ValidSubmission, ValidChallenge;
    var out := chs + [x];
    assert out[|chs|] == x;
    assert forall i | 0 <= i < |chs| :: out[i] == chs[i];
  }

  /** Opening a challenge keeps the state valid exactly when it locks something. */
  lemma ChallengeKeepsValidity(s: BountyState, c: MarketCommand, p: MarketPolicy)
    requires ValidState(s) && c.OpenChallenge? && ValidId(c.commandId) && c.now >= 0
    requires DecideChallenge(s, c, p).Committed()
    ensures ValidState(DecideChallenge(s, c, p).next) <==> c.deposit > 0
  {
    var next := DecideChallenge(s, c, p).next;
    OpenStateValid(s);
    OpenStateValid(next);
    assert HasSubmission(s.submissions, c.submissionId);
    AppendChallenge(s.submissions, s.challenges, NewChallenge(c));
    hide ValidState, ValidLists, ValidTerms;
  }

  lemma ReplaceChallenge(subs: seq<SubmissionState>, chs: seq<ChallengeState>, target: ChallengeState, r: ChallengeState)
    requires ValidLists(subs, chs)
    requires target in chs && r.challengeId == target.challengeId && r.submissionId == target.submissionId
    requires ValidChallenge(r) && !r.status.ChallengeOpen? && r.depositLocked == 0
    ensures ValidLists(subs, PutChallenge(chs, r))
  {
    hide ValidSubmission, ValidChallenge;
    PutChallengeFacts(chs, target, r);
  }

  lemma ResolveKeepsValidity(s: BountyState, c: MarketCommand, p: MarketPolicy, evidence: seq<VerifierReceipt>)
    requires ValidState(s) && c.ResolveChallenge? && ValidId(c.commandId)
    requires DecideResolve(s, c, p, evidence).Committed()
    ensures ValidState(DecideResolve(s, c, p, evidence).next)
  {
    var d := DecideResolve(s, c, p, evidence);
    var ch, sub := ResolveCommits(s, c, p, evidence);
    OpenStateValid(s);
    OpenStateValid(d.next);
    var closed := ch.(status := if c.upheld then Upheld else ChallengeRejected,
                      depositLocked := 0, receiptRef := Some(c.receiptRef));
    ReplaceChallenge(s.submissions, s.challenges, ch, closed) by {
      assert ValidChallenge(ch);
    }
    if c.upheld {
      var struck := sub.(status := SubmissionRejected, bondLocked := 0);
      ReplaceSubmission(s.submissions, sub, struck, d.next.challenges) by {
        assert ValidSubmission(sub);
      }
    }
    hide ValidState, ValidLists, ValidTerms;
  }

  lemma CancelKeepsValidity(s: BountyState, c: MarketCommand)
    requires ValidState(s) && c.CancelBounty? && ValidId(c.commandId)
    requires DecideCancel(s, c).Committed()
    ensures ValidState(DecideCancel(s, c).next)
  {
    var next := DecideCancel(s, c).next;
    ValidStateParts(s);
    ValidStateParts(next);
    hide ValidState, ValidLists, ValidTerms;
  }

  // ----- Eligibility: the sorted list of verified ids --------------------------------------------

  lemma ArrivalOrderLinear()
    ensures LinearOrder(ArrivesBefore)
  {
    forall a: SubmissionState, b: SubmissionState ensures ArrivesBefore(a, b) || ArrivesBefore(b, a) {
      StringLeTotal(a.submissionId, b.submissionId);
    }
    forall a: SubmissionState, b: SubmissionState, c: SubmissionState | ArrivesBefore(a, b) && ArrivesBefore(b, c)
      ensures ArrivesBefore(a, c)
    {
      if a.submittedAt == b.submittedAt == c.submittedAt {
        StringLeTransitive(a.submissionId, b.submissionId, c.submissionId);
      }
    }
  }

  predicate IdsApart(a: SubmissionState, b: SubmissionState) { a.submissionId != b.submissionId }

  lemma SortFacts(subs: seq<SubmissionState>)
    requires UniqueSubmissions(subs)
    ensures var out := SortByArrival(subs);
      && (forall i, j | 0 <= i < j < |out| :: ArrivesBefore(out[i], out[j]))
      && UniqueSubmissions(out) && forall y :: y in out <==> y in subs
  {
    ArrivalOrderLinear();
    SortBySorted(subs, ArrivesBefore);
    SortByElements(subs, ArrivesBefore);
    SortByPairwise(subs, ArrivesBefore, IdsApart);
    var out := SortByArrival(subs);
    hide SortBy, ArrivesBefore;
    assert forall i, j | 0 <= i < j < |out| :: IdsApart(out[i], out[j]);
  }

  /** The k-th id is that of the verified submission at position `at[k]`, and positions increase. */
  ghost predicate Positions(at: seq<nat>, ids: seq<string>, subs: seq<SubmissionState>) {
    && |at| == |ids|
    && (forall k | 0 <= k < |at| :: at[k] < |subs| && subs[at[k]].submissionId == ids[k] && subs[at[k]].status.Verified?)
    && (forall j, k | 0 <= j < k < |at| :: at[j] < at[k])
  }

  lemma ShiftPositions(at: seq<nat>, ids: seq<string>, first: SubmissionState, tail: seq<SubmissionState>)
    returns (shifted: seq<nat>)
    requires Positions(at, ids, tail)
    ensures Positions(shifted, ids, [first] + tail) && forall k | 0 <= k < |shifted| :: shifted[k] > 0
  {
    shifted := seq(|at|, k requires 0 <= k < |at| => at[k] + 1);
  }

  lemma {:induction false} VerifiedIdsPositions(subs: seq<SubmissionState>) returns (at: seq<nat>)
    ensures Positions(at, VerifiedIds(subs), subs)
  {
    at := [];
    if subs != [] {
      var first, tail := subs[0], subs[1..];
      assert subs == [first] + tail;
      var rest := VerifiedIdsPositions(tail);
      at := ShiftPositions(rest, VerifiedIds(tail), first, tail);
      if first.status.Verified? { at := [0] + at; }
    }
  }

  lemma {:induction false} VerifiedIdListed(subs: seq<SubmissionState>, i: nat)
    requires i < |subs| && subs[i].status.Verified?
    ensures subs[i].submissionId in VerifiedIds(subs)
  {
    if i > 0 {
      assert subs[i] == subs[1..][i - 1];
      VerifiedIdListed(subs[1..], i - 1);
    }
  }

  /** `ids` are exactly the verified submissions, each once, in arrival order. */
  ghost predicate ExactlyEligible(ids: seq<string>, subs: seq<SubmissionState>) {
    && Distinct(ids)
    && (forall id :: id in ids <==> HasVerified(subs, id))
    && (forall j, k, a, b | 0 <= j < k < |ids| && 0 <= a < |subs| && 0 <= b < |subs|
          && subs[a].submissionId == ids[j] && subs[b].submissionId == ids[k] :: ArrivesBefore(subs[a], subs[b]))
  }

  /** A listed id names the submission that stands at its position in arrival order. */
  lemma EligibleOrder(subs: seq<SubmissionState>, j: nat, k: nat, a: nat, b: nat)
    requires UniqueSubmissions(subs) && a < |subs| && b < |subs|
    requires j < k < |EligibleIds(subs)|
    requires subs[a].submissionId == EligibleIds(subs)[j] && subs[b].submissionId == EligibleIds(subs)[k]
    ensures ArrivesBefore(subs[a], subs[b]) && subs[a] != subs[b]
  {
    var sorted := SortByArrival(subs);
    SortFacts(subs);
    var at := VerifiedIdsPositions(sorted);
    hide SortByArrival, VerifiedIds, ArrivesBefore, SortBy;
    assert sorted[at[j]] in subs && sorted[at[k]] in subs;
    assert subs[a] == sorted[at[j]] && subs[b] == sorted[at[k]];
  }

  lemma EligibleMembers(subs: seq<SubmissionState>)
    requires UniqueSubmissions(subs)
    ensures Distinct(EligibleIds(subs)) && forall id :: id in EligibleIds(subs) <==> HasVerified(subs, id)
  {
    var sorted, ids := SortByArrival(subs), EligibleIds(subs);
    SortFacts(subs);
    var at := VerifiedIdsPositions(sorted);
    hide SortByArrival, VerifiedIds, ArrivesBefore, SortBy;
    forall id ensures id in ids <==> HasVerified(subs, id) {
      if id in ids {
        var k :| 0 <= k < |ids| && ids[k] == id;
        assert sorted[at[k]] in subs;
      }
      if HasVerified(subs, id) {
        var i :| 0 <= i < |subs| && subs[i].submissionId == id && subs[i].status.Verified?;
        assert subs[i] in sorted;
        var k :| 0 <= k < |sorted| && sorted[k] == subs[i];
        VerifiedIdListed(sorted, k);
      }
    }
  }

  lemma EligibleIsExact(subs: seq<SubmissionState>)
    requires UniqueSubmissions(subs)
    ensures ExactlyEligible(EligibleIds(subs), subs)
  {
    hide EligibleIds, ArrivesBefore;
    EligibleMembers(subs);
    var ids := EligibleIds(subs);
    forall j, k, a, b | 0 <= j < k < |ids| && 0 <= a < |subs| && 0 <= b < |subs|
      && subs[a].submissionId == ids[j] && subs[b].submissionId == ids[k]
      ensures ArrivesBefore(subs[a], subs[b])
    {
      EligibleOrder(subs, j, k, a, b);
    }
  }

  lemma CloseOpenFacts(subs: seq<SubmissionState>, chs: seq<ChallengeState>)
    requires ValidLists(subs, chs)
    ensures ValidLists(subs, CloseOpen(chs)) && NoOpenChallenge(CloseOpen(chs))
  {
    var out := CloseOpen(chs);
    forall i | 0 <= i < |chs| ensures ValidChallenge(out[i]) { }
    hide ValidSubmission, ValidChallenge;
    assert SameReferences(chs, out);
    forall i | 0 <= i < |out| ensures HasSubmission(subs, out[i].submissionId) {
      assert HasSubmission(subs, chs[i].submissionId);
    }
  }

  lemma ReleaseFacts(subs: seq<SubmissionState>, chs: seq<ChallengeState>)
    requires ValidLists(subs, chs)
    ensures ValidLists(ReleaseBonds(subs), chs) && NoBonds(ReleaseBonds(subs))
    ensures forall id :: HasVerified(ReleaseBonds(subs), id) <==> HasVerified(subs, id)
  {
    var out := ReleaseBonds(subs);
    forall i | 0 <= i < |subs| ensures ValidSubmission(out[i]) { }
    hide ValidSubmission, ValidChallenge;
    SameIdsKeepReferences(subs, out, chs);
    forall id ensures HasVerified(out, id) <==> HasVerified(subs, id) {
      if HasVerified(subs, id) {
        var i :| 0 <= i < |subs| && subs[i].submissionId == id && subs[i].status.Verified?;
        assert out[i].submissionId == id;
      }
    }
  }

  lemma VerifiedIdsValid(subs: seq<SubmissionState>, id: string)
    requires ValidSubmissions(subs) && HasVerified(subs, id)
    ensures ValidId(id)
  {
    var i :| 0 <= i < |subs| && subs[i].submissionId == id && subs[i].status.Verified?;
    assert ValidSubmission(subs[i]);
  }

  lemma EligibleValid(subs: seq<SubmissionState>)
    requires ValidSubmissions(subs) && UniqueSubmissions(subs)
    ensures ValidIds(EligibleIds(subs)) && Distinct(EligibleIds(subs)) && PayableVerified(subs, EligibleIds(subs))
  {
    var eligible := EligibleIds(subs);
    EligibleIsExact(subs);
    hide EligibleIds, ValidId;
    forall k | 0 <= k < |eligible| ensures HasVerified(subs, eligible[k]) && ValidId(eligible[k]) {
      assert eligible[k] in eligible;
      VerifiedIdsValid(subs, eligible[k]);
    }
  }

  lemma PayableStateValid(s: BountyState, id: string)
    requires ValidState(s) && s.phase.Open? && ValidId(id) && EligibleIds(s.submissions) != []
    ensures ValidState(s.(phase := Payable, challenges := CloseOpen(s.challenges),
                          payableIds := EligibleIds(s.submissions), processed := s.processed + {id}))
  {
    var next := s.(phase := Payable, challenges := CloseOpen(s.challenges),
                   payableIds := EligibleIds(s.submissions), processed := s.processed + {id});
    OpenStateValid(s);
    ValidStateParts(next);
    CloseOpenFacts(s.submissions, s.challenges);
    EligibleValid(s.submissions);
    hide ValidState, ValidLists, ValidTerms, EligibleIds, CloseOpen, ValidId, NoBonds, NoOpenChallenge;
    hide ValidIds, Distinct, PayableVerified;
  }

  lemma ExpiredStateValid(s: BountyState, id: string)
    requires ValidState(s) && s.phase.Open? && ValidId(id)
    ensures ValidState(s.(phase := Expired, escrowLocked := 0, submissions := ReleaseBonds(s.submissions),
                          challenges := CloseOpen(s.challenges), processed := s.processed + {id}))
  {
    var next := s.(phase := Expired, escrowLocked := 0, submissions := ReleaseBonds(s.submissions),
                   challenges := CloseOpen(s.challenges), processed := s.processed + {id});
    OpenStateValid(s);
    ValidStateParts(next);
    CloseOpenFacts(s.submissions, s.challenges);
    ReleaseFacts(s.submissions, CloseOpen(s.challenges));
    hide ValidState, ValidLists, ValidTerms, CloseOpen, ReleaseBonds, ValidId, NoBonds, NoOpenChallenge;
  }

  lemma AdvanceKeepsValidity(s: BountyState, c: MarketCommand, p: MarketPolicy)
    requires ValidState(s) && c.AdvanceBounty? && ValidId(c.commandId)
    requires DecideAdvance(s, c, p).Committed()
    ensures ValidState(DecideAdvance(s, c, p).next)
  {
    if EligibleIds(s.submissions) != [] { PayableStateValid(s, c.commandId); }
    ExpiredStateValid(s, c.commandId);
    hide ValidState, EligibleIds, AdjudicationOpen, TimeoutEffects, BondRefunds, CloseOpen, ReleaseBonds;
  }

  lemma SettleKeepsValidity(s: BountyState, c: MarketCommand)
    requires ValidState(s) && c.SettleBounty? && ValidId(c.commandId)
    requires DecideSettle(s, c).Committed()
    ensures ValidState(DecideSettle(s, c).next)
  {
    var next := DecideSettle(s, c).next;
    ValidStateParts(s);
    ValidStateParts(next);
    ReleaseFacts(s.submissions, s.challenges);
    hide ValidState, ValidLists, ValidTerms, ReleaseBonds, HasVerified, ValidId, NoBonds, NoOpenChallenge;
    hide FirstPayoutFault, PayoutTotal, PayoutEffects, BondRefunds;
  }

  // ----- Validity, exactly -----------------------------------------------------------------------

  /** What a committed application has passed before reaching its handler. */
  lemma CommitPassesChecks(s: BountyState, c: MarketCommand, p: MarketPolicy, evidence: seq<VerifierReceipt>)
    requires ApplyMarketCommand(s, c, p, evidence).Committed()
    ensures ValidState(s) && ValidPolicy(p) && ValidEvidence(evidence)
    ensures ValidId(c.commandId) && c.now >= 0 && c.commandId !in s.processed
    ensures ApplyMarketCommand(s, c, p, evidence) == Dispatch(s, c, p, evidence)
  {
    hide ValidState, ValidEvidence, ValidPolicy, Dispatch;
  }

  /** A committed transition leaves a valid state, except that a challenge opened with a
      zero deposit, which a policy with a zero minimum lets through, leaves an invalid one. */
  lemma ValidityExact(s: BountyState, c: MarketCommand, p: MarketPolicy, evidence: seq<VerifierReceipt>)
    requires ApplyMarketCommand(s, c, p, evidence).Committed()
    ensures ValidState(ApplyMarketCommand(s, c, p, evidence).next) <==> !(c.OpenChallenge? && c.deposit == 0)
  {
    CommitPassesChecks(s, c, p, evidence);
    hide ApplyMarketCommand, ValidState, ValidEvidence, ValidPolicy, ValidId;
    match c {
      case OpenBounty(_, _, _, _) => OpenKeepsValidity(s, c, p);
      case SubmitCandidate(_, _, _, _, _, _, _, _, _) => SubmitKeepsValidity(s, c, p);
      case VerifySubmission(_, _, _, _, _, _) => VerifyKeepsValidity(s, c, p, evidence);
      case OpenChallenge(_, _, _, _, _, _, _, _) => ChallengeKeepsValidity(s, c, p);
      case ResolveChallenge(_, _, _, _, _, _) => ResolveKeepsValidity(s, c, p, evidence);
      case AdvanceBounty(_, _) => AdvanceKeepsValidity(s, c, p);
      case SettleBounty(_, _, _, _) => SettleKeepsValidity(s, c);
      case CancelBounty(_, _, _) => CancelKeepsValidity(s, c);
    }
  }

  /** Under a policy with a positive minimum deposit validity is inductive. */
  lemma ValidityInductive(s: BountyState, c: MarketCommand, p: MarketPolicy, evidence: seq<VerifierReceipt>)
    requires p.minimumChallengeDeposit > 0
    requires ApplyMarketCommand(s, c, p, evidence).Committed()
    ensures ValidState(ApplyMarketCommand(s, c, p, evidence).next)
  {
    ValidityExact(s, c, p, evidence);
    CommitPassesChecks(s, c, p, evidence);
    if c.OpenChallenge? {
      hide ValidState, ValidEvidence, ValidPolicy, ValidId, ApplyMarketCommand;
      assert DecideChallenge(s, c, p).Committed();
    }
  }
}
