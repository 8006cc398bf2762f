/** The finite single-slot abstraction of the market: one submission slot, one challenge
    slot, a time class instead of a time, and a bit per command already processed. */
module FiniteState {
  import opened Prelude
  import opened MarketTypes

  datatype TimeClass = PreDeadline | AtDeadline | ChallengeWindow | PostChallengeWindow | PostResolutionDeadline

  datatype CommandKind =
    | OpenKind | SubmitKind | VerifyKind | ChallengeKind | ResolveKind | AdvanceKind | SettleKind | CancelKind

  const COMMAND_SLOTS: seq<CommandKind> :=
    [OpenKind, SubmitKind, VerifyKind, ChallengeKind, ResolveKind, AdvanceKind, SettleKind, CancelKind]

  const TIME_CLASSES: seq<TimeClass> :=
    [PreDeadline, AtDeadline, ChallengeWindow, PostChallengeWindow, PostResolutionDeadline]

  /** An empty slot has no status and no time class. */
  datatype AbstractState = AbstractState(
    phase: BountyPhase,
    escrow: nat,
    submissionStatus: Option<SubmissionStatus>,
    submissionTime: Option<TimeClass>,
    bond: nat,
    challengeStatus: Option<ChallengeStatus>,
    challengeTime: Option<TimeClass>,
    deposit: nat,
    payable: bool,
    settled: bool,
    mask: bv8)

  datatype AbstractCommand = AbstractCommand(kind: CommandKind, accepted: Option<bool>, upheld: Option<bool>)

  /** A time class is recorded exactly for an occupied slot. */
  predicate TemporallyConsistent(a: AbstractState) {
    && (a.submissionStatus.Some? <==> a.submissionTime.Some?)
    && (a.challengeStatus.Some? <==> a.challengeTime.Some?)
  }

  /** `accepted` belongs to verification and `upheld` to resolution, and to nothing else. */
  predicate WellFormedCommand(c: AbstractCommand) {
    && (c.kind.VerifyKind? <==> c.accepted.Some?)
    && (c.kind.ResolveKind? <==> c.upheld.Some?)
  }

  predicate WithinBounds(a: AbstractState, reward: nat, bond: nat, deposit: nat) {
    a.escrow <= reward && a.bond <= bond && a.deposit <= deposit
  }

  const INITIAL_ABSTRACT_STATE :=
    AbstractState(Draft, 0, None, None, 0, None, None, 0, false, false, 0)

  // ----- The bitset of processed commands -------------------------------------------------

  function SlotBit(k: CommandKind): bv8 {
    match k
    case OpenKind => 1
    case SubmitKind => 2
    case VerifyKind => 4
    case ChallengeKind => 8
    case ResolveKind => 16
    case AdvanceKind => 32
    case SettleKind => 64
    case CancelKind => 128
  }

  /** Each kind's bit is the one of its place among the slots. */
  lemma SlotBitPlace(n: nat)
    requires n < |COMMAND_SLOTS|
    ensures SlotBit(COMMAND_SLOTS[n]) == (1 as bv8) << n
  {
    match n {
      case 0 => {} case 1 => {} case 2 => {} case 3 => {} case 4 => {} case 5 => {} case 6 => {} case _ => {}
    }
  }

  predicate HasBit(mask: bv8, k: CommandKind) { mask & SlotBit(k) != 0 }

  /** Setting a bit sets that bit and no other. */
  lemma SetBit(mask: bv8, k: CommandKind, j: CommandKind)
    ensures HasBit(mask | SlotBit(k), j) <==> j == k || HasBit(mask, j)
  {
    match k
    case OpenKind => SetOne(mask, 1, j);
    case SubmitKind => SetOne(mask, 2, j);
    case VerifyKind => SetOne(mask, 4, j);
    case ChallengeKind => SetOne(mask, 8, j);
    case ResolveKind => SetOne(mask, 16, j);
    case AdvanceKind => SetOne(mask, 32, j);
    case SettleKind => SetOne(mask, 64, j);
    case CancelKind => SetOne(mask, 128, j);
  }

  lemma SetOne(mask: bv8, bit: bv8, j: CommandKind)
    requires bit == 1 || bit == 2 || bit == 4 || bit == 8 || bit == 16 || bit == 32 || bit == 64 || bit == 128
    ensures HasBit(mask | bit, j) <==> bit == SlotBit(j) || HasBit(mask, j)
  {
  }

  /** Eight bits determine the mask. */
  lemma MaskExtensional(a: bv8, b: bv8)
    requires forall k: CommandKind :: HasBit(a, k) <==> HasBit(b, k)
    ensures a == b
  {
    assert HasBit(a, OpenKind) <==> HasBit(b, OpenKind);
    assert HasBit(a, SubmitKind) <==> HasBit(b, SubmitKind);
    assert HasBit(a, VerifyKind) <==> HasBit(b, VerifyKind);
    assert HasBit(a, ChallengeKind) <==> HasBit(b, ChallengeKind);
    assert HasBit(a, ResolveKind) <==> HasBit(b, ResolveKind);
    assert HasBit(a, AdvanceKind) <==> HasBit(b, AdvanceKind);
    assert HasBit(a, SettleKind) <==> HasBit(b, SettleKind);
    assert HasBit(a, CancelKind) <==> HasBit(b, CancelKind);
  }

  /** The mask whose bits say which slots' command ids have been processed. */
  function MaskOf(processed: set<string>, ids: map<CommandKind, string>): (mask: bv8)
    ensures forall k: CommandKind :: HasBit(mask, k) <==> k in ids && ids[k] in processed
  {
    var mask := MaskUpTo(processed, ids, 8);
    assert forall k: CommandKind :: k in COMMAND_SLOTS[..8] by {
      forall k: CommandKind ensures k in COMMAND_SLOTS[..8] { SlotAt(k); }
    }
    mask
  }

  lemma SlotAt(k: CommandKind)
    ensures k in COMMAND_SLOTS
  {
    assert COMMAND_SLOTS[0] == OpenKind && COMMAND_SLOTS[1] == SubmitKind && COMMAND_SLOTS[2] == VerifyKind;
    assert COMMAND_SLOTS[3] == ChallengeKind && COMMAND_SLOTS[4] == ResolveKind && COMMAND_SLOTS[5] == AdvanceKind;
    assert COMMAND_SLOTS[6] == SettleKind && COMMAND_SLOTS[7] == CancelKind;
  }

  function MaskUpTo(processed: set<string>, ids: map<CommandKind, string>, n: nat): (mask: bv8)
    requires n <= 8
    ensures forall k: CommandKind :: HasBit(mask, k) <==> k in COMMAND_SLOTS[..n] && k in ids && ids[k] in processed
  {
    if n == 0 then 0
    else
      var mask := MaskUpTo(processed, ids, n - 1);
      var slot := COMMAND_SLOTS[n - 1];
      assert COMMAND_SLOTS[..n] == COMMAND_SLOTS[..n - 1] + [slot];
      if slot in ids && ids[slot] in processed then
        assert forall k: CommandKind :: HasBit(mask | SlotBit(slot), k) <==> k == slot || HasBit(mask, k) by {
          forall k: CommandKind ensures HasBit(mask | SlotBit(slot), k) <==> k == slot || HasBit(mask, k) { SetBit(mask, slot, k); }
        }
        mask | SlotBit(slot)
      else mask
  }

  /** The projection loop: one pass over the slots, setting a bit per processed id. */
  method ProjectMask(processed: set<string>, ids: map<CommandKind, string>) returns (mask: bv8)
    ensures mask == MaskOf(processed, ids)
  {
    mask := 0;
    for i := 0 to |COMMAND_SLOTS|
      invariant mask == MaskUpTo(processed, ids, i)
    {
      var slot := COMMAND_SLOTS[i];
      if slot in ids && ids[slot] in processed {
        mask := mask | SlotBit(slot);
      }
    }
  }
}
