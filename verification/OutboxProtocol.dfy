/** At-least-once delivery as a protocol: commits and any number of deliverers interleave,
    handlers fail, deliverers crash between calling a handler and recording the result. */
module OutboxProtocol {
  import opened Prelude
  import opened CanonicalJson
  import opened CommitRecords
  import opened AuthorityLog
  import opened Outbox
  import opened DeliveryJournal

  /** Where a deliverer stands. A snapshot is two reads: the log first, the journal later. */
  datatype Worker =
    | Idle
    | ReadLog(effects: seq<CommittedEffect>)
    | Delivering(todo: seq<CommittedEffect>)
    | Holding(todo: seq<CommittedEffect>, effect: CommittedEffect, handlerId: string, receipt: Json)

  /** The shared log and journal, the deliverers, and every handler call ever made. */
  datatype World = World(
    records: seq<LogRecord>,
    acks: seq<Ack>,
    workers: map<nat, Worker>,
    invoked: set<(Digest, string)>)

  datatype Step =
    | CommitBundleStep(bundle: CommitBundle)
    | LegacyAppendStep(core: LegacyRecord)
    | ReadLogStep(worker: nat)
    | ReadJournalStep(worker: nat, pending: seq<CommittedEffect>)
    | MissingHandlerStep(worker: nat)
    | InvokeStep(worker: nat, handlerId: string, outcome: Option<Json>)
    | AcknowledgeStep(worker: nat, deliveredAt: string)
    | CrashStep(worker: nat)

  const EMPTY_WORLD := World([], [], map[], {})

  function WorkerAt(w: World, k: nat): Worker { if k in w.workers then w.workers[k] else Idle }

  function WithWorker(w: World, k: nat, worker: Worker): World { w.(workers := w.workers[k := worker]) }

  /** What a bundle append leaves behind, whether or not it is accepted. */
  function AfterBundle(records: seq<LogRecord>, b: CommitBundle): seq<LogRecord> {
    if ValidBundle(b) && b.expectedHead == Head(records) && Verified(records) then records + [Commit(b.record)] else records
  }

  /** A legacy append by a caller whose core carries no hash of its own. */
  function AfterLegacy(records: seq<LogRecord>, core: LegacyRecord): seq<LogRecord> {
    if core.op != "" && core.createdAt != "" && core.recordHash.None? && Verified(records) && ValidRoot(Head(records))
    then records + [Legacy(Stamped(core, Head(records)))] else records
  }

  /** What recording a delivery leaves behind. */
  function AfterAck(acks: seq<Ack>, e: CommittedEffect, handlerId: string, deliveredAt: string, receipt: Json): seq<Ack> {
    if ChainOk(acks) && Recordable(acks, e, handlerId, deliveredAt, receipt) && !Acknowledged(acks, e.effectId)
    then acks + [PlannedAck(e, handlerId, deliveredAt, Freeze(receipt).value, AckHead(acks))] else acks
  }

  /** The list is what the source computes from these effects and acknowledgements, in
      whatever order its ids sort. */
  ghost predicate Snapshot(effects: seq<CommittedEffect>, acks: seq<Ack>, pending: seq<CommittedEffect>) {
    && NoFaults(effects, acks)
    && (forall e :: e in pending <==> e in effects && !Acknowledged(acks, e.effectId))
    && Distinct(pending)
  }

  /** One step; a step that is not enabled changes nothing. */
  ghost function Apply(w: World, step: Step): World {
    match step
    case CommitBundleStep(b) => w.(records := AfterBundle(w.records, b))
    case LegacyAppendStep(core) => w.(records := AfterLegacy(w.records, core))
    case ReadLogStep(k) => WithWorker(w, k, ReadLog(CommittedEffects(w.records)))
    case ReadJournalStep(k, pending) =>
      var worker := WorkerAt(w, k);
      if worker.ReadLog? && Snapshot(worker.effects, w.acks, pending) then WithWorker(w, k, Delivering(pending)) else w
    case MissingHandlerStep(k) =>
      var worker := WorkerAt(w, k);
      if worker.Delivering? && worker.todo != [] then WithWorker(w, k, Delivering(worker.todo[1..])) else w
    case InvokeStep(k, handlerId, outcome) =>
      var worker := WorkerAt(w, k);
      if worker.Delivering? && worker.todo != [] then
        var called := w.(invoked := w.invoked + {(worker.todo[0].effectId, handlerId)});
        WithWorker(called, k, if outcome.None? then Delivering(worker.todo[1..])
                              else Holding(worker.todo[1..], worker.todo[0], handlerId, outcome.value))
      else w
    case AcknowledgeStep(k, deliveredAt) =>
      var worker := WorkerAt(w, k);
      if worker.Holding? then
        WithWorker(w.(acks := AfterAck(w.acks, worker.effect, worker.handlerId, deliveredAt, worker.receipt)), k, Delivering(worker.todo))
      else w
    case CrashStep(k) => WithWorker(w, k, Idle)
  }

  ghost function Run(w: World, steps: seq<Step>): World {
    if steps == [] then w else Apply(Run(w, steps[..|steps| - 1]), steps[|steps| - 1])
  }

  // ----- The invariant --------------------------------------------------------------------------------------------------

  /** Each acknowledgement names an effect of the log, by id and commit, and follows a call of
      its handler. */
  ghost predicate AckJustified(w: World, a: Ack) {
    && KnownAs(CommittedEffects(w.records), a.core.effectId, a.core.commitRecordHash)
    && (a.core.effectId, a.core.handlerId) in w.invoked
  }

  ghost predicate WorkerSound(w: World, worker: Worker) {
    match worker
    case Idle => true
    case ReadLog(effects) => exists n | 0 <= n <= |w.records| :: effects == CommittedEffects(w.records[..n])
    case Delivering(todo) => forall e | e in todo :: e in CommittedEffects(w.records)
    case Holding(todo, effect, handlerId, _) =>
      && (forall e | e in todo :: e in CommittedEffects(w.records))
      && effect in CommittedEffects(w.records)
      && (effect.effectId, handlerId) in w.invoked
  }

  ghost predicate Sound(w: World) {
    && Verified(w.records)
    && ChainOk(w.acks)
    && (forall i | 0 <= i < |w.acks| :: AckJustified(w, w.acks[i]))
    && (forall k | k in w.workers :: WorkerSound(w, w.workers[k]))
  }

  /** Nothing recorded is ever taken back. */
  ghost predicate Grows(w: World, v: World) {
    w.records <= v.records && w.acks <= v.acks && w.invoked <= v.invoked
  }

  // ----- Growth keeps what was sound --------------------------------------------------------------------------------------

  lemma {:induction false} EffectsGrow(a: seq<LogRecord>, b: seq<LogRecord>)
    requires a <= b
    ensures CommittedEffects(a) <= CommittedEffects(b)
    decreases |b| - |a|
  {
    if |a| == |b| {
      assert a == b;
    } else {
      assert a <= b[..|b| - 1];
      EffectsGrow(a, b[..|b| - 1]);
    }
  }

  lemma JustifiedGrows(w: World, v: World, a: Ack)
    requires Grows(w, v) && AckJustified(w, a)
    ensures AckJustified(v, a)
  {
    EffectsGrow(w.records, v.records);
    var before, after := CommittedEffects(w.records), CommittedEffects(v.records);
    hide CommittedEffects;
    var j :| 0 <= j < |before| && before[j].effectId == a.core.effectId && before[j].commitRecordHash == a.core.commitRecordHash;
    assert after[j] == before[j];
  }

  lemma WorkerGrows(w: World, v: World, worker: Worker)
    requires Grows(w, v) && WorkerSound(w, worker)
    ensures WorkerSound(v, worker)
  {
    EffectsGrow(w.records, v.records);
    var before, after := CommittedEffects(w.records), CommittedEffects(v.records);
    hide CommittedEffects;
    assert forall e | e in before :: e in after by {
      forall e | e in before ensures e in after {
        var j :| 0 <= j < |before| && before[j] == e;
        assert after[j] == e;
      }
    }
    if worker.ReadLog? {
      var n :| 0 <= n <= |w.records| && worker.effects == CommittedEffects(w.records[..n]);
      assert v.records[..n] == w.records[..n];
    }
  }

  /** A step that only grows the shared parts keeps everyone sound who was. */
  lemma GrowthSound(w: World, v: World)
    requires Sound(w) && Grows(w, v) && Verified(v.records) && ChainOk(v.acks)
    requires forall i | |w.acks| <= i < |v.acks| :: AckJustified(v, v.acks[i])
    requires forall k | k in v.workers :: (k in w.workers && v.workers[k] == w.workers[k]) || WorkerSound(v, v.workers[k])
    ensures Sound(v)
  {
    hide Verified, ChainOk, AckJustified, WorkerSound;
    forall i | 0 <= i < |v.acks| ensures AckJustified(v, v.acks[i]) {
      if i < |w.acks| {
        assert v.acks[i] == w.acks[i];
        JustifiedGrows(w, v, w.acks[i]);
      }
    }
    forall k | k in v.workers ensures WorkerSound(v, v.workers[k]) {
      if k in w.workers && v.workers[k] == w.workers[k] { WorkerGrows(w, v, w.workers[k]); }
    }
  }

  // ----- Every step keeps the invariant ---------------------------------------------------------------------------------------

  lemma LogStepSound(w: World, records: seq<LogRecord>)
    requires Sound(w) && w.records <= records && Verified(records)
    ensures Sound(w.(records := records)) && Grows(w, w.(records := records))
  {
    hide Verified, ChainOk, AckJustified, WorkerSound;
    GrowthSound(w, w.(records := records));
  }

  lemma WorkerStepSound(w: World, invoked: set<(Digest, string)>, k: nat, worker: Worker)
    requires Sound(w) && w.invoked <= invoked && WorkerSound(w.(invoked := invoked), worker)
    ensures var v := WithWorker(w.(invoked := invoked), k, worker); Sound(v) && Grows(w, v)
  {
    hide Verified, ChainOk, AckJustified;
    var v := WithWorker(w.(invoked := invoked), k, worker);
    assert WorkerSound(v, worker);
    hide WorkerSound;
    GrowthSound(w, v);
  }

  lemma AfterAckFacts(acks: seq<Ack>, e: CommittedEffect, handlerId: string, deliveredAt: string, receipt: Json)
    requires ChainOk(acks)
    ensures var after := AfterAck(acks, e, handlerId, deliveredAt, receipt);
      && acks <= after && ChainOk(after)
      && forall i | |acks| <= i < |after| ::
           after[i].core.effectId == e.effectId && after[i].core.commitRecordHash == e.commitRecordHash && after[i].core.handlerId == handlerId
  {
    hide ChainOk, Recordable, Freeze;
    var after := AfterAck(acks, e, handlerId, deliveredAt, receipt);
    if after != acks { ChainAppend(acks, after[|acks|]); }
  }

  lemma AckStepSound(w: World, k: nat, deliveredAt: string)
    requires Sound(w) && WorkerAt(w, k).Holding?
    ensures Sound(Apply(w, AcknowledgeStep(k, deliveredAt))) && Grows(w, Apply(w, AcknowledgeStep(k, deliveredAt)))
  {
    hide Verified, ChainOk, AfterAck, CommittedEffects;
    var worker := WorkerAt(w, k);
    var v := Apply(w, AcknowledgeStep(k, deliveredAt));
    assert WorkerSound(w, worker);
    AfterAckFacts(w.acks, worker.effect, worker.handlerId, deliveredAt, worker.receipt);
    assert WorkerSound(v, Delivering(worker.todo));
    forall i | |w.acks| <= i < |v.acks| ensures AckJustified(v, v.acks[i]) { }
    hide WorkerSound, AckJustified;
    GrowthSound(w, v);
  }

  lemma InvokeStepSound(w: World, step: Step)
    requires Sound(w) && step.InvokeStep?
    requires WorkerAt(w, step.worker).Delivering? && WorkerAt(w, step.worker).todo != []
    ensures Sound(Apply(w, step)) && Grows(w, Apply(w, step))
  {
    hide Verified, ChainOk, CommittedEffects, AckJustified;
    var worker := WorkerAt(w, step.worker);
    assert WorkerSound(w, worker);
    var invoked := w.invoked + {(worker.todo[0].effectId, step.handlerId)};
    assert worker.todo[0] in worker.todo;
    var next := if step.outcome.None? then Delivering(worker.todo[1..])
                else Holding(worker.todo[1..], worker.todo[0], step.handlerId, step.outcome.value);
    assert WorkerSound(w.(invoked := invoked), next);
    WorkerStepSound(w, invoked, step.worker, next);
  }

  lemma ReadStepSound(w: World, step: Step)
    requires Sound(w) && (step.ReadLogStep? || step.ReadJournalStep? || step.MissingHandlerStep? || step.CrashStep?)
    ensures Sound(Apply(w, step)) && Grows(w, Apply(w, step))
  {
    hide Verified, ChainOk, AckJustified, Acknowledged, NoFaults;
    var worker := WorkerAt(w, step.worker);
    assert WorkerSound(w, worker);
    assert w == w.(invoked := w.invoked);
    match step
    case ReadLogStep(k) =>
      assert w.records[..|w.records|] == w.records;
      WorkerStepSound(w, w.invoked, k, ReadLog(CommittedEffects(w.records)));
    case ReadJournalStep(k, pending) =>
      if worker.ReadLog? && Snapshot(worker.effects, w.acks, pending) {
        ReadEffectsKnown(w, worker);
        WorkerStepSound(w, w.invoked, k, Delivering(pending));
      }
    case MissingHandlerStep(k) =>
      if worker.Delivering? && worker.todo != [] { WorkerStepSound(w, w.invoked, k, Delivering(worker.todo[1..])); }
    case CrashStep(k) => WorkerStepSound(w, w.invoked, k, Idle);
  }

  lemma ReadEffectsKnown(w: World, worker: Worker)
    requires worker.ReadLog? && WorkerSound(w, worker)
    ensures worker.effects <= CommittedEffects(w.records)
    ensures forall e | e in worker.effects :: e in CommittedEffects(w.records)
  {
    var n :| 0 <= n <= |w.records| && worker.effects == CommittedEffects(w.records[..n]);
    EffectsGrow(w.records[..n], w.records);
    var all := CommittedEffects(w.records);
    hide CommittedEffects;
    forall e | e in worker.effects ensures e in all {
      var j :| 0 <= j < |worker.effects| && worker.effects[j] == e;
      assert all[j] == e;
    }
  }

  lemma StepSound(w: World, step: Step)
    requires Sound(w)
    ensures Sound(Apply(w, step)) && Grows(w, Apply(w, step))
  {
    match step
    case CommitBundleStep(b) =>
      if AfterBundle(w.records, b) != w.records { BundleAppends(w.records, b); }
      hide ChainOk, AckJustified, WorkerSound, ValidBundle;
      LogStepSound(w, AfterBundle(w.records, b));
    case LegacyAppendStep(core) =>
      if AfterLegacy(w.records, core) != w.records { LegacyAppendExact(w.records, core); }
      hide ChainOk, AckJustified, WorkerSound, Stamped;
      LogStepSound(w, AfterLegacy(w.records, core));
    case AcknowledgeStep(k, deliveredAt) => if WorkerAt(w, k).Holding? { AckStepSound(w, k, deliveredAt); }
    case InvokeStep(k, _, _) =>
      if WorkerAt(w, k).Delivering? && WorkerAt(w, k).todo != [] { InvokeStepSound(w, step); }
    case _ => ReadStepSound(w, step);
  }

  /** Whatever the interleaving, the world stays sound and only grows. */
  lemma {:induction false} RunSound(steps: seq<Step>)
    ensures Sound(Run(EMPTY_WORLD, steps))
    ensures steps != [] ==> Grows(Run(EMPTY_WORLD, steps[..|steps| - 1]), Run(EMPTY_WORLD, steps))
  {
    if steps != [] {
      RunSound(steps[..|steps| - 1]);
      StepSound(Run(EMPTY_WORLD, steps[..|steps| - 1]), steps[|steps| - 1]);
      hide Apply, Sound, Grows;
    }
  }

  // ----- What soundness means -------------------------------------------------------------------------------------------------

  /** At every moment the committed effects split into pending and acknowledged: no snapshot
      of the present is refused, the ids of the one list it yields and the acknowledged ids
      are disjoint and together are the committed ids, and every acknowledgement names a
      committed effect, names it alone, and follows a call of its handler. */
  lemma CommittedIsPendingOrAcknowledged(steps: seq<Step>, le: (Digest, Digest) -> bool) returns (pending: seq<CommittedEffect>)
    requires LinearOrder(le) && forall x, y | le(x, y) && le(y, x) :: x == y
    ensures var w := Run(EMPTY_WORLD, steps);
      && NoFaults(CommittedEffects(w.records), w.acks)
      && IsPending(CommittedEffects(w.records), w.acks, le, pending)
      && (forall other | IsPending(CommittedEffects(w.records), w.acks, le, other) :: other == pending)
      && EffectIds(CommittedEffects(w.records)) == AckedIds(w.acks) + EffectIds(pending)
      && AckedIds(w.acks) !! EffectIds(pending)
      && (forall i | 0 <= i < |w.acks| :: AckJustified(w, w.acks[i]))
      && (forall i, j | 0 <= i < j < |w.acks| :: w.acks[i].core.effectId != w.acks[j].core.effectId)
  {
    hide Run, CommittedEffects, NoFaults, ChainOk, Verified, WorkerSound, IsPending, EffectIds, AckedIds, KnownAs, LinearOrder;
    RunSound(steps);
    var w := Run(EMPTY_WORLD, steps);
    var effects := CommittedEffects(w.records);
    SoundSnapshot(w, w.records);
    VerifiedEffects(w.records);
    forall i, j | 0 <= i < j < |w.acks| ensures w.acks[i].core.effectId != w.acks[j].core.effectId {
      OneAckPerEffect(w.acks, i, j);
    }
    forall i | 0 <= i < |w.acks| ensures Known(effects, w.acks[i].core.effectId) {
      assert AckJustified(w, w.acks[i]);
      JustifiedKnown(effects, w.acks[i]);
    }
    pending := PendingExists(effects, w.acks, le);
    forall other | IsPending(effects, w.acks, le, other) ensures other == pending {
      PendingUnique(effects, w.acks, le, other, pending);
    }
    IdsSplit(effects, w.acks, le, pending);
  }

  lemma JustifiedKnown(effects: seq<CommittedEffect>, a: Ack)
    requires KnownAs(effects, a.core.effectId, a.core.commitRecordHash)
    ensures Known(effects, a.core.effectId)
  {
  }

  /** A snapshot whose log was read earlier than its journal is refused exactly when some
      effect acknowledged in between was not yet in the log it read. */
  lemma SoundSnapshot(w: World, earlier: seq<LogRecord>)
    requires Sound(w) && earlier <= w.records
    ensures NoFaults(CommittedEffects(earlier), w.acks)
      <==> forall i | 0 <= i < |w.acks| :: Known(CommittedEffects(earlier), w.acks[i].core.effectId)
  {
    hide Sound, Verified, CommittedEffects, EffectFault, AckFault, Known;
    PrefixSound(w, earlier);
    var effects := CommittedEffects(earlier);
    forall i | 0 <= i < |w.acks| ensures AckFault(effects, w.acks, i).None? <==> Known(effects, w.acks[i].core.effectId) {
      EarlierAckFault(w, earlier, i);
    }
  }

  lemma PrefixSound(w: World, earlier: seq<LogRecord>)
    requires Sound(w) && earlier <= w.records
    ensures Verified(earlier)
    ensures forall k | 0 <= k < |CommittedEffects(earlier)| :: EffectFault(CommittedEffects(earlier), k).None?
  {
    hide CommittedEffects, EffectFault, ChainOk, AckJustified, WorkerSound;
    PrefixVerified(w.records, earlier);
    VerifiedEffects(earlier);
  }

  lemma EarlierAckFault(w: World, earlier: seq<LogRecord>, i: nat)
    requires Sound(w) && earlier <= w.records && i < |w.acks|
    ensures AckFault(CommittedEffects(earlier), w.acks, i).None? <==> Known(CommittedEffects(earlier), w.acks[i].core.effectId)
  {
    hide WorkerSound, CommittedEffects, Verified;
    VerifiedEffects(w.records);
    EffectsGrow(earlier, w.records);
    assert AckJustified(w, w.acks[i]) && ChainFault(w.acks, i).None?;
    var effects, all := CommittedEffects(earlier), CommittedEffects(w.records);
    hide ChainFault, EffectFault, KnownAs;
    if Known(effects, w.acks[i].core.effectId) { KnownFault(effects, all, w.acks, i); }
  }

  lemma PrefixVerified(records: seq<LogRecord>, earlier: seq<LogRecord>)
    requires Verified(records) && earlier <= records
    ensures Verified(earlier)
  {
    assert records[..|earlier|] == earlier;
    VerifiedPrefix(records, |earlier|);
  }

  lemma KnownFault(effects: seq<CommittedEffect>, all: seq<CommittedEffect>, acks: seq<Ack>, i: nat)
    requires effects <= all && i < |acks| && ChainFault(acks, i).None?
    requires forall k, j | 0 <= k < j < |all| :: all[k].effectId != all[j].effectId
    requires forall k | 0 <= k < |all| :: EffectFault(all, k).None?
    requires Known(effects, acks[i].core.effectId) && KnownAs(all, acks[i].core.effectId, acks[i].core.commitRecordHash)
    ensures AckFault(effects, acks, i).None?
  {
    var id := acks[i].core.effectId;
    var j :| 0 <= j < |effects| && effects[j].effectId == id;
    var k :| 0 <= k < |all| && all[k].effectId == id && all[k].commitRecordHash == acks[i].core.commitRecordHash;
    assert all[j] == effects[j];
    assert j == k;
    assert EffectFault(all, k).None?;
  }
}
