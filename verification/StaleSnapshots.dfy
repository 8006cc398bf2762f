/** A run in which a delivery snapshot goes stale: the log is read, then an effect commits and
    is delivered, then the journal is read. */
module StaleSnapshots {
  import opened Prelude
  import opened CanonicalJson
  import opened CommitRecords
  import CommitPlans
  import opened AuthorityLog
  import opened Outbox
  import opened DeliveryJournal
  import opened OutboxProtocol

  lemma {:induction false} RunJoined(w: World, a: seq<Step>, b: seq<Step>)
    ensures Run(w, a + b) == Run(Run(w, a), b)
    decreases |b|
  {
    hide Apply;
    if b == [] {
      assert a + b == a;
    } else {
      RunJoined(w, a, b[..|b| - 1]);
      assert (a + b)[..|a + b| - 1] == a + b[..|b| - 1];
    }
  }

  lemma RunTwo(w: World, s: Step, t: Step)
    ensures Run(w, [s, t]) == Apply(Apply(w, s), t)
  {
    hide Apply;
    assert [s][..0] == [] && Run(w, []) == w;
    assert Run(w, [s]) == Apply(w, s);
    assert [s, t][..1] == [s];
  }

  /** Plan a commit of one effect on the empty log. */
  lemma OneEffectBundle() returns (b: CommitBundle, e: CommittedEffect)
    ensures AfterBundle([], b) == [Commit(b.record)] && Verified([Commit(b.record)])
    ensures CommittedEffects([Commit(b.record)]) == [e]
    ensures ValidDigest(e.effectId) && ValidDigest(e.commitRecordHash)
  {
    hide ValidCommitRecord;
    var i := PlanInput(NO_ROOT, "t", [], [], [], [Intent("k", JObject([]))], NO_ROOT, "p", "c");
    assert Freeze(JObject([])) == Some(JObject([]));
    CommitPlans.PlannedExactly(i);
    assert PlanCommit(i).Planned? by { hide PlanCommit; }
    PlannedIsValid(i);
    b := PlanCommit(i).bundle;
    hide PlanCommit;
    assert b.outbox == b.record.core.outbox;
    hide ValidBundle;
    BundleAppends([], b);
    var records := [Commit(b.record)];
    assert [] + records == records && Head([]) == NO_ROOT && Verified([]);
    assert AfterBundle([], b) == records by { hide Verified; }
    hide AfterBundle, Verified;
    OneRecord(b.record);
    e := EffectsOf(Commit(b.record))[0];
    VerifiedEffects(records);
    assert EffectFault(CommittedEffects(records), 0).None?;
  }

  lemma OneRecord(r: CommitRecord)
    requires |r.core.outbox| == 1
    ensures CommittedEffects([Commit(r)]) == [EffectsOf(Commit(r))[0]]
  {
    assert [Commit(r)][..0] == [];
  }

  /** Worker 0 has read the empty log; everything else is as given. */
  function StaleWorld(records: seq<LogRecord>, acks: seq<Ack>, second: Worker, invoked: set<(Digest, string)>): World {
    World(records, acks, map[0 := ReadLog([]), 1 := second], invoked)
  }

  lemma SnapshotOfOne(records: seq<LogRecord>, e: CommittedEffect)
    requires CommittedEffects(records) == [e] && Verified(records)
    ensures Snapshot([e], [], [e])
  {
    hide CommittedEffects, Verified, EffectFault;
    VerifiedEffects(records);
  }

  lemma ReadsLog(w: World, e: CommittedEffect)
    requires CommittedEffects(w.records) == [e]
    ensures Apply(w, ReadLogStep(1)) == WithWorker(w, 1, ReadLog([e]))
  {
    hide CommittedEffects;
  }

  lemma ReadsJournal(w: World, e: CommittedEffect)
    requires WorkerAt(w, 1) == ReadLog([e]) && Snapshot([e], w.acks, [e])
    ensures Apply(w, ReadJournalStep(1, [e])) == WithWorker(w, 1, Delivering([e]))
  {
    hide Snapshot;
  }

  lemma ReadsBoth(records: seq<LogRecord>, e: CommittedEffect)
    requires CommittedEffects(records) == [e] && Verified(records)
    ensures var w := World(records, [], map[0 := ReadLog([])], {});
      Run(w, [ReadLogStep(1), ReadJournalStep(1, [e])]) == StaleWorld(records, [], Delivering([e]), {})
  {
    hide Run, CommittedEffects, Verified, Snapshot, Apply;
    var w := World(records, [], map[0 := ReadLog([])], {});
    RunTwo(w, ReadLogStep(1), ReadJournalStep(1, [e]));
    ReadsLog(w, e);
    SnapshotOfOne(records, e);
    ReadsJournal(WithWorker(w, 1, ReadLog([e])), e);
    WrittenTwice(w, ReadLog([e]), Delivering([e]));
    assert map[0 := ReadLog([])][1 := Delivering([e])] == map[0 := ReadLog([]), 1 := Delivering([e])];
  }

  lemma WrittenTwice(w: World, a: Worker, b: Worker)
    ensures WithWorker(WithWorker(w, 1, a), 1, b) == WithWorker(w, 1, b)
  {
    assert w.workers[1 := a][1 := b] == w.workers[1 := b];
  }

  lemma FirstAck(e: CommittedEffect)
    requires ValidDigest(e.effectId) && ValidDigest(e.commitRecordHash)
    ensures AfterAck([], e, "h", "t", JObject([])) == [PlannedAck(e, "h", "t", JObject([]), NO_ACK)]
  {
    assert Freeze(JObject([])) == Some(JObject([]));
    hide Freeze, ValidDigest, Recordable;
    RecordableExactly([], e, "h", "t", JObject([]));
  }

  lemma Delivers(records: seq<LogRecord>, e: CommittedEffect) returns (ack: Ack)
    requires ValidDigest(e.effectId) && ValidDigest(e.commitRecordHash)
    ensures ack.core.effectId == e.effectId
    ensures Run(StaleWorld(records, [], Delivering([e]), {}), [InvokeStep(1, "h", Some(JObject([]))), AcknowledgeStep(1, "t")])
      == StaleWorld(records, [ack], Delivering([]), {(e.effectId, "h")})
  {
    var receipt := JObject([]);
    var w, v := StaleWorld(records, [], Delivering([e]), {}), StaleWorld(records, [], Holding([], e, "h", receipt), {(e.effectId, "h")});
    hide Run, AfterAck;
    ack := PlannedAck(e, "h", "t", receipt, NO_ACK);
    FirstAck(e);
    RunTwo(w, InvokeStep(1, "h", Some(receipt)), AcknowledgeStep(1, "t"));
    assert [e][1..] == [] && {} + {(e.effectId, "h")} == {(e.effectId, "h")};
    assert w.workers[1 := Holding([], e, "h", receipt)] == v.workers;
    assert Apply(w, InvokeStep(1, "h", Some(receipt))) == v;
    assert v.workers[1 := Delivering([])] == map[0 := ReadLog([]), 1 := Delivering([])];
    assert Apply(v, AcknowledgeStep(1, "t")) == StaleWorld(records, [ack], Delivering([]), {(e.effectId, "h")});
  }

  lemma CommitsOne(b: CommitBundle)
    requires AfterBundle([], b) == [Commit(b.record)]
    ensures Run(EMPTY_WORLD, [ReadLogStep(0), CommitBundleStep(b)]) == World([Commit(b.record)], [], map[0 := ReadLog([])], {})
  {
    assert CommittedEffects([]) == [];
    hide Run, AfterBundle, AfterLegacy, AfterAck, CommittedEffects, Snapshot, Verified, ValidBundle;
    RunTwo(EMPTY_WORLD, ReadLogStep(0), CommitBundleStep(b));
    assert EMPTY_WORLD.workers[0 := ReadLog([])] == map[0 := ReadLog([])];
  }

  /** Worker 0 reads the log; an effect commits; worker 1 delivers it. Then worker 0 can take
      no snapshot at all, although one of the present would be sound. */
  lemma StaleSnapshotExample() returns (steps: seq<Step>)
    ensures var w := Run(EMPTY_WORLD, steps);
      && WorkerAt(w, 0) == ReadLog([]) && |CommittedEffects(w.records)| == |w.acks| == 1
      && !NoFaults([], w.acks) && NoFaults(CommittedEffects(w.records), w.acks)
      && forall pending :: Apply(w, ReadJournalStep(0, pending)) == w
  {
    var b, e := OneEffectBundle();
    hide Run, CommittedEffects, AfterBundle, Verified, ValidDigest, Apply, NoFaults;
    var records := [Commit(b.record)];
    CommitsOne(b);
    ReadsBoth(records, e);
    var ack := Delivers(records, e);
    var first, second := [ReadLogStep(0), CommitBundleStep(b)], [ReadLogStep(1), ReadJournalStep(1, [e])];
    var third := [InvokeStep(1, "h", Some(JObject([]))), AcknowledgeStep(1, "t")];
    RunJoined(EMPTY_WORLD, first, second);
    RunJoined(EMPTY_WORLD, first + second, third);
    steps := first + second + third;
    RunSound(steps);
    var w := Run(EMPTY_WORLD, steps);
    assert w == StaleWorld(records, [ack], Delivering([]), {(e.effectId, "h")});
    CommittedNow(w, e, ack);
    forall pending ensures Apply(w, ReadJournalStep(0, pending)) == w { Refused(w, pending); }
  }

  lemma CommittedNow(w: World, e: CommittedEffect, ack: Ack)
    requires Sound(w) && CommittedEffects(w.records) == [e] && w.acks == [ack] && ack.core.effectId == e.effectId
    ensures NoFaults(CommittedEffects(w.records), w.acks) && !NoFaults([], w.acks)
  {
    hide Sound, CommittedEffects;
    SoundSnapshot(w, w.records);
    assert CommittedEffects(w.records)[0].effectId == w.acks[0].core.effectId;
    assert Known(CommittedEffects(w.records), w.acks[0].core.effectId);
    assert AckFault([], w.acks, 0).Some?;
  }

  lemma Refused(w: World, pending: seq<CommittedEffect>)
    requires WorkerAt(w, 0) == ReadLog([]) && !NoFaults([], w.acks)
    ensures Apply(w, ReadJournalStep(0, pending)) == w
  {
    hide NoFaults;
    var worker := WorkerAt(w, 0);
    assert worker.ReadLog? && worker.effects == [];
    assert !Snapshot(worker.effects, w.acks, pending);
    hide Snapshot, WorkerAt;
  }
}
