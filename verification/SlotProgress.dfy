/**
 What runs of one slot can still reach: tombstones that no operation can empty, the
 cleanup that needs no reboot, and retries long after the first call.
 */
module SlotProgress {
  import opened Common
  import opened SlotRecords
  import opened SlotEvents
  import opened SlotRuns

  // ---- Stuck tombstones are reachable ----

  const GENESIS: SlotRecord := SlotRecord(SLOT_SCHEMA_VERSION, 7, 0, None, None, Vacant)
  const OWNER: OwnerTag := OwnerTag(1, 0, RunnerRole)
  const CONTROL_ROOT: DirectoryIdentity := DirectoryIdentity(1, 1, 1, 1)

  /** A reservation that begins creation with a leaf of 214 bytes and is given up. */
  function LongLeafEvents(): seq<SlotEvent> {
    [Issue(Some(OWNER), 9, 0), Reserve(BeginCreation(CONTROL_ROOT, seq(214, _ => 97))), Entomb(5)]
  }

  /** A reservation that is given up between the intent and the receipt of its runner. */
  function PendingRunnerEvents(): seq<SlotEvent> {
    [Issue(Some(OWNER), 9, 0), Reserve(BeginCreation(CONTROL_ROOT, [97])), Reserve(FinishDirectory(CONTROL_ROOT)),
     Reserve(BeginRunner), Entomb(5)]
  }

  lemma AfterAllStep(r: SlotRecord, ev: SlotEvent, rest: seq<SlotEvent>)
    ensures AfterAll(r, [ev] + rest) == AfterAll(After(r, ev), rest)
  {
    assert ([ev] + rest)[1..] == rest;
  }

  lemma AfterNothing(r: SlotRecord)
    ensures AfterAll(r, []) == r
  {
  }

  lemma {:induction false} AfterAllConcat(r: SlotRecord, a: seq<SlotEvent>, b: seq<SlotEvent>)
    ensures AfterAll(r, a + b) == AfterAll(AfterAll(r, a), b)
    decreases |a|
  {
    if a == [] {
      assert a + b == b;
    } else {
      AfterAllConcat(After(r, a[0]), a[1..], b);
      assert (a + b)[1..] == a[1..] + b;
    }
  }

  /** The tombstone that a reservation given up with binding `b` leaves in the slot. */
  function Abandoned(b: Binding): SlotRecord {
    SlotRecord(SLOT_SCHEMA_VERSION, 7, 1, Some(OWNER), Some(b), ResolvedTombstone(9, None, 5))
  }

  function Issued(): SlotRecord {
    SlotRecord(SLOT_SCHEMA_VERSION, 7, 1, Some(OWNER), None, IntentDurable(9, 0))
  }

  lemma CreationBegins(leaf: seq<Byte>)
    requires ValidLeaf(leaf)
    ensures After(GENESIS, Issue(Some(OWNER), 9, 0)) == Issued()
    ensures After(Issued(), Reserve(BeginCreation(CONTROL_ROOT, leaf))) == Rebind(Issued(), FreshBinding(9, CONTROL_ROOT, leaf))
  {
  }

  /** From genesis, a leaf of 214 bytes leads to a tombstone that no operation ever empties. */
  lemma LongLeafGetsStuck()
    ensures SoundRecord(GENESIS, 7)
    ensures var r := AfterAll(GENESIS, LongLeafEvents()); SoundRecord(r, 7) && Stuck(r)
    ensures forall more :: !AfterAll(GENESIS, LongLeafEvents() + more).state.Vacant?
  {
    var leaf: seq<Byte> := seq(214, _ => 97);
    var es := LongLeafEvents();
    CreationBegins(leaf);
    var bound := Rebind(Issued(), FreshBinding(9, CONTROL_ROOT, leaf));
    var r := Abandoned(FreshBinding(9, CONTROL_ROOT, leaf));
    assert After(bound, es[2]) == r;
    assert es == [es[0]] + ([es[1]] + ([es[2]] + []));
    AfterAllStep(GENESIS, es[0], [es[1]] + ([es[2]] + []));
    AfterAllStep(Issued(), es[1], [es[2]] + []);
    AfterAllStep(bound, es[2], []);
    AfterNothing(r);
    StuckOnceStuck(es, r);
  }

  /** The same reservation as far as its pending runner. */
  function PendingRunner(): Binding {
    FreshBinding(9, CONTROL_ROOT, [97]).(privateDirectory := Some(CONTROL_ROOT), runnerCreatePending := true)
  }

  lemma RunnerBegins()
    ensures var b1 := FreshBinding(9, CONTROL_ROOT, [97]);
      var b2 := b1.(privateDirectory := Some(CONTROL_ROOT));
      && After(Rebind(Issued(), b1), Reserve(FinishDirectory(CONTROL_ROOT))) == Rebind(Issued(), b2)
      && After(Rebind(Issued(), b2), Reserve(BeginRunner)) == Rebind(Issued(), PendingRunner())
      && After(Rebind(Issued(), PendingRunner()), Entomb(5)) == Abandoned(PendingRunner())
      && SoundRecord(Abandoned(PendingRunner()), 7) && Stuck(Abandoned(PendingRunner()))
  {
    assert ValidLeaf([97]);
  }

  /** From genesis, giving up between an intent and its receipt leads to such a tombstone as well. */
  lemma PendingCreationGetsStuck()
    ensures var r := AfterAll(GENESIS, PendingRunnerEvents()); SoundRecord(r, 7) && Stuck(r)
    ensures forall more :: !AfterAll(GENESIS, PendingRunnerEvents() + more).state.Vacant?
  {
    hide After;
    hide AfterAll;
    hide SoundRecord;
    hide Stuck;
    assert ValidLeaf([97]);
    CreationBegins([97]);
    RunnerBegins();
    var es := PendingRunnerEvents();
    var b1 := FreshBinding(9, CONTROL_ROOT, [97]);
    var b2 := b1.(privateDirectory := Some(CONTROL_ROOT));
    var r1, r2, r3, r := Rebind(Issued(), b1), Rebind(Issued(), b2), Rebind(Issued(), PendingRunner()), Abandoned(PendingRunner());
    var e4 := [es[4]] + [];
    var e3 := [es[3]] + e4;
    var e2 := [es[2]] + e3;
    var e1 := [es[1]] + e2;
    assert es == [es[0]] + e1;
    AfterAllStep(GENESIS, es[0], e1);
    AfterAllStep(Issued(), es[1], e2);
    AfterAllStep(r1, es[2], e3);
    AfterAllStep(r2, es[3], e4);
    AfterAllStep(r3, es[4], []);
    AfterNothing(r);
    StuckOnceStuck(es, r);
  }

  lemma StuckOnceStuck(es: seq<SlotEvent>, r: SlotRecord)
    requires AfterAll(GENESIS, es) == r && SoundRecord(r, 7) && Stuck(r)
    ensures forall more :: !AfterAll(GENESIS, es + more).state.Vacant?
  {
    hide SoundRecord;
    hide AfterAll;
    forall more
      ensures !AfterAll(GENESIS, es + more).state.Vacant?
    {
      AfterAllConcat(GENESIS, es, more);
      StuckForever(r, 7, more);
    }
  }

  // ---- Cleanup on the same boot ----

  /** The next link of the receipt chain; past its end once the cleanup is completed. */
  function Place(b: Binding): (k: nat)
    ensures k <= 9
  {
    if b.completed then 9 else Progress(b)
  }

  /** A bound tombstone of generation `g` with the artifact of `b0`, ready for the next link. */
  predicate OnTheChain(r: SlotRecord, slot: nat, b0: Binding) {
    && SoundRecord(r, slot) && r.state.ResolvedTombstone? && r.binding.Some?
    && Cleanable(r.binding.value) && r.binding.value.SameArtifact(b0) && !r.binding.value.socketRetirePending
  }

  /** One link further, with everything else as it was. */
  predicate Linked(r: SlotRecord, b0: Binding, n: SlotRecord)
    requires r.binding.Some?
  {
    && n.binding.Some? && Cleanable(n.binding.value) && n.binding.value.SameArtifact(b0)
    && !n.binding.value.socketRetirePending && Place(n.binding.value) == Place(r.binding.value) + 1
    && n == r.(binding := n.binding)
  }

  /** The quarantine can begin. */
  lemma FirstLinkWrites(r: SlotRecord, slot: nat, b0: Binding)
    requires OnTheChain(r, slot, b0) && r.binding.value.quarantine.None?
    ensures Place(r.binding.value) == 0
    ensures ProposeArtifact(r, r.generation, b0, BeginCleanup).Write?
    ensures Linked(r, b0, ProposeArtifact(r, r.generation, b0, BeginCleanup).next)
  {
    hide ValidDirectory;
    hide ValidArtifact;
    QuarantineFits(r.binding.value);
  }

  /** Inside the quarantine the next unlink intent writes. */
  lemma IntentLinkWrites(r: SlotRecord, slot: nat, b0: Binding)
    requires OnTheChain(r, slot, b0) && r.binding.value.quarantine.Some? && !r.binding.value.completed
    requires r.binding.value.unlinkPending.None?
    ensures 1 <= Place(r.binding.value) <= 8
    ensures ProposeArtifact(r, r.generation, b0, RECEIPT_CHAIN[Place(r.binding.value)]).Write?
    ensures Linked(r, b0, ProposeArtifact(r, r.generation, b0, RECEIPT_CHAIN[Place(r.binding.value)]).next)
  {
    hide ValidDirectory;
    hide ValidArtifact;
    hide ValidLeaf;
    hide QuarantineName;
  }

  /** After an intent its receipt writes; the last one completes the cleanup. */
  lemma ReceiptLinkWrites(r: SlotRecord, slot: nat, b0: Binding)
    requires OnTheChain(r, slot, b0) && r.binding.value.quarantine.Some? && !r.binding.value.completed
    requires r.binding.value.unlinkPending.Some?
    ensures 1 <= Place(r.binding.value) <= 8
    ensures ProposeArtifact(r, r.generation, b0, RECEIPT_CHAIN[Place(r.binding.value)]).Write?
    ensures Linked(r, b0, ProposeArtifact(r, r.generation, b0, RECEIPT_CHAIN[Place(r.binding.value)]).next)
  {
    hide ValidDirectory;
    hide ValidArtifact;
    hide ValidLeaf;
    hide QuarantineName;
  }

  /** The next operation of the chain always writes, and takes the binding exactly one link further. */
  lemma NextLinkWrites(r: SlotRecord, slot: nat, b0: Binding)
    requires OnTheChain(r, slot, b0) && Place(r.binding.value) < 9
    ensures var n := After(r, Artifact(r.generation, b0, RECEIPT_CHAIN[Place(r.binding.value)]));
      && OnTheChain(n, slot, b0) && Place(n.binding.value) == Place(r.binding.value) + 1
      && n == r.(binding := n.binding)
  {
    hide ProposeArtifact;
    hide SoundRecord;
    hide Cleanable;
    hide Progress;
    var b := r.binding.value;
    if b.quarantine.None? {
      CompletedIsQuarantined(r, slot);
      FirstLinkWrites(r, slot, b0);
    } else if b.unlinkPending.None? {
      IntentLinkWrites(r, slot, b0);
    } else {
      ReceiptLinkWrites(r, slot, b0);
    }
    CleanupOpIsAccepted(r, slot, r.generation, b0, RECEIPT_CHAIN[Place(b)]);
  }

  lemma CompletedIsQuarantined(r: SlotRecord, slot: nat)
    requires SoundRecord(r, slot) && r.binding.Some?
    ensures r.binding.value.completed ==> r.binding.value.quarantine.Some?
  {
  }

  /** The rest of the chain from link `k`, the acknowledgement and the recycling. */
  function ChainEvents(g: nat, b0: Binding, k: nat, now: nat): seq<SlotEvent>
    requires k <= 9
    decreases 9 - k
  {
    if k == 9 then [Artifact(g, b0, Acknowledge)] + ([Recycle(now)] + [])
    else [Artifact(g, b0, RECEIPT_CHAIN[k])] + ChainEvents(g, b0, k + 1, now)
  }

  lemma CompletedVacates(r: SlotRecord, slot: nat, b0: Binding, now: nat)
    requires OnTheChain(r, slot, b0) && r.binding.value.completed
    requires now >= r.state.resolvedSecs + TOMBSTONE_RETENTION_SECS
    ensures AfterAll(r, ChainEvents(r.generation, b0, 9, now)) == Recycled(r.(binding := None))
  {
    var r1 := r.(binding := None);
    assert After(r, Artifact(r.generation, b0, Acknowledge)) == r1;
    assert After(r1, Recycle(now)) == Recycled(r1);
    AfterAllStep(r, Artifact(r.generation, b0, Acknowledge), [Recycle(now)] + []);
    AfterAllStep(r1, Recycle(now), []);
    AfterNothing(Recycled(r1));
  }

  lemma {:induction false} ChainVacates(r: SlotRecord, slot: nat, b0: Binding, now: nat)
    requires OnTheChain(r, slot, b0) && now >= r.state.resolvedSecs + TOMBSTONE_RETENTION_SECS
    ensures AfterAll(r, ChainEvents(r.generation, b0, Place(r.binding.value), now)) == Recycled(r.(binding := None))
    decreases 9 - Place(r.binding.value)
  {
    hide SoundRecord;
    hide Cleanable;
    hide After;
    hide AfterAll;
    var k := Place(r.binding.value);
    if k == 9 {
      CompletedVacates(r, slot, b0, now);
    } else {
      var ev := Artifact(r.generation, b0, RECEIPT_CHAIN[k]);
      NextLinkWrites(r, slot, b0);
      var n := After(r, ev);
      ChainVacates(n, slot, b0, now);
      AfterAllStep(r, ev, ChainEvents(r.generation, b0, k + 1, now));
      assert Recycled(n.(binding := None)) == Recycled(r.(binding := None));
    }
  }

  predicate IsAbsenceProof(ev: SlotEvent) {
    ev.Artifact? && (ev.op.OldBootAbsence? || ev.op.NeverCreatedAbsence?)
  }

  predicate WithoutAbsence(events: seq<SlotEvent>) {
    forall i :: 0 <= i < |events| ==> !IsAbsenceProof(events[i])
  }

  lemma {:induction false} ChainHasNoAbsence(g: nat, b0: Binding, k: nat, now: nat)
    requires k <= 9
    ensures WithoutAbsence(ChainEvents(g, b0, k, now))
    decreases 9 - k
  {
    if k < 9 {
      ChainHasNoAbsence(g, b0, k + 1, now);
      assert !RECEIPT_CHAIN[k].OldBootAbsence? && !RECEIPT_CHAIN[k].NeverCreatedAbsence?;
    }
  }

  /** A retirement left pending is finished first. */
  lemma RetirementFinishes(r: SlotRecord, slot: nat)
    requires SoundRecord(r, slot) && r.state.ResolvedTombstone? && r.binding.Some?
    requires Cleanable(r.binding.value) && r.binding.value.socketRetirePending
    ensures var b := r.binding.value;
      var n := After(r, Artifact(r.generation, b, FinishSocketRetirement));
      OnTheChain(n, slot, b) && n == r.(binding := n.binding)
  {
    var b := r.binding.value;
    OtherArtifactOpIsAccepted(r, slot, r.generation, b, FinishSocketRetirement);
  }

  /**
   No reboot is needed: a bound tombstone can be brought back to Vacant without any
   proof of absence, by finishing a pending retirement, the missing links of the
   receipt chain, the acknowledgement and the recycling, exactly when it is cleanable.
   */
  lemma TombstoneVacatesOnTheSameBoot(r: SlotRecord, slot: nat)
    requires SoundRecord(r, slot) && r.state.ResolvedTombstone? && r.binding.Some?
    ensures (exists events :: WithoutAbsence(events) && AfterAll(r, events).state.Vacant?) <==> Cleanable(r.binding.value)
  {
    hide SoundRecord;
    hide After;
    hide AfterAll;
    var b, g := r.binding.value, r.generation;
    var now := r.state.resolvedSecs + TOMBSTONE_RETENTION_SECS;
    if !Cleanable(b) {
      TombstoneVacatesExactly(r, slot);
    } else if b.socketRetirePending {
      RetirementFinishes(r, slot);
      var ev := Artifact(g, b, FinishSocketRetirement);
      var n := After(r, ev);
      var chain := ChainEvents(g, b, Place(n.binding.value), now);
      ChainVacates(n, slot, b, now);
      ChainHasNoAbsence(g, b, Place(n.binding.value), now);
      AfterAllStep(r, ev, chain);
      assert WithoutAbsence([ev] + chain) && AfterAll(r, [ev] + chain).state.Vacant?;
    } else {
      var chain := ChainEvents(g, b, Place(b), now);
      ChainVacates(r, slot, b, now);
      ChainHasNoAbsence(g, b, Place(b), now);
      assert WithoutAbsence(chain) && AfterAll(r, chain).state.Vacant?;
    }
  }

  // ---- Retry at any later moment ----

  /** The effect of the operation shows in the binding. */
  predicate ShowsIn(b: Binding, op: ArtifactOp) {
    match op
    case Acknowledge => false
    case BeginCleanup => b.quarantine.Some?
    case BeginSocketRetirement => b.socketRetirePending || b.socketRetired
    case FinishSocketRetirement => b.socketRetired
    case FinishCleanup => b.completed
    case BeginUnlink(step) => b.unlinkPending == Some(step) || b.StepCompleted(step)
    case FinishUnlink(step) => b.StepCompleted(step)
    case OldBootAbsence(_) => b.completed
    case NeverCreatedAbsence(_) => b.completed
  }

  /** The occupancy of generation `g` has moved past the operation. */
  predicate Spent(r: SlotRecord, g: nat, op: ArtifactOp) {
    || r.generation > g
    || (&& r.generation == g && !r.state.IntentDurable?
        && (if r.binding.None? then r.state.ResolvedTombstone? || r.state.Vacant? else ShowsIn(r.binding.value, op)))
  }

  lemma WriteSpends(r: SlotRecord, slot: nat, g: nat, stale: Binding, op: ArtifactOp)
    requires SoundRecord(r, slot) && ProposeArtifact(r, g, stale, op).Write?
    ensures Spent(After(r, Artifact(g, stale, op)), g, op)
  {
    hide ValidLeaf;
    hide QuarantineName;
    hide ValidDirectory;
    hide ValidArtifact;
  }

  lemma SpentNeverWrites(r: SlotRecord, g: nat, stale: Binding, op: ArtifactOp)
    requires Spent(r, g, op)
    ensures !ProposeArtifact(r, g, stale, op).Write?
  {
    hide ValidBinding;
    hide ValidLeaf;
    hide QuarantineName;
  }

  /** No artifact operation takes back what another has shown. */
  lemma ShownStaysShown(r: SlotRecord, slot: nat, op: ArtifactOp, g: nat, stale: Binding, other: ArtifactOp)
    requires SoundRecord(r, slot) && r.binding.Some? && ShowsIn(r.binding.value, op)
    requires ProposeArtifact(r, g, stale, other).Write? && !other.Acknowledge?
    ensures var n := ProposeArtifact(r, g, stale, other).next;
      n.binding.Some? && ShowsIn(n.binding.value, op) && n.state == r.state && n.generation == r.generation
  {
    hide ValidLeaf;
    hide QuarantineName;
    hide ValidDirectory;
    hide ValidArtifact;
  }

  lemma ArtifactKeepsSpent(r: SlotRecord, slot: nat, g: nat, op: ArtifactOp, ev: SlotEvent)
    requires SoundRecord(r, slot) && Spent(r, g, op) && ev.Artifact?
    ensures Spent(After(r, ev), g, op)
  {
    hide SoundRecord;
    hide ShowsIn;
    if ev.op.Acknowledge? {
      hide ProposeArtifact;
      AcknowledgeLeaves(r, ev.generation, ev.binding);
    } else if ProposeArtifact(r, ev.generation, ev.binding, ev.op).Write? && r.generation == g {
      BoundToWrite(r, ev.generation, ev.binding, ev.op);
      ShownStaysShown(r, slot, op, ev.generation, ev.binding, ev.op);
    } else if ProposeArtifact(r, ev.generation, ev.binding, ev.op).Write? {
      BoundToWrite(r, ev.generation, ev.binding, ev.op);
    }
  }

  lemma AcknowledgeLeaves(r: SlotRecord, g: nat, stale: Binding)
    ensures var p := ProposeArtifact(r, g, stale, Acknowledge);
      p.Write? ==> r.state.ResolvedTombstone? && p.next == r.(binding := None)
  {
  }

  lemma BoundToWrite(r: SlotRecord, g: nat, stale: Binding, op: ArtifactOp)
    requires ProposeArtifact(r, g, stale, op).Write?
    ensures r.binding.Some? && ProposeArtifact(r, g, stale, op).next.generation == r.generation
  {
    hide ValidBinding;
    hide ValidLeaf;
    hide QuarantineName;
  }

  lemma OtherKeepsSpent(r: SlotRecord, slot: nat, g: nat, op: ArtifactOp, ev: SlotEvent)
    requires SoundRecord(r, slot) && Spent(r, g, op) && !ev.Artifact?
    ensures Spent(After(r, ev), g, op)
  {
    hide ProposeArtifact;
    hide ValidLeaf;
    hide ShowsIn;
    hide ValidBinding;
  }

  lemma {:induction false} SpentForever(run: seq<Tracked>, events: seq<SlotEvent>, slot: nat, i: nat, j: nat, g: nat, op: ArtifactOp)
    requires IsRun(run, events, slot) && i <= j < |run| && Spent(run[i].record, g, op)
    ensures Spent(run[j].record, g, op)
    decreases j - i
  {
    hide Spent;
    hide Propose;
    if i < j {
      SpentForever(run, events, slot, i, j - 1, g, op);
      RunInvariant(run, events, slot, j - 1);
      var r, ev := run[j - 1].record, events[j - 1];
      assert run[j].record == After(r, ev);
      if ev.Artifact? {
        ArtifactKeepsSpent(r, slot, g, op, ev);
      } else {
        OtherKeepsSpent(r, slot, g, op, ev);
      }
    }
  }

  /**
   Once an artifact operation has written, repeating it with the same key and the
   same stale binding at any later moment of the run leaves the record alone.
   */
  lemma LateRetryChangesNothing(run: seq<Tracked>, events: seq<SlotEvent>, slot: nat, i: nat, j: nat)
    requires IsRun(run, events, slot) && i < j < |run|
    requires events[i].Artifact? && Propose(events[i], run[i].record).Write?
    ensures Advance(run[j], events[i]) == run[j]
  {
    hide ProposeArtifact;
    hide Spent;
    hide SoundRecord;
    var ev := events[i];
    RunInvariant(run, events, slot, i);
    WriteSpends(run[i].record, slot, ev.generation, ev.binding, ev.op);
    assert run[i + 1].record == After(run[i].record, ev);
    SpentForever(run, events, slot, i + 1, j, ev.generation, ev.op);
    SpentNeverWrites(run[j].record, ev.generation, ev.binding, ev.op);
  }
}
