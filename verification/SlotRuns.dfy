/**
 Whole runs of one slot: any sequence of registry operations, each reading the
 slot and writing what it proposes. The ghost log of a run keeps the artifact
 operations that wrote since the current binding was created.
 */
module SlotRuns {
  import opened Common
  import opened SlotRecords
  import opened SlotEvents

  datatype Tracked = Tracked(record: SlotRecord, log: seq<ArtifactOp>)

  function After(r: SlotRecord, ev: SlotEvent): SlotRecord {
    match Propose(ev, r)
    case Write(next) => next
    case _ => r
  }

  function Advance(t: Tracked, ev: SlotEvent): Tracked {
    match Propose(ev, t.record)
    case Write(next) =>
      Tracked(next,
              if ev.Reserve? && ev.reservation.BeginCreation? then []
              else if ev.Artifact? then t.log + [ev.op]
              else t.log)
    case _ => t
  }

  /** The states `run[0], run[1], ...` that the events pass through. */
  ghost predicate IsRun(run: seq<Tracked>, events: seq<SlotEvent>, slot: nat) {
    && |run| == |events| + 1
    && SoundRecord(run[0].record, slot)
    && run[0].record.binding.None?
    && run[0].log == []
    && (forall i :: 0 <= i < |events| ==> run[i + 1] == Advance(run[i], events[i]))
    && (forall i :: 0 <= i < |events| ==> !OwnerlessCreation(events[i], run[i].record))
  }

  // ---- Subsequences ----

  /** `xs` occurs in `ys` in this order, not necessarily adjacent. */
  ghost predicate InOrder<T(!new)>(xs: seq<T>, ys: seq<T>) {
    if xs == [] then true
    else if ys == [] then false
    else if xs[|xs| - 1] == ys[|ys| - 1] then InOrder(xs[..|xs| - 1], ys[..|ys| - 1])
    else InOrder(xs, ys[..|ys| - 1])
  }

  lemma {:induction false} InOrderDrop<T(!new)>(xs: seq<T>, ys: seq<T>)
    requires xs != [] && InOrder(xs, ys)
    ensures InOrder(xs[..|xs| - 1], ys)
  {
    var xs' := xs[..|xs| - 1];
    var ys' := ys[..|ys| - 1];
    if xs[|xs| - 1] == ys[|ys| - 1] {
      if xs' != [] {
        if xs'[|xs'| - 1] == ys[|ys| - 1] {
          InOrderDrop(xs', ys');
        }
      }
    } else {
      InOrderDrop(xs, ys');
      if xs' != [] && xs'[|xs'| - 1] == ys[|ys| - 1] {
        InOrderDrop(xs', ys');
      }
    }
  }

  lemma InOrderNothing<T(!new)>(ys: seq<T>)
    ensures InOrder([], ys)
  {
  }

  lemma InOrderKeep<T(!new)>(xs: seq<T>, ys: seq<T>, y: T)
    requires InOrder(xs, ys)
    ensures InOrder(xs, ys + [y])
  {
    assert (ys + [y])[..|ys|] == ys;
    if xs != [] && xs[|xs| - 1] == y {
      InOrderDrop(xs, ys);
    }
  }

  lemma InOrderSnoc<T(!new)>(xs: seq<T>, ys: seq<T>, x: T)
    requires InOrder(xs, ys)
    ensures InOrder(xs + [x], ys + [x])
  {
    assert (ys + [x])[..|ys|] == ys && (xs + [x])[..|xs|] == xs;
  }

  // ---- The route to completion ----

  /** Quarantine, then every receipt after its own durable intent. */
  const RECEIPT_CHAIN: seq<ArtifactOp> := [
    BeginCleanup,
    BeginUnlink(Ownership), FinishUnlink(Ownership),
    BeginUnlink(Socket), FinishUnlink(Socket),
    BeginUnlink(Runner), FinishUnlink(Runner),
    BeginUnlink(Directory), FinishCleanup
  ]

  /** How much of the chain the flags of an uncompleted binding witness. */
  function Progress(b: Binding): (k: nat)
    ensures k <= 8
  {
    if b.quarantine.None? then 0
    else 1 + Weight(b.ownershipRemoved, 2) + Weight(b.socketRemoved, 2) + Weight(b.runnerRemoved, 2)
           + Weight(b.unlinkPending.Some?, 1)
  }

  ghost predicate OldBootRoute(b: Binding, log: seq<ArtifactOp>) {
    exists boot: Uuid :: OldBootAbsence(Some(boot)) in log && boot != b.controlRoot.bootUuid
  }

  ghost predicate NeverCreatedRoute(b: Binding, log: seq<ArtifactOp>) {
    NeverCreatedAbsence(Some(b.controlRoot.bootUuid)) in log && b.privateDirectory.None?
  }

  ghost predicate ReceiptRoute(log: seq<ArtifactOp>) {
    InOrder(RECEIPT_CHAIN, log)
  }

  ghost predicate RouteKnown(t: Tracked) {
    t.record.binding.Some? ==>
      var b := t.record.binding.value;
      if b.completed then
        ReceiptRoute(t.log) || OldBootRoute(b, t.log) || NeverCreatedRoute(b, t.log)
      else
        InOrder(RECEIPT_CHAIN[..Progress(b)], t.log)
  }

  /** An artifact write of an uncompleted binding takes exactly the next link, completes, or is a retirement. */
  lemma ArtifactWriteAdvancesChain(r: SlotRecord, slot: nat, generation: nat, stale: Binding, op: ArtifactOp)
    requires SoundRecord(r, slot)
    requires ProposeArtifact(r, generation, stale, op).Write?
    ensures r.binding.Some?
    ensures var next := ProposeArtifact(r, generation, stale, op).next;
      var k := Progress(r.binding.value);
      if op.Acknowledge? then next.binding.None?
      else
        && next.binding.Some?
        && var b, n := r.binding.value, next.binding.value;
           && !b.completed
           && n.SameArtifact(b)
           && (n.completed ==>
                || (op == FinishCleanup && k == 8)
                || (op.OldBootAbsence? && op.boot.Some? && op.boot.value != b.controlRoot.bootUuid)
                || (op == NeverCreatedAbsence(Some(b.controlRoot.bootUuid)) && b.privateDirectory.None?))
           && (!n.completed ==>
                || (Progress(n) == k + 1 && op == RECEIPT_CHAIN[k])
                || (Progress(n) == k && (op.BeginSocketRetirement? || op.FinishSocketRetirement?)))
  {
    hide ValidLeaf;
    hide QuarantineName;
    hide ValidDirectory;
    hide ValidArtifact;
  }

  lemma AdvanceKeepsRoute(t: Tracked, ev: SlotEvent, slot: nat)
    requires SoundRecord(t.record, slot) && RouteKnown(t)
    requires !OwnerlessCreation(ev, t.record)
    ensures SoundRecord(Advance(t, ev).record, slot) && RouteKnown(Advance(t, ev))
  {
    hide Propose;
    hide RouteKnown;
    hide SoundRecord;
    var r := t.record;
    if Propose(ev, r).Write? {
      ProposalIsAccepted(ev, r, slot);
      if ev.Artifact? {
        ArtifactWriteKeepsRoute(t, ev, slot);
      } else {
        OtherWriteKeepsRoute(t, ev, slot);
      }
    }
  }

  /** The log of an artifact write, link by link. */
  lemma LogGrows(log: seq<ArtifactOp>, op: ArtifactOp, k: nat)
    requires k <= 8 && InOrder(RECEIPT_CHAIN[..k], log)
    ensures InOrder(RECEIPT_CHAIN[..k], log + [op])
    ensures op == RECEIPT_CHAIN[k] ==> InOrder(RECEIPT_CHAIN[..k + 1], log + [op])
  {
    hide InOrder;
    InOrderKeep(RECEIPT_CHAIN[..k], log, op);
    if op == RECEIPT_CHAIN[k] {
      InOrderSnoc(RECEIPT_CHAIN[..k], log, op);
      assert RECEIPT_CHAIN[..k] + [op] == RECEIPT_CHAIN[..k + 1];
    }
  }

  /** What a completing write adds to the log. */
  lemma CompletionIsLogged(b: Binding, log: seq<ArtifactOp>, op: ArtifactOp)
    requires InOrder(RECEIPT_CHAIN[..Progress(b)], log)
    ensures op == FinishCleanup && Progress(b) == 8 ==> ReceiptRoute(log + [op])
    ensures op.OldBootAbsence? && op.boot.Some? && op.boot.value != b.controlRoot.bootUuid ==> OldBootRoute(b, log + [op])
    ensures op == NeverCreatedAbsence(Some(b.controlRoot.bootUuid)) && b.privateDirectory.None? ==> NeverCreatedRoute(b, log + [op])
  {
    hide InOrder;
    hide Progress;
    assert op in log + [op];
    if op == FinishCleanup && Progress(b) == 8 {
      LogGrows(log, op, 8);
      assert RECEIPT_CHAIN[..9] == RECEIPT_CHAIN;
    }
    if op.OldBootAbsence? && op.boot.Some? {
      assert op == OldBootAbsence(Some(op.boot.value));
    }
  }

  lemma ArtifactWriteKeepsRoute(t: Tracked, ev: SlotEvent, slot: nat)
    requires SoundRecord(t.record, slot) && RouteKnown(t)
    requires ev.Artifact? && Propose(ev, t.record).Write?
    ensures RouteKnown(Advance(t, ev))
  {
    hide ProposeArtifact;
    hide SoundRecord;
    hide InOrder;
    hide Progress;
    hide ReceiptRoute;
    var r, op := t.record, ev.op;
    ArtifactWriteAdvancesChain(r, slot, ev.generation, ev.binding, op);
    if !op.Acknowledge? {
      var b := r.binding.value;
      LogGrows(t.log, op, Progress(b));
      CompletionIsLogged(b, t.log, op);
      var n := Advance(t, ev).record.binding.value;
      assert OldBootRoute(b, t.log + [op]) ==> OldBootRoute(n, t.log + [op]);
    }
  }

  lemma OtherWriteKeepsRoute(t: Tracked, ev: SlotEvent, slot: nat)
    requires SoundRecord(t.record, slot) && RouteKnown(t)
    requires !ev.Artifact? && Propose(ev, t.record).Write?
    ensures RouteKnown(Advance(t, ev))
  {
    hide ProposeArtifact;
    hide QuarantineName;
    hide ValidLeaf;
    hide ValidDirectory;
    hide ValidArtifact;
    hide InOrder;
    var t' := Advance(t, ev);
    if ev.Reserve? {
      assert t'.record.binding.Some?;
      assert Progress(t'.record.binding.value) == 0;
      assert RECEIPT_CHAIN[..0] == [];
      InOrderNothing<ArtifactOp>(t'.log);
    } else if !ev.Issue? && !ev.Recycle? {
      assert t'.record.binding == t.record.binding && t'.log == t.log;
    }
  }

  lemma {:induction false} RunInvariant(run: seq<Tracked>, events: seq<SlotEvent>, slot: nat, n: nat)
    requires IsRun(run, events, slot) && n < |run|
    ensures SoundRecord(run[n].record, slot) && RouteKnown(run[n])
  {
    if n > 0 {
      RunInvariant(run, events, slot, n - 1);
      AdvanceKeepsRoute(run[n - 1], events[n - 1], slot);
    }
  }

  /**
   In every run a completed cleanup has one of three origins: the quarantine
   followed by the ownership, socket, runner and directory receipts in that order,
   each after its durable intent; an absence proved on a later boot; or an absence
   proved on the same boot for a directory that was never created.
   */
  lemma CompletionHasARoute(run: seq<Tracked>, events: seq<SlotEvent>, slot: nat, n: nat)
    requires IsRun(run, events, slot) && n < |run|
    requires run[n].record.binding.Some? && run[n].record.binding.value.completed
    ensures var b, log := run[n].record.binding.value, run[n].log;
      ReceiptRoute(log) || OldBootRoute(b, log) || NeverCreatedRoute(b, log)
  {
    RunInvariant(run, events, slot, n);
  }

  /** Step `k` of the run acknowledges a completed cleanup over a process tombstone. */
  ghost predicate AcknowledgedAt(run: seq<Tracked>, events: seq<SlotEvent>, k: nat) {
    && k < |events| && k + 1 < |run|
    && events[k].Artifact? && events[k].op.Acknowledge?
    && run[k].record.state.ResolvedTombstone?
    && run[k].record.binding.Some?
    && run[k].record.binding.value.completed
    && run[k + 1].record.binding.None?
  }

  lemma OnlyAcknowledgeUnbinds(t: Tracked, ev: SlotEvent, slot: nat)
    requires SoundRecord(t.record, slot) && t.record.binding.Some?
    ensures !Advance(t, ev).record.state.Vacant?
    ensures Advance(t, ev).record.binding.None? ==>
      && ev.Artifact? && ev.op.Acknowledge?
      && t.record.state.ResolvedTombstone? && t.record.binding.value.completed
  {
  }

  /**
   A slot that got an artifact binding becomes vacant again only after its process
   tombstone and the acknowledgement of a completed cleanup.
   */
  lemma {:induction false} BoundSlotVacatesOnlyAfterCleanup(
    run: seq<Tracked>, events: seq<SlotEvent>, slot: nat, i: nat, j: nat)
    requires IsRun(run, events, slot) && i < j < |run|
    requires run[i].record.binding.Some? && run[j].record.state.Vacant?
    ensures exists k :: i <= k < j && AcknowledgedAt(run, events, k)
    decreases j - i
  {
    RunInvariant(run, events, slot, i);
    OnlyAcknowledgeUnbinds(run[i], events[i], slot);
    if run[i + 1].record.binding.None? {
      assert AcknowledgedAt(run, events, i);
    } else {
      assert i + 1 < j by { assert !run[i + 1].record.state.Vacant?; }
      BoundSlotVacatesOnlyAfterCleanup(run, events, slot, i + 1, j);
    }
  }

  // ---- Private leaves too long to quarantine ----

  predicate LongLeaf(r: SlotRecord) {
    r.binding.Some? && |r.binding.value.privateLeaf| > 213
  }

  lemma LongLeafIsStuck(r: SlotRecord, ev: SlotEvent, slot: nat)
    requires SoundRecord(r, slot) && LongLeaf(r) && r.binding.value.quarantine.None?
    ensures LongLeaf(After(r, ev)) && After(r, ev).binding.value.quarantine.None?
  {
    hide ValidDirectory;
    hide ValidArtifact;
    QuarantineFits(r.binding.value);
  }

  /**
   A private leaf of more than 213 bytes passes every creation guard but leaves no
   room for the quarantine name: no run ever empties that slot again.
   */
  lemma {:induction false} LongLeafNeverVacates(run: seq<Tracked>, events: seq<SlotEvent>, slot: nat, i: nat, j: nat)
    requires IsRun(run, events, slot) && i <= j < |run|
    requires LongLeaf(run[i].record) && run[i].record.binding.value.quarantine.None?
    ensures LongLeaf(run[j].record) && run[j].record.binding.value.quarantine.None?
    ensures !run[j].record.state.Vacant?
    decreases j - i
  {
    RunInvariant(run, events, slot, i);
    if i < j {
      LongLeafIsStuck(run[i].record, events[i], slot);
      assert run[i + 1].record == After(run[i].record, events[i]);
      LongLeafNeverVacates(run, events, slot, i + 1, j);
    }
  }

  /** The events that carry a bound tombstone with a short leaf to a vacant slot. */
  function FinishingEvents(b: Binding, generation: nat, boot: Uuid, now: nat): seq<SlotEvent> {
    [Artifact(generation, b, OldBootAbsence(Some(boot))), Artifact(generation, b, Acknowledge), Recycle(now)]
  }

  function AfterAll(r: SlotRecord, events: seq<SlotEvent>): SlotRecord
    decreases |events|
  {
    if events == [] then r else AfterAll(After(r, events[0]), events[1..])
  }

  /** A bound tombstone whose artifacts can still be cleaned up: nothing half created, and room for the quarantine name. */
  predicate Cleanable(b: Binding) {
    !b.CreationPending() && (b.quarantine.Some? || |b.privateLeaf| <= 213)
  }

  lemma CleanableCanVacate(r: SlotRecord, slot: nat, boot: Uuid, now: nat)
    requires SoundRecord(r, slot)
    requires r.state.ResolvedTombstone? && r.binding.Some? && Cleanable(r.binding.value)
    requires boot != r.binding.value.controlRoot.bootUuid
    requires now >= r.state.resolvedSecs + TOMBSTONE_RETENTION_SECS
    ensures AfterAll(r, FinishingEvents(r.binding.value, r.generation, boot, now)) == Recycled(r.(binding := None))
  {
    var b := r.binding.value;
    QuarantineFits(b);
    var es := FinishingEvents(b, r.generation, boot, now);
    var r1 := After(r, es[0]);
    assert r1.binding.Some? && r1.binding.value.completed && r1.binding.value.SameArtifact(b);
    var r2 := After(r1, es[1]);
    assert r2 == r.(binding := None);
    var r3 := After(r2, es[2]);
    assert es[1..][1..] == [es[2]] && es[1..][0] == es[1];
    assert AfterAll(r2, [es[2]]) == AfterAll(r3, [es[2]][1..]);
  }

  predicate Stuck(r: SlotRecord) {
    r.state.ResolvedTombstone? && r.binding.Some? && !Cleanable(r.binding.value)
  }

  lemma StuckStays(r: SlotRecord, slot: nat, ev: SlotEvent)
    requires SoundRecord(r, slot) && Stuck(r)
    ensures SoundRecord(After(r, ev), slot) && Stuck(After(r, ev))
  {
    hide ValidDirectory;
    hide ValidArtifact;
    QuarantineFits(r.binding.value);
    if Propose(ev, r).Write? {
      ProposalIsAccepted(ev, r, slot);
    }
  }

  lemma {:induction false} StuckForever(r: SlotRecord, slot: nat, events: seq<SlotEvent>)
    requires SoundRecord(r, slot) && Stuck(r)
    ensures Stuck(AfterAll(r, events))
    decreases |events|
  {
    hide SoundRecord;
    hide Stuck;
    if events != [] {
      StuckStays(r, slot, events[0]);
      StuckForever(After(r, events[0]), slot, events[1..]);
    }
  }

  /**
   A bound tombstone can be brought back to Vacant, by whatever operations, exactly
   when no artifact creation was left pending and the quarantine name exists or fits.
   */
  lemma TombstoneVacatesExactly(r: SlotRecord, slot: nat)
    requires SoundRecord(r, slot) && r.state.ResolvedTombstone? && r.binding.Some?
    ensures (exists events :: AfterAll(r, events).state.Vacant?) <==> Cleanable(r.binding.value)
  {
    hide SoundRecord;
    hide Cleanable;
    hide After;
    var b := r.binding.value;
    if Cleanable(b) {
      var boot, now := b.controlRoot.bootUuid + 1, r.state.resolvedSecs + TOMBSTONE_RETENTION_SECS;
      CleanableCanVacate(r, slot, boot, now);
      assert AfterAll(r, FinishingEvents(b, r.generation, boot, now)).state.Vacant?;
    } else {
      forall events
        ensures !AfterAll(r, events).state.Vacant?
      {
        StuckForever(r, slot, events);
      }
    }
  }
}
