/**
 Where the values in a record come from: over whole runs, every identity in a binding is
 the argument of the update that recorded it, and a tombstone keeps its time until it is
 old enough.
 */
module SlotHistory {
  import opened Common
  import opened SlotRecords
  import opened SlotEvents
  import opened SlotRuns
  import opened SlotExactness

  // ---- Origin of the identities ----

  /** Event `k` of the run wrote this update, in the occupancy of moment `n`. */
  ghost predicate WroteAt(run: seq<Tracked>, events: seq<SlotEvent>, k: nat, n: nat, op: ReservationOp) {
    && k < n < |run| && k < |events|
    && events[k] == Reserve(op)
    && Propose(events[k], run[k].record).Write?
    && run[k].record.generation == run[n].record.generation
  }

  ghost predicate Wrote(run: seq<Tracked>, events: seq<SlotEvent>, n: nat, op: ReservationOp) {
    exists k :: WroteAt(run, events, k, n, op)
  }

  /** Everything the binding names was the argument of an update. */
  ghost predicate Traced(run: seq<Tracked>, events: seq<SlotEvent>, n: nat, b: Binding) {
    && Wrote(run, events, n, BeginCreation(b.controlRoot, b.privateLeaf))
    && (b.privateDirectory.Some? ==> Wrote(run, events, n, FinishDirectory(b.privateDirectory.value)))
    && (b.runner.Some? ==> Wrote(run, events, n, FinishRunner(b.runner.value)))
    && (b.socket.Some? ==> Wrote(run, events, n, FinishSocket(b.socket.value)))
    && (b.ownerFile.Some? ==> Wrote(run, events, n, FinishOwner(b.ownerFile.value)))
  }

  lemma WroteEarlier(run: seq<Tracked>, events: seq<SlotEvent>, n: nat, op: ReservationOp)
    requires Wrote(run, events, n, op) && n + 1 < |run|
    requires run[n + 1].record.generation == run[n].record.generation
    ensures Wrote(run, events, n + 1, op)
  {
    var k :| WroteAt(run, events, k, n, op);
    assert WroteAt(run, events, k, n + 1, op);
  }

  lemma TracedEarlier(run: seq<Tracked>, events: seq<SlotEvent>, n: nat, b: Binding)
    requires Traced(run, events, n, b) && n + 1 < |run|
    requires run[n + 1].record.generation == run[n].record.generation
    ensures Traced(run, events, n + 1, b)
  {
    hide Wrote;
    WroteEarlier(run, events, n, BeginCreation(b.controlRoot, b.privateLeaf));
    if b.privateDirectory.Some? { WroteEarlier(run, events, n, FinishDirectory(b.privateDirectory.value)); }
    if b.runner.Some? { WroteEarlier(run, events, n, FinishRunner(b.runner.value)); }
    if b.socket.Some? { WroteEarlier(run, events, n, FinishSocket(b.socket.value)); }
    if b.ownerFile.Some? { WroteEarlier(run, events, n, FinishOwner(b.ownerFile.value)); }
  }

  /** An artifact or process event keeps what the binding names. */
  lemma OthersKeepNames(r: SlotRecord, slot: nat, ev: SlotEvent)
    requires SoundRecord(r, slot) && !ev.Reserve? && After(r, ev).binding.Some?
    ensures r.binding.Some? && After(r, ev).generation == r.generation
    ensures CopyOf(After(r, ev).binding.value, r.binding.value)
  {
    hide SoundRecord;
    hide ProposeArtifact;
    if ev.Artifact? && Propose(ev, r).Write? {
      ArtifactWriteAdvancesChain(r, slot, ev.generation, ev.binding, ev.op);
      ArtifactKeepsGeneration(r, ev.generation, ev.binding, ev.op);
      CopyIsSameArtifact(After(r, ev).binding.value, r.binding.value);
      SameBothWays(After(r, ev).binding.value, r.binding.value);
    }
  }

  lemma SameBothWays(a: Binding, b: Binding)
    ensures a.SameArtifact(b) <==> b.SameArtifact(a)
  {
  }

  lemma ArtifactKeepsGeneration(r: SlotRecord, g: nat, stale: Binding, op: ArtifactOp)
    requires ProposeArtifact(r, g, stale, op).Write?
    ensures ProposeArtifact(r, g, stale, op).next.generation == r.generation
  {
    hide ValidBinding;
    hide ValidLeaf;
    hide QuarantineName;
  }

  lemma WroteNow(run: seq<Tracked>, events: seq<SlotEvent>, n: nat, op: ReservationOp)
    requires n + 1 < |run| && n < |events| && events[n] == Reserve(op) && Propose(events[n], run[n].record).Write?
    requires run[n].record.generation == run[n + 1].record.generation
    ensures Wrote(run, events, n + 1, op)
  {
    hide Propose;
    assert WroteAt(run, events, n, n + 1, op);
  }

  lemma ReserveKeepsGeneration(r: SlotRecord, op: ReservationOp)
    ensures After(r, Reserve(op)).generation == r.generation
  {
    hide ValidBinding;
  }

  lemma UpdateIsTraced(run: seq<Tracked>, events: seq<SlotEvent>, slot: nat, n: nat, op: ReservationOp)
    requires IsRun(run, events, slot) && n < |events| && events[n] == Reserve(op)
    requires Propose(events[n], run[n].record).Write? && SoundRecord(run[n].record, slot)
    requires run[n].record.binding.Some? ==> Traced(run, events, n, run[n].record.binding.value)
    ensures run[n + 1].record.binding.Some? && Traced(run, events, n + 1, run[n + 1].record.binding.value)
  {
    hide Wrote;
    hide SoundRecord;
    hide ProposeReservation;
    var r := run[n].record;
    assert run[n + 1] == Advance(run[n], events[n]);
    ReserveKeepsGeneration(r, op);
    assert run[n + 1].record == After(r, Reserve(op));
    WroteNow(run, events, n, op);
    if op.BeginCreation? {
      CreationBeginsExactly(r, slot, op.controlRoot, op.leaf);
    } else {
      CreationAdvancesExactly(r, slot, op);
      TracedEarlier(run, events, n, r.binding.value);
    }
  }

  /**
   In every run, whatever a binding names was handed in by an update of the same
   occupancy that wrote: the control root and the leaf at the beginning of creation,
   and each directory, runner, socket and owner file at its own receipt.
   */
  lemma {:induction false} BindingsAreTraced(run: seq<Tracked>, events: seq<SlotEvent>, slot: nat, n: nat)
    requires IsRun(run, events, slot) && n < |run| && run[n].record.binding.Some?
    ensures Traced(run, events, n, run[n].record.binding.value)
  {
    hide Traced;
    hide SoundRecord;
    if n > 0 {
      var r, ev := run[n - 1].record, events[n - 1];
      RunInvariant(run, events, slot, n - 1);
      assert run[n].record == After(r, ev);
      if r.binding.Some? {
        BindingsAreTraced(run, events, slot, n - 1);
      }
      if ev.Reserve? && Propose(ev, r).Write? {
        UpdateIsTraced(run, events, slot, n - 1, ev.reservation);
      } else if ev.Reserve? {
        TracedEarlier(run, events, n - 1, r.binding.value);
      } else {
        OthersKeepNames(r, slot, ev);
        TracedEarlier(run, events, n - 1, r.binding.value);
        SameNamesTraced(run, events, n, r.binding.value, run[n].record.binding.value);
      }
    }
  }

  lemma SameNamesTraced(run: seq<Tracked>, events: seq<SlotEvent>, n: nat, b: Binding, b': Binding)
    requires Traced(run, events, n, b) && CopyOf(b', b)
    ensures Traced(run, events, n, b')
  {
    hide Wrote;
  }

  // ---- Retention ----

  /** Step `k` recycles the slot, at least a day after `t`. */
  ghost predicate RecycledAfter(run: seq<Tracked>, events: seq<SlotEvent>, k: nat, t: nat) {
    && k < |events| && k + 1 < |run|
    && events[k].Recycle? && events[k].now >= t + 86400
    && run[k].record.state.ResolvedTombstone? && run[k + 1].record.state.Vacant?
    && run[k].record.generation == run[k + 1].record.generation
  }

  /** A tombstone keeps its time, its nonce and its dead identity, or is recycled old enough. */
  lemma TombstoneStays(r: SlotRecord, slot: nat, ev: SlotEvent)
    requires SoundRecord(r, slot) && r.state.ResolvedTombstone?
    ensures After(r, ev).generation == r.generation
    ensures After(r, ev).state == r.state
      || (After(r, ev).state.Vacant? && ev.Recycle? && ev.now >= r.state.resolvedSecs + 86400)
  {
    hide ValidBinding;
    hide ValidLeaf;
    hide QuarantineName;
  }

  lemma {:induction false} TombstoneAges(run: seq<Tracked>, events: seq<SlotEvent>, slot: nat, i: nat, j: nat, t: nat)
    requires IsRun(run, events, slot) && i <= j < |run|
    requires run[i].record.state.ResolvedTombstone? && run[i].record.state.resolvedSecs == t
    requires run[j].record.state.Vacant? || run[j].record.generation != run[i].record.generation
    ensures exists k :: i <= k < j && RecycledAfter(run, events, k, t)
    decreases j - i
  {
    hide Propose;
    hide SoundRecord;
    assert i < j;
    RunInvariant(run, events, slot, i);
    TombstoneStays(run[i].record, slot, events[i]);
    assert run[i + 1].record == After(run[i].record, events[i]);
    if run[i + 1].record.state.Vacant? {
      assert RecycledAfter(run, events, i, t);
    } else {
      TombstoneAges(run, events, slot, i + 1, j, t);
    }
  }

  /**
   In every run, a slot entombed at time `t` is vacant again, or occupied by another
   generation, only after a recycling at least a day later.
   */
  lemma TombstoneIsKeptForADay(run: seq<Tracked>, events: seq<SlotEvent>, slot: nat, i: nat, j: nat, t: nat)
    requires IsRun(run, events, slot) && i < j < |run|
    requires events[i] == Entomb(t) && Propose(events[i], run[i].record).Write?
    requires run[j].record.state.Vacant? || run[j].record.generation != run[i].record.generation
    ensures exists k :: i < k < j && RecycledAfter(run, events, k, t)
  {
    hide SoundRecord;
    LifeExactly(run[i].record, events[i]);
    assert run[i + 1] == Advance(run[i], events[i]);
    TombstoneAges(run, events, slot, i + 1, j, t);
  }
}
