/**
 Exactly when each operation on a slot writes, and exactly what it writes, in terms of
 the single fields of the record, the binding and the caller's copy. Together with the
 invariant the guards shrink to what really decides.
 */
module SlotExactness {
  import opened Common
  import opened SlotRecords
  import opened SlotEvents

  /** The copy agrees with the binding on everything but the progress of retirement and cleanup. */
  predicate CopyOf(stale: Binding, b: Binding) {
    stale == b.(
      quarantine := stale.quarantine, unlinkPending := stale.unlinkPending,
      socketRetirePending := stale.socketRetirePending, socketRetired := stale.socketRetired,
      ownershipRemoved := stale.ownershipRemoved, socketRemoved := stale.socketRemoved,
      runnerRemoved := stale.runnerRemoved, completed := stale.completed)
  }

  lemma CopyIsSameArtifact(stale: Binding, b: Binding)
    ensures b.SameArtifact(stale) <==> CopyOf(stale, b)
  {
  }

  /** The key names the occupancy, which has a binding, and the caller's copy is a copy of it. */
  predicate Addressed(r: SlotRecord, g: nat, stale: Binding) {
    g == r.generation && r.binding.Some? && CopyOf(stale, r.binding.value)
  }

  /** Nothing is half created. */
  predicate Settled(b: Binding) {
    !b.runnerCreatePending && !b.socketCreatePending && !b.ownerCreatePending
  }

  /** The first artifact that is not yet removed. */
  function NextStep(b: Binding): CleanupStep {
    if !b.ownershipRemoved then Ownership
    else if !b.socketRemoved then Socket
    else if !b.runnerRemoved then Runner
    else Directory
  }

  predicate Removed(b: Binding, step: CleanupStep) {
    match step
    case Ownership => b.ownershipRemoved
    case Socket => b.socketRemoved
    case Runner => b.runnerRemoved
    case Directory => b.completed
  }

  lemma AcknowledgeExactly(r: SlotRecord, slot: nat, g: nat, stale: Binding)
    requires SoundRecord(r, slot)
    ensures var p := ProposeArtifact(r, g, stale, Acknowledge);
      && (p.Write? <==> Addressed(r, g, stale) && r.binding.value.completed)
      && (p.Write? ==> p.next == r.(binding := None))
      && (p.Unchanged? <==> g == r.generation && r.binding.None? && r.state.ResolvedTombstone?)
  {
    hide ValidLeaf;
    if r.binding.Some? {
      CopyIsSameArtifact(stale, r.binding.value);
    }
  }

  lemma BeginCleanupExactly(r: SlotRecord, slot: nat, g: nat, stale: Binding)
    requires SoundRecord(r, slot)
    ensures var p := ProposeArtifact(r, g, stale, BeginCleanup);
      && (p.Write? <==>
            && Addressed(r, g, stale) && r.state.ResolvedTombstone?
            && r.binding.value.quarantine.None? && !r.binding.value.socketRetirePending
            && Settled(r.binding.value) && |r.binding.value.privateLeaf| <= 213)
      && (p.Write? ==>
            p.next == r.(binding := Some(r.binding.value.(quarantine := Some(QuarantineName(r.binding.value))))))
      && (p.Unchanged? <==> Addressed(r, g, stale) && r.binding.value.quarantine.Some?)
  {
    hide ValidLeaf;
    hide QuarantineName;
    if r.binding.Some? {
      assert ValidLeaf(r.binding.value.privateLeaf);
      CopyIsSameArtifact(stale, r.binding.value);
      QuarantineFits(r.binding.value);
    }
  }

  /** A live slot retires its socket once its artifacts are all created and no retirement has begun. */
  lemma BeginRetirementExactly(r: SlotRecord, slot: nat, g: nat, stale: Binding)
    requires SoundRecord(r, slot)
    ensures var p := ProposeArtifact(r, g, stale, BeginSocketRetirement);
      && (p.Write? <==>
            && Addressed(r, g, stale) && r.state.IdentityDurable? && r.binding.value.ownerFile.Some?
            && !r.binding.value.socketRetirePending && !r.binding.value.socketRetired)
      && (p.Write? ==> p.next == r.(binding := Some(r.binding.value.(socketRetirePending := true))))
      && (p.Unchanged? <==>
            && Addressed(r, g, stale) && r.state.IdentityDurable? && r.binding.value.ownerFile.Some?
            && (r.binding.value.socketRetirePending || r.binding.value.socketRetired))
  {
    hide ValidLeaf;
    if r.binding.Some? {
      CopyIsSameArtifact(stale, r.binding.value);
    }
  }

  lemma FinishRetirementExactly(r: SlotRecord, slot: nat, g: nat, stale: Binding)
    requires SoundRecord(r, slot)
    ensures var p := ProposeArtifact(r, g, stale, FinishSocketRetirement);
      && (p.Write? <==> Addressed(r, g, stale) && r.binding.value.socketRetirePending)
      && (p.Write? ==>
            p.next == r.(binding := Some(r.binding.value.(socketRetirePending := false, socketRetired := true))))
      && (p.Unchanged? <==> Addressed(r, g, stale) && r.binding.value.socketRetired && r.binding.value.quarantine.None?)
  {
    hide ValidLeaf;
    if r.binding.Some? {
      CopyIsSameArtifact(stale, r.binding.value);
    }
  }

  lemma FinishCleanupExactly(r: SlotRecord, slot: nat, g: nat, stale: Binding)
    requires SoundRecord(r, slot)
    ensures var p := ProposeArtifact(r, g, stale, FinishCleanup);
      && (p.Write? <==> Addressed(r, g, stale) && r.binding.value.unlinkPending == Some(Directory))
      && (p.Write? ==> p.next == r.(binding := Some(r.binding.value.(unlinkPending := None, completed := true))))
      && (p.Unchanged? <==> Addressed(r, g, stale) && r.binding.value.completed)
  {
    hide ValidLeaf;
    if r.binding.Some? {
      CopyIsSameArtifact(stale, r.binding.value);
    }
  }

  /** An unlink begins only for the first artifact still there, and one at a time. */
  lemma BeginUnlinkExactly(r: SlotRecord, slot: nat, g: nat, stale: Binding, step: CleanupStep)
    requires SoundRecord(r, slot)
    ensures var p := ProposeArtifact(r, g, stale, BeginUnlink(step));
      && (p.Write? <==>
            && Addressed(r, g, stale) && r.binding.value.quarantine.Some? && !r.binding.value.completed
            && r.binding.value.unlinkPending.None? && step == NextStep(r.binding.value))
      && (p.Write? ==> p.next == r.(binding := Some(r.binding.value.(unlinkPending := Some(step)))))
      && (p.Unchanged? <==>
            && Addressed(r, g, stale) && r.binding.value.quarantine.Some? && !r.binding.value.completed
            && (Removed(r.binding.value, step) || r.binding.value.unlinkPending == Some(step)))
  {
    hide ValidLeaf;
    hide ValidDirectory;
    hide ValidArtifact;
    if r.binding.Some? {
      CopyIsSameArtifact(stale, r.binding.value);
    }
  }

  /** A receipt is written exactly for the unlink that is pending. */
  lemma FinishUnlinkExactly(r: SlotRecord, slot: nat, g: nat, stale: Binding, step: CleanupStep)
    requires SoundRecord(r, slot)
    ensures var p := ProposeArtifact(r, g, stale, FinishUnlink(step));
      && (p.Write? <==>
            Addressed(r, g, stale) && r.binding.value.unlinkPending == Some(step) && step != Directory)
      && (p.Write? ==> Receipted(r, step, p.next))
      && (p.Unchanged? <==>
            && Addressed(r, g, stale) && r.binding.value.quarantine.Some? && !r.binding.value.completed
            && Removed(r.binding.value, step))
  {
    hide ValidLeaf;
    if r.binding.Some? {
      CopyIsSameArtifact(stale, r.binding.value);
    }
  }

  /** The pending unlink is gone and its artifact, and only its artifact, counts as removed. */
  predicate Receipted(r: SlotRecord, step: CleanupStep, next: SlotRecord)
    requires r.binding.Some?
  {
    var b := r.binding.value;
    next == r.(binding := Some(b.(
      unlinkPending := None,
      ownershipRemoved := b.ownershipRemoved || step == Ownership,
      socketRemoved := b.socketRemoved || step == Socket,
      runnerRemoved := b.runnerRemoved || step == Runner)))
  }

  /** All artifacts count as removed and the cleanup as completed. */
  function Gone(b: Binding): Binding {
    b.(unlinkPending := None, ownershipRemoved := true, socketRemoved := true, runnerRemoved := true, completed := true)
  }

  lemma OldBootAbsenceExactly(r: SlotRecord, slot: nat, g: nat, stale: Binding, boot: Option<Uuid>)
    requires SoundRecord(r, slot)
    ensures var p := ProposeArtifact(r, g, stale, OldBootAbsence(boot));
      && (p.Write? <==>
            && Addressed(r, g, stale) && r.state.ResolvedTombstone? && Settled(r.binding.value)
            && boot.Some? && boot.value != r.binding.value.controlRoot.bootUuid
            && !r.binding.value.completed
            && (r.binding.value.quarantine.Some? || |r.binding.value.privateLeaf| <= 213))
      && (p.Write? ==>
            var b := r.binding.value;
            p.next == r.(binding := Some(Gone(b).(
              quarantine := if b.quarantine.Some? then b.quarantine else Some(QuarantineName(b)),
              socketRetirePending := false,
              socketRetired := b.socketRetired || b.socket.Some?))))
      && (p.Unchanged? <==>
            && Addressed(r, g, stale) && boot.Some? && boot.value != r.binding.value.controlRoot.bootUuid
            && r.binding.value.completed)
  {
    hide ValidLeaf;
    hide QuarantineName;
    if r.binding.Some? {
      assert ValidLeaf(r.binding.value.privateLeaf);
      CopyIsSameArtifact(stale, r.binding.value);
      QuarantineFits(r.binding.value);
    }
  }

  lemma NeverCreatedAbsenceExactly(r: SlotRecord, slot: nat, g: nat, stale: Binding, boot: Option<Uuid>)
    requires SoundRecord(r, slot)
    ensures var p := ProposeArtifact(r, g, stale, NeverCreatedAbsence(boot));
      && (p.Write? <==>
            && Addressed(r, g, stale) && boot == Some(r.binding.value.controlRoot.bootUuid)
            && r.binding.value.privateDirectory.None? && r.binding.value.quarantine.Some?
            && r.binding.value.unlinkPending.None? && !r.binding.value.completed)
      && (p.Write? ==> p.next == r.(binding := Some(Gone(r.binding.value))))
      && (p.Unchanged? <==>
            && Addressed(r, g, stale) && boot == Some(r.binding.value.controlRoot.bootUuid)
            && r.binding.value.privateDirectory.None? && r.binding.value.completed)
  {
    hide ValidLeaf;
    if r.binding.Some? {
      CopyIsSameArtifact(stale, r.binding.value);
    }
  }

  // ---- Reservation updates ----

  predicate NonZero(d: DirectoryIdentity) {
    d.bootUuid > 0 && d.dev > 0 && d.ino > 0 && d.mountId > 0
  }

  /** One name that a directory entry can have. */
  predicate EntryName(leaf: seq<Byte>) {
    && 1 <= |leaf| <= 255 && leaf != ['.' as int] && leaf != ['.' as int, '.' as int]
    && forall i :: 0 <= i < |leaf| ==> leaf[i] != '/' as int && leaf[i] != 0
  }

  lemma CreationBeginsExactly(r: SlotRecord, slot: nat, root: DirectoryIdentity, leaf: seq<Byte>)
    requires SoundRecord(r, slot) && r.state.IntentDurable?
    ensures var p := ProposeReservation(r, BeginCreation(root, leaf));
      && (p.Write? <==> r.binding.None? && NonZero(root) && EntryName(leaf))
      && (p.Write? ==>
            && p.next == r.(binding := p.next.binding) && p.next.binding.Some?
            && var b := p.next.binding.value;
               && b.nonce == r.state.nonce && b.controlRoot == root && b.privateLeaf == leaf
               && b.privateDirectory.None? && b.runner.None? && b.socket.None? && b.ownerFile.None?
               && Settled(b) && b.quarantine.None? && b.unlinkPending.None?
               && !b.socketRetirePending && !b.socketRetired
               && !b.ownershipRemoved && !b.socketRemoved && !b.runnerRemoved && !b.completed)
  {
    assert 47 in leaf <==> exists i :: 0 <= i < |leaf| && leaf[i] == 47;
    assert 0 in leaf <==> exists i :: 0 <= i < |leaf| && leaf[i] == 0;
  }

  /** What each later update needs, and the one field it fills or flag it sets. */
  function Filled(b: Binding, op: ReservationOp): Option<Binding> {
    match op
    case BeginCreation(_, _) => None
    case FinishDirectory(d) =>
      if b.privateDirectory.None? && NonZero(d) then Some(b.(privateDirectory := Some(d))) else None
    case BeginRunner =>
      if b.privateDirectory.Some? && b.runner.None? && !b.runnerCreatePending
      then Some(b.(runnerCreatePending := true)) else None
    case FinishRunner(a) =>
      if b.runnerCreatePending && a.dev > 0 && a.ino > 0
      then Some(b.(runner := Some(a), runnerCreatePending := false)) else None
    case BeginSocket =>
      if b.runner.Some? && b.socket.None? && !b.socketCreatePending
      then Some(b.(socketCreatePending := true)) else None
    case FinishSocket(a) =>
      if b.socketCreatePending && a.dev > 0 && a.ino > 0
      then Some(b.(socket := Some(a), socketCreatePending := false)) else None
    case BeginOwner =>
      if b.socket.Some? && b.ownerFile.None? && !b.ownerCreatePending
      then Some(b.(ownerCreatePending := true)) else None
    case FinishOwner(a) =>
      if b.ownerCreatePending && a.dev > 0 && a.ino > 0
      then Some(b.(ownerFile := Some(a), ownerCreatePending := false)) else None
  }

  lemma CreationAdvancesExactly(r: SlotRecord, slot: nat, op: ReservationOp)
    requires SoundRecord(r, slot) && r.state.IntentDurable? && !op.BeginCreation?
    ensures var p := ProposeReservation(r, op);
      && (p.Write? <==> r.binding.Some? && Filled(r.binding.value, op).Some?)
      && (p.Write? ==> p.next == r.(binding := Filled(r.binding.value, op)))
      && (p.Write? || p.Refused?)
  {
    hide ValidLeaf;
  }

  // ---- The life of the process ----

  lemma LifeExactly(r: SlotRecord, ev: SlotEvent)
    ensures ev.Issue? ==>
      var p := Propose(ev, r);
      && (p.Write? <==>
            && r.state.Vacant? && r.generation + 1 < 0x1_0000_0000_0000_0000 && ev.nonce > 0
            && (ev.owner.Some? ==> ev.owner.value.tournament > 0 && ev.owner.value.candidateIndex <= 1))
      && (p.Write? ==>
            p.next == SlotRecord(2, r.slot, r.generation + 1, ev.owner, None, IntentDurable(ev.nonce, ev.now)))
    ensures ev.Recycle? ==>
      var p := Propose(ev, r);
      && (p.Write? <==> r.state.ResolvedTombstone? && r.binding.None? && ev.now >= r.state.resolvedSecs + 86400)
      && (p.Write? ==> p.next == r.(owner := None, state := Vacant))
    ensures ev.Promote? ==>
      var p := Propose(ev, r);
      && (p.Write? <==> r.state.IntentDurable?)
      && (p.Write? ==> p.next == r.(state := IdentityDurable(r.state.nonce, ev.identity, true)))
    ensures ev.MarkPending? ==>
      var p := Propose(ev, r);
      && (p.Write? <==> r.state.IdentityDurable?)
      && (p.Write? ==>
            p.next == r.(state := CleanupPending(r.state.nonce, r.state.identity, r.state.releaseMayHaveOccurred)))
    ensures ev.Entomb? ==>
      var p := Propose(ev, r);
      && (p.Write? <==> r.state.IntentDurable? || r.state.CleanupPending?)
      && (p.Write? ==>
            && p.next == r.(state := p.next.state) && p.next.state.ResolvedTombstone?
            && p.next.state.nonce == r.state.nonce && p.next.state.resolvedSecs == ev.now
            && p.next.state.deadIdentity == if r.state.CleanupPending? then Some(r.state.identity) else None)
  {
  }

  // ---- The quarantine name ----

  /** The number that hexadecimal digits spell. */
  function HexValue(h: seq<Byte>): int {
    if h == [] then 0
    else
      var d := h[|h| - 1];
      16 * HexValue(h[..|h| - 1]) + if d <= '9' as int then d - '0' as int else d - 'a' as int + 10
  }

  function Power16(n: nat): nat {
    if n == 0 then 1 else 16 * Power16(n - 1)
  }

  lemma {:induction false} HexSpells(u: nat, n: nat)
    requires u < Power16(n)
    ensures HexValue(Hex(u, n)) == u
    ensures forall i :: 0 <= i < n ==> var c := Hex(u, n)[i]; '0' as int <= c <= '9' as int || 'a' as int <= c <= 'f' as int
  {
    if n > 0 {
      HexSpells(u / 16, n - 1);
      assert Hex(u, n)[..n - 1] == Hex(u / 16, n - 1);
    }
  }

  /** The name is a dot, the leaf, `.cleanup-` and the 32 digits of the nonce. */
  lemma QuarantineNameSpells(b: Binding)
    requires b.nonce < Power16(32)
    ensures var name, n := QuarantineName(b), |b.privateLeaf|;
      && |name| == n + 42 && name[0] == '.' as int && name[1..n + 1] == b.privateLeaf
      && name[n + 1..n + 10] == ['.' as int, 'c' as int, 'l' as int, 'e' as int, 'a' as int, 'n' as int, 'u' as int,
                                 'p' as int, '-' as int]
      && HexValue(name[n + 10..]) == b.nonce
  {
    hide Hex;
    var name, n, h := QuarantineName(b), |b.privateLeaf|, Hex(b.nonce, 32);
    assert name == [46] + b.privateLeaf + CLEANUP_INFIX + h;
    assert name[1..n + 1] == b.privateLeaf;
    assert name[n + 1..n + 10] == CLEANUP_INFIX;
    assert name[n + 10..] == h;
    HexSpells(b.nonce, 32);
  }
}
