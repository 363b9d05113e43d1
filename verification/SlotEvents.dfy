/**
 What each registry operation writes: a function from the record it reads to the
 record it proposes. Every member here mirrors the guards of one operation; the
 lemmas show that the guards are strong enough for `validate_transition` and for
 the next read.
 */
module SlotEvents {
  import opened Common
  import opened SlotRecords

  const TOMBSTONE_RETENTION_SECS: nat := 24 * 60 * 60

  /** What an operation does with the record it read. */
  datatype Proposal = Refused | Unchanged | Write(next: SlotRecord)

  /** Registry operations on the binding of an occupied slot, run under `registry.lock`. */
  datatype ArtifactOp =
    | Acknowledge
    | BeginCleanup
    | BeginSocketRetirement
    | FinishSocketRetirement
    | FinishCleanup
    | BeginUnlink(step: CleanupStep)
    | FinishUnlink(step: CleanupStep)
    | OldBootAbsence(boot: Option<Uuid>)
    | NeverCreatedAbsence(boot: Option<Uuid>)

  /** Updates a reservation makes to its own intent, run under the slot guard. */
  datatype ReservationOp =
    | BeginCreation(controlRoot: DirectoryIdentity, leaf: seq<Byte>)
    | FinishDirectory(directory: DirectoryIdentity)
    | BeginRunner
    | FinishRunner(runner: ArtifactIdentity)
    | BeginSocket
    | FinishSocket(socket: ArtifactIdentity)
    | BeginOwner
    | FinishOwner(ownerFile: ArtifactIdentity)

  /** Everything that writes a slot file. */
  datatype SlotEvent =
    | Issue(owner: Option<OwnerTag>, nonce: Uuid, now: nat)
    | Recycle(now: nat)
    | Reserve(reservation: ReservationOp)
    | Promote(identity: ProcessIdentity)
    | MarkPending
    | Entomb(now: nat)
    | Artifact(generation: nat, binding: Binding, op: ArtifactOp)

  // ---- The quarantine name ----

  function HexDigit(d: nat): Byte
    requires d < 16
  {
    if d < 10 then 48 + d else 87 + d
  }

  /** The last `n` hexadecimal digits of `u`; a UUID in simple form has 32. */
  function Hex(u: nat, n: nat): (h: seq<Byte>)
    ensures |h| == n
    ensures forall i :: 0 <= i < n ==> h[i] >= 48
  {
    if n == 0 then [] else Hex(u / 16, n - 1) + [HexDigit(u % 16)]
  }

  const CLEANUP_INFIX: seq<Byte> := [46, 99, 108, 101, 97, 110, 117, 112, 45]  // ".cleanup-"

  function QuarantineName(b: Binding): (name: seq<Byte>)
    ensures |name| == |b.privateLeaf| + 42
  {
    [46] + b.privateLeaf + CLEANUP_INFIX + Hex(b.nonce, 32)
  }

  /** The quarantine name of a valid leaf is a valid leaf exactly up to 213 bytes. */
  lemma QuarantineFits(b: Binding)
    requires ValidLeaf(b.privateLeaf)
    ensures ValidLeaf(QuarantineName(b)) <==> |b.privateLeaf| <= 213
    ensures QuarantineName(b) != b.privateLeaf
  {
    var name := QuarantineName(b);
    var h := Hex(b.nonce, 32);
    var head := [46] + b.privateLeaf + CLEANUP_INFIX;
    assert name == head + h;
    forall c | c in name
      ensures c != 47 && c != 0
    {
      assert c in head || c in h;
      assert c in head ==> c == 46 || c in b.privateLeaf || c in CLEANUP_INFIX;
    }
    assert |name| > 2;
  }

  // ---- Registry operations on a binding ----

  function Rebind(r: SlotRecord, b: Binding): SlotRecord {
    r.(binding := Some(b))
  }

  function ProposeAcknowledge(r: SlotRecord, stale: Binding): Proposal {
    if r.binding.None? && r.state.ResolvedTombstone? then Unchanged
    else if r.binding.None? then Refused
    else
      var b := r.binding.value;
      if !b.SameArtifact(stale) || b.CreationPending() then Refused
      else if !(r.state.ResolvedTombstone? && b.quarantine.Some? && b.completed) then Refused
      else Write(r.(binding := None))
  }

  function ProposeBeginCleanup(r: SlotRecord, b: Binding, stale: Binding): Proposal {
    if !r.state.ResolvedTombstone? || b.socketRetirePending || b.CreationPending() then Refused
    else if !b.SameArtifact(stale) then Refused
    else if b.quarantine.Some? then Unchanged
    else if !ValidLeaf(QuarantineName(b)) then Refused
    else Write(Rebind(r, b.(quarantine := Some(QuarantineName(b)), completed := false)))
  }

  function ProposeBeginRetirement(r: SlotRecord, b: Binding, stale: Binding): Proposal {
    if !r.state.IdentityDurable? || b.CreationPending() || b.ownerFile.None? then Refused
    else if !(b.SameArtifact(stale) && b.quarantine.None? && b.socket.Some?) then Refused
    else if b.socketRetired || b.socketRetirePending then Unchanged
    else Write(Rebind(r, b.(socketRetirePending := true)))
  }

  function ProposeFinishRetirement(r: SlotRecord, b: Binding, stale: Binding): Proposal {
    if !(b.SameArtifact(stale) && b.quarantine.None?) then Refused
    else if b.socketRetired then Unchanged
    else if !b.socketRetirePending then Refused
    else Write(Rebind(r, b.(socketRetirePending := false, socketRetired := true)))
  }

  function ProposeFinishCleanup(r: SlotRecord, b: Binding, stale: Binding): Proposal {
    if !r.state.ResolvedTombstone? || !b.SameArtifact(stale) then Refused
    else if b.completed then Unchanged
    else if !(b.quarantine.Some? && AllRemoved(b) && b.unlinkPending == Some(Directory)) then Refused
    else Write(Rebind(r, b.(unlinkPending := None, completed := true)))
  }

  function ProposeBeginUnlink(r: SlotRecord, b: Binding, stale: Binding, step: CleanupStep): Proposal {
    if !r.state.ResolvedTombstone? || !b.SameArtifact(stale) then Refused
    else if !(b.quarantine.Some? && !b.completed) then Refused
    else if b.StepCompleted(step) then Unchanged
    else if b.unlinkPending.Some? then (if b.unlinkPending.value == step then Unchanged else Refused)
    else
      var pending := b.(unlinkPending := Some(step));
      if !ValidBinding(pending) then Refused else Write(Rebind(r, pending))
  }

  function ProposeFinishUnlink(r: SlotRecord, b: Binding, stale: Binding, step: CleanupStep): Proposal {
    if !r.state.ResolvedTombstone? || !b.SameArtifact(stale) then Refused
    else if !(b.quarantine.Some? && !b.completed) then Refused
    else if b.StepCompleted(step) then Unchanged
    else if b.unlinkPending != Some(step) then Refused
    else
      match step
      case Ownership =>
        if b.socketRemoved || b.runnerRemoved then Refused
        else Write(Rebind(r, b.(unlinkPending := None, ownershipRemoved := true)))
      case Socket =>
        if !b.ownershipRemoved || b.runnerRemoved then Refused
        else Write(Rebind(r, b.(unlinkPending := None, socketRemoved := true)))
      case Runner =>
        if !b.ownershipRemoved || !b.socketRemoved then Refused
        else Write(Rebind(r, b.(unlinkPending := None, runnerRemoved := true)))
      case Directory => Refused
  }

  function ProposeOldBootAbsence(r: SlotRecord, b: Binding, stale: Binding, boot: Option<Uuid>): Proposal {
    if !r.state.ResolvedTombstone? || !b.SameArtifact(stale) || b.CreationPending() then Refused
    else if boot.None? || b.controlRoot.bootUuid == boot.value then Refused
    else if b.completed then Unchanged
    else
      var quarantine := if b.quarantine.Some? then b.quarantine.value else QuarantineName(b);
      if !ValidLeaf(quarantine) then Refused
      else Write(Rebind(r, b.(
          quarantine := Some(quarantine),
          unlinkPending := None,
          socketRetirePending := false,
          socketRetired := b.socketRetired || b.socket.Some?,
          ownershipRemoved := true,
          socketRemoved := true,
          runnerRemoved := true,
          completed := true)))
  }

  function ProposeNeverCreatedAbsence(r: SlotRecord, b: Binding, stale: Binding, boot: Option<Uuid>): Proposal {
    if !r.state.ResolvedTombstone? then Refused
    else if !(&& b.SameArtifact(stale)
              && b.privateDirectory.None? && b.runner.None? && b.socket.None?
              && b.quarantine.Some? && b.unlinkPending.None?
              && !b.socketRetirePending && !b.socketRetired) then Refused
    else if boot.None? || b.controlRoot.bootUuid != boot.value then Refused
    else if b.completed then Unchanged
    else Write(Rebind(r, b.(
        ownershipRemoved := true,
        socketRemoved := true,
        runnerRemoved := true,
        completed := true)))
  }

  /** One call of an artifact operation with the key's generation and the caller's copy of the binding. */
  function ProposeArtifact(r: SlotRecord, generation: nat, stale: Binding, op: ArtifactOp): Proposal {
    if r.generation != generation then Refused
    else if op.Acknowledge? then ProposeAcknowledge(r, stale)
    else if r.binding.None? then Refused
    else
      var b := r.binding.value;
      match op
      case Acknowledge => Refused
      case BeginCleanup => ProposeBeginCleanup(r, b, stale)
      case BeginSocketRetirement => ProposeBeginRetirement(r, b, stale)
      case FinishSocketRetirement => ProposeFinishRetirement(r, b, stale)
      case FinishCleanup => ProposeFinishCleanup(r, b, stale)
      case BeginUnlink(step) => ProposeBeginUnlink(r, b, stale, step)
      case FinishUnlink(step) => ProposeFinishUnlink(r, b, stale, step)
      case OldBootAbsence(boot) => ProposeOldBootAbsence(r, b, stale, boot)
      case NeverCreatedAbsence(boot) => ProposeNeverCreatedAbsence(r, b, stale, boot)
  }

  // ---- Reservation updates ----

  function FreshBinding(nonce: Uuid, controlRoot: DirectoryIdentity, leaf: seq<Byte>): Binding {
    Binding(nonce, controlRoot, leaf, None, None, None, None, false, false, false,
            None, None, false, false, false, false, false, false)
  }

  function Guarded(ok: bool, next: SlotRecord): Proposal {
    if ok then Write(next) else Refused
  }

  function ProposeReservation(r: SlotRecord, op: ReservationOp): Proposal {
    match op
    case BeginCreation(root, leaf) =>
      if !ValidDirectory(root) || r.binding.Some? || !r.state.IntentDurable? then Refused
      else
        var b := FreshBinding(r.state.nonce, root, leaf);
        Guarded(ValidBinding(b), Rebind(r, b))
    case _ =>
      if r.binding.None? then Refused
      else
        var b := r.binding.value;
        match op
        case BeginCreation(_, _) => Refused
        case FinishDirectory(d) =>
          Guarded(ValidDirectory(d) && b.Phase() == Some(Reserved),
                  Rebind(r, b.(privateDirectory := Some(d))))
        case BeginRunner =>
          var n := b.(runnerCreatePending := true);
          Guarded(b.Phase() == Some(DirectoryCreated) && ValidBinding(n), Rebind(r, n))
        case FinishRunner(a) =>
          Guarded(ValidArtifact(a) && b.Phase() == Some(RunnerCreatePending),
                  Rebind(r, b.(runner := Some(a), runnerCreatePending := false)))
        case BeginSocket =>
          var n := b.(socketCreatePending := true);
          Guarded(b.Phase() == Some(RunnerCreated) && ValidBinding(n), Rebind(r, n))
        case FinishSocket(a) =>
          Guarded(ValidArtifact(a) && b.Phase() == Some(SocketCreatePending),
                  Rebind(r, b.(socket := Some(a), socketCreatePending := false)))
        case BeginOwner =>
          var n := b.(ownerCreatePending := true);
          Guarded(b.Phase() == Some(SocketCreated) && ValidBinding(n), Rebind(r, n))
        case FinishOwner(a) =>
          var n := b.(ownerFile := Some(a), ownerCreatePending := false);
          Guarded(ValidArtifact(a) && b.Phase() == Some(OwnerCreatePending) && ValidBinding(n), Rebind(r, n))
  }

  // ---- Process life cycle ----

  /** Only a tombstone that is old enough and has no binding left is recycled. */
  predicate Recyclable(r: SlotRecord, now: nat) {
    && r.state.ResolvedTombstone?
    && now >= r.state.resolvedSecs
    && now - r.state.resolvedSecs >= TOMBSTONE_RETENTION_SECS
    && r.binding.None?
  }

  function Recycled(r: SlotRecord): SlotRecord {
    r.(owner := None, state := Vacant)
  }

  /** What an event proposes against the record it finds. */
  function Propose(ev: SlotEvent, r: SlotRecord): Proposal {
    match ev
    case Issue(owner, nonce, now) =>
      var generation := CheckedSucc(r.generation);
      if !r.state.Vacant? || generation.None? || nonce == 0 || (owner.Some? && !ValidOwner(owner.value)) then Refused
      else Write(SlotRecord(SLOT_SCHEMA_VERSION, r.slot, generation.value, owner, None, IntentDurable(nonce, now)))
    case Recycle(now) =>
      Guarded(Recyclable(r, now), Recycled(r))
    case Reserve(op) =>
      if !r.state.IntentDurable? then Refused else ProposeReservation(r, op)
    case Promote(identity) =>
      if !r.state.IntentDurable? then Refused
      else Write(r.(state := IdentityDurable(r.state.nonce, identity, true)))
    case MarkPending =>
      if r.state.CleanupPending? then Unchanged
      else if !r.state.IdentityDurable? then Refused
      else Write(r.(state := CleanupPending(r.state.nonce, r.state.identity, r.state.releaseMayHaveOccurred)))
    case Entomb(now) =>
      if r.state.IntentDurable? then Write(r.(state := ResolvedTombstone(r.state.nonce, None, now)))
      else if r.state.CleanupPending? then
        Write(r.(state := ResolvedTombstone(r.state.nonce, Some(r.state.identity), now)))
      else Refused
    case Artifact(generation, stale, op) => ProposeArtifact(r, generation, stale, op)
  }

  // ---- The invariant behind `validate_slot_record` ----

  /** What the operations keep beyond `ManagedArtifactBinding::validate`. */
  predicate SoundBinding(b: Binding, s: SlotState) {
    && (b.ownershipRemoved ==> b.quarantine.Some?)
    && (b.quarantine.Some? ==> !b.CreationPending() && !b.socketRetirePending)
    && (s.IntentDurable? ==> !b.socketRetirePending && !b.socketRetired)
  }

  predicate SoundRecord(r: SlotRecord, slot: nat) {
    && ValidRecord(r, slot)
    && (r.binding.Some? ==> SoundBinding(r.binding.value, r.state))
  }

  /** The one operation that does not look at the owner it needs. */
  predicate OwnerlessCreation(ev: SlotEvent, r: SlotRecord) {
    ev.Reserve? && ev.reservation.BeginCreation? && r.owner.None?
  }

  lemma ReservationIsAccepted(r: SlotRecord, slot: nat, op: ReservationOp)
    requires SoundRecord(r, slot) && r.state.IntentDurable?
    requires ProposeReservation(r, op).Write?
    ensures var next := ProposeReservation(r, op).next;
      && BindingUpdate(r, next)
      && (SoundRecord(next, slot) <==> !OwnerlessCreation(Reserve(op), r))
      && (ValidRecord(next, slot) <==> !OwnerlessCreation(Reserve(op), r))
  {
    hide ValidLeaf;
    var next := ProposeReservation(r, op).next;
    if op.BeginCreation? {
    } else {
      var before, after := r.binding.value, next.binding.value;
      assert CreationProgress(r, before, after);
    }
  }

  lemma CleanupOpIsAccepted(r: SlotRecord, slot: nat, generation: nat, stale: Binding, op: ArtifactOp)
    requires SoundRecord(r, slot)
    requires op.BeginCleanup? || op.FinishCleanup? || op.BeginUnlink? || op.FinishUnlink?
    requires ProposeArtifact(r, generation, stale, op).Write?
    ensures var next := ProposeArtifact(r, generation, stale, op).next;
      BindingUpdate(r, next) && SoundRecord(next, slot)
  {
    var next := ProposeArtifact(r, generation, stale, op).next;
    var before, after := r.binding.value, next.binding.value;
    match op
    case BeginCleanup =>
      QuarantineFits(before);
      assert before.unlinkPending.None? && !before.ownershipRemoved;
      assert CleanupProgress(r, before, after);
    case FinishCleanup => assert CleanupCompletion(r, before, after);
    case BeginUnlink(step) => assert CleanupStepIntent(r, before, after);
    case FinishUnlink(step) => assert CleanupStepReceipt(r, before, after);
  }

  lemma OtherArtifactOpIsAccepted(r: SlotRecord, slot: nat, generation: nat, stale: Binding, op: ArtifactOp)
    requires SoundRecord(r, slot)
    requires !(op.BeginCleanup? || op.FinishCleanup? || op.BeginUnlink? || op.FinishUnlink?)
    requires ProposeArtifact(r, generation, stale, op).Write?
    ensures var next := ProposeArtifact(r, generation, stale, op).next;
      BindingUpdate(r, next) && SoundRecord(next, slot)
  {
    var next := ProposeArtifact(r, generation, stale, op).next;
    var before := r.binding.value;
    match op
    case Acknowledge =>
    case BeginSocketRetirement => assert SocketRetireIntent(before, next.binding.value);
    case FinishSocketRetirement => assert SocketRetireReceipt(before, next.binding.value);
    case OldBootAbsence(_) =>
      QuarantineFits(before);
      assert OldBootCompletion(r, before, next.binding.value);
    case NeverCreatedAbsence(_) =>
      var after := next.binding.value;
      if NoneRemoved(before) {
        assert LogicalAbsenceCompletion(r, before, after);
      } else {
        assert OldBootCompletion(r, before, after);
      }
  }

  /**
   Whatever an operation proposes from a sound record is an accepted transition,
   and the result is again readable and sound, with a single exception: beginning
   artifact creation on a reservation without an owner writes a record that the
   next read rejects.
   */
  lemma ProposalIsAccepted(ev: SlotEvent, r: SlotRecord, slot: nat)
    requires SoundRecord(r, slot)
    requires Propose(ev, r).Write?
    ensures Transition(r, Propose(ev, r).next)
    ensures SoundRecord(Propose(ev, r).next, slot) <==> !OwnerlessCreation(ev, r)
    ensures ValidRecord(Propose(ev, r).next, slot) <==> !OwnerlessCreation(ev, r)
  {
    hide ProposeArtifact;
    hide ProposeReservation;
    hide ValidBinding;
    match ev
    case Reserve(op) => ReservationIsAccepted(r, slot, op);
    case Artifact(g, stale, op) =>
      if op.BeginCleanup? || op.FinishCleanup? || op.BeginUnlink? || op.FinishUnlink? {
        CleanupOpIsAccepted(r, slot, g, stale, op);
      } else {
        OtherArtifactOpIsAccepted(r, slot, g, stale, op);
      }
    case _ =>
  }

  /** An input that shows the exception: creation begun without an owner makes the slot unreadable. */
  lemma OwnerlessCreationHidesTheSlot()
    ensures var r := SlotRecord(2, 7, 1, None, None, IntentDurable(9, 0));
      var ev := Reserve(BeginCreation(DirectoryIdentity(1, 1, 1, 1), [97]));
      SoundRecord(r, 7) && Propose(ev, r).Write? && !ValidRecord(Propose(ev, r).next, 7)
  {
    assert ValidLeaf([97]);
  }

  // ---- Retry ----

  /**
   Retry safety: if the write became durable but the caller saw an error, calling
   again with the same stale copy succeeds and leaves the record as it is.
   */
  lemma ArtifactRetryIsIdempotent(r: SlotRecord, slot: nat, generation: nat, stale: Binding, op: ArtifactOp)
    requires SoundRecord(r, slot)
    requires ProposeArtifact(r, generation, stale, op).Write?
    ensures ProposeArtifact(ProposeArtifact(r, generation, stale, op).next, generation, stale, op) == Unchanged
  {
  }
}
