/**
 Durable slot records of the managed-launch registry: the record itself, the
 artifact binding it may carry, the two validators and the relation that says
 which record may replace which.
 */
module SlotRecords {
  import opened Common

  const SLOT_SCHEMA_VERSION: nat := 2
  const MAX_LEAF_BYTES: nat := 255

  /** A UUID read as a number; the nil UUID is 0. */
  type Uuid = nat

  datatype OwnerRole = Probe | RunnerRole

  /** The only owner kind of the source is "speculation", so the kind is implicit. */
  datatype OwnerTag = OwnerTag(tournament: Uuid, candidateIndex: nat, role: OwnerRole)

  datatype ProcessIdentity = ProcessIdentity(bootUuid: Uuid, pidNamespace: nat, pid: nat, startTicks: nat)

  datatype DirectoryIdentity = DirectoryIdentity(bootUuid: Uuid, dev: nat, ino: nat, mountId: nat)

  datatype ArtifactIdentity = ArtifactIdentity(dev: nat, ino: nat)

  datatype CleanupStep = Ownership | Socket | Runner | Directory

  datatype CreationPhase =
    | Reserved
    | DirectoryCreated
    | RunnerCreatePending
    | RunnerCreated
    | SocketCreatePending
    | SocketCreated
    | OwnerCreatePending
    | OwnerCreated

  datatype Binding = Binding(
    nonce: Uuid,
    controlRoot: DirectoryIdentity,
    privateLeaf: seq<Byte>,
    privateDirectory: Option<DirectoryIdentity>,
    runner: Option<ArtifactIdentity>,
    socket: Option<ArtifactIdentity>,
    ownerFile: Option<ArtifactIdentity>,
    runnerCreatePending: bool,
    socketCreatePending: bool,
    ownerCreatePending: bool,
    quarantine: Option<seq<Byte>>,
    unlinkPending: Option<CleanupStep>,
    socketRetirePending: bool,
    socketRetired: bool,
    ownershipRemoved: bool,
    socketRemoved: bool,
    runnerRemoved: bool,
    completed: bool)
  {
    predicate CreationPending() {
      runnerCreatePending || socketCreatePending || ownerCreatePending
    }

    predicate StepCompleted(step: CleanupStep) {
      match step
      case Ownership => ownershipRemoved
      case Socket => socketRemoved
      case Runner => runnerRemoved
      case Directory => completed
    }

    predicate SameArtifact(other: Binding) {
      && nonce == other.nonce
      && controlRoot == other.controlRoot
      && privateLeaf == other.privateLeaf
      && privateDirectory == other.privateDirectory
      && runner == other.runner
      && socket == other.socket
      && ownerFile == other.ownerFile
      && runnerCreatePending == other.runnerCreatePending
      && socketCreatePending == other.socketCreatePending
      && ownerCreatePending == other.ownerCreatePending
    }

    function Phase(): Option<CreationPhase> {
      match (privateDirectory.Some?, runner.Some?, socket.Some?, ownerFile.Some?,
             runnerCreatePending, socketCreatePending, ownerCreatePending)
      case (false, false, false, false, false, false, false) => Some(Reserved)
      case (true, false, false, false, false, false, false) => Some(DirectoryCreated)
      case (true, false, false, false, true, false, false) => Some(RunnerCreatePending)
      case (true, true, false, false, false, false, false) => Some(RunnerCreated)
      case (true, true, false, false, false, true, false) => Some(SocketCreatePending)
      case (true, true, true, false, false, false, false) => Some(SocketCreated)
      case (true, true, true, false, false, false, true) => Some(OwnerCreatePending)
      case (true, true, true, true, false, false, false) => Some(OwnerCreated)
      case _ => None
    }

    predicate CreationProgressesTo(next: Binding) {
      match (Phase(), next.Phase())
      case (Some(Reserved), Some(DirectoryCreated)) => true
      case (Some(DirectoryCreated), Some(RunnerCreatePending)) =>
        privateDirectory == next.privateDirectory
      case (Some(RunnerCreatePending), Some(RunnerCreated)) =>
        privateDirectory == next.privateDirectory
      case (Some(RunnerCreated), Some(SocketCreatePending)) =>
        privateDirectory == next.privateDirectory && runner == next.runner
      case (Some(SocketCreatePending), Some(SocketCreated)) =>
        privateDirectory == next.privateDirectory && runner == next.runner
      case (Some(SocketCreated), Some(OwnerCreatePending)) =>
        privateDirectory == next.privateDirectory && runner == next.runner && socket == next.socket
      case (Some(OwnerCreatePending), Some(OwnerCreated)) =>
        privateDirectory == next.privateDirectory && runner == next.runner && socket == next.socket
      case _ => false
    }
  }

  datatype SlotState =
    | Vacant
    | IntentDurable(nonce: Uuid, createdSecs: nat)
    | IdentityDurable(nonce: Uuid, identity: ProcessIdentity, releaseMayHaveOccurred: bool)
    | CleanupPending(nonce: Uuid, identity: ProcessIdentity, releaseMayHaveOccurred: bool)
    | ResolvedTombstone(nonce: Uuid, deadIdentity: Option<ProcessIdentity>, resolvedSecs: nat)

  datatype SlotRecord = SlotRecord(
    schemaVersion: nat,
    slot: nat,
    generation: nat,
    owner: Option<OwnerTag>,
    binding: Option<Binding>,
    state: SlotState)

  predicate ValidOwner(owner: OwnerTag) {
    owner.tournament != 0 && owner.candidateIndex < 2
  }

  predicate ValidDirectory(d: DirectoryIdentity) {
    d.bootUuid != 0 && d.dev != 0 && d.ino != 0 && d.mountId != 0
  }

  predicate ValidArtifact(a: ArtifactIdentity) {
    a.dev != 0 && a.ino != 0
  }

  /** A single path component: not empty, at most 255 bytes, not `.`/`..`, no `/` and no NUL. */
  predicate ValidLeaf(leaf: seq<Byte>) {
    && 0 < |leaf| <= MAX_LEAF_BYTES
    && leaf != [46]
    && leaf != [46, 46]
    && 47 !in leaf
    && 0 !in leaf
  }

  predicate UnlinkInOrder(b: Binding, step: CleanupStep) {
    match step
    case Ownership => !b.ownershipRemoved && !b.socketRemoved && !b.runnerRemoved
    case Socket => b.ownershipRemoved && !b.socketRemoved && !b.runnerRemoved
    case Runner => b.ownershipRemoved && b.socketRemoved && !b.runnerRemoved
    case Directory => b.ownershipRemoved && b.socketRemoved && b.runnerRemoved && !b.completed
  }

  /** `ManagedArtifactBinding::validate`. */
  predicate ValidBinding(b: Binding) {
    && b.nonce != 0
    && ValidDirectory(b.controlRoot)
    && ValidLeaf(b.privateLeaf)
    && (b.privateDirectory.Some? ==> ValidDirectory(b.privateDirectory.value))
    && (b.socket.Some? ==> b.runner.Some?)
    && (b.runner.Some? ==> b.privateDirectory.Some?)
    && (b.runner.Some? ==> ValidArtifact(b.runner.value))
    && (b.socket.Some? ==> ValidArtifact(b.socket.value))
    && (b.ownerFile.Some? ==> ValidArtifact(b.ownerFile.value) && b.socket.Some?)
    && b.Phase().Some?
    && (b.quarantine.Some? ==> ValidLeaf(b.quarantine.value) && b.quarantine.value != b.privateLeaf)
    && (b.completed ==> b.quarantine.Some?)
    && (b.socketRetirePending ==> b.socket.Some? && !b.socketRetired)
    && (b.socketRetired ==> b.socket.Some? && !b.socketRetirePending)
    && (b.socketRemoved ==> b.ownershipRemoved)
    && (b.runnerRemoved ==> b.socketRemoved)
    && (b.completed ==> b.runnerRemoved)
    && (b.unlinkPending.Some? ==>
          && b.quarantine.Some?
          && !b.StepCompleted(b.unlinkPending.value)
          && UnlinkInOrder(b, b.unlinkPending.value))
  }

  /** `validate_slot_record`: what a read accepts as a known slot. */
  predicate ValidRecord(r: SlotRecord, slot: nat) {
    && r.schemaVersion == SLOT_SCHEMA_VERSION
    && r.slot == slot
    && (r.owner.Some? ==> ValidOwner(r.owner.value))
    && (r.binding.Some? ==>
          && ValidBinding(r.binding.value)
          && r.owner.Some?
          && !r.state.Vacant?
          && r.binding.value.nonce == r.state.nonce
          && (r.binding.value.quarantine.None? || r.state.ResolvedTombstone?))
    && (r.state.Vacant? ==> r.owner.None? && r.binding.None?)
    && (!r.state.Vacant? ==> r.state.nonce != 0)
  }

  // The ten kinds of binding update that a replacement may make.

  predicate CreationProgress(r: SlotRecord, before: Binding, after: Binding) {
    && r.state.IntentDurable?
    && before.quarantine.None? && after.quarantine.None?
    && before.unlinkPending.None? && after.unlinkPending.None?
    && !before.ownershipRemoved && !after.ownershipRemoved
    && !before.socketRemoved && !after.socketRemoved
    && !before.runnerRemoved && !after.runnerRemoved
    && !before.completed && !after.completed
    && !before.socketRetirePending && !after.socketRetirePending
    && !before.socketRetired && !after.socketRetired
    && before.CreationProgressesTo(after)
  }

  predicate CleanupFlagsUnchanged(before: Binding, after: Binding) {
    && before.unlinkPending == after.unlinkPending
    && before.ownershipRemoved == after.ownershipRemoved
    && before.socketRemoved == after.socketRemoved
    && before.runnerRemoved == after.runnerRemoved
    && before.completed == after.completed
  }

  predicate SocketRetireIntent(before: Binding, after: Binding) {
    && before.SameArtifact(after)
    && before.quarantine.None? && after.quarantine.None?
    && !before.socketRetirePending && after.socketRetirePending
    && !before.socketRetired && !after.socketRetired
    && CleanupFlagsUnchanged(before, after)
  }

  predicate SocketRetireReceipt(before: Binding, after: Binding) {
    && before.SameArtifact(after)
    && before.quarantine.None? && after.quarantine.None?
    && before.socketRetirePending && !after.socketRetirePending
    && !before.socketRetired && after.socketRetired
    && CleanupFlagsUnchanged(before, after)
  }

  predicate CleanupProgress(r: SlotRecord, before: Binding, after: Binding) {
    && r.state.ResolvedTombstone?
    && before.privateDirectory == after.privateDirectory
    && before.runner == after.runner
    && before.socket == after.socket
    && before.ownerFile == after.ownerFile
    && before.runnerCreatePending == after.runnerCreatePending
    && before.socketCreatePending == after.socketCreatePending
    && before.ownerCreatePending == after.ownerCreatePending
    && before.quarantine.None? && after.quarantine.Some?
    && before.unlinkPending.None? && after.unlinkPending.None?
    && !before.ownershipRemoved && !after.ownershipRemoved
    && !before.socketRemoved && !after.socketRemoved
    && !before.runnerRemoved && !after.runnerRemoved
    && !before.completed && !after.completed
  }

  predicate InsideCleanup(r: SlotRecord, before: Binding, after: Binding) {
    && r.state.ResolvedTombstone?
    && before.SameArtifact(after)
    && before.quarantine == after.quarantine
    && before.quarantine.Some?
    && !before.completed
  }

  predicate CleanupStepIntent(r: SlotRecord, before: Binding, after: Binding) {
    && InsideCleanup(r, before, after)
    && !after.completed
    && before.unlinkPending.None? && after.unlinkPending.Some?
    && before.ownershipRemoved == after.ownershipRemoved
    && before.socketRemoved == after.socketRemoved
    && before.runnerRemoved == after.runnerRemoved
  }

  predicate CleanupStepReceipt(r: SlotRecord, before: Binding, after: Binding) {
    && InsideCleanup(r, before, after)
    && !after.completed
    && before.unlinkPending.Some? && after.unlinkPending.None?
    && match before.unlinkPending.value
       case Ownership =>
         && !before.ownershipRemoved && !before.socketRemoved && !before.runnerRemoved
         && after.ownershipRemoved && !after.socketRemoved && !after.runnerRemoved
       case Socket =>
         && before.ownershipRemoved && !before.socketRemoved && !before.runnerRemoved
         && after.ownershipRemoved && after.socketRemoved && !after.runnerRemoved
       case Runner =>
         && before.ownershipRemoved && before.socketRemoved && !before.runnerRemoved
         && after.ownershipRemoved && after.socketRemoved && after.runnerRemoved
       case Directory => false
  }

  predicate AllRemoved(b: Binding) {
    b.ownershipRemoved && b.socketRemoved && b.runnerRemoved
  }

  predicate NoneRemoved(b: Binding) {
    !b.ownershipRemoved && !b.socketRemoved && !b.runnerRemoved
  }

  predicate CleanupCompletion(r: SlotRecord, before: Binding, after: Binding) {
    && InsideCleanup(r, before, after)
    && AllRemoved(before) && AllRemoved(after)
    && before.unlinkPending == Some(Directory) && after.unlinkPending.None?
    && after.completed
  }

  predicate LogicalAbsenceCompletion(r: SlotRecord, before: Binding, after: Binding) {
    && InsideCleanup(r, before, after)
    && before.unlinkPending.None? && NoneRemoved(before)
    && after.unlinkPending.None? && AllRemoved(after)
    && after.completed
  }

  predicate OldBootCompletion(r: SlotRecord, before: Binding, after: Binding) {
    && r.state.ResolvedTombstone?
    && before.SameArtifact(after)
    && after.quarantine.Some?
    && after.unlinkPending.None?
    && !after.socketRetirePending
    && after.socketRetired == (before.socketRetired || before.socket.Some?)
    && AllRemoved(after)
    && !before.completed && after.completed
  }

  /** An update of the binding alone, `binding_update` in `validate_transition`. */
  predicate BindingUpdate(current: SlotRecord, next: SlotRecord) {
    && current.(binding := next.binding) == next
    && match (current.binding, next.binding)
       case (None, Some(_)) => current.state.IntentDurable?
       case (Some(before), Some(after)) =>
         && before.nonce == after.nonce
         && before.controlRoot == after.controlRoot
         && before.privateLeaf == after.privateLeaf
         && (|| CreationProgress(current, before, after)
             || SocketRetireIntent(before, after)
             || SocketRetireReceipt(before, after)
             || OldBootCompletion(current, before, after)
             || (&& before.socketRetirePending == after.socketRetirePending
                 && before.socketRetired == after.socketRetired
                 && (|| CleanupProgress(current, before, after)
                     || CleanupStepIntent(current, before, after)
                     || CleanupStepReceipt(current, before, after)
                     || CleanupCompletion(current, before, after)
                     || LogicalAbsenceCompletion(current, before, after))))
       case (Some(before), None) =>
         current.state.ResolvedTombstone? && before.quarantine.Some? && before.completed
       case (None, None) => false
  }

  /** A move of the slot state, the `match` on states in `validate_transition`. */
  predicate StateMove(current: SlotRecord, next: SlotRecord) {
    match (current.state, next.state)
    case (Vacant, IntentDurable(_, _)) => CheckedSucc(current.generation) == Some(next.generation)
    case (IntentDurable(a, _), IdentityDurable(b, _, _)) => current.generation == next.generation && a == b
    case (IdentityDurable(a, _, _), CleanupPending(b, _, _)) => current.generation == next.generation && a == b
    case (CleanupPending(a, _, _), ResolvedTombstone(b, _, _)) => current.generation == next.generation && a == b
    case (IntentDurable(a, _), ResolvedTombstone(b, _, _)) => current.generation == next.generation && a == b
    case (ResolvedTombstone(_, _, _), Vacant) =>
      && current.generation == next.generation
      && current.binding.None?
      && next.owner.None?
      && next.binding.None?
    case _ => current == next
  }

  predicate OwnerStable(current: SlotRecord, next: SlotRecord) {
    match (current.state, next.state)
    case (Vacant, IntentDurable(_, _)) => next.owner.Some? ==> ValidOwner(next.owner.value)
    case (ResolvedTombstone(_, _, _), Vacant) => next.owner.None?
    case _ => current.owner == next.owner
  }

  /** `validate_transition`: which record may replace which. */
  predicate Transition(current: SlotRecord, next: SlotRecord) {
    && current.schemaVersion == SLOT_SCHEMA_VERSION
    && next.schemaVersion == SLOT_SCHEMA_VERSION
    && current.slot == next.slot
    && OwnerStable(current, next)
    && (BindingUpdate(current, next) || current.binding == next.binding)
    && (BindingUpdate(current, next) || StateMove(current, next))
  }

  // ---- Rank: a measure that every change of a record raises ----

  function PhaseRank(b: Binding): nat {
    match b.Phase()
    case None => 0
    case Some(Reserved) => 1
    case Some(DirectoryCreated) => 2
    case Some(RunnerCreatePending) => 3
    case Some(RunnerCreated) => 4
    case Some(SocketCreatePending) => 5
    case Some(SocketCreated) => 6
    case Some(OwnerCreatePending) => 7
    case Some(OwnerCreated) => 8
  }

  function Weight(flag: bool, weight: nat): nat {
    if flag then weight else 0
  }

  /** Progress of one binding: completion, quarantine, removals, unlink intent, retirement, creation. */
  function BindingRank(b: Binding): nat {
    Weight(b.completed, 1000) + Weight(b.quarantine.Some?, 400)
    + Weight(b.ownershipRemoved, 100) + Weight(b.socketRemoved, 100) + Weight(b.runnerRemoved, 100)
    + Weight(b.unlinkPending.Some?, 50)
    + Weight(b.socketRetirePending, 10) + Weight(b.socketRetired, 20)
    + PhaseRank(b)
  }

  function StateRank(s: SlotState): nat {
    match s
    case IntentDurable(_, _) => 0
    case IdentityDurable(_, _, _) => 1
    case CleanupPending(_, _, _) => 2
    case ResolvedTombstone(_, _, _) => 3
    case Vacant => 4
  }

  /** An acknowledged tombstone has no binding any more and ranks above every bound one. */
  function OccupancyRank(r: SlotRecord): nat {
    match r.binding
    case Some(b) => 1 + BindingRank(b)
    case None => if r.state.ResolvedTombstone? then 5000 else 0
  }

  /** (generation, state, binding progress), read lexicographically. */
  function Rank(r: SlotRecord): nat {
    100_000 * r.generation + 10_000 * StateRank(r.state) + OccupancyRank(r)
  }

  lemma SamePhaseSameRank(before: Binding, after: Binding)
    requires before.privateDirectory == after.privateDirectory && before.runner == after.runner
    requires before.socket == after.socket && before.ownerFile == after.ownerFile
    requires before.runnerCreatePending == after.runnerCreatePending
    requires before.socketCreatePending == after.socketCreatePending
    requires before.ownerCreatePending == after.ownerCreatePending
    ensures PhaseRank(before) == PhaseRank(after) <= 8
  {
  }

  lemma CreationRaisesRank(r: SlotRecord, before: Binding, after: Binding)
    requires CreationProgress(r, before, after)
    ensures BindingRank(before) < BindingRank(after)
  {
    assert PhaseRank(before) < PhaseRank(after);
  }

  lemma RetirementRaisesRank(before: Binding, after: Binding)
    requires SocketRetireIntent(before, after) || SocketRetireReceipt(before, after)
    ensures BindingRank(before) < BindingRank(after)
  {
    hide PhaseRank;
    SamePhaseSameRank(before, after);
  }

  lemma CleanupRaisesRank(r: SlotRecord, before: Binding, after: Binding)
    requires before.socketRetirePending == after.socketRetirePending && before.socketRetired == after.socketRetired
    requires CleanupProgress(r, before, after) || CleanupStepIntent(r, before, after) || CleanupStepReceipt(r, before, after)
             || CleanupCompletion(r, before, after) || LogicalAbsenceCompletion(r, before, after)
    ensures BindingRank(before) < BindingRank(after)
  {
    hide PhaseRank;
    SamePhaseSameRank(before, after);
  }

  lemma OldBootRaisesRank(r: SlotRecord, before: Binding, after: Binding)
    requires OldBootCompletion(r, before, after)
    ensures BindingRank(before) < BindingRank(after)
  {
    hide PhaseRank;
    SamePhaseSameRank(before, after);
  }

  lemma BindingUpdateRaisesRank(current: SlotRecord, next: SlotRecord)
    requires BindingUpdate(current, next)
    ensures OccupancyRank(current) < OccupancyRank(next)
  {
    hide BindingRank;
    hide CreationProgress;
    hide SocketRetireIntent;
    hide SocketRetireReceipt;
    hide OldBootCompletion;
    hide CleanupProgress;
    hide CleanupStepIntent;
    hide CleanupStepReceipt;
    hide CleanupCompletion;
    hide LogicalAbsenceCompletion;
    match (current.binding, next.binding)
    case (Some(before), Some(after)) =>
      if CreationProgress(current, before, after) {
        CreationRaisesRank(current, before, after);
      } else if SocketRetireIntent(before, after) || SocketRetireReceipt(before, after) {
        RetirementRaisesRank(before, after);
      } else if OldBootCompletion(current, before, after) {
        OldBootRaisesRank(current, before, after);
      } else {
        CleanupRaisesRank(current, before, after);
      }
    case (Some(before), None) => BindingRankBound(before);
    case _ =>
  }

  lemma BindingRankBound(b: Binding)
    ensures BindingRank(b) < 4000
  {
  }

  /** Every accepted change raises the rank, so a record value can never come back. */
  lemma TransitionRaisesRank(current: SlotRecord, next: SlotRecord)
    requires Transition(current, next)
    ensures current == next || Rank(current) < Rank(next)
  {
    if BindingUpdate(current, next) {
      BindingUpdateRaisesRank(current, next);
    } else if current != next {
      assert OccupancyRank(current) <= 5000 && OccupancyRank(next) <= 5000;
    }
  }

  /** The values one slot file takes over time. */
  ghost predicate History(h: seq<SlotRecord>) {
    forall i :: 0 < i < |h| ==> Transition(h[i - 1], h[i])
  }

  lemma HistoryIsRanked(h: seq<SlotRecord>)
    requires History(h)
    ensures Ranked(h, Rank)
  {
    forall i | 0 < i < |h|
      ensures h[i - 1] == h[i] || Rank(h[i - 1]) < Rank(h[i])
    {
      TransitionRaisesRank(h[i - 1], h[i]);
    }
  }

  /**
   No ABA: if a slot file holds the same record at two moments, it held that
   record at every moment in between, so comparing whole records detects every
   intermediate change.
   */
  lemma NoRecordRecurs(h: seq<SlotRecord>, i: nat, j: nat, k: nat)
    requires History(h) && i <= k <= j < |h|
    requires h[i] == h[j]
    ensures h[k] == h[i]
  {
    HistoryIsRanked(h);
    RankedIsMonotone(h, Rank, i, j);
  }
}
