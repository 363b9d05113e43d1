/**
 What the two validators let through, said without them: the shapes a readable binding
 can have, and what an accepted replacement can change and what it never changes.
 */
module SlotTransitions {
  import opened Common
  import opened SlotRecords
  import opened SlotEvents
  import opened SlotExactness

  // ---- Readable records ----

  /** Artifacts are created one after the other, and only the next one can be pending. */
  predicate CreationShape(b: Binding) {
    && (b.runner.Some? ==> b.privateDirectory.Some?)
    && (b.socket.Some? ==> b.runner.Some?)
    && (b.ownerFile.Some? ==> b.socket.Some?)
    && (b.runnerCreatePending ==> b.privateDirectory.Some? && b.runner.None?)
    && (b.socketCreatePending ==> b.runner.Some? && b.socket.None?)
    && (b.ownerCreatePending ==> b.socket.Some? && b.ownerFile.None?)
  }

  /** Artifacts are removed one after the other, only the next one can be pending, and completion is the end. */
  predicate RemovalShape(b: Binding) {
    && (b.runnerRemoved ==> b.socketRemoved) && (b.socketRemoved ==> b.ownershipRemoved)
    && (b.unlinkPending.Some? ==> b.quarantine.Some? && b.unlinkPending.value == NextStep(b) && !b.completed)
    && (b.completed ==> b.runnerRemoved && b.quarantine.Some?)
  }

  predicate RetirementShape(b: Binding) {
    && !(b.socketRetirePending && b.socketRetired)
    && (b.socketRetirePending || b.socketRetired ==> b.socket.Some?)
  }

  predicate Present(a: Option<ArtifactIdentity>) {
    a.Some? ==> a.value.dev > 0 && a.value.ino > 0
  }

  lemma LeafExactly(leaf: seq<Byte>)
    ensures ValidLeaf(leaf) <==> EntryName(leaf)
  {
    assert 47 in leaf <==> exists i :: 0 <= i < |leaf| && leaf[i] == 47;
    assert 0 in leaf <==> exists i :: 0 <= i < |leaf| && leaf[i] == 0;
  }

  lemma ReadableBindingExactly(b: Binding)
    ensures ValidBinding(b) <==>
      && b.nonce > 0 && NonZero(b.controlRoot) && EntryName(b.privateLeaf)
      && (b.privateDirectory.Some? ==> NonZero(b.privateDirectory.value))
      && Present(b.runner) && Present(b.socket) && Present(b.ownerFile)
      && (b.quarantine.Some? ==> EntryName(b.quarantine.value) && b.quarantine.value != b.privateLeaf)
      && CreationShape(b) && RemovalShape(b) && RetirementShape(b)
  {
    hide ValidLeaf;
    hide EntryName;
    LeafExactly(b.privateLeaf);
    if b.quarantine.Some? {
      LeafExactly(b.quarantine.value);
    }
  }

  /** A vacant slot is empty; an occupied one has a nonce; a binding has an owner, the nonce of its occupancy, and a
      quarantine only over a tombstone. */
  lemma ReadableRecordExactly(r: SlotRecord, slot: nat)
    ensures ValidRecord(r, slot) <==>
      && r.schemaVersion == 2 && r.slot == slot
      && (r.owner.Some? ==> r.owner.value.tournament > 0 && r.owner.value.candidateIndex <= 1)
      && (r.state.Vacant? ==> r.owner == None && r.binding == None)
      && (!r.state.Vacant? ==> r.state.nonce > 0)
      && (r.binding.Some? ==>
            && ValidBinding(r.binding.value) && r.owner.Some? && !r.state.Vacant?
            && r.binding.value.nonce == r.state.nonce
            && (r.binding.value.quarantine.Some? ==> r.state.ResolvedTombstone?))
  {
    hide ValidBinding;
  }

  // ---- Accepted replacements ----

  /** Which state can follow which. */
  predicate Follows(a: SlotState, b: SlotState) {
    || (a.Vacant? && b.IntentDurable?)
    || (a.IntentDurable? && (b.IdentityDurable? || b.ResolvedTombstone?))
    || (a.IdentityDurable? && b.CleanupPending?)
    || (a.CleanupPending? && b.ResolvedTombstone?)
    || (a.ResolvedTombstone? && b.Vacant?)
  }

  /**
   A replacement that changes the state moves it one step; the generation grows by one
   exactly when a vacant slot is issued; nonce, owner and binding stay for the whole
   occupancy, and a bound slot is never vacated.
   */
  lemma StateChangesExactly(r: SlotRecord, n: SlotRecord)
    requires r.state != n.state
    ensures Transition(r, n) <==>
      && r.schemaVersion == 2 && n.schemaVersion == 2 && n.slot == r.slot
      && Follows(r.state, n.state) && n.binding == r.binding
      && (if r.state.Vacant? then
            && r.generation < 0xFFFF_FFFF_FFFF_FFFF && n.generation == r.generation + 1
            && (n.owner.Some? ==> n.owner.value.tournament > 0 && n.owner.value.candidateIndex <= 1)
          else n.generation == r.generation)
      && (n.state.Vacant? ==> n.owner.None? && n.binding.None?)
      && (!r.state.Vacant? && !n.state.Vacant? ==> n.owner == r.owner && n.state.nonce == r.state.nonce)
  {
  }

  /** A replacement that keeps the state changes the binding alone, or nothing. */
  lemma OtherChangesAreOfTheBinding(r: SlotRecord, n: SlotRecord)
    requires Transition(r, n) && r.state == n.state && r != n
    ensures n == r.(binding := n.binding) && BindingUpdate(r, n)
  {
  }

  /** How far creation has come: two for each artifact that is there, one for a pending one. */
  function CreationCount(b: Binding): nat {
    (if b.privateDirectory.Some? then 2 else 0)
    + (if b.runnerCreatePending then 1 else 0) + (if b.runner.Some? then 2 else 0)
    + (if b.socketCreatePending then 1 else 0) + (if b.socket.Some? then 2 else 0)
    + (if b.ownerCreatePending then 1 else 0) + (if b.ownerFile.Some? then 2 else 0)
  }

  /** What is known of the artifacts never changes once it is recorded. */
  predicate KnownKept(b: Binding, n: Binding) {
    && n.nonce == b.nonce && n.controlRoot == b.controlRoot && n.privateLeaf == b.privateLeaf
    && (b.privateDirectory.Some? ==> n.privateDirectory == b.privateDirectory)
    && (b.runner.Some? ==> n.runner == b.runner)
    && (b.socket.Some? ==> n.socket == b.socket)
    && (b.ownerFile.Some? ==> n.ownerFile == b.ownerFile)
  }

  /** No receipt is taken back. */
  predicate ReceiptsKept(b: Binding, n: Binding) {
    && (b.ownershipRemoved ==> n.ownershipRemoved) && (b.socketRemoved ==> n.socketRemoved)
    && (b.runnerRemoved ==> n.runnerRemoved) && (b.socketRetired ==> n.socketRetired)
    && (b.quarantine.Some? ==> n.quarantine.Some?) && !b.completed
  }

  lemma BindingUpdatesKeepFacts(r: SlotRecord, n: SlotRecord)
    requires BindingUpdate(r, n) && r.binding.Some? && n.binding.Some?
    ensures KnownKept(r.binding.value, n.binding.value)
    ensures !r.binding.value.completed ==> ReceiptsKept(r.binding.value, n.binding.value)
  {
  }

  /** How far cleanup has come, link by link. */
  function CleanupCount(b: Binding): nat {
    if b.completed then 9
    else if b.quarantine.None? then 0
    else
      1 + (if b.ownershipRemoved then 2 else 0) + (if b.socketRemoved then 2 else 0) + (if b.runnerRemoved then 2 else 0)
      + (if b.unlinkPending.Some? then 1 else 0)
  }

  /** Only retirement differs. */
  predicate SameButRetirement(b: Binding, n: Binding) {
    n == b.(socketRetirePending := n.socketRetirePending, socketRetired := n.socketRetired)
  }

  predicate SameRetirement(b: Binding, c: Binding) {
    c.socketRetirePending == b.socketRetirePending && c.socketRetired == b.socketRetired
  }

  /** A retirement is begun, or the one begun is received. */
  predicate RetirementStep(b: Binding, c: Binding) {
    && SameButRetirement(b, c) && b.quarantine.None? && !b.socketRetired
    && (if b.socketRetirePending then !c.socketRetirePending && c.socketRetired
        else c.socketRetirePending && !c.socketRetired)
  }

  /** One more link of cleanup, in the same quarantine. */
  predicate CleanupLink(b: Binding, c: Binding) {
    && CopyOf(c, b) && SameRetirement(b, c) && (b.quarantine.Some? ==> c.quarantine == b.quarantine)
    && CleanupCount(c) == CleanupCount(b) + 1
  }

  /** Completion at once from a fresh quarantine, or with the retirement settled on the way. */
  predicate CompletionAtOnce(b: Binding, c: Binding) {
    && CopyOf(c, b) && !b.completed && c.completed
    && (|| (SameRetirement(b, c) && c.quarantine == b.quarantine && CleanupCount(b) == 1)
        || (!c.socketRetirePending && c.socketRetired == (b.socketRetired || b.socket.Some?)))
  }

  /**
   Exactly which updates of a sound, bound record to a readable one are accepted: during
   an intent one step of creation; one step of retirement; over a tombstone one link of
   cleanup, or completion at once.
   */
  lemma BindingUpdateExactly(r: SlotRecord, slot: nat, n: SlotRecord)
    requires SoundRecord(r, slot) && ValidRecord(n, slot) && r.binding.Some? && n.binding.Some?
    requires n == r.(binding := n.binding)
    ensures var b, c := r.binding.value, n.binding.value;
      BindingUpdate(r, n) <==>
        || (r.state.IntentDurable? && CreationStep(b, c))
        || RetirementStep(b, c)
        || (r.state.ResolvedTombstone? && (CleanupLink(b, c) || CompletionAtOnce(b, c)))
  {
    hide ValidLeaf;
    hide ValidDirectory;
    hide ValidArtifact;
    var b, c := r.binding.value, n.binding.value;
    CopyIsSameArtifact(c, b);
    SameBothWays(b, c);
    if BindingUpdate(r, n) {
      UpdateIsAStep(r, slot, n);
    }
    if r.state.IntentDurable? && CreationStep(b, c) {
      CreationShapeOf(c);
      CreationStepIsAccepted(r, slot, c);
    } else if RetirementStep(b, c) {
      RetirementIsAccepted(r, slot, n);
    } else if r.state.ResolvedTombstone? && CleanupLink(b, c) {
      LinkIsAccepted(r, slot, n);
    } else if r.state.ResolvedTombstone? && CompletionAtOnce(b, c) {
      CompletionIsAccepted(r, slot, n);
    }
  }

  lemma SameBothWays(a: Binding, b: Binding)
    ensures a.SameArtifact(b) <==> b.SameArtifact(a)
  {
  }

  lemma CreationShapeOf(b: Binding)
    requires ValidBinding(b)
    ensures CreationShape(b)
  {
    hide ValidLeaf;
  }

  lemma UpdateIsAStep(r: SlotRecord, slot: nat, n: SlotRecord)
    requires SoundRecord(r, slot) && ValidRecord(n, slot) && BindingUpdate(r, n)
    requires r.binding.Some? && n.binding.Some?
    ensures var b, c := r.binding.value, n.binding.value;
      || (r.state.IntentDurable? && CreationStep(b, c))
      || RetirementStep(b, c)
      || (r.state.ResolvedTombstone? && (CleanupLink(b, c) || CompletionAtOnce(b, c)))
  {
    hide ValidLeaf;
    hide ValidDirectory;
    hide ValidArtifact;
    var b, c := r.binding.value, n.binding.value;
    CopyIsSameArtifact(c, b);
    SameBothWays(b, c);
    if CreationProgress(r, b, c) {
      CreationStepExactly(r, slot, b, c);
    }
  }

  lemma RetirementIsAccepted(r: SlotRecord, slot: nat, n: SlotRecord)
    requires SoundRecord(r, slot) && n == r.(binding := n.binding) && r.binding.Some? && n.binding.Some?
    requires RetirementStep(r.binding.value, n.binding.value)
    ensures BindingUpdate(r, n)
  {
    hide ValidBinding;
  }

  lemma LinkIsAccepted(r: SlotRecord, slot: nat, n: SlotRecord)
    requires SoundRecord(r, slot) && ValidRecord(n, slot) && n == r.(binding := n.binding)
    requires r.binding.Some? && n.binding.Some? && r.state.ResolvedTombstone?
    requires CleanupLink(r.binding.value, n.binding.value)
    ensures BindingUpdate(r, n)
  {
    hide ValidLeaf;
    hide ValidDirectory;
    hide ValidArtifact;
    CopyIsSameArtifact(n.binding.value, r.binding.value);
    SameBothWays(r.binding.value, n.binding.value);
  }

  lemma CompletionIsAccepted(r: SlotRecord, slot: nat, n: SlotRecord)
    requires SoundRecord(r, slot) && ValidRecord(n, slot) && n == r.(binding := n.binding)
    requires r.binding.Some? && n.binding.Some? && r.state.ResolvedTombstone?
    requires CompletionAtOnce(r.binding.value, n.binding.value)
    ensures BindingUpdate(r, n)
  {
    hide ValidLeaf;
    hide ValidDirectory;
    hide ValidArtifact;
    CopyIsSameArtifact(n.binding.value, r.binding.value);
    SameBothWays(r.binding.value, n.binding.value);
  }

  /** The next artifact becomes pending, or the pending one is there; the directory needs no intent. */
  predicate CreationStep(b: Binding, c: Binding) {
    && c == b.(
      privateDirectory := c.privateDirectory, runner := c.runner, socket := c.socket, ownerFile := c.ownerFile,
      runnerCreatePending := c.runnerCreatePending, socketCreatePending := c.socketCreatePending,
      ownerCreatePending := c.ownerCreatePending)
    && KnownKept(b, c)
    && CreationCount(c) == CreationCount(b) + if b.privateDirectory.None? then 2 else 1
  }

  lemma CreationStepExactly(r: SlotRecord, slot: nat, b: Binding, c: Binding)
    requires CreationProgress(r, b, c) && b.nonce == c.nonce && b.controlRoot == c.controlRoot && b.privateLeaf == c.privateLeaf
    ensures CreationStep(b, c)
  {
  }

  /** During an intent every such step is accepted. */
  lemma CreationStepIsAccepted(r: SlotRecord, slot: nat, c: Binding)
    requires SoundRecord(r, slot) && r.state.IntentDurable? && r.binding.Some?
    requires CreationStep(r.binding.value, c) && CreationShape(c)
    ensures Transition(r, r.(binding := Some(c))) && BindingUpdate(r, r.(binding := Some(c)))
  {
    hide ValidLeaf;
    var n := r.(binding := Some(c));
    assert CreationProgress(r, r.binding.value, c);
    assert BindingUpdate(r, n);
  }

  /** A binding appears only with an intent, and disappears only over a tombstone with completed cleanup. */
  lemma BindingAppearsAndDisappears(r: SlotRecord, n: SlotRecord)
    requires n == r.(binding := n.binding) && r.schemaVersion == 2
    ensures r.binding.None? && n.binding.Some? ==> (Transition(r, n) <==> r.state.IntentDurable?)
    ensures r.binding.Some? && n.binding.None? ==>
      (Transition(r, n) <==>
        r.state.ResolvedTombstone? && r.binding.value.quarantine.Some? && r.binding.value.completed)
  {
  }
}
