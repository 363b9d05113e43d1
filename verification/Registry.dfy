/**
 The registry object and the reservation that works on it. Each method performs the
 reads and replacements of one operation; its contract ties the files to `Exec`.
 */
module Registry {
  import opened Common
  import opened SlotRecords
  import opened SlotEvents
  import opened RegistryFiles
  import opened SlotExactness

  datatype AllocationError =
    InvalidOwner | OwnerExists | OwnerUncertain | CapacityExhausted | GenerationExhausted | GuardBusy

  datatype UnknownCode = BusyGuardIdentityAbsent | EvidenceUnavailable | RegistrationUnavailable | StillLive

  datatype ReconcileOutcome = NothingThere | Live | Unknown(code: UnknownCode) | Tombstone

  /** What a gate writes about itself before it greets. */
  datatype GateRegistration = GateRegistration(slot: nat, generation: nat, nonce: Uuid, identity: ProcessIdentity)

  /** The sidecar file of a slot. */
  datatype RegistrationRecord = RegistrationRecord(slot: nat, generation: nat, registration: Option<GateRegistration>)

  /** The registration belongs to this intent. */
  predicate Registers(g: GateRegistration, intent: SlotRecord) {
    && intent.state.IntentDurable?
    && g.slot == intent.slot && g.generation == intent.generation && g.nonce == intent.state.nonce
  }

  class Registry {
    var slots: seq<SlotRecord>
    var hidden: set<nat>
    /** The sidecars that can be read. */
    var registrations: map<nat, RegistrationRecord>

    ghost function Contents(): Files
      reads this
    {
      Files(slots, hidden)
    }

    /** Genesis: every slot vacant at generation 0, every sidecar empty. */
    constructor (count: nat)
      ensures |slots| == count && hidden == {}
      ensures forall i :: 0 <= i < count ==>
        slots[i] == SlotRecord(SLOT_SCHEMA_VERSION, i, 0, None, None, Vacant) && SoundRecord(slots[i], i)
      ensures OwnersUnique(Contents())
      ensures forall i :: 0 <= i < count ==> i in registrations && registrations[i] == RegistrationRecord(i, 0, None)
      ensures forall i :: i in registrations ==> i < count
    {
      registrations := map i | 0 <= i < count :: RegistrationRecord(i, 0, None);
      slots := seq(count, i requires 0 <= i < count => SlotRecord(SLOT_SCHEMA_VERSION, i, 0, None, None, Vacant));
      hidden := {};
    }

    method ReadSlot(i: nat) returns (r: Option<SlotRecord>)
      ensures r == Read(Contents(), i)
    {
      if i < |slots| && i !in hidden && ValidRecord(slots[i], i) {
        return Some(slots[i]);
      }
      return None;
    }

    /** `read_registration`. */
    method ReadRegistration(i: nat) returns (r: Option<RegistrationRecord>)
      ensures r == Sidecar(registrations, i)
    {
      r := if i in registrations && registrations[i].slot == i then Some(registrations[i]) else None;
    }

    /** `replace_registration`: only a record that agrees with itself is written. */
    method ReplaceRegistration(i: nat, next: RegistrationRecord) returns (ok: bool)
      modifies this`registrations
      ensures ok <==> next.slot == i && (next.registration.Some? ==>
        next.registration.value.slot == i && next.registration.value.generation == next.generation)
      ensures registrations == if ok then old(registrations)[i := next] else old(registrations)
    {
      if next.slot != i {
        return false;
      }
      if next.registration.Some? {
        var g := next.registration.value;
        if g.slot != i || g.generation != next.generation {
          return false;
        }
      }
      registrations := registrations[i := next];
      ok := true;
    }

    /** Read, compare, rename, read back. The rename may succeed and the read back still fail. */
    method ReplaceSlot(expected: SlotRecord, next: SlotRecord) returns (ok: bool)
      modifies this`slots
      ensures Contents() == Replace(old(Contents()), expected, next)
      ensures ok <==> Replaceable(old(Contents()), expected, next) && ValidRecord(next, expected.slot)
    {
      if !Transition(expected, next) {
        return false;
      }
      var current := ReadSlot(expected.slot);
      if current != Some(expected) {
        return false;
      }
      slots := slots[expected.slot := next];
      var readback := ReadSlot(expected.slot);
      return readback == Some(next);
    }

    /** The allocation scan, the issue of the selected slot, and the slot guard. */
    method AllocateIntent(owner: Option<OwnerTag>, nonce: Uuid, now: nat, guardFree: bool)
      returns (r: Result<SlotRecord, AllocationError>)
      requires nonce != 0
      modifies this`slots, this`registrations
      ensures Contents() == AllocateFiles(old(Contents()), owner, nonce, now)
      ensures r.Ok? <==> Issued(old(Contents()), owner, nonce, now).Some? && guardFree
      ensures r == Err(GuardBusy) <==> Issued(old(Contents()), owner, nonce, now).Some? && !guardFree
      ensures Issued(old(Contents()), owner, nonce, now).Some? ==>
        var i := Issued(old(Contents()), owner, nonce, now).value;
        && i < |slots| && Read(Contents(), i) == Some(slots[i]) && (r.Ok? ==> r.value == slots[i])
        && registrations == old(registrations)[i := RegistrationRecord(i, slots[i].generation, None)]
      ensures Issued(old(Contents()), owner, nonce, now).None? ==> registrations == old(registrations)
      ensures r.Err? ==> Explains(old(Contents()), owner, now, r.error)
    {
      if owner.Some? && !ValidOwner(owner.value) {
        return Err(InvalidOwner);
      }
      hide Explains;
      hide ScanPrefix;
      hide Read;
      ghost var before := Contents();
      ScanFinds(before, owner, now);
      ScanExplains(before, owner, now);
      var selected, unreadable, clash := ScanSlots(owner, now);
      if clash {
        return Err(OwnerExists);
      }
      if owner.Some? && unreadable > 0 {
        return Err(OwnerUncertain);
      }
      if selected.None? {
        return Err(CapacityExhausted);
      }
      r := IssueSlot(selected.value, owner, nonce, now);
      if r.Ok? && !guardFree {
        r := Err(GuardBusy);
      }
    }

    /** The loop over all slots: recycles old tombstones and remembers the first free slot. */
    method ScanSlots(owner: Option<OwnerTag>, now: nat) returns (selected: Option<nat>, unreadable: nat, clash: bool)
      modifies this`slots
      ensures ScanAll(old(Contents()), owner, now) == Scan(Contents(), selected, unreadable, clash)
    {
      ghost var before := Contents();
      selected, unreadable, clash := None, 0, false;
      var i := 0;
      while i < |slots|
        invariant i <= |slots| == |before.slots| && hidden == before.hidden
        invariant ScanPrefix(before, i, owner, now) == Scan(Contents(), selected, unreadable, false)
      {
        var read := ReadSlot(i);
        if read.None? {
          unreadable := unreadable + 1;
        } else {
          var record := read.value;
          if owner.Some? && record.owner == owner {
            ClashIsFinal(before, i + 1, |before.slots|, owner, now);
            return selected, unreadable, true;
          }
          if record.state.Vacant? {
            selected := if selected.None? then Some(i) else selected;
          } else if Recyclable(record, now) {
            var _ := ReplaceSlot(record, Recycled(record));
            selected := if selected.None? then Some(i) else selected;
          }
        }
        i := i + 1;
      }
    }

    /** The selected vacant slot becomes the intent of the next generation. */
    method IssueSlot(i: nat, owner: Option<OwnerTag>, nonce: Uuid, now: nat)
      returns (r: Result<SlotRecord, AllocationError>)
      requires i < |slots| && Read(Contents(), i) == Some(slots[i]) && slots[i].state.Vacant?
      requires nonce != 0 && (owner.Some? ==> ValidOwner(owner.value))
      modifies this`slots, this`registrations
      ensures |slots| == |old(slots)|
      ensures Contents() == ReplaceBy(old(Contents()), old(slots)[i], Issue(owner, nonce, now))
      ensures r.Ok? <==> Propose(Issue(owner, nonce, now), old(slots)[i]).Write?
      ensures r.Ok? ==> slots[i] == r.value && Read(Contents(), i) == Some(r.value)
      ensures r.Ok? ==> registrations == old(registrations)[i := RegistrationRecord(i, slots[i].generation, None)]
      ensures r.Err? ==> r.error == GenerationExhausted && old(slots)[i].generation >= U64_MAX
      ensures r.Err? ==> registrations == old(registrations)
    {
      var vacant := slots[i];
      var generation := CheckedSucc(vacant.generation);
      if generation.None? {
        return Err(GenerationExhausted);
      }
      var _ := ReplaceRegistration(i, RegistrationRecord(vacant.slot, generation.value, None));
      var intent := SlotRecord(SLOT_SCHEMA_VERSION, vacant.slot, generation.value, owner, None,
                               IntentDurable(nonce, now));
      var _ := ReplaceSlot(vacant, intent);
      return Ok(intent);
    }

    /** `reconcile_intent` behind a busy guard: the sidecar may name the process that holds it. */
    method ReconcileBusyIntent(intent: SlotRecord, registered: Evidence) returns (outcome: ReconcileOutcome)
      requires intent.state.IntentDurable?
      ensures outcome == BusyOutcome(Sidecar(registrations, intent.slot), intent, registered)
    {
      var sidecar := ReadRegistration(intent.slot);
      if sidecar.None? || sidecar.value.generation != intent.generation || sidecar.value.registration.None? {
        return Unknown(RegistrationUnavailable);
      }
      if !Registers(sidecar.value.registration.value, intent) {
        return Unknown(RegistrationUnavailable);
      }
      outcome := match registered
        case Present => Live
        case Absent => Unknown(BusyGuardIdentityAbsent)
        case Unavailable => Unknown(EvidenceUnavailable);
    }

    /**
     Cleanup of one key. Inputs are the guard probe, the evidence about the registered
     and about the durable identity, and what is seen after the kill; no evidence
     after the kill means that signalling or waiting failed.
     */
    method CleanupSlot(slot: nat, generation: nat, guardFree: bool, registered: Evidence, first: Evidence,
                       afterKill: Option<Evidence>, now: nat)
      returns (outcome: Option<ReconcileOutcome>)
      modifies this`slots
      ensures Contents() == CleanupFiles(old(Contents()), slot, generation, guardFree, first, Seen(afterKill), now)
      ensures outcome == Reported(Read(old(Contents()), slot), Sidecar(registrations, slot), generation, guardFree,
                                  registered, first, afterKill)
      ensures outcome == Some(Tombstone) <==>
        Read(Contents(), slot).Some? && slots[slot].generation == generation && slots[slot].state.ResolvedTombstone?
      ensures outcome.Some? && outcome.value.Live? <==>
        && BusyIntent(old(Contents()), slot, generation, guardFree)
        && OwnRegistration(registrations, old(slots)[slot]) && registered == Present
      ensures outcome.Some? && outcome.value.Unknown? ==> CodeMeans(
        outcome.value.code, BusyIntent(old(Contents()), slot, generation, guardFree),
        BusyIntent(old(Contents()), slot, generation, guardFree) && OwnRegistration(registrations, old(slots)[slot]),
        registered, first, afterKill)
      ensures outcome.None? <==>
        || Read(old(Contents()), slot).None? || old(slots)[slot].generation != generation
        || ((old(slots)[slot].state.IdentityDurable? || old(slots)[slot].state.CleanupPending?)
            && first == Present && afterKill == None)
      ensures outcome == Some(Tombstone) && (old(slots)[slot].state.IdentityDurable? || old(slots)[slot].state.CleanupPending?) ==>
        slots[slot].state == ResolvedTombstone(old(slots)[slot].state.nonce, Some(old(slots)[slot].state.identity), now)
      ensures outcome == Some(Tombstone) && old(slots)[slot].state.IntentDurable? ==>
        slots[slot].state == ResolvedTombstone(old(slots)[slot].state.nonce, None, now)
    {
      var read := ReadSlot(slot);
      if read.None? || read.value.generation != generation {
        return None;
      }
      var current := read.value;
      if current.state.Vacant? {
        return Some(NothingThere);
      }
      if current.state.ResolvedTombstone? {
        return Some(Tombstone);
      }
      if current.state.IntentDurable? {
        if !guardFree {
          var busy := ReconcileBusyIntent(current, registered);
          return Some(busy);
        }
        var _ := Bury(current, now);
        return Some(Tombstone);
      }
      outcome := CleanupLaunched(current, first, afterKill, now);
    }

    /** The part of cleanup after an identity is durable: mark, kill, and bury once absence is proved. */
    method CleanupLaunched(current: SlotRecord, first: Evidence, afterKill: Option<Evidence>, now: nat)
      returns (outcome: Option<ReconcileOutcome>)
      requires Read(Contents(), current.slot) == Some(current)
      requires current.state.IdentityDurable? || current.state.CleanupPending?
      modifies this`slots
      ensures |slots| == |old(slots)| && Read(Contents(), current.slot).Some?
      ensures Contents() == LaunchedFiles(old(Contents()), current, first, Seen(afterKill), now)
      ensures outcome == if ProvedDead(first, Seen(afterKill)) then Some(Tombstone) else SurvivorOutcome(first, afterKill)
      ensures slots[current.slot].(state := current.state) == current
      ensures slots[current.slot].state ==
        if first == Absent || (first == Present && afterKill == Some(Absent))
        then ResolvedTombstone(current.state.nonce, Some(current.state.identity), now)
        else CleanupPending(current.state.nonce, current.state.identity, current.state.releaseMayHaveOccurred)
    {
      var pending := current.(state := CleanupPending(
        current.state.nonce, current.state.identity, current.state.releaseMayHaveOccurred));
      if current != pending {
        var _ := ReplaceSlot(current, pending);
      }
      if !ProvedDead(first, Seen(afterKill)) {
        return SurvivorOutcome(first, afterKill);
      }
      var _ := Bury(pending, now);
      return Some(Tombstone);
    }

    /** `persist_tombstone`. */
    method Bury(current: SlotRecord, now: nat) returns (ok: bool)
      requires current.state.IntentDurable? || current.state.CleanupPending?
      modifies this`slots
      ensures Contents() == ReplaceBy(old(Contents()), current, Entomb(now))
      ensures ok ==>
        && current.slot < |slots| && slots[current.slot].state.ResolvedTombstone?
        && slots[current.slot].generation == current.generation
        && Read(Contents(), current.slot).Some?
        && slots[current.slot].(state := current.state) == current
        && slots[current.slot].state.nonce == current.state.nonce && slots[current.slot].state.resolvedSecs == now
        && slots[current.slot].state.deadIdentity
           == if current.state.CleanupPending? then Some(current.state.identity) else None
      ensures Read(old(Contents()), current.slot) == Some(current) ==> ok
    {
      var identity := if current.state.IntentDurable? then None else Some(current.state.identity);
      ok := ReplaceSlot(current, current.(state := ResolvedTombstone(current.state.nonce, identity, now)));
    }

    /** An artifact operation: `None` reports a refusal, otherwise the binding now on record. */
    method ArtifactOperation(slot: nat, generation: nat, stale: Binding, op: ArtifactOp)
      returns (r: Option<Option<Binding>>)
      modifies this`slots
      ensures Contents() == Exec(old(Contents()), ArtifactCall(slot, generation, stale, op))
      ensures r.Some? ==> slot < |slots| && r.value == slots[slot].binding
      ensures r.None? ==> Read(old(Contents()), slot).None? || Contents() == old(Contents())
                          || !ValidRecord(Contents().slots[slot], slot)
      ensures Read(old(Contents()), slot).Some? && SoundRecord(old(slots)[slot], slot) ==>
        (r.None? <==> ProposeArtifact(old(slots)[slot], generation, stale, op).Refused?)
    {
      var read := ReadSlot(slot);
      if read.None? {
        return None;
      }
      match ProposeArtifact(read.value, generation, stale, op) {
        case Refused => return None;
        case Unchanged => return Some(read.value.binding);
        case Write(next) =>
          if SoundRecord(read.value, slot) {
            ProposalIsAccepted(Artifact(generation, stale, op), read.value, slot);
          }
          var ok := ReplaceSlot(read.value, next);
          return if ok then Some(next.binding) else None;
      }
    }
  }

  /** The key names a readable intent whose guard somebody holds. */
  predicate BusyIntent(f: Files, slot: nat, generation: nat, guardFree: bool) {
    && Read(f, slot).Some? && f.slots[slot].generation == generation
    && f.slots[slot].state.IntentDurable? && !guardFree
  }

  /** The sidecar of the slot holds a registration for exactly this intent. */
  predicate OwnRegistration(registrations: map<nat, RegistrationRecord>, intent: SlotRecord) {
    && intent.state.IntentDurable?
    && intent.slot in registrations
    && var s := registrations[intent.slot];
       && s.slot == intent.slot && s.generation == intent.generation
       && s.registration.Some?
       && s.registration.value.slot == intent.slot
       && s.registration.value.generation == intent.generation
       && s.registration.value.nonce == intent.state.nonce
  }

  /** What each code of uncertainty says about the evidence. */
  predicate CodeMeans(code: UnknownCode, busy: bool, own: bool, registered: Evidence, first: Evidence,
                      afterKill: Option<Evidence>) {
    match code
    case RegistrationUnavailable => busy && !own
    case BusyGuardIdentityAbsent => busy && own && registered == Absent
    case StillLive => !busy && first == Present && afterKill == Some(Present)
    case EvidenceUnavailable =>
      if busy then own && registered == Unavailable
      else first == Unavailable || (first == Present && afterKill == Some(Unavailable))
  }

  /** What `read_registration` yields. */
  function Sidecar(registrations: map<nat, RegistrationRecord>, i: nat): Option<RegistrationRecord> {
    if i in registrations && registrations[i].slot == i then Some(registrations[i]) else None
  }

  function Seen(afterKill: Option<Evidence>): Evidence {
    if afterKill.Some? then afterKill.value else Unavailable
  }

  /** Behind a busy guard the intent is live only if its own registration is on file and that process is there. */
  function BusyOutcome(sidecar: Option<RegistrationRecord>, intent: SlotRecord, registered: Evidence): ReconcileOutcome {
    if sidecar.Some? && sidecar.value.generation == intent.generation
       && sidecar.value.registration.Some? && Registers(sidecar.value.registration.value, intent)
    then
      match registered
      case Present => Live
      case Absent => Unknown(BusyGuardIdentityAbsent)
      case Unavailable => Unknown(EvidenceUnavailable)
    else Unknown(RegistrationUnavailable)
  }

  /** The report about a process that could not be proved dead; nothing when the kill or the wait failed. */
  function SurvivorOutcome(first: Evidence, afterKill: Option<Evidence>): Option<ReconcileOutcome> {
    if first.Present? && afterKill.None? then None
    else if first.Present? && afterKill.value.Present? then Some(Unknown(StillLive))
    else Some(Unknown(EvidenceUnavailable))
  }

  /** What cleanup reports about a key; nothing when the slot is unreadable or of another generation. */
  function Reported(read: Option<SlotRecord>, sidecar: Option<RegistrationRecord>, generation: nat, guardFree: bool,
                    registered: Evidence, first: Evidence, afterKill: Option<Evidence>): Option<ReconcileOutcome>
  {
    if read.None? || read.value.generation != generation then None
    else
      match read.value.state
      case Vacant => Some(NothingThere)
      case ResolvedTombstone(_, _, _) => Some(Tombstone)
      case IntentDurable(_, _) =>
        Some(if guardFree then Tombstone else BusyOutcome(sidecar, read.value, registered))
      case _ => if ProvedDead(first, Seen(afterKill)) then Some(Tombstone) else SurvivorOutcome(first, afterKill)
  }

  /** What the scan selects is a readable vacant slot with its own number. */
  lemma ScanFinds(f: Files, owner: Option<OwnerTag>, now: nat)
    ensures var s := ScanAll(f, owner, now);
      && |s.files.slots| == |f.slots| && s.files.hidden == f.hidden
      && (s.selected.Some? ==>
            && s.selected.value < |s.files.slots|
            && Read(s.files, s.selected.value) == Some(s.files.slots[s.selected.value])
            && s.files.slots[s.selected.value].state.Vacant?)
  {
    hide ScanPrefix;
    hide Read;
    ScanPrefixIsSound(f, |f.slots|, owner, now);
  }

  /** What each refusal of an allocation says about the files it found. */
  ghost predicate Explains(f: Files, owner: Option<OwnerTag>, now: nat, e: AllocationError) {
    match e
    case InvalidOwner => owner.Some? && !ValidOwner(owner.value)
    case OwnerExists => exists k :: 0 <= k < |f.slots| && Claims(f, k, owner)
    case OwnerUncertain =>
      owner.Some? && (forall k :: 0 <= k < |f.slots| ==> !Claims(f, k, owner))
      && exists k :: 0 <= k < |f.slots| && Read(f, k).None?
    case CapacityExhausted => forall k :: 0 <= k < |f.slots| ==> !Free(f, k, now)
    case GenerationExhausted =>
      exists k :: 0 <= k < |f.slots| && Free(f, k, now) && f.slots[k].generation >= U64_MAX
    case GuardBusy => exists k :: 0 <= k < |f.slots| && Free(f, k, now)
  }

  lemma ScanExplains(f: Files, owner: Option<OwnerTag>, now: nat)
    ensures var s := ScanAll(f, owner, now);
      && (s.clash ==> Explains(f, owner, now, OwnerExists))
      && (!s.clash && owner.Some? && s.unreadable > 0 ==> Explains(f, owner, now, OwnerUncertain))
      && (!s.clash && s.selected.None? ==> Explains(f, owner, now, CapacityExhausted))
      && (!s.clash && s.selected.Some? ==> Explains(f, owner, now, GuardBusy))
      && (!s.clash && s.selected.Some? && s.selected.value < |s.files.slots| ==>
            (s.files.slots[s.selected.value].generation >= U64_MAX ==> Explains(f, owner, now, GenerationExhausted)))
  {
    hide Read;
    hide ScanPrefix;
    ScanPrefixIsExact(f, |f.slots|, owner, now);
  }

  /** After a clash the scan's result no longer changes. */
  lemma {:induction false} ClashIsFinal(f: Files, n: nat, m: nat, owner: Option<OwnerTag>, now: nat)
    requires n <= m && ScanPrefix(f, n, owner, now).clash
    ensures ScanPrefix(f, m, owner, now) == ScanPrefix(f, n, owner, now)
    decreases m - n
  {
    if n < m {
      ClashIsFinal(f, n, m - 1, owner, now);
    }
  }

  lemma UpdateExactly(r: SlotRecord, op: ReservationOp)
    requires SoundRecord(r, r.slot) && r.state.IntentDurable?
    ensures !op.BeginCreation? ==>
      var p := ProposeReservation(r, op);
      && (p.Write? <==> r.binding.Some? && Filled(r.binding.value, op).Some?)
      && (p.Write? ==> p.next == r.(binding := Filled(r.binding.value, op)))
    ensures op.BeginCreation? ==>
      (ProposeReservation(r, op).Write? <==> r.binding.None? && NonZero(op.controlRoot) && EntryName(op.leaf))
  {
    hide SoundRecord;
    hide ProposeReservation;
    if op.BeginCreation? {
      CreationBeginsExactly(r, r.slot, op.controlRoot, op.leaf);
    } else {
      CreationAdvancesExactly(r, r.slot, op);
    }
  }

  /** `ManagedLaunchReservation`: the intent it remembers is the one on file. */
  class Reservation {
    const registry: Registry
    var record: SlotRecord

    ghost predicate Valid()
      reads this, registry
    {
      && record.state.IntentDurable?
      && SoundRecord(record, record.slot)
      && Read(registry.Contents(), record.slot) == Some(record)
    }

    constructor (registry: Registry, intent: SlotRecord)
      requires intent.state.IntentDurable? && SoundRecord(intent, intent.slot)
      requires Read(registry.Contents(), intent.slot) == Some(intent)
      ensures Valid() && this.registry == registry && record == intent
    {
      this.registry := registry;
      record := intent;
    }

    /**
     One artifact-creation update. It succeeds exactly when its guards pass and it is
     not the creation without an owner; then the reservation and the file move
     together. Creation without an owner still reaches the file, and loses it.
     */
    method Update(op: ReservationOp) returns (ok: bool)
      requires Valid()
      modifies this`record, registry`slots
      ensures registry.Contents() == ReplaceBy(old(registry.Contents()), old(record), Reserve(op))
      ensures ok <==> ProposeReservation(old(record), op).Write? && !OwnerlessCreation(Reserve(op), old(record))
      ensures record == if ok then ProposeReservation(old(record), op).next else old(record)
      ensures Valid() <==> ok || ProposeReservation(old(record), op).Refused?
      ensures !Valid() ==> Read(registry.Contents(), record.slot).None?
      ensures ok && !op.BeginCreation? ==>
        old(record).binding.Some? && record == old(record).(binding := Filled(old(record).binding.value, op))
      ensures !op.BeginCreation? ==> (ok <==> old(record).binding.Some? && Filled(old(record).binding.value, op).Some?)
      ensures op.BeginCreation? ==>
        (ok <==> old(record).owner.Some? && old(record).binding.None? && NonZero(op.controlRoot) && EntryName(op.leaf))
    {
      UpdateExactly(record, op);
      var proposal := ProposeReservation(record, op);
      if !proposal.Write? {
        return false;
      }
      ReservationIsAccepted(record, record.slot, op);
      ok := registry.ReplaceSlot(record, proposal.next);
      if ok {
        record := proposal.next;
      }
    }

    /**
     `record_identity`: the intent is promoted to the identity of a registration exactly
     when that registration is for this intent and is the one in the sidecar.
     */
    method RecordIdentity(registration: GateRegistration) returns (promoted: Option<SlotRecord>)
      requires Valid()
      modifies registry`slots
      ensures promoted.Some? <==>
        Registers(registration, record) && Sidecar(registry.registrations, record.slot).Some?
        && Sidecar(registry.registrations, record.slot).value.registration == Some(registration)
      ensures promoted.Some? ==>
        && registry.Contents() == ReplaceBy(old(registry.Contents()), record, Promote(registration.identity))
        && Read(registry.Contents(), record.slot) == promoted
        && promoted.value == record.(state := IdentityDurable(record.state.nonce, registration.identity, true))
      ensures promoted.None? ==> registry.Contents() == old(registry.Contents())
    {
      if registration.slot != record.slot || registration.generation != record.generation
         || registration.nonce != record.state.nonce {
        return None;
      }
      var sidecar := registry.ReadRegistration(record.slot);
      if sidecar.None? || sidecar.value.registration != Some(registration) {
        return None;
      }
      ProposalIsAccepted(Promote(registration.identity), record, record.slot);
      var next := record.(state := IdentityDurable(record.state.nonce, registration.identity, true));
      var _ := registry.ReplaceSlot(record, next);
      promoted := Some(next);
    }
  }
}
