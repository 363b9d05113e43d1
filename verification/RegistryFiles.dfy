/**
 The registry as a value: all slot files, and which of them cannot be read at the
 moment. `Exec` gives the effect of every registry call; the lemmas are about all
 runs of calls, including files that become unreadable and are restored later.
 */
module RegistryFiles {
  import opened Common
  import opened SlotRecords
  import opened SlotEvents

  datatype Files = Files(slots: seq<SlotRecord>, hidden: set<nat>)

  /** What the kernel says about a process incarnation. */
  datatype Evidence = Present | Absent | Unavailable

  /**
   Calls on the registry. `Update` is a replacement by somebody who remembers the
   record it expects (reservation updates and identity promotion); `Cleanup` and
   `ArtifactCall` carry a key. `Hide` and `Restore` are the file system's doing.
   */
  datatype Call =
    | Allocate(owner: Option<OwnerTag>, nonce: Uuid, now: nat)
    | Update(expected: SlotRecord, event: SlotEvent)
    | Cleanup(slot: nat, generation: nat, guardFree: bool, first: Evidence, afterKill: Evidence, now: nat)
    | ArtifactCall(slot: nat, generation: nat, binding: Binding, op: ArtifactOp)
    | Hide(slot: nat)
    | Restore(slot: nat)

  /** `read_slot`: a file that is present, parses and validates. */
  function Read(f: Files, i: nat): Option<SlotRecord> {
    if i < |f.slots| && i !in f.hidden && ValidRecord(f.slots[i], i) then Some(f.slots[i]) else None
  }

  /** `replace_slot` up to the rename: accepted transition, readable file, unchanged record. */
  predicate Replaceable(f: Files, expected: SlotRecord, next: SlotRecord) {
    Transition(expected, next) && Read(f, expected.slot) == Some(expected)
  }

  function Replace(f: Files, expected: SlotRecord, next: SlotRecord): (f': Files)
    ensures |f'.slots| == |f.slots| && f'.hidden == f.hidden
  {
    if Replaceable(f, expected, next) then f.(slots := f.slots[expected.slot := next]) else f
  }

  function ReplaceBy(f: Files, expected: SlotRecord, ev: SlotEvent): (f': Files)
    ensures |f'.slots| == |f.slots| && f'.hidden == f.hidden
  {
    match Propose(ev, expected)
    case Write(next) => Replace(f, expected, next)
    case _ => f
  }

  // ---- Allocation ----

  /** The scan's accumulators after some prefix of the slots. */
  datatype Scan = Scan(files: Files, selected: Option<nat>, unreadable: nat, clash: bool)

  function ScanSlot(s: Scan, i: nat, owner: Option<OwnerTag>, now: nat): (s': Scan)
    ensures |s'.files.slots| == |s.files.slots| && s'.files.hidden == s.files.hidden
  {
    match Read(s.files, i)
    case None => s.(unreadable := s.unreadable + 1)
    case Some(r) =>
      if owner.Some? && r.owner == owner then s.(clash := true)
      else if r.state.Vacant? then s.(selected := if s.selected.None? then Some(i) else s.selected)
      else if Recyclable(r, now) then
        s.(files := ReplaceBy(s.files, r, Recycle(now)),
           selected := if s.selected.None? then Some(i) else s.selected)
      else s
  }

  function ScanPrefix(f: Files, n: nat, owner: Option<OwnerTag>, now: nat): (s: Scan)
    ensures |s.files.slots| == |f.slots| && s.files.hidden == f.hidden
  {
    if n == 0 then Scan(f, None, 0, false)
    else
      var s := ScanPrefix(f, n - 1, owner, now);
      if s.clash then s else ScanSlot(s, n - 1, owner, now)
  }

  function ScanAll(f: Files, owner: Option<OwnerTag>, now: nat): Scan {
    ScanPrefix(f, |f.slots|, owner, now)
  }

  /** The slot an allocation ends up issuing, if any. */
  function Issued(f: Files, owner: Option<OwnerTag>, nonce: Uuid, now: nat): Option<nat> {
    var s := ScanAll(f, owner, now);
    if owner.Some? && !ValidOwner(owner.value) then None
    else if s.clash || (owner.Some? && s.unreadable > 0) || s.selected.None? then None
    else if s.selected.value < |s.files.slots|
            && Propose(Issue(owner, nonce, now), s.files.slots[s.selected.value]).Write? then s.selected
    else None
  }

  function AllocateFiles(f: Files, owner: Option<OwnerTag>, nonce: Uuid, now: nat): Files {
    if owner.Some? && !ValidOwner(owner.value) then f
    else
      var s := ScanAll(f, owner, now);
      match Issued(f, owner, nonce, now)
      case None => s.files
      case Some(i) =>
        if i < |s.files.slots| then ReplaceBy(s.files, s.files.slots[i], Issue(owner, nonce, now)) else s.files
  }

  // ---- Cleanup ----

  predicate ProvedDead(first: Evidence, afterKill: Evidence) {
    first.Absent? || (first.Present? && afterKill.Absent?)
  }

  /** Cleanup of a record with an identity: marked first, buried once the process is proved dead. */
  function LaunchedFiles(f: Files, r: SlotRecord, first: Evidence, afterKill: Evidence, now: nat): Files {
    var pending := ReplaceBy(f, r, MarkPending);
    if ProvedDead(first, afterKill) && r.slot < |pending.slots| then
      ReplaceBy(pending, pending.slots[r.slot], Entomb(now))
    else pending
  }

  function CleanupFiles(f: Files, slot: nat, generation: nat, guardFree: bool, first: Evidence, afterKill: Evidence,
                        now: nat): Files {
    match Read(f, slot)
    case None => f
    case Some(r) =>
      if r.generation != generation then f
      else if r.state.IntentDurable? then (if guardFree then ReplaceBy(f, r, Entomb(now)) else f)
      else if r.state.IdentityDurable? || r.state.CleanupPending? then LaunchedFiles(f, r, first, afterKill, now)
      else f
  }

  function Exec(f: Files, c: Call): Files {
    match c
    case Allocate(owner, nonce, now) => AllocateFiles(f, owner, nonce, now)
    case Update(expected, ev) => if ev.Reserve? || ev.Promote? then ReplaceBy(f, expected, ev) else f
    case Cleanup(slot, g, guardFree, first, afterKill, now) =>
      CleanupFiles(f, slot, g, guardFree, first, afterKill, now)
    case ArtifactCall(slot, g, binding, op) =>
      (match Read(f, slot)
       case None => f
       case Some(r) => ReplaceBy(f, r, Artifact(g, binding, op)))
    case Hide(slot) => f.(hidden := f.hidden + {slot})
    case Restore(slot) => f.(hidden := f.hidden - {slot})
  }

  // ---- One slot at a time ----

  /** Slot `i` of `f'` came from slot `i` of `f` without a new occupancy. */
  predicate SameOccupancy(f: Files, f': Files, i: nat)
    requires i < |f.slots| && i < |f'.slots|
  {
    && f'.slots[i].generation == f.slots[i].generation
    && f'.slots[i].slot == f.slots[i].slot
    && (f'.slots[i].owner == f.slots[i].owner || f'.slots[i].owner.None?)
  }

  predicate Kept(f: Files, f': Files) {
    && |f'.slots| == |f.slots|
    && forall i :: 0 <= i < |f.slots| ==> SameOccupancy(f, f', i)
  }

  lemma ReplaceByIsKept(f: Files, expected: SlotRecord, ev: SlotEvent)
    requires !ev.Issue?
    ensures Kept(f, ReplaceBy(f, expected, ev))
  {
    hide Transition;
    hide ValidBinding;
    hide QuarantineName;
    var f' := ReplaceBy(f, expected, ev);
    if f' != f {
      var next := Propose(ev, expected).next;
      assert next.generation == expected.generation && next.slot == expected.slot;
    }
  }

  lemma KeptIsTransitive(f: Files, g: Files, h: Files)
    requires Kept(f, g) && Kept(g, h)
    ensures Kept(f, h)
  {
    forall i | 0 <= i < |f.slots|
      ensures SameOccupancy(f, h, i)
    {
      assert SameOccupancy(f, g, i) && SameOccupancy(g, h, i);
    }
  }

  /** A readable slot that an allocation may take: vacant, or a tombstone old enough to recycle. */
  predicate Free(f: Files, i: nat, now: nat) {
    Read(f, i).Some? && (Read(f, i).value.state.Vacant? || Recyclable(Read(f, i).value, now))
  }

  predicate Claims(f: Files, i: nat, owner: Option<OwnerTag>) {
    owner.Some? && Read(f, i).Some? && Read(f, i).value.owner == owner
  }

  /** The first free slot among the first `n`, if any. */
  ghost predicate FirstFree(f: Files, n: nat, now: nat, selected: Option<nat>) {
    match selected
    case None => forall i :: 0 <= i < n ==> !Free(f, i, now)
    case Some(j) => j < n && Free(f, j, now) && (forall i :: 0 <= i < j ==> !Free(f, i, now))
  }

  /** The scan stops at the first owner clash and otherwise selects the first free slot. */
  ghost predicate ScanExact(f: Files, n: nat, owner: Option<OwnerTag>, now: nat, s: Scan) {
    && |s.files.slots| == |f.slots| && s.files.hidden == f.hidden
    && (forall i :: n <= i < |f.slots| ==> s.files.slots[i] == f.slots[i])
    && (s.clash <==> exists i :: 0 <= i < n && Claims(f, i, owner))
    && (!s.clash ==> (s.unreadable == 0 <==> forall i :: 0 <= i < n ==> Read(f, i).Some?))
    && (!s.clash ==> FirstFree(f, n, now, s.selected))
    && (!s.clash && s.selected.Some? && s.selected.value < |f.slots| ==>
          && s.files.slots[s.selected.value].generation == f.slots[s.selected.value].generation
          && s.files.slots[s.selected.value].state.Vacant?)
  }

  lemma RecycleWrites(f: Files, i: nat, r: SlotRecord, now: nat)
    requires Read(f, i) == Some(r) && Recyclable(r, now)
    ensures ReplaceBy(f, r, Recycle(now)) == f.(slots := f.slots[i := Recycled(r)])
  {
  }

  lemma ScanSlotIsExact(f: Files, n: nat, owner: Option<OwnerTag>, now: nat, s: Scan)
    requires n < |f.slots| && !s.clash && ScanExact(f, n, owner, now, s)
    ensures ScanExact(f, n + 1, owner, now, ScanSlot(s, n, owner, now))
  {
    hide Propose;
    hide ValidRecord;
    var s' := ScanSlot(s, n, owner, now);
    assert Read(s.files, n) == Read(f, n);
    match Read(f, n)
    case None => assert !Claims(f, n, owner) && !Free(f, n, now);
    case Some(r) =>
      assert Claims(f, n, owner) <==> owner.Some? && r.owner == owner;
      assert Free(f, n, now) <==> r.state.Vacant? || Recyclable(r, now);
      if !Claims(f, n, owner) && Recyclable(r, now) {
        RecycleWrites(s.files, n, r, now);
      }
  }

  lemma {:induction false} ScanPrefixIsExact(f: Files, n: nat, owner: Option<OwnerTag>, now: nat)
    requires n <= |f.slots|
    ensures ScanExact(f, n, owner, now, ScanPrefix(f, n, owner, now))
  {
    hide ScanSlot;
    if n > 0 {
      ScanPrefixIsExact(f, n - 1, owner, now);
      var s := ScanPrefix(f, n - 1, owner, now);
      if !s.clash {
        ScanSlotIsExact(f, n - 1, owner, now, s);
      }
    }
  }

  /**
   When an allocation succeeds: the owner is well formed and, when given, every slot
   is readable and none carries it; the slot it takes is the first free one.
   */
  lemma AllocationSucceedsExactly(f: Files, owner: Option<OwnerTag>, nonce: Uuid, now: nat, i: nat)
    ensures Issued(f, owner, nonce, now) == Some(i) <==>
      && nonce != 0
      && (owner.Some? ==> ValidOwner(owner.value))
      && (owner.Some? ==> forall k :: 0 <= k < |f.slots| ==> Read(f, k).Some? && Read(f, k).value.owner != owner)
      && i < |f.slots| && Free(f, i, now) && (forall k :: 0 <= k < i ==> !Free(f, k, now))
      && f.slots[i].generation < U64_MAX
  {
    ScanPrefixIsExact(f, |f.slots|, owner, now);
    var s := ScanAll(f, owner, now);
    if s.clash {
      var k :| 0 <= k < |f.slots| && Claims(f, k, owner);
      assert Read(f, k).value.owner == owner;
    } else {
      forall k | 0 <= k < |f.slots| && owner.Some? && Read(f, k).Some?
        ensures Read(f, k).value.owner != owner
      {
        assert !Claims(f, k, owner);
      }
    }
  }

  /** The scan keeps every occupancy, and what it reports about owners and the selected slot is true. */
  ghost predicate ScanSound(f: Files, n: nat, owner: Option<OwnerTag>, now: nat) {
    var s := ScanPrefix(f, n, owner, now);
    && Kept(f, s.files)
    && (forall i :: n <= i < |f.slots| ==> s.files.slots[i] == f.slots[i])
    && (!s.clash && owner.Some? && s.unreadable == 0 ==> forall i :: 0 <= i < n ==> f.slots[i].owner != owner)
    && (s.selected.Some? ==>
          && s.selected.value < n && s.selected.value < |f.slots|
          && Read(s.files, s.selected.value) == Some(s.files.slots[s.selected.value])
          && s.files.slots[s.selected.value].state.Vacant?)
  }

  lemma ScanSlotIsSound(f: Files, n: nat, owner: Option<OwnerTag>, now: nat)
    requires n < |f.slots| && ScanSound(f, n, owner, now) && !ScanPrefix(f, n, owner, now).clash
    ensures ScanSound(f, n + 1, owner, now)
  {
    hide Propose;
    hide ValidRecord;
    hide Transition;
    var s := ScanPrefix(f, n, owner, now);
    var s' := ScanSlot(s, n, owner, now);
    assert ScanPrefix(f, n + 1, owner, now) == s';
    var r := Read(s.files, n);
    if r.Some? && Recyclable(r.value, now) {
      ReplaceByIsKept(s.files, r.value, Recycle(now));
      KeptIsTransitive(f, s.files, ReplaceBy(s.files, r.value, Recycle(now)));
      RecycleWrites(s.files, n, r.value, now);
      RecycledIsReadable(s.files, n, r.value);
    }
  }

  lemma RecycledIsReadable(f: Files, i: nat, r: SlotRecord)
    requires Read(f, i) == Some(r)
    requires r.binding.None?
    ensures i < |f.slots| && Read(f.(slots := f.slots[i := Recycled(r)]), i) == Some(Recycled(r))
  {
  }

  lemma {:induction false} ScanPrefixIsSound(f: Files, n: nat, owner: Option<OwnerTag>, now: nat)
    requires n <= |f.slots|
    ensures ScanSound(f, n, owner, now)
  {
    hide ScanSlot;
    hide Propose;
    if n > 0 {
      ScanPrefixIsSound(f, n - 1, owner, now);
      if !ScanPrefix(f, n - 1, owner, now).clash {
        ScanSlotIsSound(f, n - 1, owner, now);
      }
    }
  }

  /** An issue raises the generation of one slot by one and keeps every other occupancy. */
  predicate IssueStep(f: Files, f': Files, i: nat, owner: Option<OwnerTag>) {
    && |f'.slots| == |f.slots| && i < |f.slots|
    && f'.slots[i].generation == f.slots[i].generation + 1
    && f'.slots[i].slot == f.slots[i].slot
    && f'.slots[i].owner == owner
    && f'.slots[i].state.IntentDurable?
    && f'.slots[i].binding.None?
    && (forall k :: 0 <= k < |f.slots| && k != i ==> SameOccupancy(f, f', k))
    && (owner.Some? ==> forall k :: 0 <= k < |f.slots| ==> f.slots[k].owner != owner)
  }

  lemma AllocationIssuesOneKey(f: Files, owner: Option<OwnerTag>, nonce: Uuid, now: nat)
    ensures var f' := AllocateFiles(f, owner, nonce, now);
      match Issued(f, owner, nonce, now)
      case None => Kept(f, f')
      case Some(i) => IssueStep(f, f', i, owner)
  {
    var s := ScanAll(f, owner, now);
    ScanPrefixIsSound(f, |f.slots|, owner, now);
    var issued := Issued(f, owner, nonce, now);
    if issued.Some? {
      var i := issued.value;
      var vacant := s.files.slots[i];
      var next := Propose(Issue(owner, nonce, now), vacant).next;
      assert Read(s.files, i) == Some(vacant);
      assert Transition(vacant, next);
      var f' := AllocateFiles(f, owner, nonce, now);
      assert f'.slots == s.files.slots[i := next];
      assert SameOccupancy(f, s.files, i);
      forall k | 0 <= k < |f.slots| && k != i
        ensures SameOccupancy(f, f', k)
      {
        assert SameOccupancy(f, s.files, k);
      }
    }
  }

  // ---- Runs ----

  /** No two slots carry the same owner tag. */
  ghost predicate OwnersUnique(f: Files) {
    forall i, j :: 0 <= i < j < |f.slots| && f.slots[i].owner.Some? ==> f.slots[i].owner != f.slots[j].owner
  }

  ghost predicate IsRun(run: seq<Files>, calls: seq<Call>) {
    && |run| == |calls| + 1
    && (forall i :: 0 <= i < |calls| ==> run[i + 1] == Exec(run[i], calls[i]))
  }

  /** Call number `k` of the run issues slot `slot`. */
  ghost predicate IssuesAt(run: seq<Files>, calls: seq<Call>, k: nat, slot: nat) {
    && k < |calls| && k + 1 < |run|
    && calls[k].Allocate?
    && Issued(run[k], calls[k].owner, calls[k].nonce, calls[k].now) == Some(slot)
  }

  lemma NonIssuingCallIsKept(f: Files, c: Call)
    requires c.Allocate? ==> Issued(f, c.owner, c.nonce, c.now).None?
    ensures Kept(f, Exec(f, c))
  {
    match c
    case Allocate(owner, nonce, now) => AllocationIssuesOneKey(f, owner, nonce, now);
    case Update(expected, ev) => if ev.Reserve? || ev.Promote? { ReplaceByIsKept(f, expected, ev); }
    case Cleanup(slot, g, guardFree, first, afterKill, now) => CleanupIsKept(f, c);
    case ArtifactCall(slot, g, binding, op) =>
      if Read(f, slot).Some? {
        ReplaceByIsKept(f, Read(f, slot).value, Artifact(g, binding, op));
      }
    case _ =>
  }

  lemma CleanupIsKept(f: Files, c: Call)
    requires c.Cleanup?
    ensures Kept(f, Exec(f, c))
  {
    var read := Read(f, c.slot);
    if read.Some? {
      var r := read.value;
      ReplaceByIsKept(f, r, Entomb(c.now));
      ReplaceByIsKept(f, r, MarkPending);
      var pending := ReplaceBy(f, r, MarkPending);
      ReplaceByIsKept(pending, pending.slots[c.slot], Entomb(c.now));
      KeptIsTransitive(f, pending, ReplaceBy(pending, pending.slots[c.slot], Entomb(c.now)));
    }
  }

  lemma KeptOwnersStayUnique(f: Files, f': Files)
    requires OwnersUnique(f) && Kept(f, f')
    ensures OwnersUnique(f')
  {
    forall i, j | 0 <= i < j < |f'.slots| && f'.slots[i].owner.Some?
      ensures f'.slots[i].owner != f'.slots[j].owner
    {
      assert SameOccupancy(f, f', i) && SameOccupancy(f, f', j);
    }
  }

  lemma IssueKeepsOwnersUnique(f: Files, f': Files, s: nat, owner: Option<OwnerTag>)
    requires OwnersUnique(f) && IssueStep(f, f', s, owner)
    ensures OwnersUnique(f')
  {
    forall i, j | 0 <= i < j < |f'.slots| && f'.slots[i].owner.Some?
      ensures f'.slots[i].owner != f'.slots[j].owner
    {
      assert i != s ==> SameOccupancy(f, f', i);
      assert j != s ==> SameOccupancy(f, f', j);
      assert owner.Some? ==> f.slots[i].owner != owner && f.slots[j].owner != owner;
    }
  }

  /**
   No run ever gives two slots the same owner, also when slots are hidden while an
   allocation scans them and reappear later.
   */
  lemma {:induction false} OwnersStayUnique(run: seq<Files>, calls: seq<Call>, n: nat)
    requires IsRun(run, calls) && n < |run| && OwnersUnique(run[0])
    ensures OwnersUnique(run[n])
  {
    if n > 0 {
      OwnersStayUnique(run, calls, n - 1);
      var f, c := run[n - 1], calls[n - 1];
      if c.Allocate? && Issued(f, c.owner, c.nonce, c.now).Some? {
        AllocationIssuesOneKey(f, c.owner, c.nonce, c.now);
        IssueKeepsOwnersUnique(f, run[n], Issued(f, c.owner, c.nonce, c.now).value, c.owner);
      } else {
        NonIssuingCallIsKept(f, c);
        KeptOwnersStayUnique(f, run[n]);
      }
    }
  }

  lemma {:induction false} GenerationsGrow(run: seq<Files>, calls: seq<Call>, i: nat, j: nat, slot: nat)
    requires IsRun(run, calls) && i <= j < |run| && slot < |run[i].slots|
    ensures |run[j].slots| == |run[i].slots|
    ensures run[i].slots[slot].generation <= run[j].slots[slot].generation
    decreases j - i
  {
    if i < j {
      GenerationsGrow(run, calls, i, j - 1, slot);
      var f, c := run[j - 1], calls[j - 1];
      if c.Allocate? && Issued(f, c.owner, c.nonce, c.now).Some? {
        AllocationIssuesOneKey(f, c.owner, c.nonce, c.now);
        assert slot != Issued(f, c.owner, c.nonce, c.now).value ==> SameOccupancy(f, run[j], slot);
      } else {
        NonIssuingCallIsKept(f, c);
        assert SameOccupancy(f, run[j], slot);
      }
    }
  }

  /** Over all runs a (slot, generation) key is issued at most once. */
  lemma KeyIssuedAtMostOnce(run: seq<Files>, calls: seq<Call>, i: nat, j: nat, slot: nat)
    requires IsRun(run, calls) && i < j
    requires IssuesAt(run, calls, i, slot) && IssuesAt(run, calls, j, slot)
    ensures slot < |run[i + 1].slots| && slot < |run[j + 1].slots|
    ensures run[i + 1].slots[slot].generation < run[j + 1].slots[slot].generation
  {
    AllocationIssuesOneKey(run[i], calls[i].owner, calls[i].nonce, calls[i].now);
    AllocationIssuesOneKey(run[j], calls[j].owner, calls[j].nonce, calls[j].now);
    GenerationsGrow(run, calls, i + 1, j, slot);
  }

  /** The slot and generation a call is about, if it carries a key or a remembered record. */
  function KeyOf(c: Call): Option<(nat, nat)> {
    match c
    case Update(expected, _) => Some((expected.slot, expected.generation))
    case Cleanup(slot, g, _, _, _, _) => Some((slot, g))
    case ArtifactCall(slot, g, _, _) => Some((slot, g))
    case _ => None
  }

  /**
   Once a slot has been issued again, no call that carries an earlier generation of
   it changes anything, then or later in the run.
   */
  lemma SupersededKeyChangesNothing(run: seq<Files>, calls: seq<Call>, i: nat, j: nat, slot: nat, generation: nat)
    requires IsRun(run, calls) && i <= j < |calls|
    requires slot < |run[i].slots| && generation < run[i].slots[slot].generation
    requires KeyOf(calls[j]) == Some((slot, generation))
    ensures run[j + 1] == run[j]
  {
    GenerationsGrow(run, calls, i, j, slot);
  }
}
