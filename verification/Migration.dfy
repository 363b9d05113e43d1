/**
 The migration of the slot directory from schema 1 to schema 2 as a step system.
 Every rename, exchange, unlink and file creation is one step; the migrating process
 may die between any two of them, and older binaries may go on writing until the
 migration has seen their slot guards free.
 */
module Migration {
  import opened Common
  import opened SlotRecords

  /** The on-disk shape before artifact bindings existed. */
  datatype V1Record = V1Record(slot: nat, generation: nat, owner: Option<OwnerTag>, state: SlotState)

  datatype SlotFile = Old(v1: V1Record) | New(v2: SlotRecord)

  /** A directory of slot files. */
  type Dir = map<nat, SlotFile>

  /** Work trees beside the active directory, by name prefix. */
  datatype Tree = Build(files: Dir) | Staging(files: Dir) | Gc(files: Dir)

  /** `slots`, the work trees, the schema marker and its temporary file. */
  datatype Fs = Fs(active: Dir, trees: seq<Tree>, marker: bool, temp: bool)

  /** `validate_v1_slot_record`. */
  predicate ValidV1(r: V1Record, slot: nat) {
    && r.slot == slot
    && (r.owner.Some? ==> ValidOwner(r.owner.value))
    && (r.state.Vacant? ==> r.owner.None?)
    && (!r.state.Vacant? ==> r.state.nonce != 0)
  }

  function Image(r: V1Record): SlotRecord {
    SlotRecord(SLOT_SCHEMA_VERSION, r.slot, r.generation, r.owner, None, r.state)
  }

  lemma ImageIsValid(r: V1Record, slot: nat)
    requires ValidV1(r, slot)
    ensures ValidRecord(Image(r), slot)
  {
  }

  /** What a slot file says, whatever its schema. */
  function Meaning(f: SlotFile): SlotRecord {
    match f
    case Old(r) => Image(r)
    case New(r) => r
  }

  function Contents(d: Dir): (m: map<nat, SlotRecord>)
    ensures m.Keys == d.Keys
    ensures forall i :: i in d ==> m[i] == Meaning(d[i])
  {
    map i | i in d :: Meaning(d[i])
  }

  predicate ValidFile(f: SlotFile, slot: nat) {
    match f
    case Old(r) => ValidV1(r, slot)
    case New(r) => ValidRecord(r, slot)
  }

  predicate ValidDir(d: Dir, n: nat) {
    && (forall i :: i in d ==> i < n)
    && (forall i :: i in d ==> ValidFile(d[i], i))
  }

  predicate Complete(d: Dir, n: nat) {
    ValidDir(d, n) && forall i :: 0 <= i < n ==> i in d
  }

  predicate AllOld(d: Dir) {
    forall i :: i in d ==> d[i].Old?
  }

  predicate AllNew(d: Dir) {
    forall i :: i in d ==> d[i].New?
  }

  /** The v2 generation built from a v1 generation. */
  function ImageDir(d: Dir): (m: Dir)
    ensures m.Keys == d.Keys
    ensures forall i :: i in d ==> m[i] == New(Meaning(d[i]))
  {
    map i | i in d :: New(Meaning(d[i]))
  }

  // ---- The program ----

  /** Where the migrating process is; `Idle` means that nobody holds `registry.lock`. */
  datatype Pc =
    | Idle
    | Reclaim
    | Inspect
    | Retire(after: Pc)
    | Sweep(after: Pc)
    | Quiesce(seen: nat)
    | Building(image: Dir)
    | Exchange
    | Verify
    | DropTemp
    | CreateTemp
    | PublishMarker
    | Finished

  /** `busy` are the slot guards held by older binaries; `inUse` says that some v2 process has opened the registry. */
  datatype State = State(fs: Fs, pc: Pc, busy: set<nat>, inUse: bool)

  datatype Step =
    | Lock
    | Renounce
    | QuarantineBuild
    | StartSweep
    | SweepFile(file: nat)
    | SweepDir
    | ReclaimDone
    | InspectCurrent
    | InspectUnmarked
    | InspectLegacy
    | RetireStaged
    | SeeGuardFree
    | StartBuild
    | BuildFile(file: nat)
    | PublishStaging
    | SwapGenerations
    | ReadBack
    | RemoveTemp
    | MakeTemp
    | RenameMarker
    | Unlock
    | Die
    | DiscardBuildFile(file: nat)
    | DiscardBuildDir
    | OldAllocate(slot: nat)
    | OldRelease(slot: nat)
    | OldWrite(slot: nat, v1: V1Record)
    | OpenReady
    | NewWrite(slot: nat, v2: SlotRecord)

  /** The one work tree, when there is exactly one. */
  predicate OneTree(fs: Fs) {
    |fs.trees| == 1
  }

  predicate Matches(legacy: Dir, current: Dir) {
    && AllOld(legacy) && AllNew(current)
    && Contents(legacy) == Contents(current)
  }

  /** The lock-free check in `open_at`. */
  predicate ReadyCheck(fs: Fs, n: nat) {
    fs.marker && fs.trees == [] && Complete(fs.active, n) && AllNew(fs.active)
  }

  /** Steps of the migrating process before anything is built. */
  predicate RecoveryStep(s: State, n: nat, step: Step, s': State) {
    var fs := s.fs;
    match step
    case Lock => s.pc.Idle? && s' == s.(pc := Reclaim)
    case QuarantineBuild =>
      && s.pc.Reclaim? && OneTree(fs) && fs.trees[0].Build?
      && s' == s.(fs := fs.(trees := [Gc(fs.trees[0].files)]), pc := Sweep(Reclaim))
    case StartSweep =>
      && s.pc.Reclaim? && OneTree(fs) && fs.trees[0].Gc?
      && s' == s.(pc := Sweep(Reclaim))
    case SweepFile(i) =>
      && s.pc.Sweep? && OneTree(fs) && fs.trees[0].Gc? && i in fs.trees[0].files
      && s' == s.(fs := fs.(trees := [Gc(fs.trees[0].files - {i})]))
    case SweepDir =>
      && s.pc.Sweep? && OneTree(fs) && fs.trees[0].Gc? && fs.trees[0].files == map[]
      && s' == s.(fs := fs.(trees := []), pc := s.pc.after)
    case ReclaimDone =>
      && s.pc.Reclaim? && (forall i :: 0 <= i < |fs.trees| ==> fs.trees[i].Staging?)
      && s' == s.(pc := Inspect)
    case InspectCurrent =>
      && s.pc.Inspect? && fs.marker && Complete(fs.active, n) && AllNew(fs.active)
      && (|| (fs.trees == [] && s' == s.(pc := Finished))
          || (&& OneTree(fs) && fs.trees[0].Staging? && Complete(fs.trees[0].files, n)
              && (Matches(fs.trees[0].files, fs.active) || fs.trees[0].files == fs.active)
              && s' == s.(pc := Retire(Finished))))
    case InspectUnmarked =>
      && s.pc.Inspect? && !fs.marker && Complete(fs.active, n) && AllNew(fs.active)
      && OneTree(fs) && fs.trees[0].Staging? && Complete(fs.trees[0].files, n)
      && Matches(fs.trees[0].files, fs.active)
      && s' == s.(pc := DropTemp)
    case InspectLegacy =>
      && s.pc.Inspect? && !fs.marker && Complete(fs.active, n) && AllOld(fs.active)
      && (|| (fs.trees == [] && s' == s.(pc := Quiesce(0)))
          || (&& OneTree(fs) && fs.trees[0].Staging? && Complete(fs.trees[0].files, n) && AllNew(fs.trees[0].files)
              && s' == s.(pc := Retire(Quiesce(0)))))
    case RetireStaged =>
      && s.pc.Retire? && OneTree(fs) && fs.trees[0].Staging?
      && s' == s.(fs := fs.(trees := [Gc(fs.trees[0].files)]), pc := Sweep(s.pc.after))
    case _ => false
  }

  /** Steps of the migrating process from the guard scan to the end. */
  predicate ForwardStep(s: State, n: nat, step: Step, s': State) {
    var fs := s.fs;
    match step
    case SeeGuardFree =>
      && s.pc.Quiesce? && s.pc.seen < n && s.pc.seen !in s.busy
      && s' == s.(pc := Quiesce(s.pc.seen + 1))
    case StartBuild =>
      && s.pc.Quiesce? && s.pc.seen >= n && Complete(fs.active, n) && AllOld(fs.active)
      && s' == s.(fs := fs.(trees := fs.trees + [Build(map[])]), pc := Building(ImageDir(fs.active)))
    case BuildFile(i) =>
      && s.pc.Building? && OneTree(fs) && fs.trees[0].Build?
      && i in s.pc.image && i !in fs.trees[0].files
      && s' == s.(fs := fs.(trees := [Build(fs.trees[0].files[i := s.pc.image[i]])]))
    case PublishStaging =>
      && s.pc.Building? && OneTree(fs) && fs.trees[0].Build?
      && fs.trees[0].files.Keys == s.pc.image.Keys
      && s' == s.(fs := fs.(trees := [Staging(fs.trees[0].files)]), pc := Exchange)
    case SwapGenerations =>
      && s.pc.Exchange? && OneTree(fs) && fs.trees[0].Staging?
      && s' == s.(fs := fs.(active := fs.trees[0].files, trees := [Staging(fs.active)]), pc := Verify)
    case ReadBack =>
      && s.pc.Verify? && Complete(fs.active, n) && AllNew(fs.active)
      && OneTree(fs) && fs.trees[0].Staging? && Complete(fs.trees[0].files, n)
      && Matches(fs.trees[0].files, fs.active)
      && s' == s.(pc := DropTemp)
    case RemoveTemp => s.pc.DropTemp? && s' == s.(fs := fs.(temp := false), pc := CreateTemp)
    case MakeTemp => s.pc.CreateTemp? && s' == s.(fs := fs.(temp := true), pc := PublishMarker)
    case RenameMarker =>
      && s.pc.PublishMarker? && fs.temp && !fs.marker
      && s' == s.(fs := fs.(temp := false, marker := true), pc := Retire(Finished))
    case Unlock => s.pc.Finished? && s' == s.(pc := Idle, inUse := true)
    case _ => false
  }

  /** Death, errors, the leftovers an error path removes, older writers and v2 writers. */
  predicate EnvironmentStep(s: State, n: nat, step: Step, s': State) {
    var fs := s.fs;
    match step
    case Die => s' == s.(pc := Idle)
    case Renounce => s' == s.(pc := Idle)
    case DiscardBuildFile(i) =>
      && s.pc.Idle? && OneTree(fs) && fs.trees[0].Build? && i in fs.trees[0].files
      && s' == s.(fs := fs.(trees := [Build(fs.trees[0].files - {i})]))
    case DiscardBuildDir =>
      && s.pc.Idle? && OneTree(fs) && fs.trees[0].Build? && fs.trees[0].files == map[]
      && s' == s.(fs := fs.(trees := []))
    case OldAllocate(i) =>
      && s.pc.Idle? && i < n && AllOld(fs.active)
      && s' == s.(busy := s.busy + {i})
    case OldRelease(i) => s' == s.(busy := s.busy - {i})
    case OldWrite(i, r) =>
      && i < n && (s.pc.Idle? || i in s.busy) && AllOld(fs.active) && ValidV1(r, i)
      && s' == s.(fs := fs.(active := fs.active[i := Old(r)]))
    case OpenReady => ReadyCheck(fs, n) && s' == s.(inUse := true)
    case NewWrite(i, r) =>
      && s.inUse && i < n && ValidRecord(r, i)
      && s' == s.(fs := fs.(active := fs.active[i := New(r)]))
    case _ => false
  }

  predicate Next(s: State, n: nat, step: Step, s': State) {
    RecoveryStep(s, n, step, s') || ForwardStep(s, n, step, s') || EnvironmentStep(s, n, step, s')
  }

  // ---- Crash shapes ----

  /** What may lie beside an active v1 generation. */
  predicate LegacyTrees(fs: Fs, n: nat) {
    fs.trees == [] ||
    (OneTree(fs) &&
      match fs.trees[0]
      case Build(d) => ValidDir(d, n)
      case Gc(d) => ValidDir(d, n)
      case Staging(d) => Complete(d, n) && AllNew(d))
  }

  /** What may lie beside an active v2 generation. */
  predicate CurrentTrees(fs: Fs, n: nat) {
    || (fs.marker && (fs.trees == [] || (OneTree(fs) && fs.trees[0].Gc? && ValidDir(fs.trees[0].files, n))))
    || (OneTree(fs) && fs.trees[0].Staging? && Complete(fs.trees[0].files, n)
        && Matches(fs.trees[0].files, fs.active))
  }

  /** Every state a death can leave behind. */
  predicate Shape(fs: Fs, n: nat) {
    && Complete(fs.active, n)
    && (|| (AllOld(fs.active) && !fs.marker && LegacyTrees(fs, n))
        || (AllNew(fs.active) && CurrentTrees(fs, n)))
  }

  predicate Final(fs: Fs, n: nat) {
    Complete(fs.active, n) && AllNew(fs.active) && fs.marker && fs.trees == []
  }

  predicate Quiet(s: State, n: nat) {
    forall i :: 0 <= i < n ==> i !in s.busy
  }

  /** What the position of the migrating process adds. */
  predicate PcOk(s: State, n: nat) {
    var fs := s.fs;
    match s.pc
    case Inspect => forall i :: 0 <= i < |fs.trees| ==> fs.trees[i].Staging?
    case Retire(after) => OneTree(fs) && fs.trees[0].Staging? && AfterOk(s, after)
    case Sweep(after) => OneTree(fs) && fs.trees[0].Gc? && (after.Reclaim? || AfterOk(s, after))
    case Quiesce(k) =>
      AllOld(fs.active) && !fs.marker && fs.trees == [] && k <= n && (forall i :: 0 <= i < k ==> i !in s.busy)
    case Building(image) =>
      && AllOld(fs.active) && !fs.marker && Quiet(s, n) && image == ImageDir(fs.active)
      && OneTree(fs) && fs.trees[0].Build?
      && (forall i :: i in fs.trees[0].files ==> i in image && fs.trees[0].files[i] == image[i])
    case Exchange =>
      && AllOld(fs.active) && !fs.marker && Quiet(s, n)
      && OneTree(fs) && fs.trees[0] == Staging(ImageDir(fs.active))
    case Verify => Swapped(fs)
    case DropTemp => Swapped(fs)
    case CreateTemp => Swapped(fs) && !fs.temp
    case PublishMarker => Swapped(fs) && fs.temp
    case Finished => AllNew(fs.active) && fs.marker && fs.trees == []
    case _ => true
  }

  predicate AfterOk(s: State, after: Pc) {
    || (after == Quiesce(0) && AllOld(s.fs.active) && !s.fs.marker)
    || (after == Finished && AllNew(s.fs.active) && s.fs.marker)
  }

  predicate Swapped(fs: Fs) {
    AllNew(fs.active) && !fs.marker && OneTree(fs) && fs.trees[0].Staging?
  }

  predicate Inv(s: State, n: nat) {
    && Shape(s.fs, n) && PcOk(s, n)
    && (s.inUse ==> Final(s.fs, n))
  }
}
