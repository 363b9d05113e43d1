/**
 The migration as a program: what an uncontended reopen does from any state that
 earlier deaths left behind. Each assignment to the state is one step of the step
 system, and the ghost path records them.
 */
module MigrationReopen {
  import opened Migration
  import opened MigrationSafety

  predicate MigratorStep(s: State, n: nat, step: Step, s': State) {
    RecoveryStep(s, n, step, s') || ForwardStep(s, n, step, s')
  }

  ghost predicate CanStep(s: State, n: nat, s': State) {
    exists step :: MigratorStep(s, n, step, s')
  }

  /** Consecutive states linked by steps of the migrating process alone. */
  ghost predicate Path(path: seq<State>, n: nat) {
    forall i :: 0 < i < |path| ==> CanStep(path[i - 1], n, path[i])
  }

  /** A path from `start` to `s` of states that satisfy the invariant, with unchanged slot contents. */
  ghost predicate Leads(path: seq<State>, start: State, s: State, n: nat) {
    && |path| > 0 && path[0] == start && path[|path| - 1] == s
    && Path(path, n)
    && Inv(s, n) && s.busy == {}
    && Contents(s.fs.active) == Contents(start.fs.active)
    && NoWayBack(start.fs.active, s.fs.active)
  }

  lemma ExtendPath(path: seq<State>, s: State, n: nat, s': State)
    requires |path| > 0 && path[|path| - 1] == s && Path(path, n) && CanStep(s, n, s')
    ensures Path(path + [s'], n)
  {
    hide CanStep;
    var path' := path + [s'];
    forall i | 0 < i < |path'|
      ensures CanStep(path'[i - 1], n, path'[i])
    {
      if i < |path| {
        assert CanStep(path[i - 1], n, path[i]);
      }
    }
  }

  lemma Extend(path: seq<State>, start: State, s: State, n: nat, step: Step, s': State)
    requires 0 < n && Leads(path, start, s, n) && MigratorStep(s, n, step, s')
    ensures Leads(path + [s'], start, s', n)
  {
    hide Inv;
    hide RecoveryStep;
    hide ForwardStep;
    hide Path;
    NextKeepsInv(s, n, step, s');
    MigratorFrame(s, n, step, s');
    assert CanStep(s, n, s');
    ExtendPath(path, s, n, s');
  }

  lemma MigratorFrame(s: State, n: nat, step: Step, s': State)
    requires RecoveryStep(s, n, step, s') || ForwardStep(s, n, step, s')
    ensures s'.busy == s.busy && !step.OldWrite? && !step.NewWrite?
  {
  }

  /** Deletes the files of the quarantined tree one by one, then the tree. */
  method SweepTree(start: State, s0: State, n: nat, ghost path0: seq<State>)
    returns (s: State, ghost path: seq<State>)
    requires 0 < n && Leads(path0, start, s0, n) && s0.pc.Sweep?
    ensures Leads(path, start, s, n)
    ensures s.pc == s0.pc.after && s.fs == s0.fs.(trees := [])
  {
    hide Shape;
    hide Leads;
    s, path := s0, path0;
    assert Inv(s, n) by { LeadsInv(path, start, s, n); }
    while s.fs.trees[0].files != map[]
      invariant Leads(path, start, s, n) && Inv(s, n)
      invariant s.pc == s0.pc && OneTree(s.fs) && s.fs.trees[0].Gc?
      invariant s.fs == s0.fs.(trees := s.fs.trees)
      decreases s.fs.trees[0].files.Keys
    {
      var files := s.fs.trees[0].files;
      var i :| i in files.Keys;
      assert i !in (files - {i}).Keys;
      var next := s.(fs := s.fs.(trees := [Gc(files - {i})]));
      Extend(path, start, s, n, SweepFile(i), next);
      s, path := next, path + [next];
      LeadsInv(path, start, s, n);
    }
    var next := s.(fs := s.fs.(trees := []), pc := s.pc.after);
    Extend(path, start, s, n, SweepDir, next);
    s, path := next, path + [next];
  }

  lemma LeadsInv(path: seq<State>, start: State, s: State, n: nat)
    requires Leads(path, start, s, n)
    ensures Inv(s, n) && s.busy == {} && Contents(s.fs.active) == Contents(start.fs.active)
    ensures NoWayBack(start.fs.active, s.fs.active)
  {
  }

  /** Renames the staged tree away and sweeps it. */
  method RetireStagedTree(start: State, s0: State, n: nat, ghost path0: seq<State>)
    returns (s: State, ghost path: seq<State>)
    requires 0 < n && Leads(path0, start, s0, n) && s0.pc.Retire?
    ensures Leads(path, start, s, n)
    ensures s.pc == s0.pc.after && s.fs == s0.fs.(trees := [])
  {
    LeadsInv(path0, start, s0, n);
    var next := s0.(fs := s0.fs.(trees := [Gc(s0.fs.trees[0].files)]), pc := Sweep(s0.pc.after));
    Extend(path0, start, s0, n, RetireStaged, next);
    s, path := SweepTree(start, next, n, path0 + [next]);
  }

  /** Removes interrupted work: an unfinished build or a half-deleted tree. */
  method ReclaimWork(start: State, s0: State, n: nat, ghost path0: seq<State>)
    returns (s: State, ghost path: seq<State>)
    requires 0 < n && Leads(path0, start, s0, n) && s0.pc.Reclaim?
    ensures Leads(path, start, s, n) && s.pc.Inspect?
  {
    hide NoWayBack;
    LeadsInv(path0, start, s0, n);
    s, path := s0, path0;
    if |s.fs.trees| == 1 && !s.fs.trees[0].Staging? {
      var next := s.(pc := Sweep(Reclaim));
      if s.fs.trees[0].Build? {
        next := s.(fs := s.fs.(trees := [Gc(s.fs.trees[0].files)]), pc := Sweep(Reclaim));
        Extend(path, start, s, n, QuarantineBuild, next);
      } else {
        Extend(path, start, s, n, StartSweep, next);
      }
      s, path := SweepTree(start, next, n, path + [next]);
    }
    var next := s.(pc := Inspect);
    Extend(path, start, s, n, ReclaimDone, next);
    s, path := next, path + [next];
  }

  /** Probes every slot guard; with no older process left, all are free. */
  method QuiesceGuards(start: State, s0: State, n: nat, ghost path0: seq<State>)
    returns (s: State, ghost path: seq<State>)
    requires 0 < n && Leads(path0, start, s0, n) && s0.pc == Quiesce(0)
    ensures Leads(path, start, s, n) && s.pc == Quiesce(n) && s.fs == s0.fs
  {
    hide Shape;
    hide Leads;
    s, path := s0, path0;
    assert s.busy == {} by { LeadsInv(path, start, s, n); }
    while s.pc.seen < n
      invariant Leads(path, start, s, n) && s.busy == {}
      invariant s.pc.Quiesce? && s.pc.seen <= n && s.fs == s0.fs
      decreases n - s.pc.seen
    {
      var next := s.(pc := Quiesce(s.pc.seen + 1));
      Extend(path, start, s, n, SeeGuardFree, next);
      s, path := next, path + [next];
    }
  }

  /** Starts a build directory for the v2 image of the quiesced generation. */
  method StartBuilding(start: State, s0: State, n: nat, ghost path0: seq<State>)
    returns (s: State, ghost path: seq<State>)
    requires 0 < n && Leads(path0, start, s0, n) && s0.pc == Quiesce(n)
    ensures Leads(path, start, s, n) && s.pc == Building(ImageDir(s0.fs.active))
  {
    hide Leads;
    hide RecoveryStep;
    hide LegacyTrees;
    hide CurrentTrees;
    hide NoWayBack;
    LeadsInv(path0, start, s0, n);
    s := s0.(fs := s0.fs.(trees := s0.fs.trees + [Build(map[])]), pc := Building(ImageDir(s0.fs.active)));
    Extend(path0, start, s0, n, StartBuild, s);
    path := path0 + [s];
  }

  /** Writes the image file by file and publishes the complete tree as staging. */
  method FillBuild(start: State, s0: State, n: nat, ghost path0: seq<State>)
    returns (s: State, ghost path: seq<State>)
    requires 0 < n && Leads(path0, start, s0, n) && s0.pc.Building?
    ensures Leads(path, start, s, n) && s.pc.Exchange?
    ensures |s.fs.trees| == 1 && s.fs.trees[0].Staging? && EverySlotKept(s.fs.active, s.fs.trees[0].files)
  {
    hide Leads;
    hide Inv;
    hide RecoveryStep;
    s, path := s0, path0;
    var image := s0.pc.image;
    LeadsInv(path, start, s, n);
    BuildingKnows(s, n);
    while s.fs.trees[0].files.Keys != image.Keys
      invariant Leads(path, start, s, n)
      invariant s.pc == Building(image) && OneTree(s.fs) && s.fs.trees[0].Build?
      invariant s.fs.trees[0].files.Keys <= image.Keys
      decreases image.Keys - s.fs.trees[0].files.Keys
    {
      var files := s.fs.trees[0].files;
      var i :| i in image.Keys && i !in files.Keys;
      var next := s.(fs := s.fs.(trees := [Build(files[i := image[i]])]));
      assert i in image.Keys - files.Keys && i !in image.Keys - next.fs.trees[0].files.Keys;
      Extend(path, start, s, n, BuildFile(i), next);
      s, path := next, path + [next];
    }
    var next := s.(fs := s.fs.(trees := [Staging(s.fs.trees[0].files)]), pc := Exchange);
    Extend(path, start, s, n, PublishStaging, next);
    s, path := next, path + [next];
    LeadsInv(path, start, s, n);
    StagedIsTheImage(s, n);
  }

  lemma StagedIsTheImage(s: State, n: nat)
    requires 0 < n && Inv(s, n) && s.pc.Exchange?
    ensures OneTree(s.fs) && s.fs.trees[0].Staging? && EverySlotKept(s.fs.active, s.fs.trees[0].files)
  {
    hide ValidFile;
    var active := s.fs.active;
    assert 0 in active;
    ImageKeepsContents(active, n);
    SameContentsKeepsSlots(active, ImageDir(active));
  }

  lemma BuildingKnows(s: State, n: nat)
    requires Inv(s, n) && s.pc.Building?
    ensures OneTree(s.fs) && s.fs.trees[0].Build? && s.fs.trees[0].files.Keys <= s.pc.image.Keys
  {
    hide Shape;
  }

  /** Publishes the schema marker and retires the old generation. */
  method MarkAndRetire(start: State, s0: State, n: nat, ghost path0: seq<State>)
    returns (s: State, ghost path: seq<State>)
    requires 0 < n && Leads(path0, start, s0, n) && s0.pc.DropTemp?
    ensures Leads(path, start, s, n) && s.pc.Finished?
  {
    hide Leads;
    hide RecoveryStep;
    hide Shape;
    hide NoWayBack;
    LeadsInv(path0, start, s0, n);
    var removed := s0.(fs := s0.fs.(temp := false), pc := CreateTemp);
    Extend(path0, start, s0, n, RemoveTemp, removed);
    var made := removed.(fs := removed.fs.(temp := true), pc := PublishMarker);
    Extend(path0 + [removed], start, removed, n, MakeTemp, made);
    path := path0 + [removed] + [made];
    LeadsInv(path, start, made, n);
    var marked := made.(fs := made.fs.(temp := false, marker := true), pc := Retire(Finished));
    Extend(path, start, made, n, RenameMarker, marked);
    s, path := RetireStagedTree(start, marked, n, path + [marked]);
  }

  /** Exchanges the generations, reads the new one back and finishes. */
  method ExchangeAndVerify(start: State, s0: State, n: nat, ghost path0: seq<State>)
    returns (s: State, ghost path: seq<State>)
    requires 0 < n && Leads(path0, start, s0, n) && s0.pc.Exchange?
    ensures Leads(path, start, s, n) && s.pc.Finished?
  {
    hide Leads;
    hide RecoveryStep;
    hide Inv;
    hide Matches;
    hide Complete;
    hide NoWayBack;
    LeadsInv(path0, start, s0, n);
    ExchangeKnows(s0, n);
    var swapped := s0.(fs := s0.fs.(active := s0.fs.trees[0].files, trees := [Staging(s0.fs.active)]), pc := Verify);
    Extend(path0, start, s0, n, SwapGenerations, swapped);
    path := path0 + [swapped];
    LeadsInv(path, start, swapped, n);
    SwappedIsVerified(swapped, n);
    var verified := swapped.(pc := DropTemp);
    Extend(path, start, swapped, n, ReadBack, verified);
    s, path := MarkAndRetire(start, verified, n, path + [verified]);
  }

  lemma ExchangeKnows(s: State, n: nat)
    requires Inv(s, n) && s.pc.Exchange?
    ensures OneTree(s.fs) && s.fs.trees[0].Staging?
  {
    hide Shape;
  }

  /** From an active v1 generation to the end. */
  method MigrateLegacy(start: State, s0: State, n: nat, ghost path0: seq<State>)
    returns (s: State, ghost path: seq<State>)
    requires 0 < n && Leads(path0, start, s0, n) && s0.pc == Quiesce(0)
    ensures Leads(path, start, s, n) && s.pc.Finished?
  {
    hide Leads;
    s, path := QuiesceGuards(start, s0, n, path0);
    s, path := StartBuilding(start, s, n, path);
    s, path := FillBuild(start, s, n, path);
    s, path := ExchangeAndVerify(start, s, n, path);
  }

  lemma SwappedIsVerified(s: State, n: nat)
    requires 0 < n && Inv(s, n) && s.pc.Verify?
    ensures AllNew(s.fs.active) && OneTree(s.fs) && s.fs.trees[0].Staging?
    ensures Complete(s.fs.active, n) && Complete(s.fs.trees[0].files, n) && Matches(s.fs.trees[0].files, s.fs.active)
  {
    hide ValidFile;
    assert 0 in s.fs.active;
  }

  /** What an inspection finds once the interrupted work is reclaimed. */
  lemma InspectionCases(s: State, n: nat)
    requires 0 < n && Inv(s, n) && s.pc.Inspect?
    ensures Complete(s.fs.active, n) && 0 in s.fs.active
    ensures s.fs.active[0].New? ==>
      && AllNew(s.fs.active)
      && ((s.fs.marker && s.fs.trees == [])
          || (OneTree(s.fs) && s.fs.trees[0].Staging? && Complete(s.fs.trees[0].files, n)
              && Matches(s.fs.trees[0].files, s.fs.active)))
    ensures s.fs.active[0].Old? ==>
      && AllOld(s.fs.active) && !s.fs.marker
      && (s.fs.trees == []
          || (OneTree(s.fs) && s.fs.trees[0].Staging? && Complete(s.fs.trees[0].files, n)
              && AllNew(s.fs.trees[0].files)))
  {
    hide ValidFile;
    hide Matches;
  }

  /** From an inspected registry to the end, whichever of the crash shapes it has. */
  method FinishFromInspection(start: State, s0: State, n: nat, ghost path0: seq<State>)
    returns (s: State, ghost path: seq<State>)
    requires 0 < n && Leads(path0, start, s0, n) && s0.pc.Inspect?
    ensures Leads(path, start, s, n) && s.pc.Finished?
  {
    hide Leads;
    hide Inv;
    hide Complete;
    hide Matches;
    assert Inv(s0, n) by { LeadsInv(path0, start, s0, n); }
    InspectionCases(s0, n);
    if s0.fs.active[0].New? {
      if s0.fs.marker && s0.fs.trees == [] {
        s := s0.(pc := Finished);
        Extend(path0, start, s0, n, InspectCurrent, s);
        path := path0 + [s];
      } else if s0.fs.marker {
        var next := s0.(pc := Retire(Finished));
        Extend(path0, start, s0, n, InspectCurrent, next);
        s, path := RetireStagedTree(start, next, n, path0 + [next]);
      } else {
        var next := s0.(pc := DropTemp);
        Extend(path0, start, s0, n, InspectUnmarked, next);
        s, path := MarkAndRetire(start, next, n, path0 + [next]);
      }
    } else {
      s := s0.(pc := if s0.fs.trees == [] then Quiesce(0) else Retire(Quiesce(0)));
      Extend(path0, start, s0, n, InspectLegacy, s);
      path := path0 + [s];
      if s.pc.Retire? {
        s, path := RetireStagedTree(start, s, n, path);
      }
      s, path := MigrateLegacy(start, s, n, path);
    }
  }

  /**
   An uncontended reopen from any state that any number of deaths left behind
   succeeds: it ends with the marker, no work tree, and a v2 generation that says of
   every slot exactly what the registry said before.
   */
  method Reopen(start: State, n: nat) returns (s: State, ghost path: seq<State>)
    requires 0 < n && Inv(start, n) && start.pc.Idle? && start.busy == {}
    ensures Final(s.fs, n) && s.pc.Idle? && s.inUse
    ensures s.fs.marker && s.fs.trees == [] && forall i :: 0 <= i < n ==> i in s.fs.active && s.fs.active[i].New?
    ensures EverySlotKept(start.fs.active, s.fs.active)
    ensures |path| > 0 && path[0] == start && path[|path| - 1] == s && Path(path, n)
  {
    s := start.(pc := Reclaim);
    path := [start];
    Starts(start, n);
    Extend(path, start, start, n, Lock, s);
    hide Leads;
    hide NoWayBack;
    hide EverySlotKept;
    path := path + [s];
    s, path := ReclaimWork(start, s, n, path);
    s, path := FinishFromInspection(start, s, n, path);
    var done := s.(pc := Idle, inUse := true);
    Extend(path, start, s, n, Unlock, done);
    EndsFinal(path, start, s, n);
    s, path := done, path + [done];
    LeadsPath(path, start, s, n);
    ReopenKeeps(path, start, s, n);
  }

  lemma Starts(start: State, n: nat)
    requires Inv(start, n) && start.busy == {}
    ensures Leads([start], start, start, n)
  {
    hide Inv;
  }

  lemma EndsFinal(path: seq<State>, start: State, s: State, n: nat)
    requires 0 < n && Leads(path, start, s, n) && s.pc.Finished?
    ensures Final(s.fs, n)
    ensures s.fs.marker && s.fs.trees == [] && forall i :: 0 <= i < n ==> i in s.fs.active && s.fs.active[i].New?
  {
    hide Path;
    hide ValidFile;
  }

  lemma LeadsPath(path: seq<State>, start: State, s: State, n: nat)
    requires Leads(path, start, s, n)
    ensures |path| > 0 && path[0] == start && path[|path| - 1] == s && Path(path, n)
  {
  }

  lemma ReopenKeeps(path: seq<State>, start: State, s: State, n: nat)
    requires 0 < n && Inv(start, n) && Leads(path, start, s, n)
    ensures EverySlotKept(start.fs.active, s.fs.active)
  {
    hide Inv;
    hide Path;
    hide EverySlotKept;
    InvHasOneKind(start, n);
    InvHasOneKind(s, n);
    SameContentsKeepsSlots(start.fs.active, s.fs.active);
  }
}
