/**
 The migration over all runs: no step of it changes what any slot says, at most one
 work tree ever exists, and from every state that deaths can leave behind an
 uncontended reopen ends with a marked v2 generation and nothing beside it.
 */
module MigrationSafety {
  import opened SlotRecords
  import opened Migration

  // ---- What a slot file says, field by field ----

  /** The v2 record has every field of the v1 record, and no binding. */
  predicate Carried(v1: V1Record, v2: SlotRecord) {
    && v2.schemaVersion == 2
    && v2.slot == v1.slot
    && v2.generation == v1.generation
    && v2.owner == v1.owner
    && v2.state == v1.state
    && v2.binding.None?
  }

  /** The same slots; a file of the same schema is the same file, and a v2 file in place of a v1 file carries all of it. */
  predicate EverySlotKept(before: Dir, after: Dir) {
    && before.Keys == after.Keys
    && (forall i :: i in before && i in after && before[i].Old? && after[i].New? ==> Carried(before[i].v1, after[i].v2))
    && (forall i :: i in before && i in after && !(before[i].Old? && after[i].New?) ==> before[i] == after[i])
  }

  /** When the read back finds that two generations agree: slot by slot, field by field. */
  lemma MatchesExactly(legacy: Dir, current: Dir)
    ensures Matches(legacy, current) <==>
      && legacy.Keys == current.Keys
      && (forall i :: i in legacy ==> legacy[i].Old?) && (forall i :: i in current ==> current[i].New?)
      && (forall i :: i in legacy && i in current && legacy[i].Old? && current[i].New? ==> Carried(legacy[i].v1, current[i].v2))
  {
    if AllOld(legacy) && AllNew(current) && legacy.Keys == current.Keys {
      assert Contents(legacy) == Contents(current) <==>
        forall i :: i in legacy ==> Meaning(legacy[i]) == Meaning(current[i]) by {
        SameMeanings(legacy, current);
      }
    }
    if Matches(legacy, current) {
      assert legacy.Keys == Contents(legacy).Keys == Contents(current).Keys == current.Keys;
    }
  }

  lemma SameMeanings(a: Dir, b: Dir)
    requires a.Keys == b.Keys
    ensures Contents(a) == Contents(b) <==> forall i :: i in a ==> Meaning(a[i]) == Meaning(b[i])
  {
    if Contents(a) == Contents(b) {
      forall i | i in a
        ensures Meaning(a[i]) == Meaning(b[i])
      {
        assert Contents(a)[i] == Contents(b)[i];
      }
    }
  }

  /** No generation of v2 files turns back into one of v1 files. */
  predicate NoWayBack(before: Dir, after: Dir) {
    AllNew(before) ==> AllNew(after)
  }

  lemma SameContentsKeepsSlots(before: Dir, after: Dir)
    requires Contents(before) == Contents(after)
    requires AllOld(before) || AllNew(before)
    requires AllOld(after) || AllNew(after)
    requires NoWayBack(before, after) && before != map[]
    ensures EverySlotKept(before, after)
  {
    assert before.Keys == Contents(before).Keys == Contents(after).Keys == after.Keys;
    forall i | i in before
      ensures if before[i].Old? && after[i].New? then Carried(before[i].v1, after[i].v2) else before[i] == after[i]
    {
      assert Meaning(before[i]) == Contents(before)[i] == Contents(after)[i] == Meaning(after[i]);
      OneKindOnly(before, after, i);
    }
  }

  lemma OneKindOnly(before: Dir, after: Dir, i: nat)
    requires i in before && i in after
    requires (AllOld(before) || AllNew(before)) && (AllOld(after) || AllNew(after)) && NoWayBack(before, after)
    ensures before[i].New? ==> after[i].New?
  {
  }

  // ---- Preservation ----

  lemma ImageKeepsContents(d: Dir, n: nat)
    requires Complete(d, n)
    ensures Complete(ImageDir(d), n) && AllNew(ImageDir(d)) && Contents(ImageDir(d)) == Contents(d)
  {
    hide ValidRecord;
    forall i | i in d
      ensures ValidFile(ImageDir(d)[i], i)
    {
      match d[i]
      case Old(r) => ImageIsValid(r, i);
      case New(r) =>
    }
  }

  lemma RecoveryKeepsInv(s: State, n: nat, step: Step, s': State)
    requires 0 < n && Inv(s, n) && RecoveryStep(s, n, step, s')
    ensures Inv(s', n) && s'.fs.active == s.fs.active
  {
    hide ValidFile;
  }

  lemma BuildKeepsInv(s: State, n: nat, step: Step, s': State)
    requires 0 < n && Inv(s, n) && ForwardStep(s, n, step, s')
    requires s.pc.Quiesce? || s.pc.Building?
    ensures Inv(s', n) && s'.fs.active == s.fs.active
  {
    hide ValidFile;
    hide Matches;
    var active := s.fs.active;
    ImageKeepsContents(active, n);
    assert 0 in active;
    if step.PublishStaging? {
      assert s.fs.trees[0].files == s.pc.image;
    } else if step.StartBuild? {
      assert s'.fs.trees == [Build(map[])];
    }
  }

  lemma SwapKeepsInv(s: State, n: nat, step: Step, s': State)
    requires 0 < n && Inv(s, n) && ForwardStep(s, n, step, s')
    requires !s.pc.Quiesce? && !s.pc.Building?
    ensures Inv(s', n) && Contents(s'.fs.active) == Contents(s.fs.active)
    ensures NoWayBack(s.fs.active, s'.fs.active)
  {
    hide ValidFile;
    hide Matches;
    assert 0 in s.fs.active;
    if step.SwapGenerations? {
      ImageKeepsContents(s.fs.active, n);
      SwapMatches(s.fs.active, n);
    }
  }

  lemma ForwardKeepsInv(s: State, n: nat, step: Step, s': State)
    requires 0 < n && Inv(s, n) && ForwardStep(s, n, step, s')
    ensures Inv(s', n) && Contents(s'.fs.active) == Contents(s.fs.active)
    ensures NoWayBack(s.fs.active, s'.fs.active)
  {
    hide Inv;
    hide ForwardStep;
    if s.pc.Quiesce? || s.pc.Building? {
      BuildKeepsInv(s, n, step, s');
    } else {
      SwapKeepsInv(s, n, step, s');
    }
  }

  lemma SwapMatches(d: Dir, n: nat)
    requires Complete(d, n) && AllOld(d)
    ensures Matches(d, ImageDir(d))
  {
    ImageKeepsContents(d, n);
  }

  lemma EnvironmentKeepsInv(s: State, n: nat, step: Step, s': State)
    requires 0 < n && Inv(s, n) && EnvironmentStep(s, n, step, s')
    ensures Inv(s', n)
    ensures !step.OldWrite? && !step.NewWrite? ==> s'.fs.active == s.fs.active
    ensures NoWayBack(s.fs.active, s'.fs.active)
  {
    hide ValidRecord;
    hide Matches;
    assert 0 in s.fs.active;
  }

  ghost predicate Init(s: State, n: nat) {
    && 0 < n && Complete(s.fs.active, n) && s.fs.trees == [] && s.pc.Idle? && !s.inUse
    && (|| (AllOld(s.fs.active) && !s.fs.marker)
        || (AllNew(s.fs.active) && s.fs.marker))
  }

  lemma InvHasOneKind(s: State, n: nat)
    requires 0 < n && Inv(s, n)
    ensures s.fs.active != map[] && (AllOld(s.fs.active) || AllNew(s.fs.active))
  {
    hide ValidFile;
    assert 0 in s.fs.active;
  }

  /** Runs of migrating processes, deaths, older writers and v2 users, in any order. */
  ghost predicate IsRun(run: seq<State>, steps: seq<Step>, n: nat) {
    && |run| == |steps| + 1
    && Init(run[0], n)
    && (forall i :: 0 <= i < |steps| ==> Next(run[i], n, steps[i], run[i + 1]))
  }

  lemma NextKeepsInv(s: State, n: nat, step: Step, s': State)
    requires 0 < n && Inv(s, n) && Next(s, n, step, s')
    ensures Inv(s', n)
    ensures !step.OldWrite? && !step.NewWrite? ==> Contents(s'.fs.active) == Contents(s.fs.active)
    ensures NoWayBack(s.fs.active, s'.fs.active)
  {
    hide Inv;
    hide RecoveryStep;
    hide ForwardStep;
    hide EnvironmentStep;
    if RecoveryStep(s, n, step, s') {
      RecoveryKeepsInv(s, n, step, s');
    } else if ForwardStep(s, n, step, s') {
      ForwardKeepsInv(s, n, step, s');
    } else {
      EnvironmentKeepsInv(s, n, step, s');
    }
  }

  lemma {:induction false} RunInvariant(run: seq<State>, steps: seq<Step>, n: nat, k: nat)
    requires IsRun(run, steps, n) && k < |run|
    ensures Inv(run[k], n)
  {
    hide Next;
    if k > 0 {
      RunInvariant(run, steps, n, k - 1);
      NextKeepsInv(run[k - 1], n, steps[k - 1], run[k]);
    }
  }

  /**
   No migration step and no death changes what any slot says: between two moments
   of a run without writes by older or newer owners, slot, generation, owner and
   state of every slot are the same, whichever schema they are stored in.
   */
  lemma MigrationKeepsEverySlot(run: seq<State>, steps: seq<Step>, n: nat, i: nat, j: nat)
    requires IsRun(run, steps, n) && i <= j < |run|
    requires forall k :: i <= k < j ==> !steps[k].OldWrite? && !steps[k].NewWrite?
    ensures EverySlotKept(run[i].fs.active, run[j].fs.active)
  {
    hide Inv;
    hide Next;
    ContentsKept(run, steps, n, i, j);
    RunInvariant(run, steps, n, i);
    RunInvariant(run, steps, n, j);
    InvHasOneKind(run[i], n);
    InvHasOneKind(run[j], n);
    SameContentsKeepsSlots(run[i].fs.active, run[j].fs.active);
  }

  lemma {:induction false} ContentsKept(run: seq<State>, steps: seq<Step>, n: nat, i: nat, j: nat)
    requires IsRun(run, steps, n) && i <= j < |run|
    requires forall k :: i <= k < j ==> !steps[k].OldWrite? && !steps[k].NewWrite?
    ensures Contents(run[j].fs.active) == Contents(run[i].fs.active)
    ensures NoWayBack(run[i].fs.active, run[j].fs.active)
    decreases j - i
  {
    hide Next;
    if i < j {
      ContentsKept(run, steps, n, i, j - 1);
      RunInvariant(run, steps, n, j - 1);
      NextKeepsInv(run[j - 1], n, steps[j - 1], run[j]);
    }
  }

  /** The active generation is never a mix, and there is never more than one work tree. */
  lemma NeverMixedNorAmbiguous(run: seq<State>, steps: seq<Step>, n: nat, k: nat)
    requires IsRun(run, steps, n) && k < |run|
    ensures AllOld(run[k].fs.active) || AllNew(run[k].fs.active)
    ensures |run[k].fs.trees| <= 1
    ensures run[k].fs.marker ==> AllNew(run[k].fs.active)
  {
    RunInvariant(run, steps, n, k);
  }

  // ---- The lock-free ready check ----

  lemma MarkedStaysMarked(run: seq<State>, steps: seq<Step>, n: nat, k: nat)
    requires IsRun(run, steps, n) && k < |steps| && run[k].fs.marker
    ensures run[k + 1].fs.marker
    ensures |run[k + 1].fs.trees| <= |run[k].fs.trees|
  {
    hide ValidFile;
    RunInvariant(run, steps, n, k);
    assert Next(run[k], n, steps[k], run[k + 1]);
  }

  lemma {:induction false} MarkedWithoutTreesIsForever(run: seq<State>, steps: seq<Step>, n: nat, i: nat, j: nat)
    requires IsRun(run, steps, n) && i <= j < |run| && run[i].fs.marker
    ensures run[j].fs.marker && |run[j].fs.trees| <= |run[i].fs.trees|
    decreases j - i
  {
    hide Next;
    if i < j {
      MarkedWithoutTreesIsForever(run, steps, n, i, j - 1);
      MarkedStaysMarked(run, steps, n, j - 1);
    }
  }

  /**
   The ready check reads the marker first and lists the directory later, with
   anything in between. If it saw the marker at `i` and no work tree at `j`, then
   from `j` on the registry is final, and a full migration would change nothing.
   */
  lemma ReadyCheckIsSound(run: seq<State>, steps: seq<Step>, n: nat, i: nat, j: nat, k: nat)
    requires IsRun(run, steps, n) && i <= j <= k < |run|
    requires run[i].fs.marker && run[j].fs.trees == []
    ensures Final(run[k].fs, n)
  {
    hide Next;
    MarkedWithoutTreesIsForever(run, steps, n, i, j);
    MarkedWithoutTreesIsForever(run, steps, n, j, k);
    RunInvariant(run, steps, n, k);
  }

  lemma FinalMigrationChangesNothing(s: State, n: nat, step: Step, s': State)
    requires Inv(s, n) && 0 < n && Final(s.fs, n)
    requires RecoveryStep(s, n, step, s') || ForwardStep(s, n, step, s')
    ensures s'.fs == s.fs
  {
    hide ValidFile;
  }
}
