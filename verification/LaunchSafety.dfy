/**
 Safety of the launch protocol over all interleavings: renames behave like atomic
 compare-and-swap, targets execute only under their own durable identity, and a
 tombstone means that nothing of its generation lives, then or later.
 */
module LaunchSafety {
  import opened Common
  import opened SlotRecords
  import opened SlotEvents
  import opened LaunchProtocol

  // ---- Facts about single writes ----

  lemma ArtifactWritesOutsideIntents(r: SlotRecord, slot: nat, generation: nat, stale: Binding, op: ArtifactOp)
    requires SoundRecord(r, slot) && ProposeArtifact(r, generation, stale, op).Write?
    ensures var n := ProposeArtifact(r, generation, stale, op).next;
      !r.state.IntentDurable? && n.state == r.state && n.generation == r.generation
  {
    hide ValidBinding;
    hide QuarantineName;
    hide ValidLeaf;
    hide ValidRecord;
  }

  lemma ArtifactWriteKeepsState(r: SlotRecord, slot: nat, generation: nat, stale: Binding, op: ArtifactOp)
    requires SoundRecord(r, slot) && ProposeArtifact(r, generation, stale, op).Write?
    ensures var n := ProposeArtifact(r, generation, stale, op).next;
      && !r.state.IntentDurable? && n.state == r.state && n.generation == r.generation
      && Transition(r, n) && SoundRecord(n, slot)
  {
    hide ProposeArtifact;
    hide Transition;
    hide SoundRecord;
    ArtifactWritesOutsideIntents(r, slot, generation, stale, op);
    ProposalIsAccepted(Artifact(generation, stale, op), r, slot);
  }

  lemma ReservationWriteKeepsState(r: SlotRecord, slot: nat, op: ReservationOp)
    requires SoundRecord(r, slot) && r.state.IntentDurable?
    requires ProposeReservation(r, op).Write? && !OwnerlessCreation(Reserve(op), r)
    ensures var n := ProposeReservation(r, op).next;
      n.state == r.state && n.generation == r.generation && Transition(r, n) && SoundRecord(n, slot)
  {
    ProposalIsAccepted(Reserve(op), r, slot);
  }

  // ---- Preservation ----

  /** A step that moves one thread and leaves the shared state alone. */
  lemma PrivateMove(s: State, s': State, slot: nat, t: Thread, pc: Pc)
    requires Inv(s, slot) && t in s.threads
    requires s' == At(s, t, pc)
    requires HoldsLock(pc) == HoldsLock(s.threads[t]) && HoldsGuard(pc) == HoldsGuard(s.threads[t])
    requires PcOk(s.shared, slot, pc)
    ensures Inv(s', slot)
  {
    hide PcOk;
    hide SoundRecord;
    hide ProcessesOk;
    hide IsOwn;
    hide HoldsLock;
    hide HoldsGuard;
  }

  lemma RenamingHolds(pc: Pc)
    ensures pc.Renaming? ==> HoldsLock(pc) == HoldsLock(pc.after) && HoldsGuard(pc) == HoldsGuard(pc.after)
  {
  }

  /** What it takes for a step to be such a move to a position that is all right. */
  ghost predicate MovesTo(s: State, s': State, slot: nat, t: Thread) {
    && t in s.threads && t in s'.threads
    && s' == At(s, t, s'.threads[t])
    && HoldsLock(s'.threads[t]) == HoldsLock(s.threads[t])
    && HoldsGuard(s'.threads[t]) == HoldsGuard(s.threads[t])
    && PcOk(s.shared, slot, s'.threads[t])
  }

  lemma MoveKeepsInv(s: State, s': State, slot: nat, t: Thread)
    requires Inv(s, slot) && MovesTo(s, s', slot, t)
    ensures Inv(s', slot)
  {
    hide Inv;
    hide PcOk;
    hide HoldsLock;
    hide HoldsGuard;
    PrivateMove(s, s', slot, t, s'.threads[t]);
  }

  lemma AllocatorMoves(s: State, step: Step, s': State, slot: nat)
    requires AllocatorStep(s, step, s') && SoundRecord(s.shared.disk, slot) && PcOk(s.shared, slot, s.threads[step.t])
    requires step.AllocRecycle? || step.AllocChoose? || step.AllocCompare?
    ensures MovesTo(s, s', slot, step.t)
  {
    hide Transition;
    if step.AllocRecycle? {
      ProposalIsAccepted(Recycle(step.now), s.shared.disk, slot);
    } else if step.AllocChoose? {
      ProposalIsAccepted(Issue(step.owner, step.nonce, step.now), s.shared.disk, slot);
    }
    RenamingHolds(s'.threads[step.t]);
  }

  lemma AllocClearKeepsInv(s: State, s': State, slot: nat, t: Thread)
    requires Inv(s, slot) && AllocatorStep(s, AllocClear(t), s')
    ensures Inv(s', slot)
  {
    hide Transition;
    hide SoundRecord;
    hide ProcessesOk;
    assert PcOk(s.shared, slot, s.threads[t]);
    PrivateMove(s, At(s, t, s'.threads[t]), slot, t, s'.threads[t]);
  }

  lemma AllocatorKeepsInv(s: State, step: Step, s': State, slot: nat)
    requires Inv(s, slot) && AllocatorStep(s, step, s')
    ensures Inv(s', slot)
  {
    hide PcOk;
    hide SoundRecord;
    hide ProcessesOk;
    hide MovesTo;
    if step.TakeGuard? {
      TakeGuardKeepsInv(s, s', slot, step.t);
    } else if step.AllocReturn? {
      AllocReturnKeepsInv(s, s', slot, step.t);
    } else if step.AllocClear? {
      AllocClearKeepsInv(s, s', slot, step.t);
    } else {
      assert PcOk(s.shared, slot, s.threads[step.t]);
      AllocatorMoves(s, step, s', slot);
      MoveKeepsInv(s, s', slot, step.t);
    }
  }

  /** Every thread of this system holds the registry lock or the slot guard. */
  lemma EveryThreadHolds(v: Shared, slot: nat, pc: Pc)
    requires PcOk(v, slot, pc)
    ensures HoldsLock(pc) || HoldsGuard(pc)
  {
    hide Transition;
    hide SoundRecord;
    RenamingHolds(pc);
  }

  /** Beside the holder of an intent nobody else can be inside the slot. */
  lemma IntentHolderIsAlone(v: Shared, slot: nat, r: SlotRecord, pc: Pc)
    requires HoldsIntent(v, r) && v.guardParent.Some?
    requires PcOk(v, slot, pc) && !HoldsGuard(pc)
    ensures pc.AllocScan? || pc.CleanScan? || pc.CleanDone? || pc.ArtifactScan?
  {
    hide Transition;
    hide SoundRecord;
  }

  lemma TakeGuardKeepsInv(s: State, s': State, slot: nat, t: Thread)
    requires Inv(s, slot) && AllocatorStep(s, TakeGuard(t), s')
    ensures Inv(s', slot)
  {
    hide Transition;
    hide SoundRecord;
    assert PcOk(s.shared, slot, s.threads[t]);
    forall u | u in s.threads && u != t
      ensures false
    {
      assert PcOk(s.shared, slot, s.threads[u]);
      EveryThreadHolds(s.shared, slot, s.threads[u]);
    }
    forall id | id in s'.shared.births
      ensures LifeOk(s'.shared, id)
    {
      assert LifeOk(s.shared, id);
    }
  }

  lemma AllocReturnKeepsInv(s: State, s': State, slot: nat, t: Thread)
    requires Inv(s, slot) && AllocatorStep(s, AllocReturn(t), s')
    ensures Inv(s', slot)
  {
    hide Transition;
    hide SoundRecord;
    assert PcOk(s.shared, slot, s.threads[t]);
  }

  lemma ReservationMoves(s: State, step: Step, s': State, slot: nat)
    requires step.ReservationCompare? && LauncherStep(s, step, s')
    requires SoundRecord(s.shared.disk, slot) && PcOk(s.shared, slot, s.threads[step.t])
    ensures MovesTo(s, s', slot, step.t)
  {
    hide Transition;
    hide SoundRecord;
    hide ProposeReservation;
    ReservationWriteKeepsState(s.threads[step.t].record, slot, step.update);
    RenamingHolds(s'.threads[step.t]);
  }

  lemma HelloMoves(s: State, step: Step, s': State, slot: nat)
    requires step.ReceiveHello? && LauncherStep(s, step, s')
    requires MessagesOk(s) && PcOk(s.shared, slot, s.threads[step.t])
    ensures MovesTo(s, s', slot, step.t)
  {
    hide Transition;
    assert IsOwn(s.shared, s.hellos[s.threads[step.t].child]);
  }

  lemma PromoteMoves(s: State, step: Step, s': State, slot: nat)
    requires step.PromoteCompare? && LauncherStep(s, step, s')
    requires SoundRecord(s.shared.disk, slot) && PcOk(s.shared, slot, s.threads[step.t])
    ensures MovesTo(s, s', slot, step.t)
  {
    hide Transition;
    hide SoundRecord;
    var pc := s.threads[step.t];
    ProposalIsAccepted(Promote(pc.registration.identity), pc.record, slot);
    RenamingHolds(s'.threads[step.t]);
  }

  lemma SendCommitKeepsInv(s: State, s': State, slot: nat, t: Thread)
    requires Inv(s, slot) && LauncherStep(s, SendCommit(t), s')
    ensures Inv(s', slot)
  {
    hide SoundRecord;
    hide ProcessesOk;
    hide RenameReady;
    PrivateMove(s, At(s, t, Launched), slot, t, Launched);
  }

  lemma LauncherKeepsInv(s: State, step: Step, s': State, slot: nat)
    requires Inv(s, slot) && LauncherStep(s, step, s')
    ensures Inv(s', slot)
  {
    hide PcOk;
    hide SoundRecord;
    hide ProcessesOk;
    hide MessagesOk;
    hide MovesTo;
    assert PcOk(s.shared, slot, s.threads[step.t]);
    if step.Spawn? {
      SpawnKeepsInv(s, s', slot, step.t, step.id);
    } else if step.SendCommit? {
      SendCommitKeepsInv(s, s', slot, step.t);
    } else {
      if step.ReservationCompare? {
        ReservationMoves(s, step, s', slot);
      } else if step.ReceiveHello? {
        HelloMoves(s, step, s', slot);
      } else {
        PromoteMoves(s, step, s', slot);
      }
      MoveKeepsInv(s, s', slot, step.t);
    }
  }

  lemma SpawnKeepsProcesses(v: Shared, r: SlotRecord, id: ProcessIdentity, v': Shared)
    requires ProcessesOk(v) && HoldsIntent(v, r) && !SomebodyBorn(v, r.generation) && v.guardParent.Some?
    requires id !in v.births && id !in v.gates
    requires v' == v.(guardGate := Some(id),
                      births := v.births[id := Birth(r.generation, r.state.nonce)],
                      gates := v.gates[id := Started])
    ensures ProcessesOk(v')
  {
    assert v.guardGate.None?;
    forall i | i in v'.births
      ensures LifeOk(v', i)
    {
      assert i != id ==> LifeOk(v, i);
    }
  }

  lemma SpawnKeepsInv(s: State, s': State, slot: nat, t: Thread, id: ProcessIdentity)
    requires Inv(s, slot) && LauncherStep(s, Spawn(t, id), s')
    ensures Inv(s', slot)
  {
    hide Transition;
    hide SoundRecord;
    hide ProcessesOk;
    hide RenameReady;
    var v, v', r := s.shared, s'.shared, s.threads[t].record;
    assert PcOk(v, slot, s.threads[t]);
    SpawnKeepsProcesses(v, r, id, v');
    forall u | u in s'.threads
      ensures PcOk(v', slot, s'.threads[u])
    {
      if u != t {
        assert PcOk(v, slot, s.threads[u]);
        IntentHolderIsAlone(v, slot, r, s.threads[u]);
      }
    }
    forall i | i in s'.hellos
      ensures IsOwn(v', s'.hellos[i])
    {
      assert IsOwn(v, s.hellos[i]);
    }
  }

  lemma CleanerLooks(s: State, step: Step, s': State, slot: nat)
    requires CleanerStep(s, step, s') && PcOk(s.shared, slot, s.threads[step.t])
    requires step.CleanProbe? || step.CleanResume? || step.CleanAbsent?
    ensures MovesTo(s, s', slot, step.t)
  {
    hide RenameReady;
  }

  lemma CleanerMarks(s: State, step: Step, s': State, slot: nat)
    requires CleanerStep(s, step, s') && step.CleanMarkCompare? && SoundRecord(s.shared.disk, slot)
    ensures MovesTo(s, s', slot, step.t)
  {
    hide Transition;
    hide SoundRecord;
    ProposalIsAccepted(MarkPending, s.shared.disk, slot);
    RenamingHolds(s'.threads[step.t]);
  }

  lemma CleanerBuries(s: State, step: Step, s': State, slot: nat)
    requires CleanerStep(s, step, s') && SoundRecord(s.shared.disk, slot) && PcOk(s.shared, slot, s.threads[step.t])
    requires step.CleanProbedCompare? || step.CleanDeadCompare?
    ensures MovesTo(s, s', slot, step.t)
  {
    hide Transition;
    hide SoundRecord;
    ProposalIsAccepted(Entomb(step.now), s.threads[step.t].record, slot);
    RenamingHolds(s'.threads[step.t]);
  }

  lemma CleanerKeepsInv(s: State, step: Step, s': State, slot: nat)
    requires Inv(s, slot) && CleanerStep(s, step, s')
    ensures Inv(s', slot)
  {
    hide PcOk;
    hide SoundRecord;
    hide ProcessesOk;
    hide MessagesOk;
    hide MovesTo;
    assert PcOk(s.shared, slot, s.threads[step.t]);
    if step.CleanMarkCompare? {
      CleanerMarks(s, step, s', slot);
    } else if step.CleanProbedCompare? || step.CleanDeadCompare? {
      CleanerBuries(s, step, s', slot);
    } else {
      CleanerLooks(s, step, s', slot);
    }
    MoveKeepsInv(s, s', slot, step.t);
  }

  lemma ThreadKeepsInv(s: State, step: Step, s': State, slot: nat)
    requires Inv(s, slot) && ThreadStep(s, step, s') && !step.Rename?
    ensures Inv(s', slot)
  {
    hide ProposeArtifact;
    hide Transition;
    hide SoundRecord;
    hide ProcessesOk;
    match step
    case TakeLock(t, start) =>
    case ArtifactCompare(t, generation, stale, op) =>
      ArtifactWriteKeepsState(s.shared.disk, slot, generation, stale, op);
      PrivateMove(s, s', slot, t, s'.threads[t]);
    case Unconfirmed(t, renamed) => UnconfirmedKeepsInv(s, s', slot, t, renamed);
    case Vanish(t) => VanishKeepsInv(s, s', slot, t);
    case _ =>
  }

  lemma VanishKeepsInv(s: State, s': State, slot: nat, t: Thread)
    requires Inv(s, slot) && ThreadStep(s, Vanish(t), s')
    ensures Inv(s', slot)
  {
    hide PcOk;
    hide SoundRecord;
    forall u | u in s'.threads
      ensures PcOk(s'.shared, slot, s'.threads[u])
    {
      assert u in s.threads && PcOk(s.shared, slot, s.threads[u]);
      ReleasePreservesPc(s.shared, s'.shared, slot, s.threads[u]);
    }
    forall id | id in s'.shared.births
      ensures LifeOk(s'.shared, id)
    {
      assert LifeOk(s.shared, id);
    }
    assert HoldersOk(s');
  }

  /** Two positions that exclude each other: at most one holds the lock, at most one the guard. */
  predicate Exclusive(v: Shared, p: Pc, q: Pc) {
    && !(HoldsLock(p) && HoldsLock(q))
    && !(HoldsGuard(p) && HoldsGuard(q))
    && (HoldsGuard(p) || HoldsGuard(q) ==> v.guardParent.Some?)
  }

  /** While one thread has compared, no other thread's position depends on the old record. */
  lemma RenamePinsNobodyElse(v: Shared, slot: nat, p: Pc, q: Pc)
    requires p.Renaming? && PcOk(v, slot, p) && PcOk(v, slot, q) && Exclusive(v, p, q)
    ensures PcOk(v.(disk := p.next), slot, q)
  {
    hide Transition;
    hide SoundRecord;
    RenamingHolds(p);
    RenamingHolds(q);
  }

  lemma RenameKeepsProcesses(v: Shared, slot: nat, e: SlotRecord, n: SlotRecord, after: Pc)
    requires ProcessesOk(v) && RenameReady(v, slot, e, n, after)
    ensures ProcessesOk(v.(disk := n))
  {
    hide Transition;
    hide SoundRecord;
    forall id | id in v.births
      ensures LifeOk(v.(disk := n), id)
    {
      assert LifeOk(v, id);
    }
  }

  /** After its rename a thread is where the comparison promised. */
  lemma RenameReachesAfter(v: Shared, slot: nat, pc: Pc)
    requires ProcessesOk(v) && pc.Renaming? && PcOk(v, slot, pc)
    ensures PcOk(v.(disk := pc.next), slot, pc.after)
  {
    hide Transition;
    hide SoundRecord;
    hide LifeOk;
  }

  /** After an update reported as failed the reservation still stands for the intent on file. */
  lemma UnconfirmedStays(v: Shared, slot: nat, pc: Pc, disk: SlotRecord)
    requires pc.Renaming? && pc.after.Prepared? && PcOk(v, slot, pc) && (disk == pc.next || disk == pc.expected)
    ensures PcOk(v.(disk := disk), slot, Prepared(pc.expected))
  {
    hide Transition;
    hide SoundRecord;
  }

  /** A rename that takes its thread to a position that is all right. */
  ghost predicate RenamesTo(s: State, s': State, slot: nat, t: Thread) {
    && t in s.threads && s.threads[t].Renaming? && t in s'.threads
    && s' == At(s, t, s'.threads[t]).(shared := s.shared.(disk := s.threads[t].next))
    && PcOk(s'.shared, slot, s'.threads[t])
    && HoldsLock(s'.threads[t]) == HoldsLock(s.threads[t])
    && HoldsGuard(s'.threads[t]) == HoldsGuard(s.threads[t])
  }

  lemma RenameKeepsThreads(s: State, s': State, slot: nat, t: Thread)
    requires HoldersOk(s) && ThreadsOk(s, slot) && RenamesTo(s, s', slot, t)
    ensures ThreadsOk(s', slot)
  {
    hide PcOk;
    var v, pc := s.shared, s.threads[t];
    assert PcOk(v, slot, pc);
    forall u | u in s'.threads
      ensures PcOk(s'.shared, slot, s'.threads[u])
    {
      if u != t {
        assert PcOk(v, slot, s.threads[u]);
        RenamePinsNobodyElse(v, slot, pc, s.threads[u]);
      }
    }
  }

  lemma RenameKeepsHolders(s: State, s': State, slot: nat, t: Thread)
    requires HoldersOk(s) && RenamesTo(s, s', slot, t)
    ensures HoldersOk(s')
  {
    hide PcOk;
    hide HoldsLock;
    hide HoldsGuard;
  }

  lemma WriteKeepsInv(s: State, s': State, slot: nat, t: Thread)
    requires Inv(s, slot) && RenamesTo(s, s', slot, t)
    ensures Inv(s', slot)
  {
    hide Transition;
    hide SoundRecord;
    hide HoldersOk;
    hide ProcessesOk;
    hide HoldsLock;
    hide HoldsGuard;
    var v, pc := s.shared, s.threads[t];
    assert PcOk(v, slot, pc);
    RenameKeepsProcesses(v, slot, pc.expected, pc.next, pc.after);
    RenameKeepsHolders(s, s', slot, t);
    RenameKeepsThreads(s, s', slot, t);
    forall id | id in s'.hellos
      ensures IsOwn(s'.shared, s'.hellos[id])
    {
      assert IsOwn(v, s.hellos[id]);
    }
  }

  lemma RenameKeepsInv(s: State, s': State, slot: nat, t: Thread)
    requires Inv(s, slot) && ThreadStep(s, Rename(t), s')
    ensures Inv(s', slot)
  {
    hide PcOk;
    hide ProcessesOk;
    hide SoundRecord;
    assert PcOk(s.shared, slot, s.threads[t]);
    RenamingHolds(s.threads[t]);
    RenameReachesAfter(s.shared, slot, s.threads[t]);
    WriteKeepsInv(s, s', slot, t);
  }

  lemma UnconfirmedKeepsInv(s: State, s': State, slot: nat, t: Thread, renamed: bool)
    requires Inv(s, slot) && ThreadStep(s, Unconfirmed(t, renamed), s')
    ensures Inv(s', slot)
  {
    hide PcOk;
    hide ProcessesOk;
    hide SoundRecord;
    hide IsOwn;
    var pc := s.threads[t];
    assert PcOk(s.shared, slot, pc);
    RenamingHolds(pc);
    if renamed {
      UnconfirmedStays(s.shared, slot, pc, pc.next);
      WriteKeepsInv(s, s', slot, t);
    } else {
      RenameComparesDisk(s.shared, slot, pc);
      UnconfirmedStays(s.shared, slot, pc, pc.expected);
      assert s.shared.(disk := pc.expected) == s.shared;
      PrivateMove(s, s', slot, t, Prepared(pc.expected));
    }
  }

  lemma RenameComparesDisk(v: Shared, slot: nat, pc: Pc)
    requires pc.Renaming? && PcOk(v, slot, pc)
    ensures v.disk == pc.expected && Transition(pc.expected, pc.next)
  {
    hide Transition;
    hide SoundRecord;
  }

  /** What a gate's own step does to one process. */
  lemma GateKeepsLife(s: State, step: Step, s': State, id: ProcessIdentity)
    requires ProcessesOk(s.shared) && GateStep(s, step, s') && id in s.shared.births
    ensures LifeOk(s'.shared, id)
    ensures s'.shared == s.shared.(gates := s'.shared.gates, guardGate := s'.shared.guardGate)
    ensures s'.shared.gates.Keys == s.shared.gates.Keys
    ensures Alive(s'.shared, id) ==> Alive(s.shared, id)
  {
    assert LifeOk(s.shared, id) && LifeOk(s.shared, step.id);
  }

  /** What a gate's own step does to the processes. */
  lemma GateKeepsProcesses(s: State, step: Step, s': State)
    requires ProcessesOk(s.shared) && GateStep(s, step, s')
    ensures ProcessesOk(s'.shared)
    ensures s'.shared == s.shared.(gates := s'.shared.gates, guardGate := s'.shared.guardGate)
    ensures s'.shared.guardGate == s.shared.guardGate || s'.shared.guardGate.None?
    ensures forall id :: Alive(s'.shared, id) ==> Alive(s.shared, id)
  {
    hide GateStep;
    hide LifeOk;
    var v, v' := s.shared, s'.shared;
    GateKeepsGuard(s, step, s');
    forall id | id in v'.births
      ensures LifeOk(v', id)
    {
      GateKeepsLife(s, step, s', id);
    }
    forall id | Alive(v', id)
      ensures Alive(v, id)
    {
      GateKeepsLife(s, step, s', id);
    }
  }

  lemma GateKeepsGuard(s: State, step: Step, s': State)
    requires ProcessesOk(s.shared) && GateStep(s, step, s')
    ensures s'.shared == s.shared.(gates := s'.shared.gates, guardGate := s'.shared.guardGate)
    ensures s'.shared.gates.Keys == s.shared.gates.Keys
    ensures s'.shared.guardGate == s.shared.guardGate || s'.shared.guardGate.None?
    ensures s'.shared.guardGate.Some? ==>
      Alive(s'.shared, s'.shared.guardGate.value) && !s'.shared.gates[s'.shared.guardGate.value].Target?
  {
    assert LifeOk(s.shared, step.id);
  }

  lemma GateKeepsMessages(s: State, step: Step, s': State)
    requires MessagesOk(s) && GateStep(s, step, s')
    ensures MessagesOk(s')
    ensures s'.threads == s.threads && s'.lock == s.lock
  {
    forall id | id in s'.hellos
      ensures IsOwn(s'.shared, s'.hellos[id])
    {
      assert id in s.hellos ==> IsOwn(s.shared, s.hellos[id]);
    }
  }

  lemma GateKeepsInv(s: State, step: Step, s': State, slot: nat)
    requires Inv(s, slot) && GateStep(s, step, s')
    ensures Inv(s', slot)
  {
    hide GateStep;
    hide SoundRecord;
    hide RenameReady;
    hide LifeOk;
    GateKeepsProcesses(s, step, s');
    GateKeepsMessages(s, step, s');
    forall u | u in s'.threads
      ensures PcOk(s'.shared, slot, s'.threads[u])
    {
      assert PcOk(s.shared, slot, s.threads[u]);
      ReleasePreservesPc(s.shared, s'.shared, slot, s.threads[u]);
    }
  }

  /** Letting go of the guard and processes moving forward or dying disturb no thread. */
  lemma ReleasePreservesPc(v: Shared, v': Shared, slot: nat, pc: Pc)
    requires PcOk(v, slot, pc)
    requires v' == v.(gates := v'.gates, guardGate := v'.guardGate, guardParent := v'.guardParent)
    requires v'.guardGate == v.guardGate || v'.guardGate.None?
    requires v'.guardParent == v.guardParent || v'.guardParent.None?
    requires forall id :: Alive(v', id) ==> Alive(v, id)
    ensures PcOk(v', slot, pc)
  {
    hide Transition;
    hide SoundRecord;
  }

  // ---- Runs ----

  lemma InitHolds(s: State, slot: nat)
    requires Init(s, slot)
    ensures Inv(s, slot)
  {
  }

  lemma NextKeepsInv(s: State, step: Step, s': State, slot: nat)
    requires Inv(s, slot) && Next(s, step, s')
    ensures Inv(s', slot)
  {
    hide Inv;
    hide SoundRecord;
    if AllocatorStep(s, step, s') {
      AllocatorKeepsInv(s, step, s', slot);
    } else if LauncherStep(s, step, s') {
      LauncherKeepsInv(s, step, s', slot);
    } else if CleanerStep(s, step, s') {
      CleanerKeepsInv(s, step, s', slot);
    } else if GateStep(s, step, s') {
      GateKeepsInv(s, step, s', slot);
    } else if step.Rename? {
      RenameKeepsInv(s, s', slot, step.t);
    } else {
      ThreadKeepsInv(s, step, s', slot);
    }
  }

  /** The states of a run of any threads and processes in any order. */
  ghost predicate IsRun(run: seq<State>, steps: seq<Step>, slot: nat) {
    && |run| == |steps| + 1
    && Init(run[0], slot)
    && (forall i :: 0 <= i < |steps| ==> Next(run[i], steps[i], run[i + 1]))
  }

  lemma {:induction false} RunInvariant(run: seq<State>, steps: seq<Step>, slot: nat, n: nat)
    requires IsRun(run, steps, slot) && n < |run|
    ensures Inv(run[n], slot)
  {
    hide Inv;
    hide Next;
    hide Init;
    if n == 0 {
      InitHolds(run[0], slot);
    } else {
      RunInvariant(run, steps, slot, n - 1);
      NextKeepsInv(run[n - 1], steps[n - 1], run[n], slot);
    }
  }

  /** The steps that put a new record into place, confirmed or not. */
  predicate Writes(step: Step) {
    step.Rename? || (step.Unconfirmed? && step.renamed)
  }

  /**
   No lost update: although comparing and renaming are separate steps and some
   writers never take the registry lock, the file still holds the compared record
   at every rename, so each replacement acts as one atomic compare-and-swap.
   */
  lemma RenameIsCompareAndSwap(run: seq<State>, steps: seq<Step>, slot: nat, i: nat)
    requires IsRun(run, steps, slot) && i < |steps| && Writes(steps[i])
    ensures steps[i].t in run[i].threads && run[i].threads[steps[i].t].Renaming?
    ensures run[i].shared.disk == run[i].threads[steps[i].t].expected
    ensures run[i + 1].shared.disk == run[i].threads[steps[i].t].next
    ensures Transition(run[i].shared.disk, run[i + 1].shared.disk)
  {
    hide PcOk;
    hide SoundRecord;
    hide AllocatorStep;
    hide LauncherStep;
    hide CleanerStep;
    hide GateStep;
    RunInvariant(run, steps, slot, i);
    assert Next(run[i], steps[i], run[i + 1]);
    OnlyThreadsWrite(run[i], steps[i], run[i + 1]);
    var pc := run[i].threads[steps[i].t];
    assert PcOk(run[i].shared, slot, pc);
    RenameComparesDisk(run[i].shared, slot, pc);
  }

  lemma OnlyThreadsWrite(s: State, step: Step, s': State)
    requires Next(s, step, s') && Writes(step)
    ensures ThreadStep(s, step, s')
  {
  }

  lemma OnlyRenameWrites(s: State, step: Step, s': State)
    requires Next(s, step, s') && !Writes(step)
    ensures s'.shared.disk == s.shared.disk
  {
    hide AllocatorStep;
    hide LauncherStep;
    hide CleanerStep;
    hide ThreadStep;
    hide GateStep;
    if AllocatorStep(s, step, s') {
      AllocatorKeepsDisk(s, step, s');
    } else if LauncherStep(s, step, s') {
      LauncherKeepsDisk(s, step, s');
    } else if CleanerStep(s, step, s') {
      CleanerKeepsDisk(s, step, s');
    } else if ThreadStep(s, step, s') {
      ThreadKeepsDisk(s, step, s');
    } else {
      GateKeepsDisk(s, step, s');
    }
  }

  lemma AllocatorKeepsDisk(s: State, step: Step, s': State)
    requires AllocatorStep(s, step, s')
    ensures s'.shared.disk == s.shared.disk
  {
    hide Comparable;
    hide Propose;
    hide Recyclable;
  }

  lemma LauncherKeepsDisk(s: State, step: Step, s': State)
    requires LauncherStep(s, step, s')
    ensures s'.shared.disk == s.shared.disk
  {
    hide Comparable;
    hide ProposeReservation;
  }

  lemma CleanerKeepsDisk(s: State, step: Step, s': State)
    requires CleanerStep(s, step, s')
    ensures s'.shared.disk == s.shared.disk
  {
    hide Comparable;
    hide Tombstoned;
  }

  lemma ThreadKeepsDisk(s: State, step: Step, s': State)
    requires ThreadStep(s, step, s') && !Writes(step)
    ensures s'.shared.disk == s.shared.disk
  {
    hide Comparable;
    hide ProposeArtifact;
  }

  lemma GateKeepsDisk(s: State, step: Step, s': State)
    requires GateStep(s, step, s')
    ensures s'.shared.disk == s.shared.disk
  {
  }

  /** The values of the slot file along a run. */
  ghost function Disks(run: seq<State>): (h: seq<SlotRecord>)
    ensures |h| == |run|
    ensures forall i :: 0 <= i < |run| ==> h[i] == run[i].shared.disk
  {
    seq(|run|, i requires 0 <= i < |run| => run[i].shared.disk)
  }

  /**
   Along every run the slot file only ever changes upwards in rank: the history of
   the file is one in which no record value recurs.
   */
  lemma DiskHistoryIsRanked(run: seq<State>, steps: seq<Step>, slot: nat)
    requires IsRun(run, steps, slot)
    ensures Ranked(Disks(run), Rank)
  {
    hide Transition;
    hide Rank;
    hide Next;
    var h := Disks(run);
    forall i | 0 < i < |h|
      ensures h[i - 1] == h[i] || Rank(h[i - 1]) < Rank(h[i])
    {
      assert Next(run[i - 1], steps[i - 1], run[i]);
      if Writes(steps[i - 1]) {
        RenameIsCompareAndSwap(run, steps, slot, i - 1);
        TransitionRaisesRank(h[i - 1], h[i]);
      } else {
        OnlyRenameWrites(run[i - 1], steps[i - 1], run[i]);
      }
    }
  }

  /**
   A target is executed only while the slot file carries the exact identity of the
   executing process, for the generation it was spawned for.
   */
  lemma ExecOnlyUnderDurableIdentity(run: seq<State>, steps: seq<Step>, slot: nat, i: nat)
    requires IsRun(run, steps, slot) && i < |steps| && steps[i].GateExec?
    ensures var v, id := run[i].shared, steps[i].id;
      && id in v.births && v.births[id].generation == v.disk.generation
      && (v.disk.state.IdentityDurable? || v.disk.state.CleanupPending?)
      && v.disk.state.identity == id
  {
    hide Transition;
    hide SoundRecord;
    hide PcOk;
    RunInvariant(run, steps, slot, i);
    assert Next(run[i], steps[i], run[i + 1]);
    assert LifeOk(run[i].shared, steps[i].id);
  }

  /** A generation is over once it is a tombstone or anything later. */
  predicate Over(r: SlotRecord, generation: nat) {
    r.generation > generation || (r.generation == generation && (r.state.ResolvedTombstone? || r.state.Vacant?))
  }

  lemma OverStaysOver(r: SlotRecord, r': SlotRecord, generation: nat)
    requires Over(r, generation) && Rank(r) <= Rank(r')
    ensures Over(r', generation)
  {
    hide BindingRank;
    assert OccupancyRank(r) <= 5000 && OccupancyRank(r') <= 5000 by { OccupancyBound(r); OccupancyBound(r'); }
  }

  lemma OccupancyBound(r: SlotRecord)
    ensures OccupancyRank(r) <= 5000
  {
  }

  /**
   Once a generation is a resolved tombstone, no gate and no target of it is alive,
   at that moment or at any later one.
   */
  lemma TombstoneMeansDead(run: seq<State>, steps: seq<Step>, slot: nat, i: nat, j: nat, id: ProcessIdentity)
    requires IsRun(run, steps, slot) && i <= j < |run|
    requires run[i].shared.disk.state.ResolvedTombstone?
    requires id in run[j].shared.births && run[j].shared.births[id].generation == run[i].shared.disk.generation
    ensures !Alive(run[j].shared, id)
  {
    hide Transition;
    hide Rank;
    hide Next;
    hide SoundRecord;
    hide PcOk;
    var g := run[i].shared.disk.generation;
    var h := Disks(run);
    DiskHistoryIsRanked(run, steps, slot);
    RankedIsMonotone(h, Rank, i, j);
    OverStaysOver(h[i], h[j], g);
    RunInvariant(run, steps, slot, j);
    assert LifeOk(run[j].shared, id);
  }
}
