/**
 The launch protocol on one slot as a step system. Any number of threads (in any
 number of processes) allocate, reserve, promote, clean up and run artifact
 operations; gates are child processes. Every thread may vanish and every process
 may die between any two steps. A replacement of the slot file is two steps, the
 comparison and the rename, and the rename does not look at the file again.
 */
module LaunchProtocol {
  import opened Common
  import opened SlotRecords
  import opened SlotEvents

  type Thread = nat

  datatype Registration = Registration(generation: nat, nonce: Uuid, identity: ProcessIdentity)

  /** The registration sidecar file. */
  datatype Sidecar = Sidecar(generation: nat, registration: Option<Registration>)

  /** For which intent a gate was spawned. */
  datatype Birth = Birth(generation: nat, nonce: Uuid)

  /** How far a gate got; a target is a gate that has executed. */
  datatype GatePc = Started | Checked | Registered | Greeted | Committed | Verified | Target | Dead

  /** Where a thread is. `Renaming` has compared the file and goes on to `after` once it has renamed. */
  datatype Pc =
    | AllocScan
    | AllocChosen(vacant: SlotRecord, intent: SlotRecord)
    | AllocCleared(vacant: SlotRecord, intent: SlotRecord)
    | AllocIntent(intent: SlotRecord)
    | AllocHolding(intent: SlotRecord)
    | Prepared(record: SlotRecord)
    | Spawned(record: SlotRecord, child: ProcessIdentity)
    | HelloSeen(record: SlotRecord, child: ProcessIdentity, registration: Registration)
    | Promoted(record: SlotRecord, child: ProcessIdentity)
    | Launched
    | CleanScan
    | CleanProbed(record: SlotRecord)
    | CleanPending(record: SlotRecord)
    | CleanDead(record: SlotRecord)
    | CleanDone
    | ArtifactScan
    | Renaming(expected: SlotRecord, next: SlotRecord, after: Pc)

  /**
   What several threads share. The slot guard is one open file description, held by
   the launching thread (`guardParent`) and by the gate that inherited it
   (`guardGate`); `guardGeneration` remembers for which generation it was taken.
   */
  datatype Shared = Shared(
    disk: SlotRecord,
    guardParent: Option<Thread>,
    guardGate: Option<ProcessIdentity>,
    guardGeneration: nat,
    births: map<ProcessIdentity, Birth>,
    gates: map<ProcessIdentity, GatePc>)

  datatype State = State(
    shared: Shared,
    sidecar: Sidecar,
    lock: Option<Thread>,
    threads: map<Thread, Pc>,
    hellos: map<ProcessIdentity, Registration>,
    commits: map<ProcessIdentity, Registration>)

  predicate HoldsLock(pc: Pc) {
    match pc
    case AllocScan => true
    case AllocChosen(_, _) => true
    case AllocCleared(_, _) => true
    case AllocIntent(_) => true
    case AllocHolding(_) => true
    case CleanScan => true
    case CleanProbed(_) => true
    case CleanPending(_) => true
    case CleanDead(_) => true
    case CleanDone => true
    case ArtifactScan => true
    case Renaming(_, _, after) => HoldsLock(after)
    case _ => false
  }

  predicate HoldsGuard(pc: Pc) {
    match pc
    case AllocHolding(_) => true
    case Prepared(_) => true
    case Spawned(_, _) => true
    case HelloSeen(_, _, _) => true
    case Promoted(_, _) => true
    case Launched => true
    case Renaming(_, _, after) => HoldsGuard(after)
    case _ => false
  }

  predicate GuardFree(v: Shared) {
    v.guardParent.None? && v.guardGate.None?
  }

  /** The kernel's view: this incarnation exists. */
  predicate Alive(v: Shared, id: ProcessIdentity) {
    id in v.gates && v.gates[id] != Dead
  }

  predicate SomebodyBorn(v: Shared, generation: nat) {
    exists id :: id in v.births && v.births[id].generation == generation
  }

  function Tombstoned(r: SlotRecord, now: nat): SlotRecord
    requires r.state.IntentDurable? || r.state.CleanupPending?
  {
    Propose(Entomb(now), r).next
  }

  // ---- Steps ----

  datatype Step =
    | TakeLock(t: Thread, start: Pc)
    | AllocRecycle(t: Thread, now: nat)
    | AllocChoose(t: Thread, owner: Option<OwnerTag>, nonce: Uuid, now: nat)
    | AllocClear(t: Thread)
    | AllocCompare(t: Thread)
    | TakeGuard(t: Thread)
    | AllocReturn(t: Thread)
    | ReservationCompare(t: Thread, update: ReservationOp)
    | Spawn(t: Thread, id: ProcessIdentity)
    | ReceiveHello(t: Thread)
    | PromoteCompare(t: Thread)
    | SendCommit(t: Thread)
    | CleanProbe(t: Thread)
    | CleanProbedCompare(t: Thread, now: nat)
    | CleanMarkCompare(t: Thread)
    | CleanResume(t: Thread)
    | CleanAbsent(t: Thread)
    | CleanDeadCompare(t: Thread, now: nat)
    | ArtifactCompare(t: Thread, generation: nat, stale: Binding, op: ArtifactOp)
    | Rename(t: Thread)
    | Unconfirmed(t: Thread, renamed: bool)
    | Vanish(t: Thread)
    | GateCheck(id: ProcessIdentity)
    | GateRegister(id: ProcessIdentity)
    | GateHello(id: ProcessIdentity)
    | GateReceive(id: ProcessIdentity)
    | GateVerify(id: ProcessIdentity)
    | GateExec(id: ProcessIdentity)
    | Die(id: ProcessIdentity)

  function At(s: State, t: Thread, pc: Pc): State {
    s.(threads := s.threads[t := pc])
  }

  function GateAt(s: State, id: ProcessIdentity, pc: GatePc): State {
    s.(shared := s.shared.(gates := s.shared.gates[id := pc]))
  }

  /** The slot file is compared with the remembered record; the rename is still to come. */
  function Compared(s: State, t: Thread, expected: SlotRecord, next: SlotRecord, after: Pc): State {
    At(s, t, Renaming(expected, next, after))
  }

  predicate Comparable(s: State, expected: SlotRecord, next: SlotRecord) {
    s.shared.disk == expected && Transition(expected, next)
  }

  /** Steps of allocating threads. */
  predicate AllocatorStep(s: State, step: Step, s': State) {
    && (step.AllocRecycle? || step.AllocChoose? || step.AllocClear? || step.AllocCompare? || step.TakeGuard?
        || step.AllocReturn?)
    && step.t in s.threads
    && var t, pc, v := step.t, s.threads[step.t], s.shared;
       match step
       case AllocRecycle(_, now) =>
         && pc.AllocScan?
         && Recyclable(v.disk, now)
         && Comparable(s, v.disk, Recycled(v.disk))
         && s' == Compared(s, t, v.disk, Recycled(v.disk), AllocScan)
       case AllocChoose(_, owner, nonce, now) =>
         && pc.AllocScan?
         && Propose(Issue(owner, nonce, now), v.disk).Write?
         && s' == At(s, t, AllocChosen(v.disk, Propose(Issue(owner, nonce, now), v.disk).next))
       case AllocClear(_) =>
         && pc.AllocChosen?
         && s' == At(s, t, AllocCleared(pc.vacant, pc.intent)).(sidecar := Sidecar(pc.intent.generation, None))
       case AllocCompare(_) =>
         && pc.AllocCleared?
         && Comparable(s, pc.vacant, pc.intent)
         && s' == Compared(s, t, pc.vacant, pc.intent, AllocIntent(pc.intent))
       case TakeGuard(_) =>
         && pc.AllocIntent?
         && GuardFree(v)
         && s' == At(s, t, AllocHolding(pc.intent)).(
                    shared := v.(guardParent := Some(t), guardGeneration := pc.intent.generation))
       case AllocReturn(_) =>
         && pc.AllocHolding?
         && s' == At(s, t, Prepared(pc.intent)).(lock := None)
       case _ => false
  }

  /** Steps of the thread that holds a reservation and launches. */
  predicate LauncherStep(s: State, step: Step, s': State) {
    && (step.ReservationCompare? || step.Spawn? || step.ReceiveHello? || step.PromoteCompare? || step.SendCommit?)
    && step.t in s.threads
    && var t, pc, v := step.t, s.threads[step.t], s.shared;
       match step
       case ReservationCompare(_, op) =>
         && pc.Prepared?
         && pc.record.state.IntentDurable?
         && ProposeReservation(pc.record, op).Write?
         && !OwnerlessCreation(Reserve(op), pc.record)
         && var next := ProposeReservation(pc.record, op).next;
            && Comparable(s, pc.record, next)
            && s' == Compared(s, t, pc.record, next, Prepared(next))
       case Spawn(_, id) =>
         && pc.Prepared?
         && !pc.record.state.Vacant?
         && id !in v.births && id !in v.gates
         && s' == At(s, t, Spawned(pc.record, id)).(
                    shared := v.(guardGate := Some(id),
                                 births := v.births[id := Birth(pc.record.generation, pc.record.state.nonce)],
                                 gates := v.gates[id := Started]))
       case ReceiveHello(_) =>
         && pc.Spawned?
         && pc.child in s.hellos
         && var reg := s.hellos[pc.child];
            && pc.record.state.IntentDurable?
            && reg.generation == pc.record.generation
            && reg.nonce == pc.record.state.nonce
            && reg.identity.pid == pc.child.pid
            && Alive(v, reg.identity)
            && s' == At(s, t, HelloSeen(pc.record, pc.child, reg))
       case PromoteCompare(_) =>
         && pc.HelloSeen?
         && pc.record.state.IntentDurable?
         && s.sidecar.registration == Some(pc.registration)
         && var next := Propose(Promote(pc.registration.identity), pc.record).next;
            && Comparable(s, pc.record, next)
            && s' == Compared(s, t, pc.record, next, Promoted(next, pc.child))
       case SendCommit(_) =>
         && pc.Promoted?
         && pc.record.state.IdentityDurable?
         && s' == At(s, t, Launched).(commits := s.commits[pc.child :=
                    Registration(pc.record.generation, pc.record.state.nonce, pc.record.state.identity)])
       case _ => false
  }

  /** Steps of cleaning threads. `CleanAbsent` is the oracle: absence is reported only of the dead. */
  predicate CleanerStep(s: State, step: Step, s': State) {
    && (step.CleanProbe? || step.CleanProbedCompare? || step.CleanMarkCompare? || step.CleanResume?
        || step.CleanAbsent? || step.CleanDeadCompare?)
    && step.t in s.threads
    && var t, pc, v := step.t, s.threads[step.t], s.shared;
       match step
       case CleanProbe(_) =>
         && pc.CleanScan?
         && v.disk.state.IntentDurable?
         && GuardFree(v)
         && s' == At(s, t, CleanProbed(v.disk))
       case CleanProbedCompare(_, now) =>
         && pc.CleanProbed?
         && pc.record.state.IntentDurable?
         && Comparable(s, pc.record, Tombstoned(pc.record, now))
         && s' == Compared(s, t, pc.record, Tombstoned(pc.record, now), CleanDone)
       case CleanMarkCompare(_) =>
         && pc.CleanScan?
         && v.disk.state.IdentityDurable?
         && var next := Propose(MarkPending, v.disk).next;
            && Comparable(s, v.disk, next)
            && s' == Compared(s, t, v.disk, next, CleanPending(next))
       case CleanResume(_) =>
         && pc.CleanScan?
         && v.disk.state.CleanupPending?
         && s' == At(s, t, CleanPending(v.disk))
       case CleanAbsent(_) =>
         && pc.CleanPending?
         && pc.record.state.CleanupPending?
         && !Alive(v, pc.record.state.identity)
         && s' == At(s, t, CleanDead(pc.record))
       case CleanDeadCompare(_, now) =>
         && pc.CleanDead?
         && pc.record.state.CleanupPending?
         && Comparable(s, pc.record, Tombstoned(pc.record, now))
         && s' == Compared(s, t, pc.record, Tombstoned(pc.record, now), CleanDone)
       case _ => false
  }

  /**
   Locking, artifact operations, the rename itself, and threads that stop anywhere. A
   reservation update whose replacement reports an error, before or after its rename,
   is `Unconfirmed`: the reservation lives on with the record it had.
   */
  predicate ThreadStep(s: State, step: Step, s': State) {
    match step
    case TakeLock(t, start) =>
      && t !in s.threads
      && s.lock.None?
      && (start.AllocScan? || start.CleanScan? || start.ArtifactScan?)
      && s' == At(s, t, start).(lock := Some(t))
    case ArtifactCompare(t, generation, stale, op) =>
      && t in s.threads && s.threads[t].ArtifactScan?
      && ProposeArtifact(s.shared.disk, generation, stale, op).Write?
      && var next := ProposeArtifact(s.shared.disk, generation, stale, op).next;
         && Comparable(s, s.shared.disk, next)
         && s' == Compared(s, t, s.shared.disk, next, ArtifactScan)
    case Rename(t) =>
      && t in s.threads && s.threads[t].Renaming?
      && s' == At(s, t, s.threads[t].after).(shared := s.shared.(disk := s.threads[t].next))
    case Unconfirmed(t, renamed) =>
      && t in s.threads && s.threads[t].Renaming? && s.threads[t].after.Prepared?
      && s' == At(s, t, Prepared(s.threads[t].expected)).(
                 shared := if renamed then s.shared.(disk := s.threads[t].next) else s.shared)
    case Vanish(t) =>
      && t in s.threads
      && s' == s.(threads := s.threads - {t},
                  lock := if s.lock == Some(t) then None else s.lock,
                  shared := s.shared.(guardParent := if s.shared.guardParent == Some(t) then None
                                                     else s.shared.guardParent))
    case _ => false
  }

  /** Steps of gates, and death of gates and targets at any moment. */
  predicate GateStep(s: State, step: Step, s': State) {
    && (step.GateCheck? || step.GateRegister? || step.GateHello? || step.GateReceive? || step.GateVerify?
        || step.GateExec? || step.Die?)
    && var v, id := s.shared, step.id;
       && Alive(v, id) && id in v.births
       && var me := Registration(v.births[id].generation, v.births[id].nonce, id);
          match step
          case GateCheck(_) =>
            && v.gates[id].Started?
            && v.disk.state.IntentDurable?
            && v.disk.generation == me.generation && v.disk.state.nonce == me.nonce
            && s' == GateAt(s, id, Checked)
          case GateRegister(_) =>
            && v.gates[id].Checked?
            && s' == GateAt(s, id, Registered).(sidecar := Sidecar(me.generation, Some(me)))
          case GateHello(_) =>
            && v.gates[id].Registered?
            && s' == GateAt(s, id, Greeted).(hellos := s.hellos[id := me])
          case GateReceive(_) =>
            && v.gates[id].Greeted?
            && id in s.commits && s.commits[id] == me
            && s' == GateAt(s, id, Committed)
          case GateVerify(_) =>
            && v.gates[id].Committed?
            && v.disk.state.IdentityDurable?
            && v.disk.state.nonce == me.nonce && v.disk.state.identity == id
            && v.disk.state.releaseMayHaveOccurred
            && s' == GateAt(s, id, Verified)
          case GateExec(_) =>
            && v.gates[id].Verified?
            && s' == s.(shared := v.(gates := v.gates[id := Target], guardGate := None))
          case Die(_) =>
            s' == s.(shared := v.(gates := v.gates[id := Dead],
                                  guardGate := if v.guardGate == Some(id) then None else v.guardGate))
          case _ => false
  }

  predicate Next(s: State, step: Step, s': State) {
    || AllocatorStep(s, step, s')
    || LauncherStep(s, step, s')
    || CleanerStep(s, step, s')
    || ThreadStep(s, step, s')
    || GateStep(s, step, s')
  }

  predicate Init(s: State, slot: nat) {
    && SoundRecord(s.shared.disk, slot)
    && s.shared.disk.state.Vacant?
    && GuardFree(s.shared)
    && s.shared.guardGeneration == 0
    && s.shared.births == map[] && s.shared.gates == map[]
    && s.sidecar.registration.None?
    && s.lock.None?
    && s.threads == map[] && s.hellos == map[] && s.commits == map[]
  }

  // ---- The invariant ----

  /** The lock and the guard are held by exactly the threads whose position says so. */
  ghost predicate HoldersOk(s: State) {
    && (forall t :: t in s.threads && HoldsLock(s.threads[t]) ==> s.lock == Some(t))
    && (s.lock.Some? ==> s.lock.value in s.threads && HoldsLock(s.threads[s.lock.value]))
    && (forall t :: t in s.threads && HoldsGuard(s.threads[t]) ==> s.shared.guardParent == Some(t))
    && (s.shared.guardParent.Some? ==>
          s.shared.guardParent.value in s.threads && HoldsGuard(s.threads[s.shared.guardParent.value]))
  }

  /**
   The record a launching thread holds is the intent on file, taken with this guard;
   only the binding on file may be ahead of it, by an update reported as failed.
   */
  predicate HoldsIntent(v: Shared, r: SlotRecord) {
    && r.state.IntentDurable?
    && v.disk.state == r.state && v.disk.generation == r.generation
    && v.guardGeneration == r.generation
  }

  predicate BornFor(v: Shared, id: ProcessIdentity, r: SlotRecord) {
    id in v.births && v.births[id].generation == r.generation
  }

  /** What a completed comparison promises about the rename that follows. */
  ghost predicate RenameReady(v: Shared, slot: nat, e: SlotRecord, n: SlotRecord, after: Pc) {
    && v.disk == e && Transition(e, n) && SoundRecord(n, slot)
    && match after
       case AllocScan => e.state.ResolvedTombstone? && n.state.Vacant? && n.generation == e.generation
       case AllocIntent(i) =>
         n == i && e.state.Vacant? && n.state.IntentDurable? && n.generation == e.generation + 1
       case Prepared(r) =>
         && n == r && HoldsIntent(v, e) && n.state == e.state && n.generation == e.generation
         && !SomebodyBorn(v, e.generation)
       case Promoted(r, child) =>
         && n == r && HoldsIntent(v, e) && n.generation == e.generation
         && n.state.IdentityDurable? && BornFor(v, n.state.identity, e)
       case CleanPending(r) =>
         && n == r && e.state.IdentityDurable? && n.state.CleanupPending?
         && n.state.identity == e.state.identity && n.generation == e.generation
       case CleanDone =>
         && n.state.ResolvedTombstone? && n.generation == e.generation
         && (|| (e.state.IntentDurable? && GuardFree(v))
             || (e.state.CleanupPending? && !Alive(v, e.state.identity)))
       case ArtifactScan => !e.state.IntentDurable? && n.state == e.state && n.generation == e.generation
       case _ => false
  }

  /** What a thread's position says about the shared state. */
  ghost predicate PcOk(v: Shared, slot: nat, pc: Pc) {
    match pc
    case AllocChosen(vacant, intent) => IssueReady(v, slot, vacant, intent)
    case AllocCleared(vacant, intent) => IssueReady(v, slot, vacant, intent)
    case AllocIntent(i) =>
      && v.disk == i && i.state.IntentDurable? && !SomebodyBorn(v, i.generation)
      && (GuardFree(v) || v.guardGeneration < i.generation)
    case AllocHolding(i) => HoldsIntent(v, i) && !SomebodyBorn(v, i.generation)
    case Prepared(r) => HoldsIntent(v, r) && !SomebodyBorn(v, r.generation)
    case Spawned(r, child) => HoldsIntent(v, r) && BornFor(v, child, r)
    case HelloSeen(r, child, reg) => HoldsIntent(v, r) && BornFor(v, reg.identity, r)
    case CleanProbed(r) => v.disk == r && r.state.IntentDurable? && GuardFree(v)
    case CleanPending(r) => v.disk == r && r.state.CleanupPending?
    case CleanDead(r) => v.disk == r && r.state.CleanupPending? && !Alive(v, r.state.identity)
    case Renaming(e, n, after) => RenameReady(v, slot, e, n, after)
    case _ => true
  }

  ghost predicate IssueReady(v: Shared, slot: nat, vacant: SlotRecord, intent: SlotRecord) {
    && v.disk == vacant && vacant.state.Vacant?
    && intent.state.IntentDurable? && intent.generation == vacant.generation + 1
    && Transition(vacant, intent) && SoundRecord(intent, slot)
  }

  ghost predicate ThreadsOk(s: State, slot: nat) {
    forall t :: t in s.threads ==> PcOk(s.shared, slot, s.threads[t])
  }

  /** A living process of this slot belongs to the generation on file, and to the identity once there is one. */
  predicate LifeOk(v: Shared, id: ProcessIdentity) {
    Alive(v, id) ==>
      && id in v.births && v.births[id].generation == v.disk.generation
      && (v.gates[id].Target? <==> v.guardGate != Some(id))
      && (|| (v.disk.state.IntentDurable? && !v.gates[id].Verified? && !v.gates[id].Target?)
          || ((v.disk.state.IdentityDurable? || v.disk.state.CleanupPending?) && v.disk.state.identity == id))
  }

  ghost predicate ProcessesOk(v: Shared) {
    && v.births.Keys == v.gates.Keys
    && (forall id :: id in v.births ==> v.births[id].generation <= v.disk.generation)
    && (forall id, id' :: id in v.births && id' in v.births && v.births[id].generation == v.births[id'].generation
                          ==> id == id')
    && (forall id :: id in v.births ==> LifeOk(v, id))
    && (v.guardGate.Some? ==> Alive(v, v.guardGate.value) && !v.gates[v.guardGate.value].Target?)
    && (GuardFree(v) || v.guardGeneration <= v.disk.generation)
    && (v.guardGate.Some? ==> v.births[v.guardGate.value].generation == v.guardGeneration)
  }

  ghost predicate MessagesOk(s: State) {
    && (forall id :: id in s.hellos ==> IsOwn(s.shared, s.hellos[id]))
    && (s.sidecar.registration.Some? ==> IsOwn(s.shared, s.sidecar.registration.value))
  }

  /** A registration names the process that wrote it and the intent it was spawned for. */
  predicate IsOwn(v: Shared, reg: Registration) {
    reg.identity in v.births && v.births[reg.identity] == Birth(reg.generation, reg.nonce)
  }

  ghost predicate Inv(s: State, slot: nat) {
    && SoundRecord(s.shared.disk, slot)
    && HoldersOk(s)
    && ThreadsOk(s, slot)
    && ProcessesOk(s.shared)
    && MessagesOk(s)
  }
}
