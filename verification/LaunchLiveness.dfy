/**
 The launch protocol is not safe by doing nothing: from every initial state some run
 executes a target, and that run can go on to the tombstone of the same generation.
 */
module LaunchLiveness {
  import opened Common
  import opened SlotRecords
  import opened SlotEvents
  import opened LaunchProtocol
  import opened LaunchSafety

  ghost predicate Reachable(s: State, slot: nat) {
    exists run, steps :: Reaches(run, steps, s, slot)
  }

  ghost predicate Reaches(run: seq<State>, steps: seq<Step>, s: State, slot: nat) {
    IsRun(run, steps, slot) && run[|run| - 1] == s
  }

  lemma ReachInit(s: State, slot: nat)
    requires Init(s, slot)
    ensures Reachable(s, slot)
  {
    hide Init;
    assert Reaches([s], [], s, slot);
  }

  lemma ReachStep(s: State, slot: nat, step: Step, s': State)
    requires Reachable(s, slot) && Next(s, step, s')
    ensures Reachable(s', slot)
  {
    hide Next;
    hide Init;
    var run, steps :| Reaches(run, steps, s, slot);
    var run', steps' := run + [s'], steps + [step];
    forall i | 0 <= i < |steps'|
      ensures Next(run'[i], steps'[i], run'[i + 1])
    {
      if i < |steps| {
        assert Next(run[i], steps[i], run[i + 1]);
      }
    }
    assert Reaches(run', steps', s', slot);
  }

  lemma ReachAllocator(s: State, slot: nat, step: Step, s': State)
    requires Reachable(s, slot) && AllocatorStep(s, step, s')
    ensures Reachable(s', slot)
  {
    hide AllocatorStep;
    hide Reachable;
    ReachStep(s, slot, step, s');
  }

  lemma ReachLauncher(s: State, slot: nat, step: Step, s': State)
    requires Reachable(s, slot) && LauncherStep(s, step, s')
    ensures Reachable(s', slot)
  {
    hide LauncherStep;
    hide Reachable;
    ReachStep(s, slot, step, s');
  }

  lemma ReachCleaner(s: State, slot: nat, step: Step, s': State)
    requires Reachable(s, slot) && CleanerStep(s, step, s')
    ensures Reachable(s', slot)
  {
    hide CleanerStep;
    hide Reachable;
    ReachStep(s, slot, step, s');
  }

  lemma ReachThread(s: State, slot: nat, step: Step, s': State)
    requires Reachable(s, slot) && ThreadStep(s, step, s')
    ensures Reachable(s', slot)
  {
    hide ThreadStep;
    hide Reachable;
    ReachStep(s, slot, step, s');
  }

  lemma ReachGate(s: State, slot: nat, step: Step, s': State)
    requires Reachable(s, slot) && GateStep(s, step, s')
    ensures Reachable(s', slot)
  {
    hide GateStep;
    hide Reachable;
    ReachStep(s, slot, step, s');
  }

  /** Any reachable state satisfies the invariant. */
  lemma ReachableInv(s: State, slot: nat)
    requires Reachable(s, slot)
    ensures Inv(s, slot)
  {
    hide Inv;
    hide Next;
    hide Init;
    var run, steps :| Reaches(run, steps, s, slot);
    RunInvariant(run, steps, slot, |run| - 1);
  }

  // ---- Allocation ----

  function Intent(vacant: SlotRecord, owner: Option<OwnerTag>, nonce: Uuid, now: nat): SlotRecord {
    SlotRecord(SLOT_SCHEMA_VERSION, vacant.slot, vacant.generation + 1, owner, None, IntentDurable(nonce, now))
  }

  /** The state in which thread `t` holds a fresh reservation. */
  function Reserved(s: State, t: Thread, intent: SlotRecord): State {
    s.(threads := s.threads[t := Prepared(intent)],
       sidecar := Sidecar(intent.generation, None),
       shared := s.shared.(disk := intent, guardParent := Some(t), guardGeneration := intent.generation))
  }

  lemma IssueIsWritten(vacant: SlotRecord, slot: nat, owner: Option<OwnerTag>, nonce: Uuid, now: nat)
    requires SoundRecord(vacant, slot) && vacant.state.Vacant? && vacant.generation < U64_MAX
    requires nonce != 0 && (owner.Some? ==> ValidOwner(owner.value))
    ensures Propose(Issue(owner, nonce, now), vacant) == Write(Intent(vacant, owner, nonce, now))
    ensures Transition(vacant, Intent(vacant, owner, nonce, now))
  {
  }

  /** The state in which thread `t` is about to rename the intent into place. */
  function Issuing(s: State, t: Thread, intent: SlotRecord): State {
    s.(threads := s.threads[t := Renaming(s.shared.disk, intent, AllocIntent(intent))],
       sidecar := Sidecar(intent.generation, None),
       lock := Some(t))
  }

  lemma CanIssue(s: State, slot: nat, t: Thread, owner: Option<OwnerTag>, nonce: Uuid, now: nat)
    requires Init(s, slot) && s.shared.disk.generation < U64_MAX
    requires nonce != 0 && (owner.Some? ==> ValidOwner(owner.value))
    ensures Reachable(Issuing(s, t, Intent(s.shared.disk, owner, nonce, now)), slot)
  {
    hide Reachable;
    hide Transition;
    hide Propose;
    hide SoundRecord;
    var vacant := s.shared.disk;
    var intent := Intent(vacant, owner, nonce, now);
    IssueIsWritten(vacant, slot, owner, nonce, now);
    ReachInit(s, slot);
    var s1 := At(s, t, AllocScan).(lock := Some(t));
    ReachThread(s, slot, TakeLock(t, AllocScan), s1);
    var s2 := At(s1, t, AllocChosen(vacant, intent));
    ReachAllocator(s1, slot, AllocChoose(t, owner, nonce, now), s2);
    var s3 := At(s2, t, AllocCleared(vacant, intent)).(sidecar := Sidecar(intent.generation, None));
    ReachAllocator(s2, slot, AllocClear(t), s3);
    var s4 := At(s3, t, Renaming(vacant, intent, AllocIntent(intent)));
    ReachAllocator(s3, slot, AllocCompare(t), s4);
    assert s4 == Issuing(s, t, intent);
  }

  lemma CanReserve(s: State, slot: nat, t: Thread, owner: Option<OwnerTag>, nonce: Uuid, now: nat)
    requires Init(s, slot) && s.shared.disk.generation < U64_MAX
    requires nonce != 0 && (owner.Some? ==> ValidOwner(owner.value))
    ensures Reachable(Reserved(s, t, Intent(s.shared.disk, owner, nonce, now)), slot)
  {
    hide Reachable;
    hide Transition;
    hide Propose;
    hide SoundRecord;
    var intent := Intent(s.shared.disk, owner, nonce, now);
    CanIssue(s, slot, t, owner, nonce, now);
    var s4 := Issuing(s, t, intent);
    var s5 := At(s4, t, AllocIntent(intent)).(shared := s.shared.(disk := intent));
    ReachThread(s4, slot, Rename(t), s5);
    var s6 := At(s5, t, AllocHolding(intent)).(
      shared := s5.shared.(guardParent := Some(t), guardGeneration := intent.generation));
    ReachAllocator(s5, slot, TakeGuard(t), s6);
    var s7 := At(s6, t, Prepared(intent)).(lock := None);
    ReachAllocator(s6, slot, AllocReturn(t), s7);
    assert s7 == Reserved(s, t, intent);
  }

  // ---- From the reservation to the promoted identity ----

  function Promotion(intent: SlotRecord, id: ProcessIdentity): SlotRecord
    requires intent.state.IntentDurable?
  {
    intent.(state := IdentityDurable(intent.state.nonce, id, true))
  }

  /** A thread holds a reservation and nothing has been spawned for it yet. */
  predicate ReadyToLaunch(s: State, t: Thread, id: ProcessIdentity) {
    && t in s.threads && s.threads[t].Prepared?
    && s.threads[t].record == s.shared.disk && s.shared.disk.state.IntentDurable?
    && id !in s.shared.births && id !in s.shared.gates
  }

  /** The gate of thread `t` has greeted, and the thread has sent COMMIT for its durable identity. */
  predicate CommitSent(s: State, t: Thread, id: ProcessIdentity) {
    && t in s.threads && s.threads[t].Launched?
    && id in s.shared.births && id in s.shared.gates && s.shared.gates[id].Greeted?
    && s.shared.disk.state.IdentityDurable? && s.shared.disk.state.identity == id
    && s.shared.disk.state.releaseMayHaveOccurred
    && s.shared.births[id] == Birth(s.shared.disk.generation, s.shared.disk.state.nonce)
    && id in s.commits && s.commits[id] == Registration(s.shared.disk.generation, s.shared.disk.state.nonce, id)
  }

  lemma PromotionIsAccepted(intent: SlotRecord, slot: nat, id: ProcessIdentity)
    requires SoundRecord(intent, slot) && intent.state.IntentDurable?
    ensures Propose(Promote(id), intent) == Write(Promotion(intent, id)) && Transition(intent, Promotion(intent, id))
  {
    ProposalIsAccepted(Promote(id), intent, slot);
  }

  function RegistrationOf(s: State, id: ProcessIdentity): Registration
    requires s.shared.disk.state.IntentDurable?
  {
    Registration(s.shared.disk.generation, s.shared.disk.state.nonce, id)
  }

  /** From a reservation: the gate is spawned and has got to `pc`. */
  function Launching(s: State, t: Thread, id: ProcessIdentity, pc: GatePc): State
    requires s.shared.disk.state.IntentDurable?
  {
    var reg := RegistrationOf(s, id);
    s.(threads := s.threads[t := Spawned(s.shared.disk, id)],
       shared := s.shared.(guardGate := Some(id), births := s.shared.births[id := Birth(reg.generation, reg.nonce)],
                           gates := s.shared.gates[id := pc]))
  }

  lemma CanSpawn(s: State, slot: nat, t: Thread, id: ProcessIdentity)
    requires Reachable(s, slot) && ReadyToLaunch(s, t, id)
    ensures Reachable(Launching(s, t, id, Checked), slot)
  {
    hide Reachable;
    var s1 := Launching(s, t, id, Started);
    ReachLauncher(s, slot, Spawn(t, id), s1);
    var s2 := Launching(s, t, id, Checked);
    assert s2.shared.gates == s1.shared.gates[id := Checked];
    ReachGate(s1, slot, GateCheck(id), s2);
  }

  /** Registration and greeting of the gate. */
  lemma CanGreet(s: State, slot: nat, t: Thread, id: ProcessIdentity)
    requires Reachable(s, slot) && ReadyToLaunch(s, t, id)
    ensures var reg := RegistrationOf(s, id);
      Reachable(Launching(s, t, id, Greeted).(
        sidecar := Sidecar(reg.generation, Some(reg)), hellos := s.hellos[id := reg]), slot)
  {
    hide Reachable;
    var reg := RegistrationOf(s, id);
    CanSpawn(s, slot, t, id);
    var s2 := Launching(s, t, id, Checked);
    var s3 := Launching(s, t, id, Registered).(sidecar := Sidecar(reg.generation, Some(reg)));
    assert s3.shared.gates == s2.shared.gates[id := Registered];
    ReachGate(s2, slot, GateRegister(id), s3);
    var s4 := Launching(s, t, id, Greeted).(sidecar := s3.sidecar, hellos := s.hellos[id := reg]);
    assert s4.shared.gates == s3.shared.gates[id := Greeted];
    ReachGate(s3, slot, GateHello(id), s4);
  }

  /** The thread has seen the greeting and is about to compare and rename the identity into place. */
  predicate AboutToPromote(s: State, t: Thread, id: ProcessIdentity, intent: SlotRecord) {
    && intent.state.IntentDurable?
    && t in s.threads && s.threads[t] == Renaming(intent, Promotion(intent, id), Promoted(Promotion(intent, id), id))
    && id in s.shared.births && s.shared.births[id] == Birth(intent.generation, intent.state.nonce)
    && id in s.shared.gates && s.shared.gates[id].Greeted?
  }

  lemma CanPromote(s: State, slot: nat, t: Thread, id: ProcessIdentity) returns (c: State)
    requires Reachable(s, slot) && ReadyToLaunch(s, t, id)
    ensures Reachable(c, slot) && AboutToPromote(c, t, id, s.shared.disk) && c.lock == s.lock
  {
    hide Reachable;
    hide Transition;
    hide SoundRecord;
    var intent := s.shared.disk;
    var next := Promotion(intent, id);
    assert SoundRecord(intent, slot) by { ReachableInv(s, slot); }
    PromotionIsAccepted(intent, slot, id);
    hide Propose;
    CanGreet(s, slot, t, id);
    var reg := RegistrationOf(s, id);
    var g := Launching(s, t, id, Greeted).(sidecar := Sidecar(reg.generation, Some(reg)), hellos := s.hellos[id := reg]);
    var s1 := At(g, t, HelloSeen(intent, id, reg));
    ReachLauncher(g, slot, ReceiveHello(t), s1);
    c := At(s1, t, Renaming(intent, next, Promoted(next, id)));
    ReachLauncher(s1, slot, PromoteCompare(t), c);
  }

  lemma CanCommit(s: State, slot: nat, t: Thread, id: ProcessIdentity) returns (c: State)
    requires Reachable(s, slot) && ReadyToLaunch(s, t, id)
    ensures Reachable(c, slot) && CommitSent(c, t, id) && c.shared.disk == Promotion(s.shared.disk, id) && c.lock == s.lock
  {
    hide Reachable;
    var intent := s.shared.disk;
    var next := Promotion(intent, id);
    var s2 := CanPromote(s, slot, t, id);
    var s3 := At(s2, t, Promoted(next, id)).(shared := s2.shared.(disk := next));
    ReachThread(s2, slot, Rename(t), s3);
    c := At(s3, t, Launched).(commits := s3.commits[id := Registration(intent.generation, intent.state.nonce, id)]);
    ReachLauncher(s3, slot, SendCommit(t), c);
  }

  lemma CanExec(s: State, slot: nat, t: Thread, id: ProcessIdentity) returns (e: State)
    requires Reachable(s, slot) && CommitSent(s, t, id)
    ensures Reachable(e, slot) && id in e.shared.gates && e.shared.gates[id].Target?
    ensures e.shared.disk == s.shared.disk && e.lock == s.lock && e.threads == s.threads && id in e.shared.births
  {
    hide Reachable;
    var s1 := GateAt(s, id, Committed);
    ReachGate(s, slot, GateReceive(id), s1);
    var s2 := GateAt(s1, id, Verified);
    ReachGate(s1, slot, GateVerify(id), s2);
    e := s2.(shared := s2.shared.(gates := s2.shared.gates[id := Target], guardGate := None));
    ReachGate(s2, slot, GateExec(id), e);
  }

  /**
   From every initial state with a generation to spare, for every owner, nonce and
   process identity, some run executes that process as the target of the next
   generation.
   */
  lemma LaunchCanSucceed(s: State, slot: nat, t: Thread, owner: Option<OwnerTag>, nonce: Uuid, now: nat, id: ProcessIdentity)
    returns (e: State)
    requires Init(s, slot) && s.shared.disk.generation < U64_MAX
    requires nonce != 0 && (owner.Some? ==> ValidOwner(owner.value))
    ensures Reachable(e, slot) && id in e.shared.gates && e.shared.gates[id].Target? && id in e.shared.births
    ensures e.lock.None? && t in e.threads
    ensures e.shared.disk == Promotion(Intent(s.shared.disk, owner, nonce, now), id)
  {
    hide Reachable;
    hide SoundRecord;
    CanReserve(s, slot, t, owner, nonce, now);
    var r := Reserved(s, t, Intent(s.shared.disk, owner, nonce, now));
    var c := CanCommit(r, slot, t, id);
    e := CanExec(c, slot, t, id);
  }

  // ---- And to the tombstone ----

  lemma EntombIsAccepted(r: SlotRecord, slot: nat, now: nat)
    requires SoundRecord(r, slot) && r.state.CleanupPending?
    ensures Transition(r, Tombstoned(r, now)) && Tombstoned(r, now).state.ResolvedTombstone?
    ensures Tombstoned(r, now).generation == r.generation
  {
    ProposalIsAccepted(Entomb(now), r, slot);
  }

  lemma MarkIsAccepted(r: SlotRecord, slot: nat)
    requires SoundRecord(r, slot) && r.state.IdentityDurable?
    ensures Propose(MarkPending, r).Write?
    ensures var p := Propose(MarkPending, r).next;
      && Transition(r, p) && SoundRecord(p, slot) && p.state.CleanupPending?
      && p.generation == r.generation && p.state.identity == r.state.identity
  {
    ProposalIsAccepted(MarkPending, r, slot);
  }

  /** The cleaner `u` has marked the generation, holding the lock. */
  predicate Marked(s: State, u: Thread, id: ProcessIdentity, generation: nat) {
    && u in s.threads && s.threads[u] == CleanPending(s.shared.disk)
    && s.shared.disk.state.CleanupPending? && s.shared.disk.state.identity == id
    && s.shared.disk.generation == generation
    && Alive(s.shared, id) && id in s.shared.births
  }

  lemma CanMark(s: State, slot: nat, u: Thread, id: ProcessIdentity) returns (m: State)
    requires Reachable(s, slot) && s.lock.None? && u !in s.threads
    requires s.shared.disk.state.IdentityDurable? && s.shared.disk.state.identity == id
    requires Alive(s.shared, id) && id in s.shared.births
    ensures Reachable(m, slot) && Marked(m, u, id, s.shared.disk.generation)
  {
    hide Reachable;
    hide Transition;
    hide SoundRecord;
    var r := s.shared.disk;
    assert SoundRecord(r, slot) by { ReachableInv(s, slot); }
    MarkIsAccepted(r, slot);
    hide Propose;
    var p := Propose(MarkPending, r).next;
    var s1 := At(s, u, CleanScan).(lock := Some(u));
    ReachThread(s, slot, TakeLock(u, CleanScan), s1);
    var s2 := At(s1, u, Renaming(r, p, CleanPending(p)));
    ReachCleaner(s1, slot, CleanMarkCompare(u), s2);
    m := At(s2, u, CleanPending(p)).(shared := s2.shared.(disk := p));
    ReachThread(s2, slot, Rename(u), m);
  }

  /** The cleaner has found the process absent. */
  predicate Mourned(s: State, u: Thread, id: ProcessIdentity, generation: nat) {
    && u in s.threads && s.threads[u] == CleanDead(s.shared.disk)
    && s.shared.disk.state.CleanupPending? && s.shared.disk.generation == generation
    && !Alive(s.shared, id)
  }

  lemma CanMourn(s: State, slot: nat, u: Thread, id: ProcessIdentity, generation: nat) returns (d: State)
    requires Reachable(s, slot) && Marked(s, u, id, generation)
    ensures Reachable(d, slot) && Mourned(d, u, id, generation)
  {
    hide Reachable;
    var v := s.shared;
    var s1 := s.(shared := v.(gates := v.gates[id := Dead],
                              guardGate := if v.guardGate == Some(id) then None else v.guardGate));
    ReachGate(s, slot, Die(id), s1);
    d := At(s1, u, CleanDead(v.disk));
    ReachCleaner(s1, slot, CleanAbsent(u), d);
  }

  lemma CanEntomb(s: State, slot: nat, u: Thread, id: ProcessIdentity, generation: nat, now: nat) returns (d: State)
    requires Reachable(s, slot) && Mourned(s, u, id, generation)
    ensures Reachable(d, slot) && d.shared.disk.state.ResolvedTombstone?
    ensures d.shared.disk.generation == generation && !Alive(d.shared, id)
  {
    hide Reachable;
    hide Transition;
    hide SoundRecord;
    var p := s.shared.disk;
    assert SoundRecord(p, slot) by { ReachableInv(s, slot); }
    EntombIsAccepted(p, slot, now);
    hide Tombstoned;
    var tomb := Tombstoned(p, now);
    var s1 := At(s, u, Renaming(p, tomb, CleanDone));
    ReachCleaner(s, slot, CleanDeadCompare(u, now), s1);
    d := At(s1, u, CleanDone).(shared := s1.shared.(disk := tomb));
    ReachThread(s1, slot, Rename(u), d);
  }

  /** A cleaner can bring every launched generation to its tombstone, at which its target is dead. */
  lemma LaunchCanBeCleanedUp(s: State, slot: nat, u: Thread, id: ProcessIdentity, now: nat) returns (d: State)
    requires Reachable(s, slot) && s.lock.None? && u !in s.threads
    requires s.shared.disk.state.IdentityDurable? && s.shared.disk.state.identity == id
    requires Alive(s.shared, id) && id in s.shared.births
    ensures Reachable(d, slot) && d.shared.disk.state.ResolvedTombstone?
    ensures d.shared.disk.generation == s.shared.disk.generation && !Alive(d.shared, id)
  {
    hide Reachable;
    hide Marked;
    hide Mourned;
    var m := CanMark(s, slot, u, id);
    var dead := CanMourn(m, slot, u, id, s.shared.disk.generation);
    d := CanEntomb(dead, slot, u, id, s.shared.disk.generation, now);
  }
}
