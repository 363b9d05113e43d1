/**
 The reaper: who owns a launched child and its lifetime guard until both can be let go.
 A waiter owns them at first; every way of giving a waiter up settles the launch or
 hands what is left to a queue that one supervisor works through, retrying at the back.
 */
module Reaper {
  import opened Common

  /** A waiter or a queued job: the launch it belongs to, and whether it holds the child and the lifetime guard. */
  datatype Held = Held(id: nat, child: bool, guard: bool)

  /** What has durably happened, by launch. */
  datatype Ledger = Ledger(reaped: set<nat>, resolved: set<nat>, cleaned: set<nat>, released: set<nat>)

  /** What the environment says to one attempt: the child was reaped; process cleanup reported a tombstone or an
      absent record; artifact cleanup reported success. */
  datatype Answers = Answers(reaped: bool, resolved: bool, cleaned: bool)

  datatype Shared = Shared(jobs: seq<Held>, active: Option<Held>, ledger: Ledger)

  // ---- One attempt ----

  /** Process cleanup is resolved, and so is artifact cleanup where a guard asks for it. */
  predicate Settles(h: Held, a: Answers) {
    a.resolved && (h.guard ==> a.cleaned)
  }

  /** The ledger after the child is gone and cleanup has answered. */
  function Noted(l: Ledger, h: Held, a: Answers): Ledger {
    Ledger(
      if h.child then l.reaped + {h.id} else l.reaped,
      if a.resolved then l.resolved + {h.id} else l.resolved,
      if a.resolved && h.guard && a.cleaned then l.cleaned + {h.id} else l.cleaned,
      l.released)
  }

  function Released(l: Ledger, h: Held): Ledger {
    if h.guard then l.(released := l.released + {h.id}) else l
  }

  function Enqueued(s: Shared, h: Held): Shared {
    s.(jobs := s.jobs + [h])
  }

  function Taken(s: Shared): Shared {
    if s.active.Some? || s.jobs == [] then s else s.(jobs := s.jobs[1..], active := Some(s.jobs[0]))
  }

  /** The end of a supervisor pass. */
  function Finished(s: Shared, a: Answers): Shared {
    if s.active.None? then s
    else
      var h := s.active.value;
      var idle := s.(active := None);
      if h.child && !a.reaped then Enqueued(idle, h)
      else
        var l := Noted(s.ledger, h, a);
        if Settles(h, a) then idle.(ledger := Released(l, h))
        else Enqueued(idle.(ledger := l), h.(child := false))
  }

  /** A reaped waiter cleans up, or hands its guard to the queue. */
  function Settled(w: Held, s: Shared, a: Answers): (Held, Shared) {
    var noted := s.(ledger := Noted(s.ledger, w, a));
    if Settles(w, a) then (w.(child := false), noted)
    else (Held(w.id, false, false), Enqueued(noted, w.(child := false)))
  }

  /** A waiter goes out of scope. */
  function Dropped(w: Held, s: Shared, a: Answers): Shared {
    if w.child then
      var l := s.ledger.(resolved := if a.resolved then s.ledger.resolved + {w.id} else s.ledger.resolved);
      Enqueued(s.(ledger := l), w)
    else s.(ledger := Released(s.ledger, w))
  }

  /** `wait` and `terminate_and_wait`, which use the waiter up. */
  function Consumed(w: Held, s: Shared, a: Answers): Shared {
    if !w.child || !a.reaped then Dropped(w, s, a)
    else
      var r := Settled(w, s, a);
      Dropped(r.0, r.1, a)
  }

  /** `terminate_and_reap_bounded`: the waiter comes back while its child cannot be reaped. */
  function BoundedReap(w: Held, s: Shared, a: Answers): (Option<Held>, Shared) {
    if w.child && !a.reaped then (Some(w), s)
    else
      var r := Settled(w, s, a);
      (None, Dropped(r.0, r.1, a))
  }

  /** `wait_until`, which only borrows the waiter. */
  function WaitedUntil(w: Held, s: Shared, a: Answers): (Held, Shared) {
    if !w.child || !a.reaped then (w, s) else Settled(w, s, a)
  }

  // ---- The programs ----

  class ReaperQueue {
    var jobs: seq<Held>
    var active: Option<Held>
    var activeJobs: nat
    ghost var ledger: Ledger

    ghost predicate Valid()
      reads this
    {
      activeJobs == if active.Some? then 1 else 0
    }

    ghost function Now(): Shared
      reads this
    {
      Shared(jobs, active, ledger)
    }

    constructor ()
      ensures Valid() && Now() == Shared([], None, Ledger({}, {}, {}, {}))
    {
      jobs, active, activeJobs, ledger := [], None, 0, Ledger({}, {}, {}, {});
    }

    /** `enqueue_managed_reap_job`. */
    method Enqueue(h: Held)
      requires Valid()
      modifies this`jobs
      ensures Valid() && Now() == Enqueued(old(Now()), h)
    {
      jobs := jobs + [h];
    }

    /** The first critical section of a supervisor pass. */
    method Take()
      requires Valid()
      modifies this
      ensures Valid() && Now() == Taken(old(Now()))
    {
      if active.None? && jobs != [] {
        active := Some(jobs[0]);
        jobs := jobs[1..];
        activeJobs := activeJobs + 1;
      }
    }

    /** The rest of a supervisor pass. */
    method Finish(a: Answers)
      requires Valid()
      modifies this
      ensures Valid() && Now() == Finished(old(Now()), a)
    {
      if active.None? {
        return;
      }
      var h := active.value;
      active := None;
      activeJobs := activeJobs - 1;
      var reapResolved := !h.child || a.reaped;
      if !reapResolved {
        jobs := jobs + [h];
        return;
      }
      ledger := Noted(ledger, h, a);
      h := h.(child := false);
      var processCleanupResolved := a.resolved;
      var artifactCleanupResolved := processCleanupResolved && (if h.guard then a.cleaned else true);
      if artifactCleanupResolved {
        ledger := Released(ledger, h);
      } else {
        jobs := jobs + [h];
      }
    }

    /** The test of `drain_managed_reaper_queue_bounded`. */
    method IsDrained() returns (drained: bool)
      requires Valid()
      ensures drained <==> jobs == [] && active.None?
    {
      drained := jobs == [] && activeJobs == 0;
    }
  }

  class ManagedWaiter {
    const id: nat
    var child: bool
    var guard: bool
    const queue: ReaperQueue

    ghost function Mine(): Held
      reads this
    {
      Held(id, child, guard)
    }

    constructor (id: nat, guard: bool, queue: ReaperQueue)
      ensures Mine() == Held(id, true, guard) && this.queue == queue
    {
      this.id, this.child, this.guard, this.queue := id, true, guard, queue;
    }

    /** `handoff_cleanup_only`. */
    method HandoffCleanupOnly()
      requires queue.Valid()
      modifies this`guard, queue
      ensures queue.Valid() && !guard && queue.Now() == Enqueued(old(queue.Now()), Held(id, false, old(guard)))
    {
      queue.Enqueue(Held(id, false, guard));
      guard := false;
    }

    /** The shared end of the three waits: take the child, clean up, hand over what is left. */
    method Settle(a: Answers) returns (clean: bool)
      requires queue.Valid()
      modifies this, queue
      ensures queue.Valid() && (Mine(), queue.Now()) == Settled(old(Mine()), old(queue.Now()), a)
      ensures clean <==> Settles(old(Mine()), a)
    {
      queue.ledger := Noted(queue.ledger, Mine(), a);
      child := false;
      var processCleanupResolved := a.resolved;
      clean := processCleanupResolved && (if guard then a.cleaned else true);
      if !clean {
        HandoffCleanupOnly();
      }
    }

    /** `Drop for ManagedWaiter`, with the release of the fields. */
    method Drop(a: Answers)
      requires queue.Valid()
      modifies this, queue
      ensures queue.Valid() && queue.Now() == Dropped(old(Mine()), old(queue.Now()), a)
      ensures !child && !guard
    {
      if child {
        queue.ledger := queue.ledger.(
          resolved := if a.resolved then queue.ledger.resolved + {id} else queue.ledger.resolved);
        queue.Enqueue(Held(id, true, guard));
        child, guard := false, false;
      } else {
        queue.ledger := Released(queue.ledger, Mine());
        guard := false;
      }
    }

    method TerminateAndReapBounded(a: Answers) returns (pending: bool)
      requires queue.Valid()
      modifies this, queue
      ensures queue.Valid()
      ensures var r := BoundedReap(old(Mine()), old(queue.Now()), a);
        queue.Now() == r.1 && (pending <==> r.0.Some?) && (pending ==> r.0 == Some(Mine()))
    {
      if child && !a.reaped {
        return true;
      }
      var _ := Settle(a);
      Drop(a);
      return false;
    }

    method WaitUntil(a: Answers) returns (ok: bool)
      requires queue.Valid()
      modifies this, queue
      ensures queue.Valid() && (Mine(), queue.Now()) == WaitedUntil(old(Mine()), old(queue.Now()), a)
      ensures ok <==> old(child) && a.reaped && Settles(old(Mine()), a)
    {
      if !child || !a.reaped {
        return false;
      }
      ok := Settle(a);
    }

    /** `wait`; `terminate_and_wait` only adds a kill before it. */
    method Wait(a: Answers) returns (ok: bool)
      requires queue.Valid()
      modifies this, queue
      ensures queue.Valid() && queue.Now() == Consumed(old(Mine()), old(queue.Now()), a)
      ensures ok <==> old(child) && a.reaped && Settles(old(Mine()), a)
    {
      ok := false;
      if child && a.reaped {
        ok := Settle(a);
      }
      Drop(a);
    }
  }

  // ---- Runs of all the waiters and the supervisor ----

  /** `launched` says of each launch whether it came with a lifetime guard. */
  datatype System = System(waiters: map<nat, Held>, launched: map<nat, bool>, shared: Shared)

  datatype Step =
    | Launch(id: nat, guarded: bool)
    | Unspawned(id: nat, guarded: bool, a: Answers)
    | Reap(id: nat, a: Answers)
    | WaitUntil(id: nat, a: Answers)
    | Consume(id: nat, a: Answers)
    | Drop(id: nat, a: Answers)
    | Take
    | Finish(a: Answers)

  const Start: System := System(map[], map[], Shared([], None, Ledger({}, {}, {}, {})))

  /** `resolve_unspawned_intent`: there never was a child, and cleanup is tried at once. */
  function UnspawnedResult(id: nat, guarded: bool, s: Shared, a: Answers): Shared {
    var r := Settled(Held(id, false, guarded), s.(ledger := s.ledger.(reaped := s.ledger.reaped + {id})), a);
    Dropped(r.0, r.1, a)
  }

  function Without(m: map<nat, Held>, id: nat): map<nat, Held> {
    map k | k in m && k != id :: m[k]
  }

  function Apply(s: System, step: Step): System {
    match step
    case Launch(id, guarded) =>
      if id in s.launched then s
      else s.(waiters := s.waiters[id := Held(id, true, guarded)], launched := s.launched[id := guarded])
    case Unspawned(id, guarded, a) =>
      if id in s.launched then s
      else s.(launched := s.launched[id := guarded], shared := UnspawnedResult(id, guarded, s.shared, a))
    case Reap(id, a) =>
      if id !in s.waiters then s
      else
        var r := BoundedReap(s.waiters[id], s.shared, a);
        if r.0.Some? then s.(shared := r.1) else s.(waiters := Without(s.waiters, id), shared := r.1)
    case WaitUntil(id, a) =>
      if id !in s.waiters then s
      else
        var r := WaitedUntil(s.waiters[id], s.shared, a);
        s.(waiters := s.waiters[id := r.0], shared := r.1)
    case Consume(id, a) =>
      if id !in s.waiters then s
      else s.(waiters := Without(s.waiters, id), shared := Consumed(s.waiters[id], s.shared, a))
    case Drop(id, a) =>
      if id !in s.waiters then s
      else s.(waiters := Without(s.waiters, id), shared := Dropped(s.waiters[id], s.shared, a))
    case Take => s.(shared := Taken(s.shared))
    case Finish(a) => s.(shared := Finished(s.shared, a))
  }

  function Run(s: System, steps: seq<Step>): System {
    if steps == [] then s else Apply(Run(s, steps[..|steps| - 1]), steps[|steps| - 1])
  }

  // ---- Counting who holds what ----

  datatype Token = Child | Guard

  function Holds(h: Held, id: nat, t: Token): nat {
    if h.id == id && (if t.Child? then h.child else h.guard) then 1 else 0
  }

  function Count(jobs: seq<Held>, id: nat, t: Token): nat {
    if jobs == [] then 0 else Count(jobs[..|jobs| - 1], id, t) + Holds(jobs[|jobs| - 1], id, t)
  }

  lemma CountPush(jobs: seq<Held>, h: Held, id: nat, t: Token)
    ensures Count(jobs + [h], id, t) == Count(jobs, id, t) + Holds(h, id, t)
  {
    assert (jobs + [h])[..|jobs|] == jobs;
  }

  lemma {:induction false} CountPop(jobs: seq<Held>, id: nat, t: Token)
    requires jobs != []
    ensures Count(jobs, id, t) == Holds(jobs[0], id, t) + Count(jobs[1..], id, t)
    decreases |jobs|
  {
    if |jobs| > 1 {
      var front := jobs[..|jobs| - 1];
      CountPop(front, id, t);
      assert front[1..] == jobs[1..][..|jobs| - 2];
    } else {
      assert jobs[..0] == [] && jobs[1..] == [];
    }
  }

  function InQueue(s: Shared, id: nat, t: Token): nat {
    Count(s.jobs, id, t) + if s.active.Some? then Holds(s.active.value, id, t) else 0
  }

  function Holders(s: System, id: nat, t: Token): nat {
    (if id in s.waiters then Holds(s.waiters[id], id, t) else 0) + InQueue(s.shared, id, t)
  }

  /** Some job, waiting or active, belongs to the launch. */
  ghost predicate HasJob(s: Shared, id: nat) {
    (s.active.Some? && s.active.value.id == id) || exists h :: h in s.jobs && h.id == id
  }

  /** A job without a child belongs to a launch whose child is reaped. */
  ghost predicate JobsSound(s: Shared, id: nat) {
    && (s.active.Some? && s.active.value.id == id && !s.active.value.child ==> id in s.ledger.reaped)
    && (forall h :: h in s.jobs && h.id == id && !h.child ==> id in s.ledger.reaped)
  }

  // ---- The invariant, launch by launch ----

  ghost predicate WaiterSound(s: System, id: nat) {
    id in s.waiters ==>
      && s.waiters[id].id == id && id in s.launched
      && (!s.waiters[id].child ==> id in s.shared.ledger.reaped)
      && (!s.waiters[id].child && s.waiters[id].guard ==> id in s.shared.ledger.resolved && id in s.shared.ledger.cleaned)
  }

  /** The child is in exactly one hand or reaped; the guard, if there is one, in exactly one hand or released. */
  predicate Conserved(s: System, id: nat) {
    var l := s.shared.ledger;
    && Holders(s, id, Child) + (if id in l.reaped then 1 else 0) == (if id in s.launched then 1 else 0)
    && Holders(s, id, Guard) + (if id in l.released then 1 else 0)
       == (if id in s.launched && s.launched[id] then 1 else 0)
  }

  predicate LedgerSound(l: Ledger, id: nat) {
    id in l.released ==> id in l.reaped && id in l.resolved && id in l.cleaned
  }

  ghost predicate Sound(s: System, id: nat) {
    var l := s.shared.ledger;
    && WaiterSound(s, id)
    && Conserved(s, id)
    && LedgerSound(l, id)
    && JobsSound(s.shared, id)
    && (id in l.reaped && id !in l.resolved ==> HasJob(s.shared, id))
    && (id !in s.launched ==> id !in l.resolved && !HasJob(s.shared, id))
  }

  ghost predicate Inv(s: System) {
    forall id :: Sound(s, id)
  }
}
