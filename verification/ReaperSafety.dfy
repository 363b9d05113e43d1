/** What every run of waiters and supervisor keeps, and when a queued job is taken up. */
module ReaperSafety {
  import opened Common
  import opened Reaper

  // ---- What the queue operations do to one launch ----

  lemma EnqueuedView(s: Shared, h: Held, id: nat)
    ensures var t := Enqueued(s, h);
      && (forall k: Token :: InQueue(t, id, k) == InQueue(s, id, k) + Holds(h, id, k))
      && (HasJob(t, id) <==> HasJob(s, id) || h.id == id)
      && (JobsSound(t, id) <==> JobsSound(s, id) && (h.id == id && !h.child ==> id in s.ledger.reaped))
  {
    var t := Enqueued(s, h);
    forall k: Token
      ensures InQueue(t, id, k) == InQueue(s, id, k) + Holds(h, id, k)
    {
      CountPush(s.jobs, h, id, k);
    }
    assert forall x :: x in t.jobs <==> x in s.jobs || x == h;
    assert h in t.jobs;
  }

  lemma TakenView(s: Shared, id: nat)
    ensures var t := Taken(s);
      && (forall k: Token :: InQueue(t, id, k) == InQueue(s, id, k))
      && (HasJob(t, id) <==> HasJob(s, id))
      && (JobsSound(t, id) <==> JobsSound(s, id))
  {
    var t := Taken(s);
    if s.active.None? && s.jobs != [] {
      forall k: Token
        ensures InQueue(t, id, k) == InQueue(s, id, k)
      {
        CountPop(s.jobs, id, k);
      }
      assert s.jobs == [s.jobs[0]] + t.jobs;
      assert forall x :: x in s.jobs <==> x == s.jobs[0] || x in t.jobs;
    }
  }

  /** The active job leaves the supervisor's hands. */
  lemma IdleView(s: Shared, id: nat)
    requires s.active.Some?
    ensures var t, h := s.(active := None), s.active.value;
      && (forall k: Token :: InQueue(s, id, k) == InQueue(t, id, k) + Holds(h, id, k))
      && (HasJob(s, id) <==> HasJob(t, id) || h.id == id)
      && (JobsSound(s, id) <==> JobsSound(t, id) && (h.id == id && !h.child ==> id in s.ledger.reaped))
  {
  }

  /** Only the ledger changes. */
  lemma LedgerView(s: Shared, l: Ledger, id: nat)
    requires id in s.ledger.reaped ==> id in l.reaped
    ensures var t := s.(ledger := l);
      && (forall k: Token :: InQueue(t, id, k) == InQueue(s, id, k))
      && (HasJob(t, id) <==> HasJob(s, id))
      && (JobsSound(s, id) ==> JobsSound(t, id))
  {
  }

  // ---- Every step keeps the invariant ----

  lemma FinishKeepsSound(s: System, a: Answers, id: nat)
    requires Inv(s)
    ensures Sound(Apply(s, Finish(a)), id)
  {
    hide InQueue;
    hide HasJob;
    hide JobsSound;
    assert Sound(s, id);
    var sh := s.shared;
    if sh.active.Some? {
      var h := sh.active.value;
      var idle := sh.(active := None);
      var l := Noted(sh.ledger, h, a);
      IdleView(sh, id);
      LedgerView(idle, l, id);
      LedgerView(idle, Released(l, h), id);
      EnqueuedView(idle, h, id);
      EnqueuedView(idle.(ledger := l), h.(child := false), id);
    }
  }

  lemma TakeKeepsSound(s: System, id: nat)
    requires Inv(s)
    ensures Sound(Apply(s, Take), id)
  {
    hide InQueue;
    hide HasJob;
    hide JobsSound;
    assert Sound(s, id);
    TakenView(s.shared, id);
  }

  /** What `Settled` and `Dropped` do to the shared state, seen from one launch. */
  lemma SettledView(w: Held, s: Shared, a: Answers, id: nat)
    ensures var (v, t) := Settled(w, s, a);
      && t.ledger == Noted(s.ledger, w, a)
      && (forall k: Token :: InQueue(t, id, k) == InQueue(s, id, k) + if Settles(w, a) then 0 else Holds(w.(child := false), id, k))
      && (HasJob(t, id) <==> HasJob(s, id) || (w.id == id && !Settles(w, a)))
      && (JobsSound(s, id) && (w.id == id && !w.child ==> id in s.ledger.reaped) ==> JobsSound(t, id))
  {
    hide InQueue;
    hide HasJob;
    hide JobsSound;
    var l := Noted(s.ledger, w, a);
    LedgerView(s, l, id);
    EnqueuedView(s.(ledger := l), w.(child := false), id);
  }

  lemma DroppedView(w: Held, s: Shared, a: Answers, id: nat)
    ensures var t := Dropped(w, s, a);
      && (forall k: Token :: InQueue(t, id, k) == InQueue(s, id, k) + if w.child then Holds(w, id, k) else 0)
      && (HasJob(t, id) <==> HasJob(s, id) || (w.id == id && w.child))
      && (JobsSound(s, id) ==> JobsSound(t, id))
      && t.ledger.reaped == s.ledger.reaped && t.ledger.cleaned == s.ledger.cleaned
      && t.ledger.resolved == (if w.child && a.resolved then s.ledger.resolved + {w.id} else s.ledger.resolved)
      && t.ledger.released == (if !w.child && w.guard then s.ledger.released + {w.id} else s.ledger.released)
  {
    hide InQueue;
    hide HasJob;
    hide JobsSound;
    var l := s.ledger.(resolved := if a.resolved then s.ledger.resolved + {w.id} else s.ledger.resolved);
    LedgerView(s, l, id);
    LedgerView(s, Released(s.ledger, w), id);
    EnqueuedView(s.(ledger := l), w, id);
  }

  lemma DropKeepsSound(s: System, x: nat, a: Answers, id: nat)
    requires Inv(s)
    ensures Sound(Apply(s, Drop(x, a)), id)
  {
    hide InQueue;
    hide HasJob;
    hide JobsSound;
    hide Dropped;
    assert Sound(s, id) && Sound(s, x);
    if x in s.waiters {
      DroppedView(s.waiters[x], s.shared, a, id);
    }
  }

  lemma WaitUntilKeepsSound(s: System, x: nat, a: Answers, id: nat)
    requires Inv(s)
    ensures Sound(Apply(s, WaitUntil(x, a)), id)
  {
    hide InQueue;
    hide HasJob;
    hide JobsSound;
    assert Sound(s, id) && Sound(s, x);
    if x in s.waiters {
      SettledView(s.waiters[x], s.shared, a, id);
    }
  }

  /** Settling and then dropping is what `WaitUntil` followed by `Drop` does, from a waiter with a reaped child or none. */
  lemma SettleAndDropKeepsSound(s: System, x: nat, a: Answers, id: nat)
    requires Inv(s) && x in s.waiters && (s.waiters[x].child ==> a.reaped)
    ensures var r := Settled(s.waiters[x], s.shared, a);
      Sound(s.(waiters := Without(s.waiters, x), shared := Dropped(r.0, r.1, a)), id)
  {
    hide InQueue;
    hide HasJob;
    hide JobsSound;
    hide Dropped;
    assert Sound(s, id) && Sound(s, x);
    var w := s.waiters[x];
    var r := Settled(w, s.shared, a);
    SettledView(w, s.shared, a, id);
    DroppedView(r.0, r.1, a, id);
  }

  lemma GiveUpKeepsSound(s: System, x: nat, a: Answers, id: nat)
    requires Inv(s)
    ensures Sound(Apply(s, Consume(x, a)), id)
    ensures Sound(Apply(s, Reap(x, a)), id)
  {
    hide Sound;
    assert Sound(s, id);
    if x in s.waiters {
      DropKeepsSound(s, x, a, id);
      if s.waiters[x].child ==> a.reaped {
        SettleAndDropKeepsSound(s, x, a, id);
      } else {
        assert Apply(s, Reap(x, a)) == s;
      }
    }
  }

  lemma UnspawnedKeepsSound(s: System, x: nat, guarded: bool, a: Answers, id: nat)
    requires Inv(s)
    ensures Sound(Apply(s, Unspawned(x, guarded, a)), id)
  {
    hide InQueue;
    hide HasJob;
    hide JobsSound;
    hide Dropped;
    assert Sound(s, id) && Sound(s, x);
    if x !in s.launched {
      var w := Held(x, false, guarded);
      var sh := s.shared.(ledger := s.shared.ledger.(reaped := s.shared.ledger.reaped + {x}));
      LedgerView(s.shared, sh.ledger, id);
      var r := Settled(w, sh, a);
      SettledView(w, sh, a, id);
      DroppedView(r.0, r.1, a, id);
    }
  }

  lemma StepKeepsInv(s: System, step: Step)
    requires Inv(s)
    ensures Inv(Apply(s, step))
  {
    forall id
      ensures Sound(Apply(s, step), id)
    {
      StepKeepsSound(s, step, id);
    }
  }

  lemma StepKeepsSound(s: System, step: Step, id: nat)
    requires Inv(s)
    ensures Sound(Apply(s, step), id)
  {
    assert Sound(s, id);
    match step
    case Launch(x, guarded) =>
      assert Sound(s, x);
    case Unspawned(x, guarded, a) => UnspawnedKeepsSound(s, x, guarded, a, id);
    case Reap(x, a) => GiveUpKeepsSound(s, x, a, id);
    case WaitUntil(x, a) => WaitUntilKeepsSound(s, x, a, id);
    case Consume(x, a) => GiveUpKeepsSound(s, x, a, id);
    case Drop(x, a) => DropKeepsSound(s, x, a, id);
    case Take => TakeKeepsSound(s, id);
    case Finish(a) => FinishKeepsSound(s, a, id);
  }

  lemma {:induction false} RunInvariant(steps: seq<Step>)
    ensures Inv(Run(Start, steps))
  {
    if steps != [] {
      var front := steps[..|steps| - 1];
      RunInvariant(front);
      StepKeepsInv(Run(Start, front), steps[|steps| - 1]);
    }
  }

  // ---- Main results ----

  /** Nothing of the launch is left to do. */
  predicate Done(s: System, id: nat)
    requires id in s.launched
  {
    var l := s.shared.ledger;
    id in l.reaped && id in l.resolved && (s.launched[id] ==> id in l.cleaned)
  }

  /** In every run, a lifetime guard is released only once the child is reaped, process cleanup is resolved and
      artifact cleanup has succeeded. */
  lemma GuardOutlivesTheLaunch(steps: seq<Step>, id: nat)
    ensures var l := Run(Start, steps).shared.ledger;
      id in l.released ==> id in l.reaped && id in l.resolved && id in l.cleaned
  {
    RunInvariant(steps);
    assert Sound(Run(Start, steps), id);
  }

  /** In every run each child is in exactly one hand until it is reaped, and each guard until it is released. */
  lemma ChildAndGuardAreConserved(steps: seq<Step>, id: nat)
    ensures var s := Run(Start, steps); id in s.launched ==>
      && Holders(s, id, Child) == (if id in s.shared.ledger.reaped then 0 else 1)
      && Holders(s, id, Guard) == (if s.launched[id] && id !in s.shared.ledger.released then 1 else 0)
  {
    RunInvariant(steps);
    assert Sound(Run(Start, steps), id);
  }

  lemma {:induction false} CountedIsThere(jobs: seq<Held>, id: nat, t: Token)
    requires Count(jobs, id, t) > 0
    ensures exists h :: h in jobs && h.id == id
  {
    var n := |jobs| - 1;
    if Holds(jobs[n], id, t) == 0 {
      CountedIsThere(jobs[..n], id, t);
    } else {
      assert jobs[n] in jobs;
    }
  }

  /** In every run no launch is forgotten: unless it is done, a waiter still has its child or a job stands for it. */
  lemma NoLaunchIsForgotten(steps: seq<Step>, id: nat)
    ensures var s := Run(Start, steps); id in s.launched ==>
      Done(s, id) || (id in s.waiters && s.waiters[id].child) || HasJob(s.shared, id)
  {
    RunInvariant(steps);
    var s := Run(Start, steps);
    assert Sound(s, id);
    forall t: Token | Count(s.shared.jobs, id, t) > 0
      ensures HasJob(s.shared, id)
    {
      CountedIsThere(s.shared.jobs, id, t);
    }
  }

  /** A drained queue means that every launch without a waiting owner is done. */
  lemma DrainedMeansDone(steps: seq<Step>, id: nat)
    ensures var s := Run(Start, steps);
      id in s.launched && s.shared.jobs == [] && s.shared.active.None? && !(id in s.waiters && s.waiters[id].child) ==> Done(s, id)
  {
    NoLaunchIsForgotten(steps, id);
  }

  // ---- The queue is fair ----

  /** How many jobs the supervisor takes up along the steps. */
  function Takes(s: System, steps: seq<Step>): nat {
    if steps == [] then 0
    else
      var front := steps[..|steps| - 1];
      Takes(s, front) + if TakesOne(Run(s, front), steps[|steps| - 1]) then 1 else 0
  }

  predicate TakesOne(s: System, step: Step) {
    step.Take? && s.shared.active.None? && s.shared.jobs != []
  }

  /** Only taking a job shortens the queue, and only at its front. */
  lemma StepKeepsOrder(s: System, step: Step)
    ensures var (a, b) := (s.shared.jobs, Apply(s, step).shared.jobs);
      if TakesOne(s, step) then b == a[1..] else a <= b
  {
  }

  /** After fewer than `k + 1` takings the job at place `k` has moved up by their number, whatever else was
      queued or requeued; the taking number `k + 1` is the one that takes it up. */
  lemma {:induction false} JobMovesUp(s: System, steps: seq<Step>, k: nat)
    requires k < |s.shared.jobs| && Takes(s, steps) <= k
    ensures var jobs, n := Run(s, steps).shared.jobs, Takes(s, steps);
      k - n < |jobs| && jobs[k - n] == s.shared.jobs[k]
  {
    hide Apply;
    hide Run;
    hide Takes;
    hide TakesOne;
    Unfold(s, steps);
    if steps != [] {
      var front := steps[..|steps| - 1];
      JobMovesUp(s, front, k);
      StepKeepsOrder(Run(s, front), steps[|steps| - 1]);
    }
  }

  lemma Unfold(s: System, steps: seq<Step>)
    ensures steps == [] ==> Run(s, steps) == s && Takes(s, steps) == 0
    ensures steps != [] ==>
      var front, last := steps[..|steps| - 1], steps[|steps| - 1];
      && Run(s, steps) == Apply(Run(s, front), last)
      && Takes(s, steps) == Takes(s, front) + if TakesOne(Run(s, front), last) then 1 else 0
  {
    hide Apply;
    hide TakesOne;
  }

  /** A job with `k` jobs ahead is the active job right after the taking number `k + 1`. */
  lemma JobIsTakenUpInTurn(s: System, steps: seq<Step>, k: nat)
    requires k < |s.shared.jobs| && Takes(s, steps) == k && TakesOne(Run(s, steps), Take)
    ensures Apply(Run(s, steps), Take).shared.active == Some(s.shared.jobs[k])
  {
    hide Run;
    hide Takes;
    JobMovesUp(s, steps, k);
  }

  /** Hence any run with more than `k` takings has taken it up along the way. */
  lemma {:induction false} JobIsTakenUp(s: System, steps: seq<Step>, k: nat)
    requires k < |s.shared.jobs| && Takes(s, steps) > k
    ensures exists i :: 0 <= i <= |steps| && Run(s, steps[..i]).shared.active == Some(s.shared.jobs[k])
  {
    hide Apply;
    hide Run;
    hide Takes;
    Unfold(s, steps);
    var front := steps[..|steps| - 1];
    if Takes(s, front) > k {
      JobIsTakenUp(s, front, k);
      var i :| 0 <= i <= |front| && Run(s, front[..i]).shared.active == Some(s.shared.jobs[k]);
      assert front[..i] == steps[..i];
      assert Run(s, steps[..i]).shared.active == Some(s.shared.jobs[k]);
    } else {
      JobIsTakenUpInTurn(s, front, k);
      assert steps[..|steps|] == steps;
    }
  }

  /** While the queue is not empty, two supervisor steps always take a job up. */
  lemma PassTakesOne(s: System, a: Answers)
    requires s.shared.jobs != []
    ensures Takes(s, [Finish(a), Take]) == 1
  {
    var none: seq<Step> := [];
    var one: seq<Step>, both: seq<Step> := [Finish(a)], [Finish(a), Take];
    assert one[..0] == none && both[..1] == one;
    assert Run(s, none) == s && Run(s, one) == Apply(s, Finish(a));
    StepKeepsOrder(s, Finish(a));
    assert Takes(s, one) == 0;
    assert TakesOne(Run(s, one), Take);
    assert both[|both| - 1] == Take && both[..|both| - 1] == one;
  }

  // ---- Launches without a guard ----

  /**
   A launch that came without a lifetime guard is finished by process cleanup alone,
   whatever artifact cleanup would say, on each way of settling it.
   */
  lemma UnguardedNeedsNoArtifacts(steps: seq<Step>, id: nat, cleaned: bool)
    ensures var s := Run(Start, steps);
      var a := Answers(true, true, cleaned);
      id in s.launched && !s.launched[id] ==>
        && (s.shared.active.Some? && s.shared.active.value.id == id ==>
              var t := Run(Start, steps + [Finish(a)]);
              Done(t, id) && t.shared.active.None? && t.shared.jobs == s.shared.jobs)
        && (id in s.waiters && s.waiters[id].child ==>
              var t := Run(Start, steps + [Consume(id, a)]);
              Done(t, id) && id !in t.waiters && t.shared.jobs == s.shared.jobs)
  {
    hide Run;
    RunInvariant(steps);
    var s := Run(Start, steps);
    var a := Answers(true, true, cleaned);
    assert Sound(s, id);
    RunSnoc(Start, steps, Finish(a));
    RunSnoc(Start, steps, Consume(id, a));
    if id in s.launched && !s.launched[id] {
      NoGuardToHold(s, id);
    }
  }

  lemma NoGuardToHold(s: System, id: nat)
    requires Sound(s, id) && id in s.launched && !s.launched[id]
    ensures id in s.waiters ==> !s.waiters[id].guard
    ensures s.shared.active.Some? && s.shared.active.value.id == id ==> !s.shared.active.value.guard
  {
  }

  // ---- The queue converges ----

  const GOOD: Answers := Answers(true, true, true)

  /** Supervisor passes in which the environment cooperates. */
  function Passes(n: nat): seq<Step> {
    if n == 0 then [] else Passes(n - 1) + [Take] + [Finish(GOOD)]
  }

  lemma {:induction false} RunConcat(s: System, a: seq<Step>, b: seq<Step>)
    ensures Run(s, a + b) == Run(Run(s, a), b)
    decreases |b|
  {
    hide Apply;
    if b == [] {
      assert a + b == a;
    } else {
      RunConcat(s, a, b[..|b| - 1]);
      assert (a + b)[..|a + b| - 1] == a + b[..|b| - 1];
    }
  }

  lemma RunSnoc(s: System, steps: seq<Step>, step: Step)
    ensures Run(s, steps + [step]) == Apply(Run(s, steps), step)
  {
    assert (steps + [step])[..|steps|] == steps;
  }

  /** Each cooperative pass finishes the front job for good. */
  lemma {:induction false} GoodPasses(s: System, k: nat)
    requires s.shared.active.None? && k <= |s.shared.jobs|
    ensures var t := Run(s, Passes(k));
      t.shared.jobs == s.shared.jobs[k..] && t.shared.active.None? && t.waiters == s.waiters && t.launched == s.launched
  {
    hide Run;
    if k == 0 {
      assert Run(s, Passes(0)) == s by { RunNothing(s); }
    } else {
      GoodPasses(s, k - 1);
      RunSnoc(s, Passes(k - 1), Take);
      RunSnoc(s, Passes(k - 1) + [Take], Finish(GOOD));
      assert s.shared.jobs[k - 1..][1..] == s.shared.jobs[k..];
    }
  }

  lemma RunNothing(s: System)
    ensures Run(s, []) == s
  {
  }

  /** From every reachable state, as many cooperative passes as there are jobs drain the queue, and then every launch
      without a waiting owner is done. */
  lemma QueueConverges(steps: seq<Step>, id: nat)
    ensures var s := Run(Start, steps + [Finish(GOOD)]);
      var t := Run(Start, steps + [Finish(GOOD)] + Passes(|s.shared.jobs|));
      && t.shared.jobs == [] && t.shared.active.None?
      && t.launched == Run(Start, steps).launched
      && (id in t.launched && !(id in t.waiters && t.waiters[id].child) ==> Done(t, id))
  {
    hide Run;
    hide Passes;
    var base := steps + [Finish(GOOD)];
    var s := Run(Start, base);
    RunSnoc(Start, steps, Finish(GOOD));
    GoodPasses(s, |s.shared.jobs|);
    RunConcat(Start, base, Passes(|s.shared.jobs|));
    DrainedMeansDone(base + Passes(|s.shared.jobs|), id);
  }
}
