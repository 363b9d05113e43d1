/**
 The tournament state machine: sixteen phases, a generation that every change must
 name and raises by one, and the normalisation after a daemon restart.
 */
module Tournament {
  import opened Common

  datatype Phase =
    | Prepared | Armed | Starting | Ready | GoPending | Running | ResultPending | PendingFinalize
    | FinalizingLoser | WinnerSelectionPending | FinalizingWinner
    | RollbackRequired | DecisionUncertain | RollbackPending
    | Selected | RolledBack
  {
    predicate IsTerminal() {
      Selected? || RolledBack?
    }

    predicate IsRollbackOnly() {
      RollbackRequired? || DecisionUncertain? || RollbackPending?
    }
  }

  /** `is_legal_transition`. */
  predicate IsLegalTransition(from: Phase, to: Phase) {
    match from
    case Prepared => to.Armed? || to.RollbackPending?
    case Armed => to.Starting? || to.RollbackPending? || to.RollbackRequired?
    case Starting => to.Ready? || to.RollbackPending? || to.RollbackRequired?
    case Ready => to.GoPending? || to.RollbackPending?
    case GoPending => to.Running? || to.RollbackPending? || to.DecisionUncertain?
    case Running => to.ResultPending? || to.RollbackPending? || to.RollbackRequired?
    case ResultPending => to.PendingFinalize? || to.RollbackPending? || to.RollbackRequired?
    case PendingFinalize => to.FinalizingLoser? || to.RollbackPending? || to.RollbackRequired?
    case FinalizingLoser => to.WinnerSelectionPending? || to.RollbackRequired? || to.DecisionUncertain?
    case WinnerSelectionPending => to.FinalizingWinner? || to.RollbackRequired? || to.DecisionUncertain?
    case FinalizingWinner => to.Selected? || to.RollbackRequired? || to.DecisionUncertain?
    case RollbackRequired => to.RollbackPending? || to.RollbackRequired?
    case DecisionUncertain => to.RollbackPending? || to.DecisionUncertain?
    case RollbackPending => to.RolledBack? || to.RollbackRequired?
    case Selected => to.Selected?
    case RolledBack => to.RolledBack?
  }

  datatype State = State(phase: Phase, generation: nat)

  datatype TransitionError = StaleGeneration | IllegalTransition | GenerationExhausted

  datatype Request = Transition(expected: nat, next: Phase) | Restart(expected: nat)

  /** The state after a request; a refused request leaves it alone. */
  function After(s: State, r: Request): State {
    if Outcome(s, r) != None || Idle(s, r) then s
    else State(if r.Transition? then r.next else RollbackRequired, s.generation + 1)
  }

  /** The request is already satisfied and succeeds without a change. */
  predicate Idle(s: State, r: Request) {
    match r
    case Transition(_, next) => s.phase == next && next.IsTerminal()
    case Restart(_) => s.phase.IsTerminal() || s.phase.RollbackRequired?
  }

  /** The error of a request, if any. */
  function Outcome(s: State, r: Request): Option<TransitionError> {
    match r
    case Transition(expected, next) =>
      if expected != s.generation then Some(StaleGeneration)
      else if Idle(s, r) then None
      else if !IsLegalTransition(s.phase, next) then Some(IllegalTransition)
      else if CheckedSucc(s.generation).None? then Some(GenerationExhausted)
      else None
    case Restart(expected) =>
      if Idle(s, r) then None
      else if expected != s.generation then Some(StaleGeneration)
      else if CheckedSucc(s.generation).None? then Some(GenerationExhausted)
      else None
  }

  class TournamentState {
    var phase: Phase
    var generation: nat

    ghost function Now(): State
      reads this
    {
      State(phase, generation)
    }

    constructor (phase: Phase, generation: nat)
      ensures Now() == State(phase, generation)
    {
      this.phase, this.generation := phase, generation;
    }

    /** `TournamentState::transition`. */
    method Change(expected: nat, next: Phase) returns (r: Option<TransitionError>)
      modifies this
      ensures r == Outcome(old(Now()), Transition(expected, next))
      ensures Now() == After(old(Now()), Transition(expected, next))
    {
      if expected != generation {
        return Some(StaleGeneration);
      }
      if phase == next && phase.IsTerminal() {
        return None;
      }
      if !IsLegalTransition(phase, next) {
        return Some(IllegalTransition);
      }
      var succ := CheckedSucc(generation);
      if succ.None? {
        return Some(GenerationExhausted);
      }
      phase := next;
      generation := succ.value;
      return None;
    }

    /** `TournamentState::normalize_after_daemon_restart`. */
    method NormalizeAfterDaemonRestart(expected: nat) returns (r: Option<TransitionError>)
      modifies this
      ensures r == Outcome(old(Now()), Restart(expected))
      ensures Now() == After(old(Now()), Restart(expected))
    {
      if phase.IsTerminal() || phase == RollbackRequired {
        return None;
      }
      if expected != generation {
        return Some(StaleGeneration);
      }
      var succ := CheckedSucc(generation);
      if succ.None? {
        return Some(GenerationExhausted);
      }
      generation := succ.value;
      phase := RollbackRequired;
      return None;
    }
  }

  // ---- Runs ----

  /** The states after each prefix of the requests. */
  function Run(s: State, requests: seq<Request>): State {
    if requests == [] then s
    else After(Run(s, requests[..|requests| - 1]), requests[|requests| - 1])
  }

  /** How far a forward phase lies from Prepared; None for the rollback side. */
  function Position(p: Phase): (n: Option<nat>)
    ensures n.None? <==> p.IsRollbackOnly() || p.RolledBack?
    ensures n.Some? ==> n.value <= 11
  {
    match p
    case Prepared => Some(0)
    case Armed => Some(1)
    case Starting => Some(2)
    case Ready => Some(3)
    case GoPending => Some(4)
    case Running => Some(5)
    case ResultPending => Some(6)
    case PendingFinalize => Some(7)
    case FinalizingLoser => Some(8)
    case WinnerSelectionPending => Some(9)
    case FinalizingWinner => Some(10)
    case Selected => Some(11)
    case _ => None
  }

  /** A change goes one position forward or leaves the forward side for good. */
  lemma ChangeGoesForwardOrBack(s: State, r: Request)
    ensures var t := After(s, r); t != s ==>
      && t.generation == s.generation + 1 <= U64_MAX
      && (Position(t.phase).Some? ==> Position(s.phase).Some? && Position(t.phase).value == Position(s.phase).value + 1)
      && !s.phase.IsTerminal()
  {
  }

  lemma RunSnoc(s: State, requests: seq<Request>, i: nat)
    requires i < |requests|
    ensures Run(s, requests[..i + 1]) == After(Run(s, requests[..i]), requests[i])
  {
    assert requests[..i + 1][..i] == requests[..i];
  }

  /** Along a run the generation never falls, two states with the same generation are the same state, and a phase
      that is not a forward phase is never followed by one. */
  lemma {:induction false} RunIsMonotone(s: State, requests: seq<Request>, i: nat, j: nat)
    requires i <= j <= |requests|
    ensures var a, b := Run(s, requests[..i]), Run(s, requests[..j]);
      && a.generation <= b.generation
      && (a.generation == b.generation ==> a == b)
      && (Position(a.phase).None? ==> Position(b.phase).None?)
      && (a.phase.IsTerminal() ==> a == b)
    decreases j - i
  {
    if i < j {
      RunIsMonotone(s, requests, i, j - 1);
      RunSnoc(s, requests, j - 1);
      ChangeGoesForwardOrBack(Run(s, requests[..j - 1]), requests[j - 1]);
    }
  }

  /** From Prepared at generation g, a forward phase carries g plus its position; Selected only g + 11. */
  lemma {:induction false} ForwardPhaseNamesItsGeneration(g: nat, requests: seq<Request>)
    ensures var t := Run(State(Prepared, g), requests);
      && (Position(t.phase).Some? ==> t.generation == g + Position(t.phase).value)
      && (t.phase.Selected? ==> t.generation == g + 11)
  {
    if requests != [] {
      var front := requests[..|requests| - 1];
      ForwardPhaseNamesItsGeneration(g, front);
      ChangeGoesForwardOrBack(Run(State(Prepared, g), front), requests[|requests| - 1]);
    }
  }

  /** Selected is never reached after a rollback-only phase. */
  lemma NoSelectionAfterRollback(s: State, requests: seq<Request>, i: nat)
    requires i <= |requests| && Run(s, requests[..i]).phase.IsRollbackOnly()
    ensures !Run(s, requests).phase.Selected?
  {
    RunIsMonotone(s, requests, i, |requests|);
    assert requests[..|requests|] == requests;
  }

  /** Nor after a restart that was carried out before a terminal phase. */
  lemma NoSelectionAfterRestart(s: State, requests: seq<Request>, i: nat)
    requires i < |requests| && requests[i].Restart?
    requires var before := Run(s, requests[..i]);
      !before.phase.IsTerminal() && Outcome(before, requests[i]) == None
    ensures !Run(s, requests).phase.Selected?
  {
    RunSnoc(s, requests, i);
    NoSelectionAfterRollback(s, requests, i + 1);
  }

  /** Two requests with the same expected generation cannot both change the state. */
  lemma OneChangePerGeneration(s: State, requests: seq<Request>, i: nat, j: nat)
    requires i < j < |requests| && requests[i].expected == requests[j].expected
    requires Run(s, requests[..i + 1]) != Run(s, requests[..i])
    ensures Run(s, requests[..j + 1]) == Run(s, requests[..j])
  {
    RunSnoc(s, requests, i);
    RunSnoc(s, requests, j);
    ChangeGoesForwardOrBack(Run(s, requests[..i]), requests[i]);
    RunIsMonotone(s, requests, i + 1, j);
  }

  /**
   The edges by where they lead. A rollback can be asked for up to the pending
   finalization and from the two other rollback-only phases; it can be required once
   something has started, and when a rollback fails; a decision can be uncertain once
   the go or a finalization is under way.
   */
  lemma EdgesByTarget(p: Phase)
    ensures IsLegalTransition(p, RollbackPending) <==> p in {
      Prepared, Armed, Starting, Ready, GoPending, Running, ResultPending, PendingFinalize, RollbackRequired, DecisionUncertain}
    ensures IsLegalTransition(p, RollbackRequired) <==> p in {
      Armed, Starting, Running, ResultPending, PendingFinalize, FinalizingLoser, WinnerSelectionPending, FinalizingWinner,
      RollbackRequired, RollbackPending}
    ensures IsLegalTransition(p, DecisionUncertain) <==> p in {
      GoPending, FinalizingLoser, WinnerSelectionPending, FinalizingWinner, DecisionUncertain}
    ensures IsLegalTransition(p, RolledBack) <==> p in {RollbackPending, RolledBack}
    ensures IsLegalTransition(p, Selected) <==> p in {FinalizingWinner, Selected}
    ensures forall to: Phase :: Position(to).Some? && !to.Selected? ==>
      (IsLegalTransition(p, to) <==> Position(p).Some? && Position(to).value == Position(p).value + 1)
  {
  }

  /** The eleven phases after Prepared, in order. */
  function ForwardPhase(k: nat): (p: Phase)
    requires k <= 11
    ensures Position(p) == Some(k)
  {
    if k == 0 then Prepared
    else if k == 1 then Armed
    else if k == 2 then Starting
    else if k == 3 then Ready
    else if k == 4 then GoPending
    else if k == 5 then Running
    else if k == 6 then ResultPending
    else if k == 7 then PendingFinalize
    else if k == 8 then FinalizingLoser
    else if k == 9 then WinnerSelectionPending
    else if k == 10 then FinalizingWinner
    else Selected
  }

  /** The requests that lead from Prepared at generation g to its k-th forward phase. */
  function Ladder(g: nat, k: nat): (requests: seq<Request>)
    requires k <= 11
    ensures |requests| == k
  {
    if k == 0 then [] else Ladder(g, k - 1) + [Transition(g + k - 1, ForwardPhase(k))]
  }

  /** Selected can be reached from Prepared at g exactly when the generation does not run out. */
  lemma SelectedIsReachable(g: nat)
    ensures (exists requests :: Run(State(Prepared, g), requests).phase.Selected?) <==> g + 11 <= U64_MAX
  {
    if g + 11 <= U64_MAX {
      LadderClimbs(g, 11);
    }
    forall requests | Run(State(Prepared, g), requests).phase.Selected?
      ensures g + 11 <= U64_MAX
    {
      ForwardPhaseNamesItsGeneration(g, requests);
      GenerationStaysInRange(State(Prepared, g), requests);
    }
  }

  lemma {:induction false} LadderClimbs(g: nat, k: nat)
    requires k <= 11 && g + k <= U64_MAX
    ensures Run(State(Prepared, g), Ladder(g, k)) == State(ForwardPhase(k), g + k)
  {
    hide After;
    hide ForwardPhase;
    if k == 0 {
      assert ForwardPhase(0) == Prepared by { FirstRung(); }
    } else {
      hide Run;
      LadderClimbs(g, k - 1);
      RungIsLegal(g, k);
      RunSnocRequest(State(Prepared, g), Ladder(g, k - 1), Transition(g + k - 1, ForwardPhase(k)));
    }
  }

  lemma FirstRung()
    ensures ForwardPhase(0) == Prepared
  {
  }

  lemma RungIsLegal(g: nat, k: nat)
    requires 0 < k <= 11 && g + k <= U64_MAX
    ensures After(State(ForwardPhase(k - 1), g + k - 1), Transition(g + k - 1, ForwardPhase(k))) == State(ForwardPhase(k), g + k)
  {
  }

  lemma RunSnocRequest(s: State, requests: seq<Request>, r: Request)
    ensures Run(s, requests + [r]) == After(Run(s, requests), r)
  {
    hide After;
    assert (requests + [r])[..|requests|] == requests;
  }

  lemma {:induction false} GenerationStaysInRange(s: State, requests: seq<Request>)
    ensures Run(s, requests) == s || Run(s, requests).generation <= U64_MAX
  {
    if requests != [] {
      var front := requests[..|requests| - 1];
      GenerationStaysInRange(s, front);
      ChangeGoesForwardOrBack(Run(s, front), requests[|requests| - 1]);
    }
  }

  /** The least number of changes that lead to RolledBack. */
  function WayBack(p: Phase): nat {
    match p
    case RolledBack => 0
    case RollbackPending => 1
    case FinalizingLoser => 3
    case WinnerSelectionPending => 3
    case FinalizingWinner => 3
    case _ => 2
  }

  /** A rollback is at least that many generations away. */
  lemma {:induction false} RollbackTakesItsChanges(s: State, requests: seq<Request>)
    ensures var t := Run(s, requests);
      t.phase.Selected? || s.generation + WayBack(s.phase) <= t.generation + WayBack(t.phase)
  {
    if requests != [] {
      var front := requests[..|requests| - 1];
      RollbackTakesItsChanges(s, front);
      ChangeGoesForwardOrBack(Run(s, front), requests[|requests| - 1]);
    }
  }

  /** A tournament that is not over can still be rolled back exactly when the generation has room for the way back. */
  lemma RollbackStaysPossible(s: State)
    requires !s.phase.IsTerminal()
    ensures (exists requests :: Run(s, requests).phase.RolledBack?) <==> s.generation + WayBack(s.phase) <= U64_MAX
  {
    if s.generation + WayBack(s.phase) <= U64_MAX {
      WayBackExists(s);
    }
    forall requests | Run(s, requests).phase.RolledBack?
      ensures s.generation + WayBack(s.phase) <= U64_MAX
    {
      RollbackTakesItsChanges(s, requests);
      GenerationStaysInRange(s, requests);
    }
  }

  lemma {:induction false} WayBackExists(s: State)
    requires !s.phase.Selected? && s.generation + WayBack(s.phase) <= U64_MAX
    ensures exists requests :: Run(s, requests).phase.RolledBack?
    decreases WayBack(s.phase)
  {
    if s.phase.RolledBack? {
      assert Run(s, []) == s;
    } else {
      var next := if WayBack(s.phase) == 1 then RolledBack else if WayBack(s.phase) == 2 then RollbackPending else RollbackRequired;
      var r := Transition(s.generation, next);
      var t := After(s, r);
      WayBackExists(t);
      var rest :| Run(t, rest).phase.RolledBack?;
      RunFromSecond(s, r, rest);
      assert Run(s, [r] + rest).phase.RolledBack?;
    }
  }

  lemma {:induction false} RunFromSecond(s: State, r: Request, rest: seq<Request>)
    ensures Run(s, [r] + rest) == Run(After(s, r), rest)
  {
    var all := [r] + rest;
    if rest == [] {
      assert all[..0] == [];
    } else {
      RunFromSecond(s, r, rest[..|rest| - 1]);
      assert all[..|all| - 1] == [r] + rest[..|rest| - 1];
    }
  }
}

/** The scoring of two candidates. */
module Score {
  import opened Common

  const CANDIDATE_COUNT: nat := 2
  const MAX_OUTPUT_BYTES: nat := 64 * 1024 * 1024

  datatype Candidate = Candidate(
    inputIndex: nat, exitSuccess: Option<bool>, elapsed: Option<nat>, output: Option<nat>,
    quiescent: bool, overflowed: bool)
  {
    predicate IsEligible() {
      && inputIndex < CANDIDATE_COUNT
      && exitSuccess.Some?
      && elapsed.Some?
      && output.Some? && output.value <= MAX_OUTPUT_BYTES
      && quiescent
      && !overflowed
    }
  }

  datatype Ordering = Less | Equal | Greater
  {
    function Then(other: Ordering): Ordering {
      if Equal? then other else this
    }
  }

  datatype Decision = Choose(index: nat) | Rollback

  function CompareNat(a: nat, b: nat): Ordering {
    if a < b then Less else if a == b then Equal else Greater
  }

  function CompareBool(a: bool, b: bool): Ordering {
    if a == b then Equal else if b then Less else Greater
  }

  /** `compare_candidates`. */
  function Compare(left: Candidate, right: Candidate): Option<Ordering> {
    if !left.IsEligible() && !right.IsEligible() then None
    else if !right.IsEligible() then Some(Greater)
    else if !left.IsEligible() then Some(Less)
    else Some(CompareBool(left.exitSuccess.value, right.exitSuccess.value)
      .Then(CompareNat(right.elapsed.value, left.elapsed.value))
      .Then(CompareNat(right.output.value, left.output.value))
      .Then(CompareNat(right.inputIndex, left.inputIndex)))
  }

  /** `score_candidates`. */
  function ScoreCandidates(a: Candidate, b: Candidate): Decision {
    if a.inputIndex == b.inputIndex || a.inputIndex >= CANDIDATE_COUNT || b.inputIndex >= CANDIDATE_COUNT
    then Rollback
    else
      match Compare(a, b)
      case None => Rollback
      case Some(Less) => Choose(b.inputIndex)
      case Some(_) => Choose(a.inputIndex)
  }

  /** What it means that one eligible candidate beats another, tier by tier. */
  predicate Beats(a: Candidate, b: Candidate)
    requires a.IsEligible() && b.IsEligible()
  {
    var x, y := Merit(a), Merit(b);
    exists k | 0 <= k < 4 :: x[k] < y[k] && x[..k] == y[..k]
  }

  /** The tiers, each with the better value lower. */
  function Merit(c: Candidate): (m: seq<int>)
    requires c.IsEligible()
    ensures |m| == 4
  {
    [if c.exitSuccess.value then 0 else 1, c.elapsed.value, c.output.value, c.inputIndex]
  }

  lemma BeatsByTiers(a: Candidate, b: Candidate)
    requires a.IsEligible() && b.IsEligible()
    ensures Beats(a, b) <==> Compare(a, b) == Some(Greater)
  {
    var x, y := Merit(a), Merit(b);
    if Compare(a, b) == Some(Greater) {
      var k := if x[0] != y[0] then 0 else if x[1] != y[1] then 1 else if x[2] != y[2] then 2 else 3;
      assert x[k] < y[k] && x[..k] == y[..k];
    }
    if Beats(a, b) {
      var k :| 0 <= k < 4 && x[k] < y[k] && x[..k] == y[..k];
      forall i | 0 <= i < k
        ensures x[i] == y[i]
      {
        assert x[..k][i] == y[..k][i];
      }
      assert k > 0 ==> x[0] == y[0];
      assert k > 1 ==> x[1] == y[1];
      assert k > 2 ==> x[2] == y[2];
    }
  }

  lemma {:induction false} OrderIsReversible(a: Candidate, b: Candidate)
    ensures Compare(a, b).None? <==> Compare(b, a).None?
    ensures Compare(a, b) == Some(Less) <==> Compare(b, a) == Some(Greater)
  {
  }

  /** Some candidate is chosen exactly when the indices are the two expected ones and one candidate is eligible. */
  predicate Decidable(a: Candidate, b: Candidate) {
    && a.inputIndex < CANDIDATE_COUNT && b.inputIndex < CANDIDATE_COUNT && a.inputIndex != b.inputIndex
    && (a.IsEligible() || b.IsEligible())
  }

  /** A candidate that ended, was timed, stayed within 64 MiB of output and left nothing running. */
  predicate Qualified(c: Candidate) {
    && c.exitSuccess != None && c.elapsed != None && c.output != None && c.output.value <= 67_108_864
    && c.quiescent && !c.overflowed
  }

  lemma EligibleExactly(c: Candidate)
    ensures c.IsEligible() <==> c.inputIndex <= 1 && Qualified(c)
  {
  }

  /** The score does not depend on the order of the candidates, and it picks exactly the candidate that is
      eligible and unbeaten; otherwise it rolls back. */
  lemma ScoreIsTheUnbeatenCandidate(a: Candidate, b: Candidate)
    ensures ScoreCandidates(a, b) == ScoreCandidates(b, a)
    ensures ScoreCandidates(a, b).Choose? <==> Decidable(a, b)
    ensures Decidable(a, b) ==>
      (ScoreCandidates(a, b) == Choose(a.inputIndex) <==>
        a.IsEligible() && (b.IsEligible() ==> Beats(a, b) && !Beats(b, a)))
    ensures Decidable(a, b) ==>
      ScoreCandidates(a, b) == Choose(a.inputIndex) || ScoreCandidates(a, b) == Choose(b.inputIndex)
    ensures a.inputIndex <= 1 && b.inputIndex <= 1 && a.inputIndex != b.inputIndex && (Qualified(a) || Qualified(b)) <==>
      ScoreCandidates(a, b).Choose?
    ensures ScoreCandidates(a, b) == Choose(a.inputIndex) ==> Qualified(a)
    ensures ScoreCandidates(a, b) == Choose(b.inputIndex) ==> Qualified(b)
  {
    OrderIsReversible(a, b);
    if a.IsEligible() && b.IsEligible() {
      BeatsByTiers(a, b);
      BeatsByTiers(b, a);
    }
  }

  /** The order behind the score is transitive. */
  lemma BeatsIsTransitive(a: Candidate, b: Candidate, c: Candidate)
    requires a.IsEligible() && b.IsEligible() && c.IsEligible()
    requires Beats(a, b) && Beats(b, c)
    ensures Beats(a, c)
  {
    BeatsByTiers(a, b);
    BeatsByTiers(b, c);
    BeatsByTiers(a, c);
  }
}
