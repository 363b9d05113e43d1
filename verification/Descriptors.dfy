/**
 The descriptor table of the gate: the remapping before it starts, and the relocation and
 installation of the authorities it receives with COMMIT. The kernel's choices (which free
 number a duplicate gets, whether a call is granted) are parameters.
 */
module Descriptors {
  import opened Common

  const CONTROL: nat := 3
  const GUARD: nat := 4
  const PLACEMENT: nat := 5
  const FIRST_FIXED: nat := 10
  const LAST_FIXED: nat := 14

  /** An open descriptor: the file behind it and its close-on-exec flag. */
  datatype Desc = Desc(file: nat, cloexec: bool)

  type Table = map<nat, Desc>

  predicate Fixed(fd: nat) {
    FIRST_FIXED <= fd <= LAST_FIXED
  }

  /** What a program started by exec finds open. */
  function AfterExec(m: Table): Table {
    map fd | fd in m && !m[fd].cloexec :: m[fd]
  }

  // ---- Remapping before the gate starts ----

  /** The answers of the kernel to one remapping. */
  datatype RemapAnswers = RemapAnswers(
    control: Option<nat>, guard: Option<nat>, placement: Option<nat>,
    ontoControl: bool, ontoGuard: bool, ontoPlacement: bool)

  predicate Open(m: Table, fd: Option<nat>) {
    fd.Some? ==> fd.value in m
  }

  /** The table that remapping is for: three fixed numbers replaced, everything else as before. */
  function Remapped(m: Table, control: nat, guard: nat, placement: Option<nat>): Table
    requires control in m && guard in m && Open(m, placement)
  {
    var two := m[CONTROL := Desc(m[control].file, false)][GUARD := Desc(m[guard].file, false)];
    if placement.Some? then two[PLACEMENT := Desc(m[placement.value].file, false)] else two - {PLACEMENT}
  }

  /** A number the kernel may hand out for a duplicate: free and at least `min`. */
  predicate Available(m: Table, min: nat, answer: Option<nat>) {
    answer.Some? && answer.value >= min && answer.value !in m
  }

  /** The kernel grants every copy. */
  predicate Duplicable(m: Table, k: RemapAnswers, placed: bool) {
    && Available(m, PLACEMENT + 1, k.control)
    && Available(m, PLACEMENT + 1, k.guard) && k.guard != k.control
    && (placed ==> Available(m, PLACEMENT + 1, k.placement) && k.placement != k.control && k.placement != k.guard)
  }

  /** The kernel refuses nothing. */
  predicate Granted(m: Table, k: RemapAnswers, placed: bool) {
    && Duplicable(m, k, placed)
    && k.ontoControl && k.ontoGuard && (placed ==> k.ontoPlacement)
  }

  /** Where the copies are. */
  datatype Copies = Copies(control: nat, guard: nat, placement: Option<nat>)
  {
    ghost function Numbers(): set<nat> {
      {control, guard} + if placement.Some? then {placement.value} else {}
    }
  }

  ghost predicate CopiesOf(was: Table, control: nat, guard: nat, placement: Option<nat>, now: Table, c: Copies)
    requires control in was && guard in was && Open(was, placement)
  {
    && now - c.Numbers() == was
    && (forall fd :: fd in c.Numbers() ==> fd in now && fd !in was && fd > PLACEMENT)
    && now[c.control].file == was[control].file
    && now[c.guard].file == was[guard].file
    && (c.placement.Some? <==> placement.Some?)
    && (placement.Some? ==> now[c.placement.value].file == was[placement.value].file)
  }

  lemma WithoutCopies(was: Table, copied: Table, onto: Table, numbers: set<nat>)
    requires copied - numbers == was
    requires onto - {CONTROL, GUARD, PLACEMENT} == copied - {CONTROL, GUARD, PLACEMENT}
    ensures onto - numbers - {CONTROL, GUARD, PLACEMENT} == was - {CONTROL, GUARD, PLACEMENT}
  {
    var three := {CONTROL, GUARD, PLACEMENT};
    assert onto - numbers - three == onto - three - numbers;
    assert copied - three - numbers == copied - numbers - three;
  }

  lemma RemappedByCopies(was: Table, control: nat, guard: nat, placement: Option<nat>, copied: Table, c: Copies)
    requires control in was && guard in was && Open(was, placement)
    requires CopiesOf(was, control, guard, placement, copied, c)
    ensures var two := copied[CONTROL := Desc(copied[c.control].file, false)][GUARD := Desc(copied[c.guard].file, false)];
      var three := if placement.Some? then two[PLACEMENT := Desc(copied[c.placement.value].file, false)] else two - {PLACEMENT};
      three - c.Numbers() == Remapped(was, control, guard, placement)
  {
    var numbers := c.Numbers();
    assert forall fd :: fd in was <==> fd in copied && fd !in numbers;
    assert forall fd :: fd in was ==> was[fd] == copied[fd];
  }

  // ---- Received authorities ----

  /** The descriptors of the authorities, by role; a role that was not sent has none. */
  type Held = seq<Option<nat>>

  predicate Distinct(held: Held) {
    forall i, j :: 0 <= i < j < |held| && held[i].Some? ==> held[i] != held[j]
  }

  /** Every authority is open under its number and is still the file it was. */
  predicate Carries(m: Table, held: Held, files: seq<nat>) {
    |held| == |files| && forall i :: 0 <= i < |held| && held[i].Some? ==> held[i].value in m && m[held[i].value].file == files[i]
  }

  /** The descriptors that belong to nobody among the authorities. */
  function Others(m: Table, held: Held): Table {
    map fd | fd in m && Some(fd) !in held :: m[fd]
  }

  function OutsideFixed(m: Table): Table {
    map fd | fd in m && !Fixed(fd) :: m[fd]
  }

  /** The kernel has a different free number for every authority that may have to move. */
  predicate AllAvailable(m: Table, answers: seq<Option<nat>>) {
    && (forall i :: 0 <= i < |answers| ==> Available(m, LAST_FIXED + 1, answers[i]))
    && (forall i, j :: 0 <= i < j < |answers| ==> answers[i] != answers[j])
  }

  /** An installation that is due is valid and granted. */
  predicate Due(held: Held, valid: seq<bool>, granted: seq<bool>, i: nat)
    requires i < |held| == |valid| == |granted|
  {
    held[i].Some? ==> valid[i] && granted[i]
  }

  /** Every number the kernel hands out is new, and every installation that is due goes through. */
  ghost predicate Favourable(kept: Table, held: Held, answers: seq<Option<nat>>, valid: seq<bool>, granted: seq<bool>)
    requires |held| == |valid| == |granted| == 6
  {
    && AllAvailable(kept, answers)
    && (forall i :: 0 <= i < |answers| ==> answers[i] !in held)
    && (forall i :: 1 <= i < 6 ==> Due(held, valid, granted, i))
  }

  class FdTable {
    var fds: Table

    constructor (fds: Table)
      ensures this.fds == fds
    {
      this.fds := fds;
    }

    // ---- System calls ----

    method Close(fd: nat)
      modifies this
      ensures fds == old(fds) - {fd}
    {
      fds := fds - {fd};
    }

    /** F_DUPFD_CLOEXEC. */
    method DupFrom(fd: nat, min: nat, answer: Option<nat>) returns (r: Option<nat>)
      modifies this
      ensures r.Some? <==> fd in old(fds) && Available(old(fds), min, answer)
      ensures r.Some? ==> r == answer && fds == old(fds)[r.value := Desc(old(fds)[fd].file, true)]
      ensures r.None? ==> fds == old(fds)
    {
      if fd !in fds || !Available(fds, min, answer) {
        return None;
      }
      fds := fds[answer.value := Desc(fds[fd].file, true)];
      r := answer;
    }

    /** dup2, or dup3 without flags, onto another number. */
    method DupOnto(fd: nat, onto: nat, granted: bool) returns (ok: bool)
      requires fd != onto
      modifies this
      ensures ok <==> granted && fd in old(fds)
      ensures fds == if ok then old(fds)[onto := Desc(old(fds)[fd].file, false)] else old(fds)
    {
      ok := granted && fd in fds;
      if ok {
        fds := fds[onto := Desc(fds[fd].file, false)];
      }
    }

    method SetCloexec(fd: nat, value: bool) returns (ok: bool)
      modifies this
      ensures ok <==> fd in old(fds)
      ensures fds == if ok then old(fds)[fd := Desc(old(fds)[fd].file, value)] else old(fds)
    {
      ok := fd in fds;
      if ok {
        fds := fds[fd := fds[fd].(cloexec := value)];
      }
    }

    // ---- `remap_gate_fds` ----

    /** For any open descriptors, whatever their numbers: success leaves exactly the intended table, failure touches
        nothing but the three fixed numbers, and only a refusal of the kernel makes it fail. */
    method RemapGateFds(control: nat, guard: nat, placement: Option<nat>, k: RemapAnswers) returns (ok: bool)
      requires control in fds && guard in fds && Open(fds, placement)
      modifies this
      ensures ok <==> Granted(old(fds), k, placement.Some?)
      ensures ok ==> fds == Remapped(old(fds), control, guard, placement)
      ensures !ok ==> fds - {CONTROL, GUARD, PLACEMENT} == old(fds) - {CONTROL, GUARD, PLACEMENT}
    {
      ghost var was := fds;
      var r := Duplicate(control, guard, placement, k);
      if r.None? {
        return false;
      }
      var Copies(c, g, p) := r.value;
      ghost var copied := fds;
      ok := DupThree(c, g, p, k);
      ghost var onto := fds;
      if ok && p.None? {
        Close(PLACEMENT);
      }
      CloseCopies(r.value);
      if ok {
        RemappedByCopies(was, control, guard, placement, copied, r.value);
      } else {
        WithoutCopies(was, copied, onto, r.value.Numbers());
      }
    }

    /** The three copies, all at free numbers above the fixed ones; on failure those already made are closed again. */
    method Duplicate(control: nat, guard: nat, placement: Option<nat>, k: RemapAnswers) returns (r: Option<Copies>)
      requires control in fds && guard in fds && Open(fds, placement)
      modifies this
      ensures r.Some? <==> Duplicable(old(fds), k, placement.Some?)
      ensures r.Some? ==> CopiesOf(old(fds), control, guard, placement, fds, r.value)
      ensures r.None? ==> fds == old(fds)
    {
      ghost var was := fds;
      var c := DupFrom(control, PLACEMENT + 1, k.control);
      if c.None? {
        return None;
      }
      var g := DupFrom(guard, PLACEMENT + 1, k.guard);
      if g.None? {
        Close(c.value);
        assert fds == was;
        return None;
      }
      var p: Option<nat> := None;
      if placement.Some? {
        p := DupFrom(placement.value, PLACEMENT + 1, k.placement);
        if p.None? {
          Close(c.value);
          Close(g.value);
          assert fds == was;
          return None;
        }
      }
      r := Some(Copies(c.value, g.value, p));
      assert fds - r.value.Numbers() == was;
    }

    method CloseCopies(copies: Copies)
      modifies this
      ensures fds == old(fds) - copies.Numbers()
    {
      Close(copies.control);
      Close(copies.guard);
      if copies.placement.Some? {
        Close(copies.placement.value);
      }
    }

    /** The copies are all above the fixed numbers, so none is overwritten before its turn. */
    method DupThree(c: nat, g: nat, p: Option<nat>, k: RemapAnswers) returns (ok: bool)
      requires c > PLACEMENT && g > PLACEMENT && c in fds && g in fds
      requires p.Some? ==> p.value > PLACEMENT && p.value in fds
      modifies this
      ensures ok <==> k.ontoControl && k.ontoGuard && (p.Some? ==> k.ontoPlacement)
      ensures fds - {CONTROL, GUARD, PLACEMENT} == old(fds) - {CONTROL, GUARD, PLACEMENT}
      ensures ok ==>
        var two := old(fds)[CONTROL := Desc(old(fds)[c].file, false)][GUARD := Desc(old(fds)[g].file, false)];
        fds == if p.Some? then two[PLACEMENT := Desc(old(fds)[p.value].file, false)] else two
    {
      ok := DupOnto(c, CONTROL, k.ontoControl);
      if ok {
        ok := DupOnto(g, GUARD, k.ontoGuard);
      }
      if ok && p.Some? {
        ok := DupOnto(p.value, PLACEMENT, k.ontoPlacement);
      }
    }

    // ---- `relocate_received_commit_authorities` ----

    /** Closing every authority that is still held, as an error return does. */
    method DropAll(held: Held)
      modifies this
      ensures fds == Others(old(fds), held)
    {
      fds := Others(fds, held);
    }

    /** `move_file_away_from_fixed_auxiliary_fds` for the authority at place `i`. */
    method MoveAway(held: Held, i: nat, answer: Option<nat>, ghost files: seq<nat>) returns (r: Option<Held>)
      requires i < |held| && Distinct(held) && Carries(fds, held, files)
      modifies this
      ensures r.Some? ==>
        && |r.value| == |held| && Distinct(r.value) && Carries(fds, r.value, files)
        && Others(fds, r.value) == Others(old(fds), held)
        && (r.value[i].Some? <==> held[i].Some?)
        && (r.value[i].Some? ==> !Fixed(r.value[i].value))
        && (forall j :: 0 <= j < |held| && j != i ==> r.value[j] == held[j])
        && (forall j :: 0 <= j < |held| && held[j].Some? && (j != i || !Fixed(held[j].value)) ==>
              r.value[j] == held[j] && fds[held[j].value] == old(fds)[held[j].value])
        && (held[i].Some? && Fixed(held[i].value) ==> fds[r.value[i].value].cloexec)
      ensures r.None? ==> fds == Others(old(fds), held)
      ensures forall fd :: fd in fds ==> fd in old(fds) || Some(fd) == answer
      ensures r.None? <==> held[i].Some? && Fixed(held[i].value) && !Available(old(fds), LAST_FIXED + 1, answer)
    {
      if held[i].None? || !Fixed(held[i].value) {
        return Some(held);
      }
      var fd := held[i].value;
      var d := DupFrom(fd, LAST_FIXED + 1, answer);
      if d.None? {
        DropAll(held);
        return None;
      }
      Close(fd);
      var moved := held[i := d];
      assert forall x :: Some(x) in moved <==> x == d.value || (Some(x) in held && x != fd) by {
        Replaced(held, i, d.value);
      }
      r := Some(moved);
    }

    /** The next authority leaves the fixed range. */
    method MoveNext(ghost was: Table, ghost before: Held, held: Held, n: nat, answer: Option<nat>, ghost files: seq<nat>)
      returns (r: Option<Held>)
      requires n < |held| && Relocating(was, before, fds, held, files, n)
      modifies this
      ensures r.Some? ==> |r.value| == |held| && Relocating(was, before, fds, r.value, files, n + 1)
      ensures r.None? ==> fds == Others(was, before)
      ensures r.None? ==> !Available(old(fds), LAST_FIXED + 1, answer)
      ensures forall fd :: fd in fds ==> fd in old(fds) || Some(fd) == answer
    {
      r := MoveAway(held, n, answer, files);
    }

    /** Every received authority leaves the fixed range, keeping its file, before any is installed; a failure closes
        them all. Nothing else changes. */
    method Relocate(held: Held, answers: seq<Option<nat>>, ghost files: seq<nat>) returns (r: Option<Held>)
      requires |held| == 6 && |answers| == 6 && Distinct(held) && Carries(fds, held, files)
      modifies this
      ensures r.Some? ==> |r.value| == 6 && Relocating(old(fds), held, fds, r.value, files, 6)
      ensures r.None? ==> fds == Others(old(fds), held)
      ensures AllAvailable(old(fds), answers) ==> r.Some?
    {
      ghost var was := fds;
      assert Relocating(was, held, fds, held, files, 0);
      hide Relocating;
      r := MoveNext(was, held, held, 0, answers[0], files);
      if r.None? { return; }
      r := MoveNext(was, held, r.value, 1, answers[1], files);
      if r.None? { return; }
      r := MoveNext(was, held, r.value, 2, answers[2], files);
      if r.None? { return; }
      r := MoveNext(was, held, r.value, 3, answers[3], files);
      if r.None? { return; }
      r := MoveNext(was, held, r.value, 4, answers[4], files);
      if r.None? { return; }
      r := MoveNext(was, held, r.value, 5, answers[5], files);
    }

    // ---- Installation ----

    /** `install_sync_pipe`, `install_pinned_runner`, `install_pinned_directory`, `install_pinned_control_socket`. */
    method Install(fd: nat, target: nat, valid: bool, granted: bool) returns (ok: bool)
      requires fd in fds
      modifies this
      ensures ok <==> valid && (fd != target ==> granted)
      ensures fds == if ok then (old(fds) - {fd})[target := Desc(old(fds)[fd].file, false)] else old(fds) - {fd}
    {
      if !valid {
        Close(fd);
        return false;
      }
      if fd == target {
        ok := SetCloexec(target, false);
        return;
      }
      ok := DupOnto(fd, target, granted);
      Close(fd);
    }

    /** The next installation among the authorities: the others keep their numbers and their files. */
    method InstallNext(ghost was: Table, ghost before: Held, held: Held, n: nat, valid: seq<bool>, granted: seq<bool>, ghost files: seq<nat>)
      returns (r: Option<Held>)
      requires 1 <= n < 6 && |before| == |held| == |valid| == |granted| == 6 && Installing(was, before, fds, held, files, n)
      modifies this
      ensures r.Some? ==> |r.value| == 6 && Installing(was, before, fds, r.value, files, n + 1)
      ensures r.Some? <==> Due(before, valid, granted, n)
    {
      assert held[n] == before[n];
      if held[n].None? {
        return Some(held);
      }
      var target := FIRST_FIXED + n - 1;
      var fd := held[n].value;
      assert Some(target) !in held;
      Replaced(held, n, target);
      var ok := Install(fd, target, valid[n], granted[n]);
      if !ok {
        return None;
      }
      r := Some(held[n := Some(target)]);
      assert OutsideFixed(Others(fds, r.value)) == OutsideFixed(Others(old(fds), held));
    }

    /** The five installations of the gate, in order; they fail exactly when one that is due is refused. */
    method InstallAll(held: Held, valid: seq<bool>, granted: seq<bool>, ghost files: seq<nat>) returns (r: Option<Held>)
      requires |held| == |valid| == |granted| == 6 && Distinct(held) && Carries(fds, held, files)
      requires forall i :: 0 <= i < 6 && held[i].Some? ==> !Fixed(held[i].value)
      modifies this
      ensures r.Some? ==> |r.value| == 6 && Installing(old(fds), held, fds, r.value, files, 6)
      ensures r.Some? <==> forall i :: 1 <= i < 6 ==> Due(held, valid, granted, i)
    {
      ghost var was := fds;
      InstallStart(was, held, files);
      hide Installing;
      hide Due;
      hide Distinct;
      hide Carries;
      hide Fixed;
      hide Others;
      hide OutsideFixed;
      r := InstallNext(was, held, held, 1, valid, granted, files);
      if r.None? { return; }
      r := InstallNext(was, held, r.value, 2, valid, granted, files);
      if r.None? { return; }
      r := InstallNext(was, held, r.value, 3, valid, granted, files);
      if r.None? { return; }
      r := InstallNext(was, held, r.value, 4, valid, granted, files);
      if r.None? { return; }
      r := InstallNext(was, held, r.value, 5, valid, granted, files);
    }

    // ---- The gate from its start to exec ----

    method CloseFixed()
      modifies this
      ensures fds == OutsideFixed(old(fds))
    {
      Close(10);
      Close(11);
      Close(12);
      Close(13);
      Close(14);
    }

    /** SCM_RIGHTS with MSG_CMSG_CLOEXEC: the kernel opens each authority at a number that was free. */
    method Receive(held: Held, files: seq<nat>)
      requires |held| == |files| && Distinct(held)
      requires forall i :: 0 <= i < |held| && held[i].Some? ==> held[i].value !in fds
      modifies this
      ensures Carries(fds, held, files) && Others(fds, held) == old(fds)
      ensures forall i :: 0 <= i < |held| && held[i].Some? ==> fds[held[i].value].cloexec
    {
      ghost var was := fds;
      for n := 0 to |held|
        invariant Carries(fds, held[..n], files[..n])
        invariant forall i :: 0 <= i < n && held[i].Some? ==> held[i].value in fds && fds[held[i].value].cloexec
        invariant forall fd :: fd in fds <==> fd in was || Some(fd) in held[..n]
        invariant forall fd :: fd in was ==> fds[fd] == was[fd]
      {
        if held[n].Some? {
          fds := fds[held[n].value := Desc(files[n], true)];
        }
        assert held[..n + 1] == held[..n] + [held[n]];
      }
      assert held[..|held|] == held && files[..|files|] == files;
    }

    /** The descriptor work of `run_gate`: a started target inherits exactly what the gate inherited, without its own
        channel, its guard and its placement, plus each received authority at its fixed number, plus itself if it is
        a script; and its executable is still open. */
    method RunGate(placed: bool, held: Held, files: seq<nat>, script: bool,
                   answers: seq<Option<nat>>, valid: seq<bool>, granted: seq<bool>)
      returns (target: Option<nat>)
      requires |held| == |files| == |answers| == |valid| == |granted| == 6
      requires CONTROL in fds && GUARD in fds && Distinct(held) && held[0].Some?
      requires forall i :: 0 <= i < 6 && held[i].Some? ==> held[i].value !in Kept(fds, placed)
      modifies this
      ensures target.Some? ==> ReadyForExec(Kept(old(fds), placed), held, files, script, fds, target.value)
      ensures Favourable(Kept(old(fds), placed), held, answers, valid, granted) ==> target.Some?
    {
      CloseFixed();
      if placed {
        Close(PLACEMENT);
      }
      ghost var kept := fds;
      assert kept == Kept(old(fds), placed);
      assert forall fd :: fd in kept ==> !Fixed(fd);
      assert CONTROL in kept && GUARD in kept;
      hide Favourable;
      hide AllAvailable;
      hide Due;
      hide Kept;
      hide Fixed;
      hide Others;
      hide OutsideFixed;
      hide Installing;
      hide Distinct;
      hide ReadyForExec;
      hide InstalledFor;
      Receive(held, files);
      ghost var received := fds;
      if Favourable(kept, held, answers, valid, granted) {
        StillAvailable(kept, received, held, answers, valid, granted);
      }
      var r := Relocate(held, answers, files);
      if r.None? {
        return None;
      }
      if Favourable(kept, held, answers, valid, granted) {
        StillDue(kept, held, r.value, answers, valid, granted);
      }
      target := InstallAndHide(r.value, files, script, valid, granted, kept, received, held);
    }

    /** From relocated authorities to exec: a script target is made inheritable, the others are installed, and the
        gate hides its own two descriptors. */
    method InstallAndHide(moved: Held, files: seq<nat>, script: bool, valid: seq<bool>, granted: seq<bool>,
                          ghost kept: Table, ghost received: Table, ghost held: Held)
      returns (target: Option<nat>)
      requires |held| == |moved| == |valid| == |granted| == 6 && held[0].Some?
      requires Relocating(received, held, fds, moved, files, 6) && Others(received, held) == kept
      requires forall i :: 0 <= i < 6 && held[i].Some? ==> received[held[i].value].cloexec
      requires CONTROL in kept && GUARD in kept && forall fd :: fd in kept ==> !Fixed(fd)
      modifies this
      ensures target.Some? ==> ReadyForExec(kept, held, files, script, fds, target.value)
      ensures (forall i :: 1 <= i < 6 ==> Due(moved, valid, granted, i)) ==> target.Some?
    {
      hide Due;
      hide Fixed;
      hide Others;
      hide OutsideFixed;
      hide Installing;
      hide Distinct;
      hide ReadyForExec;
      hide InstalledFor;
      ghost var relocated := fds;
      assert moved[0].Some? && moved[0].value in relocated;
      var t := moved[0].value;
      if script {
        var _ := SetCloexec(t, false);
      }
      ghost var prepared := fds;
      PreparedForInstall(kept, received, held, relocated, moved, files, t, script, prepared);
      var r := InstallAll(moved, valid, granted, files);
      if r.None? {
        return None;
      }
      ghost var installed := fds;
      InstalledTable(kept, prepared, moved, installed, r.value, files, script);
      assert CONTROL in installed && GUARD in installed by { KeptStaysOpen(kept, moved, files, script, installed, t); }
      var ok := SetCloexec(CONTROL, true);
      ok := SetCloexec(GUARD, true);
      HiddenTable(kept, held, moved, files, script, installed, t, fds);
      target := Some(t);
    }
  }

  lemma StillAvailable(kept: Table, received: Table, held: Held, answers: seq<Option<nat>>, valid: seq<bool>, granted: seq<bool>)
    requires |held| == |valid| == |granted| == 6 && Others(received, held) == kept
    requires Favourable(kept, held, answers, valid, granted)
    ensures AllAvailable(received, answers)
  {
    forall i | 0 <= i < |answers|
      ensures Available(received, LAST_FIXED + 1, answers[i])
    {
      assert Available(kept, LAST_FIXED + 1, answers[i]) && answers[i] !in held;
      var fd := answers[i].value;
      assert answers[i] == Some(fd);
      assert fd in received ==> fd in Others(received, held);
    }
  }

  lemma StillDue(kept: Table, held: Held, moved: Held, answers: seq<Option<nat>>, valid: seq<bool>, granted: seq<bool>)
    requires |held| == |moved| == |valid| == |granted| == 6
    requires Favourable(kept, held, answers, valid, granted)
    requires forall i :: 0 <= i < 6 ==> (moved[i].Some? <==> held[i].Some?)
    ensures forall i :: 1 <= i < 6 ==> Due(moved, valid, granted, i)
  {
    forall i | 1 <= i < 6
      ensures Due(moved, valid, granted, i)
    {
      assert Due(held, valid, granted, i);
    }
  }

  /** Relocation after reception: what was kept is untouched, and nothing is left in the fixed range. */
  lemma PreparedForInstall(kept: Table, received: Table, held: Held, relocated: Table, moved: Held, files: seq<nat>,
                           t: nat, script: bool, prepared: Table)
    requires |held| == |moved| == 6 && Relocating(received, held, relocated, moved, files, 6)
    requires Others(received, held) == kept && (forall fd :: fd in kept ==> !Fixed(fd))
    requires forall i :: 0 <= i < 6 && held[i].Some? ==> held[i].value in received && received[held[i].value].cloexec
    requires held[0].Some? && moved[0] == Some(t) && t in relocated
    requires prepared == if script then relocated[t := Desc(relocated[t].file, false)] else relocated
    ensures Carries(prepared, moved, files) && Others(prepared, moved) == kept
    ensures forall fd :: fd in prepared ==> !Fixed(fd)
    ensures prepared[t] == Desc(files[0], !script)
  {
    assert Some(t) in moved;
    forall fd | fd in prepared
      ensures !Fixed(fd)
    {
      if Some(fd) !in moved {
        assert fd in Others(relocated, moved);
      }
    }
    assert Others(prepared, moved) == Others(relocated, moved);
  }

  /** The table right before the gate hides its own two descriptors. */
  ghost predicate InstalledFor(kept: Table, moved: Held, files: seq<nat>, script: bool, now: Table, t: nat) {
    && |moved| == |files| == 6
    && t !in kept && !Fixed(t) && t in now && now[t] == Desc(files[0], !script)
    && (forall fd :: fd in kept ==> fd in now && now[fd] == kept[fd])
    && (forall i :: 1 <= i < 6 && moved[i].Some? ==> FIRST_FIXED + i - 1 in now && now[FIRST_FIXED + i - 1] == Desc(files[i], false))
    && (forall fd :: fd in now ==> fd in kept || fd == t || (Fixed(fd) && moved[fd - FIRST_FIXED + 1].Some?))
  }

  lemma InstalledTable(kept: Table, prepared: Table, moved: Held, installed: Table, at: Held, files: seq<nat>, script: bool)
    requires |moved| == |at| == 6 && moved[0].Some? && Installing(prepared, moved, installed, at, files, 6)
    requires Others(prepared, moved) == kept && (forall fd :: fd in prepared ==> !Fixed(fd))
    requires prepared[moved[0].value] == Desc(files[0], !script)
    ensures InstalledFor(kept, moved, files, script, installed, moved[0].value)
  {
    var t := moved[0].value;
    assert Some(t) in moved && at[0] == Some(t);
    assert OutsideFixed(Others(prepared, moved)) == kept;
    forall fd | fd in kept
      ensures fd in installed && installed[fd] == kept[fd]
    {
      assert fd in OutsideFixed(Others(installed, at));
    }
    forall fd | fd in installed
      ensures fd in kept || fd == t || (Fixed(fd) && moved[fd - FIRST_FIXED + 1].Some?)
    {
      if Some(fd) in at {
        var i :| 0 <= i < 6 && at[i] == Some(fd);
        assert i > 0 ==> fd == FIRST_FIXED + i - 1;
      } else if !Fixed(fd) {
        assert fd in OutsideFixed(Others(installed, at));
      }
    }
    forall i | 1 <= i < 6 && moved[i].Some?
      ensures FIRST_FIXED + i - 1 in installed && installed[FIRST_FIXED + i - 1] == Desc(files[i], false)
    {
      assert at[i] == Some(FIRST_FIXED + i - 1);
    }
  }

  lemma KeptStaysOpen(kept: Table, moved: Held, files: seq<nat>, script: bool, installed: Table, t: nat)
    requires InstalledFor(kept, moved, files, script, installed, t)
    ensures forall fd :: fd in kept ==> fd in installed
  {
  }

  lemma InstallStart(was: Table, held: Held, files: seq<nat>)
    requires |held| == 6 && Distinct(held) && Carries(was, held, files)
    requires forall i :: 0 <= i < 6 && held[i].Some? ==> !Fixed(held[i].value)
    ensures Installing(was, held, was, held, files, 1)
  {
  }

  lemma HiddenTable(kept: Table, held: Held, moved: Held, files: seq<nat>, script: bool, installed: Table, t: nat, now: Table)
    requires InstalledFor(kept, moved, files, script, installed, t)
    requires |held| == 6 && forall i :: 0 <= i < 6 ==> (held[i].Some? <==> moved[i].Some?)
    requires CONTROL in kept && GUARD in kept
    requires now == installed[CONTROL := Desc(installed[CONTROL].file, true)][GUARD := Desc(installed[GUARD].file, true)]
    ensures ReadyForExec(kept, held, files, script, now, t)
  {
    assert forall i :: 1 <= i < 6 && held[i].Some? ==> Fixed(FIRST_FIXED + i - 1) && FIRST_FIXED + i - 1 in now;
    forall fd: nat
      ensures fd in AfterExec(now) <==>
        || (fd in AfterExec(kept) && fd != CONTROL && fd != GUARD)
        || (Fixed(fd) && held[fd - FIRST_FIXED + 1].Some?)
        || (script && fd == t)
    {
      if Fixed(fd) && held[fd - FIRST_FIXED + 1].Some? {
        assert moved[fd - FIRST_FIXED + 1].Some?;
        assert FIRST_FIXED + (fd - FIRST_FIXED + 1) - 1 == fd;
      }
    }
  }

  /** What the target is started with. */
  ghost predicate ReadyForExec(kept: Table, held: Held, files: seq<nat>, script: bool, now: Table, t: nat) {
    && |held| == |files| == 6
    && t in now && now[t].file == files[0] && !Fixed(t)
    && (forall fd: nat :: fd in AfterExec(now) <==>
          || (fd in AfterExec(kept) && fd != CONTROL && fd != GUARD)
          || (Fixed(fd) && held[fd - FIRST_FIXED + 1].Some?)
          || (script && fd == t))
    && (forall fd :: fd in kept && fd in AfterExec(now) ==> now[fd] == kept[fd])
    && (forall i :: 1 <= i < 6 && held[i].Some? ==> FIRST_FIXED + i - 1 in now && now[FIRST_FIXED + i - 1].file == files[i])
  }

  /** What the gate had before COMMIT arrived and its target may inherit. */
  ghost function Kept(m: Table, placed: bool): Table {
    OutsideFixed(m) - (if placed then {PLACEMENT} else {})
  }

  /** The first `n` authorities have left the fixed range; all are open, distinct and the files they were, a
      close-on-exec flag stays set, and nobody else's descriptor has changed. */
  ghost predicate Relocating(was: Table, before: Held, now: Table, held: Held, files: seq<nat>, n: nat) {
    && |before| == |held| == |files| && n <= |held|
    && Carries(was, before, files)
    && Distinct(held) && Carries(now, held, files)
    && Others(now, held) == Others(was, before)
    && (forall i :: 0 <= i < |held| ==> (held[i].Some? <==> before[i].Some?))
    && (forall i :: 0 <= i < n && held[i].Some? ==> !Fixed(held[i].value))
    && (forall i :: 0 <= i < |held| && held[i].Some? && was[before[i].value].cloexec ==> now[held[i].value].cloexec)
  }

  /** The auxiliary authorities before place `n` are at their fixed numbers and survive exec; the others, the target
      executable among them, are where they were, and nobody else's descriptor outside the fixed range has changed. */
  ghost predicate Installing(was: Table, before: Held, now: Table, held: Held, files: seq<nat>, n: nat) {
    && |before| == |held| == |files| == 6 && 1 <= n <= 6
    && Carries(was, before, files)
    && Distinct(held) && Carries(now, held, files)
    && OutsideFixed(Others(now, held)) == OutsideFixed(Others(was, before))
    && (forall fd :: Fixed(fd) && Some(fd) !in held ==> (fd in now <==> fd in was))
    && (forall i :: 0 <= i < 6 && before[i].Some? ==> !Fixed(before[i].value))
    && (forall i :: 0 <= i < 6 ==>
          held[i] == if 1 <= i < n && before[i].Some? then Some(FIRST_FIXED + i - 1) else before[i])
    && (forall i :: 0 <= i < 6 && held[i].Some? ==>
          now[held[i].value] == if 1 <= i < n then Desc(files[i], false) else was[before[i].value])
  }

  lemma Replaced(held: Held, i: nat, fd: nat)
    requires i < |held| && Distinct(held) && held[i].Some?
    ensures forall x :: Some(x) in held[i := Some(fd)] <==> x == fd || (Some(x) in held && x != held[i].value)
  {
    var moved := held[i := Some(fd)];
    forall x
      ensures Some(x) in moved <==> x == fd || (Some(x) in held && x != held[i].value)
    {
      if Some(x) in held && x != held[i].value {
        var j :| 0 <= j < |held| && held[j] == Some(x);
        assert moved[j] == Some(x);
      }
      if x == fd {
        assert moved[i] == Some(x);
      }
    }
  }
}
