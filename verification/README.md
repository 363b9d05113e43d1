# A verified model of the managed-launch core

This project models the parts of the terminal multiplexer that have to be right under
crashes, interleavings and hostile input, and proves what they promise:

- **Managed-launch registry** (`src/launch_registry.rs`). Durable slot records and their artifact
  bindings (`SlotRecords`), the write that every operation proposes (`SlotEvents`), exactly what
  validators and operations let through (`SlotTransitions`, `SlotExactness`), all runs of one slot
  (`SlotRuns`, `SlotProgress`, `SlotHistory`), all slots with allocation, cleanup and artifact
  calls (`RegistryFiles`, and the imperative `Registry`), the launch protocol between daemon
  threads, gates and cleaners with a crash possible before every step (`LaunchProtocol`,
  `LaunchSafety`, and `LaunchLiveness` for runs that succeed), the v1 to v2 migration with a death
  possible between any two file system operations (`Migration`, `MigrationSafety`, and the program
  in `MigrationReopen`), the reaper (`Reaper`, `ReaperSafety`) and the gate's descriptor table
  (`Descriptors`).
- **Terminal sanitizers** (`src/sanitize.rs`). UTF-8 as in section 4 of RFC 3629 (`Utf8`), the
  resumable capture (`TerminalCapture`) and what it makes of escape sequences (`CaptureEscapes`),
  the status line (`StatusLine`, `StatusEscapes`), its splitter (`StatusSplit`), what it keeps
  (`StatusRoundTrip`), the width-bounded truncation (`StatusTruncate`) and the bytes that come out
  of it (`StatusOutput`). Control sequences and control strings follow sections 5.4 and 5.6 of
  ECMA-48, SGR its section 8.3.117.
- **Wire codecs** (`src/protocol.rs`). Base64 (section 4 of RFC 4648, canonical form of section
  3.5) in `Base64`, bounded argument lists and paths in `Argv`.
- **Tournament** (`src/speculation.rs`). The phase machine (`Tournament`) and the scorer (`Score`).

Code that changes state is modelled by classes and methods whose contracts tie the new state to
a function of the old one; the theorems about whole runs are lemmas about those functions. Step
systems are relations over a state, with the kernel's and the scheduler's choices as parameters
of the steps.

## Results worth knowing

- A whole-record comparison has no ABA problem (`SlotRecords.NoRecordRecurs`), and although
  comparing and renaming are separate steps and some writers never take the registry lock, every
  rename replaces exactly the record it compared (`LaunchSafety.RenameIsCompareAndSwap`).
- A target is executed only under its own durable identity, and a tombstone means that nothing of
  its generation is alive, then or later (`LaunchSafety.ExecOnlyUnderDurableIdentity`,
  `LaunchSafety.TombstoneMeansDead`).
- From every state that any number of deaths can leave behind, an uncontended reopen finishes the
  migration without changing what any slot says (`MigrationReopen.Reopen`).
- Two promises do not hold everywhere, and the exact conditions are proved. Beginning artifact
  creation on a reservation without an owner writes a record that the next read rejects, and this
  is the only operation that can (`SlotEvents.ProposalIsAccepted`, at the input of
  `SlotEvents.OwnerlessCreationHidesTheSlot`). A bound tombstone can return to Vacant exactly when
  no artifact creation was left pending and its quarantine name exists or the private leaf has at
  most 213 bytes, and then it can do so without a reboot (`SlotRuns.TombstoneVacatesExactly`,
  `SlotProgress.TombstoneVacatesOnTheSameBoot`); runs from genesis into both kinds of stuck
  tombstone are `SlotProgress.LongLeafGetsStuck` and `SlotProgress.PendingCreationGetsStuck`.

The table holds the results and the programs; the lemmas they rest on are in the modules.

## Model

| member | source | states |
|---|---|---|
| SlotRecords.TransitionRaisesRank | src/launch_registry.rs:3944-4191 | every accepted non-identical transition raises (generation, state, binding progress) |
| SlotRecords.NoRecordRecurs | src/launch_registry.rs:2871-2885 | a slot file that holds the same record at two moments held it at every moment in between |
| SlotTransitions.ReadableBindingExactly | src/launch_registry.rs:560-656 | the validator of bindings by shapes: identities present, artifacts created and removed one after the other with only the next one pending, retirement exclusive |
| SlotTransitions.ReadableRecordExactly | src/launch_registry.rs:3902-3942 | the validator of records: vacant means empty, occupied means a nonce, a binding needs an owner and the nonce, a quarantine a tombstone |
| SlotTransitions.StateChangesExactly | src/launch_registry.rs:4142-4191 | exactly which replacements that change the state are accepted, by generation, nonce, owner and binding |
| SlotTransitions.BindingUpdateExactly | src/launch_registry.rs:3950-4141 | an update of a sound binding to a readable one is accepted iff it is one step of creation, one of retirement, one link of cleanup, or completion at once |
| SlotTransitions.BindingUpdatesKeepFacts | src/launch_registry.rs:3950-4141 | recorded identities never change and no receipt is taken back |
| SlotTransitions.CreationStepIsAccepted | src/launch_registry.rs:3957-3975 | during an intent every single step of creation is accepted |
| SlotTransitions.BindingAppearsAndDisappears | src/launch_registry.rs:4135-4141 | a binding appears only with an intent and disappears only over a tombstone with completed cleanup |
| SlotEvents.QuarantineFits | src/launch_registry.rs:2960-2965 | the quarantine name of a valid leaf is itself a valid leaf iff the leaf has at most 213 bytes |
| SlotEvents.ProposalIsAccepted | src/launch_registry.rs:3902-4191 | from a sound record, whatever any operation writes is an accepted transition, and the result is readable iff it is not a creation without an owner |
| SlotEvents.OwnerlessCreationHidesTheSlot | src/launch_registry.rs:1873-1918 | a concrete reservation on which beginning creation makes the slot unreadable |
| SlotEvents.ArtifactRetryIsIdempotent | src/launch_registry.rs:2888-3348 | repeating an artifact operation with the same stale binding right after its write became durable succeeds and changes nothing |
| SlotExactness.AcknowledgeExactly | src/launch_registry.rs:2888-2925 | exactly when an acknowledgement writes, what it writes, and exactly when it succeeds without a write |
| SlotExactness.BeginCleanupExactly | src/launch_registry.rs:2928-2977 | the same for the quarantine |
| SlotExactness.BeginRetirementExactly | src/launch_registry.rs:2980-3020 | the same for a retirement: a live slot with every artifact created and no retirement under way accepts it and changes that one flag |
| SlotExactness.FinishRetirementExactly | src/launch_registry.rs:3023-3058 | the same for its receipt |
| SlotExactness.BeginUnlinkExactly | src/launch_registry.rs:3108-3155 | the same for an unlink intent: only for the first artifact still there, one at a time |
| SlotExactness.FinishUnlinkExactly | src/launch_registry.rs:3158-3226 | the same for a receipt: only for the unlink that is pending, and only its artifact counts as removed |
| SlotExactness.FinishCleanupExactly | src/launch_registry.rs:3061-3105 | the same for completion |
| SlotExactness.OldBootAbsenceExactly | src/launch_registry.rs:3228-3291 | the same for absence after a reboot |
| SlotExactness.NeverCreatedAbsenceExactly | src/launch_registry.rs:3294-3348 | the same for absence of a directory that was never created |
| SlotExactness.CreationBeginsExactly | src/launch_registry.rs:1873-1918 | exactly when creation begins, and every field of the fresh binding |
| SlotExactness.CreationAdvancesExactly | src/launch_registry.rs:1920-2130 | for each further update exactly when it writes, the one field it fills with its argument and the flag it sets or clears |
| SlotExactness.LifeExactly | src/launch_registry.rs:2782-3543 | exactly when issue, recycling, promotion, mark and tombstone write, and every field written |
| SlotExactness.QuarantineNameSpells | src/launch_registry.rs:2960-2964 | the quarantine name is a dot, the leaf, `.cleanup-` and the 32 hexadecimal digits of the nonce |
| SlotHistory.BindingsAreTraced | src/launch_registry.rs:1873-2130 | in every run whatever a binding names was the argument of the update of that occupancy that recorded it |
| SlotHistory.TombstoneIsKeptForADay | src/launch_registry.rs:2774-2789 | in every run a slot entombed at t is vacant or reused only after a recycling at t + 86400 or later |
| SlotRuns.ArtifactWriteAdvancesChain | src/launch_registry.rs:3061-3348 | an artifact write takes exactly the next link of quarantine, intent, receipt; or completes by one of three routes; or is a socket retirement |
| SlotRuns.RunInvariant | src/launch_registry.rs:2888-3348 | in every run the record is sound and its cleanup flags are explained by the log |
| SlotRuns.CompletionHasARoute | src/launch_registry.rs:3061-3348 | a completed cleanup comes from the ordered receipts, from old-boot absence or from never-created absence |
| SlotRuns.OnlyAcknowledgeUnbinds | src/launch_registry.rs:2888-2925 | only an acknowledgement over a tombstone with completed cleanup removes a binding |
| SlotRuns.BoundSlotVacatesOnlyAfterCleanup | src/launch_registry.rs:2774-2789 | in every run a slot that got a binding becomes Vacant only after such an acknowledgement |
| SlotRuns.LongLeafNeverVacates | src/launch_registry.rs:712-724 | a binding with a leaf of more than 213 bytes is never quarantined and its slot never becomes Vacant |
| SlotRuns.TombstoneVacatesExactly | src/launch_registry.rs:2774-2789 | a bound tombstone can become Vacant by some operations (a reboot allowed) iff no creation is pending and the quarantine name exists or fits |
| SlotProgress.LongLeafGetsStuck | src/launch_registry.rs:1873-1918 | from genesis, a reservation with a leaf of 214 bytes that is given up ends in a tombstone that no operation ever empties |
| SlotProgress.PendingCreationGetsStuck | src/launch_registry.rs:1920-1946 | from genesis, a reservation given up between the intent and the receipt of its runner ends in such a tombstone too |
| SlotProgress.TombstoneVacatesOnTheSameBoot | src/launch_registry.rs:2928-3226 | a bound tombstone can become Vacant without any proof of absence, by the missing receipts, acknowledgement and recycling, iff it is cleanable |
| SlotProgress.LateRetryChangesNothing | src/launch_registry.rs:2888-3348 | once an artifact operation has written, repeating it with the same key and stale binding at any later moment of the run leaves the record alone |
| RegistryFiles.ScanPrefixIsExact | src/launch_registry.rs:2758-2801 | the allocation scan reports a clash iff a readable slot carries the owner, counts unreadable slots, and selects the first free slot |
| RegistryFiles.AllocationSucceedsExactly | src/launch_registry.rs:2748-2851 | an allocation takes slot i iff i is the first vacant or recyclable slot, its generation is not exhausted, and, for an owned launch, every slot is readable and none has the owner |
| RegistryFiles.AllocationIssuesOneKey | src/launch_registry.rs:2758-2841 | an allocation raises one generation by one and keeps every other occupancy, or issues nothing |
| RegistryFiles.OwnersStayUnique | src/launch_registry.rs:2748-2808 | in every run, with slots hidden and restored at any time, no two slots carry the same owner |
| RegistryFiles.KeyIssuedAtMostOnce | src/launch_registry.rs:2748-2851 | two issues of a slot have different generations |
| RegistryFiles.SupersededKeyChangesNothing | src/launch_registry.rs:2888-3521 | a call that carries an earlier generation changes nothing, then or later |
| Registry.Registry.constructor | src/launch_registry.rs:2208-2269 | genesis: every slot vacant at generation 0, sound, owners unique |
| Registry.Registry.ReadSlot | src/launch_registry.rs:2853-2862 | a read succeeds iff the file is there and the record validates |
| Registry.Registry.ReplaceSlot | src/launch_registry.rs:2871-2885 | writes iff the transition is accepted and the file still holds the expected record; reports success iff the result reads back |
| Registry.Registry.ReadRegistration | src/launch_registry.rs:3370-3376 | a sidecar is readable iff it is there and names its own slot |
| Registry.Registry.ReplaceRegistration | src/launch_registry.rs:3378-3388 | a sidecar is written iff it agrees with itself, and nothing else changes |
| Registry.Registry.ScanSlots | src/launch_registry.rs:2758-2801 | the scan loop computes the specified scan |
| Registry.Registry.AllocateIntent | src/launch_registry.rs:2748-2851 | the files and the sidecar after allocation; success iff a slot is issued and its guard is free; a busy guard is reported with the intent durable; each error is explained by the files found |
| Registry.Registry.IssueSlot | src/launch_registry.rs:2815-2841 | the sidecar is reset and the selected slot becomes the intent of the next generation, or the generation is exhausted |
| Registry.Registry.ReconcileBusyIntent | src/launch_registry.rs:3426-3457 | behind a busy guard an intent is live iff its own registration is in the sidecar and that process is there |
| Registry.Registry.CleanupLaunched | src/launch_registry.rs:3488-3520 | the record on file afterwards, field by field: buried at the present time iff its process is proved dead, otherwise marked; a failed kill or wait is an error |
| Registry.Registry.CleanupSlot | src/launch_registry.rs:3460-3521 | the files and the report after cleanup of a key: tombstone iff one is on file with the right time and identity, live iff the sidecar registers this very intent and the process is there, each code of uncertainty by its evidence |
| Registry.Registry.Bury | src/launch_registry.rs:3523-3543 | the tombstone carries the time, the nonce and the identity of the record buried, keeps everything else, and is written whenever that record is on file |
| Registry.Registry.ArtifactOperation | src/launch_registry.rs:2888-3348 | the files after an artifact operation; the returned binding is the one on file; on a sound record it is refused iff the operation proposes nothing |
| Registry.Reservation.Update | src/launch_registry.rs:1873-2130 | succeeds iff the named fields allow it and there is an owner; record and file move together and differ in exactly the named field; creation without an owner makes the slot unreadable |
| Registry.Reservation.RecordIdentity | src/launch_registry.rs:3391-3423 | promotes iff the registration is for this intent and is the one in the sidecar; everything else is kept, and the result reads back |
| LaunchSafety.RenamePinsNobodyElse | src/launch_registry.rs:2871-2885 | while one thread stands between comparison and rename, no other position depends on the old record |
| LaunchSafety.UnconfirmedKeepsInv | src/launch_registry.rs:1915-1916 | a reservation update that reports an error before or after its rename, and lives on with its old record, keeps the invariant |
| LaunchSafety.NextKeepsInv | src/launch_registry.rs:4614-4921 | every step of the whole system, crashes included, keeps the invariant |
| LaunchSafety.RunInvariant | src/launch_registry.rs:4614-4921 | the invariant holds in every reachable state |
| LaunchSafety.RenameIsCompareAndSwap | src/launch_registry.rs:2871-2885 | in every run the file holds the compared record at the moment of every rename, confirmed or not, so no update is lost |
| LaunchSafety.DiskHistoryIsRanked | src/launch_registry.rs:2871-2885 | along every run the slot file only changes upwards in rank |
| LaunchSafety.ExecOnlyUnderDurableIdentity | src/launch_registry.rs:5733-5813 | in every run a gate executes only while the file carries its exact identity for its generation |
| LaunchSafety.TombstoneMeansDead | src/launch_registry.rs:3426-3543 | once a generation is a tombstone, no gate or target of it is alive, then or later |
| LaunchLiveness.LaunchCanSucceed | src/launch_registry.rs:4614-4921 | from every initial state with a generation to spare, some run executes the target of the next generation |
| LaunchLiveness.LaunchCanBeCleanedUp | src/launch_registry.rs:3460-3543 | every launched generation can be brought to its tombstone |
| MigrationSafety.NextKeepsInv | src/launch_registry.rs:2510-2745 | every step, deaths and other writers included, keeps the invariant |
| MigrationSafety.RunInvariant | src/launch_registry.rs:2510-2745 | the invariant holds in every reachable state |
| MigrationSafety.MigrationKeepsEverySlot | src/launch_registry.rs:2510-2745 | between two moments without other writers, every slot file is the same, or the v2 file carries slot, generation, owner and state of the v1 file and no binding, whatever died in between |
| MigrationSafety.NeverMixedNorAmbiguous | src/launch_registry.rs:2405-2471 | the active generation is never a mix, there is never more than one work tree, and the marker means v2 |
| MigrationSafety.MatchesExactly | src/launch_registry.rs:2487-2508 | two generations agree iff they have the same slots, one all v1 and one all v2, and every v2 file carries its v1 file field by field |
| MigrationSafety.ReadyCheckIsSound | src/launch_registry.rs:2286-2317 | marker seen first and no tree seen later means final from then on, with anything in between |
| MigrationSafety.FinalMigrationChangesNothing | src/launch_registry.rs:2548-2603 | on a final registry a full migration changes nothing |
| MigrationReopen.SweepTree | src/launch_registry.rs:2372-2403 | deletes exactly the quarantined tree |
| MigrationReopen.RetireStagedTree | src/launch_registry.rs:2473-2485 | retires exactly the staged tree |
| MigrationReopen.ReclaimWork | src/launch_registry.rs:2319-2370 | reclaims interrupted work and reaches the inspection |
| MigrationReopen.FillBuild | src/launch_registry.rs:2660-2683 | writes a v2 file with every field of each v1 file and publishes them as staging |
| MigrationReopen.ExchangeAndVerify | src/launch_registry.rs:2688-2712 | exchanges the generations, reads back and finishes |
| MigrationReopen.MarkAndRetire | src/launch_registry.rs:2716-2731 | publishes the marker and retires the old generation |
| MigrationReopen.FinishFromInspection | src/launch_registry.rs:2548-2714 | finishes from every crash shape |
| MigrationReopen.Reopen | src/launch_registry.rs:2191-2206 | an uncontended reopen from any reachable state ends with marker, no tree, all files v2, and slot, generation, owner and state of every v1 file carried over |
| Reaper.ReaperQueue.Enqueue | src/launch_registry.rs:1497-1507 | the job goes to the back |
| Reaper.ReaperQueue.Take | src/launch_registry.rs:1531-1551 | the front job becomes active |
| Reaper.ReaperQueue.Finish | src/launch_registry.rs:1552-1611 | the active job is retried at the back or, fully resolved, lets its guard go |
| Reaper.ReaperQueue.IsDrained | src/launch_registry.rs:1615-1639 | the drain test is true iff no job is queued or active |
| Reaper.ManagedWaiter.HandoffCleanupOnly | src/launch_registry.rs:1653-1659 | the guard moves to a job without a child |
| Reaper.ManagedWaiter.Settle | src/launch_registry.rs:1725-1741 | after reaping: cleaned up, or handed over |
| Reaper.ManagedWaiter.Drop | src/launch_registry.rs:1801-1814 | a waiter with a child becomes a job |
| Reaper.ManagedWaiter.TerminateAndReapBounded | src/launch_registry.rs:1662-1704 | the waiter comes back iff its child could not be reaped |
| Reaper.ManagedWaiter.WaitUntil | src/launch_registry.rs:1707-1742 | what a bounded wait leaves behind and when it reports success |
| Reaper.ManagedWaiter.Wait | src/launch_registry.rs:1745-1798 | what an unbounded wait leaves behind and when it reports success |
| ReaperSafety.StepKeepsInv | src/launch_registry.rs:1497-1814 | every step of any waiter, unspawned launch or supervisor keeps the invariant |
| ReaperSafety.RunInvariant | src/launch_registry.rs:1497-1814 | the invariant holds in every reachable state |
| ReaperSafety.GuardOutlivesTheLaunch | src/launch_registry.rs:1573-1611 | a guard is released only after the child is reaped, process cleanup is resolved and artifact cleanup has succeeded |
| ReaperSafety.ChildAndGuardAreConserved | src/launch_registry.rs:1497-1814 | each child is in exactly one hand until reaped, each guard until released |
| ReaperSafety.NoLaunchIsForgotten | src/launch_registry.rs:1653-1814 | unless a launch is done, a waiter still has its child or a job stands for it |
| ReaperSafety.DrainedMeansDone | src/launch_registry.rs:1615-1639 | a drained queue means that every launch without a waiting owner is done |
| ReaperSafety.UnguardedNeedsNoArtifacts | src/launch_registry.rs:1586-1611 | a launch without a lifetime guard is finished by process cleanup alone |
| ReaperSafety.JobMovesUp | src/launch_registry.rs:1529-1611 | a job moves up by the number of takings, whatever is queued or requeued |
| ReaperSafety.JobIsTakenUpInTurn | src/launch_registry.rs:1529-1611 | the taking number k + 1 takes the job with k jobs ahead |
| ReaperSafety.JobIsTakenUp | src/launch_registry.rs:1529-1611 | every run with more than k takings took it up |
| ReaperSafety.PassTakesOne | src/launch_registry.rs:1529-1611 | while jobs wait, finishing a pass and starting the next takes exactly one |
| ReaperSafety.GoodPasses | src/launch_registry.rs:1529-1611 | each pass in which reaping and cleanup succeed finishes the front job for good |
| ReaperSafety.QueueConverges | src/launch_registry.rs:1615-1639 | from every reachable state as many such passes as there are jobs drain the queue, and then every launch without a waiting owner is done |
| Descriptors.FdTable.RemapGateFds | src/launch_registry.rs:5588-5630 | for any open descriptors the result is exactly control, guard and placement at 3, 4 and 5 and nothing else changed; it fails iff the kernel refuses, and then touches only those numbers |
| Descriptors.FdTable.Duplicate | src/launch_registry.rs:5593-5610 | three fresh copies above the fixed numbers, or the table as it was |
| Descriptors.FdTable.MoveAway | src/launch_registry.rs:6610-6628 | one authority leaves the fixed range with its file; failure closes all |
| Descriptors.FdTable.Relocate | src/launch_registry.rs:6641-6678 | all authorities leave the fixed range, distinct, open and the same files; no other descriptor changes; succeeds when the kernel has free numbers |
| Descriptors.FdTable.Install | src/launch_registry.rs:6681-6771 | one authority ends at its target without close-on-exec and nowhere else |
| Descriptors.FdTable.InstallAll | src/launch_registry.rs:5786-5810 | every received authority ends at its fixed number, the target executable stays; fails iff a due installation is refused |
| Descriptors.FdTable.CloseFixed | src/launch_registry.rs:5659-5665 | closes exactly the fixed range |
| Descriptors.FdTable.Receive | src/launch_registry.rs:6452-6490 | each received authority is open at its own number, everything else as before |
| Descriptors.FdTable.RunGate | src/launch_registry.rs:5643-5812 | what the started target inherits is exactly what the gate inherited without control, guard and placement, plus each authority at its fixed number, plus a script target itself; succeeds when the kernel has free numbers and every due installation goes through |
| Descriptors.FdTable.InstallAndHide | src/launch_registry.rs:5783-5812 | from relocated authorities to the table that exec sees |
| Utf8.DecodeEncoded | src/sanitize.rs:548-567 | decoding inverts encoding of every scalar value |
| Utf8.DecodedIsEncoded | src/sanitize.rs:548-567 | only the shortest well-formed encoding is accepted |
| TerminalCapture.CaptureState.StoreIncomplete | src/sanitize.rs:595-610 | the cut character is what is pending |
| TerminalCapture.CaptureState.CaptureChunk | src/sanitize.rs:27-156 | the loop computes the specified run from the stored state |
| TerminalCapture.CaptureState.Flush | src/sanitize.rs:612-617 | a pending character becomes one U+FFFD in ground state and nothing elsewhere |
| TerminalCapture.TerminalCapture | src/sanitize.rs:20-25 | a capture is one run and one flush |
| TerminalCapture.ChunkingIsTransparent | src/sanitize.rs:27-156 | from any state, a then b gives the output and state of a followed by b, for every split |
| TerminalCapture.AnyChunkingIsTransparent | src/sanitize.rs:27-156 | so does any number of chunks |
| TerminalCapture.CaptureIsSafe | src/sanitize.rs:20-156 | no C0, DEL or C1 character comes out except tab, LF and CR |
| TerminalCapture.CaptureKeepsSafeText | src/sanitize.rs:20-156 | well-formed text without other controls comes out unchanged |
| TerminalCapture.CaptureIsIdempotent | src/sanitize.rs:20-156 | sanitizing twice is sanitizing once |
| TerminalCapture.OscIsInvisible | src/sanitize.rs:27-156 | a complete BEL-terminated command after clean text leaves no trace |
| CaptureEscapes.CaptureIsTheText | src/sanitize.rs:27-156 | the capture of a stream of characters, complete sequences and stray bytes is its characters, with U+FFFD for each stray byte |
| CaptureEscapes.SequenceIsInvisible | src/sanitize.rs:27-156 | inserting a control sequence, control string, escape sequence, charset selection or single control, in any of its written forms, changes no capture |
| CaptureEscapes.EscapeRestartsControl | src/sanitize.rs:84-107 | an escape inside a control sequence abandons it and begins anew |
| CaptureEscapes.CharactersAreSwallowed | src/sanitize.rs:84-151 | a character inside a control sequence or string, other than ST, is swallowed |
| CaptureEscapes.BrokenCharacterIsReplaced | src/sanitize.rs:59-71 | a character that breaks off before an ASCII byte is one U+FFFD |
| CaptureEscapes.CutCharacterIsOneReplacement | src/sanitize.rs:586-617 | a stream that ends inside a character is its text and one U+FFFD |
| TerminalCapture.StripControlsIsClean | src/sanitize.rs:1-3 | no control character survives and clean text is kept |
| TerminalCapture.TerminalTextIsClean | src/sanitize.rs:16-18 | the same for labels, which are stable under repetition |
| StatusLine.SanitizeStatusCommandLine | src/sanitize.rs:175-366 | the loop emits exactly the tokens of the first line |
| StatusLine.StatusLineIsSafe | src/sanitize.rs:175-366 | safe text and SGR of at most 64 parameter bytes and 15 semicolons, closed by a reset; no SGR with colour off |
| StatusLine.OnlyFirstLineMatters | src/sanitize.rs:192-199 | nothing after the first LF or CR has any influence |
| StatusLine.PlainLineIsColouredLineErased | src/sanitize.rs:175-366 | the plain line is the coloured line with SGR erased |
| StatusEscapes.ControlSequenceExactly | src/sanitize.rs:175-366 | a control sequence leaves its SGR token iff it ends in m, its parameters are digits and separators within the bounds, and colour is on |
| StatusEscapes.OtherSequenceVanishes | src/sanitize.rs:175-366 | every other complete sequence on one line leaves nothing |
| StatusEscapes.LineIsItsTokens | src/sanitize.rs:175-366 | the tokens of a line of characters, complete sequences and stray bytes are its characters, U+FFFD for each stray byte, and exactly the bounded SGRs when colour is on |
| StatusEscapes.SpoiledControlVanishes | src/sanitize.rs:175-366 | a control sequence with a control byte, stray byte or character in it leaves nothing |
| StatusEscapes.StEndsControl | src/sanitize.rs:175-366 | ST ends a control sequence, as a byte and as a character |
| StatusEscapes.EscapeRestartsControl | src/sanitize.rs:175-366 | an escape inside a control sequence abandons it and begins anew |
| StatusRoundTrip.TokensPass | src/sanitize.rs:175-366 | a line of safe text and SGR within the bounds comes out exactly as it went in |
| StatusRoundTrip.SanitizingAgain | src/sanitize.rs:175-366 | a sanitized line sanitized again is itself, but for one more reset when it has colour |
| StatusRoundTrip.ColourOffKeepsTheText | src/sanitize.rs:175-366 | with colour off exactly the text of such a line is kept |
| StatusSplit.ScanSequence | src/sanitize.rs:494-527 | where a control sequence ends and whether it is SGR |
| StatusSplit.SplitSgrAndText | src/sanitize.rs:482-542 | the loop computes the specified segments |
| StatusSplit.SplitNeverCutsACharacter | src/sanitize.rs:482-542 | every slice of any string is at character boundaries |
| StatusSplit.SanitizedLineSplitsLosslessly | src/sanitize.rs:482-542 | the segments of a sanitized line follow each other and concatenate to it |
| StatusTruncate.AppendClusters | src/sanitize.rs:441-452 | appends exactly the leading clusters that fit |
| StatusTruncate.CutLoop | src/sanitize.rs:417-455 | the loop renders exactly the specified cut |
| StatusTruncate.Reassemble | src/sanitize.rs:394-416 | total width and reassembly of a line that fits |
| StatusTruncate.TruncateStatusLine | src/sanitize.rs:381-466 | the whole truncation computes the specified result |
| StatusTruncate.CutIsMaximal | src/sanitize.rs:417-455 | what is kept is a whole number of clusters, and the next one does not fit or no cell is left |
| StatusTruncate.TruncationFitsTheWidth | src/sanitize.rs:381-466 | a line that fits is kept whole; otherwise a maximal prefix and the ellipsis stay within the width |
| StatusTruncate.SanitizedLineShowsPlainLine | src/sanitize.rs:482-542 | what a sanitized coloured line shows is exactly the plain line |
| StatusOutput.TruncatedLineShowsAFront | src/sanitize.rs:381-466 | for every input the bytes of the truncated sanitized line are safe text and bounded SGR closed by a reset, and show as many whole clusters of the plain line as fit plus the optional ellipsis |
| Base64.EncodeBase64 | src/protocol.rs:1487-1508 | the chunk loop computes the specified encoding |
| Base64.DecodeQuartets | src/protocol.rs:1533-1560 | the quartet loop decodes exactly the sextets of its input |
| Base64.DecodeBase64 | src/protocol.rs:1510-1563 | the decoder computes the specified result |
| Base64.DecodeInvertsEncode | src/protocol.rs:1487-1563 | decoding inverts encoding up to the cap, with or without padding |
| Base64.EncodingSpellsTheNumber | src/protocol.rs:1487-1508 | the letters are the base-64 digits, in the standard alphabet, of the number the bytes spell, and equals signs fill the last group |
| Base64.DecodeAcceptsExactly | src/protocol.rs:1510-1563 | the decoder yields d iff the input is the padded or unpadded encoding of d within the cap |
| Base64.CanonicalAcceptsExactly | src/protocol.rs:419-428 | the canonical decoder yields d iff the input is the padded encoding of d within the bound |
| Argv.FromArguments | src/protocol.rs:292-308 | accepts exactly the acceptable lists, unchanged; an error names the first fault |
| Argv.SerializeArgv | src/protocol.rs:330-343 | each argument in its canonical encoding |
| Argv.DeserializeArgv | src/protocol.rs:345-395 | accepts exactly the wire forms of acceptable lists and gives the list back |
| Argv.ArgvRoundTrip | src/protocol.rs:291-395 | what one side constructs and serializes the other reads back unchanged |
| Argv.PathFromBytes | src/protocol.rs:233-245 | accepts exactly nonempty paths within the bound without NUL |
| Argv.DeserializePath | src/protocol.rs:273-284 | accepts exactly the wire forms of acceptable paths |
| Tournament.TournamentState.Change | src/speculation.rs:93-116 | new state and error of a transition request |
| Tournament.TournamentState.NormalizeAfterDaemonRestart | src/speculation.rs:118-134 | new state and error of a restart |
| Tournament.RunIsMonotone | src/speculation.rs:93-134 | along every run generations never fall, equal generations mean equal states, and nobody returns to the forward side |
| Tournament.ForwardPhaseNamesItsGeneration | src/speculation.rs:93-188 | from Prepared at g a forward phase has generation g plus its position, Selected g + 11 |
| Tournament.NoSelectionAfterRollback | src/speculation.rs:161-188 | Selected is never reached after a rollback-only phase |
| Tournament.NoSelectionAfterRestart | src/speculation.rs:118-134 | nor after a carried-out restart before a terminal phase |
| Tournament.OneChangePerGeneration | src/speculation.rs:93-134 | two requests with the same expected generation cannot both change the state |
| Tournament.SelectedIsReachable | src/speculation.rs:161-188 | Selected is reachable from Prepared at g iff g + 11 fits in 64 bits |
| Tournament.RollbackStaysPossible | src/speculation.rs:161-188 | a tournament that is not over can be rolled back iff the generation has room for the shortest way back |
| Tournament.EdgesByTarget | src/speculation.rs:161-188 | for each phase, exactly the phases from which one change leads to it |
| Score.BeatsByTiers | src/speculation.rs:67-85 | comparing candidates is comparing exit, elapsed time, output and index lexicographically |
| Score.ScoreIsTheUnbeatenCandidate | src/speculation.rs:51-85 | the score ignores the order of the candidates and picks exactly the unbeaten one that exited, was timed, stayed within 64 MiB, is quiescent and not overflowed; otherwise it rolls back |

## Left out

- System calls and kernel facts (pidfd, open-file-description locks, statx, SCM_RIGHTS packing, execveat, cgroup writes, fsync ordering) are assumed environment steps; a rename, exchange, unlink or file creation is atomic and durable.
- JSON formats, file modes, owners and size limits: a file either reads as a valid record or is unreadable; error texts are collapsed to error kinds.
- Process evidence is an oracle: absence is reported only of the dead. Killing is not a step of its own; a process may die at any moment.
- LaunchProtocol and SlotRuns: runs in which artifact creation begins on a reservation without an owner are excluded; `SlotEvents.ProposalIsAccepted` says what happens then.
- LaunchProtocol: one slot; the interplay of several slots is in `RegistryFiles`. The wait for the gate and its time-outs are not modelled, a thread may stop anywhere instead.
- Registry.Registry.AllocateIntent: random nonces are parameters and assumed not to be the nil UUID; the registry lock is in `LaunchProtocol`.
- Registry.Registry.ArtifactOperation: the public wrappers that validate a caller's binding first only refuse more calls and are not modelled.
- Reaper: start-up and failure to start the supervisor thread, polling intervals and deadlines (only their outcome is a parameter), and further clones of a lifetime guard.
- Descriptors.FdTable.RunGate: files that the gate itself opens and closes again while it reads the registry and its own identity are not in the table; they are close-on-exec from the start. The contents checks of each authority are parameters.
- StatusTruncate and StatusOutput: grapheme segmentation and display width are parameters; the clusters of a text are texts that concatenate to it, and its width is the sum of theirs.
- `osc_field` and the other one-line filters, labels, themes and the remaining request and response types of the protocol.
- `src/paths.rs` and `src/process_identity.rs`, test seams and failpoints, the daemon, the client and the scripts.
