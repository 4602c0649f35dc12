# Lyona's durable operation journal and other core algorithms, modelled and proved

Lyona's system management keeps one durable record of what it is doing to the machine: an operation
journal of dual-frame files that must survive a crash between, and inside, any two writes. This
project models that journal from its bytes up to the processes that share it, and proves that it is
never stranded. Four smaller algorithms of the repository are modelled beside it.
`dafny verify dfyconfig.toml` verifies everything.

**Bytes and files.** `Utf8`, `Text`, `Frames` and `DualFile` are the frame format and one file of two
frames; `Fields` and `Codecs` the tab-separated records. SHA-256 is any function to 32 bytes: where a
torn write could imitate a frame only by a digest accident, the accident is named
(`DualFile.TornByAccident`) and excluded by hypothesis.

**The state machine.** `Lifecycle`, `Records`, `Validator` and `Operations` are the vocabularies, the
records, the cross-record rules of `decode_journal_state`, and what begin, advance, prune, complete
and acknowledge check and commit. `Runs` lets calls follow each other with a crash after any commit
and reboots in between. `Ledger`, `Invariant`, `Acceptance`, `Preservation` and `Safety` prove that
every reachable journal is accepted; `Resumption` that an interrupted completion resumes; `Budget`
and `RestartBudget` that admission's headroom suffices. `Calls`, `Buckets`, `BucketRuns` and
`Guarantees` say what the calls accept, what they put on record, what the restart buckets hold over
runs and what a loaded journal guarantees, without naming the functions that compute it.
`JournalStore` runs the calls as the source does, step by step over fields that change, and shows that
each leaves exactly the commits of its specification.
`Storage` and `DiskRuns` join both halves: from the files that initialization leaves, over any calls
that are each killed inside any write at any byte and go on from what the files then hold, the files
load.

**Recovery, ownership and observation.** `Signals` is what PackageKit's restart signals ask for, and
`Recovery` the locked part of a recovery pass.
`Intervals`, `Lease` and `LateReleases` interleave native owners, observers, kills and reboots at the
granularity of the directory lock. `Streams` and `Watchers` are the rows an operation publishes and the observers
that publish them from sampled states. `Mutations` is the owner of a PackageKit operation, while
between its locked intervals others move the record on, cancel it, strengthen its restart requirement
or conclude it.

**Initialization.** `Fragments`, `Layout` and `Initialization` are the recovery of a layout whose
initialization was killed at any byte of any write, on one boot and then on another.

**Beside the journal.** `DeviceGraph`, `RootEncryption` and `BlockDevices` decide root encryption from
a device listing; `ClientLists`, `WindowMoves`, `MonitorTags`, `MonitorMoves` and `TagReconciliation`
are dwm's linked client lists and tag partition; `Order`, `Generations` and `Accounts` the plan
generation and the bounded account selection; `TomlText`, `TomlTables`, `TomlRoundTrip`,
`TomlReports` and `BadLines` the scanners of the configuration parser. Code that changes fields, lists, buffers or counters in place
is modelled by classes and loops that do, each proved against a specification function.

Hypotheses about the environment, all explicit in `Runs.Admissible` and the lemmas' `requires`:

- boot identities never recur, and the boot and session evidence given to a call is the current one;
- an update that becomes terminal in the boot of the restart record carries a positive timestamp newer
  than those of the boot's completed updates;
- at admission the file of the cursor's slot can still be rewritten, so that slot is the one reserved;
- for ownership, admitted identities never repeat;
- for torn writes, the named digest accidents do not happen, and the restart file has room
  (`DiskRuns.RestartRoom`): `RestartBudget.RestartHasRoom` proves that from admission on, within a boot
  and up to the commit that applies the operation.

What the proofs brought to light:

- **Timestamps.** `advance` accepts a terminal timestamp that the validator cannot live with: a run
  that ends an update at timestamp zero leaves a journal that no longer loads once the restart
  contribution is committed (`Timestamps.ZeroTimestampStrands`, `Timestamps.ZeroTimestampRun`).
  `Timestamps.ContributionLoadsIff` is the exact condition, on the record before the commit. A
  recovered update of an earlier boot carries a timestamp of the new boot; it contributes nothing
  there, so the hypothesis above need not speak of it.
- **The last sequence.** A commit that reaches sequence 2^64-1 makes its file unreadable
  (`DualFile.CompleteCommitSelects`); admission keeps every file below it except `restart`.
- **An all-zero file.** An initial write of which only the file size reached storage leaves an image
  that no initialization accepts (`Layout.ZeroFileRefused`).
- **Overtaken conclusions.** An observer that notices a transaction running, between the two locked
  intervals of the owner's `finish`, makes the journal refuse the owner's `permission-denied` or
  `canceled` (`Mutations.Overtaken`); the owner then reports a persistence error and recovery concludes.
- **Unannounced authorization.** If `permission-denied` came while the owner still knew its record as
  pending and a watcher had moved it to authorizing, the journal would take the conclusion and the
  stream refuse it. `Mutations.PackageKitMutation.Finish` raises a protocol error in exactly that case;
  `execute_mutation` finishes with a transaction's result only after `before_send`
  (scripts/lyona_system_management/packagekit.py:876-893), whose contract rules the case out.
- **Late first checkpoint.** If an observer has moved the record out of pending before the owner's
  first checkpoint, `before_send` is refused although the record is where it should be, because only its
  detail would change (`Mutations.PackageKitMutation.BeforeSend` says exactly when).
- **Late releases.** A native operation admitted while an earlier, finished owner still holds the lease
  is taken for owned by observers until that lease is released, whatever happens to its own owner:
  `LateReleases.LateReleaseHidesDeadOwner` is a reachable case, `LateReleases.ConcludedIffNoLease` the
  exact condition.
- **Bad lines.** `bad_lines` is meant to count each unreadable configuration line once, but only the
  first is recognized again: two stray characters on the second count it twice
  (`BadLines.SecondBadLineCountedTwice`; exact condition on the lines read in `BadLines.LinesCountedIff`).

## Model

| member | source | states |
|---|---|---|
| `Utf8.DecodeEncode` | scripts/lyona_system_management/operation_journal.py:548-559 | decoding UTF-8 gives back every text that was encoded |
| `Utf8.EncodeDecode` | scripts/lyona_system_management/operation_journal.py:594-600 | strict decoding accepts only the bytes that encoding its result produces (no overlong form, surrogate or stray continuation) |
| `Frames.DecodeEncodedFrame` | scripts/lyona_system_management/operation_journal.py:562-611 | every frame that encodes decodes to itself |
| `Frames.EncodeDecodedFrame` | scripts/lyona_system_management/operation_journal.py:582-611 | an image decodes only if it is, byte for byte, the encoding of the frame it decodes to |
| `DualFile.SelectMeans` | scripts/lyona_system_management/operation_journal.py:619-640 | a half is selected if and only if it is valid, not exhausted, and newer than the other half whenever that is valid too, or the first of two identical halves |
| `DualFile.InitialSelects` | scripts/lyona_system_management/operation_journal.py:614-616 | an initialized file selects sequence 1 with its initial payload, in half 0 |
| `DualFile.MixedFrame` | scripts/lyona_system_management/operation_journal.py:582-611 | a frame overwritten up to any byte decodes as the old content, as the new frame, or not at all, unless a named digest accident happens |
| `DualFile.TornCommitIsAtomic` | scripts/lyona_system_management/operation_journal.py:1453-1475 | after a commit stopped at any byte, selection returns exactly the old frame or exactly the new one |
| `DualFile.CompleteCommitSelects` | scripts/lyona_system_management/operation_journal.py:1453-1475 | a whole commit selects the new frame in the other half, except when its sequence is 2^64-1, where the file counts as exhausted |
| `DualFile.JournalFile.Write` | scripts/lyona_system_management/operation_journal.py:1463-1465 | a write that stops leaves the old bytes with exactly the first written ones replaced at the offset |
| `DualFile.JournalFile.Commit` | scripts/lyona_system_management/operation_journal.py:1453-1475 | the in-place commit leaves the image and returns the result of the specification, for every number of bytes that reach storage |
| `DualFile.CommitIsAtomic` | scripts/lyona_system_management/operation_journal.py:1453-1475 | a commit returns success exactly when all its bytes were written, and whatever it returns the file selects the old frame or the new one, so the next commit goes on |
| `Fields.ParseUint64Exact` | scripts/lyona_system_management/operation_journal.py:650-664 | the decimal form is the only text accepted for a number, and exactly up to 2^64-1 |
| `Fields.TextuallyBeyond` | scripts/lyona_system_management/operation_journal.py:650-656 | the textual comparison with the decoder's bound is the numeric one |
| `Codecs.CursorRoundTrip` | scripts/lyona_system_management/operation_journal.py:667-681 | decode(encode(slot)) = slot |
| `Codecs.CursorCanonical` | scripts/lyona_system_management/operation_journal.py:676-681 | only the encoding of a slot is accepted as a cursor |
| `Codecs.HandoffRoundTrip` | scripts/lyona_system_management/operation_journal.py:684-708 | decode(encode(handoff)) = handoff, including none |
| `Codecs.HandoffCanonical` | scripts/lyona_system_management/operation_journal.py:698-708 | an accepted handoff payload is the encoding of what it decodes to |
| `Codecs.RestartRoundTrip` | scripts/lyona_system_management/operation_journal.py:711-783 | decode(encode(restart)) = restart for every encodable record |
| `Codecs.RestartCanonical` | scripts/lyona_system_management/operation_journal.py:752-783 | an accepted restart payload is the encoding of what it decodes to |
| `Codecs.OperationRoundTrip` | scripts/lyona_system_management/operation_journal.py:952-1014 | decode(encode(operation)) = operation for every record that _journal_operation_fields accepts |
| `Codecs.OperationCanonical` | scripts/lyona_system_management/operation_journal.py:959-1014 | an accepted operation payload is the encoding of what it decodes to |
| `JournalStore.JournalFiles.GenerateId` | scripts/lyona_system_management/operation_journal.py:2434-2480 | the first of four draws that no retained record carries, or none |
| `JournalStore.JournalFiles.FindSlot` | scripts/lyona_system_management/operation_journal.py:2486-2495 | the first slot from the cursor on whose file can still be rewritten |
| `JournalStore.JournalFiles.BeginOperation` | scripts/lyona_system_management/operation_journal.py:2498-2539 | killed anywhere, begin leaves exactly a prefix of the commits that the specification gives it; it raises exactly the specified refusal |
| `JournalStore.JournalFiles.AdvanceOperation` | scripts/lyona_system_management/operation_journal.py:2542-2627 | likewise for advance, with its identity, transition, boundary, weakening and no-durable-change refusals |
| `JournalStore.JournalFiles.PruneRestart` | scripts/lyona_system_management/operation_journal.py:2630-2652 | likewise for prune; what it returns is on record: another boot's record is cleared, and within the boot each bucket survives exactly when no session started after its cutoff, an emptied one having cutoff 0, with identity and system unchanged |
| `JournalStore.JournalFiles.CompleteTerminal` | scripts/lyona_system_management/operation_journal.py:2655-2728 | likewise for the up to six commits of completion, in their order; a returned operation is in its slot, behind the cursor and handed over, with nothing active and its restart work in the buckets as `Buckets.Completing` says |
| `JournalStore.JournalFiles.RetainedTerminal` | scripts/lyona_system_management/operation_journal.py:2731-2746 | the retained terminal with the identity, or none |
| `JournalStore.JournalFiles.AcknowledgeHandoff` | scripts/lyona_system_management/operation_journal.py:2749-2757 | likewise for acknowledge, which clears only the named handoff |
| `JournalStore.EventIsCall` | scripts/lyona_system_management/operation_journal.py:2498-2757 | what a call of a run leaves is what the method for the call leaves, so the theorems about runs are about the methods |
| `Calls.BeginAdmitsIff` | scripts/lyona_system_management/operation_journal.py:2483-2539 | begin admits exactly the record that has not started and asks for nothing yet, with the first draw no record carries, in the first slot from the cursor that can be rewritten, if and only if the journal loads with nothing active or handed over, the four files have room and a PackageKit request is of the boot |
| `Calls.AdvanceCommitsIff` | scripts/lyona_system_management/operation_journal.py:2542-2627 | advance commits a record if and only if it is the active operation one lifecycle step on or with other restart work, no weaker in any bucket unless recovery replaces it as unknown or none, and leaves a journal that loads |
| `Calls.RetainedIff` | scripts/lyona_system_management/operation_journal.py:2731-2746 | a retained record is found if and only if the journal loads with nothing active and some slot holds it under that identity |
| `Calls.AcknowledgesIff` | scripts/lyona_system_management/operation_journal.py:2749-2757 | acknowledge clears the handoff if and only if the journal loads with nothing active and the handoff names that operation |
| `Safety.CompleteKeeps` | scripts/lyona_system_management/operation_journal.py:2655-2728 | every prefix of a completion's commits keeps the invariant that ties slots, cursor, restart record and handoff to the log of completed operations |
| `Safety.CallKeeps` | scripts/lyona_system_management/operation_journal.py:2498-2757 | any call stopped after any number of its commits keeps that invariant |
| `Safety.EveryRunConsistent` | scripts/lyona_system_management/operation_journal.py:2498-2757 | so does every run of calls, crashes between any two commits, and reboots |
| `Acceptance.ConsistentAccepted` | scripts/lyona_system_management/operation_journal.py:1017-1286 | the invariant implies every rule of the cross-record validator |
| `Safety.EveryRunLoads` | scripts/lyona_system_management/operation_journal.py:1017-1286 | no run produces a journal that decode_journal_state rejects |
| `Safety.EveryRunKeepsRing` | scripts/lyona_system_management/operation_journal.py:2714-2720 | read from the cursor on, the slots hold exactly the last 32 completed operations, oldest first |
| `Guarantees.Slots` | scripts/lyona_system_management/operation_journal.py:1036-1051 | in a journal that loads every slot holds a concluded record of its own, no two the same operation |
| `Guarantees.FirstSlot` | scripts/lyona_system_management/operation_journal.py:1053-1063 | a single record without handoff stands right before the cursor |
| `Guarantees.HandedOver` | scripts/lyona_system_management/operation_journal.py:1065-1149 | a handoff names the record right before the cursor, applied if it is an update of the boot, superseded by none of them, and the active one if there is one |
| `Guarantees.Active` | scripts/lyona_system_management/operation_journal.py:1093-1135 | the active record is retained only as the applied, concluded record of its own slot, is of another boot only while no restart work is held, and its result is no older than the retained updates |
| `Guarantees.NeverApplied` | scripts/lyona_system_management/operation_journal.py:1150-1160 | without a last update no restart work is held and no update of the boot is retained |
| `Guarantees.LastApplied` | scripts/lyona_system_management/operation_journal.py:1161-1195 | the last update is the newest on record and missing only once the ring has wrapped and holds none of them |
| `Guarantees.SystemBucket` | scripts/lyona_system_management/operation_journal.py:1196-1208 | the system bucket covers every update of the boot on record and, until the ring wraps, is the request of one of them |
| `Guarantees.SessionBucket` | scripts/lyona_system_management/operation_journal.py:1209-1237 | a pending session dates from no update before the newest that asked and covers the last update |
| `Guarantees.SessionOnRecord` | scripts/lyona_system_management/operation_journal.py:1238-1258 | until the ring wraps its date and its request are those of updates on record |
| `Guarantees.ApplicationBucket` | scripts/lyona_system_management/operation_journal.py:1259-1284 | likewise for the application |
| `Ledger.ContributionKeeps` | scripts/lyona_system_management/operation_journal.py:2683-2712 | after a contribution the restart record is a summary of the log with that update added: the strongest system request, the newest identity and cutoffs, and a session request of the log no weaker than the newest one |
| `BucketRuns.EveryRunSums` | scripts/lyona_system_management/operation_journal.py:2630-2712 | in every run, crashes and reboots included, the session bucket is exactly the strongest request of the updates applied since it was last empty and dates from the newest that asked; the application bucket likewise |
| `Timestamps.ContributionLoadsIff` | scripts/lyona_system_management/operation_journal.py:1150-1286 | a terminal update's contribution keeps the journal loadable if and only if each bucket that it leaves pending takes a positive cutoff that is not newer than the update, and no retained update of that timestamp asks for more |
| `Timestamps.NewerFits` | scripts/lyona_system_management/operation_journal.py:2612-2627 | a positive timestamp newer than every retained one and no older than the cutoffs always meets that condition |
| `Timestamps.ZeroTimestampStrands` | scripts/lyona_system_management/operation_journal.py:2612-2627 | from an empty journal, begin, advance to running and advance to a terminal record of timestamp zero are each accepted and leave an accepted journal; after the first commit of its completion the journal is rejected |
| `Timestamps.ZeroTimestampRun` | scripts/lyona_system_management/operation_journal.py:2498-2728 | so the run that makes these calls and is stopped there ends in a journal that cannot be loaded |
| `Resumption.CompleteResumes` | scripts/lyona_system_management/operation_journal.py:2655-2728 | stopped after k commits and rerun with the same evidence, completion makes exactly the commits from k on |
| `Resumption.CrashedCompletionConverges` | scripts/lyona_system_management/operation_journal.py:2655-2728 | so it ends in the very store of an uninterrupted run, frame sequences included |
| `Buckets.CompletionLeaves` | scripts/lyona_system_management/operation_journal.py:2655-2728 | and that store has the record in its slot, the cursor behind it, the handoff naming it and nothing active; an update of the boot has joined the buckets once: no weaker than before or than it asks, equal to one of the two, dated from the newest request, and emptied exactly by a session start after that |
| `Budget.AdvanceSpends` | scripts/lyona_system_management/operation_journal.py:2572-2611 | every committing advance uses up one of the active commits that remain, by lifecycle rank and restart strength |
| `Budget.CommitBudget` | scripts/lyona_system_management/operation_journal.py:72-84 | whatever follows one admission, it causes at most 12 commits to active, 2 to handoff, 1 to cursor and 1 to the reserved slot |
| `Budget.EveryRunKeepsHeadroom` | scripts/lyona_system_management/operation_journal.py:2483-2495 | admission's headroom keeps those files below the sequence that selection rejects, in every run |
| `RestartBudget.RestartCommitBudget` | scripts/lyona_system_management/operation_journal.py:72-84 | from one admission, over any calls and crashes within the boot, restart takes at most 3 commits up to and including the one that applies the operation |
| `RestartBudget.RestartHasRoom` | scripts/lyona_system_management/operation_journal.py:2483-2495 | so the headroom that admission demands of restart gives each of those commits room |
| `Storage.RepresentedLoads` | scripts/lyona_system_management/operation_journal.py:2312-2335 | files that carry an accepted journal load as that journal |
| `Storage.DualFrameWriteIsAtomic` | scripts/lyona_system_management/operation_journal.py:1453-1475 | the dual-frame commit meets what that theorem asks of a write |
| `Storage.PayloadsFit` | scripts/lyona_system_management/operation_journal.py:548-559 | the payload of every commit of a run fits a frame |
| `Storage.SequenceHasRoom` | scripts/lyona_system_management/operation_journal.py:2483-2495 | in every run the headroom gives each commit to active, handoff, cursor or a slot the room that this needs |
| `DiskRuns.InitialRepresents` | scripts/lyona_system_management/operation_journal.py:2060-2100 | the files that an initialization writes carry the initial journal at sequence one |
| `DiskRuns.InitializedFiles` | scripts/lyona_system_management/operation_journal.py:1972-2118 | and they are the files that a completed `Initialization.LayoutFiles.Initialize` leaves |
| `DiskRuns.EveryDiskRunLoads` | scripts/lyona_system_management/operation_journal.py:2312-2431 | from those files, over any calls each killed inside any write at any byte and going on from what the files then hold, and any reboots, the files load, as the journal of a run in which each torn commit either happened or did not |
| `DiskRuns.EveryTornWriteLoads` | scripts/lyona_system_management/operation_journal.py:2415-2431 | after any such run, wherever the write of a further commit stops, the files load, as the journal before or after that commit, and after it once the whole frame is written |
| `Recovery.RecoveryIsLegal` | scripts/lyona_system_management/update_plans.py:853-930 | for every nonterminal operation and every combination of evidence, history and boot, each advance of recovery passes the identity, transition, boundary and non-weakening checks |
| `Recovery.PlanSettles` | scripts/lyona_system_management/update_plans.py:884-927 | from the record and the findings alone: PackageKit's own result, a denial counting as failed once the transaction ran; else success if history has it; else interrupted, with the codes and details of each; and an update's restart work is what it held and the signals ask for, unknown where signals may have been missed, or none from another boot |
| `Recovery.RecoveryLeavesIff` | scripts/lyona_system_management/update_plans.py:866-883 | a pass leaves the operation if and only if a native owner is alive, the lookup failed as malformed or without an answer from history, or PackageKit still has the transaction and history has no success |
| `Recovery.ObserveIsHeard` | scripts/lyona_system_management/update_plans.py:900-908 | over any signals each bucket becomes the strongest of what it held and what the codes ask for |
| `Signals.HeardIsExact` | scripts/lyona_system_management/update_plans.py:900-908 | after given codes each bucket can have one value only, so what was heard is neither lost nor exaggerated |
| `Recovery.RecoveryConcludes` | scripts/lyona_system_management/update_plans.py:853-930 | a pass that does not leave the operation alone drives the journal to the completed operation, concluded as `Recovery.Settles` says |
| `Recovery.RecoveryLeaves` | scripts/lyona_system_management/update_plans.py:853-890 | otherwise the operation stays active for a named reason, as it was found or noticed to be running |
| `Recovery.EveryRunRecovers` | scripts/lyona_system_management/update_plans.py:853-930 | after every run, a pass ends with the operation handed over from its slot, concluded as its findings call for, or leaves it active and nonterminal |
| `Intervals.IntervalKeeps` | scripts/lyona_system_management/operation_journal.py:2264-2287 | what every call keeps, whatever part of it survives, every locked interval keeps |
| `Lease.StepKeepsLease` | scripts/lyona_system_management/native_operations.py:27-90 | at most one owner is at work, and what is active is its own copy, after every step of any process |
| `Lease.RecoverSparesOwner` | scripts/lyona_system_management/update_plans.py:853-871 | no observer touches a live operation while anyone holds the lease |
| `Lease.SupersededOwnerStops` | scripts/lyona_system_management/native_operations.py:44-90 | once an operation is over, no owner that still holds a copy of it ever commits again |
| `Lease.FailedOwnerStops` | scripts/lyona_system_management/native_operations.py:44-90 | an owner whose checkpoint was refused makes no further call for as long as it lives |
| `Lease.DeadOwnerConcluded` | scripts/lyona_system_management/update_plans.py:853-930 | when no one holds the lease, a surviving pass terminalizes the operation as interrupted and hands it over |
| `Lease.DeadFinishConcluded` | scripts/lyona_system_management/update_plans.py:860-871 | when the owner died after its terminal record, the pass hands over that very record |
| `LateReleases.ConcludedIffNoLease` | scripts/lyona_system_management/update_plans.py:853-930 | a pass over a live native operation that survives it concludes the operation if and only if no one holds the lease |
| `LateReleases.LateReleaseHidesDeadOwner` | scripts/lyona_system_management/native_operations.py:27-90 | an operation admitted before an earlier owner released the lease, and whose own owner died, is reachable and is left active by every pass |
| `Lease.EveryInterleavingSafe` | scripts/lyona_system_management/operation_journal.py:2338-2412 | after every interleaving of owners, observers, kills and reboots the journal is sound and a working owner's copy is what is active |
| `Streams.OperationStream.Transition` | scripts/lyona_system_management/update_plans.py:458-487 | one step, refused exactly where the protocol refuses it; repeats are coalesced, counted and capped |
| `Streams.OperationStream.ReportProgress` | scripts/lyona_system_management/update_plans.py:489-503 | new fields in the same state, likewise |
| `Streams.OperationStream.ReportItem` | scripts/lyona_system_management/update_plans.py:422-439 | item rows, bounded, with one clearing row at the bound |
| `Streams.OperationStream.Finish` | scripts/lyona_system_management/update_plans.py:505-538 | the terminal bundle in one write; a failed write faults the stream for good |
| `Streams.TransitionSound` | scripts/lyona_system_management/update_plans.py:458-487 | on an open stream a state that may follow, with sound fields, and nothing else is accepted; the stream stays sound: its rows are a path of the transition table with at most 252 repeats, the last one shown is the current state and fields, and a row is added unless it says nothing new or the cap of repeats is reached |
| `Streams.ProgressSound` | scripts/lyona_system_management/update_plans.py:489-503 | new fields in the same state are accepted and shown, up to the cap, and the same ones are not shown again |
| `Streams.ItemSound` | scripts/lyona_system_management/update_plans.py:422-439 | items are accepted only of a running PackageKit operation, in the listed phases, and keep the stream sound: each new one is shown while there is room, an empty one at the bound, and none after it |
| `Streams.FinishSound` | scripts/lyona_system_management/update_plans.py:505-538 | the terminal record of the operation, one step from the state shown, and no other record is accepted; after it the rows end in exactly one terminal bundle: the error if there is one, the result, its audit and the completion, all of that record |
| `Watchers.ReachesIsClosure` | scripts/lyona_system_management/shared.py:266-279 | the reachability order used below is exactly that of the transition table |
| `Watchers.EveryWatchIsSound` | scripts/lyona_system_management/watch_commands.py:399-440 | for every legal history sampled at any increasing times, the watcher's stream opens, never raises a protocol error, is sound, and closes exactly when a terminal state was sampled, with the bundle of that very record |
| `Watchers.WatchKeepsUp` | scripts/lyona_system_management/watch_commands.py:407-440 | the stream's state is always one that was sampled, so it is never ahead of the journal |
| `Watchers.WatchTurn` | scripts/lyona_system_management/watch_commands.py:407-440 | one turn of the loop does to the stream what the specification does, or a write fails |
| `Watchers.WatchOperation` | scripts/lyona_system_management/watch_commands.py:399-440 | and so does the loop |
| `Watchers.EveryReplayIsSound` | scripts/lyona_system_management/update_plans.py:568-585 | every retained terminal replays as a sound, closed stream: pending, the one state its result needs, and its own bundle |
| `Mutations.CheckpointPermittedIff` | scripts/lyona_system_management/native_operations.py:315-336 | a checkpoint asks for the later of the state found and the state wanted and for the stronger restart work, and is accepted exactly when that state may follow and more than the detail changes |
| `Mutations.PackageKitMutation.Checkpoint` | scripts/lyona_system_management/native_operations.py:315-336 | whatever watchers, observers and cancel controls did before the lock was taken, a checkpoint ends lost, refused, or durable and published, without a protocol error |
| `Mutations.PackageKitMutation.Sync` | scripts/lyona_system_management/native_operations.py:303-313 | the stream always catches up with the record by legal steps |
| `Mutations.PackageKitMutation.BeforeSend` | scripts/lyona_system_management/native_operations.py:338-345 | nothing is sent unless the record left pending durably and the stream shows it; it is lost if another concluded it, and refused exactly when it had left pending with another detail |
| `Mutations.PackageKitMutation.OnRestart` | scripts/lyona_system_management/native_operations.py:418-433 | a signal that the owner's record already covers changes nothing; otherwise the record found under the lock, if it is still there, is committed with exactly what was signalled joined to its buckets: code 4 a system restart, 6 a security restart, an unknown code an unknown one, 3 a session, 5 a security session, 2 the application |
| `Mutations.PackageKitMutation.Finish` | scripts/lyona_system_management/native_operations.py:435-474 | the conclusion is lost exactly when another concluded before one of its looks, refused exactly because it was overtaken, or on record with its state, error, time and no less restart work than the owner knew, and then published as one terminal bundle of that record; a protocol error is raised if and only if the record, which the owner knew as pending, was moved to authorizing by another before a refused authorization |
| `Mutations.PackageKitMutation.Conclude` | scripts/lyona_system_management/native_operations.py:451-466 | the record written is the one found with the result, its error, times and detail, and its system restart unknown instead of none exactly when a sent update may have run and did not succeed |
| `Mutations.OutcomeFollowsIff` | scripts/lyona_system_management/native_operations.py:444-450 | exactly the overtaken conclusions cannot follow the state they find |
| `Mutations.OutcomeIsPublishableIff` | scripts/lyona_system_management/native_operations.py:444-474 | what the journal accepts, the stream accepts too, but for exactly that case |
| `Mutations.NoticeOvertakesDenial` | scripts/lyona_system_management/native_operations.py:444-465 | an observer that notices the transaction between the two locked intervals overtakes a refused authorization |
| `Fragments.IsSafeInitialFragment` | scripts/lyona_system_management/operation_journal.py:1757-1767 | accepts exactly a prefix, or a non-empty prefix and then zeros at full size |
| `Fragments.IsSafeRewriteFragment` | scripts/lyona_system_management/operation_journal.py:1848-1873 | accepts exactly the images that some cut explains as the new image up to it and an all-clear image of the named boot beyond |
| `Fragments.CommitsMark` | scripts/lyona_system_management/operation_journal.py:1453-1475 | the first byte of a first commit marks the file and no later commit, torn or whole, clears the mark |
| `Fragments.OverwrittenOver` | scripts/lyona_system_management/operation_journal.py:1895-1923 | a rewrite of a fragment, stopped anywhere, leaves a fragment of the rewritten image |
| `Layout.CommittedNeverSafe` | scripts/lyona_system_management/operation_journal.py:1876-1892 | no image of a file that ever took a commit passes as an initial fragment, restart included |
| `Layout.MixedFragmentIsSafe` | scripts/lyona_system_management/operation_journal.py:1876-1892 | whatever interrupted writes for one boot and then another leave of restart is accepted |
| `Layout.ZeroFileRefused` | scripts/lyona_system_management/operation_journal.py:1876-1892 | a full-size file of zeros is refused, whatever it should have held |
| `Initialization.IsSafePath` | scripts/lyona_system_management/operation_journal.py:1876-1892 | the checks as run decide exactly the specified fragments |
| `Initialization.LayoutFiles.Initialize` | scripts/lyona_system_management/operation_journal.py:1972-2118 | with a cursor present nothing is written and the result is whether all files read; otherwise it is refused exactly when some file is not a fragment, and else leaves the complete layout, or one killed in the write of one file, the cursor last |
| `Initialization.InitializeAfterCommits` | scripts/lyona_system_management/operation_journal.py:1972-2118 | no file that ever took a commit is written over |
| `Initialization.StoppedKeepsSound` | scripts/lyona_system_management/operation_journal.py:2060-2100 | an interrupted initialization leaves fragments only, and a complete cursor only over complete files |
| `Initialization.EveryInterruptionRecovers` | scripts/lyona_system_management/operation_journal.py:1972-2118 | after any number of interruptions on one boot and then on another, the next initialization is not refused |
| `RootEncryption.Resolve` | scripts/lyona_system_management/system_information.py:434-466 | the iterative walk resolves every device, rightly, exactly when no cycle exists |
| `RootEncryption.Classify` | scripts/lyona_system_management/system_information.py:466-475 | encrypted exactly when every way down from every root crosses a layer, unencrypted exactly when none does, else malformed |
| `BlockDevices.Build` | scripts/lyona_system_management/system_information.py:379-421 | the listing is read into its graph exactly when its rows are readable and agree |
| `BlockDevices.CheckNames` | scripts/lyona_system_management/system_information.py:424-433 | the alias and top-level conditions, for every device |
| `BlockDevices.WellListedMeans` | scripts/lyona_system_management/system_information.py:422-433 | whether a listing is well formed can be read off the tables built from it |
| `BlockDevices.ParseRootEncryption` | scripts/lyona_system_management/system_information.py:363-475 | the verdict on a listing is the one its graph warrants, and malformed for every other listing |
| `ClientLists.Attach` | dwm.c:708-713 | the client goes to the head of the list |
| `ClientLists.AttachBottom` | dwm.c:715-734 | the client goes behind all but the sinking ones at the end |
| `ClientLists.AttachStack` | dwm.c:736-741 | the client goes on top of the focus list |
| `ClientLists.Detach` | dwm.c:1203-1211 | the list loses exactly the client and keeps the order of the others |
| `ClientLists.DetachStack` | dwm.c:1213-1226 | the focus list loses exactly the client, and a selected one is replaced by the first visible one |
| `ClientLists.WithoutMeans` | dwm.c:1203-1226 | taking a client out keeps the others, once each and in their order |
| `WindowMoves.FindTarget` | dwm.c:2289-2313 | the client movestack exchanges with: the next or previous tiled one, around the list |
| `WindowMoves.TargetIsNearest` | dwm.c:2289-2313 | that is the first tiled client met on the way around the list, the selected one looked at last, and there is none only if no client is tiled |
| `WindowMoves.MoveStack` | dwm.c:2289-2335 | the list changes by exactly the exchange of the selected client and its target, adjacent or not, head or not |
| `ClientLists.SwappedMeans` | dwm.c:2314-2333 | such an exchange is a permutation, touches two places only and is undone by itself |
| `WindowMoves.Pop` | dwm.c:2497-2503 | the client goes to the head and the others keep their order |
| `WindowMoves.Raise` | dwm.c:1356-1383 | the focused client goes to the top of the focus list, the others keep their order, the client list is untouched |
| `MonitorMoves.SendMon` | dwm.c:3310-3348 | every monitor's lists stay sound chains; the client leaves both lists of its monitor and joins those of the other, under the tags it may keep there; sent to its own monitor it stays as it was |
| `MonitorMoves.SentTagsMean` | dwm.c:3310-3348 | a client sent to a monitor keeps exactly those of its tags that the monitor owns, or gets the monitor's first |
| `MonitorMoves.Transfer` | dwm.c:5806-5829 | a client leaves both lists of its monitor and joins those of its owner |
| `MonitorTags.LogicalIndexBijective` | dwm.c:5651-5701 | logical indices are a bijection between the monitors and 0 .. n-1 |
| `MonitorTags.LogicalIndexOrder` | dwm.c:5651-5701 | the first monitor at or below row 1080 has index 0, or else the first, and the others keep their order |
| `MonitorTags.GetLogicalIndex` | dwm.c:5651-5701 | the loops compute that index |
| `MonitorTags.ComputeMask` | dwm.c:5703-5747 | the loops compute the monitor's share of the tags |
| `MonitorTags.MaskByQuotient` | dwm.c:5728-5735 | with at most as many monitors as tags, a tag is the monitor's whose index is the tag divided by the number of tags per monitor, or the last one's |
| `MonitorTags.MaskSizes` | dwm.c:5728-5735 | every monitor but the last has count / n tags and the last has the rest |
| `MonitorTags.MaskOfMany` | dwm.c:5728-5746 | with more monitors than tags each has one: the tag of its index, or the last |
| `MonitorTags.MaskHolds` | dwm.c:5703-5747 | with at most as many monitors as tags every mask is a non-empty set of tags |
| `MonitorTags.MasksDisjoint` | dwm.c:5703-5747 | no tag is in two masks |
| `MonitorTags.TagOwned` | dwm.c:5703-5747 | every tag is in some mask |
| `TagReconciliation.Settle` | dwm.c:5791-5829 | one client goes exactly where its tags put it: it stays and is narrowed, or moves to the first owner of its tags; no other client changes |
| `TagReconciliation.FitViews` | dwm.c:5833-5869 | both tag sets of each monitor become those of their tags that its mask has, or else its first tag; the tag remembered for each is 0 for a whole mask, stays while it is shown, and is else the least shown |
| `TagReconciliation.Reconcile` | dwm.c:5778-5869 | every client is kept, on one monitor, exactly the one its tags put it on, with exactly those of its tags that the monitor owns (or all, or none that any owns); both tag sets of each monitor are non-empty subsets of its mask |
| `TagReconciliation.AssignedMeans` | dwm.c:5791-5829 | so a client ends with all tags, a non-empty subset of its own monitor's mask, or tags no monitor owns; none is added and the last is never taken |
| `TagReconciliation.AssignedIff` | dwm.c:5791-5829 | all tags, and tags that its monitor has a part of, keep a client where it is, else it goes to the first monitor with a part of them, if any; and that part is exactly what it keeps |
| `TagReconciliation.FittedMeans` | dwm.c:5848-5852 | a tag set keeps what the mask has of it, or becomes the mask's least tag |
| `TagReconciliation.AssignedAgain` | dwm.c:5791-5829 | meeting a moved client again on its new monitor changes nothing |
| `Generations.SnapshotGeneration` | scripts/lyona_system_management/update_plans.py:329-347 | the pieces fed to the digest are the specified bytes |
| `Generations.HashedDetermines` | scripts/lyona_system_management/update_plans.py:329-347 | two inputs give the same bytes if and only if they have the same multisets of update identities and of plan rows |
| `Generations.ConfirmedPlan` | scripts/lyona_system_management/update_plans.py:350-363 | equal generations mean equal updates and plan, barring a digest collision |
| `Order.LexIsStrict` | scripts/lyona_system_management/update_plans.py:331-340 | Python's comparison of texts, bytes and tuples is a strict total order |
| `Order.SortEqualIff` | scripts/lyona_system_management/update_plans.py:331-340 | sorting by a strict order forgets the order of its input and nothing else |
| `Accounts.BisectRight` | scripts/lyona_system_management/user_accounts.py:134 | the halving finds where a path belongs |
| `Accounts.AccountRead.Choose` | scripts/lyona_system_management/user_accounts.py:133-136 | the selection stays the sorted least 256 of the paths seen |
| `Accounts.AccountRead.Cached` | scripts/lyona_system_management/user_accounts.py:117-136 | after every prefix of a reply the selection is the sorted least 256 distinct valid paths, at most 257 paths are remembered, and a malformed reply is noted exactly when a path was invalid or more than 256 distinct ones came |
| `Accounts.LeastIsUnique` | scripts/lyona_system_management/user_accounts.py:117-136 | that selection is unique, so order and repetition in the reply do not show |
| `Accounts.AccountRead.Current` | scripts/lyona_system_management/user_accounts.py:155-168 | with the caller's own account the overflow is noted exactly when there are more than 256 in all |
| `Accounts.AccountRead.Candidates` | scripts/lyona_system_management/user_accounts.py:179-183 | the candidates are the current account and the least 255 of the others |
| `TomlText.UnescapeInto` | tomlparser.c:135-163 | the string is read to its closing quote whatever fits, and what is stored is a prefix of what it says |
| `TomlText.SkipArrayRest` | tomlparser.c:49-71 | the end found is the first bracket outside a string, and an item is reported exactly when one was passed |
| `TomlText.StripComment` | tomlparser.c:75-93 | in the buffer only the NUL at the comment is written, and the text before it is kept |
| `TomlText.CommentCutsNoString` | tomlparser.c:75-93 | cutting the comment leaves every earlier string whole and no # outside a string |
| `TomlText.EscapesMean` | tomlparser.c:135-163 | a backslash makes a newline of n, a tab of t, and of any other character that character; at the end of the text it stands for itself |
| `TomlText.EscapedReadsBack` | tomlparser.c:135-163 | every text, written escaped and closed, reads back as itself, with the scanner on the closing quote |
| `TomlText.ClosedString` | tomlparser.c:135-163 | where a closed string ends does not depend on what follows it |
| `TomlTables.TomlDoc.ParseInlineTable` | tomlparser.c:165-264 | the loops do what the specification does: every entry, mark and count |
| `TomlTables.TomlDoc.ParseArrayLine` | tomlparser.c:105-121 | likewise for a line of tables |
| `TomlTables.TableKeepsLimits` | tomlparser.c:165-264 | any text at all leaves at most 512 entries, each within its buffers, and those that were there untouched |
| `TomlTables.LineKeepsLimits` | tomlparser.c:105-121 | and so does any line of tables |
| `TomlReports.NextEntryIff` | tomlparser.c:165-190 | an entry is taken if and only if the text is gaps, a key of 1 to 511 characters, an equals sign and a value, with room for it; anything else but the end is reported |
| `TomlReports.AfterValueReports` | tomlparser.c:246-258 | what follows a value up to the comma or brace is skipped, and reported if it is more than spaces |
| `TomlReports.OpenArrayIsReported` | tomlparser.c:196-228 | an array without its bracket is always reported |
| `TomlReports.OpenTableIsReported` | tomlparser.c:165-264 | a table without its brace is always reported, unless all 512 entries are taken |
| `TomlRoundTrip.TableReadsBack` | tomlparser.c:165-264 | a written table is read back pair by pair, strings cut to 511 characters and arrays to 32 items, and the reader stands exactly behind its brace |
| `TomlRoundTrip.LineReadsBack` | tomlparser.c:105-121 | a written line of tables is read back, numbered one after the other, with nothing reported |
| `TomlRoundTrip.ItemsAreSkipped` | tomlparser.c:49-71 | the items that do not fit are skipped to the array's own bracket, whatever they say |
| `BadLines.BadLinesCountedIff` | tomlparser.c:34-43 | over any marks, bad_lines is the number of bad lines if and only if no bad line but the first is marked twice; first_bad_line is always right |
| `BadLines.LinesCountedIff` | tomlparser.c:105-121 | over any text of an array spread over lines, bad_lines counts its bad lines if and only if reading marks no line after the first bad one more than once; first_bad_line is that first one |
| `BadLines.SecondBadLineCountedTwice` | tomlparser.c:34-43 | two stray characters on the second bad line count it twice |

## Left out

- Files as such: descriptors, permissions, mode repair, directory chains, identity and size validation, `fsync` and the loss of unsynced directory entries. A file is its bytes, a held lock excludes others, a lease is an entry in a table.
- Exceptions carry less than the source's texts: the validator's errors are one refusal, other errors are named by kind.
- Operation details and timestamps of the wall clock are texts of the right form; their wording, and the wording of notes given to recovery, replay and owners, are parameters.
- Python texts are sequences of Unicode scalar values: texts with lone surrogates, which no encoder accepts, are not modelled.
- PackageKit, D-Bus, AccountsService and `lsblk` appear only as the evidence, histories, replies and listings they bring, arbitrary within their types.
- `restart` commits across many reboots, or after the operation was applied: no bound is claimed, because prune has no headroom check; for those the restart file is assumed to have room.
- Budget.CommitBudget: says nothing of `restart`, whose bound holds within a boot only and is `RestartBudget.RestartCommitBudget`.
- Rewrites of `restart` interrupted on three or more boots are not claimed to be accepted; the source does not claim it either.
- The digest field of a short restart fragment (bytes 32 to 64) is not compared by the source, and so not here.
- Lease.EveryInterleavingSafe: an owner's work between its locked intervals is not modelled, only that it may happen.
- Mutations.PackageKitMutation.Finish: the prospective validation of the whole journal and the commits of the completion are those of `Recovery.StepSucceeds` and `JournalStore`; here they are one step that succeeds.
- Mutations: progress rows, item rows and cancellation requests to PackageKit, which change no durable state, and the display summary of observed packages.
- Streams.OperationStream.constructor: starts after its first bundle was taken by the writer.
- BlockDevices.ParseRootEncryption: JSON parsing and the check of single tokens are one verdict per entry; the listing is given parsed.
- MonitorMoves.SendMon: null arguments, on which the source returns at once, are not modelled.
- WindowMoves.MoveStack: geometry, drawing, focus changes at the X server and `arrange` are not modelled, here and in all of dwm.
- TagReconciliation.Reconcile: tag masks are sets of tag numbers, the two tag sets are `shown` and `hidden`, the cached `tagmask` fields and per-tag layout settings are not modelled, and which monitor is selected afterwards is stated only as being one of them.
- Generations.SnapshotGeneration: stops at the digest; its hexadecimal form is not modelled.
- Accounts.AccountRead: property reads and the inventory that follow the choice of candidates.
- TomlTables: section headers, single keys, and trimming, comments and long lines in `toml_parse`, which `BadLines` too takes as done; numbers are kept as their text, since `strtol` and `strtod` decide their values.
- Configuration loading, thumbnails, the X watch process, the QML helpers, tool launches and dwm's event loops: independent of what is proved here.
