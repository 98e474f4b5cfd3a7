# Verified model of the Groundskeeper command line

Groundskeeper runs coding agents in tmux sessions. This project models the parts of its command line that hold real
state machines and text transformations, and proves what they promise. Check it with `dafny verify dfyconfig.toml`.

| files | part of the program |
|---|---|
| `Terminal`, `SendLoop`, `SendRuns` | the verified send: type a message, poll the pane, press Enter, clear and type again, or stop |
| `ExecuteSend`, `LaunchSend` | the send pipeline around it, with the operator's half-typed draft, and the prompt of `launch --no-wait` |
| `FlagArgs`, `FlagReorder`, `FlagTables`, `FlagTerminator`, `FlagAlone` | moving flags in front of positionals for Go's flag parser, and the hand-written reorderers |
| `SessionTypes`, `SessionRows`, `StaleSaves`, `StateDb` | the instances table that all processes share, targeted writes against snapshot rewrites |
| `GroupQueue`, `CapProofs`, `QueueOrder`, `QueueEffects` | the concurrency cap of a group and its queue |
| `Parents` | parent links between sessions, one level deep |
| `Titles` | unique titles among the sessions at a path |
| `Text`, `LegacyTable`, `CodexNotify`, `TmuxBlock` | editing configuration files that the user edits too |
| `ConfigMerge` | adding missing settings to a nested configuration |
| `KeyStream`, `InsertMode` | the line protocol that carries keystrokes to a remote session, both ends, and typing into it |
| `GroupReorder` | `group reorder --position` over the flat group list |

The terminal is an adversary: a pane answers captures and status polls from an arbitrary script and may refuse any
keystroke, and every result holds for all scripts. The database is shared: in the durable insert, the durable removal
and the bulk removal other processes may write between any two accesses, anything or through targeted operations only
as each result says. Where the program loops or updates in place, so does the model, and each such method is proved
against a specification over its inputs.

## What was found

The model follows the code. Where the code does less than its comments or names promise, the project proves exactly
when the promise holds, and gives an input on which it does not.

- The group cap counts sessions recorded as running. A live session recorded as anything else is not counted: starting
  until its status is next refreshed, waiting or idle when the refresh finds it so. Two launches in a row exceed a cap
  of one (`BackToBackLaunchesExceedCap`), and a refresh in between helps only when it finds the first one running
  (`RefreshHelpsIffSeenRunning`); `CapHoldsIff` gives the exact condition.
- A status refresh takes a queued session out of the queue, because it has no tmux session: it becomes an error, or
  starting when it is younger than 1.5 seconds (`RefreshLosesQueued`).
- The table that `add` and `launch` reorder by lists neither `--account` nor `--idle-timeout`: in `add p --account v`
  the account becomes `p` and the path `v` (`AddTableMissesAccount`, `LaunchTableMissesIdleTimeout`).
  `ReorderHarmlessIffTableFits` says which tables are harmless.
- The tables of spellings miss spellings that Go's parser takes. The group table lists `--max-concurrent` in none, so
  that the documented `group create wide --max-concurrent 4` fails (`GroupTableMissesMaxConcurrent`), and `--parent`
  with two dashes only (`GroupTableMissesOneDash`); the table of `try` lacks `--c` (`TryTableMissesTwoDashes`), and the
  table of `remote` all spellings with one dash (`RemoteTableNeverFits`). `SpellingsHarmlessIffTableFits` and
  `SpellingsKeepMeaningIffTableFits` say which tables are right.
- `normalizeArgs` loses the meaning of two families of command lines: a last flag whose value is missing takes a
  positional (`NormalizeHidesMissingValue`), and a dash-led argument that only the terminator kept from being a flag
  becomes one (`NormalizeUnshieldsPositional`). `NormalizeKeepsMeaning` shows that there are no others.
- The reorderers with tables take a terminator for a flag and move it to the front: in `add p -- -x` the positional `-x`
  is read as a flag (`TerminatorMovesAhead`). Those with tables of spellings move a lone dash too (`LoneDashMovesAhead`,
  `TerminatorSwapsPositionals`). `HarmlessIffDashLedFirst` gives the exact condition before normalizing, and
  `SpellingTableKeepsMeaningIff` for a table on its own.
- `launch` settles on its parent in the list it loaded: overlapping with `set-parent` it builds a chain of three
  (`OverlappingSetParentBreaksLevel`, `StaleLaunchIsExact`).
- `set-parent`, `rename`, `session start` and `session stop` still save by the snapshot rewrite. It loses sessions that
  were added since the snapshot was loaded (`SnapshotRewriteLosesLaunch`) and undoes what others changed since: of a
  `set-parent` and a `rename` that overlap, the last one undoes the other (`SetParentUndoesRename`). It also clears the
  acknowledgement of every session. `SnapshotRewriteSafeIff` and `RewriteKeepsRowIff` say exactly when it does no harm.
- The bulk removal of errored sessions checks each one once. One put back after its own check, while a later one is
  checked, stays (`PutBackAfterOwnCheck`, `ErroredGoneUnlessPutBack`).
- Saving one row reads it first and replaces it in a second statement. An automatic name cleared in between comes back
  (`ClearedNameComesBack`); `NameStaysClearedIff` says that old rows do no harm and old reads do.
- `codex-hooks status` advises to install over any legacy table, but install refuses unless the table is the program's
  own (`ForeignTableIsRefused`, `StatusPredictsInstall`). The patterns for an installed line ask for `agent-deck`, while
  the program's line says `groundskeeper`: the line that a refused install tells the user to set is refused again
  (`OwnLineIsRefused`).
- One pass over a legacy table can leave another one behind (`OnePassMayLeaveTable`); `PassLeavesTableIff` and
  `RemovalLeavesTableIff` say when.
- With its markers in the wrong order, the tmux block is not removed but the text between the markers is repeated
  (`ReversedMarkersRepeatLine`, `CutShortensIffOrdered`).
- A named key that ends in a carriage return is accepted by the sending end of the key stream and changed by the
  reading end (`CarriageReturnIsLost`); `StreamRoundTrip` gives the exact condition. Insert mode sends no such name, but
  a text of 512 KiB gathered between two flushes does not fit a line (`ModeKeysAreForwarded`).
- `group reorder --position` stops before its target when a child of a sibling stands on the way
  (`ChildBlocksReorder`); `MoveToPosition` gives the exact condition.
- Numbers for titles are chosen by the exact path, duplicates are told by the path without a final slash
  (`SpellingsMayClash`, `UntitledAddsKeepUniqueIffOneSpelling`).

## Model

| member | source | states |
|---|---|---|
| Terminal.Pane.Press | cmd/groundskeeper/session_cmd.go:2705-2707 | each keystroke is recorded, the refused ones too, and the pane's script decides whether it succeeds |
| SendLoop.FirstSettled | cmd/groundskeeper/session_cmd.go:2776-2796 | the first check that confirms the submission: two working checks in a row, or two quiet ones in a row after an earlier working one |
| SendLoop.Check | cmd/groundskeeper/session_cmd.go:2755-2837 | one pass answers with the keystrokes that the window of observations calls for, settles exactly when the specification does, and keeps the six counters in step with the window |
| SendLoop.PollChecks | cmd/groundskeeper/session_cmd.go:2754-2837 | the loop makes its checks up to the first settled one and no further, and reports evidence exactly when some check saw any |
| SendLoop.Poll | cmd/groundskeeper/session_cmd.go:2754-2837 | refinement: settled if and only if the window holds a settled check within the budget, with the keystrokes of exactly the checks made |
| SendLoop.Verify | cmd/groundskeeper/session_cmd.go:2729-2869 | what follows the first typing is one of four deliveries, by an exact partition over the window and the last capture |
| SendLoop.SendWithRetryTarget | cmd/groundskeeper/session_cmd.go:2697-2869 | the whole verified send: send_failed iff the first typing is refused, unverified without another keystroke when verification is skipped, and otherwise the partition and the trace of the specification |
| SendLoop.Deliver | cmd/groundskeeper/session_cmd.go:2697-2869 | the same as one predicate over where the send starts to look, for the pipelines that build on it; nothing is typed beyond the trace of the specification |
| SendLoop.QuietBeforeWorkStep | cmd/groundskeeper/session_cmd.go:2796-2824 | the counter of quiet checks and the resend counter encode the run of quiet checks and the number of lost messages in the window |
| SendLoop.WorkingStep | cmd/groundskeeper/session_cmd.go:2776-2786 | the activity counter encodes whether the check before was a working one |
| SendLoop.QuietAfterWorkStep | cmd/groundskeeper/session_cmd.go:2790-2795 | the counter of waiting checks encodes a quiet check after an earlier working one |
| SendLoop.LostCountBound | cmd/groundskeeper/session_cmd.go:2798-2805 | eight checks are spent for each lost message, counting the run in progress |
| SendLoop.ResendsExactly | cmd/groundskeeper/session_cmd.go:2803-2815 | Ctrl+C and typing again come together, once for each lost message up to the limit |
| SendLoop.ResendBound | cmd/groundskeeper/session_cmd.go:2729-2735 | for every window and budget n: at most min(limit, n/8) full resends, as many Ctrl+C as resends, and none when the limit is negative |
| SendLoop.NoResendAfterWork | cmd/groundskeeper/session_cmd.go:2789-2815 | after a check that saw the agent at work nothing is cleared or typed again |
| SendLoop.SubmittedHasEvidence | cmd/groundskeeper/session_cmd.go:2776-2795 | a run reported submitted saw evidence, and its last look shows nothing unsent |
| SendLoop.ClassifiedIsPartition | cmd/groundskeeper/session_cmd.go:2843-2869 | for every run exactly one delivery fits |
| SendLoop.MoreBudgetKeepsSubmission | cmd/groundskeeper/session_cmd.go:2754-2796 | a larger budget does not change a run confirmed within the smaller one |
| SendRuns.EntersExactly | cmd/groundskeeper/session_cmd.go:2767-2837 | for every window, one Enter for every check that shows the message unsent, for every one at rest before any work that does not type again and is among the first five or even, and for every unclear one among the first four; none at work |
| SendRuns.LooksLostIff | cmd/groundskeeper/session_cmd.go:2796-2815 | the message is taken for lost when nothing was at work and the checks at rest in a row have just reached a multiple of eight |
| SendRuns.SettledIff | cmd/groundskeeper/session_cmd.go:2776-2795 | in terms of captures and statuses: two checks at work in a row, or two at rest in a row after work |
| SendRuns.EvidenceIff | cmd/groundskeeper/session_cmd.go:2755-2778 | evidence is the message unsent in the composer, its text on the screen, or the agent at work |
| SendRuns.DeliveryIs | cmd/groundskeeper/session_cmd.go:2843-2869 | which delivery a run ends with, in the order in which it is decided |
| SendRuns.StuckThroughout | cmd/groundskeeper/session_cmd.go:2767-2773 | a message that stays unsent gets exactly one Enter for every check of the budget and ends as typed and not submitted |
| SendRuns.RestingAnswers | cmd/groundskeeper/session_cmd.go:2796-2824 | an agent that stays at rest: the exact keys, the message again at every eighth check up to the limit |
| SendRuns.UnclearAnswers | cmd/groundskeeper/session_cmd.go:2826-2837 | a state that stays unclear: four Enters and no more |
| SendRuns.LimitsAre | cmd/groundskeeper/session_cmd.go:2698-2735 | three full resends unless asked otherwise, none when switched off, and one check at least |
| ExecuteSend.HoldForDraft | internal/send/guard.go:108-143 | a draft is saved iff every capture of the hold shows one, and it is the last one shown |
| ExecuteSend.ClearComposer | internal/send/guard.go:145-178 | one or two Ctrl+C and nothing else; it ends at the first capture that shows an empty composer, and fails exactly at a refused Ctrl+C or after two windows without one |
| ExecuteSend.GuardComposerDraft | internal/send/guard.go:108-179 | without a draft through the whole hold no key is pressed; with one, cleared and failed-to-clear exclude each other |
| ExecuteSend.AwaitComposerReady | cmd/groundskeeper/session_cmd.go:2620-2642 | ready iff some capture of the window shows the composer, and no capture is taken after the first that does |
| ExecuteSend.PrepareComposer | cmd/groundskeeper/session_cmd.go:2524-2549 | the draft saved is the one shown by the last capture of the hold when every capture of it shows one, and there is none otherwise; the hold starts where the wait ends; only Claude waits and only Claude is guarded |
| ExecuteSend.RestoreDraft | cmd/groundskeeper/session_cmd.go:2553-2563 | the draft is typed back exactly when there is one and the message is not stuck, and the outcome of that keystroke is reported |
| ExecuteSend.ExecuteSend | cmd/groundskeeper/session_cmd.go:2524-2565 | end to end: the saved draft is what the pane showed through the hold, it counts as cleared as the captures after it show, the delivery follows from what the pane shows the send loop by the exact partition, and the trace is Ctrl+C for a draft only, the keys of the send loop, and the draft when it is due; every saved draft ends in exactly one of three ways |
| ExecuteSend.DraftTypedBackOnlyLast | cmd/groundskeeper/session_cmd.go:2516-2520 | the draft is typed back at most once, as the last keystroke, after the message |
| ExecuteSend.JsonTellsTheDraft | cmd/groundskeeper/session_cmd.go:2436-2455 | the JSON fields determine the delivery, the draft and what became of it |
| ExecuteSend.JsonShows | cmd/groundskeeper/session_cmd.go:2436-2455 | the name and value of every field |
| LaunchSend.PollPromptConsumed | cmd/groundskeeper/launch_verify_prompt.go:53-77 | consumed iff some capture of the window shows a composer without the prompt |
| LaunchSend.VerifyPromptConsumedAfterLaunch | cmd/groundskeeper/launch_verify_prompt.go:31-47 | one retry exactly when the first window never shows it consumed, a warning exactly when the second does not either |
| LaunchSend.SendLaunchPrompt | cmd/groundskeeper/launch_cmd.go:563-578 | the exact trace: the keys of the verified send, and one more typing iff it did not fail and no capture of the next window shows the prompt consumed; so one to three typings, at most two without verification, one when the send fails |
| LaunchSend.ThreeIsReached | cmd/groundskeeper/launch_cmd.go:567-570 | a pane, idle and never captured, on which the prompt is typed three times |
| FlagReorder.TakesNext | cmd/groundskeeper/cli_utils.go:44-52 | a flag that takes a value, in either spelling, is set to the next argument, whatever that looks like, or refused by its setter |
| FlagReorder.BooleanReads | cmd/groundskeeper/cli_utils.go:48-52 | a boolean flag is set to true and takes no other argument |
| FlagReorder.EqualsReads | cmd/groundskeeper/cli_utils.go:44-46 | a value behind the first equals sign stays with its flag, boolean or not |
| FlagArgs.MoveFlags | cmd/groundskeeper/cli_utils.go:28-58 | the loop of all reorderers is the stable partition of the command line into flag units and the rest |
| FlagArgs.NormalizeArgs | cmd/groundskeeper/cli_utils.go:19-59 | the arguments are arranged by the reading of a flag set, up to a terminator |
| FlagArgs.FlagTakesItsUnit | cmd/groundskeeper/cli_utils.go:38-52 | a flag that is taken takes exactly the unit that was moved, and one refused for want of a value stands last |
| FlagArgs.ParsersAgree | cmd/groundskeeper/cli_utils.go:19-59 | at every point of the reading, with positionals already moved behind, Go's parser agrees with the interspersed one under the exact condition |
| FlagArgs.NormalizeKeepsMeaning | cmd/groundskeeper/cli_utils.go:19-59 | for every flag set and command line: Go's parse of the moved arguments is the interspersed parse, settings and errors included, iff neither losing case applies |
| FlagReorder.NormalizeHidesMissingValue | cmd/groundskeeper/cli_utils.go:48-58 | the first losing family at `p --name`: an error to the user, and accepted with the value p after the move |
| FlagReorder.NormalizeUnshieldsPositional | cmd/groundskeeper/cli_utils.go:32-36 | the second at `-- -x`: the positional is read as a flag |
| FlagReorder.ReorderArgsForFlagParsing | cmd/groundskeeper/main.go:1046-1104 | a permutation: flags first, each with its value, by the table of names |
| FlagReorder.ReorderGroupArgs | cmd/groundskeeper/group_cmd.go:1108-1143 | the same by the table of spellings of the group commands |
| FlagReorder.ReorderRemoteArgs | cmd/groundskeeper/remote_cmd.go:611-633 | the same by the two-dash spellings of all defined flags |
| FlagReorder.ReorderArgsForTryCommand | cmd/groundskeeper/try_cmd.go:255-289 | the same by the table of spellings of try |
| FlagReorder.MovePermutes | cmd/groundskeeper/main.go:1046-1104 | reordering permutes the arguments, but for the terminator that normalizeArgs drops |
| FlagReorder.UnitsTile | cmd/groundskeeper/group_cmd.go:1108-1143 | flags with their values, and positionals, tile the command line in the order written |
| FlagReorder.MoveTwice | cmd/groundskeeper/cli_utils.go:19-59 | moving twice is moving once |
| FlagReorder.FittingTableIsHarmless | cmd/groundskeeper/main.go:1046-1104 | with a table that fits the flag set, reordering first changes nothing for normalizeArgs |
| FlagReorder.MisfitMovesArguments | cmd/groundskeeper/main.go:1046-1104 | for each name the table is wrong about, a command line on which an argument leaves its flag |
| FlagReorder.ReorderHarmlessIffTableFits | cmd/groundskeeper/main.go:1046-1104 | harmless on all command lines iff the table lists exactly the flags that take a value |
| FlagReorder.AddTableMissesAccount | cmd/groundskeeper/main.go:1053-1075 | `add p --account v` sets the account p and the path v, also after normalizing |
| FlagReorder.LaunchTableMissesIdleTimeout | cmd/groundskeeper/launch_cmd.go:102-103 | `launch p --idle-timeout v` likewise |
| FlagReorder.MissedFlagTakesPositional | cmd/groundskeeper/main.go:1077-1100 | for every reorderer that does not know a valued flag: in `x flag y` the user means y and the parser sets x, or the setter refuses x, and normalizing does not help |
| FlagReorder.FittingSpellingsAreHarmless | cmd/groundskeeper/group_cmd.go:375-377 | where a table of spellings fits the command line, reordering by it before normalizing changes nothing |
| FlagReorder.SpellingReorderKeepsMeaning | cmd/groundskeeper/try_cmd.go:255-289 | where a table of spellings fits, its reordering keeps the meaning under the same exact condition |
| FlagReorder.SpellingsHarmlessIffTableFits | cmd/groundskeeper/group_cmd.go:375-377 | before normalizing, a table of spellings is harmless on all command lines iff it lists both spellings of exactly the defined flags that take a value |
| FlagReorder.SpellingsKeepMeaningIffTableFits | cmd/groundskeeper/try_cmd.go:255-289 | on its own it keeps the meaning of all command lines, as far as normalizing would, iff the same holds |
| FlagReorder.GroupTableMissesOneDash | cmd/groundskeeper/group_cmd.go:1114-1119 | `group create p -parent v` makes a group v under p |
| FlagReorder.GroupTableMissesMaxConcurrent | cmd/groundskeeper/group_cmd.go:1114-1119 | the documented `group create wide --max-concurrent 4` fails, the number being taken to be `wide` |
| FlagReorder.TryTableMissesTwoDashes | cmd/groundskeeper/try_cmd.go:266-268 | `try p --c v` sets the command p for the experiment v |
| FlagReorder.RemoteTableNeverFits | cmd/groundskeeper/remote_cmd.go:612-616 | with two-dash spellings of all flags it fits no flag set that defines one |
| FlagReorder.RemoteTableFits | cmd/groundskeeper/remote_cmd.go:611-633 | the table built from the flag set fits every command line with two-dash flags that take values |
| FlagReorder.RemoteListsAll | cmd/groundskeeper/remote_cmd.go:612-616 | the table lists the two-dash spelling of every defined flag and nothing else |
| FlagTables.AddReadsValue | cmd/groundskeeper/main.go:1220-1341 | for every flag that `add` defines with a value, in either spelling, between any two arguments: it gets the one behind it, all but `--account`, which takes the one before |
| FlagTables.AddKeepsPositionals | cmd/groundskeeper/main.go:1233-1334 | none of its other flags takes an argument |
| FlagTables.LaunchReadsValue | cmd/groundskeeper/launch_cmd.go:20-103 | the same for `launch`, all but `--idle-timeout` |
| FlagTables.LaunchKeepsPositionals | cmd/groundskeeper/launch_cmd.go:29-78 | and its other flags |
| FlagTables.GroupReadsValue | cmd/groundskeeper/group_cmd.go:347-355 | for `group create`, `update` and `reorder`: `--parent`, `--default-path`, `--position` and `-p` get the argument behind them, every other spelling of a flag with a value takes the one before |
| FlagTables.GroupKeepsPositionals | cmd/groundskeeper/group_cmd.go:897-906 | and their other flags |
| FlagTables.TryReadsValue | cmd/groundskeeper/try_cmd.go:16-25 | for `try`: all spellings but `--c` |
| FlagTables.TryKeepsPositionals | cmd/groundskeeper/try_cmd.go:16-25 | and its other flags |
| FlagTerminator.HarmlessIffDashLedFirst | cmd/groundskeeper/cli_utils.go:28-58 | for two readings alike up to the terminator, on every command line: moving before normalizing changes nothing iff the dash-led positionals stand first, after one that fills a missing value |
| FlagTerminator.NameTableHarmlessIff | cmd/groundskeeper/main.go:1077-1100 | so for a fitting table of names on command lines with terminators |
| FlagTerminator.SpellingTableHarmlessIff | cmd/groundskeeper/group_cmd.go:1121-1143 | and for a fitting table of spellings on command lines with terminators and lone dashes |
| FlagTerminator.TerminatorMovesAhead | cmd/groundskeeper/main.go:1077-1100 | `add p -- -x`: the positional is read as a flag |
| FlagTerminator.LoneDashMovesAhead | cmd/groundskeeper/group_cmd.go:1121-1143 | `p -` becomes `- p` |
| FlagTerminator.TerminatorSwapsPositionals | cmd/groundskeeper/try_cmd.go:270-289 | without normalizing `p -- -x` gives the positionals -x and p |
| FlagAlone.SpellingTableKeepsMeaningIff | cmd/groundskeeper/try_cmd.go:255-289 | for a fitting table on its own, on command lines with terminators and lone dashes: the meaning is kept, errors included, iff a lone dash comes last, a last flag without its value has no positional before it, and the dash-led positionals stand first |
| SessionRows.TargetedWritesFrame | internal/statedb/statedb.go:681-736 | a targeted write leaves every row it does not name exactly as it was |
| SessionRows.StatusIsSet | internal/statedb/statedb.go:1189-1222 | a status update writes the status, clears the acknowledgement of a session that runs, and changes nothing else |
| SessionRows.RowsAreIndependent | internal/session/storage.go:451-585 | for every interleaving of targeted writes a row ends as if only the operations naming it had run |
| SessionRows.LastDecision | internal/statedb/statedb.go:988-995 | the last upsert or delete of an id in a run |
| SessionRows.LastDecisionCounts | cmd/groundskeeper/launch_cmd.go:448-457 | a row is absent at the end iff the last operation deciding about it deleted it, and otherwise holds what its last save wrote |
| SessionRows.LaunchedRowSurvives | cmd/groundskeeper/launch_cmd.go:448-457 | for any number of launches, removes and revives interleaved in any way, a launched row nobody removes is there with what its launch saved last |
| SessionRows.RemovedRowIsGone | internal/session/storage.go:451-487 | in any interleaving, a removed row that nobody launches is gone at the end |
| SessionRows.RewriteLoses | internal/statedb/statedb.go:746-919 | a snapshot rewrite loses exactly the rows missing from its non-empty payload |
| SessionRows.RewriteKeepsIdsIffCovering | internal/statedb/statedb.go:746-919 | no row disappears iff the payload covers the table; of the contents it says nothing |
| SessionRows.SnapshotRewriteLosesLaunch | cmd/groundskeeper/launch_cmd.go:448-457 | the two-process run in which a rewrite loses a launched row, and the order in which it does not |
| StaleSaves.RewriteKeepsRowIff | internal/statedb/statedb.go:746-919 | row by row: a row survives unchanged iff the payload is empty, or has it and its last save of it stores exactly what the table holds |
| StaleSaves.RewriteTouchesOnlyIff | internal/statedb/statedb.go:746-919 | the rewrite leaves all rows but one alone iff the payload agrees with the table on every other id, those removed by others included |
| StaleSaves.SnapshotRewriteSafeIff | internal/session/storage.go:305-329 | a snapshot payload leaves every other session alone iff none appeared, disappeared, or was renamed, linked, moved, given another status, acknowledged, or given a name since it was loaded |
| StaleSaves.SetParentUndoesRename | cmd/groundskeeper/session_cmd.go:1740-1752 | two processes, one linking a session and one renaming its parent: whichever rewrite comes last undoes the other |
| StateDb.StateDB.SaveInstance | internal/statedb/statedb.go:681-736 | a read and then an insert or replace of one row, with other writes in between: it writes its own row and, for the automatic name, what it read |
| StaleSaves.SaveBringsNameBackIff | internal/statedb/statedb.go:681-736 | one save, with any writes between its read and its replacement: a name cleared by then comes back iff the row has one and the read did not see it cleared |
| StaleSaves.NamelessIff | internal/statedb/statedb.go:175-195 | over every interleaving of saves, rewrites and other writes with the reads before them: a row stays without an automatic name iff no write since saves one after a read that did not see it cleared |
| StaleSaves.NameStaysClearedIff | internal/statedb/statedb.go:175-195 | the cleared name of a row that is not removed stays cleared iff every later write that saves the row with a name has read it after the clearing |
| StaleSaves.ClearedNameComesBack | internal/statedb/statedb.go:691-722 | the run of two saves in which a cleared name comes back |
| StateDb.StateDB.SaveInstances | internal/statedb/statedb.go:746-919 | sweep and upsert of the payload; refused for an empty payload on a table that is not empty |
| StateDb.StateDB.PersistInstanceStatusesTx | internal/statedb/statedb.go:1189-1222 | the statuses of the rows that still exist are set, in order, and nothing else |
| StateDb.InsertSessionAndVerify | internal/session/storage.go:542-585 | success iff the row is there at the end; failure only after seven inserts; one insert is enough when the others write through targeted operations on other rows; however often the row was dropped it is there as it was to be saved, unless another process saved it or its status; the groups are saved; every other row ends as the others alone would leave it |
| StateDb.RemoveSessionAndVerify | internal/session/storage.go:451-487 | success iff the row is gone at the end; failure only after seven deletes; one is enough when nobody puts it back; the groups are saved; every other row ends as the others alone would leave it |
| StateDb.RunReviveAll | cmd/groundskeeper/revive_cmd.go:35-62 | the summary counts each class, and the revived sessions are the healed ones the snapshot holds, in order |
| StateDb.ReviveAndPersist | cmd/groundskeeper/revive_cmd.go:64-87 | healed rows get their status, no row appears or disappears, no other column and no other row changes |
| StateDb.ClassesCounted | cmd/groundskeeper/revive_cmd.go:35-62 | every outcome is counted once, in its class |
| StateDb.HealedConcat | cmd/groundskeeper/revive_cmd.go:44-62 | the healed ones, in order, outcome by outcome |
| StateDb.HealedOne | cmd/groundskeeper/revive_cmd.go:44-62 | an outcome is healed iff it was errored and was revived |
| StateDb.UpdatesAre | cmd/groundskeeper/revive_cmd.go:56-62 | every healed session that the snapshot holds is updated to the status it has there, and no other |
| StateDb.DropInstance | cmd/groundskeeper/session_remove_cmd.go:209-217 | the kept sessions are packed in order at the front of the same array |
| StateDb.WithoutConcat | cmd/groundskeeper/session_remove_cmd.go:209-217 | kept in order, session by session |
| StateDb.NotErroredConcat | cmd/groundskeeper/session_remove_cmd.go:141-164 | kept in order, session by session |
| StateDb.ErroredIdsConcat | cmd/groundskeeper/session_remove_cmd.go:141-164 | removed in order, session by session |
| StateDb.SortedOne | cmd/groundskeeper/session_remove_cmd.go:141-164 | a session is removed iff it is errored, and dropped iff it has the id |
| StateDb.DeleteErrored | cmd/groundskeeper/session_remove_cmd.go:141-164 | errored sessions are deleted one by one, with other writes after each, while the others are packed in place |
| StateDb.RemoveAllErrored | cmd/groundskeeper/session_remove_cmd.go:134-189 | with other writes after every access, and between each final check and its delete: the table ends as the whole log of writes leaves it, and the rest of the snapshot is packed in order |
| StateDb.ErroredGoneUnlessPutBack | cmd/groundskeeper/session_remove_cmd.go:141-183 | a removed session is gone at the end unless, and only unless, another process put it back after its own final check and nobody deleted it since |
| StateDb.GoneWhenLeftAlone | cmd/groundskeeper/session_remove_cmd.go:176-183 | in particular when the others leave it alone during the checks, also when it was put back before |
| StateDb.PutBackAfterOwnCheck | cmd/groundskeeper/session_remove_cmd.go:176-183 | a run in which a session checked first is put back and stays |
| StateDb.RemovalTouchesOnlyErrored | cmd/groundskeeper/session_remove_cmd.go:165-175 | every other row, also one the snapshot never saw, ends as the other processes alone would leave it |
| GroupQueue.NextQueued | internal/session/group_concurrency.go:48-63 | the queued session of the group created first, the first listed among equals |
| GroupQueue.SessionTable.CountRunningInGroup | internal/session/group_concurrency.go:27-40 | the number of sessions of the group recorded as running |
| GroupQueue.SessionTable.FindNextQueued | internal/session/group_concurrency.go:48-63 | the loop finds the session that the specification describes |
| GroupQueue.SessionTable.HandleLaunch | cmd/groundskeeper/launch_cmd.go:474-500 | a launch into a group at its cap is queued, otherwise started |
| GroupQueue.SessionTable.HandleSessionStart | cmd/groundskeeper/session_cmd.go:224-262 | a start of a session that is not live is queued at the cap; success is reported iff it was started or queued |
| GroupQueue.SessionTable.DrainGroupQueue | cmd/groundskeeper/session_cmd.go:379-399 | below the cap the oldest queued session is started, or marked an error when it cannot be |
| GroupQueue.SessionTable.HandleSessionStop | cmd/groundskeeper/session_cmd.go:345-377 | a stop kills the session and drains its group once |
| QueueEffects.LaunchAdds | cmd/groundskeeper/launch_cmd.go:474-500 | a launch adds one session as asked for: queued at the cap, otherwise live if its start succeeds |
| QueueEffects.StartAchieves | cmd/groundskeeper/session_cmd.go:224-262 | a start of a session that is not live: queued at the cap, live below it if it succeeds; nothing else changes |
| QueueEffects.StartCounts | cmd/groundskeeper/session_cmd.go:224-262 | the queue is one longer at the cap unless the session was waiting already, and the live sessions one more below it |
| QueueEffects.StopAchieves | cmd/groundskeeper/session_cmd.go:345-377 | a killed session is recorded as stopped; one that cannot be killed stays as it was |
| QueueEffects.StopStartsNext | cmd/groundskeeper/session_cmd.go:379-399 | its slot goes to the oldest waiting session of the group, when the group was within its cap |
| QueueEffects.DrainTakesOne | cmd/groundskeeper/session_cmd.go:379-399 | below the cap the oldest waiting session leaves the queue, started or as an error |
| QueueEffects.DrainTakesNone | cmd/groundskeeper/session_cmd.go:379-391 | at the cap, or with nobody waiting, nothing changes |
| QueueEffects.RefreshRecords | internal/session/instance.go:3716-3790 | what a refresh records for every session |
| CapProofs.OtherGroupsUntouched | cmd/groundskeeper/session_cmd.go:354-399 | a command leaves the sessions of every other group alone |
| CapProofs.OnlyNamedAndDrainedChange | cmd/groundskeeper/session_cmd.go:354-399 | in its own group a command changes the session it names and the one it drains, no other; nothing is lost |
| CapProofs.CapStep | internal/session/group_concurrency.go:16-47 | a command keeps all groups within their caps iff it does not start a session in a group whose live sessions fill the cap while the recorded count is below it |
| CapProofs.CapHoldsIff | internal/session/group_concurrency.go:10-47 | over every sequence of commands the caps hold throughout iff no command over-admits |
| CapProofs.CurrentStatusesSeeRightly | internal/session/group_concurrency.go:27-47 | with every live session recorded as running, no command over-admits |
| CapProofs.BackToBackLaunchesExceedCap | cmd/groundskeeper/launch_cmd.go:474-500 | two launches in a row put two live sessions into a group with a cap of one |
| CapProofs.RefreshHelpsIffSeenRunning | internal/session/group_concurrency.go:27-40 | a refresh in between prevents it iff it sees the first session running, not when it sees it waiting or idle |
| CapProofs.QueueWaitsOnlyAtCap | cmd/groundskeeper/session_cmd.go:224-248 | over every sequence of commands in which drained sessions start, sessions wait only in groups whose live sessions fill the cap |
| CapProofs.FailedDrainLeavesSlotEmpty | cmd/groundskeeper/session_cmd.go:392-397 | a failed drain leaves the slot empty with a session still waiting |
| QueueOrder.OrderStep | cmd/groundskeeper/session_cmd.go:379-399 | one command, while a session waits: a freed slot takes one of those ahead of it |
| QueueEffects.StartOrderExactly | cmd/groundskeeper/session_cmd.go:224-262 | a start changes the place of a waiting session exactly when it overtakes it, or starts one ahead of it |
| QueueOrder.WaitIsBounded | cmd/groundskeeper/session_cmd.go:379-399 | over every run, failed drains included: slots freed while a session waits are at most those ahead of it and those that overtook it |
| QueueOrder.LeavesQueue | cmd/groundskeeper/session_cmd.go:392-398 | a waiting session leaves the queue started, by a failed drain, or by a status refresh |
| QueueOrder.StartedAfterItsTurn | cmd/groundskeeper/session_cmd.go:354-399 | with k sessions ahead, nothing overtaking and drains that start, a session is started by the time k + 1 slots were freed |
| QueueOrder.StopFreesSlot | cmd/groundskeeper/session_cmd.go:385-387 | stopping a session that counts frees a slot whenever the group was within its cap |
| QueueOrder.RefreshLosesQueued | internal/session/instance.go:3722-3770 | a refresh takes a queued session out of the queue without starting it: recorded as starting while young, as an error later |
| Parents.Registry.ResolveAutoParent | cmd/groundskeeper/main.go:1169-1190 | the first candidate that names a session decides |
| Parents.Registry.HandleAdd | cmd/groundskeeper/main.go:1427-1454 | an explicit parent that is unknown or a sub-session is refused, an automatic one that is a sub-session is ignored |
| Parents.Registry.HandleSessionSetParent | cmd/groundskeeper/session_cmd.go:1717-1745 | linked iff both sessions exist and the three checks pass, otherwise nothing changes |
| Parents.Registry.HandleSessionUnsetParent | cmd/groundskeeper/session_cmd.go:1878-1894 | the link is cleared iff there is one |
| Parents.Registry.HandleRemove | cmd/groundskeeper/main.go:2244-2265 | the session is removed, links to it stay |
| Parents.OthersUntouched | cmd/groundskeeper/session_cmd.go:1740-1745 | no command changes the link of another session |
| Parents.CommandTakesEffect | cmd/groundskeeper/session_cmd.go:1717-1745 | an accepted command achieves what it is for, a refused one changes nothing |
| Parents.AutoAddLinks | cmd/groundskeeper/main.go:1169-1190 | an automatic link goes to the first candidate that names a session, unless that is a sub-session |
| Parents.NoAutoParent | cmd/groundskeeper/main.go:1181-1190 | there is none when no candidate names a session |
| Parents.ExplicitAddAdds | cmd/groundskeeper/main.go:1427-1454 | an explicit link is accepted iff it names a session that is not a sub-session |
| Parents.SingleLevelIffChainsAreShort | internal/session/instance.go:637-640 | the single level holds iff every chain of links, dangling ones included, has one step; so no cycle of any length |
| Parents.MayLinkIsExact | cmd/groundskeeper/session_cmd.go:1717-1738 | the guards of set-parent pass iff the link keeps the single level |
| Parents.AddLinkIsExact | cmd/groundskeeper/launch_cmd.go:280-300 | linking a new session keeps the single level iff its parent is not a sub-session |
| Parents.StepKeepsForest | cmd/groundskeeper/session_cmd.go:1717-1745 | every command keeps distinct ids and the single level when new ids are new |
| Parents.RunKeepsForest | cmd/groundskeeper/main.go:1427-1454 | so does every run, links to removed sessions included, when ids are not reused |
| Parents.StaleLaunchIsExact | cmd/groundskeeper/launch_cmd.go:280-300 | a launch that settled on its parent in an older list keeps the single level iff that list refused it or the parent has not become a sub-session meanwhile |
| Parents.OverlappingSetParentBreaksLevel | cmd/groundskeeper/session_cmd.go:1717-1745 | the overlapping run that ends in a chain of three |
| Titles.GenerateUniqueTitle | cmd/groundskeeper/main.go:1132-1157 | the base or the least free number; with fewer than a hundred sessions at the path never the time stamp, and free |
| Titles.FirstFree | cmd/groundskeeper/main.go:1143-1153 | the number found is free and every smaller one is taken |
| Titles.ChosenTitle | cmd/groundskeeper/main.go:1132-1157 | the folder name when it is free, else with the least free number from 2 to 100, else with the time stamp |
| Titles.CandidatesDiffer | cmd/groundskeeper/main.go:1149 | different numbers give different titles |
| Titles.SomeCandidateIsFree | cmd/groundskeeper/main.go:1147-1153 | fewer than a hundred sessions cannot take all hundred candidates |
| Titles.IsDuplicateSession | cmd/groundskeeper/main.go:1109-1129 | duplicate iff some session has the title and, up to one final slash, the path |
| Titles.OneSlashIsDropped | cmd/groundskeeper/main.go:1109-1120 | paths are compared without one final slash |
| Titles.SessionList.HandleAdd | cmd/groundskeeper/main.go:1603-1610 | an explicit title that is taken is refused, a missing one is generated |
| Titles.SessionList.HandleRename | cmd/groundskeeper/main.go:2340-2359 | renamed iff the title is the old one or no duplicate; then the session has the title, and no other changes |
| Titles.AddTakesEffect | cmd/groundskeeper/main.go:1603-1610 | a title that is free is added at the end, and one that is taken changes nothing |
| Titles.RenameTakesEffect | cmd/groundskeeper/main.go:2340-2359 | an accepted rename gives the session its title and changes nothing else |
| Titles.RemoveTakesEffect | cmd/groundskeeper/main.go:2244-2265 | a remove takes one session out |
| Titles.AddKeepsUniqueIff | cmd/groundskeeper/main.go:1109-1129 | a new entry keeps titles unique iff it is no duplicate |
| Titles.UntitledAddKeepsUniqueIff | cmd/groundskeeper/main.go:1132-1157 | one generated title keeps titles unique iff no session at another spelling of the path has it |
| Titles.UntitledAddsKeepUniqueIffOneSpelling | cmd/groundskeeper/main.go:1132-1157 | generated titles keep titles unique, whatever the folder name, iff the sessions spell the path in one way |
| Titles.RunKeepsUnique | cmd/groundskeeper/launch_cmd.go:307-319 | every run of adds, launches, renames and removes over clean paths keeps titles unique |
| Titles.SpellingsMayClash | cmd/groundskeeper/main.go:1134-1141 | two spellings of one path get the same title |
| LegacyTable.FindTable | cmd/groundskeeper/codex_hooks_cmd.go:404-421 | the code looks for a table where the specification has one |
| LegacyTable.RemoveTableLines | cmd/groundskeeper/codex_hooks_cmd.go:399-423 | removed iff some header is followed, after blank lines only, by a program line; the kept lines are those outside all tables, in order |
| LegacyTable.RemoveLegacyCodexNotifyTable | cmd/groundskeeper/codex_hooks_cmd.go:399-433 | the text of the kept lines, trimmed, with one line end; the text itself when there is no table |
| LegacyTable.TableIsCut | cmd/groundskeeper/codex_hooks_cmd.go:404-421 | a table among lines without headers is taken out, and the lines above and below it stay |
| LegacyTable.RemovingShortens | cmd/groundskeeper/codex_hooks_cmd.go:399-433 | every removing pass loses at least two lines and shortens the text |
| LegacyTable.NoTableLeft | cmd/groundskeeper/codex_hooks_cmd.go:399-433 | repeating the pass ends with no table left |
| LegacyTable.PassLeavesTableIff | cmd/groundskeeper/codex_hooks_cmd.go:404-421 | the kept lines hold a table iff a header and a program line outside all tables have only blank lines and tables between them |
| LegacyTable.RemovalLeavesTableIff | cmd/groundskeeper/codex_hooks_cmd.go:399-433 | the same for the text that is returned |
| LegacyTable.OnePassMayLeaveTable | cmd/groundskeeper/codex_hooks_cmd.go:399-433 | a text whose removal returns a text with a table |
| LegacyTable.RemoveExactCodexNotifyLine | cmd/groundskeeper/codex_hooks_cmd.go:440-463 | removed iff some line matches, and all matching lines are gone |
| LegacyTable.BareLineIsCut | cmd/groundskeeper/codex_hooks_cmd.go:445-451 | a matching line is taken out, and the lines above and below it stay |
| LegacyTable.OtherLinesAt | cmd/groundskeeper/codex_hooks_cmd.go:445-451 | the lines kept are those at the places that do not match, in increasing order |
| CodexNotify.ConfigFile.Install | cmd/groundskeeper/codex_hooks_cmd.go:224-294 | each outcome, and the text written: the block in front of what is left for the user, or nothing written |
| CodexNotify.ConfigFile.Uninstall | cmd/groundskeeper/codex_hooks_cmd.go:296-345 | each outcome and the text left |
| CodexNotify.ConfigFile.Status | cmd/groundskeeper/codex_hooks_cmd.go:347-367 | the status of a text |
| CodexNotify.BlockIsFound | cmd/groundskeeper/codex_hooks_cmd.go:228-237 | the block in front of any text is found by its markers, and cutting it gives that text |
| CodexNotify.BlockIsCut | cmd/groundskeeper/codex_hooks_cmd.go:228-237 | a block between other text is cut out exactly |
| CodexNotify.InstalledText | cmd/groundskeeper/codex_hooks_cmd.go:391-397 | the text an install writes |
| CodexNotify.InstallIsIdempotent | cmd/groundskeeper/codex_hooks_cmd.go:224-294 | on every text an install rewrites, a second install writes the same text |
| CodexNotify.InstallShowsInstalled | cmd/groundskeeper/codex_hooks_cmd.go:347-367 | after it the status is installed |
| CodexNotify.UninstallUndoesInstall | cmd/groundskeeper/codex_hooks_cmd.go:296-345 | uninstall after install gives the user's text, trimmed, with one line end, or nothing; after an upgrade it ends where uninstalling at once would have |
| CodexNotify.UninstallTakesBlock | cmd/groundskeeper/codex_hooks_cmd.go:304-322 | the text around the block is left, tidied |
| CodexNotify.UninstallTakesTable | cmd/groundskeeper/codex_hooks_cmd.go:324-333 | the lines around a legacy table are left |
| CodexNotify.UninstallTakesBareLine | cmd/groundskeeper/codex_hooks_cmd.go:334-343 | the lines around the bare line are left |
| CodexNotify.UninstallRefusesIff | cmd/groundskeeper/codex_hooks_cmd.go:304-345 | malformed iff a begin marker has no end marker behind it, nothing to remove iff there is no block, table or line; the file is then left as it is |
| CodexNotify.UninstallProgress | cmd/groundskeeper/codex_hooks_cmd.go:296-345 | each uninstall that removes something shortens the file |
| CodexNotify.StatusPredictsInstall | cmd/groundskeeper/codex_hooks_cmd.go:351-366 | what each status tells about the next install, and when the advice to install is refused |
| CodexNotify.StatusPartition | cmd/groundskeeper/codex_hooks_cmd.go:351-366 | when each status is shown, from the patterns alone |
| CodexNotify.InstallPartition | cmd/groundskeeper/codex_hooks_cmd.go:224-279 | when each outcome of an install occurs |
| CodexNotify.ForeignTableIsRefused | cmd/groundskeeper/codex_hooks_cmd.go:351-366 | over a table that runs another program the advice is to install and the install is refused |
| CodexNotify.OwnLineIsRefused | cmd/groundskeeper/codex_hooks_cmd.go:275-280 | the line that a refused install tells the user to set is a custom setting to the status, refused by the next install and left by an uninstall |
| TmuxBlock.CollapseBlankLines | cmd/groundskeeper/main.go:3573-3575 | the loop ends, and its result is the direct specification: a newline is dropped iff two newlines stand right before it |
| TmuxBlock.RemoveTmuxBlock | cmd/groundskeeper/main.go:3555-3576 | rewritten iff both markers are there; block cut, newlines squeezed, one final newline |
| TmuxBlock.ReplacingShortens | cmd/groundskeeper/main.go:3573-3575 | each pass of the loop shortens the text |
| TmuxBlock.ReplacingKeepsSqueeze | cmd/groundskeeper/main.go:3573-3575 | replacing threes by twos does not change what squeezing gives |
| TmuxBlock.SqueezeLeavesNoTriple | cmd/groundskeeper/main.go:3572-3575 | no three newlines in a row are left, and squeezing again changes nothing |
| TmuxBlock.TidiedText | cmd/groundskeeper/main.go:3571-3576 | no other character is lost or moved, no run of three is left, exactly one newline ends the file |
| TmuxBlock.CutTakesBlock | cmd/groundskeeper/main.go:3560-3571 | with the markers in order exactly the block and one newline are cut |
| TmuxBlock.CutShortensIffOrdered | cmd/groundskeeper/main.go:3560-3571 | the cut shortens the file iff the start marker comes first |
| TmuxBlock.CutRepeatsWhenReversed | cmd/groundskeeper/main.go:3560-3571 | with the end marker first the text between the markers is repeated and the start marker stays |
| TmuxBlock.ReversedMarkersRepeatLine | cmd/groundskeeper/main.go:3560-3571 | a file of which the line between the markers stands there twice afterwards |
| ConfigMerge.YamlMap.MergeMissingYAML | cmd/groundskeeper/gk_cmd.go:1719-1736 | in place, on mappings that are references: whatever order the keys come in, the destination ends as the merge of the two values; changed iff its value is; the source is not written, though the destination may share its mappings from then on |
| ConfigMerge.YamlMap.MergeNested | cmd/groundskeeper/gk_cmd.go:1722-1729 | a nested mapping is merged in place, and no other part of the destination changes |
| ConfigMerge.YamlMap.AddMissing | cmd/groundskeeper/gk_cmd.go:1732-1733 | a missing key takes the source's entry itself |
| ConfigMerge.PartMergedStep | cmd/groundskeeper/gk_cmd.go:1721-1734 | one more key, whichever it is, takes the merge of some keys to the merge of those and it |
| ConfigMerge.MergedFinds | cmd/groundskeeper/gk_cmd.go:1719-1736 | path by path, for all paths: what is found afterwards was found in the destination, or the destination missed a key there and the source has it |
| ConfigMerge.PathsTellAll | cmd/groundskeeper/gk_cmd.go:1719-1736 | paths determine a configuration, so the merge is the only one with that meaning |
| ConfigMerge.ExistingStays | cmd/groundskeeper/gk_cmd.go:1722-1730 | no existing scalar changes and no mapping is replaced |
| ConfigMerge.SourcePresentOrShadowed | cmd/groundskeeper/gk_cmd.go:1719-1736 | every path of the source is there afterwards or the destination has something else in its place |
| ConfigMerge.MergeTwice | cmd/groundskeeper/gk_cmd.go:1660-1664 | merging again changes nothing, so that a second write finds nothing to do |
| ConfigMerge.OmpConfig.WriteRecommended | cmd/groundskeeper/gk_cmd.go:1640-1673 | an existing file is written iff the merge changes it, a missing one always |
| KeyStream.HexRoundTrip | cmd/groundskeeper/session_send_keys_cmd.go:196-206 | text in base 16, section 8 of RFC 4648, comes back as it was |
| KeyStream.DispatchLine | cmd/groundskeeper/session_send_keys_cmd.go:191-221 | one line is a keystroke, nothing, or the end of the stream |
| KeyStream.PlayedIsScript | cmd/groundskeeper/session_send_keys_cmd.go:186-227 | playing the lines is sending the keys of their script until one is refused |
| KeyStream.RunSendKeysStream | cmd/groundskeeper/session_send_keys_cmd.go:186-227 | the keystrokes are those asked for up to the first bad line or refused key; exactly the ones before it succeeded; success iff neither occurs |
| KeyStream.StreamingSender.SendKeys | internal/session/remote_keysender.go:154-159 | one line for a text, nothing for an empty one |
| KeyStream.StreamingSender.SendNamedKey | internal/session/remote_keysender.go:162-170 | blank names and names with a line feed are refused and nothing is written |
| KeyStream.StreamingSender.SendEnter | internal/session/remote_keysender.go:173-175 | one line for Enter, while the stream is open |
| KeyStream.StreamingSender.Close | internal/session/remote_keysender.go:190-203 | the stream is closed, after which nothing more is written |
| KeyStream.LineArrives | cmd/groundskeeper/session_send_keys_cmd.go:190-218 | a written line is read as its key iff it fits the buffer and no name ends in a carriage return |
| KeyStream.BadLines | cmd/groundskeeper/session_send_keys_cmd.go:186-206 | the stream ends with an error exactly at a line of 1 MiB or more, and at a text that is not in base 16 |
| KeyStream.LastLine | cmd/groundskeeper/session_send_keys_cmd.go:186-190 | what follows the last line feed is a line too |
| KeyStream.StreamRoundTrip | cmd/groundskeeper/session_send_keys_cmd.go:178-227 | for every sequence of keys the sender accepts: the reader forwards exactly those keys iff every one of them arrives |
| KeyStream.CarriageReturnIsLost | internal/session/remote_keysender.go:162-170 | the name `x` with a carriage return is accepted by the sender and forwarded as `x` |
| KeyStream.IgnoredLineChangesNothing | cmd/groundskeeper/session_send_keys_cmd.go:184-185 | an ignored line anywhere in the stream changes nothing |
| KeyStream.UnknownVerbIsSkipped | cmd/groundskeeper/session_send_keys_cmd.go:219-221 | unknown verbs are ignored; what else is ignored is an empty text or a blank name |
| InsertMode.Mode.Handle | internal/ui/insert_mode.go:185-248 | one event sends what the specification says, and keeps what is gathered |
| InsertMode.Mode.RunInsertMode | internal/ui/insert_mode.go:165-293 | a stay in the mode leaves on the stream the keys of the specification, refused ones skipped, and closes it |
| InsertMode.BatchingKeepsOrder | internal/ui/insert_mode.go:277-293 | whenever the timer fires, the keys sent are what the user pressed, in that order |
| InsertMode.PressedIsForwarded | internal/ui/insert_mode.go:299-378 | from the keyboard to the remote session: what the reader forwards is what was pressed, iff every line fits and no name ends in a carriage return |
| InsertMode.ModeKeysAreForwarded | internal/ui/insert_mode.go:185-248 | for the names the mode sends: iff the texts gathered between flushes fit their lines |
| GroupReorder.MoveGroupUp | internal/session/groups.go:736-751 | the group is swapped with its predecessor iff they have the same parent |
| GroupReorder.MoveGroupDown | internal/session/groups.go:754-769 | the group is swapped with its successor iff they have the same parent |
| GroupReorder.GroupSiblingPosition | cmd/groundskeeper/group_cmd.go:1058-1076 | the siblings in list order, and the place of the group among them, -1 when it is not listed |
| GroupReorder.PositionIsCount | cmd/groundskeeper/group_cmd.go:1063-1075 | in a list of different groups the position is the number of siblings before the group |
| GroupReorder.SameParentIsSibling | cmd/groundskeeper/group_cmd.go:1058-1084 | without a leading slash, the same parent means the same level |
| GroupReorder.MoveStep | cmd/groundskeeper/group_cmd.go:1021-1036 | a move brings the position one closer to the target, or the target is out of reach |
| GroupReorder.MoveToTarget | cmd/groundskeeper/group_cmd.go:1021-1037 | the loop ends, the other groups keep their order, and the target is reached iff only siblings stand on the way |
| GroupReorder.MoveToPosition | cmd/groundskeeper/group_cmd.go:1012-1037 | the same for every requested position, clamped to the siblings; when the target is not reached, the group has passed siblings only and its next move would not bring it closer |
| GroupReorder.ClampedIsNearest | cmd/groundskeeper/group_cmd.go:1012-1020 | the target is the position nearest to the one asked for |
| GroupReorder.ChildBlocksReorder | cmd/groundskeeper/group_cmd.go:1021-1036 | in a, a/x, b the group b does not get to position 0 |

## Left out

- Real tmux, SSH, container, version control and package processes: only the answers they give are modelled.
- Wall-clock time: a deadline is a budget of polls, and creation times and time stamps are parameters.
- How long a send was held (`held_for_composer_ms`) is not part of the result.
- What a capture shows is a record of the markers the code looks for; finding them in a screen is not modelled.
- The regular expressions of the Codex configuration: arbitrary patterns, of which only the word they start with is assumed.
- `ResolveSession`: commands take the id of a session, and resolving titles, prefixes and paths is not modelled.
- The order of two commands on the session table: the queue, the parent links and the titles are proved over sequences of commands, and overlap is treated for the instances table and for `launch` against `set-parent`.
- Columns of a row that no modelled write treats specially (tool data, times).
- Restart, fork, `try`, switching accounts, moving sessions between groups and changing a cap: they do not consult the cap.
- Sessions that die outside a command, other than what a refresh observes of them, and the exemption of a plain shell session that was started without a command.
- Titles.SessionList.HandleAdd: does not model quick creation, which names sessions at random among the titles of their group.
- LegacyTable.RemovalLeavesTableIff: is stated for patterns that ignore all space around a line; the program's own ignores only ASCII space. PassLeavesTableIff holds for all patterns.
- InsertMode.Mode.RunInsertMode: models a stay with a working stream; the fallback that sends each key by a command of its own, and a stream that breaks, are not part of this model.
- GroupReorder.MoveGroupUp: does not model the order number stored with a group, which repeats its place in the list.
- KeyStream.RunSendKeysStream: takes the whole input at once, so that keystrokes sent before the input ends are not told apart from later ones.
- YAML and JSON encoding, mappings with keys that are not strings, file permissions, backups and atomic replacement of files.
- Errors of the database itself, such as a full disk or a lock that is never released: commands stop at them.
- Help texts, tables, the terminal interface, the web server and colours.
