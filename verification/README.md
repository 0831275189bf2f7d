# Verification of the waverms agent

A Dafny model of the parts of the agent where a mistake would cost a device its configuration or its
connection, with proofs of what they promise:

- **the two-phase UCI apply engine**: one decoded payload becomes adds, retypes, value writes, option deletions,
  section deletions, commits and reverts on a staged device store, judged by a single snapshot per package;
- **the commit-confirm protocol** around `config_apply`: dedup of redelivered commands, backup, apply, watchdog,
  confirm, rollback, deferred acks, over every interleaving of its lock-sized steps;
- **standing registrations and the event pipeline** of `ubus_watch` and `ubus_listen`: a registry with late
  cleanups, and two bounded queues that drop instead of blocking;
- **clean start after a reflash**, across reboots; **disconnect detection** in the MQTT client;
- **the size-capped activity log**, whose calls may overlap; **`uci_set`** (addresses, positional sections, list edits), and two text
  formats that are written and read back: credentials and `/etc/shadow`.

`dafny verify dfyconfig.toml` checks everything.

## How it is modelled

- Code that changes things step by step is a method or a class whose methods are proved against functions on
  values: `UCIRunner` holds the committed and the staged packages, `Applier` works on it in the source's loops,
  `Agent`, `SeenConfigApply`, `Registry`, `Session` and `PahoClient` hold the fields the source guards by mutexes.
  `ActivityLogFile` is the log as one call after another finds it; the source guards it by nothing, and
  `LogInterleavings` lets the calls overlap. The functions (`Staging`, `Window`, `Verdict`, `Trimmed`, ...) then carry
  the lemmas.
- Concurrency is a state machine whose actions are the source's lock-sized steps, taken in any order
  (`CommitConfirm`, linked to the `Agent` methods by `AgentChains`, `StopRegistry`, `EventPipeline`, `CleanStart` and
  the second half of `MqttClient`), or single file operations where there is no lock (`LogInterleavings`, linked to
  `ActivityLogFile` by `CallAloneAppends`). A run is a trace of states from a start state; every promise is about all
  runs. When several `select` cases are ready, any of them may be taken; timers, durations and the network are
  nondeterministic. Handlers other than `config_apply` that write configuration files are one action (`OtherWrite`).
- Every device operation except `Revert`, whose result the source ignores, may fail at any time although it could have
  been done; `UCIRunner` counts such faults, unreadable packages apart, so that each contract can say when an operation
  succeeds: without a fault exactly when what it asks for is possible. A failed write
  may leave its own package's staged view in any state and never touches a committed file; a failed `Commit`
  changes nothing; `GetSections` fails for a package without a file and may fail for any other reason, which the
  apply engine takes for "no sections" (`StageRead`, with the packages it happened to in a ghost result).
- The id a device gives a new anonymous section is an arbitrary function of the package that returns an id not in use.
- Deleting options that are already gone, or only some of which are there, succeeds.
- Adding a section under an id that is already there retypes that section in place; an empty list is an absent
  option, as internal/agent/uci_set.go:258-259 says of UCI.
- An anonymous section's name is never read; here it is its id, which is what ubus reports as `.name`.
- Text is a `string` of characters; where the source compares a size with a limit, the credentials count the bytes of
  their UTF-8 form, and in the activity log each char stands for one byte.
- A configuration file's content is the list of sections it holds, so an empty file is `[]` and not absence.
- Payloads are modelled after JSON decoding. A section field is a string, a list of printed items, or the printed form of anything else.
- `sort.Strings` over map keys is the unique ascending enumeration of the key set, so no result depends on map iteration order.

## What does not hold

Each of these is a lemma with a concrete run or input:

- a `config_confirm` with an empty `cmd_id` sent to an idle agent closes a nil channel (`EmptyConfirmCrashesIdleAgent`); exactly that input crashes it (`ConfirmCrashesExactly`);
- two overlapping `config_apply` commands disturb each other exactly through the packages they share: commands that share none keep what they promise on their packages, if no other handler writes those (`RollbackAndConfirmPerPackage`), and for any two that share one there is a run in which the first one's rollback removes the second one's configuration although the second is then confirmed (`OverlapBreaksConfirm`), and one in which a rollback is undone by the other (`OverlapBreaksRollback`);
- other handlers write configuration files while a watchdog waits: after a commit of one of its packages an ok ack is sent for configuration that is no longer on disk (`OtherWriteBreaksConfirm`), and after a commit of any other package a rollback does not bring the whole directory back (`OtherWriteBreaksRollback`), though it does bring back its own packages;
- without any overlap, a command can be rolled back and never answered: its queued error ack is lost exactly when the next rollback queues its own before it was sent (`QueuedAckCanBeLost`, `AckIsLostExactly`, `QueuedAckSurvives`);
- a confirm that arrives in time can lose to the timer, or to a watchdog that starts without a session (`ConfirmCanLose`, `ConfirmLosesExactly`);
- an exiting watchdog can take the channel of a later command with the same, re-accepted id out of the slot (`ExitCanFreeASuccessor`);
- a trip decided on the publish failures of one MQTT session closes the next session, which had no failure, if a connect comes between counting and tripping (`TripCanCloseNextSession`), and only then (`TripHitsItsSessionExactly`);
- nothing serialises the calls that append to the activity log: two overlapping ones can leave it larger than its cap (`OverlapExceedsCap`), a trim can remove a line that was just written (`OverlapLosesLine`), and two trims through the one temporary path can tear a line (`OverlapTearsLine`). The cap can be exceeded only by lines pending at the same time as long as no trim overlaps another call, and then no line is lost or torn (`LogExceedsCapByPending`, `LogIsSuffixOfWritten`);
- a `keep_config` flash whose sentinel could not be written, and a restart right after enrollment saved the credentials, let one sysupgrade command flash twice (`UnwrittenSentinelFlashesTwice`, `InterruptedEnrollmentFlashesTwice`);
- a name listed more than once is not simply overwritten, under one type or several: each listing is compared with the snapshot, so the first listing's type can win (`FirstTypeCanWin`) and options of several listings can survive together (`OptionsOfBothSurvive`, `TwoListings`). A listing is honoured exactly when it agrees with the listings that decide (`HonouredExactly`), and staging again is a no-op exactly when no name is empty, the listings of a name agree on the type, and later ones mention every option earlier ones set (`MergeIsIdempotentExactly`);
- a package whose sections could not be read although it has a file is staged on as if it were empty: nothing is removed in any mode, unnamed sections are added again (`UnreadRemovesNothing`), and a `.delete` succeeds without deleting anything (`UnreadDeleteKeepsAll`);
- a `.mode` that is neither `merge` nor `replace` is no error: nothing is swept or reused, so the unnamed sections are added again with every apply (`OtherModesOnlyAdd`);
- a section with an empty name adds one anonymous section each time it is staged (`EmptyNamesGrow`), and makes the whole staging fail exactly when it has options (`StagingIsPossibleExactly`);
- `uci set @T[N]=U` followed by the same address does not show `U` unless `T` is `U` (`SetThenGet`); `add_list` then `del_list` turns a scalar into a list and removes an item that was there before (`AddThenDelRestores`).

## Model

| member | source | states |
|---|---|---|
| Uci.FindFirst | internal/uci/sections.go:85-92 | the first match in device order, none exactly when nothing matches |
| Uci.FindSectionByName | internal/uci/sections.go:95-97 | the first non-anonymous section of that name |
| Uci.FindSectionByID | internal/uci/sections.go:100-102 | the first section with that id |
| Uci.IndexIsUnique | internal/uci/sections.go:85-102 | on a device package a section is found by its id, and a named one by its name, at its own position |
| Runner.CreateOrRetype | internal/uci/sections.go:110-125 | creates, retypes or leaves alone as the earlier snapshot says, writing to the package as it is now, and touches no other package |
| Runner.UCIRunner.GetSections | internal/uci/runner.go:21-26 | the staged view of a package that has a file, or an error, for whatever reason |
| Runner.UCIRunner.EnsurePackage | internal/uci/runner.go:26-30 | at most an empty file appears; existing files and all sections stay |
| Runner.UCIRunner.Add | internal/uci/runner.go:31-38 | a fresh anonymous section at the end, or the named section; only this package's staged view changes |
| Runner.UCIRunner.SetValues | internal/uci/runner.go:39-42 | the addressed section gets the values, lists replacing whole options |
| Runner.UCIRunner.DeleteOptions | internal/uci/runner.go:43-45 | exactly the listed options of the addressed section go |
| Runner.UCIRunner.Delete | internal/uci/runner.go:46-47 | exactly the addressed section goes |
| Runner.UCIRunner.RetypeExisting | internal/uci/runner.go:50-57 | only the addressed section's type changes, in place |
| Runner.UCIRunner.Commit | internal/uci/runner.go:152-162 | on success the file holds what was staged and the deltas are gone; with nothing staged it is a no-op; on failure nothing changes |
| Runner.UCIRunner.Revert | internal/uci/runner.go:164-167 | this package's deltas are gone, nothing else changed |
| SortedKeys.Sorted | internal/apply/applier.go:109-115 | each key once, ascending, nothing else |
| SortedKeys.BelowIsLexicographic | internal/apply/applier.go:50 | the order is by the first different character, a prefix first |
| SortedKeys.SortedIsUnique | internal/apply/applier.go:105-115 | two ascending enumerations of the same keys are equal, so map order cannot show |
| Applier.Applier.ExistingSectionTypes | internal/apply/applier.go:196-206 | the distinct types in order of first appearance |
| Applier.Applier.AnonymousSectionIDs | internal/apply/applier.go:210-218 | ids of the anonymous sections of one type, in device order |
| Applier.Applier.DeleteUnwantedSections | internal/apply/applier.go:224-237 | success means the sweep of this type over the snapshot was carried out on the current package; without a fault it fails only if that is impossible |
| Applier.Applier.CleanStaleOptions | internal/apply/applier.go:307-325 | success means the options the snapshot had and the payload does not want are gone; without a fault it fails only if that is impossible |
| Applier.Applier.ApplySection | internal/apply/applier.go:243-303 | success means the package is what applying this one section specifies; no other package is touched; without a fault it fails only if that is impossible |
| Applier.Applier.StageSections | internal/apply/applier.go:174-190 | the loop over one type reuses the anonymous sections by position and computes the specified fold; without a fault it fails only if that is impossible |
| Applier.Applier.StagePackage | internal/apply/applier.go:84-192 | success means the staged view is `Stage` of what was there, or `StageRead` without the snapshot if the sections could not be read; no committed sections change; without a fault it fails only if that is impossible |
| Applier.Applier.FetchSections | internal/apply/applier.go:123-141 | the snapshot is the package as staged, or empty when the read failed; an empty file is created only if there is something to add, and then there is a file |
| Applier.Applier.StageAll | internal/apply/applier.go:51-63 | all packages staged from what was found, or the deltas of the failing package and those before it reverted, the later ones untouched; no section of any file changed; without a fault it fails only if some package cannot be staged |
| Applier.Applier.CommitAll | internal/apply/applier.go:69-80 | exactly the returned prefix of the packages holds its staged content, the rest its old content, and no delta is left; it fails only by a fault |
| Applier.PackagesAre | internal/apply/applier.go:36-49 | every key but `packages` and `reboot` is a package, and they are taken in ascending order |
| Applier.Applier.Apply | internal/apply/applier.go:29-81 | without a fault it succeeds exactly if the payload is an object of packages each of which can be staged, as `StagingIsPossibleExactly` says; whatever fails, exactly the returned prefix of the sorted packages holds what staging it yields, every other file its old sections, and a file appears only for a package with something to add; nothing is left staged of any payload package on success and after a commit failure, and after a staging failure nothing of the failing package and those before it, with the later ones untouched |
| StagingLaws.HitStep | internal/apply/applier.go:243-325 | a section that takes over an existing one leaves exactly its type and options there, position and identity unchanged |
| StagingLaws.MissStep | internal/apply/applier.go:256-262 | a section that takes over nothing becomes the new last section with exactly its options |
| StagingLaws.OptionsSettle | internal/apply/applier.go:264-325 | setting the desired values and dropping the stale options leaves exactly the desired options |
| StagingLaws.AnonSlotsFacts | internal/apply/applier.go:208-218 | the slots are exactly the positions of the anonymous sections of the type, ascending |
| StagingLaws.AnonIdsAtSlots | internal/apply/applier.go:210-218 | the collected ids are the ids at these slots, in order |
| StagingLaws.TargetsDisjoint | internal/apply/applier.go:174-190 | no two desired sections take over the same existing section |
| StagingLaws.MergeLeavesAlone | internal/apply/applier.go:165-192 | a section no desired one takes over is left exactly as it was |
| StagingLaws.MergeOverwrites | internal/apply/applier.go:165-192 | a taken-over section ends with exactly the payload's type and options |
| Listings.StagingOverlays | internal/apply/applier.go:165-325 | for any names and with or without reuse, staging fails exactly when a section with an empty name has options, and otherwise overlays listing after listing on the section as it is, judged by the snapshot |
| Listings.OutcomeIsFound | internal/apply/applier.go:243-325 | what a name finds afterwards is the outcome of its listings alone, in order, whatever else the payload lists |
| Listings.HonouredExactly | internal/apply/applier.go:243-325 | the named section ends with exactly a listing's type and options if and only if its name is not empty and it agrees with the deciding listings: for the type the last one that differs from the snapshot, for an option of the snapshot the last one, for any other the last one that mentions it |
| Listings.SoleListingIsHonoured | internal/apply/applier.go:243-303 | a non-empty name listed once ends with exactly its type and options, whatever the rest of the payload repeats |
| Listings.TwoListings | internal/uci/sections.go:110-125 | a name listed twice: the second values over the first, less the snapshot's options the second does not list; the second type, unless the snapshot shows it already, then the first |
| Listings.FirstTypeCanWin | internal/uci/sections.go:110-125 | an input on which the first listing's type stays |
| Listings.OptionsOfBothSurvive | internal/apply/applier.go:264-325 | inputs on which the options of both listings stay |
| Listings.UnlistedStays | internal/apply/applier.go:165-192 | a named section the payload does not list is unchanged and in its place |
| Listings.OverlaidExtends | internal/apply/applier.go:165-192 | the result is well formed, every old section keeps position, id, name and (if anonymous) type, and new ones follow |
| Listings.AnonymousByPosition | internal/apply/applier.go:168-190 | whatever names are repeated or empty: in merge mode the i-th anonymous section of a type on the device keeps its place and gets the contents of the i-th desired one, surplus ones keep theirs, further desired ones follow in order, among them one empty section per empty name; without reuse all keep place and contents and all desired ones follow |
| Listings.MergeIsIdempotentExactly | internal/apply/applier.go:84-192 | staging the result again changes nothing if and only if no name is empty, all listings of a name have one type, and each option a listing sets is mentioned by a later listing of that name if there is one |
| Listings.LastIsHonoured | internal/apply/applier.go:243-325 | then the last listing of each name is what remains, whatever the snapshot shows |
| Listings.EmptyNamesGrow | internal/apply/applier.go:244-262 | each staging adds one section per empty name |
| ReplaceTheorems.SweepLeavesSurvivors | internal/apply/applier.go:139-163 | the nested per-type sweep never deletes twice and leaves exactly the named sections the payload keeps |
| ReplaceTheorems.TypesCover | internal/apply/applier.go:196-206 | each existing type is swept once, and every section's type is swept |
| ReplaceTheorems.SurvivorsAreKept | internal/apply/applier.go:224-237 | a section survives exactly when it is named and its name is kept |
| ReplaceTheorems.ReplaceIsMerge | internal/apply/applier.go:139-192 | staging in replace mode is staging in merge mode on what the sweep left |
| StagingPossible.FoldIsPossible | internal/apply/applier.go:165-325 | whatever snapshot staging goes by, reuse or not, every write finds its section, and staging fails exactly when a section with an empty name has options |
| PayloadTheorems.ShowsExactly | internal/apply/applier.go:264-290 | the options a section ends with are exactly its fields without a leading dot: strings and other values as text, lists as lists, empty lists not at all |
| PayloadTheorems.WorkIsInOrder | internal/apply/applier.go:105-121 | the sections are staged type after type, types without a leading dot in ascending order, and as listed within a type, and nothing else is |
| PayloadTheorems.StagingIsPossibleExactly | internal/apply/applier.go:84-192 | whatever the mode and whatever was there, read or not: staging goes through exactly if `.delete` is true, or all types hold sections and no section with an empty `.name` has another key without a leading dot |
| PayloadTheorems.ReplaceStagesExactly | internal/apply/applier.go:85-163 | a payload whose `.mode` is `"replace"` and whose `.delete` is not true: exactly the sections it names stay, its listings are laid over them, and it fails only as said above |
| PayloadTheorems.ReplaceYieldsPayloadExactly | internal/apply/applier.go:85-192 | such a payload leaves exactly itself, its named sections with their types and options and per type the anonymous contents in order, if and only if all types hold sections, no name is empty and every named listing agrees with the listings that decide on its name |
| PayloadTheorems.ReplaceYieldsPayload | internal/apply/applier.go:85-192 | so with distinct, non-empty names it always leaves exactly itself |
| PayloadTheorems.MergeStagesExactly | internal/apply/applier.go:85-192 | a payload whose `.mode` is `"merge"`, absent or no string: the overlay of its listings on what is there, when it fails, and when a second staging is a no-op |
| PayloadTheorems.MergeYieldsPayload | internal/apply/applier.go:85-192 | such a payload without empty names: a name listed once ends with exactly its type and fields, the first anonymous sections of a type show the unnamed listings in order, nothing is removed, and what is neither listed by name nor reached by position is untouched |
| PayloadTheorems.OtherModesOnlyAdd | internal/apply/applier.go:85-192 | any other `.mode`: nothing is removed or reused, every anonymous section stays as it was and the unnamed listings are added behind |
| PayloadTheorems.DeleteEmptiesPackage | internal/apply/applier.go:93-103 | a true `.delete` gives the empty package whatever else is listed and whatever the mode |
| UnreadPackages.UnreadRemovesNothing | internal/apply/applier.go:129-192 | in every mode, staging a package that could not be read keeps all its sections in place and adds one per unnamed section of the payload |
| UnreadPackages.UnreadDeleteKeepsAll | internal/apply/applier.go:93-163 | a `.delete` of a package that could not be read stages nothing and succeeds |
| StateReport.GroupByType | internal/uci/sections.go:132-143 | every section reported under its type, in device order, with `.name` exactly when named |
| StateReport.ReportsAreExact | internal/uci/sections.go:127-143 | under a type stand exactly its sections, in device order, each with exactly its options, a string as a string and a list as a list, and its name if it has one |
| StateReport.StateReportIsFixpoint | internal/uci/sections.go:127-143 | merging a package's own report into it leaves every id, type, option and position as it was |
| Dedup.SeenConfigApply.WasConfigApplySeen | internal/agent/agent.go:749-766 | an id counts as seen exactly when it is among the last 32 accepted; set and queue hold the same duplicate-free ids |
| Dedup.ReacceptedAfterManyOthers | internal/agent/agent.go:723-766 | between two acceptances of one id at least 32 different other ids were accepted |
| Dedup.WindowsHaveNoRepeats | internal/agent/agent.go:723-766 | any 33 consecutive acceptances are of different ids |
| Rollback.BackupConfigFiles | internal/agent/rollback.go:40-54 | the backup is the content of each listed file, or its absence; it fails only by a fault |
| Rollback.Restore | internal/agent/rollback.go:59-83 | every package is attempted: all but those whose file operation failed are back or gone as recorded, and no other file is ever touched; it reports success exactly without a fault |
| Rollback.RestoreUndoes | internal/agent/rollback.go:40-83 | restoring a backup brings the whole directory back exactly when nothing outside the listed packages changed |
| Agent.Agent.SetWatchdogConfirm | internal/agent/agent.go:707-712 | the slot holds this id and channel |
| Agent.Agent.ClearWatchdogConfirm | internal/agent/agent.go:714-721 | the slot becomes idle exactly when it holds this id |
| Agent.Agent.SignalWatchdogConfirm | internal/agent/agent.go:770-780 | closes the registered channel of this id once and frees the slot; panics exactly for an empty id on an idle slot |
| Agent.Agent.TakePendingRollbackAck | internal/agent/agent.go:809-816 | hands the queued ack out once |
| Agent.Agent.HandleConfigApply | internal/agent/agent_handlers.go:75-131 | a redelivery changes nothing; a new command gets one error ack and no watchdog, or no ack yet and a watchdog holding the slot and a backup that undoes the apply on the whole directory, with nothing of its packages left staged; after an error ack the files and deltas are those of a failed apply; without a fault a new command launches its watchdog exactly if the payload is an object of packages each of which can be staged |
| Agent.Agent.DoRollback | internal/agent/rollback.go:135-144 | queues one error ack; without file errors the directory is restored |
| Agent.Agent.RunConnectivityWatchdog | internal/agent/rollback.go:94-132 | one ok ack and no file change, or one queued error ack and the restored files, as the verdict says; then slot and flag are freed |
| Agent.VerdictMeaning | internal/agent/rollback.go:84-132 | rollback exactly without a session at the start or when the timer finds none; confirm exactly on the server's confirm or a timer with a live session; drops alone decide nothing |
| CommitConfirmSafety.RunsKeepInv | internal/agent/rollback.go:94-144 | over all runs every answered command has its one answer in exactly one place, the slot is idle or holds an open channel of a watched command, the dedup record holds |
| CommitConfirmTheorems.DeliveryIsAcceptedExactly | internal/agent/agent.go:749-766 | in every run a delivery is accepted exactly if its id is not one of the last 32 accepted, and otherwise changes nothing |
| CommitConfirmRuns.CommandCanBeConfirmed | internal/agent/agent_handlers.go:75-131 | any command has a run in which the server confirms it: one ok ack, what was applied on disk, slot and flag free |
| CommitConfirmRuns.CommandCanBeRolledBack | internal/agent/rollback.go:94-144 | any command has a run in which its session is lost: one error ack in the next session, the old files back, slot and flag free |
| CommitConfirmTheorems.SentAcksStaySent | internal/agent/agent.go:1049-1051 | the log of sent acks only grows along a run |
| CommitConfirmTheorems.OneAnswerPerCommand | internal/agent/agent_handlers.go:75-131 | two acks for one cmd_id answer two accepted deliveries with at least 32 other accepted ids between them, in every interleaving |
| CommitConfirmTheorems.EveryCommandEndsOnce | internal/agent/rollback.go:94-144 | each accepted command ends as exactly one of error ack, ok ack, or rollback whose error ack is sent, queued, or overwritten by a later rollback; `AckIsLostExactly` says when the last happens |
| CommitConfirmTheorems.AckIsLostExactly | internal/agent/agent.go:803-807 | a queued error ack is lost at a step exactly if another rollback queues its own there |
| CommitConfirmTheorems.QueuedAckSurvives | internal/agent/agent.go:803-816 | a queued error ack is still queued, or was sent, at every later moment up to which no other rollback queues one before it is sent |
| CommitConfirmRuns.QueuedAckCanBeLost | internal/agent/agent.go:1049-1051 | a run without overlap in which a finished command's error ack is never sent, because the next command's rollback comes before a session takes it |
| CommitConfirmTheorems.OutcomesHaveGrounds | internal/agent/rollback.go:94-132 | an outcome is reached once and never revised: confirmed only with a closed confirm channel or a live session, rolled back only without a session |
| CommitConfirmTheorems.ConfirmCrashesExactly | internal/agent/agent.go:770-780 | no channel is closed twice; the only crash is an empty id on an idle slot |
| CommitConfirmTheorems.EmptyConfirmCrashesIdleAgent | internal/agent/agent.go:773-774 | the input that does it |
| CommitConfirmTheorems.ConfirmReachesItsCommand | internal/agent/agent.go:770-780 | a confirm for another id changes nothing; a matching one closes the open channel of a still watched command with its id |
| CommitConfirmTheorems.ConfirmIsNeverMissed | internal/agent/agent_handlers.go:117-127 | one command at a time: from registration to exit the first confirm with its id reaches it |
| CommitConfirmTheorems.ExitSparesOthers | internal/agent/agent.go:714-721 | an exiting watchdog takes another command out of the slot only if both carry the same id, at least 32 other ids apart |
| CommitConfirmTheorems.RollbackAndConfirmMeanIt | internal/agent/rollback.go:94-144 | the special case of one command at a time and no other writer since it was accepted, for the whole directory: after a rollback without file errors it is what it was, and an ok ack finds on disk what was applied |
| CommitConfirmTheorems.FlagMeansWatchdog | internal/agent/rollback.go:94-99 | one command at a time, whoever writes files: the flag is set exactly while a watchdog is on its way |
| CommitConfirmPackages.RollbackAndConfirmPerPackage | internal/agent/rollback.go:94-144 | as long as no command under way together with it shares a package and no other handler writes one of its packages: on a command's packages the directory is what it applied when it is confirmed, and what it was at its acceptance after its rollback without file errors |
| CommitConfirmRuns.OtherWriteBreaksConfirm | internal/agent/agent.go:238-247 | for any packages and any one of them, a run of a single command in which another handler's commit of it leaves an ok ack due for configuration that is no longer on disk |
| CommitConfirmRuns.OtherWriteBreaksRollback | internal/agent/agent.go:238-247 | for any packages and any other package, a run of a single command in which another handler's write outlives the completed rollback, which restored the command's packages only |
| CommitConfirmRuns.OverlapBreaksConfirm | internal/agent/agent.go:479-516 | for any two package sets with a common package, a run without file errors in which an ok ack is due for a configuration that is no longer on disk |
| CommitConfirmRuns.OverlapBreaksRollback | internal/agent/agent.go:479-516 | and a run in which a completed rollback is undone by the other command's |
| CommitConfirmTheorems.ConfirmLosesExactly | internal/agent/rollback.go:94-123 | a command whose confirm channel is closed is rolled back exactly when its deciding step is the timer or the start of its watchdog, and there is no session |
| CommitConfirmRuns.ConfirmCanLose | internal/agent/rollback.go:107-123 | a run in which a confirmed command is rolled back by its timer |
| CommitConfirmRuns.ExitCanFreeASuccessor | internal/agent/agent.go:714-721 | a run in which an exiting watchdog frees the slot of a later command with the same id, re-accepted after 32 others |
| AgentChains.LaunchedIsAChain | internal/agent/agent_handlers.go:75-127 | the protocol's steps from delivery to the running watchdog, taken without interference, show what HandleConfigApply is proved to show |
| AgentChains.RefusedIsAChain | internal/agent/agent_handlers.go:93-108 | the same for a command that fails |
| AgentChains.ConfirmedIsAChain | internal/agent/rollback.go:94-123 | the steps of a watchdog that confirms show what RunConnectivityWatchdog is proved to show |
| AgentChains.RolledBackIsAChain | internal/agent/rollback.go:94-144 | the same for a watchdog that rolls back |
| StopRegistry.Registry.StartOrNoop | internal/agent/stopregistry.go:12-21 | the existing channel, or a new one registered under the key |
| StopRegistry.Registry.StopKey | internal/agent/stopregistry.go:27-35 | the key's channel, and the key is gone |
| StopRegistry.Registry.CleanupOwnEntry | internal/agent/stopregistry.go:40-46 | the key goes only if it still maps to this channel |
| StopRegistry.OneStandingPerKey | internal/agent/ubus_watch.go:163-223 | in every interleaving at most one goroutine per key is neither stopped nor cleaned up, and it is the registered one |
| StopRegistry.NoChannelClosedTwice | internal/agent/stopregistry.go:23-46 | in every interleaving no stop channel is closed twice: one that is to be closed is not closed yet, and no registered one was taken or closed |
| StopRegistry.LateCleanupSparesSuccessor | internal/agent/stopregistry.go:37-46 | a late cleanup removes its own entry or nothing |
| StopRegistry.KeyIsFreeAgain | internal/agent/ubus_listen.go:111-151 | a key is unregistered exactly when none of its goroutines is standing |
| StopRegistry.KeyCanRestart | internal/agent/ubus_listen.go:111-151 | a run in which a key is stopped and started again before the first goroutine cleans up, which then leaves the second one registered |
| EventPipeline.OfferedInOrder | internal/agent/ubus_listen.go:195-266 | in every run the published lines are, process after process, matching lines in stdout order; reader-matched = published + in flight + queued + dropped; buffers within 16 and 8; nothing sent on a closed channel |
| EventPipeline.NothingDroppedNothingLost | internal/agent/ubus_listen_proc.go:164-177 | a finished process that dropped nothing published exactly its matching lines |
| EventPipeline.DropMeansFull | internal/agent/ubus_listen.go:217-234 | a scanned line is dropped exactly when 16 are buffered, a matching one exactly when 8 are queued, and otherwise goes into the buffer |
| EventRuns.EverythingCanGetThrough | internal/agent/ubus_listen_proc.go:164-177 | whatever a process prints, some run publishes exactly its matching lines and ends its goroutines |
| EventPipeline.RunsKeepInv | internal/agent/ubus_listen.go:195-266 | no process moves after its successor started, and every matching line scanned is in the flow or counted as dropped |
| CleanStart.FlashesAtMostOnce | internal/agent/sysupgrade.go:205-234 | across reboots one command flashes at most once, given a sentinel for every keep_config flash and no restart during enrollment |
| CleanStart.FirstConnectAfterFlashIsClean | internal/agent/agent.go:974-995 | on both keep_config paths the first successful connect after the flash is a clean start and discards the queued command |
| CleanStart.PendingCleanStartSurvives | internal/agent/agent.go:974-995 | within a process, a clean start is pending exactly if the sentinel was there at boot or enrollment ran, until one connect succeeds; failed connects keep it |
| CleanStart.SentinelIsConsumed | internal/agent/agent.go:992-995 | unless its removal failed, the sentinel outlives one clean connect only as part of a new flash |
| CleanStart.ReflashSucceeds | internal/agent/sysupgrade.go:205-234 | with and without keep_config there is a run with one flash, one clean connect, and command and sentinel gone |
| CleanStart.UnwrittenSentinelFlashesTwice | internal/agent/sysupgrade.go:214-218 | the first proviso is needed |
| CleanStart.InterruptedEnrollmentFlashesTwice | internal/agent/agent.go:862-890 | the second proviso is needed |
| MqttClient.CounterIsStreak | internal/mqtt/client.go:241-258 | the counter is the failure streak modulo 3, and a trip happens exactly when the streak reaches a positive multiple of 3 |
| MqttClient.TripsAtEveryThirdFailure | internal/mqtt/client.go:241-258 | in every run the counter is the streak since the last connect modulo 3, and a result trips exactly at each positive multiple of 3 |
| MqttClient.PahoClient.RecordPublishResult | internal/mqtt/client.go:241-258 | counts every result; a trip leaves the session closed and with a reason |
| MqttClient.PahoClient.Publish | internal/mqtt/client.go:216-236 | without a client an error that is not counted |
| MqttClient.PahoClient.Connect | internal/mqtt/client.go:114-209 | a fresh session per attempt; there is a client and the counter restarts once the broker was reached |
| MqttClient.ConnectAndPublish | internal/mqtt/client.go:114-285 | after a connect every message is delivered as the network says, and the session ends up closed and with a reason exactly if three messages in a row failed |
| MqttClient.PahoClient.TripDisconnect | internal/mqtt/client.go:268-285 | closes the current session once, keeping its first reason |
| MqttClient.PahoClient.Disconnect | internal/mqtt/client.go:311-326 | closes the current session without giving it a reason |
| MqttClient.Session.Set | internal/mqtt/client.go:64-70 | the first reason wins |
| MqttClient.ClosedOnceWithReason | internal/mqtt/client.go:155-162 | whatever races, each channel closes at most once, and with a reason unless Disconnect closed it |
| MqttClient.EveryCallCloses | internal/mqtt/client.go:155-162 | a callback, trip or disconnect that runs to its end leaves its session's channel closed |
| MqttClient.FirstReasonStays | internal/mqtt/client.go:64-70 | a reason, once set, and a close, once done, never change |
| MqttClient.OtherSessionsUntouched | internal/mqtt/client.go:53-58 | a step of a callback, trip or disconnect changes the session it captured only |
| MqttClient.ClosedOnlyByItsOwn | internal/mqtt/client.go:155-176 | a session that is closed or has a reason owes it to a callback of its own, or to a trip or Disconnect entered while it was the newest one |
| MqttClient.TripHitsItsSessionExactly | internal/mqtt/client.go:241-285 | a trip is for the session that was the newest when it was decided exactly if no session was started before it is entered, and otherwise for a later one |
| MqttClient.TripCanCloseNextSession | internal/mqtt/client.go:252-276 | a run in which the failures of one session close the next one, which had no result, and leave the failed one open |
| ActivityLog.TrimKeepsSuffix | internal/agent/activitylog.go:115-127 | a file that fits is kept; otherwise trimming keeps exactly the newest whole lines that take fewer than the kept bytes together |
| ActivityLog.CutLeavesWholeLines | internal/agent/activitylog.go:121-127 | cutting behind the first newline of the last bytes splits no line |
| ActivityLog.TrimText | internal/agent/activitylog.go:121-127 | computes the trimmed text |
| ActivityLog.ActivityLogFile.Trim | internal/agent/activitylog.go:115-146 | a call by itself: the trimmed text, or the old file when something failed |
| ActivityLog.ActivityLogFile.Append | internal/agent/activitylog.go:91-102 | a call by itself: the file is the old one, trimmed if the line would not fit, plus the line if the write worked; it is within max if the line is at most max - max/2 bytes and the size check and the trim work; a line that fits removes nothing |
| ActivityLog.LogStaysWithinCap | internal/agent/activitylog.go:91-146 | one call after another, from any text: once such a line was appended with the size check and trim working the file is within max, whatever happened before |
| ActivityLog.LogIsSuffix | internal/agent/activitylog.go:91-146 | one call after another, whatever fails: the file is a suffix of the whole lines found and written so far, ending with the newest |
| LogInterleavings.LogIsSuffixOfWritten | internal/agent/activitylog.go:66-146 | calls in any order, file operation by file operation: as long as no trim overlaps another call, the file is a suffix of the whole lines found and written, whatever fails |
| LogInterleavings.NewestLineIsLast | internal/agent/activitylog.go:91-102 | then a write puts its line behind everything that was there |
| LogInterleavings.LogExceedsCapByPending | internal/agent/activitylog.go:91-146 | then, if lines are at most max - max/2 bytes and size checks and trims work, the file exceeds max by no more than the lines other calls have pending at the same time |
| LogInterleavings.LogStaysWithinCapAlone | internal/agent/activitylog.go:91-146 | if no call starts between another's size check and its append, the file stays within max |
| LogInterleavings.CallAloneAppends | internal/agent/activitylog.go:91-146 | and each call, taken apart into its file operations, does exactly what the single-call model says of the text it found |
| LogOverlaps.OverlapExceedsCap | internal/agent/activitylog.go:91-102 | for any text and two lines that each fit but not together, a run in which nothing fails and the file ends up larger than max |
| LogOverlaps.OverlapLosesLine | internal/agent/activitylog.go:115-146 | a run in which nothing fails and a trim puts back the file without a line that was written after it had read |
| LogOverlaps.OverlapTearsLine | internal/agent/activitylog.go:129-146 | a run in which nothing fails and one call, still holding the shared temporary file, writes over the start of a line another one appended |
| LogOverlaps.SuchInputsExist | internal/agent/activitylog.go:115-127 | texts and lines that meet the conditions of the last two rows |
| UciSet.AddressRoundTrip | internal/agent/uci_set.go:23-33 | printing then parsing is the identity exactly for non-empty dot-free config and section |
| UciSet.ParsedPrints | internal/agent/uci_set.go:23-33 | what parses prints back as the input, up to a final dot without an option |
| UciSet.AssignmentRoundTrip | internal/agent/uci_set.go:152-162 | an assignment splits back exactly when the address has no '=', whatever the value contains |
| UciSet.PositionalIsThePattern | internal/agent/uci_set.go:37 | the positional pattern matches in one way only, and that one is found |
| UciSet.PositionalIsWritten | internal/agent/uci_set.go:37 | a section is positional exactly if it is `@`, letters, digits, `_` or `-`, and digits with or without a minus in brackets |
| UciSet.ResolveUCISection | internal/agent/uci_set.go:46-67 | the loop computes the resolution |
| UciSet.PositionalResolves | internal/agent/uci_set.go:46-67 | `@type[N]` resolves exactly for -n <= N < n, to the N-th anonymous section of the type in device order, from the end when negative |
| UciSet.TargetIs | internal/agent/uci_set.go:46-79 | a literal reference addresses the section with that id, a positional one the N-th anonymous one of its type, nothing else anything |
| UciSet.FindUCISection | internal/agent/uci_set.go:74-79 | by name, then by id |
| UciSet.FindIsById | internal/agent/uci_set.go:69-79 | on a device package both lookups agree |
| UciSet.GetSectionsForWrite | internal/agent/uci_set.go:88-97 | the package's sections, creating at most an empty file |
| UciSet.RunUCIGet | internal/agent/uci_set.go:168-201 | the type or value of the addressed section of an existing package that could be read, an error in every other case |
| UciSet.GetIsExact | internal/agent/uci_set.go:181-201 | shows the type, a string, or the items of a list joined by newlines, and is an error exactly when there is no such section or option |
| UciSet.ListIsShownByLines | internal/agent/uci_set.go:195-197 | a list is shown one item per line |
| UciSet.RunUCISet | internal/agent/uci_set.go:206-228 | success means exactly the specified write, and without a fault it succeeds exactly when that is possible; a malformed argument changes nothing |
| UciSet.SetIsExact | internal/agent/uci_set.go:206-228 | another type for the addressed section, another string for its option, or a new section at the end for a name nothing carries; impossible otherwise |
| UciSet.SetThenGet | internal/agent/uci_set.go:164-228 | get after set shows the value, except exactly for a positional retype to another type |
| UciSet.Mutate | internal/agent/uci_set.go:130-143 | append for add_list, filter for del_list |
| UciSet.WithoutAbsent | internal/agent/uci_set.go:134-143 | del_list leaves no occurrence, and leaves a list alone exactly when the value is not in it |
| UciSet.WithoutConcat | internal/agent/uci_set.go:134-143 | del_list keeps the other items in order |
| UciSet.ModifyUCIList | internal/agent/uci_set.go:260-299 | success means exactly the specified edit, and without a fault it succeeds exactly when that is possible; del_list creates no file; without an option nothing changes |
| UciSet.AddListAppends | internal/agent/uci_set.go:131-133 | add_list leaves the value behind what is there: a one-item list, the string and the value, or the list and the value |
| UciSet.DelListRemoves | internal/agent/uci_set.go:134-143 | del_list takes every occurrence out and keeps the others in order; an option with nothing left goes |
| UciSet.ListEditIsExact | internal/agent/uci_set.go:260-299 | an edit needs an existing section and changes nothing but that one option |
| UciSet.AddThenDelRestores | internal/agent/uci_set.go:254-299 | add_list then del_list restores the package exactly when the option was absent or a non-empty list lacking the value |
| Credentials.SaveCredentials | internal/config/credentials.go:60-70 | the lines written, each terminated, host and port only when set |
| Credentials.SavedText | internal/config/credentials.go:60-70 | the file byte for byte, from `DEVICE_ID=` to `BROKER_PORT=` |
| Credentials.LoadCredentials | internal/config/credentials.go:32-54 | reads the assignments of all key=value lines, later ones winning, failing on an overlong line |
| Credentials.LineReadsBack | internal/config/config.go:72-91 | a written line reads back as its key and value even with '=' or '#' in the value |
| Credentials.CredentialsRoundTrip | internal/config/credentials.go:32-97 | load inverts save exactly for trimmed newline-free fields, a port that is not negative, and lines of less than 65536 bytes |
| Text.AtoiReads | internal/config/credentials.go:46-49 | digits with or without one sign are a number, and nothing else is |
| Text.AtoiReadsSigns | internal/config/credentials.go:46-49 | and a minus makes it negative |
| Text.ReadNatIsDecimal | internal/config/credentials.go:46-49 | digits are read as decimals |
| Text.ByteLengthAdds | internal/config/config.go:72-91 | bytes add up, one to four per character |
| Text.SpaceIs | internal/config/config.go:72-91 | what TrimSpace removes, by code point |
| Passwd.SetPassword | internal/agent/passwd.go:23-62 | the loop computes the new text, an error exactly when the user has no line |
| Passwd.SetPasswordFrame | internal/agent/passwd.go:34-54 | only the second field of the user's first line changes |
| Passwd.RootPasswordHash | internal/agent/agent.go:151-163 | the second field of root's first line, empty when there is none |
| Passwd.HashIsSecondField | internal/agent/agent.go:156-162 | the reader and the writer look at the same line and field |
| Passwd.PasswordRoundTrip | internal/agent/passwd.go:34-54 | the hash reads back exactly when it contains neither ':' nor a newline |

## Left out

- JSON decoding, including that of `ubus call uci get` with its sorting by `.index`, and the printing of numbers: the models start from decoded values and printed text.
- Service reloads, their discovery, and state publishing after an apply.
- Transports and processes: paho, TLS, `exec`, `ubus`, downloads, the syslog socket; they appear as nondeterministic success or failure.
- Durations: the watchdog timeout, backoff, the stable-session checks and sleeps; only their order relative to other events is modelled.
- Liveness: nothing says that a timer eventually fires, a session comes back or a queued ack is eventually sent.
- Crashes of the agent process in the middle of a handler, except in the clean-start model, and short writes to a single file, except in restore.
- `publishAck` retries and losses: an ack counts as sent when it is handed to the client.
- Handlers with one branch each (file_write, host keys, TLS certificate, shell_exec, logs_fetch, ubus_call, file_transfer), `uci_set`'s dispatch and its add, delete, commit and revert, topics, hardware info, heartbeats.
- Validation and key functions of ubus_watch and ubus_listen, and their polling ticks; a registration is its key and its goroutine.
- Machine integers: a port outside the machine's int is rejected by the source and read as it is here; an index beyond it is out of range either way.
- Agent.Agent.RunConnectivityWatchdog: takes the events its select receives as an argument and runs without interference; `CommitConfirm` has the interleavings.
- Agent.Agent.HandleConfigApply: runs without interference (`CommitConfirm` has the interleavings) and without the state report at its end; after a failed commit the packages committed before it stay, because the agent does not roll those back.
- Listings.StagingOverlays: assumes that no payload name is the id of an anonymous section; how a device treats such a name is not part of this model.
- Listings.OutcomeIsFound: makes the same assumption about payload names as `Listings.StagingOverlays`.
- Listings.HonouredExactly: makes the same assumption about payload names as `Listings.StagingOverlays`.
- Listings.SoleListingIsHonoured: makes the same assumption about payload names as `Listings.StagingOverlays`.
- Listings.TwoListings: makes the same assumption about payload names as `Listings.StagingOverlays`.
- Listings.UnlistedStays: makes the same assumption about payload names as `Listings.StagingOverlays`.
- Listings.OverlaidExtends: makes the same assumption about payload names as `Listings.StagingOverlays`.
- Listings.AnonymousByPosition: makes the same assumption about payload names as `Listings.StagingOverlays`.
- Listings.MergeIsIdempotentExactly: makes the same assumption about payload names as `Listings.StagingOverlays`.
- PayloadTheorems.ReplaceStagesExactly: makes the same assumption about payload names as `Listings.StagingOverlays`.
- PayloadTheorems.ReplaceYieldsPayloadExactly: makes the same assumption about payload names as `Listings.StagingOverlays`.
- PayloadTheorems.ReplaceYieldsPayload: makes the same assumption about payload names as `Listings.StagingOverlays`.
- PayloadTheorems.MergeYieldsPayload: makes the same assumption about payload names as `Listings.StagingOverlays`.
- PayloadTheorems.OtherModesOnlyAdd: makes the same assumption about payload names as `Listings.StagingOverlays`.
- PayloadTheorems.MergeStagesExactly: makes the same assumption about payload names as `Listings.StagingOverlays`.
- StateReport.StateReportIsFixpoint: assumes types and options that do not start with a dot and no stored empty list, as UCI itself does.
- ActivityLog.ActivityLogFile.Trim: runs without overlap; `LogInterleavings` has the overlapping calls.
- ActivityLog.LogStaysWithinCap: is about calls that do not overlap; `LogExceedsCapByPending` and `OverlapExceedsCap` are about those that do.
- ActivityLog.LogIsSuffix: is about calls that do not overlap; `LogIsSuffixOfWritten` and `OverlapLosesLine` are about those that do.
- ActivityLog.ActivityLogFile.Append: runs without overlap, and takes each record to be one line ending in its only newline, as the text handler formats it.
- CommitConfirmTheorems.RollbackAndConfirmMeanIt: assumes no command is accepted while another is handled or watched, and no other handler writes a file; `RollbackAndConfirmPerPackage` has the exact condition per package.
