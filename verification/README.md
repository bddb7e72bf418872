# Verified model of the operations portal

The repository is a Flask portal that mirrors vCenters, runs Ansible playbooks and runbooks, collects facts over SSH
and accepts pushes from hosts.  This project models the parts of it that reconcile outside systems with tables or run
jobs in the background, and proves what they keep, conserve and promise.

- **VMware synchronisation** (`VmwareSync.dfy`, `VmwareSyncLaws.dfy`, `VmwareSyncFields.dfy`): a run that resolves
  machines through dictionaries instead of table searches, takes servers over from other vCenters and deactivates
  stale ones.  The class `SyncRun` follows the code; `Upsert`, `RunLoop` and `Synced` say the same with table searches
  only; the fields file says what these write without them.
- **Playbook jobs** (`PlaybookJobs.dfy`, `PlaybookJobLaws.dfy`): the worker, the canceller and the polling client as a
  state machine of atomic steps over one row; theorems hold for every interleaving.
- **Runbooks** (`Runbooks.dfy`, `RunbookLaws.dfy`, `RunbookFates.dfy`): the sequential orchestrator, with the list of
  every state it commits, the launch snapshot, and the fate of every step told from the launch rows and the outcomes.
- **Commands** (`ShellCommand.dfy`, `AnsibleCommand.dfy`, `CommandReader.dfy`, `ShellWrapper.dfy`): the command
  printer against a reader of its options by name and the shell's tokenizer (sections 2.2.1, 2.2.2 and 2.3 of the
  POSIX.1-2017 Shell Command Language), once and through the `bash -c '...'` wrapper.  A reading has three outcomes:
  words, something else, or a dollar sign or back quote whose effect the model does not say.  A separate test, that
  none of the characters `{`, `~`, `*`, `?` and `[` stands outside quotes, suffices for nothing else to expand
  (section 2.6, and bash's brace expansion).
- **Fact collection** (`FactFraming.dfy`, `FactCollection.dfy`, `FactCollectionLaws.dfy`, `FactCollectionFaults.dfy`):
  the framed text protocol, the package catalogue with its index, replacement of a server's rows, the accounting of a
  run, and what a run leaves when transactions fail.
- **Push endpoints** (`PushApi.dfy`, `PushApiLaws.dfy`, `PushApiFields.dfy`): inventory and patch pushes as updates of
  a map from (host, package name) to row contents.
- **Compliance** (`Compliance.dfy`): two classifiers meant to mirror each other, the counts and the pages of the
  report.
- **Scheduler** (`Scheduler.dfy`, `SchedulerLaws.dfy`, `SchedulerEdits.dfy`): the job table against the connection and
  schedule tables.
- **Runbook editor** (`RunbookEditor.dfy`): positions in rows against a plain list of steps.
- **Preview plugin** (`PreviewRefresh.dfy`): coalesced refreshes of a generated module.

`Options.dfy` and `PyText.dfy` hold optional values and the text operations of Python that the rest uses.  Rows are
named by their position in a table, the empty string stands for NULL where the code tests only truth, and what comes
from outside (machines, text chunks, files, exit codes, clocks, other sessions' writes) is a parameter or an action.

## Results that contradict the documentation or a natural expectation

The model follows the code.

- The report's compliance filter is documented as mirroring the property of a patching record.  The property rounds
  elapsed time down to whole days, so the two differ within the day after each threshold
  (`Compliance.ClassifiersDisagreeWithinADay`).
- The quotes around a value close those of the wrapper, so two shells read the value without them.  Where no braces,
  patterns or tildes expand, the command runs as intended exactly when every value is a word
  (`ShellWrapper.WrapperKeepsExactlyWords`); there, and without dollar signs and back quotes, any other value changes it
  (`ShellWrapper.OtherValuesChangeTheCommand`, `AnsibleCommand.SpaceInLimitBreaksJob`).  A sufficient test for running
  as intended in every environment passes exactly when every value is a plain word
  (`ShellWrapper.CertainExactlyForPlainValues`).  It is not necessary: of the words that fail it, bash expands `x=~/y`
  and leaves `{}` alone (`AnsibleCommand.WordsThatFailTheTest`).
- A reply that says `done` may precede output (`PlaybookJobs.OutputAfterDone`).  What the client then holds is final
  exactly when the worker had not started, was past its last flush, or had returned, be it by an exception that lost its
  buffer (`PlaybookJobs.DoneReplyIsCompleteExactlyWhenSilent`).  A reply with an exit code always is complete
  (`PlaybookJobs.ExitCodeMeansWholeLog`).  The offset of `job_output` is documented in bytes but counts characters.
- A second synchronisation can import a machine that the first matched by its BIOS id
  (`VmwareSyncLaws.BiosMatchCanImportTwice`).  It is quiet exactly when, in the tables before it, every machine with
  a hostname resolves to a server that no other connection holds, or has a UUID that a server adopts from an earlier
  machine (`VmwareSyncLaws.RepeatIsQuietExactly`, `VmwareSyncLaws.RepeatedUuidIsQuiet`).
- A runbook's cancellation is lost exactly when a step whose policy is to stop fails: the failure overwrites it
  (`RunbookLaws.CancellationIsLostExactlyByStoppingFailure`, `RunbookLaws.CancellationCanBeLost`).
- A step whose forks or verbosity is not a number ends the worker thread, and job and step stay running
  (`RunbookLaws.RunEndsExactlyUnlessAbandoned`, `RunbookLaws.RunCanBeAbandoned`).
- A file's text comes back with every line break turned into a line feed (`FactFraming.TextIsExactForLineFeeds`).
- After a rollback the package index still holds names the table has lost; the two agree exactly when there was nothing
  new to lose (`FactCollection.RollbackAgreement`).
- A host whose transaction fails takes with it what the hosts before it in its batch of 50 wrote, although these stay
  counted as ok (`FactCollectionFaults.FaultUndoesTheBatchSoFar`, `FactCollectionFaults.LastDeliveryWins`).
- `_persist_batch` is documented to update pending counts only where a patching record exists; the code creates one.
- The first completion for a server without a patching record and without a count stores "pending" beside a count of 0
  (`PushApiLaws.CompletionStatusAgrees`).
- `reschedule_playbooks` removes jobs of deleted schedules, but the delete route does not call it; a job is left behind
  exactly when the schedule asked for one, and does nothing (`SchedulerLaws.DeletedScheduleKeepsItsJob`,
  `SchedulerLaws.DeletedSchedulesNeverRun`, `SchedulerLaws.JobsThatRunAreThoseWanted`).
- A request is left without a later scan, at rest, exactly when it came during a scan that failed; the mark it left is
  honoured only after the next request, which then costs two scans (`PreviewRefresh.UnservedAtRestExactlyAfterFailure`,
  `PreviewRefresh.RequestAtRestServesAll`).  A lost write is not retried: only a scan that sees another source repairs
  the file (`PreviewRefresh.LostWriteIsRepairedExactlyByAnotherSource`).

## Model

| member | source | states |
|---|---|---|
| `VmwareSync.IndexesAnswerSearches` | app/services/vmware_service.py:283-298 | dictionaries that agree with the tables answer every lookup exactly as a table search would |
| `VmwareSync.SyncRun.Preload` | app/services/vmware_service.py:281-298 | the preloaded UUID, hostname and metadata dictionaries agree with the tables, and the last metadata row with a BIOS id wins |
| `VmwareSync.SyncRun.Lookup` | app/services/vmware_service.py:660-667 | the dictionary lookups find the server that searching by UUID, then BIOS id, then hostname finds |
| `VmwareSync.SyncRun.InsertServer` | app/services/vmware_service.py:686-700 | a new active server is appended and the dictionaries still agree |
| `VmwareSync.SyncRun.UpdateServer` | app/services/vmware_service.py:702-734 | only the matched row changes: a missing UUID is adopted, inventory fields of VMware-owned servers are written, unset defaults are filled; the dictionaries still agree |
| `VmwareSync.SyncRun.WriteInventory` | app/services/vmware_service.py:708-720 | found inventory values replace the stored ones of a server VMware owns, and nothing else changes |
| `VmwareSync.SyncRun.ApplyDefaults` | app/services/vmware_service.py:722-734 | an unset location or environment is filled from the connection, a set one stays |
| `VmwareSync.SyncRun.UpsertMeta` | app/services/vmware_service.py:738-767 | the server has exactly one metadata row afterwards, written for this connection, and the metadata dictionary still agrees |
| `VmwareSync.SyncRun.WriteServer` | app/services/vmware_service.py:686-736 | an unmatched machine is imported as a new row, a matched one updated in place |
| `VmwareSync.SyncRun.UpsertServer` | app/services/vmware_service.py:638-746 | the upsert through dictionaries has the outcome and tables of the upsert that searches tables, and keeps hostnames, UUIDs and metadata unique and the dictionaries in agreement |
| `VmwareSync.SyncRun.ServerBelongsToConn` | app/services/vmware_service.py:770-780 | whether the server's metadata names this connection |
| `VmwareSync.SyncRun.ManagedServers` | app/services/vmware_service.py:272-280 | exactly the vmware-sourced servers that belong to this connection before the loop |
| `VmwareSync.SyncRun.UpsertOne` | app/services/vmware_service.py:313-343 | one machine more: its UUID counts as discovered, its outcome is counted once |
| `VmwareSync.SyncRun.UpsertLoop` | app/services/vmware_service.py:308-350 | a whole fault-free loop keeps the constraints and the dictionaries in agreement and counts the outcomes of the table-search loop |
| `VmwareSync.SyncRun.MarkStale` | app/services/vmware_service.py:357-379 | the stale pass deactivates managed, absent, active servers and counts each once |
| `VmwareSync.StalePassIsExact` | app/services/vmware_service.py:352-379 | reading UUIDs after the loop deactivates exactly the servers that were stale by their state before the loop |
| `VmwareSync.SyncRun.DoSync` | app/services/vmware_service.py:272-379 | a fault-free run ends in the specified tables, with counters equal to the outcome counts and the number of stale servers |
| `VmwareSyncLaws.SyncIsExact` | app/services/vmware_service.py:352-379 | a server ends inactive exactly if it was stale; hostnames, set UUIDs, set locations and the inventory of servers VMware does not own never change |
| `VmwareSyncLaws.OutcomesPartition` | app/services/vmware_service.py:312-350 | imported, updated, duplicate and skipped add up to the number of machines |
| `VmwareSyncLaws.FirstSyncSettles` | app/services/vmware_service.py:660-746 | after a run without BIOS matches every machine resolves to a server held by this connection, and only this connection's metadata was written |
| `VmwareSyncLaws.ReloadedBiosIsOurs` | app/services/vmware_service.py:293-298 | a BIOS id that the run introduced belongs to a server of this connection |
| `VmwareSyncLaws.ReadyRunIsQuiet` | app/services/vmware_service.py:660-746 | a run whose machines all resolve beforehand to servers that no other connection holds imports nothing and reports no duplicate |
| `VmwareSyncLaws.RunIsQuietExactly` | app/services/vmware_service.py:660-746 | for any machines a run is quiet exactly when, in the tables before it, each machine is ready or has a UUID that a server adopts from an earlier machine |
| `VmwareSyncLaws.RunIsQuietExactlyWhenReady` | app/services/vmware_service.py:660-746 | for machines with distinct UUIDs, exactly when each machine is ready |
| `VmwareSyncLaws.RepeatedUuidIsQuiet` | app/services/vmware_service.py:702-706 | a quiet run with a machine that nothing matches beforehand, whose UUID an earlier one has given to a server |
| `VmwareSyncLaws.RepeatIsQuietExactly` | app/services/vmware_service.py:312-343 | exactly when repeating a run is quiet, by looking at the tables the first run left |
| `VmwareSyncLaws.QuietPrefix` | app/services/vmware_service.py:312-343 | the first k machines are quiet exactly if each was ready or adopted, and then servers have adopted exactly the foretold UUIDs and none has changed hands |
| `VmwareSyncLaws.SecondSyncIsQuiet` | app/services/vmware_service.py:312-343 | a second run over the same machines imports nothing and reports no duplicate, when the first matched none by BIOS id |
| `VmwareSyncLaws.ImportsAddRows` | app/services/vmware_service.py:686-701 | the server table grows by exactly the number of imports |
| `VmwareSyncLaws.BiosMatchCanImportTwice` | app/services/vmware_service.py:664-706 | a run with a BIOS match whose repetition imports a server |
| `VmwareSyncFields.DeactivatedExactly` | app/services/vmware_service.py:272-379 | an active server ends inactive exactly if its source is VMware, the connection is none or names it in its metadata, it has a UUID, no discovered machine has that and no metadata of another connection does |
| `VmwareSyncFields.StaleCountIsExact` | app/services/vmware_service.py:357-379 | the servers counted as stale are those that went from active to inactive |
| `VmwareSyncFields.StalePassWritesStatusOnly` | app/services/vmware_service.py:357-379 | after the loop a run changes only statuses of servers that were there before it, from active to inactive |
| `VmwareSyncFields.MostSpecificWins` | app/services/vmware_service.py:660-667 | a machine is resolved by its UUID, or else by its BIOS id, or else by its hostname |
| `VmwareSyncFields.LastBiosWins` | app/services/vmware_service.py:293-298 | a BIOS id stands for the server of the last metadata row that carries it |
| `VmwareSyncFields.OutcomeIsExact` | app/services/vmware_service.py:657-701 | when a machine is skipped, imported, a duplicate or updated, and that only an import enters its BIOS id |
| `VmwareSyncFields.ImportedRow` | app/services/vmware_service.py:686-736 | every field of the row of an imported machine |
| `VmwareSyncFields.UpdateWritesOneServer` | app/services/vmware_service.py:702-734 | an update writes what was found to the one resolved server, field by field, and leaves every other server as it was |
| `VmwareSyncFields.UpsertWritesMetadata` | app/services/vmware_service.py:738-767 | after an upsert the resolved server's only metadata row is this machine's for this connection, all others stay |
| `VmwareSyncFields.CountIsNumber` | app/services/vmware_service.py:312-350 | a counter is the number of machines that had its outcome |
| `VmwareSyncFields.OutcomeOfMachine` | app/services/vmware_service.py:312-350 | each machine's outcome is that of an upsert into what the machines before it left |
| `PlaybookJobs.FilterPid` | app/services/playbook_service.py:480-494 | the filtered chunk is the chunk without its PID lines |
| `PlaybookJobs.OtherLinesAreKept` | app/services/playbook_service.py:482-493 | a chunk without PID lines is kept whole, its line breaks included |
| `PlaybookJobs.VisibleSnoc` | app/services/playbook_service.py:480-496 | one more chunk extends the visible text, filtered only if it is the first with the marker |
| `PlaybookJobs.RunKeepsInv` | app/services/playbook_service.py:420-549 | log conservation, the client's position and the status rules hold after every interleaving |
| `PlaybookJobs.LogIsConserved` | app/services/playbook_service.py:463-517 | stored log and worker buffer are all received text less the PID lines, the stored size is the log's length, and the client holds a prefix of the log |
| `PlaybookJobs.ExitCodeMeansWholeLog` | app/blueprints/ops/routes.py:1072-1088 | a reply with an exit code leaves the client with everything the job ever produces |
| `PlaybookJobs.StatusMachine` | app/services/playbook_service.py:524-549 | completed and failed are final, cancelled changes only through the exception handler, finished exactly if terminal, completed exactly if the exit code is 0 |
| `PlaybookJobs.WorkerLeavesTerminalStatus` | app/services/playbook_service.py:420-549 | once the worker has returned the job is completed, failed or cancelled |
| `PlaybookJobs.DoneReplyCanPrecedeOutput` | app/services/playbook_service.py:467-520 | cancelling a job with unflushed text gives a done reply, after which text is stored that the client has not received |
| `PlaybookJobs.OutputAfterDone` | app/services/playbook_service.py:467-520 | a run in which the log grows from nothing to a text after the done reply |
| `PlaybookJobs.DoneReplyIsCompleteExactlyWhenSilent` | app/blueprints/ops/routes.py:1072-1088 | after a done reply no continuation extends what the client holds exactly if the worker had not started, was past its last flush or had returned |
| `PlaybookJobLaws.ReplyIsExact` | app/blueprints/ops/routes.py:1072-1088 | in every run a reply is done exactly if the status is completed, failed or cancelled, carries the stored exit code, and brings the client to the end of the log |
| `PlaybookJobLaws.FinishedJobsAreDone` | app/blueprints/ops/routes.py:1072-1088 | every poll after the worker has returned is told done, and so is every reply with an exit code |
| `PlaybookJobLaws.ReplyIsTheRest` | app/blueprints/ops/routes.py:1078-1081 | the output is the log from the offset on, counted from the end if that is negative |
| `PlaybookJobLaws.StatusAfter` | app/services/playbook_service.py:420-549 | the status after every step, and which steps can change it |
| `PlaybookJobLaws.EveryStatusIsExplained` | app/services/playbook_service.py:420-549 | in every run each status and exit code goes back to the action that the code takes it from |
| `PlaybookJobLaws.FinalisedExitCode` | app/services/playbook_service.py:521-547 | a job that is not cancelled ends with the exit code that was read, completed exactly if it is 0 |
| `PlaybookJobLaws.CancelledJobReceivesAtMostOnce` | app/services/playbook_service.py:465-498 | once cancelled, the loop takes in at most the text it is about to read |
| `PlaybookJobLaws.CancellationIsHeeded` | app/services/playbook_service.py:467-522 | a worker that finds the job cancelled leaves the loop, and reads no exit code |
| `PlaybookJobLaws.CancelledBeforeStartStaysSilent` | app/services/playbook_service.py:424-425 | a job cancelled before it starts never takes in or stores anything |
| `PlaybookJobLaws.BufferIsBounded` | app/services/playbook_service.py:502-506 | at the top of the loop the buffer holds at most 32768 characters |
| `PlaybookJobLaws.FlushingIsExact` | app/services/playbook_service.py:502-506 | the buffer may be kept exactly up to 32768 characters, and stored exactly if it is not empty |
| `PlaybookJobLaws.FilterIsPerLine` | app/services/playbook_service.py:482-493 | the filter drops exactly the lines that start with the marker once stripped |
| `PlaybookJobLaws.VisibleIsExact` | app/services/playbook_service.py:480-496 | all received text is visible but for the PID lines of the first chunk with the marker |
| `PlaybookJobLaws.AnnouncedPidIsFiltered` | app/services/playbook_service.py:450-494 | the line by which the wrapper announces its process id is one the filter drops |
| `Runbooks.RunbookWorker.Refresh` | app/services/runbook_service.py:47-51 | another session's cancellation becomes visible only on a running job |
| `Runbooks.RunbookWorker.MarkRemainingSkipped` | app/services/runbook_service.py:189-197 | exactly the pending steps from the current one on become skipped |
| `Runbooks.RunbookWorker.FailStep` | app/services/runbook_service.py:69-73 | the step fails, and the job with it exactly under the policy "stop" |
| `Runbooks.RunbookWorker.EvaluateLaunch` | app/services/runbook_service.py:110-150 | what each outcome of the playbook job commits for the step and the job |
| `Runbooks.RunbookWorker.Launch` | app/services/runbook_service.py:85-150 | the playbook job is created, linked and evaluated, each as its own commit |
| `Runbooks.RunbookWorker.ExecuteStep` | app/services/runbook_service.py:46-150 | the states one step commits, and whether the run ends there |
| `Runbooks.RunbookWorker.ConcludeRun` | app/services/runbook_service.py:152-159 | the final status unless one is already set |
| `Runbooks.RunbookWorker.ExecuteRunbook` | app/services/runbook_service.py:35-159 | the commits of a run are exactly the specified history |
| `RunbookLaws.RunbookRunIsOrderly` | app/services/runbook_service.py:35-159 | every committed state is a processed prefix, at most one running step and an untouched suffix; completed means every step completed or exempt, failed means a step failed or Ansible is unavailable; nothing runs after a stopping failure; a run that does not end stopped at a step whose parameters are not numbers |
| `RunbookLaws.RunEndsExactlyUnlessAbandoned` | app/services/runbook_service.py:75-82 | a run ends exactly when no step is left running; a step left running has forks or verbosity that are not numbers |
| `RunbookLaws.RunCanBeAbandoned` | app/services/runbook_service.py:75-82 | a run that leaves its job and step running |
| `RunbookLaws.CancellationIsLostExactlyByStoppingFailure` | app/services/runbook_service.py:46-159 | a job that was cancelled at any moment of a run ends cancelled, unless a step with the policy "stop" failed, and then failed |
| `RunbookLaws.CancellationCanBeLost` | app/services/runbook_service.py:110-150 | a run that loses a cancellation written while its step runs |
| `RunbookLaws.FailedExactlyWhenAStepFailed` | app/services/runbook_service.py:152-159 | a job that ended without a cancellation failed exactly when some step did |
| `RunbookLaws.SnapshotIsFresh` | app/blueprints/ops/routes.py:585-624 | the launch snapshot is a state a run may start from |
| `RunbookLaws.EnabledStepIsSnapshotted` | app/blueprints/ops/routes.py:563-624 | every enabled step gets an execution row |
| `RunbookLaws.RequiredStepsAreCompleted` | app/blueprints/ops/routes.py:585-624 | whatever was skipped at launch, a completed run has completed every required enabled step |
| `RunbookLaws.StepFailsOk` | app/services/runbook_service.py:69-73 | a failing step keeps the run well shaped and, under "stop", ends it with later steps as launched |
| `RunbookLaws.BoundaryCancelOk` | app/services/runbook_service.py:47-51 | a cancellation seen at a boundary ends the run with the remaining pending steps skipped |
| `RunbookFates.EveryStepMeetsItsFate` | app/services/runbook_service.py:35-159 | in every run each step's final status, whether it got a playbook job, and whether the job ends cancelled, from the launch rows, the outcomes and the cancellations |
| `RunbookFates.StepIsExact` | app/services/runbook_service.py:46-150 | what one step leaves of the steps and the job, and when it ends the run |
| `RunbookFates.CompletedExactlyWithItsPlaybook` | app/services/runbook_service.py:127-131 | a step is completed exactly if it was given a playbook job and that returned completed |
| `RunbookFates.FailedExactlyWithItsPlaybook` | app/services/runbook_service.py:66-150 | a step has failed exactly if it was started and had no path, or its playbook job raised or returned neither completed nor cancelled |
| `RunbookFates.CompletedRunRanEveryRequiredStep` | app/services/runbook_service.py:127-159 | in a completed run the playbook job of every required enabled step returned completed |
| `RunbookFates.SnapshotIsPerStep` | app/blueprints/ops/routes.py:563-624 | the snapshot holds one row per enabled step, in order, with its fields, skipped exactly if the operator asked for it and it is not required |
| `ShellCommand.QuoteRoundTrip` | app/services/playbook_service.py:58-60 | the shell reads a quoted string as exactly that one word, for every string |
| `ShellCommand.CommandRoundTrip` | app/services/playbook_service.py:355-402 | the shell reads a printed command line as exactly the intended argument vector |
| `ShellCommand.PrintedPassesTest` | app/services/playbook_service.py:355-402 | no expansion character stands outside the quotes of a printed command line |
| `AnsibleCommand.AddOption` | app/services/playbook_service.py:368-376 | an option with a value adds two parts that read as the option and the value, or nothing for an empty value |
| `AnsibleCommand.AddFlag` | app/services/playbook_service.py:379-384 | a switch adds its flag exactly if it is on |
| `AnsibleCommand.AddForks` | app/services/playbook_service.py:385-386 | the forks option is added exactly for counts other than none and 5 |
| `AnsibleCommand.AddVerbosity` | app/services/playbook_service.py:388-390 | verbosities 1 to 4 add their flag, others nothing |
| `AnsibleCommand.BuildAnsibleCommand` | app/services/playbook_service.py:355-402 | the built command tokenizes to exactly the argument vector the job means, with no expansion character outside quotes |
| `AnsibleCommand.BareArgumentsArePlain` | app/services/playbook_service.py:365-400 | what is printed without quotes is plain words |
| `AnsibleCommand.ArgumentsAndValues` | app/services/playbook_service.py:365-400 | a property of plain words holds of all arguments exactly if it holds of the job's values |
| `CommandReader.ArgumentsReadBack` | app/services/playbook_service.py:355-402 | a reader that knows the options by name gets back every field of the job from its argument vector |
| `CommandReader.BuiltCommandReadsBack` | app/services/playbook_service.py:355-402 | and so it does from the printed command line, read as a shell does |
| `CommandReader.PlaybookFileJoins` | app/services/playbook_service.py:362-363 | the playbook's path is the directory or the default one and the job's path, joined by exactly one slash |
| `ShellWrapper.SentText` | app/services/playbook_service.py:450-461 | the text of the wrapper |
| `ShellWrapper.WordsSurvive` | app/services/playbook_service.py:450-461 | values that are words without quotes pass both tokenizations unchanged, where nothing expands |
| `ShellWrapper.TwoReadings` | app/services/playbook_service.py:450-461 | a command that survives both readings has no apostrophe in a value and loses no backslash |
| `ShellWrapper.SurvivorsAreWords` | app/services/playbook_service.py:450-461 | a command that both shells read as intended has only values that are words |
| `ShellWrapper.WordsExpand` | app/services/playbook_service.py:450-461 | of such values, neither shell meets an expansion character outside quotes exactly if all are plain |
| `ShellWrapper.WrapperKeepsExactlyWords` | app/services/playbook_service.py:450-461 | where nothing expands, the wrapped command runs as intended exactly when every value is a word without its quotes |
| `ShellWrapper.NoSubstitutionsAreRead` | app/services/playbook_service.py:450-461 | without a dollar sign or back quote in a value both shells' readings are within the model |
| `ShellWrapper.OtherValuesChangeTheCommand` | app/services/playbook_service.py:450-461 | without dollar signs and back quotes, and where nothing expands, the command is changed exactly when some value is no word; without expansion characters too it passes the sufficient test or is changed |
| `ShellWrapper.CertainExactlyForPlainValues` | app/services/playbook_service.py:450-461 | the wrapped command passes a sufficient test for running as intended in every environment, that neither shell meets an expansion character outside quotes, exactly when every value is a plain word |
| `AnsibleCommand.WrappedJobCertainExactlyWhenPlain` | app/services/playbook_service.py:450-461 | a launched job passes that test exactly when each value it supplies is plain |
| `AnsibleCommand.WrappedJobSurvivesExactlyWithWords` | app/services/playbook_service.py:450-461 | where nothing expands it runs with its intended vector exactly when each value is a word; without dollar signs and back quotes any other value changes the command |
| `AnsibleCommand.WordsThatFailTheTest` | app/services/playbook_service.py:450-461 | extra variables `x=~/y` and `{}` fail the sufficient test and are words: where nothing expands they are left alone |
| `AnsibleCommand.SpaceInLimitBreaksJob` | app/services/playbook_service.py:375-376 | a space in the host limit changes the command that runs |
| `FactFraming.ParseOutput` | app/services/ansible_fact_service.py:343-357 | the line loop computes the recursive parser |
| `FactFraming.ReadBatch` | app/services/ansible_fact_service.py:312-359 | one emission and one parse per module, over the same result |
| `FactFraming.ParseBlock` | app/services/ansible_fact_service.py:329-357 | one host's part of the stream stores exactly what its file should yield, under that host |
| `FactFraming.ParseEmitted` | app/services/ansible_fact_service.py:329-357 | parsing the emitted stream stores each host's file in turn |
| `FactFraming.BatchRoundTrip` | app/services/ansible_fact_service.py:312-375 | for host names that print as they are, every host gets exactly what its own files yield, a missing, blank or `{}` file leaves no entry, no other host appears |
| `FactFraming.TextIsExactForLineFeeds` | app/services/ansible_fact_service.py:346-370 | the stored text is the file's stripped text exactly when its inner breaks are line feeds |
| `FactFraming.EmitPrints` | app/services/ansible_fact_service.py:325-333 | what the remote command prints for a host |
| `FactFraming.OutsideIsIgnored` | app/services/ansible_fact_service.py:343-357 | lines outside the part of any host are ignored |
| `FactFraming.NextHostEndsTheLast` | app/services/ansible_fact_service.py:343-357 | a host line stores the part of the host before it, and a part that nothing ends is dropped |
| `FactFraming.FilesReadBack` | app/services/ansible_fact_service.py:312-375 | a present file yields its stripped text, parsed, unless that is blank or `{}`, and a missing one nothing |
| `PyText.KeepEndsConcat` | app/services/playbook_service.py:482-493 | splitting with kept line ends loses nothing |
| `PyText.FirstBreak` | app/services/playbook_service.py:482-493 | lines end at the first break, a return and a line feed counting as one |
| `PyText.StripIsExact` | app/services/playbook_service.py:484 | stripping takes the white space at both ends and nothing else |
| `PyText.AsciiWhitespace` | app/services/playbook_service.py:482-484 | which ASCII characters are breaks and white space |
| `FactCollection.Collector.FindPackage` | app/services/ansible_fact_service.py:497-499 | the search by name finds the row's id or nothing |
| `FactCollection.Collector.BuildPackageRows` | app/services/ansible_fact_service.py:729-772 | drafts for exactly the packages with versions, with the ids the table has, and the names the table lacks |
| `FactCollection.Collector.InsertPackages` | app/services/ansible_fact_service.py:494-500 | after inserting new names the index agrees with the catalogue again |
| `FactCollection.Collector.ResolveRows` | app/services/ansible_fact_service.py:502-507 | the rows whose package id is known, each with that id |
| `FactCollection.Collector.MakeRow` | app/services/ansible_fact_service.py:751-770 | one row from a package's first version and its update, if any |
| `FactCollection.EveryDraftResolves` | app/services/ansible_fact_service.py:491-507 | with an index that agrees no draft is lost: the resolved rows are one per usable package |
| `FactCollection.EnteredAgrees` | app/services/ansible_fact_service.py:494-500 | entering the new names makes the index agree with the grown catalogue |
| `FactCollection.CatalogueStaysDistinct` | app/services/ansible_fact_service.py:760-762 | no package name is inserted twice |
| `FactCollection.Collector.PersistPackages` | app/services/ansible_fact_service.py:485-515 | a host's package data replaces its server's rows and pending count as specified, and the index still agrees with the catalogue |
| `FactCollection.RollbackAgreement` | app/services/ansible_fact_service.py:538-539 | after a rollback index and catalogue agree exactly if no name had been inserted since the commit |
| `FactCollection.Collector.PersistHost` | app/services/ansible_fact_service.py:433-553 | each host is counted once under its own outcome and ticks the progress once; a fault restores the committed tables |
| `FactCollection.Collector.PersistBatch` | app/services/ansible_fact_service.py:433-553 | counters, progress and tables after a batch are those of its hosts one after another |
| `FactCollection.Chunked` | app/services/ansible_fact_service.py:886-889 | the chunks concatenate to the list, none is empty, and all but the last are full |
| `FactCollection.Collector.CollectBatches` | app/services/ansible_fact_service.py:211-218 | batching changes nothing: the run equals taking all hosts one after another, with a commit per batch |
| `FactCollection.Collector.Collect` | app/services/ansible_fact_service.py:198-220 | ok, failed and skipped add up to the total, which is the final progress; completed exactly if none failed; without faults the tables are those of all hosts in order and the index agrees; with faults each undoes its batch of 50 so far; all is committed |
| `FactCollection.EveryHostHasOneOutcome` | app/services/ansible_fact_service.py:433-459 | the outcomes of any hosts add up to their number |
| `FactCollection.ProgressStaysInRange` | app/services/ansible_fact_service.py:56-70 | the counted hosts never exceed the total |
| `FactCollectionLaws.ReplacedDescribes` | app/services/ansible_fact_service.py:502-515 | after a host the server's rows say exactly what was collected, and the pending count is the number of flagged rows and of packages with an update |
| `FactCollectionLaws.OthersKeepTheirRows` | app/services/ansible_fact_service.py:509-515 | no other server's rows or count change |
| `FactCollectionLaws.OneRowPerCollectedPackage` | app/services/ansible_fact_service.py:746-772 | one row for each name with a non-empty version list and none for any other |
| `FactCollectionLaws.CatalogueGrows` | app/services/ansible_fact_service.py:494-500 | over a whole run package ids never change, names stay distinct, and only collected names are added |
| `FactCollectionLaws.LastWriterWins` | app/services/ansible_fact_service.py:215-218 | after a whole run each server has the rows and count of the last host that wrote to it, or its old ones |
| `FactCollectionLaws.LastWriterIsLast` | app/services/ansible_fact_service.py:215-218 | the last writer of a server is the host that writes to it after which none does |
| `FactCollectionLaws.CollectedPackageHasItsRow` | app/services/ansible_fact_service.py:746-772 | every package collected with versions has a row with its collected fields |
| `FactCollectionLaws.RowReflects` | app/services/ansible_fact_service.py:750-770 | a row's version, update and repository from the collected fields |
| `FactCollectionLaws.RowsAreDivided` | app/services/ansible_fact_service.py:509 | the rows of a server and the rows left when they are deleted |
| `FactCollectionLaws.FlaggedIsNumber` | app/services/ansible_fact_service.py:514 | the pending count is the number of rows with an update |
| `FactCollectionLaws.FirstKnownNameMatches` | app/services/ansible_fact_service.py:558-571 | a host is matched by the first of its names that is not empty and known |
| `FactCollectionLaws.OutcomeIsExact` | app/services/ansible_fact_service.py:437-553 | when a host has failed, is skipped or succeeds, and when its package data is written |
| `FactCollectionLaws.CountOfIsNumber` | app/services/ansible_fact_service.py:445-459 | a counter is the number of hosts with its outcome |
| `FactCollectionLaws.TickedIsExact` | app/services/ansible_fact_service.py:65-68 | the values the progress takes while hosts are counted |
| `FactCollection.ChunksAreFifties` | app/services/ansible_fact_service.py:214-218 | batch k holds the hosts from 50 k on |
| `FactCollectionFaults.PersistedRows` | app/services/ansible_fact_service.py:494-515 | whatever the index holds, persisting replaces exactly the rows and count of its server, with rows from what was collected, and counts them |
| `FactCollectionFaults.FaultUndoesTheBatchSoFar` | app/services/ansible_fact_service.py:538-553 | a failing transaction takes the tables back to the last commit and the hosts after it go on from there |
| `FactCollectionFaults.RunKeepsRows` | app/services/ansible_fact_service.py:211-218 | through any faults a server keeps its rows and count if every host that wrote to it was undone |
| `FactCollectionFaults.LastDeliveryWins` | app/services/ansible_fact_service.py:211-218 | after any faults a server's rows and count are from the last host that wrote to it and was not undone |
| `FactCollectionFaults.BatchOfHost` | app/services/ansible_fact_service.py:886-889 | every host is in exactly the batch its position says |
| `PushApi.PushQueries.PackageNamed` | app/blueprints/api/queries.py:284-288 | the first package with the name, or none |
| `PushApi.PushQueries.RowFor` | app/blueprints/api/queries.py:290-296 | the first row of the server and package, or none |
| `PushApi.PushQueries.ServerNamed` | app/blueprints/api/queries.py:427-431 | the first server with the hostname, or none |
| `PushApi.PushQueries.Record` | app/blueprints/api/queries.py:283-303 | find-or-create of package and row, then one row written |
| `PushApi.PushQueries.UpsertAvailableUpdates` | app/blueprints/api/queries.py:241-303 | the server's flags are cleared, then the valid entries are recorded in order |
| `PushApi.PushQueries.RecordInstalledPackages` | app/blueprints/api/queries.py:313-364 | the valid entries are recorded as installed, in order |
| `PushApi.PushQueries.RecordPatchCompletion` | app/blueprints/api/queries.py:411-494 | the tables after a completion; it succeeds exactly for a known host without a database fault, and a fault changes nothing |
| `PushApi.PushQueries.UpsertServerRow` | app/blueprints/api/queries.py:520-562 | the server row is created or kept, its status changes only by an explicit valid value |
| `PushApi.PushQueries.UpsertPatching` | app/blueprints/api/queries.py:569-604 | the patching record after an inventory push |
| `PushApi.PushQueries.UpsertServer` | app/blueprints/api/queries.py:497-634 | the tables after an inventory push, unchanged and reported as failed on a database fault; the action is "updated" exactly if the host was known or the fault came before it was looked up |
| `PushApiLaws.RecordedView` | app/blueprints/api/queries.py:283-303 | one recorded package changes one (server, name) entry and nothing else |
| `PushApiLaws.RecordedKeepsWellFormed` | app/blueprints/api/queries.py:283-303 | (server, package) rows and names stay unique |
| `PushApiLaws.LastChangeWins` | app/blueprints/api/queries.py:274-303 | of several entries for a name only the last counts, apart from the installed version |
| `PushApiLaws.PushView` | app/blueprints/api/queries.py:411-619 | a push keeps all constraints and is one equation on the map: its host's entries are cleared and overwritten, others stay |
| `PushApiLaws.ListIsExactlyFlagged` | app/blueprints/api/queries.py:261-303 | after an update list exactly its valid names are flagged, each as its last entry says, versions untouched |
| `PushApiLaws.CompletionLeavesNothingFlagged` | app/blueprints/api/queries.py:462-478 | after a completion none of the host's packages is flagged |
| `PushApiLaws.CompletionRecordsInstalls` | app/blueprints/api/queries.py:331-364 | a completion stores each installed package as its last entry says, with the patch date |
| `PushApiLaws.OtherHostsUntouched` | app/blueprints/api/queries.py:411-619 | nothing of another host changes |
| `PushApiLaws.PushPatching` | app/blueprints/api/queries.py:433-604 | the patching record after a push, and when a host becomes known |
| `PushApiLaws.PushStatus` | app/blueprints/api/queries.py:547-558 | only an explicit valid status changes a known server's lifecycle status |
| `PushApiLaws.InventoryKeepsWhatIsNotGiven` | app/blueprints/api/queries.py:573-602 | dates, reboot flag and patch status that a push does not carry stay |
| `PushApiLaws.CompletionStatusAgrees` | app/blueprints/api/queries.py:433-456 | up-to-date agrees with a count of 0 exactly if the push carries a count or the record existed |
| `PushApiLaws.EveryRunIsWellFormed` | app/blueprints/api/queries.py:241-364 | the constraints hold after any sequence of pushes |
| `PushApiLaws.FlagsFollowTheLastPush` | app/blueprints/api/queries.py:261-303 | at any time a host's flags are exactly those of its last inventory list, or none after a completion |
| `PushApiLaws.DateFollowsTheLastDatedPush` | app/blueprints/api/queries.py:586-593 | the patch date is that of the last dated push; undated inventory pushes never change it |
| `PushApiFields.ListedPackageIsStored` | app/blueprints/api/queries.py:261-303 | a listed package is flagged with the stripped and cut fields of the last entry that names it |
| `PushApiFields.UnlistedPackageIsUnflagged` | app/blueprints/api/queries.py:241-252 | a package that a list does not name loses its flag and available version and keeps everything else |
| `PushApiFields.WithoutListNothingChanges` | app/blueprints/api/queries.py:606-618 | an inventory push without a list touches no package |
| `PushApiFields.InstalledPackageIsStored` | app/blueprints/api/queries.py:331-364 | an installed package is stored unflagged with the fields of the last entry that names it and the patch date |
| `PushApiFields.OtherPackageIsUnflagged` | app/blueprints/api/queries.py:462-478 | a completion takes the flag of every package it did not install and nothing else |
| `PushApiFields.LastEntryIsLast` | app/blueprints/api/queries.py:261-303 | the last entry of a name is the one after which none has it |
| `PushApiFields.InventoryPatchingFields` | app/blueprints/api/queries.py:569-604 | every field of the patching record after an inventory push |
| `PushApiFields.CompletionPatchingFields` | app/blueprints/api/queries.py:433-456 | every field of the patching record after a completion |
| `PushApiFields.InventoryStatus` | app/blueprints/api/queries.py:547-558 | the lifecycle status after an inventory push, with the valid values named |
| `PushApiFields.OnlyListedNamesAreAdded` | app/blueprints/api/queries.py:284-288 | a push adds only names of its own list to the catalogue |
| `PushApiFields.PackagesKeepTheirIds` | app/blueprints/api/queries.py:284-288 | and existing packages keep their ids |
| `Compliance.Saved` | app/blueprints/settings/routes.py:291-298 | saved thresholds lie within 1 to 3650 and 1 to 365 days and valid numbers are kept |
| `Compliance.ReportClass` | app/blueprints/reports/queries.py:425-460 | exactly one of the report's four filters selects any date |
| `Compliance.ClassifiersDisagreeWithinADay` | app/models/patching.py:83-94 | the two classifiers differ exactly within the day after a threshold, and then the report is one class stricter |
| `Compliance.ReportIsStricter` | app/blueprints/reports/queries.py:425-447 | a date the property calls compliant and the report calls due soon |
| `Compliance.PropertyIsExact` | app/models/patching.py:83-94 | the classes of the property in elapsed microseconds |
| `Compliance.ReportIsExact` | app/blueprints/reports/queries.py:425-460 | the classes of the report in elapsed microseconds |
| `Compliance.SavedIsNearest` | app/blueprints/settings/routes.py:291-298 | which thresholds are saved for any numbers or none |
| `Compliance.CountsAgree` | app/blueprints/reports/queries.py:491-515 | counting patching rows of a class gives the number of servers the report lists for it |
| `Compliance.ClassesPartition` | app/blueprints/reports/queries.py:425-460 | the four classes partition the joined servers |
| `Compliance.ComplianceCounts` | app/blueprints/reports/queries.py:480-527 | the four counts add up to the number of servers and each is the size of its list |
| `Compliance.JoinedIsExact` | app/blueprints/reports/queries.py:514-525 | every server is joined once, to the date of its row or to NULL |
| `Compliance.CountIsNumber` | app/blueprints/reports/queries.py:491-525 | a count is the number of joined servers its filter selects |
| `Compliance.TotalPages` | app/blueprints/reports/queries.py:48-53 | the number of pages is the least that holds every row, and at least one |
| `Compliance.PagesShowEveryRow` | app/blueprints/reports/queries.py:48-53 | the pages in order show every row once, and the last is not empty unless there is no row |
| `Compliance.PageIsExact` | app/blueprints/reports/queries.py:48-53 | which rows a page shows; only the last is not full |
| `Scheduler.Portal.InitScheduler` | app/scheduler.py:51-82 | start-up registers the connection jobs, the fact job and the playbook jobs |
| `Scheduler.Portal.RemoveJobs` | app/scheduler.py:121-127 | exactly the jobs with the prefix are removed |
| `Scheduler.Portal.RestoreConnections` | app/scheduler.py:88-103 | one job per enabled connection with a known schedule is added |
| `Scheduler.Portal.AddConnectionJob` | app/scheduler.py:142-159 | an unknown schedule registers nothing, a known one the job with its interval |
| `Scheduler.Portal.RescheduleVmwareConnections` | app/scheduler.py:108-139 | the connection jobs are replaced by those the table asks for |
| `Scheduler.Portal.ReschedulePlaybooks` | app/scheduler.py:251-311 | the playbook jobs are replaced by those the table asks for |
| `Scheduler.Portal.ConnectionCreate` | app/blueprints/vmware/routes.py:76-141 | a valid, non-duplicate connection is added and its job registered; otherwise, or on a fault, nothing changes |
| `Scheduler.Portal.ConnectionUpdate` | app/blueprints/vmware/routes.py:148-214 | a valid update changes the row and the jobs; otherwise, or on a fault, nothing changes |
| `Scheduler.Portal.ConnectionDelete` | app/blueprints/vmware/routes.py:221-249 | the row and its job go together; if the commit fails only the job goes |
| `Scheduler.Portal.ConnectionToggle` | app/blueprints/vmware/routes.py:255-260 | the enabled flag flips and the jobs follow |
| `Scheduler.Portal.ScheduleSave` | app/blueprints/ops/routes.py:1464-1505 | a valid schedule is stored and the playbook jobs follow; otherwise nothing changes |
| `Scheduler.Portal.ScheduleToggle` | app/blueprints/ops/routes.py:1513-1522 | the enabled flag flips and the jobs follow |
| `Scheduler.Portal.ScheduleDelete` | app/blueprints/ops/routes.py:1530-1537 | only the row goes |
| `Scheduler.Portal.RunScheduledPlaybook` | app/scheduler.py:314-340 | a playbook job is created exactly for an existing enabled schedule with a template, a path and Ansible enabled |
| `SchedulerLaws.NumeralsAreInjective` | app/scheduler.py:149 | different row ids have different numerals |
| `SchedulerLaws.JobIdsAreInjective` | app/scheduler.py:149 | different rows have different job ids |
| `SchedulerLaws.ConnectionJobsAreExact` | app/scheduler.py:128-136 | the id of a connection carries exactly the job its row asks for, an id of no row none |
| `SchedulerLaws.PlaybookJobsAreExact` | app/scheduler.py:272-311 | the id of a schedule carries exactly the job its row asks for |
| `SchedulerLaws.ReschedulingConnections` | app/scheduler.py:108-139 | rescheduling makes jobs and connections agree and touches no other job |
| `SchedulerLaws.ReschedulingPlaybooks` | app/scheduler.py:251-274 | rescheduling makes jobs and schedules agree, leaves nothing stale and touches no other job |
| `SchedulerLaws.DeletingConnection` | app/blueprints/vmware/routes.py:227-236 | a delete takes exactly the deleted connection's job with it |
| `SchedulerLaws.FailedDeleteLosesTheJob` | app/blueprints/vmware/routes.py:227-249 | when the commit of a delete fails, jobs and connections agree exactly if the connection had no job |
| `SchedulerLaws.StartUpAgrees` | app/scheduler.py:51-82 | after start-up jobs and tables agree and the fact job is the configured one |
| `SchedulerLaws.EditsKeepAgreement` | app/scheduler.py:108-170 | after any sequence of edits the connection jobs are exactly those asked for, every schedule has exactly its job, no other job is touched |
| `SchedulerLaws.DeletedSchedulesNeverRun` | app/scheduler.py:324-326 | whatever is edited later, a deleted schedule's job creates nothing |
| `SchedulerLaws.JobsThatRunAreThoseWanted` | app/scheduler.py:314-340 | after any edits, the jobs that create something when they fire are exactly those the present table asks for, whatever stale jobs are held |
| `SchedulerLaws.DeletedScheduleKeepsItsJob` | app/blueprints/ops/routes.py:1530-1537 | deleting a schedule leaves a stale job exactly when the schedule asked for one |
| `SchedulerEdits.ConnectionAfter` | app/blueprints/vmware/routes.py:76-260 | what each edit makes of the connection with any id, in the fields of its form |
| `SchedulerEdits.ScheduleAfter` | app/blueprints/ops/routes.py:1464-1537 | what each edit makes of the schedule with any id, in the fields of its form |
| `SchedulerEdits.ConnectionJobFields` | app/scheduler.py:88-159 | after any edits the job of a connection is held under its id at the hours its schedule names, exactly if it is enabled |
| `SchedulerEdits.PlaybookJobFields` | app/scheduler.py:277-311 | after any edits the job of a schedule is held under its id with its trigger, exactly if it is enabled and has one |
| `SchedulerEdits.TogglingTwiceIsIdentity` | app/blueprints/vmware/routes.py:255-260 | toggling twice leaves the tables as they were |
| `SchedulerEdits.FactJobAtStartUp` | app/scheduler.py:65-78 | the fact collection job after start-up |
| `RunbookEditor.Editor.CreateRunbook` | app/blueprints/ops/routes.py:311-321 | a new runbook has no steps |
| `RunbookEditor.Editor.LastPosition` | app/blueprints/ops/routes.py:403 | the greatest position, or 0 |
| `RunbookEditor.Editor.AddStep` | app/blueprints/ops/routes.py:389-418 | a valid step becomes the last one; an invalid form changes nothing |
| `RunbookEditor.Editor.DeleteStep` | app/blueprints/ops/routes.py:450-464 | the step disappears from the list, the others keep their order, positions close up |
| `RunbookEditor.Editor.RenumberSteps` | app/blueprints/ops/routes.py:460-463 | the listed rows get positions 1, 2, ... |
| `RunbookEditor.Editor.MoveStep` | app/blueprints/ops/routes.py:472-500 | a step changes places with its neighbour, or nothing happens at the end of the list |
| `RunbookEditor.Editor.Clone` | app/blueprints/ops/routes.py:329-360 | the copy has the same steps in the same order under new ids, the original is not touched |
| `RunbookEditor.QueryReturns` | app/models/runbook.py:39-45 | ordering by distinct positions returns the one increasing list of the runbook's rows |
| `RunbookEditor.AddingAppends` | app/blueprints/ops/routes.py:403-409 | a row past the last position is a new last entry of its runbook only |
| `RunbookEditor.SwappingSwaps` | app/blueprints/ops/routes.py:496-499 | swapping two positions swaps two entries of its runbook only |
| `RunbookEditor.DeletingRemoves` | app/blueprints/ops/routes.py:456-463 | deleting and renumbering removes one entry of its runbook only |
| `RunbookEditor.PositionsAreExact` | app/blueprints/ops/routes.py:460-463 | the positions of a runbook are 1 to n, each exactly once |
| `RunbookEditor.MovingBackIsIdentity` | app/blueprints/ops/routes.py:492-499 | a move and the opposite move of the same step change nothing |
| `RunbookEditor.MovingPermutes` | app/blueprints/ops/routes.py:496-499 | a move keeps the steps of the runbook |
| `RunbookEditor.FormIsStored` | app/blueprints/ops/routes.py:389-418 | when a step form is valid and what it stores |
| `RunbookEditor.MoveIsExact` | app/blueprints/ops/routes.py:492-499 | a move exchanges a step with the neighbour in its direction and no other |
| `RunbookEditor.RemovalIsExact` | app/blueprints/ops/routes.py:456-463 | a removal takes one step out and closes the gap |
| `PreviewRefresh.Plugin.Refresh` | artifacts/mockup-sandbox/mockupPreviewPlugin.ts:82-89 | a request starts a scan or, during one, is queued |
| `PreviewRefresh.Plugin.Remember` | artifacts/mockup-sandbox/mockupPreviewPlugin.ts:91-102 | another source is remembered and written, the same one is not; the scan is over |
| `PreviewRefresh.Plugin.Resolved` | artifacts/mockup-sandbox/mockupPreviewPlugin.ts:90-108 | a new source is remembered and written, and a queued request starts the next scan at once |
| `PreviewRefresh.Plugin.Rejected` | artifacts/mockup-sandbox/mockupPreviewPlugin.ts:100-102 | a failed scan only clears the in-flight mark |
| `PreviewRefresh.Plugin.WriteRejected` | artifacts/mockup-sandbox/mockupPreviewPlugin.ts:93-102 | the source is remembered although it was not written |
| `PreviewRefresh.PossibleResults` | artifacts/mockup-sandbox/mockupPreviewPlugin.ts:90-98 | a scan sees one of the trees since it began, and a write can fail exactly if one is due |
| `PreviewRefresh.RunKeepsInv` | artifacts/mockup-sandbox/mockupPreviewPlugin.ts:79-111 | one scan at most is running and every unqueued request is covered, in every run |
| `PreviewRefresh.OneScanAtATime` | artifacts/mockup-sandbox/mockupPreviewPlugin.ts:83-88 | at most one started scan is unfinished |
| `PreviewRefresh.QuietFileIsFresh` | artifacts/mockup-sandbox/mockupPreviewPlugin.ts:79-111 | when nothing runs after a successful scan, the module is generated from a tree no older than the last request, unless a write failed |
| `PreviewRefresh.QuietFileIsUpToDate` | artifacts/mockup-sandbox/mockupPreviewPlugin.ts:79-111 | without failures, when nothing runs and the last change was followed by a request, the module is the present tree's |
| `PreviewRefresh.ScansAreAskedFor` | artifacts/mockup-sandbox/mockupPreviewPlugin.ts:82-108 | in every run there are never more scans, the queued one included, than requests |
| `PreviewRefresh.PendingScansFinish` | artifacts/mockup-sandbox/mockupPreviewPlugin.ts:104-108 | in every run without further requests at most the pending scans finish, two in all, and exactly those if nothing fails until rest |
| `PreviewRefresh.AskedMeansUnserved` | artifacts/mockup-sandbox/mockupPreviewPlugin.ts:82-108 | in every run some request has no scan beginning after it exactly if one came since the last scan began |
| `PreviewRefresh.UnservedAtRestExactlyAfterFailure` | artifacts/mockup-sandbox/mockupPreviewPlugin.ts:100-108 | at rest a request has no later scan exactly when it came during a scan that failed |
| `PreviewRefresh.RequestAtRestServesAll` | artifacts/mockup-sandbox/mockupPreviewPlugin.ts:82-108 | in every run a request at rest leaves no request without a later scan, and costs one scan, or two after a failed scan with a queued request |
| `PreviewRefresh.RequestLeftWaiting` | artifacts/mockup-sandbox/mockupPreviewPlugin.ts:100-108 | a run that leaves a request waiting and the file out of date |
| `PreviewRefresh.LostWriteIsRepairedExactlyByAnotherSource` | artifacts/mockup-sandbox/mockupPreviewPlugin.ts:91-98 | after the last failed write of any run the file is what the last scan saw exactly if a scan saw a source other than the lost one, or the file held that anyway; until then it stays as it was |

## Left out

- VmwareSync.SyncRun.DoSync: covers fault-free runs; a failing machine rolls the transaction back but not the dictionaries (app/services/vmware_service.py:344-350), so their agreement does not survive it.
- PlaybookJobs.LogIsConserved: after an exception the worker's buffer is lost with the worker; the statement counts it as buffered, so only runs without one leave everything in the stored log.
- PlaybookJobs.RunKeepsInv: a status check and the write that follows it are one atomic action, so a cancellation that falls between the two is not modelled.
- Also of playbook jobs: the PID value and the kill signal, timestamps and durations, the recap statistics, UTF-8 decoding at chunk boundaries, and exceptions outside the worker's try block.
- Runbooks.RunbookWorker.ExecuteRunbook: the parameters handed to the playbook job, error messages and timestamps are not kept, and other sessions only cancel.
- ShellWrapper.WrapperKeepsExactlyWords: when braces, patterns and tildes expand, and to what, is not modelled, only a sufficient test that they do not; a dollar sign or back quote outside quotes is not read, and both shells are taken to follow POSIX quoting with bash's expansions.
- Of the wrapper also: the environment prefix's effect and the pseudo-terminal of the channel.
- AnsibleCommand.BuildAnsibleCommand: the playbook directory default and the conversion of stored values to integers happen before the model.
- FactFraming.BatchRoundTrip: host names with an apostrophe, a percent sign or a backslash, which the remote `printf` would not print as they are, file paths and JSON syntax; parsing JSON is a parameter.
- FactCollection.Collector.PersistHost: a fault between inserting packages and indexing them, filesystems, services, repositories, per-server status columns and the parsing of update lists.
- FactCollection.Collector.Collect: failures of the connection itself, which end the run as "failed", and the order in which two hosts of one name would be read.
- PushApi.PushQueries.UpsertServer: payload validation, date and number parsing, the other server columns, and name lookups of locations, environments and owners.
- Compliance: search, location and environment filters, sorting, and reading the thresholds.
- Scheduler: the scheduler being absent, cron syntax, misfire times, and schedules removed by deleting their template.
- RunbookEditor: updating and deleting runbooks, updating a step in place, names and audit rows.
- PreviewRefresh: globbing, a failing write that changes the file, the promises returned to callers, and the file watcher.
- LDAP, users, tokens, encryption, seeders, exports, dashboards and all user interface code.
