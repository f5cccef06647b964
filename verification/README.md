# VerustCode: verified model of the review queue, settings, reports, task log and rule merging

VerustCode takes code-review and report requests, runs them through an agent and stores the results. This project
models the parts of it where state moves between several parties, and proves what they promise over every run.

| File | Part of VerustCode |
|---|---|
| `TaskQueue.dfy` | the per-repository task queue as a value: every operation and the invariant `Coherent` |
| `RepoTaskQueue.dfy` | the queue as the mutable class it is, each method proved against `TaskQueue.dfy` |
| `Pipeline.dfy` | queue, dispatch loop, task channel and workers as one step system, and its invariant |
| `PipelineRuns.dfy` | serialization, conservation, order and wake-ups over all runs |
| `PipelineCompletion.dfy` | every accepted task completes |
| `QueueCounts.dfy` | what the counters say about the tasks that are really there |
| `Dispatcher.dfy` | one uninterrupted drain, for every order of Go's map iteration |
| `ClientDiscipline.dfy` | exactly when a call of the queue is safe, and what goes wrong otherwise |
| `SettingsMask.dfy`, `SettingsStore.dfy` | masking of secrets, their restoration, and the replacement of a settings category |
| `ReportOutline.dfy`, `ReportRoundTrip.dfy` | section structure to rows in Go, rows to tree on the page |
| `ReportSummaries.dfy` | counting leaf sections and listing their summaries |
| `ReportRun.dfy`, `ReportResume.dfy`, `ReportPhases.dfy`, `ReportEngine.dfy` | Run and Resume of a report over its store, crashes included |
| `Texts.dfy`, `ResponseParser.dfy`, `ContentCleanup.dfy` | what is stored for an agent's answer |
| `TaskLog.dfy` | the buffered task log |
| `ConfigMerge.dfy` | merging and validating review-rule configurations |
| `Options.dfy` | a value that may be absent |

`dafny verify dfyconfig.toml` checks everything.

## How the models are built

* **Queue and pipeline.** `RepoTaskQueue` and `Dispatcher` are classes with the fields of the Go structs; Go's map
  iteration order is an arbitrary choice (`:|`), and each method is proved equal to a function on queue values. For
  concurrency the same functions are the steps of `Pipeline.Step`: every method that holds the mutex and every channel
  operation is one atomic event, and a run is any sequence of enabled events. The lossy 100-slot wake-up channel is a
  counter that stops at 100. A hand-over on an unbuffered task channel is an event of its own, so the capacity may be 0.
* **Client discipline.** The guards of the client events (`Enabled`) are what the callers in this repository are meant to
  respect: a non-empty ID that `HasTask` does not know, `EnqueueAsRunning` only on a repository that is not running,
  `RemoveTask` only for a task that was not handed out. `ClientDiscipline.dfy` proves for each operation that the
  condition is exact.
* **Settings.** The table is a map of rows by primary key, soft-deleted ones included; an insert fails on the unique index.
  Loops over Go maps visit keys in any order. JSON text is left to a codec that may refuse to marshal.
* **Reports.** Run and Resume are the sequence of their store writes. One write is one transaction, so a crash leaves a
  prefix. The class `Engine` logs its writes, and each of its methods is proved to make exactly the writes of the model.
* **Texts** are sequences of code points (bytes in `SettingsMask.dfy`).

## What the proofs bring out

* `Engine.Start` starts the dispatcher before recovery (internal/engine/engine.go:278-282), and recovery goes through the
  reviews oldest first. A pending review older than the running one of its repository can be dispatched in between, and the
  recovered one then joins it in flight: `ClientDiscipline.StartupOverlap`.
* `HasTask("")` is true as soon as some repository is known but idle: `ClientDiscipline.HasTaskEmptyIff`.
* The settings page masks secrets at every depth, but restoration looks only one object deep. Saving an unedited page
  overwrites a deeper secret by its own mask: `SettingsMask.ReadThenWriteIff`, `SettingsStore.UneditedSaveIff`.
* Secrets in an array are restored by position. When an item is dropped or moved on the page, the items behind it are saved
  with the secrets of others: `SettingsMask.PickedItemsIff`, `SettingsMask.DroppedItemShifts`.
* A repository stays known without any task exactly through removals, so the repository count of the statistics can only
  be too high after one: `QueueCounts.VacantByRemoval`, `QueueCounts.KnownRepos`.
* The report page loses subsections exactly when their section has an empty ID or shares its ID with another section:
  `ReportRoundTrip.RoundTripIff`. The list of section summaries goes wrong exactly when two leaves share an ID and differ
  in their summaries: `ReportSummaries.CollectedIff`.
* A report that Resume brings to its end stays in status generating; only Run ever marks a report completed:
  `ReportPhases.CompletedIff`.
* Run on a report that already has section rows, as after a retry (internal/api/handler/report.go:354-367) or after the
  recovery service has queued it again (internal/report/recovery/service.go:80), adds a second set of rows. So does a
  Resume after a crash between the first section row and the saved structure: `ReportPhases.ConsistentIff`.
* A finished section loses its last line when that line mentions one of the phrases, ".md" among them:
  `ContentCleanup.FinishedKeptIff`. The comment in internal/report/generator.go:581 speaks of the last few lines; a last
  line without a phrase ends the check at once.
* The fallback summary quotes at most 200 characters, but the blanks that join its lines are not counted:
  `ContentCleanup.FallbackLength`. Only the truncation that follows bounds it.

## Model

| member | source | states |
|---|---|---|
| TaskQueue.EnqueueCoherent | internal/engine/queue.go:69-108 | Enqueue of a non-empty ID that HasTask does not know keeps lists, index and running flags in agreement |
| TaskQueue.EnqueueInFlight | internal/engine/queue.go:69-108 | Enqueue changes no task in flight |
| TaskQueue.EnqueueAsRunningCoherent | internal/engine/queue.go:113-162 | on an idle repository a recovered task is recorded as waiting and the queue stays coherent |
| TaskQueue.EnqueueAsRunningInFlight | internal/engine/queue.go:113-162 | recovery changes no task in flight |
| TaskQueue.DequeuedTask | internal/engine/queue.go:166-228 | what Dequeue hands out was indexed under its own repository, was not in flight, leaves the index and its list, and becomes that repository's current task |
| TaskQueue.DequeueCoherent | internal/engine/queue.go:166-228 | Dequeue keeps the queue coherent on the recovery path and on the pending path |
| TaskQueue.DequeueInFlight | internal/engine/queue.go:166-228 | Dequeue adds exactly the task it returns to those in flight |
| TaskQueue.MarkCompleteCoherent | internal/engine/queue.go:232-269 | completing a task in flight keeps the queue coherent, leaves the index alone and leaves a signal |
| TaskQueue.MarkCompleteInFlight | internal/engine/queue.go:232-269 | completing takes exactly that task out of flight |
| TaskQueue.MarkCompleteLeaves | internal/engine/queue.go:232-269 | it frees the repository, which stays known exactly if it has a pending task, keeps its pending list, and leaves every other repository as it was |
| TaskQueue.RemoveFacts | internal/engine/queue.go:422-472 | removing a task that was not handed out drops it from index and list, keeps all other tasks and repositories, and frees the repository exactly if it was the waiting recovered task |
| TaskQueue.RemoveCoherent | internal/engine/queue.go:422-472 | such a removal keeps the queue coherent |
| TaskQueue.RemoveDetermined | internal/engine/queue.go:427-471 | although RemoveTask searches repositories in map order, it has one outcome for a task that was not handed out |
| TaskQueue.RemoveInFlight | internal/engine/queue.go:422-472 | such a removal changes no task in flight |
| RepoTaskQueues.RepoTaskQueue.SignalTaskReady | internal/engine/queue.go:277-283 | a signal is added unless 100 are buffered |
| RepoTaskQueues.RepoTaskQueue.Enqueue | internal/engine/queue.go:69-108 | nil and known IDs are refused and change nothing; otherwise the new state is the specified one, for any map of repositories |
| RepoTaskQueues.RepoTaskQueue.EnqueueAsRunning | internal/engine/queue.go:113-162 | the same for recovery |
| RepoTaskQueues.RepoTaskQueue.Dequeue | internal/engine/queue.go:166-228 | nil comes back exactly when no repository is dispatchable; otherwise the task of some repository that may be dequeued, waiting recovered tasks first, for every map order |
| RepoTaskQueues.RepoTaskQueue.MarkComplete | internal/engine/queue.go:232-269 | the repository is freed whatever its current task, dropped when its list is empty, and a signal sent; an unknown repository only loses the index entry |
| RepoTaskQueues.RepoTaskQueue.HasTask | internal/engine/queue.go:402-419 | true exactly for indexed IDs and current task IDs |
| RepoTaskQueues.RepoTaskQueue.RemoveTask | internal/engine/queue.go:422-472 | removed is reported exactly if HasTask was true; the state is one of the outcomes the map order allows |
| RepoTaskQueues.RepoTaskQueue.RemoveFromList | internal/engine/queue.go:457-468 | the first entry with the ID leaves the list, all others keep their order |
| RepoTaskQueues.RepoTaskQueue.GetPendingCount | internal/engine/queue.go:357-366 | the number of pending tasks over all repositories |
| RepoTaskQueues.RepoTaskQueue.GetRunningCount | internal/engine/queue.go:369-380 | the number of repositories marked running |
| RepoTaskQueues.RepoTaskQueue.IsEmpty | internal/engine/queue.go:331-341 | no repository is running or has a pending task |
| RepoTaskQueues.RepoTaskQueue.HasPendingTasks | internal/engine/queue.go:344-354 | some idle repository has a pending task |
| RepoTaskQueues.RepoTaskQueue.GetStats | internal/engine/queue.go:286-313 | totals and per-repository figures agree with the state, for every map order |
| Pipeline.InitInv | internal/engine/queue.go:52-65 | the empty system satisfies the invariant |
| Pipeline.StepInv | internal/engine/dispatcher.go:98-187 | every step of clients, dispatch loop, channel and workers keeps queue coherence, the agreement of queue records with tasks in flight, and the wake-up invariant |
| Pipeline.RunInv | internal/engine/dispatcher.go:98-187 | hence every reachable state satisfies it |
| Pipeline.RemoveWakes | internal/engine/queue.go:422-472 | removing a task that was not handed out makes no repository dispatchable without a signal, although the pending path sends none |
| PipelineRuns.Serialized | internal/engine/queue.go:166-269 | in every run at most one task of a repository is between Dequeue and MarkComplete, and a repository is running exactly when such a task or a waiting recovered one exists, never both |
| PipelineRuns.NeverAsleepOnWork | internal/engine/dispatcher.go:101-121 | in every run a signal is buffered whenever the dispatch loop sleeps while some repository is dispatchable |
| PipelineRuns.Conservation | internal/engine/dispatcher.go:115-187 | in every run the accepted tasks are, with multiplicity, those in the queue, in flight, completed and removed |
| PipelineRuns.HasTaskExact | internal/engine/queue.go:402-419 | in every run HasTask of a non-empty ID is true exactly if a task with it is accepted and neither completed nor removed |
| PipelineRuns.DropLastPending | internal/engine/queue.go:456-468 | in a line-up of dispatched tasks followed by pending ones, a removal takes out the pending one |
| PipelineRuns.Fifo | internal/engine/queue.go:100-102 | in every run the tasks a repository's list has dispatched, followed by those pending, are those accepted by Enqueue in acceptance order, removed ones taken out |
| PipelineRuns.CompletionOrder | internal/engine/dispatcher.go:154-184 | in every run the tasks of a repository complete in the order in which they were dispatched |
| PipelineRuns.ReceiptOrder | internal/engine/dispatcher.go:115-184 | in every run the tasks dispatched, of all repositories in order, are those the workers received, in order, followed by the channel and the one held by the dispatch loop |
| PipelineRuns.SignalsAccounted | internal/engine/queue.go:277-283 | in every run each wake-up uses up a signal that was sent, and none is lost as long as at most 100 were sent |
| PipelineCompletion.RecoveredGoesFirst | internal/engine/queue.go:173-193 | while a recovered task waits, no other task of its repository is dispatched |
| PipelineCompletion.StepDecreases | internal/engine/dispatcher.go:98-187 | every internal step strictly decreases a weighted measure of pending, held, channelled and running tasks, signals and loop state |
| PipelineCompletion.RunsAreBounded | internal/engine/dispatcher.go:98-187 | hence without new calls at most that many steps follow |
| PipelineCompletion.SomeStepEnabled | internal/engine/dispatcher.go:98-187 | with a worker, some internal step is enabled as long as any accepted task is unfinished, for every channel capacity |
| PipelineCompletion.EverythingCompletes | internal/engine/dispatcher.go:98-187 | at the end of every maximal run every accepted task is completed or removed, exactly once |
| PipelineCompletion.MaximalIsDone | internal/engine/dispatcher.go:98-187 | where no internal step is enabled, no accepted task is unfinished |
| PipelineCompletion.Drain | internal/engine/dispatcher.go:98-187 | from every reachable state the pipeline comes by itself to a state in which no internal step is enabled and nothing is unfinished |
| QueueCounts.IndexSize | internal/engine/queue.go:24-25 | in every run the index has as many entries as there are pending tasks and waiting recovered ones |
| QueueCounts.RunningSize | internal/engine/queue.go:369-380 | in every run as many repositories are running as there are tasks in flight and waiting recovered ones |
| QueueCounts.IsEmptyExact | internal/engine/queue.go:331-341 | in every run IsEmpty is true exactly when no accepted task is unfinished |
| QueueCounts.VacantByRemoval | internal/engine/queue.go:256-266 | in every run a repository known without being running or having a pending task is left over from a removal |
| QueueCounts.KnownRepos | internal/engine/queue.go:256-266 | in every run without removals the queue knows exactly the repositories of the unfinished tasks |
| Dispatchers.Dispatcher.TryDispatch | internal/engine/dispatcher.go:115-140 | from any queue state, an uninterrupted drain ends with nothing dispatchable and has sent what some order of the repositories gives |
| Dispatchers.DequeueTakes | internal/engine/queue.go:166-228 | Dequeue takes the repository's waiting task, else its first pending one, and takes exactly that repository out of the dispatchable ones |
| Dispatchers.DrainOffers | internal/engine/dispatcher.go:115-140 | whatever the map order, the drain sends for distinct repositories what each had to offer at the start |
| Dispatchers.DrainRecoveredFirst | internal/engine/queue.go:170-193 | it sends every waiting recovered task before any pending task |
| Dispatchers.DrainExact | internal/engine/dispatcher.go:115-140 | a drain that leaves nothing dispatchable has sent exactly one task for each repository that was dispatchable |
| ClientDiscipline.EnqueueSafeIff | internal/engine/queue.go:81-88 | Enqueue keeps the queue sound exactly if the ID is indexed, or non-empty and nowhere current |
| ClientDiscipline.EnqueueAsRunningSafeIff | internal/engine/queue.go:144-150 | recovery does so exactly if moreover the repository is not running |
| ClientDiscipline.RemoveSafeIff | internal/engine/queue.go:427-440 | RemoveTask does so exactly if the ID is not in flight (or empty) |
| ClientDiscipline.MarkCompleteSafeIff | internal/engine/queue.go:236-251 | MarkComplete ends its task and nothing else exactly if the repository's current task, if it runs, has the ID, and an index entry of the ID is that of the waiting task |
| ClientDiscipline.HasTaskEmptyIff | internal/engine/queue.go:411-416 | HasTask of the empty ID is true exactly when some known repository is idle |
| ClientDiscipline.EnqueuedTwice | internal/engine/queue.go:81-102 | enqueuing a task in flight makes it come out again: at once, or, if it had been recovered, from the end of the pending list once its first round completes |
| ClientDiscipline.RecoveredBeside | internal/engine/queue.go:144-147 | recovering a task of a running repository makes Dequeue hand it out beside the running one |
| ClientDiscipline.RemovedInFlight | internal/engine/queue.go:427-440 | removing a task in flight lets the next one of its repository start beside it |
| ClientDiscipline.StartupOverlap | internal/engine/engine.go:278-282 | start-up recovery can meet a repository whose older pending review was already dispatched, and then puts two in flight |
| SettingsMask.RestoreIff | internal/config/settings.go:338-420 | a submitted value restores to the stored one exactly if it is a masked copy: it differs only in sensitive texts holding "****" at the places restoration visits |
| SettingsMask.RestoreKeeps | internal/config/settings.go:338-420 | what is submitted for a new key, or holds no masked text under a sensitive key at the places restoration visits, is kept as it is |
| SettingsMask.RestoreOverKinds | internal/config/settings.go:340-377 | a mask at the top becomes the empty text over a stored null and stays over any other kind than text; a field of an object comes back whatever its kind |
| SettingsMask.EditOneFieldIff | internal/config/settings.go:355-377 | an object shown and edited in one field is saved with exactly that edit if and only if nothing hidden lies too deep in its other fields |
| SettingsMask.PickedItemsIff | internal/config/settings.go:379-415 | items of a shown array that are dropped, repeated or moved are saved as picked exactly if each finds its own secrets at its new position |
| SettingsMask.DroppedItemShifts | internal/config/settings.go:395-403 | once the first of two items is dropped on the page, the second is saved with the secret of the first |
| SettingsMask.MaskFixed | internal/api/handler/settings.go:75-107 | masking leaves a value alone exactly if it hides no text |
| SettingsMask.MaskHidesIff | internal/api/handler/settings.go:56-107 | two values look the same exactly if they differ only in sensitive texts that are both empty, both at most 8 bytes long, or both longer with the same first and last four bytes |
| SettingsMask.SensitiveInside | internal/api/handler/settings.go:45-54 | a key with one of the patterns inside, in capitals or not, is sensitive |
| SettingsMask.ReadThenWriteIff | internal/config/settings.go:338-420 | masking a value and restoring the result gives it back exactly if no hidden text lies deeper than one object, or one object in an array |
| SettingsMask.DeepSecretLost | internal/config/settings.go:355-377 | a secret two objects deep comes back as its own mask |
| SettingsMask.RestoreFields | internal/config/settings.go:355-377 | the field loop restores every field, in any order of keys |
| SettingsMask.RestoreMaskedValues | internal/config/settings.go:338-420 | the loops compute the restoration the lemmas speak of |
| SettingsStore.SettingsService.Create | internal/model/settings.go:52-59 | an insert fails exactly if some row, live or soft-deleted, has the category and key |
| SettingsStore.SettingsService.GetByCategory | internal/config/settings.go:175-180 | the live rows of the category by key |
| SettingsStore.SettingsService.SetCategory | internal/config/settings.go:163-246 | for every order of keys: no insert is refused, every old row ends as specified (written, revived, soft-deleted or left alone) and each new key gets one live row |
| SettingsStore.SettingsService.WriteSetting | internal/config/settings.go:183-235 | one round restores, marshals and writes one key; a value that does not marshal is skipped and its row stays to be deleted |
| SettingsStore.SettingsService.WriteKey | internal/config/settings.go:196-234 | a live row is updated, a soft-deleted one revived, otherwise a row created, and the slot stays unique |
| SettingsStore.SettingsService.DeleteRest | internal/config/settings.go:237-242 | exactly the live rows whose keys were not written are soft-deleted |
| SettingsStore.CategoryReplaced | internal/config/settings.go:161-163 | the live rows of the category are exactly the submitted values that marshal, secrets restored; other categories are untouched, no row leaves the table |
| SettingsStore.SavedAsSubmitted | internal/config/settings.go:183-235 | a value submitted for a new key, or without a masked text where restoration looks, is live afterwards as the text of that very value |
| SettingsStore.NewKeyRow | internal/config/settings.go:217-234 | a key without any row gets one live row with the text and the type name of the submitted value |
| SettingsStore.KindFollowsText | internal/config/settings.go:196-216 | a live row whose text stays is left as it was, its type name included; one that is rewritten or revived gets the type name of its new value |
| SettingsStore.SameValuesIff | internal/config/settings.go:196-201 | the table is unchanged exactly if the wanted keys and texts are those that are live |
| SettingsStore.CopySavedIff | internal/config/settings.go:161-246 | saving any values for the live keys of a category changes no row exactly if every value is a masked copy of the live one |
| SettingsStore.UneditedSaveIff | internal/config/settings.go:161-246 | so saving the page's own masks unedited changes no row exactly if no secret of the category lies too deep |
| ReportOutline.StructureToModel | internal/report/structure.go:343-386 | the rows are each section's own followed by its subsections', numbered through |
| ReportOutline.IndexIsPosition | internal/report/structure.go:352-380 | indexes are exactly 0 to n - 1 in order |
| ReportOutline.BuildSectionTree | frontend/src/pages/ReportDetail.tsx:41-68 | sorting, partition by parent ID and attachment compute the specified tree |
| ReportRoundTrip.SortRows | frontend/src/pages/ReportDetail.tsx:42-43 | sorting by index undoes any permutation of a structure's rows, whatever content they have gained |
| ReportRoundTrip.RootsFlatten | frontend/src/pages/ReportDetail.tsx:49-60 | the page shows as many top-level rows as sections exactly if no section without ID has subsections |
| ReportRoundTrip.RoundTripIff | frontend/src/pages/ReportDetail.tsx:41-68 | for every permutation of a structure's rows, as created or with any content generated, the page rebuilds the structure exactly if it has two levels and every section with subsections has a non-empty ID of its own |
| ReportRoundTrip.ChildlessIffLeaf | internal/report/structure.go:357 | in the rebuilt tree a node is childless exactly where its row is a leaf |
| ReportRoundTrip.FirstLeafIsFirst | frontend/src/pages/ReportDetail.tsx:74-84 | the section selected first is the leaf with the smallest index |
| ReportSummaries.CountLeafSections | internal/report/structure.go:389-401 | the count is the number of leaf rows that Phase 1 creates |
| ReportSummaries.CollectSectionSummaries | internal/report/summary.go:182-220 | each leaf is listed, in order of the structure, with the last non-empty summary stored under its ID |
| ReportSummaries.HeadingsAreLeaves | internal/report/summary.go:194-217 | the headings of the list are the leaf rows in index order |
| ReportSummaries.HeadingsLocated | internal/report/summary.go:194-217 | each heading's number and parent title lead back to its leaf in the structure |
| ReportSummaries.ItemsLocated | internal/report/summary.go:182-220 | each listed item has number, title and parent title of a leaf of the structure and the last non-empty summary stored under its ID |
| ReportSummaries.CollectedIff | internal/report/summary.go:182-220 | the list shows each leaf's own summary exactly if leaves that share an ID share their summary |
| ReportSummaries.CollectedDistinct | internal/report/summary.go:182-220 | with distinct leaf IDs it does so for every filling of the rows |
| ReportEngines.Engine.SaveStructure | internal/report/engine.go:369-387 | the end of Phase 1 writes one row a section and then the report |
| ReportEngines.Engine.GenerateLeaf | internal/report/engine.go:421-471 | a completed leaf makes no write; any other is saved running and then completed with content and summary, or failed |
| ReportEngines.Engine.RunPhase2 | internal/report/engine.go:401-482 | Phase 2 makes the writes of its leaves in database order, progress before each, and leaves CurrentSection at the last one begun |
| ReportEngines.Engine.Run | internal/report/engine.go:222-291 | Run makes exactly the writes of the model, through every failing branch |
| ReportEngines.Engine.Resume | internal/report/engine.go:561-606 | so does Resume: refusal, restart and continuation in Phase 2 |
| ReportResume.CompletedStays | internal/report/engine.go:424-431 | within an attempt, going further from any crash point leaves a completed section exactly as it is |
| ReportResume.CurrentStays | internal/report/engine.go:433-435 | an attempt, wherever it stops, leaves CurrentSection 0 or below the number of leaf sections |
| ReportResume.ResumeSafety | internal/report/engine.go:561-606 | over every sequence of Run, Resume, crash, retry and cancellation no section is lost or re-labelled, completed sections never change, and CurrentSection stays in range |
| ReportPhases.SettlesEveryLeaf | internal/report/engine.go:419-474 | an attempt that ends has stored the agent's k-th answer in the k-th leaf, content as content and summary as summary, or status failed with its message; completed leaves and all other rows stay as they were |
| ReportPhases.EveryLeafEnds | internal/report/engine.go:419-474 | after it every leaf is completed or failed |
| ReportPhases.EndReport | internal/report/engine.go:222-291 | the report then has the merged content, the structure and leaf count of Phase 1 if that ran, and CurrentSection at the last leaf that was not completed |
| ReportPhases.FailureRecorded | internal/report/engine.go:529-531 | an attempt that fails before Phase 2 leaves status failed with the reason and touches nothing else; a refused one writes nothing |
| ReportPhases.CrashPoint | internal/report/engine.go:419-474 | wherever an attempt stops after Phase 2 has begun, some first leaves are settled, at most the next is marked running, and every other row is as loaded |
| ReportPhases.WhileGenerating | internal/report/engine.go:433-442 | while the agent works on a leaf, it is marked running, CurrentSection is its number, and those before it are settled |
| ReportPhases.AnalyzingInPhase1 | internal/report/engine.go:226-243 | a restarted report is analyzing from its first write until the structure is saved, and prepared from the second |
| ReportPhases.GeneratingInPhase2 | internal/report/engine.go:401-482 | from there to the last write but one it is generating |
| ReportPhases.PreparedFirst | internal/report/engine.go:586-595 | a Resume that has to prepare the repository records that first |
| ReportPhases.CompletedIsWhole | internal/report/engine.go:251-263 | at every crash point a report marked completed has every leaf settled and its merged content stored |
| ReportPhases.CompletedIff | internal/report/engine.go:256-263 | an attempt that ends leaves the report completed exactly if it was refused, or ran from Phase 1 on without a failure |
| ReportPhases.ConsistentIff | internal/report/engine.go:369-387 | an attempt keeps section table and saved structure in step exactly if it creates no row, or starts from an empty table and lives until the structure is saved |
| ResponseParser.ParseInvertsIff | internal/report/generator.go:437-469 | for texts in which upper-casing moves no byte, as in ASCII or Chinese, the answer the prompt asks for is taken apart into trimmed content and trimmed summary exactly if the content does not mention [SUMMARY] in any letter case |
| ResponseParser.FirstMarker | internal/report/generator.go:443-445 | the markers found in such an answer are the requested ones, unless the content holds an earlier one |
| ResponseParser.ParseUnmarked | internal/report/generator.go:461-466 | a response without a summary marker is the content as a whole, with the fallback as its summary |
| ResponseParser.ParseUnannouncedIff | internal/report/generator.go:456-460 | an answer of content, line break, [SUMMARY] and summary is taken apart into both, trimmed, exactly if the content mentions neither marker in any letter case |
| ResponseParser.Shorten | internal/report/generator.go:410-433 | for every summary and configured length the result has at most that many code points, or three; a summary that fits is only trimmed; otherwise it is cut at the last space in the last third of the reserved part, or at its end |
| ContentCleanup.Unfence | internal/report/generator.go:513-534 | the loop over fence patterns strips the first that matches, and a closing fence at the end |
| ContentCleanup.UnfenceUndoes | internal/report/generator.go:513-534 | fencing any text in any of the three ways and unfencing it gives the text back, blanks around it aside |
| ContentCleanup.UnfenceOpen | internal/report/generator.go:513-534 | a fence that is not closed at the end of the text is taken off and the rest kept |
| ContentCleanup.DropPreamble | internal/report/generator.go:535-548 | lines are dropped up to the first heading, or down to the last line |
| ContentCleanup.PreambleDropped | internal/report/generator.go:535-548 | the text from the first line on that starts a heading is kept and what stands before it dropped; without such a line only the last line that is not blank is kept |
| ContentCleanup.DropSuffix | internal/report/generator.go:580-605 | at most five trailing lines that are blank or mention a phrase are dropped |
| ContentCleanup.SuffixDropped | internal/report/generator.go:580-605 | every dropped line is blank or mentions a phrase, and the last line kept is neither unless five were dropped |
| ContentCleanup.PostProcessContent | internal/report/generator.go:509-608 | the four steps in order |
| ContentCleanup.FenceDoesNotMatter | internal/report/generator.go:513-534 | an answer wrapped whole in a fence is cleaned up like the text inside |
| ContentCleanup.FinishedKeptIff | internal/report/generator.go:509-608 | a finished section is left exactly as it is if and only if its last line mentions no phrase |
| ContentCleanup.CleanedShape | internal/report/generator.go:535-548 | stored content is empty, starts with a heading, or is a single line |
| ContentCleanup.GenerateFallbackSummary | internal/report/generator.go:473-506 | the lines quoted are the longest run that fits into 200 characters, or the start of the first line that does not |
| ContentCleanup.MeaningfulExactly | internal/report/generator.go:480-488 | the lines considered are exactly those that are neither blank nor headings, in order |
| ContentCleanup.PlainParts | internal/report/generator.go:485-488 | asterisks and backticks are taken out wherever they stand, everything else stays |
| ContentCleanup.QuotedExactly | internal/report/generator.go:490-503 | of these, the longest run with at most 200 characters is quoted, or, if it has no text, 197 characters of the next line and an ellipsis |
| ContentCleanup.FallbackLength | internal/report/generator.go:473-506 | the quoted text has at most 200 characters, the blanks between lines come on top |
| ContentCleanup.PostProcessContentWithSummary | internal/report/generator.go:401-434 | for every response, on every marker branch, the stored summary has at most the configured number of characters, or three |
| ContentCleanup.StoredWordForWord | internal/report/generator.go:376-434 | a finished section and a short summary in the requested format are stored word for word, the content exactly if its last line mentions no phrase |
| ContentCleanup.StoredUnannounced | internal/report/generator.go:376-434 | so are a finished section and a short summary with the summary marker alone |
| ContentCleanup.StoredUnmarked | internal/report/generator.go:376-434 | of a response without a summary marker the whole is stored, cleaned up, with a summary made from it |
| TaskLogs.ExtractTaskInfo | pkg/logger/task_log_hook.go:205-219 | the first non-empty review or report ID field decides the task |
| TaskLogs.TaskOfFirst | pkg/logger/task_log_hook.go:205-219 | that field is a review ID for a review and a report ID for a report; without one no task is named |
| TaskLogs.TaskLogHook.AddToBuffer | pkg/logger/task_log_hook.go:143-153 | the log is appended, and the buffer emitted as a batch when it reaches 100 |
| TaskLogs.TaskLogHook.FlushLocked | pkg/logger/task_log_hook.go:163-178 | a non-empty buffer becomes one batch, an empty one none |
| TaskLogs.TaskLogHook.WriteEntry | pkg/logger/task_log_hook.go:102-134 | an entry is captured exactly if its fields, context fields first, name a task, with its time, caller, message, level and remaining fields |
| TaskLogs.CapturedTask | pkg/logger/task_log_hook.go:108-118 | an entry is captured, once, exactly if its context or its own fields name a task, and a task named by the context wins |
| TaskLogs.CapturedFields | pkg/logger/task_log_hook.go:120-128 | the log has time, message and caller of the entry; of fields with the same key the last one, an own field before one of the context |
| TaskLogs.SeverityKept | pkg/logger/task_log_hook.go:222-237 | levels up to error are told apart, everything above is fatal |
| TaskLogs.SerializeFields | pkg/logger/task_log_hook.go:240-282 | the fields other than task IDs are stored by key |
| TaskLogs.LastFieldWins | pkg/logger/task_log_hook.go:240-282 | of fields with the same key the last is stored, an entry's own field over a context field; task IDs are stored under no key |
| TaskLogs.LogsConserved | pkg/logger/task_log_hook.go:143-178 | after every sequence of writes and flushes the batches followed by the buffer are the captured logs in order |
| TaskLogs.BatchSizes | pkg/logger/task_log_hook.go:143-178 | batches hold 1 to 100 logs, exactly 100 if nothing was flushed early; fewer than 100 wait, none right after a flush |
| ConfigMerge.MergeConfigs | internal/dsl/loader.go:122-152 | version and rule base of the first configuration, and every rule that is first with its ID, in order |
| ConfigMerge.FirstRuleWins | internal/dsl/loader.go:135-149 | every ID keeps its first rule and no ID is kept twice |
| ConfigMerge.MergedHeader | internal/dsl/loader.go:127-133 | version and rule base are those of the first configuration; a single one without repeated IDs stays as it is |
| ConfigMerge.FirstConfigWins | internal/dsl/loader.go:135-149 | the first configuration with a rule of an ID decides, with its first such rule; what earlier configurations give comes first |
| ConfigMerge.OrderKept | internal/dsl/loader.go:135-149 | the rules kept stand in the order in which they came |
| ConfigMerge.MergeInStages | internal/dsl/loader.go:122-152 | merging some configurations first and the result with the rest gives the same |
| ConfigMerge.Validate | internal/dsl/parser.go:261-283 | a configuration is accepted exactly if it has rules, distinct IDs and only accepted rules; otherwise the first failing rule is reported, its own faults before a duplicate ID |
| ConfigMerge.MergedAcceptableIff | internal/dsl/loader.go:122-152 | the merged configuration is accepted exactly if there is a rule and every rule first with its ID is accepted |
| ConfigMerge.MergeKeepsAcceptable | internal/dsl/parser.go:261-283 | merging one or more accepted configurations gives an accepted one |

## Left out

- Shutdown: `Dispatcher.Stop`, `RepoTaskQueue.Stop` and the context-cancel branches drop tasks on purpose. Runs are those before it.
- `Dispatcher.TriggerDispatch`, a second drain from another goroutine; the step system has one dispatch loop.
- Fairness between repositories: Go's map order gives no bound, so completion is all that is claimed.
- The body of `processTask`: an opaque step between Take and Complete that keeps the task's ID and repository.
- GORM, SQLite, YAML and JSON text, and database errors; transactions are atomic. `setCategoryWithoutTx` serves tests with a mock store.
- Go values other than decoded JSON in settings, non-ASCII lower-casing of keys, and the defaults that reading all settings injects.
- ReportRun: the text of the merged report and of its summary, titles, timestamps and durations; Resume on a structure that does not decode (it restarts like one without structure); writes that fail.
- ReportResume.ResumeSafety: speaks of attempts one at a time; two workers on one report could each write back the rows they loaded.
- ResponseParser.ParseInvertsIff: is about texts in which every code point keeps its UTF-8 length when upper-cased. In others the byte positions found in the upper-cased text are not those of the text; what the parser then returns is left open, and only the bound on the summary is claimed. Text that is not valid UTF-8 is not modelled.
- ReportPhases.ConsistentIff: stores a row as it is created. The tag `gorm:"default:true"` on `IsLeaf` (internal/model/report.go:99) may make the database library store a parent row as a leaf, because it takes a false value for an unset one; the library is not part of this model.
- The prompt texts, section merging and export, the rest of the page's rendering.
- TaskLogs.SerializeFields: takes every field as a string field. The conversion of numbers, times and errors, and the fields whose value is absent, which are not stored, are not modelled.
- The order in which the goroutines of `flushLocked` reach the database, failed writes, and the waiting of `Close` for them.
- ConfigMerge.Validate: takes the checks of a single rule as a parameter; inheritance from the rule base and the other loaders are case analysis.
