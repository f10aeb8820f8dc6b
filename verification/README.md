# Verified models of the agent runtime's core

This project models the parts of the runtime where a mistake is hardest to see by reading: the event-sourced
task store with its optimistic concurrency, the assembly of streamed tool calls, the slash-command parser, the
prewarm worklist and the parallel datasource search, the prepared-surface read model, and the record ids,
paging and text chunks of the session-history, usage and catalog datasources. Every claim is a Dafny theorem;
`dafny verify dfyconfig.toml` checks all of them.

How the files follow the system:

| files | part of the runtime |
|---|---|
| Common.dfy | Go string helpers, `strconv`, stable sorting, filtered lists |
| TaskModel.dfy | tasks, executions, events; `Task.Validate`; the projector |
| TaskModification.dfy | artifact scopes, completion checks, and `applyModification` as a function |
| TaskOperations.dfy | the same operations and the two retry loops in their imperative form |
| TaskInvariants.dfy, TaskTheorems.dfy, TaskLosses.dfy, TaskExamples.dfy | replay, invariants, what each operation can undo |
| TaskMeaning.dfy, TaskFields.dfy, TaskAccounts.dfy, TaskFaults.dfy | what each operation means: statuses and artifacts, the fields it edits, the events and checks behind it, the errors |
| TaskProtocol.dfy | any number of concurrent clients on one task stream |
| ToolCalls.dfy, ToolRequests.dfy | the tool-call assembler, and what its requests hold |
| SlashCommand.dfy, SlashGrammar.dfy | tokenizer, parser and canonical printer; the grammar of everything that can be written |
| Prewarm.dfy, PrewarmAccounts.dfy | prewarm closure, and what it keeps in terms of the accessors |
| SearchPool.dfy, SearchReplies.dfy, Materialized.dfy | parallel search, its replies in terms of the calls made, preferred records |
| ReadModel.dfy, ReadModelHistory.dfy | prepared-surface read model |
| Records.dfy, Paging.dfy | record ids, record lookup, sorting, cursor paging, overlapping chunks |

Code that updates variables or objects in place is written as methods and classes and proved against
specification functions; the properties are then lemmas about those functions. Each specification function is
pinned by statements that do not mention it: what a request, a record, a reply or a field of a task holds is said
of the events, the accessors, the tokens and the old task. Operations with I/O take the
outcome of the I/O as a parameter: what other writers append between a load and an append (`foreign`), the
random ids (`draws`), the accessors of a datasource (`World`, `Env`), the JSON decoder (`Config.decode`).

## What the proofs found

Where a property one would expect of the code does not hold, the code is kept as it is, the exact condition is
proved, and a lemma or method shows the failure on a concrete input.

- A revision does more than replace the task: the projector reconciles every execution with the declared steps,
  drops the state of steps that are no longer declared, and gives the others the status `waiting`
  (`runtime/task/projector.go:44-57`, `434-470`). So a terminal step status is lost not only by `reopen_step` but
  also when `update_step` gives the step another id (`TaskLosses.StepTerminalLostIff`; case
  `TaskExamples.TerminalStepBypassed`), and with it the artifacts of that step (`TaskLosses.ArtifactLostIff`; case
  `TaskExamples.ArtifactLost`).
- For the same reason a step added while the task has any execution is refused when it is to be taken back with
  `remove_step` (`TaskMeaning.AddedStepRemovableIff`; case `TaskExamples.StepNotRemovable`), and no later batch
  can remove it either, unless an `update_step` renames it first (`TaskMeaning.BatchKeepsStep`).
- Completion looks at the steps of the current execution only, and every artifact added to an execution makes
  that execution the current one: `add_artifact` can make a completable task not completable
  (`TaskMeaning.CompletableAfterModifyIff`; case `TaskExamples.CompletabilityLost`).
- A prewarm reference is shadowed by an earlier detected one with the same key whose annotations do not enable
  prewarming (`Prewarm.FetchedIff`; case `Prewarm.ShadowedExample`).
- A search that fails with an empty error message is listed as an empty result (`SearchPool.ErrorsReportedIff`,
  with the condition on the accessors in `SearchPool.SilentIff`; case `SearchPool.SilentFailureExample`).
- A record is found under its own id exactly when the thread's metadata leaves `thread_id` alone
  (`RecordStore.HistoryGetIff`; case `RecordStore.HiddenMessage`); for usage records a `sequence` in the thread's
  metadata redirects or hides records too (`RecordStore.UsageGetIff`; case `RecordStore.RedirectedUsage`).
- A stored relation reports the size of the page as the total, which is the number of related records exactly
  when one page holds them all (`Paging.RelationTotalIff`; case `Paging.RelationTotalExample`).
- Arguments that look like path segments can only follow a flag: the set of invocations that some input means
  is exactly `SlashCommand.Canonical` (`SlashCommand.ParseImage`; case `SlashCommand.BareArgumentUnreachable`).

## Model

| member | source | states |
|---|---|---|
| StepGraph.ValidateAcyclic | core/task/task.go:938-972 | the depth-first search accepts a step list exactly when its dependency graph has no cycle, for every graph |
| StepGraph.Visit | core/task/task.go:946-965 | a successful visit extends a topological order that contains the node; a failed one exhibits a cycle |
| StepGraph.TopologicalAcyclic | core/task/task.go:938-972 | a graph whose nodes can all be listed after their dependencies has no cycle |
| TaskValidation.Validate | core/task/task.go:823-859 | a task is accepted exactly when title or objective is given, status and priority are known, step ids are non-blank and distinct, dependencies are declared, the steps form a DAG, and an embedded workflow is well-formed |
| TaskProjection.FoldConcat | runtime/task/projector.go:20-26 | projecting a log in two parts is projecting it at once |
| TaskEffects.ChangeEffect | runtime/task/projector.go:580-655 | an artifact event changes the artifacts of one scope only and no step status |
| TaskEffects.RevisedEffect | runtime/task/projector.go:44-57 | a revision keeps the state of declared steps, fills in `waiting`, and drops the state of all other steps |
| TaskEffects.ReconcileStepsEffect | runtime/task/projector.go:434-453 | after reconciliation exactly the declared steps have state; status and artifacts survive |
| TaskEffects.StepStatusEffect | runtime/task/projector.go:29-238 | a step status event sets one status and leaves every other status and all artifacts |
| TaskEffects.ScopedMembers | contrib/task/plugin.go:1420-1449 | the flat artifact list holds exactly the artifacts of the task, the executions and their steps, each under its scope |
| TaskQueries.ScopedArtifacts | contrib/task/plugin.go:1420-1449 | the nested loops over sorted ids produce that list |
| TaskQueries.ValidateState | contrib/task/plugin.go:1451-1493 | the accumulated checks and the completable flag, in order |
| TaskQueries.CompletionAllowed | contrib/task/plugin.go:1495-1512 | the loop decides whether every failing check's code is among the trimmed overrides |
| TaskQueries.AllowedIffFailingOverridden | contrib/task/plugin.go:1495-1512 | on validator output completion is allowed if and only if each failing check is overridden; the last length test never decides |
| TaskModification.Edit | contrib/task/plugin.go:1605-1731 | a rejected edit emits nothing; an accepted one emits exactly the revision to the proposed task, and the state is that revision applied |
| TaskModification.DrawId | contrib/task/plugin.go:1585-1593 | a drawn artifact id is non-empty and unused |
| TaskInvariants.GuardedKeepsSound | contrib/task/plugin.go:1603-1906 | an event that passed the checks keeps the invariants: valid task, distinct non-empty artifact ids over all scopes, state only for declared steps |
| TaskInvariants.RevisedSound | contrib/task/plugin.go:1921-1934 | a revision keeps those invariants |
| TaskInvariants.ChangeSound | contrib/task/plugin.go:1759-1817 | adding, replacing or removing an artifact under the checks keeps those invariants |
| TaskTheorems.ModifyReplays | contrib/task/plugin.go:1603-1906 | for every operation and every state, the state left in memory is the fold of the emitted events |
| TaskTheorems.BatchReplays | contrib/task/plugin.go:856-870 | the same for every batch: memory and log never disagree |
| TaskTheorems.IdExistsIffUsed | contrib/task/plugin.go:1595-1601 | an id is found exactly when some scope has it |
| TaskTheorems.ArtifactOpGuarded | contrib/task/plugin.go:1759-1817 | add, update and remove emit only events that find their target and bring in no taken id |
| TaskTheorems.CompleteGuarded | contrib/task/plugin.go:1879-1902 | so does every step of a `complete` with several artifacts |
| TaskTheorems.ModifyGuarded | contrib/task/plugin.go:1603-1906 | so does every operation |
| TaskTheorems.BatchSound | contrib/task/plugin.go:841-900 | every batch accepted on a sound task leaves a sound task |
| TaskMeaning.SetStatusMeaning | contrib/task/plugin.go:1818-1833 | `set_status` succeeds exactly for allowed transitions, sets that status and nothing else, and is silent when nothing changes |
| TaskMeaning.ReopenMeaning | contrib/task/plugin.go:1834-1847 | `reopen` succeeds exactly on a terminal task with an active target, `ready` by default |
| TaskMeaning.StepStatusMeaning | contrib/task/plugin.go:1732-1758 | when a step status change is accepted, and that it changes one status in one execution, which becomes current; output survives with terminal statuses only |
| TaskMeaning.AddArtifactMeaning | contrib/task/plugin.go:1759-1774 | when an artifact is accepted, and that it is appended to its scope and nowhere else |
| TaskMeaning.UpdateArtifactMeaning | contrib/task/plugin.go:1775-1800 | when an update is accepted, and that it replaces the one artifact with the id in its place |
| TaskMeaning.RemoveArtifactMeaning | contrib/task/plugin.go:1801-1817 | when a removal is accepted, and that it takes out exactly that artifact |
| TaskMeaning.AbsentArtifactRejected | contrib/task/plugin.go:1775-1817 | an id that no scope has is rejected and nothing changes |
| TaskMeaning.CompleteMeaning | contrib/task/plugin.go:1879-1902 | a successful `complete` appends the listed artifacts with ids filled in, sets the status, and every failing check is overridden |
| TaskMeaning.EditMeaning | contrib/task/plugin.go:1605-1731 | an edit is accepted exactly when it proposes a task and that task is valid; then it is the task |
| TaskFields.UpdateMetadataMeaning | contrib/task/plugin.go:1606-1661 | after an accepted `update_metadata` each of the sixteen fields holds what was given for it (texts trimmed, metadata merged key by key) or else what it held, and nothing else changed |
| TaskFields.OnlyFieldChanges | contrib/task/plugin.go:1606-1661 | a request that gives a single field changes that field and no other |
| TaskFields.EmptyUpdate | contrib/task/plugin.go:1606-1661 | a request that gives nothing is accepted and changes nothing |
| TaskFields.UpdateMetadataAcceptedIff | contrib/task/plugin.go:1606-1661 | it is accepted if and only if a title or objective remains and a given priority is known |
| TaskFields.AddCriterionMeaning | contrib/task/plugin.go:1662-1668 | accepted if and only if not blank; then appended last, trimmed, with all else unchanged |
| TaskFields.AddOutputMeaning | contrib/task/plugin.go:1669-1679 | accepted if and only if described; then appended last under its own id or the next one drawn |
| TaskFields.AddStepMeaning | contrib/task/plugin.go:1680-1686 | accepted if and only if the id is not blank and the task stays valid; then appended last |
| TaskFields.UpdateStepMeaning | contrib/task/plugin.go:1687-1709 | the step stands in the place of the one it updates, under the old id unless it brings one |
| TaskFields.RemoveStepMeaning | contrib/task/plugin.go:1710-1731 | accepted if and only if no execution has state for the step and the task stays valid without it; then exactly that step is gone |
| TaskFields.AbsentStepRejected | contrib/task/plugin.go:1687-1731 | a step that is not declared can be neither updated nor removed |
| TaskFields.DescribedIff | contrib/task/plugin.go:1936-1941 | an artifact is accepted if and only if its trimmed name, description or reference is not empty |
| TaskFaults.StatusRefused | contrib/task/plugin.go:1818-1847 | each error of `set_status` and `reopen`, and exactly when it is given; nothing else happens then |
| TaskFaults.StepStatusRefused | contrib/task/plugin.go:1732-1758 | the same for `set_step_status` and `reopen_step` |
| TaskFaults.EditRefused | contrib/task/plugin.go:1605-1731 | the same for the editing operations |
| TaskFaults.MismatchRefused | contrib/task/plugin.go:1921-1927 | an edit is refused for the task id if and only if nothing is wrong with the request and the task has another id |
| TaskFaults.AddArtifactRefused | contrib/task/plugin.go:1759-1774 | each error of `add_artifact`, an undeclared step before the content, the content before a taken id |
| TaskFaults.HeldArtifactRefused | contrib/task/plugin.go:1775-1817 | each error of `update_artifact` and `remove_artifact` for an artifact that some scope holds |
| TaskAccounts.EventsRecord | contrib/task/plugin.go:1603-1906 | every event of an accepted operation names the task, the reason of the item or else of the batch, and the status that was there before |
| TaskAccounts.ExecutionChosen | contrib/task/plugin.go:1732-1774 | which execution a step status or an artifact goes to when none is asked for: the current one, or `manual` |
| TaskAccounts.CompleteTakes | contrib/task/plugin.go:1908-1919 | `complete` takes the listed artifacts, or the outputs, or the single artifact, the first of these that is given |
| TaskAccounts.AddAllAcceptedIff | contrib/task/plugin.go:1881-1892 | artifacts that bring their ids are all added if and only if each is described and its id new to the task and to the list |
| TaskAccounts.CompleteAcceptedIff | contrib/task/plugin.go:1879-1902 | `complete` is accepted if and only if its artifacts are and, after adding them, each condition holds or is overridden |
| TaskAccounts.CompletableIff | contrib/task/plugin.go:1451-1493 | a task is completable if and only if every required output is produced in some scope, by id or by name, and all steps of the current execution are over |
| TaskAccounts.OverridesMeaning | contrib/task/plugin.go:1495-1512 | the two codes `required_output` and `steps_terminal` override their own condition, and no other code overrides anything |
| TaskMeaning.AddedStepRemovableIff | contrib/task/plugin.go:1680-1731 | `remove_step` undoes `add_step` exactly when the task has no execution |
| TaskMeaning.StateLostIff | contrib/task/plugin.go:1603-1906 | a step with state in an execution loses it if and only if the operation is an `update_step` that renames it |
| TaskMeaning.BatchKeepsStep | contrib/task/plugin.go:1710-1731 | a batch without such a renaming keeps every step that has state, and fails if it tries to remove one |
| TaskMeaning.CompletableAfterModifyIff | contrib/task/plugin.go:1759-1774 | after an accepted `add_artifact` a completable task stays completable if and only if the artifact goes to the task, or there are no steps, or the steps are settled in the execution it goes to |
| TaskLosses.TaskTerminalIffReopen | contrib/task/plugin.go:1825-1847 | a terminal task becomes active if and only if the operation is `reopen` |
| TaskLosses.StepTerminalLostIff | contrib/task/plugin.go:1687-1758 | a terminal step status is lost if and only if the step is reopened, or renamed by `update_step` |
| TaskLosses.ArtifactLostIff | contrib/task/plugin.go:1687-1817 | an artifact id disappears if and only if it is removed, replaced under another id, or held by a renamed step |
| TaskLosses.CompletableAfterAddIff | runtime/task/projector.go:264-285 | the same for the projector: when the validation survives an added artifact |
| TaskLosses.EditEffect | contrib/task/plugin.go:1605-1731 | an edit changes artifacts and terminal step statuses only by renaming the step that has them |
| TaskLosses.ArtifactOpShape | contrib/task/plugin.go:1759-1817 | a successful artifact operation is one change of one scope |
| TaskExamples.TerminalStepBypassed | contrib/task/plugin.go:1687-1709 | renaming a completed step away and back leaves it waiting, without `reopen_step` |
| TaskExamples.ArtifactLost | contrib/task/plugin.go:1687-1709 | renaming a step loses its artifact |
| TaskExamples.StepNotRemovable | contrib/task/plugin.go:1680-1731 | a step added while there is an execution is refused by `remove_step` |
| TaskExamples.StatesReached | runtime/task/projector.go:20-26 | the states of the examples are projections of logs |
| TaskExamples.CompletabilityLost | contrib/task/plugin.go:1759-1774 | an artifact in another execution makes a completable task not completable |
| TaskOperations.FindArtifactScope | contrib/task/plugin.go:1563-1570 | the search returns the first scope in order that holds the id |
| TaskOperations.EnsureArtifactId | contrib/task/plugin.go:1585-1593 | the loop draws until the id is free |
| TaskOperations.WithMetadata | contrib/task/plugin.go:1606-1661 | the assignments of `update_metadata`, one after the other; which field gets what is stated by `TaskFields.UpdateMetadataMeaning` |
| TaskOperations.MergeMetadata | contrib/task/plugin.go:1653-1660 | the loop over the given metadata, in any order, overwrites key by key |
| TaskOperations.Draft.ApplyModification | contrib/task/plugin.go:1603-1906 | the imperative form, all operations, leaves the state, events and error of the specification |
| TaskOperations.Draft.EditTask | contrib/task/plugin.go:1605-1731 | the operations that propose a new task |
| TaskOperations.Draft.CompleteTask | contrib/task/plugin.go:1879-1902 | the artifact loop, the validation and the final status |
| TaskOperations.AddAllStops | contrib/task/plugin.go:1881-1892 | the first artifact that cannot be added decides about the whole list |
| TaskStore.Stream.ProjectWithSequence | runtime/task/store.go:275-294 | the projection of the log together with the position of its last record |
| TaskStore.Stream.AppendExpected | runtime/task/store.go:71-85 | all or nothing: appended if and only if the stream still ends where expected |
| TaskStore.Stream.Create | contrib/task/plugin.go:743-782 | a task is written only when valid and only into an empty stream |
| TaskStore.Stream.ModifyOnce | contrib/task/plugin.go:851-877 | one attempt: a conflict exactly when others appended; success appends the batch of the loaded state; a failing item leaves the log alone |
| TaskStore.Stream.ModifyTask | contrib/task/plugin.go:841-900 | whatever others append in between, the request is decided on the log the conflicts left, or given up after sixteen conflicts with nothing of its own appended |
| TaskStore.Stream.RecordWatcher | contrib/task/plugin.go:1223-1270 | the same for the watcher, which changes metadata only and does nothing when the metadata already says so |
| TaskStore.WatchedChanges | contrib/task/plugin.go:1246-1261 | three conditional assignments change the metadata exactly when one of them does |
| TaskAccounts.WatchMeaning | contrib/task/plugin.go:1246-1261 | thread, branch and run are written under their own metadata keys; blank ones and all other keys stay |
| TaskAccounts.WatchSilentIff | contrib/task/plugin.go:1246-1261 | the watcher appends nothing if and only if all it would write is there already |
| TaskStore.FirstFailureStops | contrib/task/plugin.go:856-865 | the first failing item decides about the batch |
| TaskStore.CreatedTaskSound | contrib/task/plugin.go:743-782 | a freshly created task is sound |
| TaskRequests.BatchKeepsSound | contrib/task/plugin.go:841-900 | every batch either client appends keeps a sound task sound |
| TaskRequests.ItemsReopen | contrib/task/plugin.go:1834-1847 | within a batch a terminal task becomes active only through an item `reopen` |
| TaskRequests.ItemsReopenStep | contrib/task/plugin.go:1687-1878 | within a batch a terminal step status is lost only through `reopen_step` or a renaming `update_step` |
| TaskProtocol.LogIsSerial | contrib/task/plugin.go:851-877 | for every interleaving of any number of clients and foreign writers, the log is what the committed requests leave when run one after the other, each on the projection of exactly the prefix it is appended to |
| TaskProtocol.CommitsPersist | contrib/task/plugin.go:871-877 | nothing committed is ever lost or rewritten |
| TaskProtocol.CommittedExactlyOnce | contrib/task/plugin.go:851-878 | a client commits at most once, and only if it reports success |
| TaskProtocol.GivingUpMeansProgress | contrib/task/plugin.go:851-878 | a client gives up only after sixteen conflicts, with as many foreign commits in the log and none of its own |
| TaskProtocol.ClientTerminates | contrib/task/plugin.go:851-878 | each own step brings a client nearer to its end, whatever the others do |
| TaskProtocol.NextKeepsInv | runtime/eventstore/memory.go:77-84 | every step of every participant keeps the protocol invariant |
| TaskProtocol.AppendedOnProjection | contrib/task/plugin.go:902-917 | a successful append adds the batch computed from the projection of the very log it extends |
| TaskProtocol.EveryRunSound | contrib/task/plugin.go:1603-1906 | in every concurrent run from a sound task, as long as foreign writers do not break one, every reachable log projects to a sound task |
| TaskProtocol.ClientStepSound | contrib/task/plugin.go:851-877 | no step of a client breaks a sound task |
| TaskProtocol.GuardedForeignSound | runtime/task/store.go:71-85 | neither do foreign events that pass the same checks |
| TaskProtocol.EveryRunReopens | contrib/task/plugin.go:1825-1847 | in such a run, foreign writers included, a client that makes a terminal task active commits a `reopen` |
| TaskProtocol.EveryRunReopensStep | contrib/task/plugin.go:1687-1878 | the same for terminal steps, with the renaming `update_step` as the only other way |
| ToolCalls.NonInterference | adapters/llm/assembler.go:41-83 | for every stream and every call id, the pending state of the call and everything emitted for it are those of its own events alone |
| ToolCalls.PendingSinceCompletion | adapters/llm/assembler.go:63-78 | a call is pending exactly when it had an event since it last completed; its text is what arrived since then |
| ToolCalls.DecodedAtDone | adapters/llm/assembler.go:63-78 | the text decoded at a Done event is all delta and done text since the previous completion; Start adds none |
| ToolCalls.ExactlyOnce | adapters/llm/assembler.go:41-83 | without failures there is one request for each Done event and no pending call is marked done |
| ToolRequests.AnswersMeaning | adapters/llm/assembler.go:41-145 | over any stream there is one answer for each Done event, in order, each determined by what the events of its call said since it last completed: the last tool and type named, the concatenated arguments, and the call id |
| ToolRequests.DoneAnswered | adapters/llm/assembler.go:56-78 | the same for one Done event after any stream |
| ToolRequests.AnsweredOnce | adapters/llm/assembler.go:123-145 | what the events say determines the answer |
| ToolRequests.LastCompletedIs | adapters/llm/assembler.go:63-78 | a call last completed at the last of its Done events that was answered with a request |
| ToolRequests.NamesSinceCompletion | adapters/llm/assembler.go:45-70 | the tool and type of a pending call are those named last since then: a Start says both, other events only when not empty |
| ToolRequests.LastUnique | adapters/llm/assembler.go:45-70 | there is one last tool and one last type |
| ToolRequests.OneText | adapters/llm/assembler.go:54-70 | only delta and done events of the call contribute to its text |
| ToolRequests.TextConcat | adapters/llm/assembler.go:54-70 | the text of a stream is that of its parts, one after the other |
| ToolRequests.OperationReaches | adapters/llm/assembler.go:147-180 | the operation is the target of the tool or, with a dispatch, of the first case whose action is the trimmed text in the action field; each way to miss it has its own error |
| ToolRequests.ReachesOne | adapters/llm/assembler.go:147-180 | every input reaches one target or fails in one way |
| ToolRequests.RequestReplies | adapters/llm/assembler.go:123-145 | a request holds the operation reached, the decoded input (an empty object for a blank text), the call id and the type, and each missing part its error |
| ToolRequests.SameCallIff | adapters/llm/assembler.go:110-114 | which events belong to one call |
| ToolCallAssembler.Assembler.Apply | adapters/llm/assembler.go:41-83 | the object with its map of mutable calls leaves the specified state and answer; what an answer holds is stated by `ToolRequests.AnswersMeaning` |
| ToolCallAssembler.Assemble | adapters/llm/assembler.go:32-83 | an assembler fed a whole stream ends with the pending calls of the run, and its replies are the answers that the run lemmas speak of |
| ToolCallAssembler.Assembler.Call | adapters/llm/assembler.go:110-121 | a call is created on first sight, under its id or its index |
| ToolCallAssembler.PendingToolCall.Update | adapters/llm/assembler.go:45-70 | how an event changes the fields of its call |
| ToolCallAssembler.Assembler.Complete | adapters/llm/assembler.go:86-108 | the requests of the calls marked done, in the order of their ids |
| ToolCallAssembler.CompleteCalls | adapters/llm/assembler.go:86-108 | the loop over the sorted ids, stopping at the first error |
| ToolCallAssembler.NothingLeftToComplete | adapters/llm/assembler.go:86-108 | after a stream without failures `Complete` returns nothing |
| SlashTokens.Tokenize | core/command/parse.go:93-142 | the loop is the quote and escape automaton; an unterminated quote is reported exactly when it ends inside one |
| SlashTokens.TokenRoundTrip | core/command/parse.go:93-142 | quoting any non-empty tokens and joining them with spaces tokenizes back to the same tokens |
| SlashTokens.TokensNonEmpty | core/command/parse.go:93-142 | the tokenizer never yields an empty token |
| SlashGrammar.AnyStyle | core/command/parse.go:93-142 | whether each piece of a token is plain, in single or double quotes or behind backslashes, and whatever gaps stand between tokens, a text means the tokens it was written from |
| SlashGrammar.OpenQuoteFails | core/command/parse.go:133-138 | a quote that is not closed is an error, whatever stands before it |
| SlashGrammar.LastBackslash | core/command/parse.go:133-135 | a backslash at the end stands for itself |
| SlashCommand.ParseSlash | core/command/parse.go:13-91 | the loop over tokens computes the specified parse, error by error; which invocation or error that is, is stated by `SlashGrammar.GrammarExact` and `SlashGrammar.ErrorsExact` |
| SlashCommand.CutSpec | core/command/parse.go:53-62 | a flag is cut at its first equals sign |
| SlashCommand.ParsePrint | core/command/parse.go:13-91 | parsing undoes printing for every canonical invocation and every order of its flags |
| SlashCommand.ParseCanonical | core/command/parse.go:13-91 | parsing yields canonical invocations only |
| SlashCommand.ParseImage | core/command/parse.go:13-91 | an invocation is canonical if and only if some input means it |
| SlashCommand.BareArgumentUnreachable | core/command/parse.go:72-81 | no input means a lone argument that looks like a path segment |
| SlashCommand.ParseFlags | core/command/parse.go:45-72 | a printed flag list parses flag by flag; the token after a switch is not taken as its value |
| SlashGrammar.GrammarExact | core/command/parse.go:13-91 | a text means an invocation if and only if its tokens are a root with a slash, path segments, and then switches, flags with a joined or a separate value and arguments in any order that add up to that invocation |
| SlashGrammar.ErrorsExact | core/command/parse.go:13-91 | a text is an error if and only if its quotes or its root are wrong, or a command is followed by a flag without name, a flag with an empty value or a single dash; it is the error of the first of these |
| SlashGrammar.NoCommandIff | core/command/parse.go:13-20 | a text is no command if and only if it does not begin with a slash after trimming |
| SlashGrammar.AnySpelling | core/command/parse.go:13-142 | however a command is spelled, it means its path, its arguments in order, and its flags |
| SlashGrammar.SplitMeansJoint | core/command/parse.go:58-71 | `--name value` means the same as `--name=value`, anywhere in a command |
| SlashGrammar.LastItemWins | core/command/parse.go:58-71 | a flag has the value of the last item that sets it, and no other flag is set |
| SlashGrammar.ParseItemsThen | core/command/parse.go:45-86 | items are parsed one after the other, whatever follows them |
| SlashGrammar.OffendingParse | core/command/parse.go:45-72 | an offending token ends the parse with its error wherever it stands |
| Prewarm.Worklist.Run | contrib/datasource/prewarm.go:86-102 | the worklist ends, keeps the invariant (at most 20 records, distinct record keys, each reference key fetched once, every record has an origin), and below the cap keeps everything fetched or related |
| Prewarm.Worklist.FetchRecords | contrib/datasource/prewarm.go:93-126 | all records that one reference brings are kept, unless the cap stops it; which those are is stated by `PrewarmAccounts.FetchBrings` |
| PrewarmAccounts.PrewarmRecords | contrib/datasource/prewarm.go:36-59 | the account of a whole run from the detected references: at most 20 records with distinct keys, each brought by a fetched reference or a relation of an earlier record; below the cap, everything that a fetched reference or a relation brings is kept, and every wanted reference is fetched unless the first detected one with its key is not wanted |
| PrewarmAccounts.FetchBrings | contrib/datasource/prewarm.go:104-126 | a known reference with an id and `prewarm.get` on brings the record that get finds; otherwise, with a query and `prewarm.search` on, all records that the search finds; nothing else is brought |
| PrewarmAccounts.KeptIff | contrib/datasource/prewarm.go:128-147 | the kept record is the one that came, with empty names filled from its source and its links detected anew, in order, without those to itself |
| PrewarmAccounts.RelationsNamed | contrib/datasource/prewarm.go:243-256 | the relations are exactly the trimmed non-empty parts between the commas of the annotation |
| PrewarmAccounts.RelationsSorted | contrib/datasource/prewarm.go:243-256 | they are followed in the order of their names |
| PrewarmAccounts.RelatedIff | contrib/datasource/prewarm.go:154-171 | a relation is followed for records of a known entity, under the limit of their source |
| PrewarmAccounts.TruthyIff | contrib/datasource/prewarm.go:271-278 | an annotation is on if and only if it is one of four words, in any case and with blanks around it |
| PrewarmAccounts.RecordKeyIff | contrib/datasource/prewarm.go:284-286 | without NUL characters, records have one key if and only if datasource, entity and id agree |
| PrewarmAccounts.RefKeyIff | contrib/datasource/prewarm.go:280-282 | without NUL characters, references have one key if and only if they agree but for their annotations |
| Prewarm.Worklist.AddRecord | contrib/datasource/prewarm.go:128-152 | a new record is stored, its links queued and its source's relations followed |
| Prewarm.Worklist.AddRelationRecords | contrib/datasource/prewarm.go:154-178 | related records are added, one level deep |
| Prewarm.Worklist.Enqueue | contrib/datasource/prewarm.go:180-186 | exactly the enabled references with an unmarked key are queued, in order |
| Prewarm.AdmittedEnqueued | contrib/datasource/prewarm.go:180-186 | what is let in is enabled and unmarked, and nothing enabled and unmarked is left out |
| PrewarmAccounts.AdmittedFiltered | contrib/datasource/prewarm.go:180-186 | the queue grows by the wanted links not met yet, each at the index that counts those before it |
| PrewarmAccounts.FirstEnabledIff | contrib/datasource/prewarm.go:86-102 | the first reference with a key, by index |
| Prewarm.Worklist.MarkRef | contrib/datasource/prewarm.go:188-195 | a key is new the first time only |
| Prewarm.StoredInv | contrib/datasource/prewarm.go:128-152 | storing a record keeps the invariant |
| Prewarm.PoppedInv | contrib/datasource/prewarm.go:86-102 | taking a reference off the queue keeps the invariant |
| Prewarm.FetchedIff | contrib/datasource/prewarm.go:86-102 | when the queue has run empty, an enabled reference has been fetched if and only if no detected reference has its key or the first one that has it is enabled |
| Prewarm.ShadowedExample | contrib/datasource/prewarm.go:86-102 | a reference without annotations, detected first, hides the same reference with them; in the other order the record is found |
| Prewarm.PopBound | contrib/datasource/prewarm.go:16-25 | with at most 20 links a record at most |detected| + 400 references are popped |
| PrewarmTypes.RelatedRefPlain | contrib/datasource/prewarm.go:166-176 | a related record brings no relations of its own, which ends the recursion |
| PrewarmTypes.LimitOfAnnotation | contrib/datasource/prewarm.go:258-269 | a number in the annotation is the relation limit up to 20; anything else means 10 |
| SearchPool.BuildJobs | contrib/datasource/plugin.go:461-466 | the jobs, one for each target and query |
| SearchPool.JobAt | contrib/datasource/plugin.go:461-466 | target-major, query-minor |
| SearchPool.Collect | contrib/datasource/plugin.go:533-541 | results and errors split by message; where each reply ends up is stated by `SearchReplies.SearchOutput` |
| SearchPool.ScheduleInv | contrib/datasource/plugin.go:467-532 | in every schedule at most four goroutines are inside, and a slot holds its own job's outcome once written |
| SearchPool.NoDeadlock | contrib/datasource/plugin.go:467-532 | until every goroutine is done, some goroutine can move |
| SearchPool.ScheduleEnds | contrib/datasource/plugin.go:467-532 | every schedule ends after three steps for each job |
| SearchPool.ScheduleIndependent | contrib/datasource/plugin.go:467-532 | every schedule leaves the slots of the sequential run |
| SearchPool.ParallelSearch | contrib/datasource/plugin.go:450-542 | every schedule gives the sequential output, with one result or error for each target and query |
| SearchReplies.SearchOutput | contrib/datasource/plugin.go:450-542 | whatever the schedule, the reply for target t and query q stands among the results, or with its datasource and entity among the errors, at the index that counts the earlier replies of its kind; there is nothing else |
| SearchReplies.RepliedIff | contrib/datasource/plugin.go:474-530 | a job has exactly one right reply: the records or message of the index when the index decides, otherwise those of the provider, unchanged |
| SearchReplies.CollectedPlaced | contrib/datasource/plugin.go:533-541 | every slot has its place |
| Filtering.FilteredOnce | contrib/datasource/plugin.go:533-541 | elements that stand where they should determine the list |
| SearchPool.ErrorsReportedIff | contrib/datasource/plugin.go:533-541 | all failures are reported as errors if and only if none has an empty message |
| SearchPool.SilentIff | contrib/datasource/plugin.go:474-530 | a job fails silently if and only if the store or provider call that decides about it fails with an empty message |
| SearchPool.SpeakingAccessorsReported | contrib/datasource/plugin.go:474-541 | accessors that never fail with an empty message have all failures reported |
| SearchPool.SilentFailureExample | contrib/datasource/plugin.go:533-541 | a failure without a message is listed as a result |
| Materialized.PreferMaterialized | contrib/datasource/plugin.go:783-802 | the map and the order slice give, for each key in order of first appearance, its best record |
| Materialized.RecordScore | contrib/datasource/plugin.go:804-816 | the score, summed over the maps in any order |
| Materialized.ScoreSteps | contrib/datasource/plugin.go:804-816 | a relation is worth 100 and 10 for each value, a field value 1, a view of its own 5, and a bare record nothing |
| Materialized.KeyIff | contrib/datasource/plugin.go:783-802 | without NUL characters, two records compete if and only if source, entity and id agree |
| Materialized.TotalWithout | contrib/datasource/plugin.go:804-816 | a sum over a map does not depend on the order of its keys |
| Materialized.BestIsFirstMaximum | contrib/datasource/plugin.go:783-802 | the best record is the first one that no other record with its key outscores |
| Materialized.OrderIsFirstAppearance | contrib/datasource/plugin.go:783-802 | keys keep the order of their first appearance |
| Materialized.OrderMembers | contrib/datasource/plugin.go:783-802 | each key occurs exactly once |
| Materialized.PreferIdempotent | contrib/datasource/plugin.go:783-802 | preferring twice is preferring once |
| KeyedLists.Merge | core/activation/readmodel.go:298-311 | merging writes the added references over the base and sorts: the canonical list of the map |
| KeyedLists.Remove | core/activation/readmodel.go:313-325 | removing leaves the canonical list of the map without those keys |
| KeyedLists.MergeStrings | core/activation/readmodel.go:259-296 | the sorted union of the trimmed non-blank names |
| KeyedLists.RemoveStrings | core/activation/readmodel.go:278-296 | the sorted difference |
| KeyedLists.CanonShape | core/activation/readmodel.go:298-447 | the list is strictly sorted and holds exactly the values of the map |
| KeyedLists.CanonUnique | core/activation/readmodel.go:298-447 | whatever order the map is enumerated in, sorting gives the same list |
| KeyedLists.PutLast | core/activation/readmodel.go:298-311 | a key holds the last reference written to it |
| KeyedLists.PutCanon | core/activation/readmodel.go:298-325 | reading a canonical list back gives its map |
| ReadModel.Model.ApplyNamed | core/activation/readmodel.go:65-119 | after every event the model represents the unbounded specification: eight lists, last 32 trace entries, diagnostics, focus |
| ReadModel.Model.ApplyPrepared | core/activation/readmodel.go:143-157 | union and overwrite |
| ReadModel.Model.ApplyExpired | core/activation/readmodel.go:159-172 | difference, and the lifetime is cleared when it matches |
| ReadModel.Model.AppendTrace | core/activation/readmodel.go:174-179 | only the last 32 entries are kept |
| ReadModel.LastSnoc | core/activation/readmodel.go:174-179 | trimming after every entry is trimming once |
| ReadModel.LogIsEntries | core/activation/readmodel.go:65-119 | one trace entry for each recognised event, in order; unrecognised events leave none |
| ReadModel.Replay | core/activation/readmodel.go:56-119 | a model fed a whole stream shows the surface of its run and the last 32 trace entries |
| ReadModelHistory.ActiveIff | core/activation/readmodel.go:143-172 | over any run a name is active if and only if some event prepared it and no later event expired it |
| ReadModelHistory.HeldIff | core/activation/readmodel.go:143-172 | over any run a key of any reference list holds a reference if and only if an event prepared it last and no later event names the key |
| ReadModelHistory.ShownNames | core/activation/readmodel.go:259-296 | each list of names on the surface of a model is strictly sorted and holds exactly the names its history leaves active |
| ReadModelHistory.ShownRefs | core/activation/readmodel.go:298-447 | each list of references is strictly sorted and holds exactly the references its history leaves current |
| ReadModelHistory.SameNamesShown | core/activation/readmodel.go:143-172 | two models whose histories leave the same names active show the same list, however they got there |
| ReadModelHistory.SameRefsShown | core/activation/readmodel.go:143-172 | the same for references |
| ReadModelHistory.SameKeyIff | core/activation/readmodel.go:298-447 | which references of a list are one and the same (trimmed names for providers, datasources and skills, plain names for operations and reference targets), and which count as none |
| ReadModelHistory.FocusIff | core/activation/readmodel.go:65-119 | the focus is the one detected last |
| ReadModelHistory.LifetimeIff | core/activation/readmodel.go:143-172 | the lifetime is the last one given by an event, unless a later event expired just that one |
| ReadModelHistory.ReportsConcat | core/activation/readmodel.go:65-119 | traces and diagnostics of two streams one after the other are those of each |
| ReadModelHistory.ReportsSnoc | core/activation/readmodel.go:65-119 | what each kind of event adds to the traces and diagnostics |
| ReadModelHistory.ShownTrace | core/activation/readmodel.go:174-179 | a model shows the whole trace of its history, or the last 32 entries |
| RecordIds.ParseRecordIdRoundTrip | contrib/sessionhistory/plugin.go:492-515 | parsing undoes printing for every non-empty thread id, entity and 64-bit sequence, even when the thread id contains the marker |
| RecordIds.ParseRecordIdIff | contrib/sessionhistory/plugin.go:492-515 | an id parses to a thread and a sequence if and only if it is the thread, the entity and a number for that sequence, with colons between them |
| RecordIds.RecordIdInjective | contrib/usage/plugin.go:528-547 | different threads or sequences have different ids |
| RecordIds.RecordIdDetermines | contrib/sessionhistory/plugin.go:492-494 | two ids are equal if and only if thread, entity and sequence are, for colon-free entities and any thread ids |
| RecordIds.EntitiesColonFree | contrib/sessionhistory/plugin.go:374-396 | every entity an event is classified into is colon-free, and so is the usage entity |
| RecordStore.Get | contrib/sessionhistory/plugin.go:168-193 | the loop finds the first record of the thread with the thread id and sequence in its metadata |
| RecordStore.RecordOfIff | contrib/sessionhistory/plugin.go:340-365 | the record of an event, member by member: id, time, body, and what `thread_id`, `sequence` and the other keys of the thread's metadata hold |
| RecordStore.HistoryGetIff | contrib/sessionhistory/plugin.go:168-193 | a session-history record is found under its id if and only if the thread's metadata does not redefine `thread_id` |
| RecordStore.UsageGetIff | contrib/usage/plugin.go:198-219 | for usage records, what is found in each case, `sequence` in the metadata included |
| RecordStore.HiddenMessage | contrib/sessionhistory/plugin.go:168-193 | a message is not found when the thread's metadata says another `thread_id` |
| RecordStore.RedirectedUsage | contrib/usage/plugin.go:198-219 | with `sequence` 2 in the metadata the id of the second usage record finds the first, and the id of the first finds nothing |
| RecordStore.ProjectAllDistinct | contrib/sessionhistory/plugin.go:208-230 | over all threads record ids are distinct |
| RecordStore.ListingOrderIrrelevant | contrib/sessionhistory/plugin.go:571-580 | the sorted records do not depend on the order in which the store lists the threads |
| RecordStore.FilterInPlace | contrib/usage/plugin.go:156-171 | the filter that appends into the slice it reads from keeps exactly the matching records, in order |
| Paging.SlicePage | contrib/usage/plugin.go:172-196 | the paging tail of usage `List` and of the `Corpus` methods refines the page function, errors included |
| Paging.ReslicePage | contrib/datasource/catalog_datasource.go:379-401 | so do `paginateCatalogRecords` and the tail of `relationDataStore` |
| Paging.CrawlCollects | contrib/usage/plugin.go:156-196 | following `NextCursor` from the empty cursor, with any limit on each call, collects the list exactly once and in order; a page is complete exactly when all has been collected |
| Paging.CrawlThreads | contrib/sessionhistory/plugin.go:208-248 | the same when the store lists the threads in another order on every call: every matching record once, newest first |
| Paging.ListedCanonical | contrib/usage/plugin.go:631-640 | filtered and sorted records are strictly ordered, in one way only |
| Paging.ListedIff | contrib/usage/plugin.go:156-171 | listed are exactly the records of all events of the entity, in all threads, that match |
| Paging.ListedNewest | contrib/usage/plugin.go:631-640 | newest first, and by id, largest first, at equal times |
| Paging.PrintedCursor | contrib/usage/plugin.go:559-569 | a printed number is that offset, unless it is negative |
| Paging.PageSizes | contrib/usage/plugin.go:549-557 | default and largest page sizes of the listings |
| Paging.RelationTotalIff | contrib/datasource/plugin.go:884-905 | the total of a stored relation is the number of its records if and only if there are none, or the offset is 0 and the limit covers them; the totals of the lists always are, and pages of a corpus carry none |
| Paging.RelationTotalExample | contrib/datasource/plugin.go:884-905 | two related records, one at a time: the total says 1 |
| Paging.RelationTotalsAddUp | contrib/datasource/plugin.go:884-905 | over a crawl these totals add up to the number of records |
| Paging.CatalogCursorIff | contrib/datasource/catalog_datasource.go:379-390 | the catalog reads a cursor as the other listings do if and only if it is trimmed, blank, or no number for them either |
| Paging.CallerTrims | contrib/datasource/plugin.go:434-439 | its caller trims the cursor, so every cursor that is given means the same to all listings |
| TextChunks.BoundedTextChunks | contrib/sessionhistory/plugin.go:628-655 | the loop ends for all arguments; windows start at 0, are at most the target long, each starts the overlap before the end of the one before, and only the last one reaches the end |
| TextChunks.WindowStarts | contrib/sessionhistory/plugin.go:640-653 | window i starts at i * (target - overlap) |
| TextChunks.FallbackSizes | contrib/sessionhistory/plugin.go:630-639 | what target and overlap fall back to |
| TextChunks.WindowCount | contrib/sessionhistory/plugin.go:640-653 | the exact number of windows, 1 + ceil((n - target) / (target - overlap)) beyond one |
| TextChunks.ChunksUnique | contrib/sessionhistory/plugin.go:628-655 | the text and the effective sizes determine the chunks |
| TextChunks.ChunksRebuild | contrib/sessionhistory/plugin.go:628-655 | dropping the overlaps gives the text back |
| TextChunks.VisibleKept | contrib/sessionhistory/plugin.go:640-653 | every visible character is in the text of some window, although each window is trimmed |
| GoStrings.AtoiItoa | contrib/usage/plugin.go:559-569 | every 64-bit cursor or sequence survives printing and parsing |
| GoStrings.StrLessIff | contrib/usage/plugin.go:631-640 | the order of ids: the first difference decides, and a prefix comes first |
| Sorting.SortCanonical | contrib/usage/plugin.go:631-640 | sorting comparable elements gives one list, whatever order they come in |
| Sorting.SortKeys | adapters/llm/assembler.go:86-95 | collecting map keys in any order and sorting them gives one list |

## Left out

- Creator and diagnostics of a task, and the details of steps and artifacts that no rule inspects. The validation of an embedded workflow is a flag of the workflow.
- Events of the scheduler (executions started or finished, step leases, diagnostics), ready-step selection and the task index: in the protocol they appear only as foreign appends.
- `TaskProtocol.EveryRunSound` and its companions let other writers append anything that does not break a sound task; that the scheduler is such a writer is not proved, since its events are not modelled.
- RecordOfIff: metadata that a record draws from its own event (`type`, `event`, branch, time, fields of the payload) is not modelled, nor that it overwrites a key of the same name in the thread's metadata; `thread_id` and `sequence` are not among it.
- Time stamps: events, steps and tasks carry none here. Records carry one parsed time; which metadata key it was parsed from is not modelled.
- DrawId: random ids are taken from a finite list of draws; running out of draws is an error of the model (`NoMoreDraws`), where the program would keep drawing.
- EqualFold: case folding is modelled on ASCII letters, and so is lower-casing in the prewarm annotations.
- Decoding of event payloads, JSON arguments and operation names: events and operations come typed, JSON decoding is a function parameter, an unknown operation is one constructor.
- RequestOf: an operation reference is one string; how a reference with a version is rendered or found empty is not modelled.
- Cancellation, access control, and the failure of the store itself, of thread reads and of thread listings.
- Texts of error messages, trace summaries, titles, record contents, fingerprints and everything rendered.
- Thread entities of the session history (their id is the thread id) and the classification of events into entities: an event carries its entity.
- The filter predicates of the listings are parameters; matching of queries, dates and types is not modelled.
- The semantic index, the data store's own relation query and `Detect` are parameters; only the bound on detected references is used, as an assumption of `PopBound`.
- Sorting by the library is a stable insertion sort; where keys can be equal, results that depend on the order the library chooses are not claimed.
- Slices that share memory: value sequences are used except for the in-place filter; growth and aliasing of slices are not modelled.
- Overflow of `offset + limit`: sequences are shorter than 2^63 and the limits added are clamped or compared first, so it is not modelled.
