# Executions and credential overwrites of n8n, verified

Two parts of n8n's server package are modelled here and proved correct, or proved to
fail under an exact condition.

**The life of an execution.** An execution is created or claimed in the database, holds a
concurrency slot, runs, waits, is resumed by a timer or by a finished child, and is
cancelled or shut down. Callers interleave at every `await`.

- `ExecutionProtocol.dfy` is a transition system: `add` is split at its awaits, the
  `finally` callback of a post-execute promise is a step of its own, and the database is a
  map from execution id to status. It also holds the inductive invariant.
- `ExecutionTheorems.dfy` states what every run keeps: slots, races for a row, resumes.
- `ExecutionLifecycle.dfy` follows one record: settled promises, lost slots, what a resume
  inherits, and the cancelling shutdown.
- `ExecutionOwnership.dfy` asks who drives an execution, and what a resume that comes
  before the first run is finalised breaks.
- `ActiveExecutions.dfy` is the class itself; each method is the code between two awaits,
  proved against the step it implements.
- `ConcurrencyQueue.dfy` and `ConcurrencyControl.dfy` are the queue behind the limit;
  `ConcurrencyLimit.dfy` runs the protocol on top of it.
- `WaitTracker.dfy` is the polling of waiting rows, the retries, and the resume of a parent.
- `ParentResume.dfy` patches a waiting parent with the result of a finished child, and
  `ParentRaces.dfy` lets any number of children do so, and of resumes claim the parent,
  at the same time.
- `Deadlines.dfy` is the arithmetic of soft deadlines and of the hard cancel timer.
- `ActivationQueue.dfy` is the back-off queue for failed workflow activations.

**Credentials.** Types inherit from each other, administrators overwrite fields, and
imported workflows refer to credentials by stale ids or bare names.

- `CredentialTypes.dfy` is the worklist that appends to the array it iterates.
- `CredentialsOverwrites.dfy` flattens inherited overwrites and applies them.
- `InvalidCredentials.dfy` is the two-cache repair loop.

`Basics.dfy` holds what several modules need.

`dafny verify dfyconfig.toml` checks the whole project.

## Assumptions about the surroundings

- The compare-and-swap on a row's status is atomic.
- Only a run reports a status, and only while the entry it goes to is live. This is a
  precondition of `SetStatus`.
- Nothing is assumed about who writes which status to a row, or when; nor about which
  rows are claimed.
- In `ConcurrencyQueue.dfy`, a slot is given back only by a reservation that holds one.
  `ConcurrencyLimit.dfy` does not assume this: there the protocol is the caller.
- A run finalises its record at most once. It may also end without
  doing so (packages/cli/src/workflow-runner.ts:104-115).
- The `extends` graph of credential types is acyclic; on a cycle the source recurses for
  ever. A type's `extends` is the same in its description and in the list of known
  credentials; flattening reads the one and `get` the other.
- `Object.keys` lists each key once. Clocks, timer ids and database answers are inputs.
- A timer delay above 2147483647 ms is taken for 1 ms, as the repository itself notes in
  packages/cli/src/modules/agent-evals/agent-eval-runner.service.ts:43-45.

## What the proofs found

Each of these is code that differs from what a comment or a caller expects. Each has a
lemma with the exact condition.

- **Slots can be lost for good.** `stopExecution` deletes an entry whose status is
  `waiting`, although its promise may not have settled. Then nothing can reach the promise
  and its slot never comes back (`RunningSlotCanBeLost`, `OrphanedExactlyWhen`,
  `SlotComesBackIff`). The code comment says only that such an entry has no valid promise.
  Once as many slots are lost as the limit allows, every later `add` that needs one waits
  for ever, unless waiters are taken out of the queue (`LostUseUpTheLimit`,
  `EveryLaterAddWaits`).
- **A run can end without finalising.** An error whose message contains `cancelled` is taken
  for a cancellation and dropped (packages/cli/src/workflow-runner.ts:104-115). If the entry
  reports to wait by then, its slot never comes back either (`SlotComesBackIff`).
- **An early resume loses a slot too, and is ended by the run it follows.** The hook at the
  end of a run saves the row as `waiting` and is awaited
  (packages/core/src/execution-engine/workflow-execute.ts:2690-2693,
  packages/cli/src/execution-lifecycle/execution-lifecycle-hooks.ts:666-675) before the
  record is finalised (packages/cli/src/workflow-runner.ts:463-471). A resume that claims
  the row in between replaces the record, whose slot never comes back, and the late
  finalisation settles the promise of the resume (`EarlyResumeLosesASlot`). Likewise the
  server starts before the recovery lists all `new` rows
  (packages/cli/src/commands/start.ts:403-416), so it can claim a row that an `add` of this
  process still holds. An execution has one owner throughout a run exactly when no claim
  comes before the run behind an earlier record has ended (`OneOwnerIff`).
- **A run finalises by execution id, not its own record.** When another record has taken
  its place, it settles the promise of that one (`StraysWhenItFinalises`). This can happen
  exactly when a record is registered while an earlier run of the execution is still to be
  finalised (`FinalisesOnlyItselfIff`). Stopping the earlier run does not prevent it: the
  cancel timer (packages/cli/src/workflow-runner.ts:448-460) forgets an entry that reports
  to wait, but the run goes on, saves its row and finalises the resume
  (`StoppedWaitEndsItsResume`).
- **Removing a waiter exceeds the concurrency limit.** `remove` raises the capacity and
  also lets the next waiter through, although nobody gave a slot back
  (`StepStaysWithinIff`, `LimitHoldsIff`). The repository's own queue test expects this.
- **`removeAll` admits every second waiter** instead of emptying the queue quietly
  (`RemoveAllAdmitsEverySecond`), and leaves waiters behind that share an id
  (`RemoveAllCount`, `RemoveAllLeavesAllButTwo`). In a regular shutdown it does
  nothing at all, because `disable` runs first (`RemoveAll`), so the executions passed to
  it are not cancelled in the database either.
- **Stepping down strands entries.** `stopTracking` clears the timers and keeps the
  entries, and no later poll arms them again (`StepDownDisarms`, `StrandedUntilTouched`).
- **One failed child decides a resume, unless its error gets lost.** `resumeError` is never
  cleared by a later child that succeeds, while the comment above the function says the
  last writer wins (`SerialErrorStays`). But reading and writing are two queries. A
  sibling that read the row earlier writes it back without the error
  (`StaleSiblingHidesError`). So does the resume itself: it reads the whole row
  (packages/cli/src/wait-tracker.ts:125-144), may be throttled, and claims by writing back
  what it read (packages/cli/src/active-executions.ts:118-134), although no child was late
  (`StaleClaimHidesError`).
- **Concurrent children can lose each other's results.** What the row holds is the chain of
  the last writer, the writer it had read, and so on, and a parent resumes with the chain
  of its claimer (`RowIsItsLineage`, `ResumesWithItsLineage`). Nothing is lost exactly when
  no write and no claim is stale (`NothingIsLostIff`). Errors and credential flags, which
  the code comment says only accumulate, stay exactly when nobody writes back a row read
  before them (`MarksAreShownIff`).
- **Waiting grants the whole timeout again** unless the wait tracker resumes the execution.
  Only the tracker hands the first start time on; webhooks and forms
  (packages/cli/src/webhooks/webhook-helpers.ts:834-844) and chats
  (packages/cli/src/chat/chat-execution-manager.ts:183-190) do not
  (`WaitingExtendsUnlessTracked`, `WaitingNeverExtendsIff`).
- **Sub-workflow and main deadlines differ** when the configured maximum is not positive
  and a timeout is asked for (`SubAndMainAgreeIff`); the code comment says they mirror each other.
- **A very long timeout cancels at once,** because the delay does not fit a timer
  (`ArmCancelTimer`).
- **A workflow can have two retry timers** when it is queued again during a retry
  (`OneRetryIff`). Removing it then clears only one of them (`RemoveDisarmsIff`).
- **`usesManagedAuth` answers yes for every overwritten field that holds an object,**
  since the field was deep-copied (`ManagedIffInjectedOrCopied`).
- **The credential caches can return another credential** than the database would, when an
  id that leads nowhere is repeated under a different name (`CachedLoopIsDirectIff`).

## Model

| member | source | states |
|---|---|---|
| CredentialTypes.GetParentTypes | packages/cli/src/credential-types.ts:26-38 | on every acyclic hierarchy the loop that appends to its own array terminates, by a measure weighted by height, and returns exactly the strict ancestors, in the order of the recursive worklist |
| CredentialTypes.DrainIsLight | packages/cli/src/credential-types.ts:31-35 | the array handed back by a recursive call weighs less than the entry that caused it, which is why the growing loop ends |
| CredentialTypes.ParentsAreTheAncestors | packages/cli/src/credential-types.ts:26-38 | the result holds exactly the strict ancestors of the type, however they are reached |
| CredentialTypes.NearestFirst | packages/cli/src/credential-types.ts:31-37 | with single inheritance, dropping repeats leaves the chain of ancestors, nearest first |
| CredentialsOverwrites.GetIsNearest | packages/cli/src/credentials-overwrites.ts:210-223 | with single inheritance, a field of `get` comes from the nearest of the type and its ancestors that defines it, and is missing exactly when none does |
| CredentialsOverwrites.DrainOffers | packages/cli/src/credential-types.ts:31-37 | on every acyclic hierarchy the growing array meets a definition only after everything on some way to it, so the first one it meets is not hidden by another |
| CredentialsOverwrites.GetIsOffered | packages/cli/src/credentials-overwrites.ts:210-223 | on every acyclic hierarchy `get` finds a field exactly when the type can inherit it, with a value that no definition on the way hides |
| CredentialsOverwrites.SingleInheritanceIsConsistent | packages/cli/src/credential-types.ts:26-38 | with single inheritance no type can inherit two values for one field |
| CredentialsOverwrites.ResolveInherits | packages/cli/src/credentials-overwrites.ts:178-208 | whatever the memo list holds, a resolved type has its own fields, and inherited ones only with a value it can inherit |
| CredentialsOverwrites.FlattenKeepsInheritance | packages/cli/src/credentials-overwrites.ts:110-123 | every visiting order leaves the map partly flattened in that sense, even when a memoised entry stayed unflattened |
| CredentialsOverwrites.ResolveComplete | packages/cli/src/credentials-overwrites.ts:178-208 | a resolved type has every field that it can inherit, unless an ancestor had been resolved before without it |
| CredentialsOverwrites.IndependentTypesAreFlattened | packages/cli/src/credentials-overwrites.ts:110-123 | after `setPlainData` a key has exactly the fields it can inherit, with their values, if no key visited before it has an ancestor in common with it; so the first key always has |
| CredentialsOverwrites.AncestorsFirstFlattensAll | packages/cli/src/credentials-overwrites.ts:110-123 | when every ancestor of a key is visited before it, every entry has exactly what its type can inherit |
| CredentialsOverwrites.UnrecognisedParentsGiveNothing | packages/cli/src/credentials-overwrites.ts:184-187 | nothing is inherited through a type that is not recognised |
| CredentialsOverwrites.GetAnswersIff | packages/cli/src/credentials-overwrites.ts:210-217 | `get` answers exactly when the type or one of its ancestors has an entry |
| CredentialsOverwrites.GetHasAllItInherits | packages/cli/src/credentials-overwrites.ts:210-223 | and then with exactly the fields the type can inherit, if it can inherit no field twice |
| CredentialsOverwrites.FlatteningIsInvisible | packages/cli/src/credentials-overwrites.ts:110-123 | on every acyclic hierarchy where no type can inherit two values for one field, no visiting order of `setPlainData` can be observed through `get`, for any type |
| CredentialsOverwrites.ReloadIsInvisible | packages/cli/src/credentials-overwrites.ts:64-138 | under the same condition, saving the flattened map, loading it and flattening it again in another order changes no answer of `get` |
| CredentialsOverwrites.SingleInheritanceFlattensInvisibly | packages/cli/src/credentials-overwrites.ts:64-138 | with single inheritance both hold of every overwrite map and every order |
| CredentialsOverwrites.TwoParentsAgreeIff | packages/cli/src/credentials-overwrites.ts:196-223 | the condition is needed: with two root parents, freshly resolved, flattening and `get` agree on a field exactly when the type defines it or the parents do not contradict each other |
| CredentialsOverwrites.ApplyKeepsStoredValues | packages/cli/src/credentials-overwrites.ts:147-173 | no non-empty stored field is changed, no field without an overwrite is touched, and a customised skip-list credential is returned as it is |
| CredentialsOverwrites.ApplyIsIdempotent | packages/cli/src/credentials-overwrites.ts:140-176 | applying the overwrite to its own result adds nothing |
| CredentialsOverwrites.ManagedIffInjectedOrCopied | packages/cli/src/credentials-overwrites.ts:233-241 | `usesManagedAuth` holds exactly when applying injects a value or an overwritten field holds an object |
| CredentialsOverwrites.ManagedFieldByField | packages/cli/src/credentials-overwrites.ts:233-241 | `usesManagedAuth` holds exactly when the credential is not customised and some overwritten field holds an object or has no value and gets another one |
| CredentialsOverwrites.AppliedIsNotManaged | packages/cli/src/credentials-overwrites.ts:233-241 | with primitive fields it is false on the output of `applyOverwrite` |
| CredentialsOverwrites.CredentialsOverwritesService.GetOverwrites | packages/cli/src/credentials-overwrites.ts:178-208 | the recursive method, its memo list and its answer are those of the specification; with nothing on the way resolved before, the answer is exactly what the type can inherit |
| CredentialsOverwrites.CredentialsOverwritesService.SetPlainData | packages/cli/src/credentials-overwrites.ts:110-123 | rewriting the map in place while enumerating it keeps all keys and own fields, leaves what is not recognised alone, and stores exactly what is inherited for every independent key, and for all keys when ancestors come first |
| CredentialsOverwrites.CredentialsOverwritesService.SetData | packages/cli/src/credentials-overwrites.ts:125-138 | what is stored is the map already flattened |
| CredentialsOverwrites.CredentialsOverwritesService.LoadOverwriteDataFromDB | packages/cli/src/credentials-overwrites.ts:64-84 | loading flattens the stored map and stores nothing |
| CredentialsOverwrites.CredentialsOverwritesService.ApplyOverwrite | packages/cli/src/credentials-overwrites.ts:140-176 | every overwritten field that is missing, null or empty gets the overwrite's value and every other field is copied, unless a skip-list credential was customised |
| CredentialsOverwrites.CredentialsOverwritesService.UsesManagedAuth | packages/cli/src/credentials-overwrites.ts:233-241 | the same answer as field by field, by delegating to `applyOverwrite` |
| InvalidCredentials.CachedLoopIsDirectIff | packages/cli/src/workflow-helpers.ts:369-480 | both caches together answer every reference as the database alone would, exactly when no unresolvable id is repeated under another name |
| InvalidCredentials.NodesRepairedDirectlyIff | packages/cli/src/workflow-helpers.ts:376-480 | the same for whole nodes, with disabled nodes untouched and the caches carried from node to node |
| InvalidCredentials.OneQueryPerPair | packages/cli/src/workflow-helpers.ts:396-428 | old-style references cost exactly one query per distinct (type, name) pair |
| InvalidCredentials.FoundByNameIff | packages/@n8n/db/src/repositories/credentials.repository.ts:397-403 | the rows found by name are exactly those of the project with that type and name |
| InvalidCredentials.FoundByIdIff | packages/cli/src/workflow-helpers.ts:440-443 | the row found by id is the one with that id, if it has the type, in whatever project |
| InvalidCredentials.FoundByName | packages/cli/src/workflow-helpers.ts:460-468 | a row found by name belongs to the project and is also the one found by its id |
| InvalidCredentials.AgreeingNodesAreRepaired | packages/cli/src/workflow-helpers.ts:376-480 | when names agree, every reference that means a row, by its id or by a name that one row of the project has, carries the id and name of that row, and every other stays |
| InvalidCredentials.ReplaceInvalidCredentials | packages/cli/src/workflow-helpers.ts:362-483 | the in-place loop repairs the nodes as the database alone would exactly when names agree; then every reference is the row it means or stays; with one query per distinct pair |
| ExecutionProtocol.InvPreserved | packages/cli/src/active-executions.ts:62-184 | every event of every caller, and every write to a row, keeps slots, map, calls and runs consistent |
| ExecutionTheorems.SlotsAreConserved | packages/cli/src/active-executions.ts:68-179 | in every reachable state the slots in use are those of adds between reserve and registration and of records whose callback has not run; none is given back twice |
| ExecutionTheorems.LoserLeavesNoTrace | packages/cli/src/active-executions.ts:129-148 | a lost compare-and-swap, and the throw after it, change neither rows nor records nor map, and leave no slot held, whatever happens in between |
| ExecutionTheorems.ThrownHoldsNothing | packages/cli/src/active-executions.ts:145-148 | a call of `add` that has thrown holds no slot |
| ExecutionTheorems.ClaimsAreBounded | packages/cli/src/active-executions.ts:129-139 | in every run the successful claims of a row never outnumber its entries into the expected status |
| ExecutionTheorems.ResumedOncePerPeriod | packages/cli/src/active-executions.ts:114-161 | over all interleavings, each waiting period of an execution is resumed at most once |
| ExecutionLifecycle.SettledEntriesWait | packages/cli/src/active-executions.ts:163-179 | with no callback pending, an entry whose promise has settled belongs to a waiting execution |
| ExecutionOwnership.StepExclusiveIff | packages/cli/src/active-executions.ts:114-148 | one step gives an execution a second owner exactly when it claims the row of one whose run or `add` still goes on |
| ExecutionOwnership.OneOwnerIff | packages/cli/src/active-executions.ts:114-184 | throughout a run no two calls or records drive one execution if and only if nobody claims its row before the run behind an earlier record has ended, mapped or not, or while another call still holds it |
| ExecutionOwnership.OneOwnerFromTheStart | packages/cli/src/active-executions.ts:62-184 | this holds of every run of a process that has just started |
| ExecutionOwnership.StraysWhenItFinalises | packages/cli/src/active-executions.ts:246-265 | a finalising run settles the promise of another record exactly when that record has the entry in its place, and then never its own |
| ExecutionOwnership.FinalisesOnlyItselfIff | packages/cli/src/workflow-runner.ts:463-471 | throughout a run of the process no run could settle a foreign promise if and only if no record is registered while an earlier run of its execution is still to be finalised |
| ExecutionOwnership.OneOwnerNeverStrays | packages/cli/src/active-executions.ts:114-265 | without early claims that never happens |
| ExecutionOwnership.StrikesWhenItRuns | packages/cli/src/active-executions.ts:169-179 | the callback deletes the entry of another record exactly when its own record is no longer in the map, does not wait, and another one has the id |
| ExecutionOwnership.CallbacksRemoveOnlyThemselvesIff | packages/cli/src/active-executions.ts:169-179 | throughout a run no callback could delete a later entry if and only if no registration overtakes a pending callback of the same execution |
| ExecutionOwnership.OneOwnerNeverStrikes | packages/cli/src/active-executions.ts:150-179 | without early claims that never happens |
| ExecutionOwnership.ReplacesOnlyWaitingIff | packages/cli/src/active-executions.ts:150-161 | registering a resume replaces a record that waits and whose promise has settled exactly when that record is not live any more |
| ExecutionOwnership.ExclusiveReplacesOnlyWaiting | packages/cli/src/active-executions.ts:150-161 | while every execution has one owner, a registration replaces only such records |
| ExecutionOwnership.EarlyResumeLosesASlot | packages/cli/src/workflow-runner.ts:463-471 | every running execution whose row is resumed before it is finalised loses its slot for good, and its late finalisation ends the resume in its place |
| ExecutionOwnership.StoppedWaitEndsItsResume | packages/cli/src/workflow-runner.ts:448-471 | so does one that is stopped while it reports to wait, when its run saves the row and finalises later |
| ExecutionOwnership.ExclusiveOrphansOnlyByRemoval | packages/cli/src/active-executions.ts:233-241 | while every execution has one owner, a slot is lost only by stopping or dropping what waits |
| ExecutionLifecycle.OutcomeIsFinal | packages/cli/src/active-executions.ts:216-265 | a promise settles at most once under any order of stops and finalisations |
| ExecutionLifecycle.SettledByIff | packages/cli/src/active-executions.ts:238-263 | over every run one event settles a promise: it ends rejected exactly when that event stopped the execution, and resolved exactly when it was the end of a run of it |
| ExecutionLifecycle.ReturnsOnlyThroughAdd | packages/cli/src/active-executions.ts:150-161 | an id that is not in the map comes back only through a registration of a call for that id |
| ExecutionLifecycle.OrphansKeepTheirSlot | packages/cli/src/active-executions.ts:233-241 | a record removed before its promise settled keeps its slot in every continuation |
| ExecutionLifecycle.SlotComesBackIff | packages/cli/src/active-executions.ts:163-265 | the slot of a registered execution can still be given back exactly when the record is not such an orphan, and not an entry that reports to wait while no run of the execution is left |
| ExecutionLifecycle.OrphanedExactlyWhen | packages/cli/src/active-executions.ts:150-243 | a record becomes an orphan exactly when, before its promise has settled, a stop finds it waiting, a shutdown drops it, a registration replaces it, or the callback of another record of the execution deletes its entry |
| ExecutionLifecycle.RunningSlotCanBeLost | packages/cli/src/active-executions.ts:216-243 | any running execution that reports `waiting` and is stopped before it is finalised loses its slot for good |
| ExecutionLifecycle.ResumesInherit | packages/cli/src/active-executions.ts:150-161 | over any number of resumes the start time stays the first one and the response promise the last one attached |
| ExecutionLifecycle.StopAllLeavesPending | packages/cli/src/active-executions.ts:343-346 | after stopping every id, each remaining entry has a pending callback that will remove it |
| ExecutionLifecycle.ShutdownEmptiesTheMap | packages/cli/src/active-executions.ts:330-363 | a cancelling shutdown, then the pending callbacks in any order, leave the map empty |
| ExecutionLifecycle.CallbacksRunOut | packages/cli/src/active-executions.ts:164-179 | from every state the pending callbacks can run to the end |
| ActiveExecutions.ActiveExecutionsService.CreateRow | packages/cli/src/active-executions.ts:85-108 | a new execution gets a `new` row, and asks for capacity unless it is an evaluation |
| ActiveExecutions.ActiveExecutionsService.Reserve | packages/cli/src/active-executions.ts:106-120 | the call holds the reservation it was granted |
| ActiveExecutions.ActiveExecutionsService.StartFresh | packages/cli/src/active-executions.ts:110-113 | in regular mode, and only there, the row of a new execution turns running |
| ActiveExecutions.ActiveExecutionsService.ClaimRow | packages/cli/src/active-executions.ts:122-143 | claims exactly when the row has the expected status; then the row is running, and otherwise nothing but the call has changed |
| ActiveExecutions.ActiveExecutionsService.MarkRunning | packages/cli/src/active-executions.ts:141-143 | a claimed `new` row is set running once more |
| ActiveExecutions.ActiveExecutionsService.CatchAndRethrow | packages/cli/src/active-executions.ts:145-148 | gives the reservation back and records which error was thrown |
| ActiveExecutions.ActiveExecutionsService.Register | packages/cli/src/active-executions.ts:150-161 | replaces the entry, inheriting start time and response promise from the one it resumes |
| ActiveExecutions.ActiveExecutionsService.PostExecutePromiseSettled | packages/cli/src/active-executions.ts:169-179 | gives the slot back and removes the entry unless the execution waits |
| ActiveExecutions.ActiveExecutionsService.StopExecution | packages/cli/src/active-executions.ts:216-243 | deletes a waiting entry, rejects the unsettled promise of any other and leaves its callback pending, and ignores an unknown id |
| ActiveExecutions.ActiveExecutionsService.FinalizeExecution | packages/cli/src/active-executions.ts:246-265 | resolves the unsettled promise of the entry and of no other record, and ignores an unknown id |
| ActiveExecutions.ActiveExecutionsService.AttachWorkflowExecution | packages/cli/src/active-executions.ts:190-192 | attaches to the entry, or reports that there is none |
| ActiveExecutions.ActiveExecutionsService.AttachResponsePromise | packages/cli/src/active-executions.ts:194-199 | replaces the response promise of the entry, or reports that there is none |
| ActiveExecutions.ActiveExecutionsService.SetStatus | packages/cli/src/active-executions.ts:313-315 | changes the status of the entry, or reports that there is none |
| ActiveExecutions.ActiveExecutionsService.Shutdown | packages/cli/src/active-executions.ts:331-349 | stops every entry when cancelling in regular mode, and otherwise drops exactly the entries that are waiting or new |
| ActiveExecutions.ActiveExecutionsService.Release | packages/cli/src/concurrency/concurrency-capacity-reservation.ts:30-36 | gives back a held reservation and does nothing without one |
| ConcurrencyQueue.EveryRun | packages/cli/src/concurrency/concurrency-queue.ts:21-74 | in every run executions are admitted in order of arrival, nobody waits while a slot is free, the capacity is the limit less those running and waiting, and the limit is exceeded at most once per removal |
| ConcurrencyQueue.NobodyIsLost | packages/cli/src/concurrency/concurrency-queue.ts:21-74 | everybody who arrived was let through, was taken out or waits, and only once |
| ConcurrencyQueue.StepStaysWithinIff | packages/cli/src/concurrency/concurrency-queue.ts:44-54 | one step exceeds the limit exactly when it removes a waiter while another one waits |
| ConcurrencyQueue.LimitHoldsIff | packages/cli/src/concurrency/concurrency-queue.ts:21-74 | the limit holds throughout a run if and only if no removal of the run does so |
| ConcurrencyQueue.WaitingEnds | packages/cli/src/concurrency/concurrency-queue.ts:38-74 | a waiter has left the queue once more slots were given back than there were waiters ahead of it, whatever else happened |
| ConcurrencyQueue.RemoveAllAdmitsEverySecond | packages/cli/src/concurrency/concurrency-control.service.ts:205-214 | removing all queued ids, if distinct, takes out the waiters at odd places and lets through those at even places |
| ConcurrencyQueue.RemoveAllCount | packages/cli/src/concurrency/concurrency-control.service.ts:208-214 | how many are left behind, for any queue: two fewer for each id that is still queued when its turn comes; so with more than two waiters for each id somebody is |
| ConcurrencyQueue.LeftBehindOnlyRepeats | packages/cli/src/concurrency/concurrency-control.service.ts:208-214 | whoever is left behind was waiting behind somebody with the same id |
| ConcurrencyQueue.RemoveAllLeavesAllButTwo | packages/cli/src/concurrency/concurrency-control.service.ts:208-214 | with any limit, any number of callers can come to wait under one id, and all but two of them are left behind |
| ConcurrencyLimit.SlotsWithinLimit | packages/cli/src/active-executions.ts:104-179 | with `reserve` gated by the queue, the limited slots in use never exceed the limit, except by one for each waiter taken out of the queue |
| ConcurrencyLimit.LostUseUpTheLimit | packages/cli/src/active-executions.ts:233-241 | as many orphans as the limit allows leave no slot in use or granted to anybody else |
| ConcurrencyLimit.EveryLaterAddWaits | packages/cli/src/active-executions.ts:106-120 | from then on, unless waiters are taken out, nobody who waits for a slot ever gets one, whatever else happens |
| ConcurrencyControl.ConcurrencyQueueService.Enqueue | packages/cli/src/concurrency/concurrency-queue.ts:21-32 | takes capacity and leaves the caller waiting exactly when none was left |
| ConcurrencyControl.ConcurrencyQueueService.Dequeue | packages/cli/src/concurrency/concurrency-queue.ts:38-42 | gives capacity back and lets the first waiter through |
| ConcurrencyControl.ConcurrencyQueueService.Remove | packages/cli/src/concurrency/concurrency-queue.ts:44-54 | takes out the first waiter with the id, if any, and lets the next one through |
| ConcurrencyControl.ConcurrencyQueueService.FindIndex | packages/cli/src/concurrency/concurrency-queue.ts:45-45 | finds the first waiter with the id |
| ConcurrencyControl.ConcurrencyControlService.RemoveAll | packages/cli/src/concurrency/concurrency-control.service.ts:205-223 | empties the queue id by id and cancels the given rows, and does neither once the service has been disabled |
| ConcurrencyControl.ConcurrencyControlService.Release | packages/cli/src/concurrency/concurrency-control.service.ts:183-188 | lets nobody through once the service has been disabled |
| WaitTracker.PollOnlyAdds | packages/cli/src/wait-tracker.ts:98-109 | a poll adds exactly the rows that were not tracked and replaces no entry and no timer |
| WaitTracker.PollSetsDueTimes | packages/cli/src/wait-tracker.ts:100-107 | a new entry is due when its row says, or at once if that is past |
| WaitTracker.EntriesStayArmed | packages/cli/src/wait-tracker.ts:82-122 | until the first stepdown, any interleaving leaves every entry with an armed timer of its own |
| WaitTracker.StepDownDisarms | packages/cli/src/wait-tracker.ts:254-264 | a stepdown keeps the entries armed exactly when nothing was tracked or there were none |
| WaitTracker.StrandedUntilTouched | packages/cli/src/wait-tracker.ts:98-109 | an entry that a stepdown disarmed stays so through all later polls, until the execution is started or stopped |
| WaitTracker.WithRetry | packages/cli/src/wait-tracker.ts:238-252 | runs up to the first success, the first failure not worth retrying, or the last attempt; sleeps 100·(2^(k-1) - 1) ms in total and hands on the outcome of the last run |
| WaitTracker.LastIsSuccess | packages/cli/src/wait-tracker.ts:27-37 | three attempts end in success exactly when one of them succeeds before any failure that is not retried |
| WaitTracker.ResumeParentExecution | packages/cli/src/wait-tracker.ts:194-229 | the parent is started only after its patch was stored, is resumed exactly when both steps succeed in time, and every failure is logged |
| WaitTracker.WaitTrackerService.GetWaitingExecutions | packages/cli/src/wait-tracker.ts:82-110 | adds exactly the rows that were not tracked, each with a timer that is due when the row says or at once |
| WaitTracker.WaitTrackerService.StopExecution | packages/cli/src/wait-tracker.ts:112-118 | disarms the timer of the entry and forgets it, if there is one, and touches nothing else |
| WaitTracker.WaitTrackerService.StartExecution | packages/cli/src/wait-tracker.ts:120-122 | forgets the entry first, and leaves its timer armed |
| WaitTracker.WaitTrackerService.StopTracking | packages/cli/src/wait-tracker.ts:254-264 | disarms every entry and keeps them all |
| ParentResume.UpdateParentExecutionWithChildResults | packages/cli/src/workflow-helpers.ts:534-619 | a child with an error or an output patches exactly the first stack entry, the last task of its node and the user, field by field; the output is that of the last run of the last node, or its pinned data in manual mode; anything else changes nothing |
| ParentResume.CompletionsAddUp | packages/cli/src/workflow-helpers.ts:559-613 | after any children, one after another, the first stack entry carries the union of all credential flags, the last named user, the last error and the last output; other entries are untouched |
| ParentResume.FlagsIgnoreOrder | packages/cli/src/workflow-helpers.ts:563-575 | neither order nor repetition of the children matters for the flags |
| ParentResume.TaskFlagsOnlyGrow | packages/cli/src/workflow-helpers.ts:577-592 | over completions one after another, flags on the tasks of the parent are only ever set, its status never changes, and a parent that does not wait is left alone |
| ParentResume.ErrorStaysIff | packages/cli/src/workflow-helpers.ts:601-613 | over completions one after another, the parent resumes without an error exactly when no child failed, whichever completed last |
| ParentRaces.ChildrenKeepTheStatus | packages/cli/src/workflow-helpers.ts:615-618 | children never move the status of the row |
| ParentRaces.RowIsItsLineage | packages/cli/src/workflow-helpers.ts:543-619 | for any number of interleaved children and resumes, the row is the one last stored before, patched by the last writer, the writer it had read, and so on |
| ParentRaces.EntryIsItsLineage | packages/cli/src/workflow-helpers.ts:543-619 | so flags, user, error and output of the stack entry are those of that lineage |
| ParentRaces.TaskFlagsGrowFromBase | packages/cli/src/workflow-helpers.ts:577-592 | the tasks keep every flag of the row the lineage started from |
| ParentRaces.NothingIsLostIff | packages/cli/src/workflow-helpers.ts:543-619 | the row is made of everything that was written if and only if nobody, child or resume, writes back a row that was written since it read it |
| ParentRaces.ResumesWithItsLineage | packages/cli/src/active-executions.ts:122-134 | a parent resumes with what its claimer had read; that is everything stored before exactly when neither the claim nor any write before it is stale |
| ParentRaces.ShownIsItsLineage | packages/cli/src/workflow-helpers.ts:563-609 | an error or a credential flag is on the row exactly when the base or a child of the lineage brought it |
| ParentRaces.MarksAreShownIff | packages/cli/src/workflow-helpers.ts:563-619 | once a child has reported an error or a credential flag the row shows it throughout, and a parent resumes with it, if and only if nobody writes back a row read before that without bringing the same |
| ParentRaces.SerialErrorStays | packages/cli/src/workflow-helpers.ts:601-613 | without stale writes and claims every reported error and flag stays, so one failed child decides the resume, whoever writes last |
| ParentRaces.StaleSiblingHidesError | packages/cli/src/workflow-helpers.ts:543-619 | the failure of any child is hidden by a sibling that read the row before it was stored and succeeds with output |
| ParentRaces.StaleClaimHidesError | packages/cli/src/wait-tracker.ts:120-159 | the failure of any child is hidden by a resume that read the row before it was stored, although no child is late |
| Deadlines.DeadlinesMean | packages/cli/src/workflow-execute-additional-data.ts:242-270 | both deadlines are the own timeout or else the default, cut to the maximum; one that is not positive cuts nothing for a sub-workflow and everything for a main workflow |
| Deadlines.SubAndMainAgreeIff | packages/cli/src/workflow-execute-additional-data.ts:242-270 | sub-workflow and main-process deadlines agree exactly when the maximum is positive or no timeout was asked for |
| Deadlines.AwaitedEarliest | packages/cli/src/workflow-execute-additional-data.ts:275-287 | along awaited calls the earliest defined deadline of the chain is in force, and none only if none is defined |
| Deadlines.DetachedIsARoot | packages/cli/src/workflow-execute-additional-data.ts:280-282 | what a detached call leads to does not depend on anything above it |
| Deadlines.EarliestSinceDetached | packages/cli/src/workflow-execute-additional-data.ts:589-597 | in any chain the earliest deadline since the last detached call is in force |
| Deadlines.NeverPastAncestor | packages/cli/src/workflow-execute-additional-data.ts:275-287 | an awaited call never gets a later deadline than any workflow above it |
| Deadlines.ArmCancelTimer | packages/cli/src/workflow-runner.ts:439-461 | the execution is cancelled exactly when the time since its first start is used up, at once if that is past, if and only if the remaining time fits a timer |
| Deadlines.StartedOnce | packages/@n8n/db/src/repositories/execution.repository.ts:372-389 | the start time of a row is set once |
| Deadlines.WaitingExtendsUnlessTracked | packages/cli/src/workflow-runner.ts:441-447 | the limit of a resumed stretch is counted from the very first start exactly when the wait tracker resumes it or no time has passed; any other resume grants the whole timeout again |
| Deadlines.WaitingNeverExtendsIff | packages/cli/src/wait-tracker.ts:144-151 | over any number of waits the first start counts throughout exactly when that holds of every resume |
| Deadlines.HardLimitComesFirstIff | packages/cli/src/workflow-runner.ts:372-461 | with separate clock readings, the hard cancellation of a resumed stretch comes no later than the soft deadline exactly when the timer is armed before that deadline and the first start was passed, or no time passed until the timer was armed |
| ActivationQueue.DelayAfterFailures | packages/cli/src/active-workflow-manager.ts:855-882 | while a workflow stays queued, its delay depends on the number of failures that count alone, whatever else happens |
| ActivationQueue.DelaySinceAdded | packages/cli/src/active-workflow-manager.ts:855-898 | from the moment it is queued, the delay is min(1000·2^m, 86400000) ms after m failures that count |
| ActivationQueue.DelayGrowsToTheCap | packages/cli/src/constants.ts:90-91 | delays never shrink, never exceed a day, and are a day exactly from the 17th failure on |
| ActivationQueue.StepSingleIff | packages/cli/src/active-workflow-manager.ts:842-899 | one step gives a workflow a second retry exactly when it is queued while a retry of it runs |
| ActivationQueue.OneRetryIff | packages/cli/src/active-workflow-manager.ts:842-918 | throughout a run a workflow has at most one retry exactly when that never happens |
| ActivationQueue.AtomicRetriesHaveOneTimer | packages/cli/src/active-workflow-manager.ts:842-918 | with each retry as one step a workflow never has two armed timers |
| ActivationQueue.RemoveDisarmsIff | packages/cli/src/active-workflow-manager.ts:904-909 | removing a workflow stops its retries exactly when no second timer was armed for it |
| ActivationQueue.RemoveAllDisarmsIff | packages/cli/src/active-workflow-manager.ts:914-918 | emptying the queue disarms everything exactly when every armed timer belongs to an entry |
| ActivationQueue.QuietStaysQuiet | packages/cli/src/active-workflow-manager.ts:858-861 | with an empty queue and no timer, retries still running arm nothing when they fail |
| ActivationQueue.ActiveWorkflowManager.AddQueuedWorkflowActivation | packages/cli/src/active-workflow-manager.ts:889-898 | replaces the entry and its timer by one with the initial delay |
| ActivationQueue.ActiveWorkflowManager.RetryFailed | packages/cli/src/active-workflow-manager.ts:856-882 | doubles the delay up to the cap unless the failure does not count, and arms the next retry of a workflow still queued |
| ActivationQueue.ActiveWorkflowManager.RetrySucceeded | packages/cli/src/active-workflow-manager.ts:664-668 | an activation that went through takes the workflow out of the queue |
| ActivationQueue.ActiveWorkflowManager.RemoveAllQueuedWorkflowActivations | packages/cli/src/active-workflow-manager.ts:914-918 | removing the entries one by one is emptying the queue |

## Left out

- CredentialsOverwrites.FlatteningIsInvisible: the condition on the hierarchy is sufficient; that it is needed is shown for two parents without ancestors of their own.
- CredentialsOverwrites.CredentialsOverwritesService.SetPlainData: `for ... in` lists integer-like keys first; the order is a parameter here, so every order is covered.
- InvalidCredentials.ReplaceInvalidCredentials: credential names and ids equal to a property of `Object.prototype`, which would hit inherited properties of the cache objects, and references whose id is `undefined` rather than `null`.
- ParentResume.UpdateParentExecutionWithChildResults: a child whose last node has an empty list of runs, pinned data and manual mode, for which the source throws.
- ParentRaces.ResumesWithItsLineage: webhook, form and chat resumes edit the data they have read before they write it back; here the claimer writes back what it read, as the wait tracker does.
- ParentResume: the conversion of pinned items into output, and the content of errors and outputs, which are opaque values.
- Deadlines.ArmCancelTimer: a timeout setting stored as `null`, which the main process takes for unset and the sub-workflow for disabled.
- ConcurrencyControl.ConcurrencyControlService.constructor: the evaluation queue, unlimited modes, the lazily resolved limit and telemetry; the reservation of an evaluation run is covered by the protocol only as one that takes no slot.
- Other processes appear only as arbitrary writes to a row (`RowWritten`); rows are never deleted.
- Queue mode, Bull, pub/sub, HTTP responses, streaming, lifecycle hooks and events.
- The map of response modes and the `reloading` flag of the overwrites service.
- Encryption and JSON round trips of stored overwrites: the stored map is taken to come back unchanged.
- WaitTracker.ResumeParentExecution: the content of the two operations it retries; they appear as sequences of outcomes.
- The checks of `WaitTracker.startExecution` on missing, finished or unsaved executions; they throw before anything is claimed.
- `shouldRestartParentExecution`, `getCredentialsProperties` and `buildSubWorkflowOutput`: easy members, or dependent on code that is not modelled.
