# Coordination core of the agent cluster, verified

This project models the coordination core of the cluster — the task, node and lease store, the lease
protocol of the task handlers, the workflow engine, the recovery pipeline, state sync, the heartbeat
watchdog and the webhook retry loop — and proves what it promises, over single steps and over runs.

Every handler and manager call is one atomic step. Time and generated ids are parameters. The classes
(`ClusterState`, `LeaseManager`, `TaskRouter`, `WorkflowResolver`, `Revoker`, `Rescheduler`,
`RecoveryManager`, `SyncReceiver`, `ClusterStore`, `NodeManager`, `WatchdogLoop`, `Dispatcher`) have the
fields and the loops of the original, and each method is proved to compute one function on values. The
theorems are about those functions, so they hold of the classes:

| file | what it holds |
|---|---|
| `Types`, `Seqs` | the entities as values; facts about finite sequences |
| `Workflow`, `Leases`, `Protocol` | what one step does to the tasks, to the leases, to both |
| `Runs` | runs of all steps; one holder per task |
| `Graph`, `Containment`, `Progress` | reachability and cycles; failures and cycles stay contained; completions drive a workflow to its end |
| `ClusterState`, `TaskRoutes`, `TriggerChain`, `Resolver`, `Recovery` | the classes |
| `RecoveryOutcome` | what a whole recovery achieves |
| `Effects` | what each operation leaves behind, field by field |
| `LastWriter`, `SyncGate`, `FullSync`, `Sync` | last-writer-wins, delta messages, snapshots, the receiver |
| `RowStore` | the SQLite-backed store as a table of rows, compared with the in-memory one |
| `Watchdog`, `Dispatcher` | failure detection over time; delivery with retries |
| `Departures` | concrete inputs on which the code departs from its comments or specification |

A dictionary is a map together with its keys in insertion order. Times are integers; the load and the
backoff delays are reals.

## Where the code and its documentation disagree

The model follows the code. Where a promise fails on some inputs, a lemma of `Departures` gives one and
another theorem the exact condition.

- Cyclic dependencies are never refused, although the design document says they are
  (`SelfDependencyIsAccepted`); a workflow finishes exactly when no pending tasks wait in a circle (`FinishesIffNoCircle`).
- `create_lease` never refuses a second lease, although the lease router expects it to
  (`SecondLeaseIsGranted`, `GrantKeepsExactly`).
- `manual_advance` neither clears the assignee nor revokes the lease (`AdvanceBreaksExclusion`,
  `AdvanceKeepsExactly`).
- `extend` holds a lock that is not reentrant while the scan inside it may call back into a method that
  takes the same lock. The lock is a field of `LeaseManager`, and `Extend` hangs exactly when a lease is
  overdue (`ExtensionCanHang`). Runs contain only extensions that do not hang.
- `revoke_lease` succeeds on leases that are no longer active, and deletes the task's index entry even
  when it points to a newer lease; lookup is still exact (`LookupIsExactOnRuns`).
- A claim by an empty node id marks the task running and then gets no lease
  (`EmptyClaimLeavesTaskRunning`, `ClaimUnleasedIff`).
- A failed task keeps its lease, so a recovery can run it again (`RecoveryRevivesFailedTask`,
  `FailedTaskRevivedIff`). It is also freed by an advance, a release or a completion
  (`FailedTaskIsFreed`); `StepKeepsStuck` has the exact condition for every step.
- A task whose lease has expired is not recovered (`OverdueTaskIsNotRecovered`, `StaysOnLostNodeIff`),
  and neither is a recovered task whose new node is lost, since it runs without a lease
  (`SecondLossIsNotRecovered`).
- The rescheduler's docstring promises a lock that is never taken; atomicity is assumed here.
- The loop over blocked dependents in `_propagate` never changes anything (`ResolveBlockedDependents`).
- `receive_batch` counts each message as received twice.
- `set_dependencies` demotes a ready task in the row store only, and resubmitting an id differs as well
  (`StoresAgreeIff`).
- A snapshot raises a version by one instead of copying it, so redelivery applies it again
  (`RedeliveryAppliesTheGap`), and equal versions with different statuses never converge
  (`EqualVersionsStayTorn`, `ReplicasConvergeIff`). It carries neither dependencies nor assignees, so
  replicas that agree on version and status need not be equal (`SnapshotLosesDependencies`,
  `ReplicasEndEqualIff`).
- A trigger chain limited in depth can miss a task that is near enough (`ChainMissesNearTask`,
  `SharedTaskCutsChain`); it is complete if no path is cut off.

## Model

| member | source | states |
|---|---|---|
| `Exclusion.OneHolderPerTask` | hermes_cluster/routers/tasks.py:48-204 | in every state of every run from an empty cluster whose advance, direct-grant, sync and merge steps meet their exact conditions, each task has at most one active lease, its holder is the node the task is assigned to, and pending, ready, blocked and completed tasks have none |
| `Exclusion.StepKeepsExclusive` | hermes_cluster/routers/tasks.py:33-204 | each single step (submit, claim, release, complete, fail, unblock, dependencies, advance, schedule, lease revoke, extend, scan, grant, recover, sync message, snapshot entry) keeps exclusion if and only if it is harmless; only advance, direct grant, sync and merge can fail to be |
| `Exclusion.ExclusiveThroughoutIff` | hermes_cluster/routers/tasks.py:33-204 | a run is exclusive in every state if and only if each of its steps was harmless where it was taken |
| `Exclusion.SyncKeepsExactly` | hermes_cluster/state/__init__.py:382-409 | a sync message keeps exclusion if and only if it is stale or carries no task, or its task has no active lease, or keeps its assignee and ends running or failed |
| `Exclusion.MergeKeepsExactly` | hermes_cluster/sync/__init__.py:383-408 | a snapshot entry keeps exclusion if and only if it is not newer, or its task has no active lease, or the status it brings is running or failed |
| `Exclusion.ClaimUnleasedIff` | hermes_cluster/routers/tasks.py:151-177 | a claim of a ready, unassigned task leaves it running without an active lease if and only if the lease is refused for an empty id |
| `Exclusion.AdvanceKeepsExactly` | hermes_cluster/routers/tasks.py:89-105 | manual advance keeps exclusion if and only if it is refused, or the task has no active lease, or the scheduler puts the task back on its assignee |
| `Exclusion.GrantKeepsExactly` | hermes_cluster/state/__init__.py:303-317 | a lease created directly at the store keeps exclusion if and only if the task is running or failed on that very node and has no active lease yet; the store itself never refuses |
| `Exclusion.ClaimKeeps` | hermes_cluster/routers/tasks.py:151-177 | a claim never gives a task a second active lease, and its lease is backed by the task |
| `Exclusion.RevokeForKeeps` | hermes_cluster/routers/tasks.py:53-56 | revoking the lease that lookup by task finds leaves the task without any active lease and other tasks' leases as they were |
| `Exclusion.ExtendKeeps` | hermes_cluster/lease/lease_manager.py:224-261 | extension keeps exclusion although the old and the new lease are both active in between |
| `Exclusion.OrphansUnleased` | hermes_cluster/recovery/revoker.py:31-58 | no task on the list of revoked tasks has an active lease afterwards |
| `Exclusion.RecoverKeeps` | hermes_cluster/recovery/manager.py:66-117 | a whole recovery keeps exclusion |
| `Leases.LookupRefinesSearch` | hermes_cluster/state/__init__.py:350-365 | lookup through the index finds an active lease of the task exactly when one exists, and only such a lease, however stale the index is |
| `Leases.LookupIsExactOnRuns` | hermes_cluster/lease/lease_manager.py:162-261 | the same on every state of every run of creations, revocations, extensions and scans, at the manager or at the store |
| `Leases.StepKeepsTable` | hermes_cluster/state/__init__.py:303-328 | every lease step keeps: each index entry names an existing lease of that same task |
| `Leases.StatusOnlyMovesForward` | hermes_cluster/state/__init__.py:319-345 | over runs a lease's status only moves active, expired, revoked; an inactive lease never becomes active again; its task and node never change |
| `Leases.CallbackFiresOncePerExpiry` | hermes_cluster/lease/lease_manager.py:319-329 | the expiry callback fires exactly once per move from active to expired, at most once in a lease's life, and the expiry counter grows by exactly the number of these moves |
| `Leases.OneExtensionPerLease` | hermes_cluster/lease/lease_manager.py:224-261 | at most one extension of a given lease id succeeds in a run |
| `Leases.ExtendReplaces` | hermes_cluster/lease/lease_manager.py:248-255 | a successful extension adds one active lease of the same task and node, takes the old one away, and keeps every task's number of active leases |
| `Cluster.LeaseManager.Create` | hermes_cluster/lease/lease_manager.py:162-193 | refuses an empty task or node id, otherwise adds an active lease with the effective time to live and counts it, or hangs before counting if the lock is held |
| `Cluster.LeaseManager.Revoke` | hermes_cluster/lease/lease_manager.py:195-208 | revokes an existing lease whatever its status, and counts it, or hangs before counting if the lock is held |
| `Cluster.LeaseManager.GetByTask` | hermes_cluster/lease/lease_manager.py:218-222 | is the store's lookup by task |
| `Cluster.LeaseManager.Extend` | hermes_cluster/lease/lease_manager.py:224-261 | hangs, with the lock held for good, exactly when the id is not empty and some active lease is overdue; otherwise scans, and replaces the lease if it is live |
| `Cluster.LeaseManager.ScanOnce` | hermes_cluster/lease/lease_manager.py:307-317 | one scanner pass: expires what is overdue, fires the callbacks, counts what stays active |
| `Cluster.LeaseManager.OnLeaseExpired` | hermes_cluster/lease/lease_manager.py:319-329 | counts and notifies once, unless it would wait for the lock |
| `Cluster.ClusterState.CreateLease` | hermes_cluster/state/__init__.py:303-317 | adds an active lease and points the task's index entry at it; never refuses |
| `Cluster.ClusterState.RevokeLease` | hermes_cluster/state/__init__.py:319-328 | reports success for any existing lease and drops the task's index entry, even one that points to a newer lease |
| `Cluster.ClusterState.GetActiveLeases` | hermes_cluster/state/__init__.py:330-345 | returns the live leases in order, expires exactly the overdue ones, fires the callback for each in order, and hangs exactly when there is one and the caller holds the manager's lock |
| `Cluster.ClusterState.GetLeaseByTask` | hermes_cluster/state/__init__.py:350-365 | the loop computes the indexed lookup with its fallback search |
| `Cluster.ClusterState.CreateTask` | hermes_cluster/state/__init__.py:170-184 | a pending task at version 1, replacing an earlier one of that id in place |
| `Cluster.ClusterState.SetTaskStatus` | hermes_cluster/state/__init__.py:194-204 | sets the status, raises the version by one, and changes the reason only if one is given |
| `Cluster.ClusterState.UnassignTask` | hermes_cluster/state/__init__.py:206-221 | clears the assignee and makes the task ready, whatever its status |
| `Cluster.ClusterState.UnblockTask` | hermes_cluster/state/__init__.py:223-233 | makes a blocked task pending; any other task is refused and unchanged |
| `Cluster.ClusterState.SetDependencies` | hermes_cluster/state/__init__.py:235-242 | replaces the dependencies and leaves the status alone |
| `Cluster.ClusterState.GetDependents` | hermes_cluster/state/__init__.py:244-250 | the ids that list the task as a dependency, in table order, each once |
| `Seqs.LastNIs` | hermes_cluster/state/__init__.py:464-465 | the bounded log is the longest end of the history that fits |
| `Cluster.ClusterState.RecordDecision` | hermes_cluster/state/__init__.py:461-465 | the log stays the last 200 of all decisions ever recorded |
| `Cluster.ClusterState.TriggerPendingTasks` | hermes_cluster/state/__init__.py:483-504 | changing the map it reads, the loop promotes exactly the tasks that were promotable when it began, in any table order, and counts them |
| `Workflow.PromoteReachesFixpoint` | hermes_cluster/state/__init__.py:483-504 | after one rescan nothing is promotable: a second one counts 0 and changes nothing |
| `Workflow.DownstreamAgreesWithRescan` | hermes_cluster/routers/tasks.py:132-148 | if nothing was promotable before a completion, looking only at the dependents of the completed task leaves nothing promotable and gives every task the status a full rescan would have given it |
| `TaskRoutes.TaskRouter.TriggerDownstream` | hermes_cluster/routers/tasks.py:132-148 | the loop over the dependents promotes exactly those pending ones whose dependencies are completed, and then schedules |
| `Cluster.ClusterState.SchedulePending` | hermes_cluster/state/__init__.py:506-542 | every ready task with a fitting online node becomes running on the first such node in registry order, all others are unchanged, the count is exact, and the decision log is the last 200 of the history extended by the new decisions |
| `Workflow.FirstFitIsFirst` | hermes_cluster/state/__init__.py:525-540 | the node chosen fits, no earlier one in the registry does, and none is chosen only if none fits |
| `Workflow.ScheduleReachesFixpoint` | hermes_cluster/state/__init__.py:506-542 | after a pass no ready task has a fitting node left: a second pass counts 0 |
| `Workflow.DecisionsAreSortedAndStable` | hermes_cluster/state/__init__.py:517-540 | the new decisions come sorted by priority, then creation time, and keep table order between equals |
| `TaskRoutes.TaskRouter.Submit` | hermes_cluster/routers/tasks.py:33-40 | adds the task (priority 3 unless a positive one is given) and rescans |
| `TaskRoutes.TaskRouter.Complete` | hermes_cluster/routers/tasks.py:48-63 | revokes the held lease, completes the task whatever its status, promotes downstream, schedules |
| `TaskRoutes.TaskRouter.Fail` | hermes_cluster/routers/tasks.py:66-79 | fails the task, keeps its lease, blocks its pending dependents, and reports all dependents |
| `TaskRoutes.TaskRouter.Unblock` | hermes_cluster/routers/tasks.py:82-86 | refuses every task that is not blocked |
| `TaskRoutes.TaskRouter.Advance` | hermes_cluster/routers/tasks.py:89-105 | readies a task whose dependencies are completed, keeps assignee and lease, schedules |
| `TaskRoutes.TaskRouter.SetDependencies` | hermes_cluster/routers/tasks.py:108-114 | sets any dependencies of an existing task |
| `TaskRoutes.TaskRouter.Claim` | hermes_cluster/routers/tasks.py:151-177 | the replies name the first guard that fails; a claim of a ready, unassigned task makes it running and leased, except that a refused lease leaves it running |
| `TaskRoutes.TaskRouter.Release` | hermes_cluster/routers/tasks.py:180-204 | only the assignee can release: its lease is revoked and the task is ready again, held by nobody |
| `TaskRoutes.TaskRouter.Trigger` | hermes_cluster/routers/schedule.py:17-39 | a rescan followed by a scheduling pass, with both counts exact, and the list of exactly the running tasks with an assignee, in table order |
| `TriggerChain.GetTriggerChain` | hermes_cluster/state/__init__.py:252-267 | terminates on every graph; every id in the chain is reached by 1 to max_depth dependent edges; the chain lists the ends of distinct edges, parents before children, so it is at most as long as the edges are many; it lists every edge out of what is reachable, so exactly what is reachable, if the depth exceeds the number of tasks or no path is as long as the depth |
| `TriggerChain.SharedTaskCutsChain` | hermes_cluster/state/__init__.py:252-267 | with paths cut off, an id reached by no more edges than the depth can be missing: a shared task first met too deep is not expanded again |
| `Containment.StuckForever` | hermes_cluster/core/cluster_core.py:118-170 | over every run whose steps spare it, a set of waiting tasks each of which has failed or depends on a member or a missing id stays waiting: no member is ever ready or running |
| `Containment.StuckThroughoutIff` | hermes_cluster/core/cluster_core.py:118-170 | such a set is stuck in every state of a run if and only if every step spares it |
| `Containment.StepKeepsStuck` | hermes_cluster/routers/tasks.py:33-204 | each step keeps such a set if and only if it spares it; only creation, release, completion, dependencies, advance, recovery, sync and merge can fail to |
| `Containment.AdvanceKeepsStuckIff` | hermes_cluster/routers/tasks.py:89-105 | an advance frees a member if and only if it is accepted, so its dependencies are completed |
| `Containment.SubmitKeepsStuckIff` | hermes_cluster/routers/tasks.py:33-40 | creating a task frees a member if and only if the member waited for that missing id alone |
| `Containment.CompleteKeepsStuckIff` | hermes_cluster/routers/tasks.py:48-63 | a completion frees a member if and only if it is of the member itself |
| `Containment.RecoverKeepsStuckIff` | hermes_cluster/recovery/manager.py:66-117 | a recovery frees a member if and only if the member has a live lease on the node and some online node fits it |
| `Containment.OneWriteKeepsStuckIff` | hermes_cluster/routers/tasks.py:108-204 | a release frees a member if and only if its holder calls it, new dependencies if and only if the member has not failed and none of them is a member or missing; a sync message or snapshot entry if and only if what it writes leaves the member not waiting, or not held, or creates the one id it waited for |
| `Containment.ResolverKeepsStuck` | hermes_cluster/core/cluster_core.py:118-170 | propagation of a completion or failure through the resolver keeps such a set |
| `Containment.FailedDownstreamIsStuck` | hermes_cluster/routers/tasks.py:66-79 | a failed task with everything transitively downstream of it is such a set while all of that waits |
| `Containment.CycleIsStuck` | hermes_cluster/state/__init__.py:235-242 | the waiting tasks of a dependency cycle are such a set; no cycle is ever refused |
| `Progress.CompletionsNeverStall` | hermes_cluster/routers/tasks.py:48-63 | from any served table without a circle of pending tasks, after one rescan and one pass, in every order of completions each takes one task off the incomplete ones, some task is running while one is incomplete, a rescan would find nothing, and after as many completions as there were incomplete tasks all are completed |
| `Progress.FinishesIffNoCircle` | hermes_cluster/routers/tasks.py:132-148 | a served workflow can be driven to its end by completions if and only if no pending tasks wait in a circle |
| `Progress.CompletingKeepsSettled` | hermes_cluster/routers/tasks.py:48-63 | one completion of a running task leaves nothing promotable and nothing ready, and exactly that task leaves the incomplete ones |
| `Effects.PlacementIsFirstCapable` | hermes_cluster/state/__init__.py:524-526 | a task is placed on the first registered node that is online and lists every capability it needs, and nowhere exactly when there is none |
| `Effects.ScheduleEffect` | hermes_cluster/state/__init__.py:522-529 | a ready task with a place runs there, one version on, otherwise as before; nobody else changes |
| `Effects.DecisionsByUrgency` | hermes_cluster/state/__init__.py:517-540 | of two decisions of one pass the earlier has the smaller or equal priority number; at equal priority it was created no later; at equal time it comes earlier in the table |
| `Effects.DecisionsTellPlacements` | hermes_cluster/state/__init__.py:531-539 | each decision names a ready task with its title, its priority and its place, and every ready task with a place has one |
| `Effects.PromoteEffect` | hermes_cluster/state/__init__.py:483-504 | a pending task with all dependencies completed becomes ready at its version; nobody else changes |
| `Effects.SingleWrites` | hermes_cluster/state/__init__.py:194-242 | what setting a status, unassigning, unblocking and setting dependencies each write to their task, field by field, and that they write nothing else |
| `Effects.SubmitEffect` | hermes_cluster/routers/tasks.py:33-40 | the new task is ready at version 1 with priority 3 unless a positive one is asked for; other tasks are at most promoted |
| `Effects.ClaimEffect` | hermes_cluster/routers/tasks.py:151-177 | a claim of a ready, unassigned task makes it running on the node, two versions on, and adds one active lease unless an id is empty; any other claim changes nothing |
| `Effects.RevokeForEffect` | hermes_cluster/routers/tasks.py:54-58 | one active lease of the task, if it has any, becomes revoked and is counted; no other lease changes |
| `Effects.ReleaseEffect` | hermes_cluster/routers/tasks.py:180-204 | a release by the assignee makes the task ready, unassigned, two versions on, with the reason if one is given; any other release changes nothing |
| `Effects.ReleasedTaskIsClaimable` | hermes_cluster/routers/tasks.py:151-204 | after a release any node can claim the task and gets an active lease for it |
| `Effects.CompleteEffect` | hermes_cluster/routers/tasks.py:48-63 | the task is completed, one version on; a pending dependent with nothing else open is ready, and it and all other ready tasks run if they have a place; nobody else changes |
| `Effects.DownstreamEffect` | hermes_cluster/routers/tasks.py:132-145 | before scheduling, exactly the pending dependents with nothing else open become ready, one version on |
| `Effects.FailEffect` | hermes_cluster/routers/tasks.py:66-79 | the task is failed with the reason if one is given; every other pending task that depends on it is blocked, one version on; nobody else changes |
| `Effects.AdvanceEffect` | hermes_cluster/routers/tasks.py:89-105 | an advance with completed dependencies makes the task ready whatever it was, and it and all other ready tasks run if they have a place; otherwise nothing changes |
| `Effects.UnblockAndDependenciesEffect` | hermes_cluster/routers/tasks.py:82-114 | unblocking makes a blocked task pending, setting dependencies replaces them and leaves the status; one version on, nobody else changes |
| `Effects.TriggerEffect` | hermes_cluster/routers/schedule.py:17-21 | tasks promoted by the rescan take part in the scheduling pass; who runs where, and at which version |
| `Effects.AssignmentsTellRunningTasks` | hermes_cluster/routers/schedule.py:23-33 | the reply lists exactly the running tasks with a non-empty assignee, each with its title, priority and node |
| `Effects.PropagateEffect` | hermes_cluster/core/cluster_core.py:118-213 | completion through the resolver: who becomes ready, who is blocked and with which reason, one version on; nobody else changes |
| `Effects.PropagateFailureEffect` | hermes_cluster/core/cluster_core.py:157-170 | exactly the pending dependents are blocked, one version on, with a reason that names the failed task |
| `Effects.LifetimeIs` | hermes_cluster/lease/lease_manager.py:186 | the time to live asked for, unless it is missing or zero |
| `Effects.LookupPrefersIndex` | hermes_cluster/state/__init__.py:350-365 | lookup by task gives the lease the index names, if it is active, and otherwise the earliest created active lease of the task |
| `Effects.ManagerEffects` | hermes_cluster/lease/lease_manager.py:162-208 | creation and revocation through the manager write one lease and raise one counter, or do nothing |
| `Effects.ScanEffect` | hermes_cluster/state/__init__.py:330-345 | an active lease expires exactly when its time has come, the very instant included; no other lease changes |
| `Effects.ScanNotifies` | hermes_cluster/lease/lease_manager.py:319-329 | the listeners are told the task and the node of each lease that expires, in order |
| `Effects.RevokeNodeEffect` | hermes_cluster/recovery/revoker.py:31-58 | the node's live leases are revoked, all overdue ones expired, no other lease changes |
| `Effects.RescheduleOneEffect` | hermes_cluster/recovery/rescheduler.py:50-100 | an orphan runs on its place, or is failed with the reason that no node was available, two versions on |
| `Effects.RecoveryEventsAre` | hermes_cluster/recovery/rescheduler.py:64-100 | the log entry of each revocation and of each orphan, rescheduled or failed |
| `Resolver.WorkflowResolver.ResolveDependencies` | hermes_cluster/core/cluster_core.py:118-151 | a pending task is blocked if a dependency failed, readied if all are completed, otherwise left; success is reported only for readying |
| `Resolver.WorkflowResolver.OnDependencyComplete` | hermes_cluster/core/cluster_core.py:153-155 | returns exactly the pending direct dependents whose dependencies are all completed, in table order, and readies those; beyond that it only blocks pending tasks with a failed dependency |
| `Resolver.WorkflowResolver.Propagate` | hermes_cluster/core/cluster_core.py:184-213 | terminates within ten levels; at each level its answer and the table it leaves are those of one step |
| `Resolver.WorkflowResolver.Cascade` | hermes_cluster/core/cluster_core.py:208-213 | walks the list it may extend, extends it by nothing, and leaves the table that blocking alone explains |
| `Resolver.WorkflowResolver.ResolveBlockedDependents` | hermes_cluster/core/cluster_core.py:199-206 | changes nothing: a blocked dependent is never resolved |
| `Resolver.NotDonePromotesNothing` | hermes_cluster/core/cluster_core.py:184-213 | propagation from a task that is not completed promotes nothing |
| `Resolver.CascadeToEnd` | hermes_cluster/core/cluster_core.py:184-213 | direct loop and cascade together are the one-piece propagation |
| `Resolver.WorkflowResolver.OnDependencyFailed` | hermes_cluster/core/cluster_core.py:157-170 | blocks exactly the pending direct dependents, with a reason, and returns them in table order |
| `Resolver.ResolverAgreesWithDownstream` | hermes_cluster/routers/tasks.py:132-148 | the resolver and the completion handler ready the same tasks |
| `Recovery.RecoveryManager.TriggerRecovery` | hermes_cluster/recovery/manager.py:66-117 | revoke, reschedule or fail, log: the state, the summary and the three counters it leaves |
| `Recovery.Revoker.RevokeAllForNode` | hermes_cluster/recovery/revoker.py:31-58 | scans, revokes exactly the node's live leases, logs each, and returns their tasks in lease order |
| `Recovery.Rescheduler.RescheduleOne` | hermes_cluster/recovery/rescheduler.py:31-102 | a missing task is skipped; an existing one is unassigned and scheduled, or failed if it got no node; one event is logged |
| `Recovery.Rescheduler.RescheduleOrphaned` | hermes_cluster/recovery/rescheduler.py:31-102 | the loop over the orphans and its count |
| `RecoveryOutcome.RecoveryEndToEnd` | hermes_cluster/recovery/manager.py:66-117 | for a node that is not online: it keeps no active lease; every existing orphan keeps its title, needs, dependencies and priority and ends running on the first fitting online node, never the lost one, or failed; every other task is scheduled as usual or untouched |
| `RecoveryOutcome.RecoveryIsLogged` | hermes_cluster/recovery/manager.py:80-116 | the rescheduled count is the number of list entries with a fitting online node, the status is complete exactly when that is the revoked count, and the log is extended by exactly the revocations, the outcomes and the summary |
| `RecoveryOutcome.EventsMatchCounts` | hermes_cluster/recovery/rescheduler.py:59-102 | one event per existing orphan: as many rescheduled as were placed, the rest marked failed |
| `RecoveryOutcome.OrphansAreHeldTasks` | hermes_cluster/recovery/revoker.py:38-58 | on reachable states each orphan exists, is assigned to the node, and is listed once |
| `RecoveryOutcome.OrphanIff` | hermes_cluster/recovery/revoker.py:38-58 | the revoked tasks are exactly those with a lease on the node that is active and not overdue when the recovery begins |
| `RecoveryOutcome.UnleasedIsNoOrphan` | hermes_cluster/recovery/revoker.py:40-42 | a task without an active lease is never among them |
| `RecoveryOutcome.RunningTaskTouchedIffLeased` | hermes_cluster/recovery/manager.py:66-117 | recovery changes a running task if and only if the task has a live lease on the node |
| `RecoveryOutcome.StaysOnLostNodeIff` | hermes_cluster/recovery/manager.py:198-217 | a task running on a lost node is still running there after the recovery if and only if it has no live lease on it, for instance because the lease is overdue |
| `RecoveryOutcome.FailedTaskRevivedIff` | hermes_cluster/routers/tasks.py:66-79 | a failed task runs again after a recovery if and only if it has a live lease on the lost node and some online node fits it; otherwise it is still failed |
| `RecoveryOutcome.SecondLossIsNotRecovered` | hermes_cluster/recovery/rescheduler.py:31-102 | a recovered task runs without an active lease, so the recovery of any node afterwards, its new one included, leaves it as it is |
| `LastWriter.ShouldApplyIsStrictTotalOrder` | hermes_cluster/sync/__init__.py:83-106 | the comparison is irreflexive, transitive, asymmetric and total on (version, timestamp, sender), with senders compared lexicographically |
| `LastWriter.RemoteWinsIff` | hermes_cluster/sync/__init__.py:83-106 | the remote update wins exactly when it has the higher version, or the same and the later time, or both the same and the greater sender, decided at the first place where the two differ |
| `LastWriter.TaskOrderIsByVersion` | hermes_cluster/sync/__init__.py:108-121 | for task updates only a strictly higher version wins |
| `LastWriter.WinnerIgnoresOrderAndDuplicates` | hermes_cluster/sync/__init__.py:83-106 | keeping the winner gives the same update for every reordering and duplication of deliveries, if equal keys mean equal updates |
| `SyncGate.PassesIffRecord` | hermes_cluster/state/__init__.py:382-389 | a message of a batch is applied if and only if its version is a strict left-to-right maximum above the start |
| `SyncGate.AppliedCountsRecords` | hermes_cluster/state/__init__.py:411-417 | the number of messages applied is the number of such maxima |
| `SyncGate.FinalVersionIsMaximum` | hermes_cluster/state/__init__.py:382-389 | the version ends at the maximum of the start and all messages |
| `SyncGate.FinalVersionIgnoresOrder` | hermes_cluster/state/__init__.py:411-417 | in every order |
| `SyncGate.ReplayDoesNothing` | hermes_cluster/state/__init__.py:382-417 | replaying any messages of a batch applies nothing and changes nothing |
| `SyncGate.HighestMessageDecides` | hermes_cluster/state/__init__.py:391-408 | the one highest message above the start decides its task's version, valid status and named assignee, wherever it stands in the batch |
| `SyncGate.AppliedMessageEffect` | hermes_cluster/state/__init__.py:391-408 | an applied message gives a known task its version, its status if valid and its assignee if not empty, and keeps all else; an unknown one is created with priority 3, no needs and no dependencies; nobody else changes |
| `SyncGate.OtherMessagesEffect` | hermes_cluster/state/__init__.py:385-387 | a stale message does nothing; one without a task only moves the version |
| `SyncGate.StatusRoundTrip` | hermes_cluster/models/__init__.py:46-53 | a message's status is read as a status exactly when it is that status's name |
| `Cluster.ClusterState.HandleSyncMessage` | hermes_cluster/state/__init__.py:382-409 | applies a message exactly when its version is above the store's, which it then takes |
| `Cluster.ClusterState.HandleBatchSync` | hermes_cluster/state/__init__.py:411-417 | the loop applies as many messages as the batch has strict maxima |
| `Sync.SyncReceiver.ReceiveSingle` | hermes_cluster/sync/__init__.py:307-348 | the receiver's own check and the store's never disagree; each message is counted as applied or as stale |
| `Sync.SyncReceiver.ReceiveBatch` | hermes_cluster/sync/__init__.py:280-305 | its details mark exactly the strict maxima as applied; accepted and rejected add up to the batch; the received counter grows by twice the batch |
| `Sync.SyncReceiver.MergeTask` | hermes_cluster/sync/__init__.py:383-408 | creates an unknown task, updates a known one if the remote version is higher, otherwise rejects |
| `Sync.SyncReceiver.ReceiveFullState` | hermes_cluster/sync/__init__.py:350-415 | merges the snapshot's nodes, then its tasks, in order; applied and rejected, with what does not parse, add up to the entries |
| `FullSync.NodeEntryEffect` | hermes_cluster/sync/__init__.py:363-378 | a node entry replaces an unknown node or one of no higher load; a node of higher load stays |
| `FullSync.HighestLoadWins` | hermes_cluster/sync/__init__.py:363-381 | each node ends as the start or the snapshot had it, with the highest load of them all |
| `FullSync.NodeRedeliveryDoesNothing` | hermes_cluster/sync/__init__.py:363-381 | delivering the nodes of a snapshot again changes nothing |
| `FullSync.RedeliveryAppliesTheGap` | hermes_cluster/sync/__init__.py:398-405 | redelivery applies a known task exactly max(0, r - v) times and then rejects it for good; its status is the remote's from the first application on |
| `FullSync.DeliveryShrinksGap` | hermes_cluster/sync/__init__.py:383-408 | one delivery shrinks the total version gap by exactly the number of tasks it applies, and applies none only when the gap is 0 |
| `FullSync.EntryEffect` | hermes_cluster/sync/__init__.py:383-408 | a snapshot entry creates an unknown task at version 1 or 2, or gives a known older one the remote status and a non-empty reason, one version on; all else is kept |
| `FullSync.ReceiveIsPointwise` | hermes_cluster/sync/__init__.py:383-408 | each task of a snapshot is merged on its own and no other is touched |
| `FullSync.OlderCatchesUp` | hermes_cluster/sync/__init__.py:398-405 | in every interleaving of deliveries the newer replica never changes and the older one gains one version per delivery until they are level |
| `FullSync.ReplicasConvergeIff` | hermes_cluster/sync/__init__.py:350-415 | two replicas that exchange snapshots for enough rounds end with the same task ids, each at equal version and status, if and only if no task began at equal versions with different statuses |
| `FullSync.ExchangeConvergesIff` | hermes_cluster/sync/__init__.py:615-651 | the same for one task, and a torn task never agrees in any interleaving |
| `FullSync.ReplicasEndEqualIff` | hermes_cluster/sync/__init__.py:350-415 | they end with tasks equal in everything but the creation time if and only if every task settles |
| `FullSync.TaskEndsEqualIff` | hermes_cluster/sync/__init__.py:383-408 | a task known at both replicas settles if and only if it is not torn, began equal in title, needs, priority, dependencies and assignee, and its fail reason is equal or can be handed over by the newer side; one known at one side only, if and only if it has no dependencies and no assignee and its reason arrives |
| `FullSync.OlderKeepsWork` | hermes_cluster/sync/__init__.py:398-405 | in every interleaving the older replica takes only version, status and a non-empty reason from the newer one |
| `RowStore.UpdateIsMapUpdate` | hermes_cluster/state/cluster_store.py:419-458 | an update by id and status changes at most that task, and its row count says whether it did |
| `RowStore.StoresAgreeIff` | hermes_cluster/state/cluster_store.py:376-474 | an operation has the same effect on the row store and the in-memory store if and only if it does not resubmit a changed task and does not give dependencies to a ready one |
| `RowStore.ApplyInMemory` | hermes_cluster/state/__init__.py:170-242 | the operations compared are what the in-memory store's methods do |
| `RowStore.ApplyToRows` | hermes_cluster/state/cluster_store.py:376-474 | and what the row store's methods do |
| `RowStore.RunsAgreeIff` | hermes_cluster/state/cluster_store.py:376-860 | the stores agree after every step of a run if and only if every step was of that kind |
| `RowStore.ClusterStore.CreateTask` | hermes_cluster/state/cluster_store.py:376-403 | keeps the row of a taken id, and makes a pending row ready whatever it depends on |
| `RowStore.ClusterStore.SetTaskStatus` | hermes_cluster/state/cluster_store.py:419-436 | as in memory |
| `RowStore.ClusterStore.UnassignTask` | hermes_cluster/state/cluster_store.py:438-448 | as in memory |
| `RowStore.ClusterStore.UnblockTask` | hermes_cluster/state/cluster_store.py:450-458 | as in memory |
| `RowStore.ClusterStore.SetDependencies` | hermes_cluster/state/cluster_store.py:460-474 | as in memory, and then demotes a ready task if there are dependencies |
| `RowStore.ClusterStore.TriggerPendingTasks` | hermes_cluster/state/cluster_store.py:824-860 | selecting the pending rows once and looking dependencies up one by one, promotes exactly what the in-memory rescan promotes, with the same count |
| `Watchdog.WatchdogLoop.Check` | hermes_cluster/core/watchdog.py:130-154 | every node's status becomes what its silence warrants; the events, the callback calls and the manager's announcements are exactly the changes, in registry order |
| `Watchdog.NodeManager.SetStatus` | hermes_cluster/core/node_manager.py:381-399 | writes and announces a change, and only a change |
| `Watchdog.NodeManager.SendHeartbeat` | hermes_cluster/core/node_manager.py:245-268 | marks a known node online now, with the load clamped to 0..1; an unknown node is ignored |
| `Watchdog.CheckEffect` | hermes_cluster/core/watchdog.py:136-148 | after a check a node is offline exactly when its silence has reached offline_after, degraded exactly when it has reached degraded_after only, and otherwise online |
| `Watchdog.BeatEffect` | hermes_cluster/core/node_manager.py:245-268 | after a heartbeat a known node is online as of now, with its load brought into 0..1 |
| `Watchdog.SilentNodeIsDegraded` | hermes_cluster/core/watchdog.py:130-154 | with checks at most D apart, a node silent since h leaves online at a check before h + degraded_after + D, is not online again while silent, and is degraded until it is silent enough to be offline |
| `Watchdog.AnnouncedTells` | hermes_cluster/core/node_manager.py:394-398 | each announcement tells the status a node had and the new one |
| `Watchdog.EventsAre` | hermes_cluster/core/watchdog.py:136-151 | a check announces a node exactly when its verdict differs from the stored status |
| `Watchdog.CheckLowersIff` | hermes_cluster/core/watchdog.py:136-146 | a check does not lower a node's severity if and only if the stored status was not graver than its silence warrants |
| `Watchdog.SilentSeverityNeverFalls` | hermes_cluster/core/watchdog.py:130-154 | in runs of heartbeats and checks, from any check or any heartbeat of a node on, its severity never decreases while it is silent |
| `Watchdog.SilentSeverityRises` | hermes_cluster/core/watchdog.py:130-154 | the same from any state in which the stored status is not graver than the silence warrants |
| `Watchdog.EventsEscalate` | hermes_cluster/core/watchdog.py:130-154 | successive events about a node without a heartbeat in between are of strictly rising severity |
| `Watchdog.HeartbeatBetweenOfflines` | hermes_cluster/core/watchdog.py:130-154 | between two offline events about a node there is a heartbeat from it |
| `Watchdog.SilentNodeIsDetected` | hermes_cluster/core/watchdog.py:130-154 | with checks at most D apart, a node silent since h is marked offline by a check before h + offline_after + D, and stays offline while silent |
| `Watchdog.StatusIsLastEvent` | hermes_cluster/core/node_manager.py:432-453 | the stored status is the last event since the node's last heartbeat, and what that heartbeat set if there is none |
| `Dispatcher.Dispatcher.Deliver` | hermes_cluster/hooks/dispatcher.py:106-195 | with max_retries >= 0 the callback sees retry records 1..k and then one final record k + 1, where k + 1 is the first attempt that is stopped, accepted or last; with a negative limit nothing is sent and one exhausted record is made |
| `Dispatcher.SucceedsIff` | hermes_cluster/hooks/dispatcher.py:132-145 | a delivery succeeds if and only if some attempt within the limit is made before any stop and answered without an error by a status from 200 to 299 |
| `Dispatcher.FailsIff` | hermes_cluster/hooks/dispatcher.py:148-162 | it fails if and only if the dispatcher runs through all attempts and none is so answered |
| `Dispatcher.RecordsTell` | hermes_cluster/hooks/dispatcher.py:112-176 | the final record has the number and the answer of the last attempt, or says that the dispatcher was stopped; each retry record has those of its own |
| `Dispatcher.DelaysNeverDecrease` | hermes_cluster/hooks/dispatcher.py:225-228 | delays never decrease |
| `Dispatcher.TotalSleepBounds` | hermes_cluster/hooks/dispatcher.py:225-228 | the total sleep after k retries is at most base * (2^k - 1), with equality exactly as long as the cap cut nothing, and at most k * max_delay |
| `Departures.AdvanceBreaksExclusion` | hermes_cluster/routers/tasks.py:89-105 | advancing a claimed task leaves its lease active on a ready task |
| `Departures.SecondLeaseIsGranted` | hermes_cluster/routers/leases.py:20-25 | the store grants a second active lease where the router expects a refusal |
| `Departures.OverdueTaskIsNotRecovered` | hermes_cluster/recovery/manager.py:198-217 | a task whose lease is overdue but still marked active is left running on its lost node |
| `Departures.EmptyClaimLeavesTaskRunning` | hermes_cluster/routers/tasks.py:151-177 | a claim by an empty node id leaves the task running without a lease |
| `Departures.ExtensionCanHang` | hermes_cluster/lease/lease_manager.py:241-243 | extending a live lease while another is overdue waits for the manager's own lock |
| `Departures.RecoveryRevivesFailedTask` | hermes_cluster/routers/tasks.py:66-79 | a failed task keeps its lease, and the recovery of its node runs it again elsewhere |
| `Departures.FailedTaskIsFreed` | hermes_cluster/routers/tasks.py:48-204 | an advance, a release by its holder and a completion each free a failed task |
| `Departures.MissingDependencyIsFreed` | hermes_cluster/routers/tasks.py:108-114 | new dependencies free a task that waits for a missing one, and so does creating the missing one |
| `Departures.SnapshotLosesDependencies` | hermes_cluster/sync/__init__.py:388-396 | a task that arrives in a snapshot has lost its dependencies, stays so, and is made ready by a rescan past an open one |
| `Departures.ChainMissesNearTask` | hermes_cluster/state/__init__.py:252-267 | a trigger chain of depth 3 on four tasks that misses an id reached by 3 edges |
| `Departures.ReadyTaskIsDemotedInRowsOnly` | hermes_cluster/state/cluster_store.py:468-473 | new dependencies demote a ready task in the row store only |
| `Departures.ResubmissionSkipsDependencies` | hermes_cluster/state/cluster_store.py:395-401 | submitting a taken id promotes its row past an open dependency |
| `Departures.SelfDependencyIsAccepted` | hermes_cluster/routers/tasks.py:108-114 | a task may depend on itself |
| `Departures.EqualVersionsStayTorn` | hermes_cluster/sync/__init__.py:398-408 | equal versions with different statuses never converge |

## Left out

- Exclusion.OneHolderPerTask: advance, direct lease grants, sync messages and snapshot entries are steps of its runs under their exact conditions; a resubmitted id is not a step, since submission generates new ids.
- TriggerChain.GetTriggerChain: when paths are cut off by the depth, soundness, the length bound and the traversal as a function are stated, not which ids are missing.
- Leases.LookupIsExactOnRuns: assumes that generated lease ids are new and not empty.
- Progress.CompletionsNeverStall: runs of completions of running tasks only; submissions in between would change the count.
- Threads and locks, except the lease manager's lock: every call is one step, so interleavings inside a call are not modelled, nor are the scanner, heartbeat and auto-recovery loops, of which the bodies are.
- HTTP, FastAPI, pydantic validation, SQLite, file and YAML configuration: requests are method calls, statements are updates of rows, and an entry of a snapshot that does not parse is an absent one.
- Aliasing of task objects: callers that keep a task object and see later changes are modelled as reading the task again by its id.
- `updated_at`, log messages, event ids and event timestamps, the score and reason of a decision, and the ids and texts that a delivery record merely copies.
- Handlers without a lease manager, which skip leases altogether.
- `detect_expired_leases`: a scan and then a recovery for each node in a set of unspecified order; each of these steps is modelled.
- Nodes with an empty id: a task that the scheduler gives to a node named "" counts as not placed and is failed, as in the code; `Rehomed` says so.
- Capability updates, registration callbacks and events, and status listings of the node manager, and the timeline: they touch none of the properties above.
- `ClusterScheduler.reschedule_task`, `ClusterCore` callbacks, `core/recovery.py`, `TaskManager`, federation, visualization, plugin tools, dashboard, installer: plumbing, or members with no property of their own.
- HMAC signing, tokens and random ids: assumed to work.
- Floating-point rounding: elapsed times are integers and delays are reals.
