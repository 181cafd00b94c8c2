# AIze runtime: a Dafny model of dispatch, the SessionLog and the Session graph

This project models the three stateful cores of the AIze runtime under `src/` and proves what they
promise.

**Dispatch.** Sessions carry a log, a SessionGoal and one cursor per role. GoalManager and WorkerAgent turns are
leased from a readiness list, run outside the state lock, and come back to a fenced commit. `DispatchModel`
holds the entities, `Projection` and `SelectionPolicy` the two pure parts, `Protocol` every atomic step, and
`Runtime` the same operations in place, loop by loop, on a store of mutable collections. Each method of
`Runtime.DispatchStore` is proved to be the protocol step it stands for and to keep the invariant, so every
sequence of calls is a run of the protocol. `LeaseInvariant`, `GoalInvariant`, `StepInvariant`,
`CommitInvariant` and `Preservation` build the one inductive invariant (`StepInvariant.Inv`) and show that every
step keeps it, accepted or refused, in any order; `WindowTiling` adds the tiling of the log by observation
windows. On top of these stand the results over whole runs: `Behaviours` (lease exclusion, windows, no ignored
input), `Requirements` (exactly when a new requirement is heard), `Liveness` (refresh, the repair, recovery),
`Turns` (what an open turn hands on), `TurnEnds`, `Signatures`, `Marks`, `Care` and `Handover` (that no open
goal is ever dropped), `Fencing` (what a late result may do), `Forwarding` (user input beside a running Worker),
`Overtaking`, `ScheduledRuns`, `GraphSteps` and `LogAuthority`. What the steps do is stated once more in terms
of log entries, times and fields alone: `Waking` (what wakes whom, and from when on), `Waits` (what ends a
wait), `Leases` (what a lease is given for and how long it lasts), `Outcomes` (what each end of a run leaves)
and `Operations` (what the other operations accept and leave). `Behaviours.AlwaysInv` supplies the `Inv(s)` that
the one-step results ask for in every reachable state.

**The framed SessionLog.** `Frames` has the byte format (`>8sQI` header, payload, abstract checksum and
codec), `SegmentStore` the files, rotation and crashes, `SessionStorage` the class that appends, rebuilds,
recovers and reads, `Migration` the bulk writer, `LogViews` the operation-local cache above the files, and
`Replay` the startup replay of goal state.

**The Session graph and schedules.** `SessionGraph` has linking, the owner and root repairs and distances;
`Schedule` the resolver and the completion gate.

**Limits.** `DispatchLimits` (with the building blocks of `Scenarios`) and `StorageLimits` hold concrete inputs at
which the code misses what it is for; those of the dispatcher are the last states of runs of the protocol. The
members that state the exact conditions are named below.

**Liveness.** The top-level README (lines 297-301) promises that every active Session with an incomplete goal has
a role ready or running, or waits. `Handover.EverySessionIsCovered` proves this of the repair of every state of
every run, for all Sessions and whatever their Units, from two things about the agents: nobody names a run id that
does not exist yet (`Signatures.FreshIds`), and whatever counts as a Worker's report wakes the GoalManager
(`Care.Heard`). The second holds whenever runs speak to their Sessions under their own role, as the runtime
sets it up for them (`Handover.TruthfulIsAccountable`). Behind it stands `Handover.NeverDropped`: an open goal that
does not wait always has a run with a lease or an unread entry that wakes a role.

Session, Unit and run ids are positions in their lists; a log entry's sequence number is its position plus
one. Times are whole seconds, and `now` is an input of every step that never decreases along a run. An agent
run is any sequence of steps between its acquisition and its end.

## What the code does not do

- A revised goal body and a completed child do not end a wait for something else. With no role of the Session
  running, the next refresh makes the GoalManager ready if and only if the goal does not wait or its wait ends
  (`Requirements.RequirementIsHeard`, `Requirements.RevisedBodyIsHeard`, `Requirements.WaitingParentHears`; input:
  `DispatchLimits.RevisionIsNotHeard`). User input always ends the wait.
- A service account may belong to both slots, and a message counts as a Worker's report by its run and its sender,
  while it wakes the GoalManager by the slot it claims. A Worker whose only report claims the GoalManager's slot
  leaves its open goal to nobody, and the repair passes over it while its Unit is paused. With fresh run ids this
  is the only way: `Handover.OnlyMisclaimedReports` (exact condition of a turn: `Turns.OpenTurnHandsOn`, of the
  repair: `Liveness.RepairCoversExactly`; input: `DispatchLimits.MisclaimedReportDropsTheGoal`).
- One entry decides an acquisition: when the policy chooses an entry of a paused Unit, nothing is leased and
  nothing is saved, although other candidates exist (`Overtaking.OnlyTheChoiceIsLeased`; input:
  `DispatchLimits.PausedHeadBlocksTheQueue`).
- Replay of one Session's log is exact only for goals whose record was already in the metadata: a goal created by
  the interrupted save is not rebuilt (`LogAuthority.CrashAfterAppend`; input: `DispatchLimits.NewGoalIsLost`).
- Replay restores the wait that the metadata has, even when the log holds the user input that cancelled it. After a
  restart the GoalManager of an incomplete goal is ready if and only if no wait survives
  (`LogAuthority.RestartIsHeard`; input: `DispatchLimits.CancelledWaitComesBack`).
- Switching a singleton Session on is not logged, so after a restart its last logged change decides
  (`LogAuthority.ReactivationIsLost`; input: `DispatchLimits.ReactivatedSingletonGoesOff`).
- The logs of a completing child and of its parents are appended one after the other, and replay does not act on
  `ChildGoalCompleted`. After a crash a complete parent is reopened exactly when the whole of its own batch
  survived (`LogAuthority.ParentReopensWithWholeBatch`).
- An append trusts the stored index when the size of the last segment agrees with it. After a torn append that no
  startup has recovered, this gives the rebuilt index exactly when the append did not open a new segment
  (`SessionStorage.FastPathAfterCrash`; input: `StorageLimits.RotationIsMissed`).
- Full recovery at startup goes by the index files, so it reaches a log if and only if its index exists
  (`SessionStorage.SessionLog.RecoverAtStartup`). A Session whose first append was cut has a segment and no index;
  the next operation numbers its entries from 1 again, and its save keeps what is on disk and silently drops the
  entries whose numbers are taken (`LogViews.OperationLog.Save`, `LogViews.OperationLog.SaveKeepsEverything`; input:
  `StorageLimits.FirstEntryIsLost`).
- The migration writer sets no frame limit, so what it writes reads back exactly when every record is small
  enough for an ordinary append (`Migration.MigratedLogReadsBack`; input: `StorageLimits.OversizedRecordIsLost`).
- A due Unit whose singleton Session exists breaks the whole pass over scheduled Units
  (`Runtime.DispatchStore.RunScheduledUnits`; input: `DispatchLimits.DueSingletonBlocksTheSchedule`).
- A duplicate `event_key` is dropped only against the entries that the operation has loaded
  (`LogViews.OperationLog.Append`).

## Model

| member | source | states |
|---|---|---|
| `Behaviours.AlwaysInv` | src/goal/dispatch.py:28-139 | In every state of a crash-free run, under every interleaving of user input, messages, declarations, dispatch lots, repairs, startups with their log replay, recoveries, Session creation and the repairs of the graph, the protocol invariant and the window tiling hold. |
| `Preservation.StepKeepsInv` | src/goal/dispatch.py:28-139 | Every accepted or refused step keeps the invariant, only moves runs on, only extends logs with entries that explain each change of completion, and outside a deciding GoalManager commit neither completes a goal nor starts a wait. |
| `Behaviours.LeaseExclusion` | src/goal/readiness.py:43-53 | At most one acquired run per Session and role, distinct readiness ids, no ready entry beside an acquired run of the same Session and role, and every acquired readiness has exactly one owner. |
| `Behaviours.NoIgnoredInput` | src/goal/dispatch.py:861-915 | Once user input, a completed child goal or a revised body is in a Session's log, its goal is incomplete until a GoalManager run whose window reached that entry commits complete, and is complete only by such a commit. |
| `Behaviours.CompletingStep` | src/goal/dispatch.py:266-502 | A goal turns complete only in a fence-passing GoalManager commit that declared it, with every requirement in the log inside the run's window. |
| `Behaviours.ArrivingStep` | src/goal/sessions.py:1442-1485 | The step that brings a requirement into a log leaves that Session's goal incomplete. |
| `Requirements.RequirementSources` | src/goal/messages.py:156-221 | A requirement enters a log in four ways only: user input, a revised body, a completed child, and the prompt of a new Session. |
| `Requirements.RequirementIsHeard` | src/goal/readiness.py:37-53 | After the step that brings a requirement into an active Session that nobody runs, the next refresh makes the GoalManager ready if and only if the goal does not wait or its wait ends; for user input always; for a completed child also beside a running Worker. |
| `Requirements.RevisedBodyIsHeard` | src/goal/sessions.py:1157-1208 | A revised body is heard if and only if the wait it finds ends by itself or, without one, no Worker runs or something else woke the GoalManager. |
| `Requirements.WaitingParentHears` | src/goal/sessions.py:1256-1274 | A waiting parent hears of a completed child if and only if its wait ends by itself or is for that child. |
| `Requirements.DeferredInputIsHeard` | src/goal/messages.py:177-183 | Beside a running Worker, user input reaches the GoalManager at the next refresh if and only if it ended a wait or something else woke it. |
| `Requirements.HeardUnlessWaiting` | src/goal/readiness.py:26-54 | A refresh makes the GoalManager that nobody runs ready if and only if a waiting goal's wait ends, or an unread entry wakes it. |
| `DispatchLimits.RevisionIsNotHeard` | src/goal/sessions.py:1157-1208 | A run that ends in a waiting goal; a body revised then is in the log, and no refresh before the deadline makes the GoalManager ready. |
| `Behaviours.WindowsTileTheLog` | src/kernel/session_log.py:113-120 | Each log position up to a role's cursor was observed by exactly one run of the role, none beyond it, and later positions by later runs. |
| `WindowTiling.StepSettles` | src/goal/log.py:273-278 | A cursor moves only when a run that still holds its lease ends, from just before that run's window to its end; no other cursor or lease changes. |
| `WindowTiling.StepKeepsTiling` | src/goal/readiness.py:310-327 | The tiling of [1..cursor] by released windows survives every step. |
| `LeaseInvariant.RefreshKeepsLease` | src/goal/readiness.py:26-54 | Recomputing readiness from the logs keeps leases exclusive, windows contiguous with cursors and ids fresh. |
| `LeaseInvariant.TakeKeepsLease` | src/goal/dispatch.py:186-240 | Turning a ready entry into an acquired one with a new run keeps the lease invariant. |
| `CommitInvariant.FinishKeepsLease` | src/goal/dispatch.py:483-491 | Releasing a run with its readiness, cursor, goal and log entries keeps the lease invariant and moves the cursor over exactly its window. |
| `CommitInvariant.OwnCompletionKeepsInv` | src/goal/dispatch.py:435-446 | A completion past the fence has observed every requirement, and its log entries explain it. |
| `CommitInvariant.WaitingKeepsInv` | src/goal/dispatch.py:370-396 | A committed wait misses nothing it is for between the run's window and the position it looks from. |
| `CommitInvariant.NotifyingKeepsInv` | src/goal/log.py:154-186 | Telling parents of a completed child, and reopening the complete ones, keeps the invariant and leaves the child alone. |
| `CommitInvariant.DiscardKeepsInv` | src/goal/dispatch.py:917-980 | Discarding a late result keeps the invariant and completes nothing. |
| `Fencing.FenceIsExact` | src/goal/dispatch.py:861-915 | A result passes exactly when its run is acquired, the goal has the body it was given, and behind its window there is no revised body, no completed child, and no message and no state change but the run's own. |
| `Fencing.CompletionSawEverything` | src/goal/dispatch.py:902-913 | Over whole runs: whenever a goal turns complete, the deciding run is an acquired GoalManager run that has seen the body and declared completion, and behind its window every message and state change carries its id. |
| `Fencing.FenceNamesTheFirst` | src/goal/dispatch.py:861-915 | The reason for holding a result back is the first check that fails, and among the entries the kind of the first conflicting one. |
| `Outcomes.OvertakenNeverDecides` | src/goal/dispatch.py:917-980 | Over whole runs: once anything conflicting lies behind a run's window, no end of that run, at any later time and with any result, changes any goal. |
| `Outcomes.RevisionReachesEveryRun` | src/goal/sessions.py:1157-1208 | A revised body is in the goal, which is open again, and every run at work on the Session is fenced from then on. |
| `Fencing.LostLeaseDecidesNothing` | src/goal/dispatch.py:917-980 | A result whose run lost its lease changes no goal, cursor, readiness or other Session; only the run's evidence and one waking signal. |
| `Fencing.OvertakenRunIsReleased` | src/goal/dispatch.py:936-965 | A still acquired run with a conflict gives up its lease and readiness, leaves every goal untouched, moves its cursor to its window's end, and leaves a GoalManager-waking entry beyond the cursor. |
| `Fencing.ConflictIsReviewedNext` | src/goal/dispatch.py:881-915 | After the next refresh of an active Session the GoalManager is ready with a window that starts right after the overtaken one and contains every conflicting entry. |
| `Fencing.RacedWaitIsFenced` | src/goal/sessions.py:1334-1377 | When what a wait is for reached the log after the run's window and before the commit, the wait is not committed. |
| `Liveness.NoLostWake` | src/goal/readiness.py:56-117 | A matching entry from outside the declaring run after its window ends the wait at the next refresh of the active Session and makes the GoalManager ready. |
| `Waits.DeadlineWaitIsExact` | src/goal/readiness.py:84-94 | A refresh ends a wait for a time if and only if the time has come, and exactly then the GoalManager is ready. |
| `Waits.EventWaitIsExact` | src/goal/readiness.py:95-105 | A refresh ends a wait for an event if and only if a message with that event lies behind the position the wait looks from, and exactly then the GoalManager is ready. |
| `Waits.ChildWaitIsExact` | src/goal/readiness.py:106-116 | A refresh ends a wait on a child if and only if a completion of that child lies after the declaring run's window, and exactly then the GoalManager is ready. |
| `Waits.NoWaitNoChange` | src/goal/readiness.py:56-68 | A refresh touches no Session that is switched off, has no goal or does not wait. |
| `Liveness.RefreshFollowsTheLog` | src/goal/readiness.py:37-53 | After a refresh a role nobody runs is ready if and only if an unread entry wakes it, with a window over everything unread. |
| `Waking.GoalManagerIsReadyFor` | src/goal/projections.py:101-143 | A free GoalManager of an open goal is ready after a refresh exactly when there is an unread activation, signal for it, completed child, user input that was not put off, schedule update, Worker report, or, while no Worker runs, a reopening by somebody else than a GoalManager. |
| `Waking.WorkerIsReadyFor` | src/goal/projections.py:146-161 | A free Worker is ready after a refresh exactly when there is an unread signal for it, or a request to the Session made by a GoalManager or forwarding user input. |
| `Waking.ReadyFromWhen` | src/goal/projections.py:75-84 | A ready role may be dispatched at once unless all that wakes it are delayed signals, and then from the earliest of their times on. |
| `Waking.NothingElseGetsReady` | src/goal/readiness.py:37-53 | A refresh makes nothing ready for a Session that is off, has no incomplete goal or waits, nor for a role that is not free. |
| `Liveness.RepairedStateIsLive` | src/goal/readiness.py:119-226 | After the repair there is no gap, no orphaned acquired readiness and no expired lease. |
| `Leases.LeaseLasts` | src/goal/readiness.py:119-183 | The repair interrupts exactly the acquired runs whose lease is 660 seconds old and changes no other run. |
| `Leases.RepairLeavesPausedAlone` | src/goal/readiness.py:184-226 | The repair does not touch a Session of a Unit that is switched off and that nobody runs; its roles are ready afterwards exactly if its unread log wakes them. |
| `Leases.RepairLeavesOffAlone` | src/goal/readiness.py:119-226 | The repair does not touch a Session that is switched off, unless it interrupts one of its runs. |
| `Leases.LeaseIsOnlyLostToTime` | src/goal/dispatch.py:28-139 | Apart from its own end and a restart, a run loses its lease in an acquisition only, and only when the lease is 660 seconds old. |
| `Liveness.RepairCoversExactly` | src/goal/readiness.py:119-226 | One repair of any state with the invariant, reached by a run or not, and any active incomplete Session: afterwards it waits, has a ready role or is run if and only if before it its Unit was not paused, it waited, a run held a lease, or an unread entry woke a role. |
| `Handover.EverySessionIsCovered` | src/goal/readiness.py:119-226 | In every state of a run with fresh run ids and heard reports, the repair leaves every active Session with an incomplete goal waiting, with a ready role, or run under an unexpired lease, whatever its Unit. |
| `Handover.NeverDropped` | src/goal/dispatch.py:266-685 | In every state of such a run, an active incomplete Session that does not wait has a run that holds its lease or an unread entry that wakes one of its roles. |
| `Handover.TruthfulIsAccountable` | src/goal/messages.py:106-125 | Where runs speak to their Sessions under their own role, every turn that counts as reported has a report that wakes the GoalManager. |
| `Liveness.RecoveryIsTotal` | src/goal/log.py:280-374 | After restart recovery no run or readiness is acquired, no cursor has moved, and every active incomplete goal has an unread entry waking its GoalManager and each interrupted role. |
| `Liveness.RecoveryIsExact` | src/goal/log.py:280-374 | A run is interrupted if and only if it was acquired; an acquired readiness becomes ready again if and only if its Session is active with an incomplete goal and a run of that Session held it, and stale otherwise; nothing else changes but one signal per resumable Session. |
| `Liveness.RecoveryThenReady` | src/goal/log.py:344-372 | The refresh after recovery makes the GoalManager, and each interrupted role, of every goal that does not wait ready. |
| `Turns.OpenTurnHandsOn` | src/goal/dispatch.py:310-490 | One turn from any state with the invariant, past its fence and leaving its goal incomplete and not waiting, leaves a woken role or a running one if and only if it is not one whose request or report counted as made and was read already. |
| `Outcomes.RetryWaits` | src/goal/dispatch.py:310-340 | A GoalManager that decided nothing is ready at the next refresh, and as long as nothing else wakes it, available from 30 seconds after its turn on. |
| `Outcomes.WorkerTurn` | src/goal/dispatch.py:579-685 | A Worker turn leaves the goal alone, and a signal 30 seconds later if and only if the log has no message of the run under its own sender to the Session. |
| `Outcomes.IncompleteTurn` | src/goal/dispatch.py:448-490 | A GoalManager that declares its goal incomplete asks for a Worker if and only if none is ready, about to run or running and the run has not asked already. |
| `Outcomes.CompletedTurn` | src/goal/dispatch.py:432-446 | A completion that goes through completes the goal, leaves nothing ready or acquired for its Session, and tells exactly the parents. |
| `Outcomes.CompletionTellsParents` | src/goal/sessions.py:1256-1274 | Whenever a goal turns complete, each of its parents, and nobody else, has the completion in its log, is incomplete, and keeps its body and its wait. |
| `Outcomes.ChildCompletionIsTrue` | src/goal/log.py:154-186 | When the completion of a child enters a log, the child's goal has turned complete in that very step, and the log is one of its parents'. |
| `Handover.EveryOpenTurnHandsOn` | src/goal/dispatch.py:310-685 | In every run where runs speak under their own role, a turn past its fence that leaves its goal incomplete and not waiting leaves a woken role or a running one. |
| `Handover.OnlyMisclaimedReports` | src/goal/dispatch.py:1220-1242 | With fresh run ids alone, a turn that leaves an open goal to nobody is a Worker's whose reports all fail to wake the GoalManager. |
| `DispatchLimits.MisclaimedReportDropsTheGoal` | src/goal/projections.py:164-177 | A run with fresh run ids in which a Worker's only report claims the GoalManager's slot; it ends with an open goal that nobody has in hand and that every repair leaves uncovered. |
| `Marks.StepKeepsMarks` | src/goal/dispatch.py:266-980 | Every step keeps this: behind what a role of a Session has read, one of its runs has left a signal for the GoalManager or an entry of its own. |
| `Marks.StepKeepsWoken` | src/goal/readiness.py:286-327 | Every step keeps this: a Worker that is ready or acquired belongs to a Session with an unread entry that wakes the Worker. |
| `Signatures.StepKeepsSigned` | src/goal/messages.py:76-154 | With fresh run ids every step keeps this: a message that names a run lies behind that run's window, and a GoalManager's work request wakes the Worker. |
| `Signatures.MessageSources` | src/goal/messages.py:76-221 | A message that names a run enters a log in four ways only: posted by an agent, as a schedule entry, as input forwarded to a running Worker, or at the end of that run. |
| `Overtaking.BoundedOvertaking` | src/goal/policy.py:78-104 | Without restarts, while a starved entry stays a candidate, no more unfiltered acquisitions lease other entries than there were entries ahead of it. |
| `Overtaking.AcquisitionMovesForward` | src/goal/policy.py:78-104 | Each acquisition of another entry strictly shrinks the set of entries ahead of a starved candidate. |
| `Overtaking.NobodyGetsAhead` | src/goal/readiness.py:286-308 | No step but a restart puts an entry ahead of a starved one; a refreshed entry keeps its id and first ready time. |
| `Overtaking.OnlyTheChoiceIsLeased` | src/goal/dispatch.py:153-170 | An acquisition leases exactly the policy's choice, if its Unit does not refuse; otherwise nothing changes. |
| `Leases.LeaseIsEarned` | src/goal/dispatch.py:141-264 | The new run of an acquisition belongs to an active Session with an incomplete goal, inside the filter, of no unknown or paused Unit; it has the goal's body and a window right behind its role's cursor, up to the end of the log and with an entry that wakes the role unless the goal waits; nobody else runs that role. |
| `Leases.RefusalMeansOff` | src/goal/dispatch.py:164-170 | An acquisition is refused for an unknown or paused Unit only, and then nothing changes. |
| `DispatchLimits.PausedHeadBlocksTheQueue` | src/goal/dispatch.py:164-170 | A run that ends with two ready entries, the first in a paused Unit: the acquisition changes nothing although the second is leasable. |
| `ScheduledRuns.NoRelaunchBeforeResolution` | src/goal/sessions.py:380-391 | Between two scheduled launches of a Unit its next run time is resolved again. |
| `ScheduledRuns.CompletionIsScheduled` | src/goal/dispatch.py:504-577 | A goal of a Unit with an enabled schedule completes only with a next run strictly after the completion. |
| `ScheduledRuns.CompletionSetsNextRun` | src/goal/dispatch.py:541-577 | That next run is the least boundary after the completion counted from the anchor for an interval schedule; an explicit one keeps a time still to come and otherwise takes the declared one. |
| `LogAuthority.SavedStateIsStable` | src/goal/log.py:21-82 | On a fully saved state of any run replay changes no goal and no cursor, and no activity either as long as the Session was never switched on as a singleton. |
| `LogAuthority.ActivityAgreesWithLog` | src/goal/log.py:188-211 | Outside singleton activations every change of activity, replays included, is accounted for by the log. |
| `LogAuthority.ReactivationIsLost` | src/goal/sessions.py:857-893 | After switching a singleton on, a restart sets its activity to what its log says. |
| `DispatchLimits.ReactivatedSingletonGoesOff` | src/goal/sessions.py:857-893 | A run that switches a Session off and on again as a singleton; the next startup replay switches it off. |
| `LogAuthority.CrashAfterAppend` | src/kernel/storage.py:107-127 | A crash between a log append and the metadata gives the completion state of the finished save if and only if no goal was created by that save. |
| `DispatchLimits.NewGoalIsLost` | src/goal/messages.py:156-221 | A concrete first user input whose goal a crash before the metadata loses. |
| `LogAuthority.CrashWithinAppend` | src/goal/log.py:58-74 | Whatever part of a log survived, user input in it that no surviving completion follows leaves the goal incomplete after restart. |
| `LogAuthority.RestartIsHeard` | src/goal/log.py:280-374 | After replay, refresh and recovery of any surviving logs, the next refresh makes the GoalManager of an active incomplete goal ready if and only if no wait survives in the metadata or it ends. |
| `DispatchLimits.CancelledWaitComesBack` | src/goal/messages.py:156-221 | A run that ends in a wait, the user input that ends it, and a crash before the metadata: after replay and recovery no refresh before the deadline makes the GoalManager ready. |
| `LogAuthority.CrashKeepsLeases` | src/goal/store.py:82-93 | Whatever part of the logs beyond the saved metadata survives a crash, after replay and recovery the lease invariant and the window tiling hold. |
| `LogAuthority.ParentReopensWithWholeBatch` | src/goal/sessions.py:1256-1274 | After a crash during the parent's append the parent is reopened if and only if its whole batch survived. |
| `Replay.ReplaySession` | src/goal/log.py:21-82 | The replay loop cuts the cursors to the log and computes the completion and the activity that the log decides. |
| `Replay.ReplayAfterCrash` | src/goal/log.py:21-82 | A log that explains a change of completion gives the new state when replayed onto the old metadata, and stays in agreement with it. |
| `Replay.DurableInputReopens` | src/goal/log.py:58-74 | User input that no later completion follows decides for incomplete, whatever the metadata says. |
| `Replay.LastEntryDecides` | src/goal/log.py:21-82 | A replayed goal is complete exactly when a completion has neither a reopening nor user input after it, or nothing in the log decides against the completion in the metadata. |
| `Replay.LastChangeDecides` | src/goal/log.py:188-211 | Replayed activity is that of the last logged change, or the metadata's. |
| `Projection.ProjectionIsMonotone` | src/goal/projections.py:56-84 | Appending entries never withdraws a readiness, moves its start, shrinks its window, loses reasons or delays it. |
| `Projection.ReadyIffWoken` | src/goal/projections.py:56-84 | A window exists if and only if some unread entry wakes the role. |
| `Projection.AvailableIsLeastDelay` | src/goal/projections.py:56-84 | A window is delayed only when all its reasons are, and then by the least of their delays. |
| `SelectionPolicy.Select` | src/goal/policy.py:36-104 | In numbers: none is chosen only when no ready, available entry inside the filter belongs to an active Session with an incomplete goal whose role nobody runs; the score is class score plus base priority plus full minutes waited, 100 at most; until a candidate has waited 600 seconds nobody has a greater score, and after that none that has waited as long was ready before; stale are exactly the available entries whose goal is not incomplete. |
| `SelectionPolicy.ChoiceIsBest` | src/goal/policy.py:78-123 | The entry the rule determines has the greatest score among the candidates until one has starved, and the earliest ready time among the starved after that; ties go by ready time, Session and role. |
| `SelectionPolicy.EqualsByAge` | src/goal/policy.py:78-104 | Among equal policies nobody who became ready later is chosen before somebody who became ready earlier. |
| `SelectionPolicy.HigherClassFirst` | src/goal/policy.py:93-104 | Between entries equally old and not starved the higher policy is chosen. |
| `SelectionPolicy.ChoiceIsUnique` | src/goal/policy.py:78-104 | The selection rule determines one entry. |
| `SelectionPolicy.ChoiceBeforeStarved` | src/goal/policy.py:78-92 | Whatever is chosen instead of a starved candidate precedes it in first-come-first-served order. |
| `Runtime.DispatchStore.HasWakeReason` | src/goal/readiness.py:84-117 | Finds a reason exactly when the deadline has come, a message with the event or the completion of the child lies behind the wait's position. |
| `Runtime.DispatchStore.ExpireGoalWaiting` | src/goal/readiness.py:56-82 | Ends exactly the waits of active Sessions for which that is so, each with a GoalManager signal, and changes no other Session. |
| `Runtime.DispatchStore.DeduplicateReadyEntries` | src/goal/readiness.py:243-260 | Keeps, of the ready entries of each Session and role, the first of the earliest, and all acquired ones. |
| `Runtime.DispatchStore.ReconcileReadyEntry` | src/goal/readiness.py:262-308 | Withdraws, updates or creates one Session and role's entry, keeping its id and first ready time, and touches no other. |
| `Runtime.DispatchStore.RefreshDispatchReadiness` | src/goal/readiness.py:26-54 | The loops compute the refresh relation: open roles follow their log, all others keep their entry. |
| `Runtime.DispatchStore.ReleaseLostOwnership` | src/goal/readiness.py:119-183 | Interrupts exactly the expired runs, gives up exactly the acquired readiness without a live run, and signals exactly their Sessions. |
| `Runtime.DispatchStore.ReconcileDispatchLiveness` | src/goal/readiness.py:119-226 | The whole repair with its second refresh, keeping the invariant. |
| `Runtime.DispatchStore.NextReadiness` | src/goal/readiness.py:329-361 | Refresh, selection and stale marks together. |
| `Runtime.DispatchStore.AcquireDispatchLease` | src/goal/dispatch.py:141-264 | An acquisition is a protocol step; an unknown Session is refused, a refusing Unit leaves the loaded state, and the run gets the entry's window and the goal's body. |
| `Runtime.DispatchStore.FindConflict` | src/goal/dispatch.py:881-915 | The scan returns the first conflict after the window, and none exactly when there is no revised body, no completed child, and no message or state change but the run's own. |
| `Runtime.DispatchStore.StaleDispatchFence` | src/goal/dispatch.py:861-879 | Lets a result through exactly when lease, goal and body are as the run needs them and everything behind its window is its own. |
| `Runtime.DispatchStore.DiscardStaleResult` | src/goal/dispatch.py:917-980 | In-place discard of a late result. |
| `Runtime.DispatchStore.CommitGoalManagerRun` | src/goal/dispatch.py:266-502 | All five outcomes of a GoalManager turn: undecided, waiting, incomplete with an implicit Worker request, complete, and a completion the schedule blocks. |
| `Runtime.DispatchStore.PrepareScheduledCompletion` | src/goal/dispatch.py:541-577 | Runs the resolver only when needed and reports the gate, with the schedule and log it leaves. |
| `Runtime.DispatchStore.CommitWorkerRun` | src/goal/dispatch.py:579-685 | A Worker turn that reported nothing leaves a delayed signal; the remote handoff counts as it does in the code. |
| `Runtime.DispatchStore.CommitProviderError` | src/goal/dispatch.py:687-751 | A provider error reopens the goal, fails the readiness and still moves the cursor. |
| `Runtime.DispatchStore.NotifyParents` | src/goal/sessions.py:1256-1274 | Every parent hears of the child, and exactly the complete ones are reopened. |
| `Runtime.DispatchStore.EndAgentRun` | src/goal/dispatch.py:97-139 | The second atomic section is a protocol step and keeps the invariant. |
| `Runtime.DispatchStore.AppendUserInput` | src/goal/messages.py:156-221 | User input is appended, reopens or creates the goal and ends its wait; beside a running Worker the last entry is a request that names that run. No other Session changes. |
| `Forwarding.InputReachesTheWorker` | src/goal/messages.py:200-218 | For every state of the goal: user input beside a running Worker leaves a message that names that run and wakes the Worker, behind the run's window. |
| `Forwarding.InputOutlivesTheWorker` | src/goal/messages.py:200-218 | Over whole runs: in the first state in which that run no longer holds its lease, and whose goal is active and does not wait, either another Worker run has been leased for the message or the next refresh makes the Worker ready with the message in its window. |
| `Forwarding.ForwardedInputIsRead` | src/goal/messages.py:200-218 | Over whole runs: in every later state in which nobody runs the Worker, another Worker run has read the message, or the next refresh makes the Worker ready for it. |
| `Forwarding.DeferralHolds` | src/goal/messages.py:177-183 | Input put off for a Worker does not wake the GoalManager, neither while the Worker runs nor after, unless it ended a wait. |
| `Runtime.DispatchStore.FindActiveWorker` | src/goal/messages.py:223-235 | Finds a Worker run of the Session that holds its lease, if and only if there is one. |
| `Runtime.DispatchStore.DeclareOutcome` | src/goal/sessions.py:1276-1377 | A declaration is accepted exactly under the conditions of its kind, once per run. |
| `Operations.DeclarationIsExact` | src/goal/sessions.py:1276-1414 | A declaration is accepted exactly from an acquired GoalManager run that has not decided, for completion and incompletion only while the body is the one seen and everything behind the window is the run's own, for a wait only for a time to come, a named event or a known child; a wait looks from the end of the log on. |
| `Runtime.DispatchStore.RecordRecoverySignals` | src/goal/log.py:280-374 | The loops compute the recovered state: each acquired run interrupted, its readiness handed back or given up, each resumable Session signalled for its interrupted roles. |
| `Runtime.DispatchStore.Initialize` | src/goal/store.py:80-93 | Startup replays every log and refreshes, as the protocol's step says. |
| `Runtime.DispatchStore.EnsureDefaults` | src/goal/store.py:249-264 | The graph repair of a load is a protocol step; it raises exactly when the owner half does, and otherwise the root reaches every Session. |
| `Runtime.DispatchStore.RunScheduledUnits` | src/goal/sessions.py:296-394 | Starts one Session for each active due Unit that is not refused, in order, and clears exactly their next run times; it breaks and saves nothing if and only if such a Unit has its singleton Session already. |
| `Operations.StartedSessionIsReady` | src/goal/sessions.py:744-825 | A Session is started exactly under known parents, for a Unit that is on and, if scheduled, when its run is due; it is active with an open goal, uses up the next run time, and the next refresh makes its GoalManager ready for its whole log. |
| `Operations.ActivatedSessionIsReady` | src/goal/sessions.py:827-898 | Switching a singleton on opens its goal, keeps its wait, and makes its GoalManager ready at the next refresh unless that wait holds. |
| `DispatchLimits.DueSingletonBlocksTheSchedule` | src/goal/sessions.py:296-394 | Two due Units, the first with its singleton Session: the pass fails and starts no Session for either. |
| `Runtime.DispatchStore.LivenessSnapshot` | src/goal/query.py:83-157 | The audit reports exactly the audited Sessions, the gaps, the orphaned readiness and the expired runs. |
| `Liveness.AuditMeans` | src/goal/query.py:83-157 | A gap is an active Session with an incomplete goal whose Unit is not switched off and that neither waits nor has a ready role nor a run whose lease is younger than 660 seconds; an orphan is an acquired readiness that no such run holds. |
| `Frames.BigEndianRoundTrip` | src/kernel/storage.py:428-438 | A header field decodes to the number encoded. |
| `Frames.BigEndianByte` | src/kernel/storage.py:20 | Byte i of a header field is n / 256^(width - 1 - i) mod 256: most significant byte first. |
| `Frames.FrameLayout` | src/kernel/storage.py:428-438 | The magic lies in bytes 0-7 of a frame, the payload's length in 8-15, its checksum in 16-19, the payload behind. |
| `Frames.DecodesExactlyFrames` | src/kernel/storage.py:391-426 | The decoder accepts exactly the bytes that begin with the magic, a length of at most 16 MiB, the checksum of the payload and a payload that is a record. |
| `Frames.FrameDecodes` | src/kernel/storage.py:428-438 | An encoded frame decodes to its record and length, whatever follows. |
| `Frames.TornFrameFails` | src/kernel/storage.py:391-426 | A frame cut anywhere does not decode. |
| `Frames.ScanSegment` | src/kernel/storage.py:391-426 | The scan loop returns the longest run of valid frames and where it ends, and truncates there when recovering. |
| `Frames.WholeFramesIsLargest` | src/kernel/storage.py:391-426 | The count of whole frames is the largest that fits into the bytes that survived. |
| `Frames.CutAppendScans` | src/kernel/storage.py:179-196 | After a cut append a scan yields the old records and exactly the whole new ones. |
| `SegmentStore.CrashRecovery` | src/kernel/storage.py:355-389 | If a batch is cut at any byte, with or without a new segment, recovery yields the old entries and the whole new frames, truncates the rest, and a second recovery changes nothing. |
| `SegmentStore.AppendedIndex` | src/kernel/storage.py:197-225 | The index edited in place equals the index of the files after the append, rotation included. |
| `SegmentStore.AppendGoesTo` | src/kernel/storage.py:179-196 | A batch opens a new file, named by its first number, exactly when there is none or the last one is not empty and would exceed 64 MiB; otherwise it extends the last file. |
| `SessionStorage.SessionLog.Build` | src/kernel/storage.py:355-389 | Rebuilding fails exactly on torn or out-of-sequence files and otherwise returns the index of what the files hold. |
| `SessionStorage.SessionLog.Recover` | src/kernel/storage.py:339-353 | The stored index is trusted only under the size check, and rebuilt otherwise. |
| `SessionStorage.SessionLog.RecoverAtStartup` | src/kernel/storage.py:244-254 | Startup recovery reaches a log if and only if its index exists; any other keeps its torn segment and stays without an index. |
| `SessionStorage.SessionLog.Append` | src/kernel/storage.py:160-225 | Appends exactly the entries beyond what is on disk, indexed or not, or nothing when they do not continue the sequence or cannot be encoded; index and files keep agreeing. |
| `SessionStorage.SessionLog.Read` | src/kernel/storage.py:129-152 | An index-pruned ranged read, and one without an index, equals filtering the whole log by sequence. |
| `SessionStorage.RangeIsSlice` | src/kernel/storage.py:129-152 | A range of a log is the slice of it between the two numbers. |
| `SessionStorage.FastPathAfterCrash` | src/kernel/storage.py:339-350 | After a torn append the size check of the next append agrees with a rebuild if and only if no new segment was opened. |
| `StorageLimits.RotationIsMissed` | src/kernel/storage.py:339-350 | Concrete segments and a batch after whose interrupted rotation the fast check returns a wrong index. |
| `Migration.WriteAll` | src/kernel/storage.py:710-764 | The bulk writer splits any list of records in order, closes a segment only when the next frame would overfill it, exceeds the limit only for a single record, and writes the index a rebuild would compute. |
| `Migration.MigratedLogReadsBack` | src/kernel/storage.py:704-764 | What the bulk writer wrote reads back whole if and only if every record is encodable. |
| `StorageLimits.OversizedRecordIsLost` | src/kernel/storage.py:724-741 | A concrete record that the bulk writer takes and no read gives back. |
| `LogViews.OperationLog.Append` | src/kernel/session_log.py:43-78 | A new entry gets the number after the last one the index or the loaded entries have, and a key among the loaded entries makes it a no-op. |
| `LogViews.OperationLog.Entries` | src/kernel/session_log.py:20-33 | The merged view is the persisted log followed by the pending entries, and over a log without an index the entries take the places of the ones on disk. |
| `LogViews.OperationLog.After` | src/kernel/session_log.py:90-106 | Cached or not, a read after a cursor equals filtering the view. |
| `LogViews.OperationLog.Save` | src/kernel/storage.py:107-127 | Saving never raises a sequence mismatch; it writes everything appended where numbers continue the log, and over a log without an index only the entries beyond what is on disk. |
| `LogViews.OperationLog.SaveKeepsEverything` | src/kernel/session_log.py:62-63 | A save over entries appended before the log was read keeps them all if and only if the log has an index or is empty. |
| `StorageLimits.FirstAppendCut` | src/kernel/storage.py:179-225 | However many bytes of a first append survive, they leave a log without an index that holds the whole frames. |
| `StorageLimits.FirstEntryIsLost` | src/kernel/storage.py:160-166 | A concrete record on disk without an index, over which the next save writes nothing. |
| `LogViews.OperationLog.ViewIsGapFree` | src/kernel/session_log.py:43-78 | The view is gap-free from 1 if and only if the log was read, has an index or is empty, or nothing was appended. |
| `SessionGraph.HasPath` | src/goal/sessions.py:1526-1542 | The depth-first search terminates and answers exactly reachability. |
| `SessionGraph.Link` | src/goal/sessions.py:1493-1524 | Linking refuses exactly the unknown, self and cycle-making edges and keeps the graph acyclic. |
| `SessionGraph.AcyclicWithNewEdge` | src/goal/sessions.py:1514-1515 | An edge keeps an acyclic graph acyclic if and only if its child does not reach its parent. |
| `SessionGraph.EnsureOwnerParents` | src/goal/store.py:330-366 | Owned Sessions end up under their owner's home and not under the root, and the graph stays acyclic; it raises exactly when at some turn the home is unknown or its missing edge would close a cycle. |
| `SessionGraph.RehomeEdges` | src/goal/store.py:330-366 | After any number of turns exactly the home edges have come and the root edges of owned Sessions have gone. |
| `SessionGraph.RepairRoot` | src/goal/store.py:253-264 | Afterwards the root reaches every Session; the graph stays acyclic if and only if no other Session reached the root. |
| `SessionGraph.NothingReachesAnOpenRoot` | src/goal/store.py:253-264 | With no edge into the root nothing else reaches it. |
| `GraphSteps.StepKeepsAcyclic` | src/goal/store.py:249-264 | Every step from any state with the invariant keeps the graph acyclic, except a repair after whose owner half another Session reaches the root, which never does. |
| `GraphSteps.StepEdges` | src/goal/sessions.py:1493-1524 | Which edges each step makes: a new Session comes under exactly the parents named or the root, a singleton under the known ones, a link makes one edge, a repair brings the home edges, drops the root edges of owned Sessions and puts what is then unreached under the root; no other step changes the graph. |
| `GraphSteps.LinkedUnderIsExact` | src/goal/sessions.py:860-862 | Activating a singleton raises exactly when a parent that it would get is reached from it. |
| `GraphSteps.AlwaysRooted` | src/goal/sessions.py:1493-1524 | In every run from a store in which the root reaches everything and no edge enters it, as in one that holds only the root (`GraphSteps.OnlyTheRoot`), this stays so and the graph never gets a cycle. |
| `GraphSteps.NoRepairClosesCycle` | src/goal/store.py:249-264 | In such a run the exception never occurs. |
| `SessionGraph.Distances` | src/goal/query.py:393-404 | The worklist terminates on any graph, covers exactly the reachable Sessions and gives shortest lengths. |
| `Schedule.NextIntervalBoundary` | src/goal/schedules.py:36-52 | The boundary loop reaches its closed form. |
| `Schedule.BoundaryIsLeast` | src/goal/schedules.py:36-52 | The closed form is the least anchor + k * interval, k >= 0, after the completion. |
| `Schedule.ResolveNextRun` | src/goal/sessions.py:1030-1075 | The resolver with its boundary loop: an explicit schedule answers exactly a given later time, an interval schedule the least anchor + k * interval after the completion if and only if the interval is positive and the anchor supplied, an unknown resolver nothing. |
| `Schedule.ResolveIsExact` | src/goal/schedules.py:14-52 | An explicit schedule resolves exactly to a later time given in the call; an interval schedule exactly when the interval is positive and the named anchor supplied, to the least boundary after the completion; an unknown resolver never does. |
| `Schedule.GateIsExact` | src/goal/dispatch.py:541-577 | A completion passes untouched without an enabled schedule or with an explicit next run still to come; any other needs an answer of the resolver and is blocked without one. |

## Left out

- Goal ids, archived goals and several goals per Session: nothing in `src/` archives a goal, so each Session
  has at most one and the model keeps it inside the Session.
- String ids: list positions stand for them and for their order; `_rename_session_id` is not modelled.
- The fence branch for another role and `_recover_missing_lease_run_locked`: runs are never deleted and are
  committed under their own role, so neither can be reached.
- `Schedule.ResolveNextRun`: the values of `scheduled_for`, `queued_at` and `started_at` are parameters, times
  are whole seconds, and timestamp syntax errors are not modelled.
- `Runtime.DispatchStore.RunScheduledUnits`: launch refusals for spawn groups, triggers and duplicate ids, and
  which Units have their singleton Session, are parameters.
- `Runtime.DispatchStore.AcquireDispatchLease`: the choice of the agent account is a parameter; agent threads,
  prompts and delivery marks are not modelled.
- `Runtime.DispatchStore.CommitGoalManagerRun`: the parents hear of a completion after the run is released
  rather than just before, within the same atomic section; the result is the same.
- `Runtime.DispatchStore.DeclareOutcome`: the authorisation of the caller is assumed.
- `LogViews.OperationLog.Append`: keys are compared as the code does; that two different events never share
  one, although keys resolve to one second, is not claimed.
- `SessionStorage.SessionLog.Append`: an indexed log is taken to have been recovered after a crash; the fast check
  alone misses an interrupted rotation, as stated above.
- `Behaviours.AlwaysInv`: runs have no crash step, since a crash can leave a goal complete without the run that
  reviewed it; what holds after one is `LogAuthority.CrashKeepsLeases` and `LogAuthority.RestartIsHeard`.
- `Behaviours.NoIgnoredInput`: whole runs without crashes; what a crash between two Sessions' appends can lose
  is stated in `LogAuthority`.
- `Replay.ReplaySession`: reasons, time stamps and the derived `current_state` are not modelled.
- JSON and CRC-32: a lawful codec and an uninterpreted checksum.
- User input comes from a person, never from a service account, so forwarded input is no Worker's report.
- Changing a Session's or Unit's activity, its policy or goal body, creating it empty, switching a singleton on,
  or posting a message: steps of the protocol, but without an in-place method, since each is a few assignments.
- Endpoint receive cursors, agents and providers, prompts, the command line, users, groups and passwords,
  workspaces, and the installation of migrated directories.
