# Verified model of the el-pulpo-ai task queue

El-pulpo-ai is a task queue: a *mastermind* keeps a `tasks` table in Postgres, workers claim tasks
from it under leases they must keep refreshing, a reaper takes back leases that have gone stale, and
operators create, edit, requeue, park, finalise and delete tasks. Each worker is a small process that
shares one claimed task between concurrent calls of a coding agent. This project models both sides in
Dafny and proves what holds over every run and every interleaving.

| file | contents |
|---|---|
| `Tasks.dfy`, `Machine.dfy` | a row and what each SQL statement writes to it; the store as a state machine: events, the guard and the effect of each, runs |
| `Store.dfy`, `Transitions.dfy` | the store as a class over a mutable table, one method per store function, each proved to be one event of the machine; the table of source states |
| `Columns.dfy`, `Queue.dfy` | the table column by column, told from the history; which task a claim takes, when a task is due, which calls are accepted |
| `Invariants.dfy`, `Leases.dfy`, `Budget.dfy`, `Reaping.dfy`, `Counters.dfy` | theorems over whole runs: columns, ownership, who can end a lease, attempts, settling, backoff, the reaper, metrics and conservation |
| `SplitLog.dfy`, `SkipLocked.dfy` | the two statements that are not atomic: the three-statement log append, and lock-then-commit claims |
| `Dashboard.dfy`, `Views.dfy`, `Workers.dfy` | the in-place sort and the order of claims; log tails, who holds what, current task; the workers list against the table and against history |
| `Worker.dfy`, `Interleavings.dfy`, `Holder.dfy` | one worker: handles, heartbeats and calls cut at every lock and RPC; theorems over all interleavings; the shared state as a class |
| `Fleet.dfy`, `Calls.dfy`, `Wedging.dfy` | any number of workers and one store over a network that delays and loses messages; what a call does from the agent to the row; when a worker gets stuck for good |
| `IssueRefs.dfy` | the two URL expressions, a scanner for them, and the short forms |

Time is a clock in microseconds that only moves forward and is a parameter. New ids are parameters too
and are never reused, as UUIDs. Payload validation is a boolean input. A single SQL statement is one
atomic step; database errors do not occur.

## Where the code differs from what is written about it

- The source-state table says `complete` and `fail` are allowed from `in_progress` only, and that every
  store method must consult the table. `ReportResult` does not consult it and also accepts `claimed`.
  `ReportIgnoresTableIff` gives the exact difference.
- `AppendTaskLog` says a stolen claim cannot go on writing. It can: `StolenClaimStillWrites` is a run in
  which it does, `LineLandsInOwnLeaseIff` says exactly when a line lands under the claim that was checked.
- The refresh in `AppendTaskLog` writes the time its transaction *began*, so it can move a lease
  backwards. `LateCommitLosesLease` is a run in which a holder loses a lease it had refreshed one second
  earlier; `RefreshUndoneIff` says exactly when that happens in any run, and the two `CommitKeeps...Iff`
  lemmas when the row's columns and times stay consistent.
- The worker's package comment says finalising leaves the worker idle. When the store serves the request,
  it does if and only if the caller still waits for the answer and the store's guard holds
  (`IdleAgainIffAccepted`). In particular `open_pr` needs `in_progress`: called on a task that is still
  `claimed`, before the first heartbeat, note or log line, it is refused and leaves the worker stuck with
  that task for good, no message lost and the lease intact (`EarlyOpenPRWedges`).
- A comment in `dashboard.go` says one claim per worker is enforced at claim time. The store does not
  enforce it: `TwoTasksAtOnce` is a run in which a worker holds two tasks, `OneTaskPerWorkerIff` says what
  it depends on.
- Comments say the workers list has every owner ever seen, and an agent page exists for whoever has ever
  claimed a task, with log lines of all tasks it ever claimed. All of these read the present `claimed_by`,
  which a retry, a pull request, a requeue or a delete takes away: `ListedIff` gives the exact condition,
  `ForgottenWorker` a worker that is in no list.
- `UpdateTask` may set a maximum at or below the attempts already made; `BudgetKeptIff` says exactly when
  the attempt budget survives edits.
- `tasks_completed_total` counts only tasks that complete straight from active work
  (`CountersAreTransitions`); tasks finalised out of parking are in no counter.
- The design text says a retry increments `attempt_count`; the code increments it on claim.

## Model

| member | source | states |
|---|---|---|
| `Store.FailAttempt` | internal/mastermind/store/lifecycle.go:89-110 | the CASE expressions shared by report and reap: with attempts left, back to pending, due in 30 seconds per attempt made, unowned; else failed with schedule and claim columns kept; the error is the one given |
| `Store.ReapRow` | internal/mastermind/store/lifecycle.go:139-162 | one row under the reaper's UPDATE: matched exactly if stale, then failed, else untouched |
| `Store.CountReturned` | internal/mastermind/store/lifecycle.go:170-181 | the counting loop: failed is the number of returned rows now failed, and the two counts add up to all of them |
| `Store.Store.constructor` | migrations/000001_create_tasks.up.sql:7-23 | a new store is the empty table with an empty history |
| `Store.Store.Advance` | internal/mastermind/store/claim.go:17-20 | now() only moves forward, and moving it is an event of the run |
| `Store.Store.CreateTask` | internal/mastermind/store/tasks.go:106-123 | accepted exactly on a valid payload; then the history grows by the create event and the row holds what the caller gave, pending, with no attempts made and 3 allowed unless more or fewer are asked for; else nothing changes |
| `Store.Store.ClaimTask` | internal/mastermind/store/claim.go:12-41 | hands out a due row, of the highest priority among the due ones and the oldest of that priority, as one claim event; answers nothing and writes nothing exactly when no row is due |
| `Store.Store.Heartbeat` | internal/mastermind/store/lifecycle.go:14-29 | accepted exactly from the owner of an active row, as one heartbeat event; else ErrNotOwner and no change |
| `Store.Store.UpdateProgress` | internal/mastermind/store/lifecycle.go:35-55 | the same for a progress note, an empty note clearing it |
| `Store.Store.AppendTaskLog` | internal/mastermind/store/logs.go:27-76 | run in one piece: not found, not owner, or one log line with the next id and a refreshed lease |
| `Store.Store.SetJiraURL` | internal/mastermind/store/jira.go:13-33 | accepted exactly from the owner in the states the table lists; refreshes the lease without moving the status |
| `Store.Store.OpenPR` | internal/mastermind/store/open_pr.go:17-39 | refuses an empty URL, else parks exactly an owned in_progress row and releases its claim |
| `Store.Store.ReportResult` | internal/mastermind/store/lifecycle.go:65-121 | accepted exactly from the owner; completes, or puts back with the retry time and the error, or fails; the terminal flag is true exactly when the row is now failed |
| `Store.Store.SweepStale` | internal/mastermind/store/lifecycle.go:137-163 | the bulk UPDATE returns exactly the stale rows and fails the attempt of each, no other row touched |
| `Store.Store.ReapStale` | internal/mastermind/store/lifecycle.go:133-186 | is one reap event; the counts are the numbers of stale rows with and without attempts left; nothing stale remains |
| `Store.Store.CountPending` | internal/mastermind/store/lifecycle.go:189-193 | counts exactly the pending rows |
| `Store.Store.RequestReview` | internal/mastermind/store/finalize.go:17-35 | accepted exactly from pr_opened; the two refusals told apart |
| `Store.Store.FinalizeTask` | internal/mastermind/store/finalize.go:40-72 | accepted exactly from the two parked states, always terminal |
| `Store.Store.UpdateTask` | internal/mastermind/store/tasks.go:221-245 | accepted exactly while pending |
| `Store.Store.UpdateTaskLinks` | internal/mastermind/store/tasks.go:253-268 | accepted in every status |
| `Store.Store.DeleteTask` | internal/mastermind/store/tasks.go:270-285 | accepted exactly from pending, completed or failed, and takes the log lines with it |
| `Store.Store.RequeueTask` | internal/mastermind/store/tasks.go:287-311 | accepted exactly from pending, completed or failed; a fresh budget and no schedule |
| `Transitions.AllowedFromStrings` | internal/mastermind/store/transitions.go:38-48 | the bound list matches a status exactly if the table lists it for the key; an unknown key matches nothing |
| `Transitions.ConsultedEntriesAreTheGuards` | internal/mastermind/store/transitions.go:25-33 | the statements that consult the table, and requeue, accept from exactly the states it lists |
| `Transitions.ReportIgnoresTableIff` | internal/mastermind/store/transitions.go:28-29 | ReportResult differs from the complete and fail entries on an owned row if and only if the row is claimed |
| `Invariants.ReachableInv` | internal/mastermind/store/lifecycle.go:65-163 | every reachable table: claim columns null together, owner, completion, error and attempts agree with the status, timestamps ordered and not in the future, log ids increasing and pointing at live rows |
| `Invariants.OwnerByStatus` | internal/mastermind/store/claim.go:15-21 | in every reachable row the three claim columns are set when active, null when pending or parked, and completed_at is set exactly when completed |
| `Columns.StepOnColumn` | internal/mastermind/store/tasks.go:221-302 | column by column, what each accepted call writes to a row and that it writes nothing else |
| `Columns.ColumnsAreHistory` | migrations/000001_create_tasks.up.sql:7-23 | at every point of every run each of the seventeen columns of each row holds what the last accepted call that writes it wrote |
| `Queue.ClaimTakesBest` | internal/mastermind/store/claim.go:22-29 | an accepted claim takes a due task, of the highest priority among the due ones and the oldest of that priority |
| `Queue.ClaimPossibleIff` | internal/mastermind/store/claim.go:22-29 | a claim is accepted if and only if some task is due |
| `Queue.RetryWaitsExactly` | internal/mastermind/store/lifecycle.go:93-96 | after a reported or reaped failure with attempts left an undisturbed task is due from 30 seconds per attempt made onwards, and not before |
| `Queue.LastFailureEndsTask` | internal/mastermind/store/lifecycle.go:89-106 | a failure with no attempts left fails the task with the message and leaves schedule and claim columns alone |
| `Queue.NeverClaimedEarly` | internal/mastermind/store/tasks.go:114-122 | a task created for later is never claimed before its time unless it is edited or requeued |
| `Queue.InProgressIff` | internal/mastermind/store/lifecycle.go:14-20 | a held task is in progress exactly when its holder has sent a heartbeat, note or log line in this hold |
| `Queue.HolderCallAcceptedIff` | internal/mastermind/store/lifecycle.go:73-73 | a worker's call is accepted if and only if the running hold of the task is that worker's, and for open_pr if it has also begun and gives a URL |
| `Queue.OperatorCallAcceptedIff` | internal/mastermind/store/tasks.go:224-301 | which statuses each operator call accepts |
| `Leases.HeldSinceMeans` | internal/mastermind/store/claim.go:14-30 | the history's notion of a running hold: a claim with no later claim or release |
| `Leases.LeaseIsHistory` | internal/mastermind/store/claim.go:14-30 | a row is active if and only if a claim of it is still held, and its owner, claim time and attempt number are that claim's |
| `Leases.HolderCallsFollowClaim` | internal/mastermind/store/lifecycle.go:20-20 | every accepted heartbeat, progress, log, jira, open-PR or report follows a claim of that task by that worker with no claim or release in between |
| `Leases.ClaimsAlternateWithReleases` | internal/mastermind/store/claim.go:22-29 | a claim is accepted only when nothing is held, a release happens only when something is |
| `Leases.OneReleaseBetweenClaims` | internal/mastermind/store/claim.go:22-29 | between two successive claims of a task there is exactly one release |
| `Leases.LeaseSurvives` | internal/mastermind/store/tasks.go:232-301 | through any events a held task keeps owner, claim, attempts, budget and payload until its holder gives it up or the reaper takes it |
| `Leases.OthersOnlyRelink` | internal/mastermind/store/tasks.go:256-262 | a step by anyone but holder and reaper changes at most the two links of a held row, and only UpdateTaskLinks does |
| `Leases.ParkedUntilFinalized` | internal/mastermind/store/finalize.go:37-61 | through any events a parked task stays parked until it is finalised |
| `Leases.HeartbeatIsLastRefresh` | internal/mastermind/store/lifecycle.go:15-20 | the heartbeat column of a held task is the time of its last accepted refreshing call |
| `Leases.ReapedIffUnrefreshed` | internal/mastermind/store/lifecycle.go:161-162 | a reap takes exactly the held tasks all of whose refreshing calls are older than the window |
| `Leases.RefreshingHolderIsNeverReaped` | internal/mastermind/store/lifecycle.go:130-132 | a holder that refreshed within every reap's window keeps its claim through any run |
| `Leases.NoteIsFromThisHold` | internal/mastermind/store/claim.go:19-19 | a progress note on a held task was written by the present holder during the present hold |
| `Budget.ClaimsWithinBudget` | internal/mastermind/store/lifecycle.go:89-104 | without edit or requeue the claims accepted are bounded by the budget left and counted exactly by attempt_count |
| `Budget.BudgetKeptIff` | internal/mastermind/store/tasks.go:221-235 | over a whole run a task meets its budget at every moment (pending ones have an attempt left, none exceeds its maximum, one failed under a claim has used all) if and only if every accepted edit of it set a maximum above the attempts made by then |
| `Budget.TasksSettle` | internal/mastermind/store/lifecycle.go:84-113 | status changes are paid for by a rank that only an operator's edit or requeue can raise |
| `Budget.PendingTasksSettle` | internal/mastermind/store/finalize.go:37-61 | from pending with count c and maximum m at most 3*max(1,m-c)+2 status changes and max(1,m-c) claims, however long the run |
| `Budget.QuadraticBackoff` | internal/mastermind/store/lifecycle.go:93-96 | the n-th claim of an undisturbed stretch comes at least 15*n*(n-1) seconds after the first, through reported and reaped failures alike |
| `Reaping.ReportingExpires` | internal/mastermind/store/lifecycle.go:87-112 | reporting a list of held tasks failed, one by one, is accepted throughout and comes to failing them all at once |
| `Reaping.ReapIsOneByOne` | internal/mastermind/store/lifecycle.go:137-163 | the bulk reap equals reporting the stale tasks failed with "lease expired" one at a time in any order |
| `Reaping.ReapIsComplete` | internal/mastermind/store/lifecycle.go:130-163 | after a reap nothing stale is left and a second one changes nothing |
| `Reaping.ReapCounts` | internal/mastermind/store/lifecycle.go:123-128 | the two counts are exactly the growth of the pending and the failed rows |
| `Counters.CountersAreTransitions` | internal/mastermind/grpcserver/server.go:121-137 | at every point of every run completed equals the active-to-completed transitions, failed equals active-to-failed, reported and reaped each its own, and exits from parking equal the accepted finalisations, uncounted |
| `Counters.ClaimsAndReapsAreCounted` | internal/mastermind/reaper/reaper.go:33-45 | claimed equals the rows that went from the queue to a worker, reaped the rows the reaper took out of active work |
| `Counters.TasksAreConserved` | internal/mastermind/store/tasks.go:106-123 | creations minus deletions is the sum of the seven status counts |
| `Counters.RowsAreCreatedMinusDeleted` | internal/mastermind/store/tasks.go:270-274 | the number of rows is creations minus deletions |
| `Counters.Mastermind.constructor` | internal/mastermind/grpcserver/server.go:23-23 | a new service starts over the empty table with its counters right |
| `Counters.Mastermind.PassedOn` | internal/mastermind/grpcserver/server.go:48-101 | a handler that passes an uncounted call on keeps the counters right without touching them |
| `Counters.Mastermind.CreateTask` | internal/mastermind/grpcserver/admin.go:28-77 | creates exactly on a valid payload and moves no counter |
| `Counters.Mastermind.ClaimTask` | internal/mastermind/grpcserver/server.go:25-46 | keeps the counters equal to what the history says; success and empty counted apart |
| `Counters.Mastermind.ReportResult` | internal/mastermind/grpcserver/server.go:103-139 | keeps the counters right; exactly one moves, and only if the task is now completed or failed |
| `Counters.Mastermind.ReaperTick` | internal/mastermind/reaper/reaper.go:33-45 | one tick keeps the reaped and failed counters right |
| `Counters.Mastermind.FinalizeTask` | internal/mastermind/grpcserver/admin.go:253-285 | an operator's finalise moves no outcome counter |
| `SplitLog.SplitReachableInv` | internal/mastermind/store/logs.go:30-75 | with the three statements interleaved with anything the forward row invariants hold throughout, and an inserted line still has its task |
| `SplitLog.SplitLeaseSurvives` | internal/mastermind/store/logs.go:62-68 | log transactions never end or move a hold |
| `SplitLog.LineLandsInOwnLeaseIff` | internal/mastermind/store/logs.go:38-68 | a line lands under the very claim that was checked if and only if its writer owns the task at the commit and nobody has claimed it since the check; either way the line, with the message given, is appended and the row refreshed |
| `SplitLog.CommitOnlyStamps` | internal/mastermind/store/logs.go:62-68 | the unguarded update writes a stamp and claimed to in_progress on one row, nothing else |
| `SplitLog.CommitKeepsColumnsIff` | internal/mastermind/store/logs.go:62-68 | it keeps the claim columns consistent if and only if the row has an owner at that moment |
| `SplitLog.CommitKeepsTimesIff` | internal/mastermind/store/logs.go:62-68 | on a held row it keeps the timestamps ordered if and only if the transaction began no earlier than the claim |
| `SplitLog.HeartbeatIsLastStamp` | internal/mastermind/store/logs.go:62-68 | over every split run the heartbeat of a held task is what its last stamp wrote: now for a refreshing call, the time the transaction began for a log commit |
| `SplitLog.SplitReapedIff` | internal/mastermind/store/lifecycle.go:161-162 | over every split run a reap takes exactly the held tasks whose last stamp is from before the window |
| `SplitLog.RefreshUndoneIff` | internal/mastermind/store/logs.go:62-68 | a holder that refreshed inside the window loses its lease to the reap if and only if the last stamp since is the commit of a log transaction begun before the window |
| `SplitLog.LateCommitLosesLease` | internal/mastermind/store/logs.go:64-66 | a run in which a late commit undoes a heartbeat and the lease is lost |
| `SplitLog.StolenClaimStillWrites` | internal/mastermind/store/logs.go:20-23 | a run in which a reaped worker's line is still appended and moves the new holder's row |
| `SkipLocked.LocksAreBestFirst` | internal/mastermind/store/claim.go:22-29 | overlapping claims take distinct rows, highest priority first and oldest first within a priority, by the table as it stood when they began |
| `SkipLocked.LocksAreAllFree` | internal/mastermind/store/claim.go:22-29 | once nothing is left to claim, the rows they took are exactly the eligible ones nobody had locked before |
| `SkipLocked.LockIsClaim` | internal/mastermind/store/claim.go:22-29 | taking the lock is the atomic best-first claim |
| `SkipLocked.CallIsItself` | internal/mastermind/store/claim.go:14-29 | every other statement is the same event with claims in flight |
| `SkipLocked.ReapIsItselfIff` | internal/mastermind/store/lifecycle.go:161-162 | a reap is too, if and only if no claim in flight is older than its window |
| `SkipLocked.LockingIsAtomic` | internal/mastermind/store/claim.go:10-30 | every run of lock-then-commit claims is a run of atomic claims in lock order ending in the same table |
| `Dashboard.SinkInto` | internal/mastermind/store/dashboard.go:130-134 | the inner loop puts item i where insertion puts it and leaves the rest |
| `Dashboard.SortQueue` | internal/mastermind/store/dashboard.go:127-136 | the in-place sort is the functional insertion sort |
| `Dashboard.SortedIsStablePermutation` | internal/mastermind/store/dashboard.go:127-143 | which has the highest priority first and the oldest first within a priority, is a permutation, and stable for every (priority, created_at) |
| `Dashboard.Query` | internal/mastermind/store/tasks.go:163-164 | lists exactly the rows that match the filter, once each, newest first |
| `Dashboard.PageOnIndices` | internal/mastermind/store/tasks.go:146-148 | a page starts offset rows down and is as long as the limit allows, 50 if that is not positive or over 500 |
| `Dashboard.ListTasks` | internal/mastermind/store/tasks.go:145-190 | the page is the clamped limit and offset of a listing of the matching rows; the total, counted separately, is the length of that listing |
| `Dashboard.DashboardQueue` | internal/mastermind/store/dashboard.go:40-48 | the board is the sorted copy of the first 200 of a listing of the pending rows |
| `Dashboard.DrainsInOrder` | internal/mastermind/store/claim.go:22-29 | claims at a standstill hand out exactly the eligible rows, once each, highest priority first and oldest first within a priority |
| `Dashboard.OrderIsUnique` | internal/mastermind/store/dashboard.go:138-143 | distinct items have one ordered arrangement |
| `Dashboard.BoardShowsClaimOrder` | internal/mastermind/store/dashboard.go:41-48 | with at most 200 pending tasks, no two claimable ones of one priority created at the same time, the claimable tasks on the board stand in the order claims hand them out |
| `Dashboard.MissingFromBoardIff` | internal/mastermind/store/dashboard.go:41-41 | a pending task, no other pending one created at the same time, is missing from the board if and only if at least 200 pending ones are newer |
| `Views.ReverseInPlace` | internal/mastermind/store/dashboard.go:172-174 | the in-place reversal reverses |
| `Views.RecentTaskLogs` | internal/mastermind/store/dashboard.go:148-176 | newest first, limited and turned round is the last n lines of the task's full log in order |
| `Views.LimitedLog` | internal/mastermind/store/logs.go:78-89 | a positive limit keeps the first lines of a log, any other keeps all |
| `Views.NewestFirst` | internal/mastermind/store/agent_detail.go:172-179 | the limited query, turned round, is the end of the log lines of the tasks in question |
| `Views.WorkerLogTail` | internal/mastermind/store/agent_detail.go:171-201 | the last n lines of all the tasks whose row names the worker now, in order |
| `Views.WorkerTailShowsTaskTails` | internal/mastermind/store/agent_detail.go:168-170 | what the worker's tail shows of one task is the end of that task's own full log |
| `Views.LogIsHistory` | internal/mastermind/store/logs.go:81-106 | while a task exists its full log is exactly the messages its holders appended, in order |
| `Workers.ListWorkers` | internal/mastermind/store/workers.go:28-55 | one pass over the table yields a line for exactly the owners there are, each with the counts and the last-seen time of the rows that name it |
| `Workers.GetWorkerInfo` | internal/mastermind/store/agent_detail.go:91-111 | the query for one worker sums up exactly its rows, and finds nothing if and only if there are none |
| `Workers.InfoIsItsLine` | internal/mastermind/store/agent_detail.go:89-90 | the agent page's line is the list's line for that worker, or neither has one |
| `Workers.LineOnStatuses` | internal/mastermind/store/workers.go:32-34 | a line counts the owner's rows that are claimed or in progress, completed, and failed |
| `Workers.WorkerCountsAddUp` | internal/mastermind/store/workers.go:29-40 | in every reachable table each column adds up to the rows of its kind under an owner, the active column to all active rows |
| `Workers.LastSeenIsHeartbeat` | internal/mastermind/store/workers.go:35-35 | in every reachable table the last-seen time is the latest heartbeat of the worker's rows; the fallbacks are never taken |
| `Workers.OwnerIsHistory` | internal/mastermind/store/lifecycle.go:97-104 | a row names a worker if and only if a claim of it by that worker has not been disowned since |
| `Workers.ListedIff` | internal/mastermind/store/workers.go:8-11 | a worker is listed if and only if one of its claims has not been disowned since |
| `Workers.ForgottenWorker` | internal/mastermind/store/agent_detail.go:11-14 | a run in which a worker has claimed a task and is in no list |
| `Views.OneTaskPerWorkerIff` | internal/mastermind/store/dashboard.go:94-97 | a worker never holds two tasks if and only if it never has a claim accepted while holding one |
| `Views.TwoTasksAtOnce` | internal/mastermind/store/claim.go:22-29 | a run in which one worker holds two tasks |
| `Views.ActiveTasksByWorker` | internal/mastermind/store/dashboard.go:98-125 | the map has exactly the workers with active tasks, each with a task it claimed last |
| `Views.CurrentIsUnique` | internal/mastermind/store/agent_detail.go:113-130 | with distinct claim times the dashboard's and the agent page's current task are the same row |
| `Worker.StepKeepsInv` | internal/worker/mcpserver/state.go:71-224 | every step of any call or heartbeat keeps the worker invariant |
| `Worker.StepKeepsPens` | internal/worker/taskclient/taskclient.go:248-259 | at most one call drives a handle from claim or markFinalized to its end |
| `Interleavings.ReachableInv` | internal/worker/mcpserver/state.go:71-224 | the worker invariant holds over every interleaving |
| `Interleavings.ClearDropsOwnTask` | internal/worker/mcpserver/state.go:142-152 | clear() removes exactly the handle its call finalised, current at every moment since, its RPC sent |
| `Interleavings.StaleHandleIsFinalized` | internal/worker/taskclient/taskclient.go:248-253 | a call whose handle is no longer current finds it finalised and changes nothing |
| `Interleavings.CurrentLeavesOnlyByClear` | internal/worker/mcpserver/state.go:80-108 | a current handle is only ever replaced by nothing, by the clear of the call that finalised it |
| `Interleavings.OneArmedHandle` | internal/worker/mcpserver/state.go:104-107 | at most one handle has a heartbeat armed, the current one |
| `Interleavings.CurrentTaskBeats` | internal/worker/taskclient/taskclient.go:200-231 | as long as the current handle is not finalised its heartbeat goroutine runs, told by nobody to stop |
| `Interleavings.AtMostOneFinalizingRPC` | internal/worker/taskclient/taskclient.go:150-190 | no handle ever sends a second finalising RPC |
| `Interleavings.NoHeartbeatAfterFinalizingRPC` | internal/worker/taskclient/taskclient.go:162-166 | the heartbeat goroutine has exited before the finalising RPC is sent and no heartbeat call starts afterwards |
| `Interleavings.NoClaimIsForgotten` | internal/worker/mcpserver/state.go:92-103 | every handle is the current one, or has had its finalising RPC sent, or a call stands ready to keep it or send it; a call that loses the claim race gives its task back |
| `Interleavings.AnswerDecides` | internal/worker/mcpserver/state.go:147-151 | inside the worker: after a success the next step clears the state; after any other answer every later claim and finalise is refused for the rest of the run |
| `Holder.Holder.Peek` | internal/worker/mcpserver/state.go:72-78 | ClaimNext's first section is one step: refused exactly when a handle is held |
| `Holder.Holder.Publish` | internal/worker/mcpserver/state.go:90-108 | its second section is one step: the first call keeps its handle and arms it, a later one hands its own to a goroutine that fails it |
| `Holder.Holder.RequireTask` | internal/worker/mcpserver/state.go:203-213 | hands out the current handle exactly if there is one and the id, when given, matches |
| `Holder.Holder.MarkFinalized` | internal/worker/taskclient/taskclient.go:248-266 | succeeds exactly once per handle, takes its heartbeat out, and says whether there is one to stop |
| `Holder.Holder.Clear` | internal/worker/mcpserver/state.go:215-224 | empties the state, always of the caller's own handle |
| `Holder.Holder.StopLock` | internal/worker/taskclient/taskclient.go:233-245 | after a clear the stop function never finds a heartbeat left to cancel |
| `Fleet.StepKeepsFleetInv` | internal/worker/taskclient/taskclient.go:46-65 | every step of workers, store and network keeps the fleet invariant |
| `Fleet.ReachableFleetInv` | cmd/worker/main.go:52-60 | the fleet invariant holds in every reachable fleet, worker ids being distinct |
| `Fleet.HeldTaskIsLeasedOrExplained` | internal/worker/mcpserver/state.go:85-108 | a worker holding an unfinalised handle has the row under its last claim, or the reaper ended that claim first, or a request of its own did, sent through another finalised handle of that task |
| `Fleet.SoleHandleLosesOnlyToReaper` | internal/worker/mcpserver/state.go:92-102 | with no second handle for the task, the worker's last claim still stands, or the first thing to end that claim was a reap |
| `Fleet.HandleEndsAtMostOneHold` | internal/worker/taskclient/taskclient.go:150-190 | each handle ends at most one hold in the store, however messages fare |
| `Fleet.GiveUpsComeFromHandles` | internal/worker/taskclient/taskclient.go:165-175 | every hold given up was given up through a finalised handle of that worker and task whose heartbeat is gone |
| `Fleet.ClearOnlyAfterAcceptance` | internal/worker/mcpserver/state.go:147-151 | a worker clears its state only for a task whose finalising call the store accepted |
| `Calls.GiveUpIsWhatWasAsked` | internal/worker/taskclient/taskclient.go:150-190 | every hold given up in the store was given up by the call an agent made on that worker, of that kind and text and on that task if it named one, or by a lost claim race; and the row changed as a call of that kind promises |
| `Calls.SuccessMeansDone` | internal/worker/mcpserver/state.go:142-194 | a call told of success has had done to the task of its handle what it promises |
| `Wedging.WedgedForGood` | internal/worker/taskclient/taskclient.go:248-253 | once the request of the current handle is gone and no success is left to be taken, the handle stays current through every continuation |
| `Wedging.IdleAgainIffAccepted` | internal/worker/mcpserver/state.go:185-194 | when a finalising request of the current handle is served, the worker can ever let go of that handle if and only if its caller still waits and the store's guard holds: owned, and for open_pr also in progress with a URL |
| `Wedging.LostRequestWedges` | internal/worker/taskclient/taskclient.go:150-160 | a lost finalising request leaves the worker stuck for good |
| `Wedging.EarlyOpenPRWedges` | internal/mastermind/store/open_pr.go:21-30 | a run with nothing lost in which open_pr on a task still claimed leaves the worker stuck, its lease intact |
| `IssueRefs.ScanPR` | internal/mastermind/issuerefs/issuerefs.go:18-18 | whatever the scanner returns is a well-formed decomposition of its input |
| `IssueRefs.ScanJira` | internal/mastermind/issuerefs/issuerefs.go:17-17 | the same for JIRA URLs |
| `IssueRefs.ScanPRFinds` | internal/mastermind/issuerefs/issuerefs.go:18-18 | scanning a built pull-request URL gives back its parts |
| `IssueRefs.ScanJiraFinds` | internal/mastermind/issuerefs/issuerefs.go:17-17 | scanning a built JIRA URL gives back its parts |
| `IssueRefs.PRMatchIsUnique` | internal/mastermind/issuerefs/issuerefs.go:39-44 | a string matches if and only if the scanner accepts it, in one way only |
| `IssueRefs.JiraMatchIsUnique` | internal/mastermind/issuerefs/issuerefs.go:21-26 | the same for JIRA URLs |
| `IssueRefs.PRShortOnText` | internal/mastermind/issuerefs/issuerefs.go:46-55 | a pull-request URL is shown as organisation, slash, repository, hash, number |
| `IssueRefs.JiraShortOnText` | internal/mastermind/issuerefs/issuerefs.go:28-37 | a JIRA URL is shown as its issue key |
| `IssueRefs.PRValidIffText` | internal/mastermind/issuerefs/issuerefs.go:18-18 | exactly the texts of the form are valid, said on their characters, and every other text is shown as it is |
| `IssueRefs.JiraValidIffText` | internal/mastermind/issuerefs/issuerefs.go:17-17 | the same for JIRA URLs |
| `IssueRefs.PRShortInjective` | internal/mastermind/issuerefs/issuerefs.go:46-55 | on valid URLs short forms agree if and only if organisation, repository and number do |
| `IssueRefs.JiraShortInjective` | internal/mastermind/issuerefs/issuerefs.go:28-37 | on valid URLs short forms agree if and only if project and number do, and no short form is a valid URL |
| `IssueRefs.ShortFormsAreFixed` | internal/mastermind/issuerefs/issuerefs.go:50-53 | shortening twice is shortening once, and the short form of a valid URL is no valid URL |

## Left out

- gRPC, HTTP, MCP and CLI plumbing, authentication, configuration, templates and generated code: no state of their own to prove anything about.
- Payload parsing: `validateCreateInput` is a boolean input, the payload an opaque string.
- Postgres beyond single atomic statements: no database errors, no connection loss inside a statement, no 32-bit overflow of the integer columns. Rollback of a log transaction is modelled, rollback of a claim is not.
- Ties in `ORDER BY priority DESC, created_at ASC`: any of the tied rows may be claimed; the theorem about the board asks that no two claimable rows of one priority were created at the same time, the one about missing tasks that no other pending row was created with the task in question.
- The order of `ListWorkers`, `workerRecentTasks` and the staleness filter of the dashboard: they would only add easier members of the same kind.
- `Release`: it is for shutdown only and ends a worker's run, so the interleaving theorems do not include it.
- `Progress`, `AppendLog` and `SetJiraURL` as calls of a worker: they do not change the worker's state; in `Fleet.dfy` lease refreshes are store calls any worker may make at any time.
- Poll jitter, timeouts and ticker periods: a timeout is an answer that is not a success; `Reaper.Run` is modelled by its tick.
- The duration histogram, the pending gauge and the claim-error counter.
- Holder.Holder.Publish: handles are records in a map keyed by handle number, not heap objects; two pointers to one handle are one key, so aliasing is modelled but allocation is not.
- Holder.Holder.MarkFinalized: the waits on the heartbeat goroutine are steps of the machine in `Worker.dfy`, not statements of this method.
- Interleavings.AnswerDecides: says what follows from the answer inside one worker; what decides the answer is in `Wedging.IdleAgainIffAccepted`.
- Wedging.IdleAgainIffAccepted: says when a worker can still become idle, not that it will; nothing here is about progress, because calls and answers may be delayed for ever.
- Fleet.HeldTaskIsLeasedOrExplained: takes `AppendTaskLog` as one step; the leases of the split version are in `SplitLog.dfy`.
- SkipLocked.LockingIsAtomic: asks that no claim in flight is older than the window when the reaper runs; `SkipLocked.ReapIsItselfIff` shows that this is exactly what is needed.
- Budget.QuadraticBackoff: excludes edits and requeues of the task between the two claims, which may set any schedule.
