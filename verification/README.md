# Podex: verified models of the hard parts

This project models eight pieces of Podex in Dafny and proves what they promise, and exactly where they do
not keep it:

| part | modules |
|---|---|
| the agent orchestrator's bounded registries | `Eviction`, `Registry`, `RegistryFacts`, `RegistryMeaning`, `Orchestrator` (the class), `OrchestratorRuns` (all interleavings), `OrchestratorCalls`, `OrchestratorTraces`, `AgentCapOvershoot`, `OrchestratorWitnesses` |
| the distributed startup lock | `StartupLock` (all interleavings), `StartupWait`, `StartupWorker` (the function) |
| the failure count behind the container health check | `HealthMonitor` |
| the versioned session cache | `CacheVersions`, `SessionCache` (the class), `CacheKeys` |
| shell quoting and the git status parser | `ShellQuoting`, `Text`, `GitPaths`, `GitStatus` |
| JSON-RPC request and response correlation | `JsonRpc` (all interleavings), `JsonRpcClient` (the class) |
| encrypted dictionaries | `Base64Url`, `Crypto`, `LawfulLibrary` |
| device-flow polling | `DeviceFlow` (all interleavings), `AuthService` (the class) |

Code that changes state step by step is modelled twice where other code can run at its awaits: as methods of a
class, and as a step system in which every stretch of code between two awaits is one step. What ties the two
together: the methods of `JsonRpcClient` and `AuthService` and the commands of `StartupWorker` each say which
step they are, and `StartupWorker.RunIsReliedOn` shows that the other workers do no more than the worker's
proof allows them. `RegistryMeaning` says what the functions that specify the orchestrator come to, id by id and in
the numbers of the source, without using them. The orchestrator's methods are whole operations; `OrchestratorCalls`
proves that the steps of an undisturbed submission or run, put together, keep the same contract (`Submitted`,
`Processed`) as `SubmitTask` and `ProcessTask`. The health monitor and the session cache have one form each, the cache's with
any commands of others between its own.
Clocks, random bytes, what Redis, git, the model providers and the network answer are parameters or
nondeterministic choices. Times are real numbers of seconds.

`dafny verify dfyconfig.toml` checks everything.

## What the proofs found in the code

- `process_task` writes its status unconditionally. A cancellation, like any finished result, is safe exactly
  when no call on the task is in flight (`KeptExactlyWithoutFlights`); `FinishedResultsChangeExactly` lists the
  steps that replace it, a new submission under the same id among them, and `CancellationIsOverwritten` is a
  run in which a cancelled task ends up completed.
- The agent cap is checked before awaits that precede the insertion. With K calls at once there can be
  `MAX_AGENTS - 1 + K` agents, no more, and that many are reached for every K (`EveryStateKeepsInv`,
  `AgentCapBoundIsAttained`).
- Executing an agent does not refresh its activity time (`OnlyItsCallsRefresh`), so that a call can lose the agent
  it executes. A submission's sweep deletes it exactly when the sweep is due and the agent was looked up over
  fifteen minutes ago, or possibly, if more than MAX_AGENTS agents are not idle (`AgentInUseSweptExactly`,
  `SweptExactly`, `SweepDeletesAgentInUse`). Another call's lookup in a full registry can evict it once that is
  over a minute ago (`LookupEvictsAgentInUse`), and the end of its session removes it. There is no fourth way
  (`AgentInUseStaysExactly`).
- The sweep's await of an agent's executor never waits in this repository: its `ToolExecutor`
  (services/agent/src/tools/executor.py:178) has neither `cleanup` nor `close`. The step system still lets others
  run there; with an executor that waits, an agent taken in the meantime would be deleted as well
  (`WaitingSweepDeletesAgentInUse`).
- The startup lock's release does not check ownership: exclusion needs every live holder to finish within the
  lock's time to live, and no more time than that will do (`MutualExclusion`, `LateHolderBreaksExclusion`,
  `ExclusionExactlyWithinLockTtl`).
- The startup lock's check of the completion key and its SET NX are two commands: a worker that looks just before the
  mark is set runs the task a second time, with every holder on time and nothing failing (`TaskCanRunTwice`). Only such
  workers do: for a minute after a mark everybody else who looks returns without the task (`MarkedMeansReturn`,
  `OnlyEarlierChecksGoOn`).
- The health check's failure count gets ahead of the current row of failures exactly when telling the session
  about a mark raises while the count equals the row (`NeverAheadExactly`, `ExceptionCountsTwice`); the mark
  itself is still backed by enough failures (`MarkedOnlyAfterFailures`).
- A session-cache version number comes back after the version key has expired, and with it entries older than
  the latest invalidation (`ExpiryBringsVersionBack`). `FreshExactlyWithoutRecycling` has the exact condition.
- The git status parser loses the behind count exactly when the upstream's name ends in "behind" and there is
  something to count (`StatusReadsBack`, `BehindCountIsLost`).
- A JSON-RPC sender ends in a `KeyError` instead of the timeout error exactly when a reply and the timer meet
  before the sender runs on (`FirstReplyOrTimeout`, `TimeoutRace`).
- The git status parser keeps the quotes that git puts around paths with blanks, escapes or bytes outside printable
  ASCII, and the arrow of renames and copies. The lists are the true ones exactly when there are none
  (`ListsReadBackExactly`, `QuotesAreKept`, `ArrowIsKept`); `GitPaths.QuotedReadsBack` shows that the quotes could
  be undone.
- The git status parser reports the branch of a repository without commits as "No" (`UnbornBranchIsLost`;
  `BranchReadsBack` has the exact condition).
- After its final answer the device flow can send another request exactly when another poll was waiting and the
  flow is not aborted (`RequestAfterFinalExactly`, `RequestAfterToken`); after an abort its promise can still be
  settled exactly when a poll was under way (`SettledAfterAbortExactly`).
- Where comments and code differ, the code is modelled: `_escape_shell_arg` describes `'\''` but writes
  `'"'"'`.

## Model

| member | source | states |
|---|---|---|
| `Orchestrator.AgentOrchestrator.CleanupOldTasks` | services/agent/src/orchestrator.py:198-264 | nothing when the last clean-up was recent; otherwise removes every finished expired task and as many of the oldest finished ones as the registry is over its cap, one oldest-first set, with their results, and nothing else |
| `Orchestrator.AgentOrchestrator.ForceCleanupOldTasks` | services/agent/src/orchestrator.py:698-747 | removes the oldest finished tasks down to the headroom and every expired one: together an oldest-first set of exactly that size |
| `Orchestrator.AgentOrchestrator.CleanupIdleAgents` | services/agent/src/orchestrator.py:266-362 | removes every idle agent and the least recently active excess; the sessions disconnected are exactly those that lost an agent and have none left |
| `Orchestrator.AgentOrchestrator.ForceCleanupIdleAgentsSync` | services/agent/src/orchestrator.py:466-501 | removes the least recently active agents down to the headroom, sparing everyone active in the last minute |
| `Orchestrator.AgentOrchestrator.SubmitTask` | services/agent/src/orchestrator.py:749-777 | refused exactly when the registry is full and nothing in it has finished; otherwise the new task is pending and only an oldest-first set of finished tasks is gone |
| `Orchestrator.AgentOrchestrator.GetOrCreateAgent` | services/agent/src/orchestrator.py:503-649 | the exact new state, and success exactly when the agent is known, or can be built and there is or can be made room; then its activity time is that of the lookup |
| `Orchestrator.AgentOrchestrator.ProcessTask` | services/agent/src/orchestrator.py:779-926 | the exact new state and result of a run: completed exactly when configured, found and answered |
| `Orchestrator.AgentOrchestrator.CancelTask` | services/agent/src/orchestrator.py:955-981 | succeeds exactly for a known unfinished task and then records just for that one that it failed, "Task cancelled by user" |
| `Orchestrator.AgentOrchestrator.CancelAgentTasks` | services/agent/src/orchestrator.py:983-1014 | records that failure for exactly the agent's unfinished tasks, leaves every other result alone and returns their number |
| `Orchestrator.AgentOrchestrator.CleanupSession` | services/agent/src/orchestrator.py:1040-1072 | a task or agent stays if and only if it is of another session, whatever its status; results and activity times go with exactly the ids that go, and all that stays is unchanged |
| `RegistryFacts.PeriodicParts` | services/agent/src/orchestrator.py:224-251 | the TTL pass and the excess pass over a sorted list are together one oldest-first removal of the finished tasks |
| `RegistryFacts.ForcedParts` | services/agent/src/orchestrator.py:705-732 | the same for the forced clean-up, whose two passes overlap |
| `RegistryFacts.IdleParts` | services/agent/src/orchestrator.py:291-318 | the idle pass and the excess pass over agents are together one least-recently-active removal |
| `RegistryFacts.PeriodicEvictionEffect` | services/agent/src/orchestrator.py:198-264 | afterwards no finished task is expired, the cap holds unless unfinished tasks alone exceed it, and no removed task is younger than a finished one that stays |
| `RegistryFacts.IdleEvictionEffect` | services/agent/src/orchestrator.py:266-341 | afterwards no agent is idle over the TTL, at most MAX_AGENTS are left, and nobody removed was active later than anybody kept |
| `RegistryFacts.ForcedEvictionFreesRoom` | services/agent/src/orchestrator.py:760-763 | a forced clean-up of a full registry frees room exactly when something has finished |
| `RegistryFacts.ForcedAgentEvictionFreesRoom` | services/agent/src/orchestrator.py:528-538 | a forced agent clean-up makes room exactly when more agents are idle for a minute than the registry is over its cap |
| `RegistryFacts.FullnessSurvives` | services/agent/src/orchestrator.py:756-772 | being full of unfinished tasks is the same before and after a clean-up of finished ones, so the refusal can be read off the state before the call |
| `RegistryFacts.AbandonedAreThose` | services/agent/src/orchestrator.py:343-354 | filtering the touched sessions by "no agent left" gives exactly the abandoned ones |
| `RegistryMeaning.PeriodicMeans` | services/agent/src/orchestrator.py:198-264 | nothing within thirty seconds of the last one; otherwise every finished task created over 1800 seconds ago goes; others go only down to 5000, and more than 5000 are left only for want of finished ones; none that goes is younger than a finished one that stays |
| `RegistryMeaning.ForcedMeans` | services/agent/src/orchestrator.py:698-747 | the same for the forced clean-up, down to 4900 and whatever the time of the last one |
| `RegistryMeaning.AgentSweepMeans` | services/agent/src/orchestrator.py:266-341 | nothing within thirty seconds of the last one; otherwise every agent inactive for over 900 seconds goes, others only down to 500, each at least as long inactive as any that stays |
| `RegistryMeaning.ForcedAgentsMeans` | services/agent/src/orchestrator.py:466-501 | only agents inactive for over sixty seconds go, the longest inactive first and never to fewer than 450; more than 450 are left only for want of such agents |
| `RegistryMeaning.TaskSweepTakesOnlyThat` | services/agent/src/orchestrator.py:253-264 | the listed tasks go with their results, every other entry of the four dictionaries stays, and the time of the clean-up is noted |
| `RegistryMeaning.AgentSweepTakesOnlyThat` | services/agent/src/orchestrator.py:320-341 | the same for agents and their activity times |
| `RegistryMeaning.AbandonedMeans` | services/agent/src/orchestrator.py:343-354 | a session is disconnected if and only if it has a name, lost an agent and has none left |
| `RegistryMeaning.SubmissionMeans` | services/agent/src/orchestrator.py:749-777 | refused if and only if there are 5000 tasks and none of them completed or failed; otherwise the task is pending with that very content, only completed or failed tasks are gone, and no other task or result is new or changed |
| `RegistryMeaning.LookupMeans` | services/agent/src/orchestrator.py:526-540 | a lookup succeeds if and only if the agent is there, or can be built and there are fewer than 500 agents or enough inactive for sixty seconds |
| `RegistryMeaning.LookupEvictsOnlyWhenFull` | services/agent/src/orchestrator.py:526-533 | a lookup evicts only to build an agent in a registry of 500 or more |
| `RegistryMeaning.LookedUpMeans` | services/agent/src/orchestrator.py:503-649 | afterwards the agent is there with the time of the lookup, the evicted ones are gone, and every other entry is as it was |
| `RegistryMeaning.OutcomeMeans` | services/agent/src/orchestrator.py:779-926 | a run ends completed if and only if it was configured, its agent there or buildable in that sense, and the model replied; it ends with that reply or with the error |
| `RegistryMeaning.RunMeans` | services/agent/src/orchestrator.py:779-926 | it records its result and its end as the agent's last activity; no other result changes and only evicted agents are gone |
| `RegistryMeaning.EndSessionMeans` | services/agent/src/orchestrator.py:1040-1072 | what `CleanupSession` promises, of the function that specifies it |
| `Eviction.SortByTime` | services/agent/src/orchestrator.py:246 | the result is sorted by time and a permutation of the input |
| `Eviction.SortedPrefix` | services/agent/src/orchestrator.py:246-251 | a prefix of that sorted list is an oldest-first selection of its length |
| `OrchestratorRuns.EveryStateKeepsInv` | services/agent/src/orchestrator.py:526-649 | in every reachable state: the task cap, a result for each task, an activity time for each agent, and agents plus admitted builders at most MAX_AGENTS - 1 + K |
| `AgentCapOvershoot.AgentCapBoundIsAttained` | services/agent/src/orchestrator.py:526-649 | that bound is reached for every K >= 1: a run in which K calls pass the check before any of them inserts |
| `OrchestratorRuns.LateResultsAreAccounted` | services/agent/src/orchestrator.py:785-925 | a result without a task exists only if a `process_task` call on it was in flight when the task was removed |
| `OrchestratorRuns.RefusedExactlyWhenFull` | services/agent/src/orchestrator.py:759-777 | in every interleaving, a submission is refused exactly when MAX_TASKS tasks are present and none has finished; a refusal changes nothing |
| `OrchestratorRuns.OnlyTeardownRemovesUnfinished` | services/agent/src/orchestrator.py:198-264 | every other step removes finished tasks only |
| `OrchestratorRuns.EndSessionStepMeans` | services/agent/src/orchestrator.py:1040-1072 | in any state, ending a session leaves a task or agent if and only if it is of another session, whatever its status, and changes nothing else, calls under way included |
| `OrchestratorRuns.CancelStepMeans` | services/agent/src/orchestrator.py:955-981 | in any state, cancelling records the failure for that task if it is unfinished, and changes nothing else |
| `OrchestratorRuns.CancelAgentStepMeans` | services/agent/src/orchestrator.py:983-1014 | the same for all tasks of an agent |
| `OrchestratorRuns.SizesInEveryState` | services/agent/src/orchestrator.py:526-777 | in every state of every run at most 5000 tasks and 499 + K agents, each task with a result and each agent with an activity time |
| `OrchestratorRuns.FinishedResultsChangeExactly` | services/agent/src/orchestrator.py:779-1014 | while its task stays, a finished result changes in a step if and only if the step starts a call on the task, ends one or refuses it its agent with another result, or admits a submission under the id |
| `OrchestratorRuns.KeptExactlyWithoutFlights` | services/agent/src/orchestrator.py:785-925 | in any reachable state a finished result, a cancellation say, is kept by every continuation in which its task stays and nobody starts over with it, if and only if no call on the task is in flight there, in whatever phase |
| `OrchestratorRuns.KeptWithoutFlights` | services/agent/src/orchestrator.py:785-925 | the direction of it that is about all continuations |
| `OrchestratorRuns.FlightCanOverwrite` | services/agent/src/orchestrator.py:920-925 | the other: any call in flight can replace the result, whatever it waits for |
| `OrchestratorRuns.AgentsGoExactly` | services/agent/src/orchestrator.py:266-362 | a step removes an agent if and only if it is the sweep's deletion of the agent it has closed, a lookup that evicts it, or the end of its session |
| `OrchestratorRuns.AgentInUseStaysExactly` | services/agent/src/orchestrator.py:266-540 | the three ways in which a call that executes can lose its agent in a step, as an if-and-only-if; an evicting lookup is another call's, in a full registry, over a minute after the agent's last activity |
| `OrchestratorRuns.OnlyItsCallsRefresh` | services/agent/src/orchestrator.py:649-921 | an agent's activity time changes only when a call on it finds it, has built it or ends, never while it executes |
| `OrchestratorCalls.SweptExactly` | services/agent/src/orchestrator.py:266-341 | what the sweep of a submission deletes, from the state before it: nothing before it is due, then every agent idle for over fifteen minutes, others only where more than the cap are not idle |
| `OrchestratorCalls.AgentInUseSweptExactly` | services/agent/src/orchestrator.py:266-341 | with no such excess, a call that executes loses its agent to the sweep if and only if the sweep is due and the agent's last activity is over fifteen minutes old |
| `OrchestratorRuns.SweepDeletesOnlyListed` | services/agent/src/orchestrator.py:291-341 | in every interleaving a sweep deletes only agents that were idle, or in excess, when its submission began |
| `RegistryFacts.SweepTakes` | services/agent/src/orchestrator.py:291-318 | the condition behind these, for any sweep |
| `OrchestratorRuns.CancellationCanBeOverwritten` | services/agent/src/orchestrator.py:925 | in any state with a call on the task, in whatever phase, a cancellation is replaced by the result the call ends with |
| `OrchestratorWitnesses.CancellationIsOverwritten` | services/agent/src/orchestrator.py:925 | a run from the start of the service in which a cancelled task ends up completed |
| `OrchestratorRuns.SweepCanDeleteAgentInUse` | services/agent/src/orchestrator.py:323-341 | if an executor makes the sweep wait, an agent looked up meanwhile is deleted while it executes |
| `OrchestratorWitnesses.SweepDeletesAgentInUse` | services/agent/src/orchestrator.py:266-341 | a run from the start of the service in which a sweep deletes the agent of a call that has been executing for over fifteen minutes |
| `OrchestratorWitnesses.WaitingSweepDeletesAgentInUse` | services/agent/src/orchestrator.py:323-341 | a run for the sweep that waits, which needs an executor type this repository does not have |
| `OrchestratorWitnesses.LookupEvictsAgentInUse` | services/agent/src/orchestrator.py:466-540 | a run from the start of the service in which a lookup in a full registry evicts an agent that executes |
| `OrchestratorCalls.SubmissionIsItsSteps` | services/agent/src/orchestrator.py:749-777 | first step, sweep and last step of an undisturbed submission together keep the contract of `SubmitTask` |
| `OrchestratorCalls.SweepRemovesAll` | services/agent/src/orchestrator.py:321-341 | an undisturbed sweep removes exactly the listed agents |
| `OrchestratorCalls.FoundCall` | services/agent/src/orchestrator.py:779-926 | the steps of an undisturbed call that finds its agent keep the contract of `ProcessTask` |
| `OrchestratorCalls.BuiltCall` | services/agent/src/orchestrator.py:779-926 | the same for a call that builds its agent |
| `OrchestratorCalls.UnbuiltCall` | services/agent/src/orchestrator.py:779-926 | the same for a call whose agent cannot be built |
| `OrchestratorCalls.RefusedCall` | services/agent/src/orchestrator.py:779-926 | the same for a call for whose agent no room can be made |
| `OrchestratorCalls.UnconfiguredCall` | services/agent/src/orchestrator.py:779-926 | the same for a call whose context is incomplete |
| `StartupLock.MutualExclusion` | services/api/src/main.py:286-314 | no two workers are ever in the locked section at once, with crashes, failed runs and Redis errors, if each live holder deletes within the lock's time to live |
| `StartupLock.LateHolderBreaksExclusion` | services/api/src/main.py:300-314 | a holder that stays for exactly the lock's time to live lets a second worker in, and its DELETE removes the second one's key |
| `StartupLock.ExclusionExactlyWithinLockTtl` | services/api/src/main.py:300-314 | exclusion in all runs whose live holders stay for less than some time holds if and only if that time is at most the lock's time to live |
| `StartupLock.ReturnMeansSomebodySucceeded` | services/api/src/main.py:286-349 | from a store without a completion key, whoever returns other than by the timeout does so after some run of the task has succeeded |
| `StartupLock.MarkLasts` | services/api/src/main.py:310 | after a worker's SET of the completion key the key is there for at least sixty seconds, in every continuation |
| `StartupLock.MarkedMeansReturn` | services/api/src/main.py:292-327 | a worker whose check or poll of the completion key goes through in that time returns in that step, without the task |
| `StartupLock.OnlyEarlierChecksGoOn` | services/api/src/main.py:293-300 | in that time the only workers about to try for the lock are those whose check went through before the mark |
| `StartupLock.TaskCanRunTwice` | services/api/src/main.py:293-300 | a run from empty keys in which such a worker runs the task a second time, all holders on time and nothing failing |
| `StartupLock.LoneWorkerRunsOnce` | services/api/src/main.py:289-314 | a worker alone runs the task once, leaves the completion key for sixty seconds and no lock, and returns |
| `StartupLock.OnlyFailuresLeadOutside` | services/api/src/main.py:339-349 | nobody runs the task outside the lock, or raises, unless one of its own commands or runs has raised |
| `StartupWait.WaitIsBounded` | services/api/src/main.py:315-340 | polls at most 240 per acquisition by somebody else, at most one retry per such acquisition, a bounded number of steps in all, and never stuck |
| `StartupWait.EveryWorkerIsCharged` | services/api/src/main.py:315-340 | the accounting behind it: each retry is paid for by an acquisition, each half second waited by a poll |
| `StartupWait.TimeoutTakesAllPolls` | services/api/src/main.py:322-340 | nobody gives up waiting before 240 polls of half a second |
| `StartupWorker.StartupWorker.RunWithStartupLock` | services/api/src/main.py:267-349 | the whole recursive function terminates within that many polls; a normal return means some run succeeded, and that the completion key is there or the task was run outside the lock; while a completion key that was there at the start lasts, the task is not run under the lock; exceptions escape only from a failed run outside it |
| `StartupWorker.StartupWorker.Attempt` | services/api/src/main.py:289-340 | the body of the `try`: where it ends for each outcome; a completion key that lasts means a return without a run, or a Redis error |
| `StartupWorker.StartupWorker.AwaitCompletion` | services/api/src/main.py:315-340 | the polling loop: at most 240 sleeps before each retry, and all 240 before a timeout |
| `StartupWorker.StartupWorker.RunHoldingLock` | services/api/src/main.py:302-314 | the locked section runs the task exactly once and releases in every case; if it does not raise, the completion key is there for at least sixty seconds more |
| `StartupWorker.StartupWorker.SetComplete` | services/api/src/main.py:310 | afterwards the completion key expires in sixty seconds and the lock is as it was |
| `StartupWorker.StartupWorker.GetComplete` | services/api/src/main.py:293-324 | finds the key exactly if it is there and has not expired |
| `StartupWorker.RunIsReliedOn` | services/api/src/main.py:286-349 | whatever happens between two moments of any run, the worker's proof allows the others to do |
| `HealthMonitor.MarkedOnlyAfterFailures` | services/api/src/main.py:1396-1496 | a workspace is marked only when its last CONTAINER_UNRESPONSIVE_THRESHOLD or more checks all failed |
| `HealthMonitor.CountIsBacked` | services/api/src/main.py:1396-1496 | the count exceeds the current row of failures at most after that row has reached the threshold |
| `HealthMonitor.NeverAheadExactly` | services/api/src/main.py:1396-1496 | at no time is the count ahead of the current row of failures, if and only if no check marks, raises while telling the session and finds the count equal to the row |
| `HealthMonitor.OvertakenExactly` | services/api/src/main.py:1475-1491 | the same for a single check |
| `HealthMonitor.CountNeverExceedsRow` | services/api/src/main.py:1396-1496 | in particular the count never exceeds the row where no check that marks raises while telling the session |
| `HealthMonitor.ExceptionCountsTwice` | services/api/src/main.py:1475-1491 | where it raises, the failure that marks is counted twice |
| `HealthMonitor.MarkedExactlyAtThreshold` | services/api/src/main.py:1455-1487 | while the counter does not expire and marks are told without raising, it is exactly the failures since it was last cleared, and the check that completes the threshold is the one that marks |
| `HealthMonitor.HealthMonitor.CheckWorkspace` | services/api/src/main.py:1446-1496 | one pass over a workspace is the step the lemmas above are about; the status becomes `error` exactly then |
| `HealthMonitor.HealthMonitor.IncrementFailureCount` | services/api/src/main.py:1396-1405 | one more than the live value, or one; the counter then expires in an hour |
| `CacheVersions.FreshExactlyWithoutRecycling` | services/api/src/cache.py:288-339 | hits are never older than the latest invalidation before the read, for all timings, if and only if no INCR brings back a number that was in force within reader delay plus entry TTL |
| `CacheVersions.QuietMeansNoRecycling` | services/api/src/cache.py:311-330 | no number comes back in time if nobody invalidates within that span after an expiry |
| `CacheVersions.QuietMeansFresh` | services/api/src/cache.py:288-339 | hence the freshness of every hit under that schedule |
| `CacheVersions.ExpiryBringsVersionBack` | services/api/src/cache.py:320-323 | for every reader delay and entry TTL, one invalidation right after the seven days is enough for a stale hit |
| `CacheVersions.HitIsFresh` | services/api/src/cache.py:288-339 | the same for a single hit, used by the class |
| `CacheVersions.IncrAddsOne` | services/api/src/cache.py:320 | INCR leaves a live key with the number one above the one in force |
| `CacheVersions.ExpireKeepsSevenDays` | services/api/src/cache.py:321-322 | EXPIRE keeps the number of a live key for seven days from then, and does nothing without one |
| `SessionCache.SessionCache.ReadSessions` | services/api/src/cache.py:102-141 | the answer is of the page asked for; a hit if and only if a live, non-empty entry of that page and of the version read is there at the lookup, and then it is that entry; a miss answers with a snapshot taken after the read began and changes exactly that slot to it; a hit is no older than the latest invalidation before the read, unless a version number came back too early |
| `SessionCache.SessionCache.InvalidateUserSessions` | services/api/src/cache.py:311-330 | between its start and its end the version key has seen an INCR, whatever others do in between, and an EXPIRE last |
| `SessionCache.SessionCache.GetUserSessionsVersion` | services/api/src/cache.py:297-308 | the version in force now, 0 without a key |
| `CacheKeys.VersionedKeysAreDistinct` | services/api/src/cache.py:333-339 | keys of different users, versions or pages differ, whatever the user ids contain |
| `CacheKeys.PagesAreNoCounters` | services/api/src/cache.py:288-294 | no page is ever stored under a version counter's key |
| `CacheKeys.KeysAreSpelled` | services/api/src/cache.py:288-339 | the two keys, spelled out for every user |
| `ShellQuoting.EscapedArgsReadBack` | services/api/src/compute_client.py:1533-1549 | a POSIX shell reads the joined, escaped arguments back as exactly those arguments; not if and only if one holds a null character |
| `ShellQuoting.StagedFilesReachGit` | services/api/src/compute_client.py:1017-1030 | git gets `add`, `--` and exactly the given paths |
| `ShellQuoting.UnstagedFilesReachGit` | services/api/src/compute_client.py:1032-1045 | git gets `reset`, `HEAD`, `--` and exactly the given paths |
| `ShellQuoting.CommitMessageReachesGit` | services/api/src/compute_client.py:1047-1062 | git gets exactly the given message |
| `GitStatus.ParseGitStatus` | services/api/src/compute_client.py:1554-1610 | the loop computes the fold the lemmas below are about, and raises exactly where it has no value |
| `GitStatus.NamesAreMeant` | services/api/src/compute_client.py:1613-1622 | each of the six names is reported of an entry if and only if git marked that kind of change there, "unknown" exactly for a change of type |
| `GitStatus.OddLines` | services/api/src/compute_client.py:1565-1580 | lines of fewer than three characters are skipped; a heading without text means `main`; one of blanks raises |
| `GitStatus.NoOutput` | services/api/src/compute_client.py:1556-1563 | output of blanks alone is a clean `main` |
| `GitStatus.StatusReadsBack` | services/api/src/compute_client.py:1554-1610 | parsing what git prints gives back ahead count and the three lists as printed, in order; the branch if and only if it has commits (or is called "No" and has no upstream), "HEAD" for a detached one; and the behind count if and only if the upstream's name does not end in "behind" or there is nothing to count |
| `GitStatus.ListsReadBackExactly` | services/api/src/compute_client.py:1578-1600 | the lists hold the files' own paths if and only if git quotes none of them and none was renamed or copied, for any paths whatever |
| `GitStatus.PathsReadBackExactly` | services/api/src/compute_client.py:1582-1600 | the same for a list of entries |
| `GitStatus.ShownExactly` | services/api/src/compute_client.py:1582 | the same for one entry |
| `GitStatus.QuotesAreKept` | services/api/src/compute_client.py:1582-1585 | the untracked file `a b` is reported with quotes |
| `GitStatus.ArrowIsKept` | services/api/src/compute_client.py:1587-1593 | a renamed file is reported under both names with the arrow between them |
| `GitPaths.QuotedReadsBack` | services/api/src/compute_client.py:1582 | git's quoting loses nothing: undoing it gives every path back |
| `GitPaths.ShownAsItIs` | services/api/src/compute_client.py:1582 | a path is printed as it is exactly when it needs no quotes |
| `GitStatus.CleanMeansNoEntries` | services/api/src/compute_client.py:1602-1604 | `is_clean` says exactly that git printed no entry |
| `GitStatus.BehindCountIsLost` | services/api/src/compute_client.py:1576-1578 | two commits behind `origin/lag-behind` are reported as none |
| `GitStatus.LinesReadBack` | services/api/src/compute_client.py:1556 | stripping and splitting the output gives back the printed lines |
| `GitStatus.BracketsAreSpelled` | services/api/src/compute_client.py:1566 | the brackets git prints, letter by letter |
| `GitStatus.NoticeIsSpelled` | services/api/src/compute_client.py:1572 | its heading for a branch without commits, letter by letter |
| `GitStatus.BranchReadsBack` | services/api/src/compute_client.py:1568-1572 | what is taken for the branch under each of git's headings, and exactly when it is the branch |
| `GitStatus.UnbornBranchIsLost` | services/api/src/compute_client.py:1568-1572 | `main` without commits is reported as "No" |
| `GitStatus.AheadReadsBack` | services/api/src/compute_client.py:1573-1575 | the ahead count is read back from every bracket |
| `GitStatus.BehindReadsBack` | services/api/src/compute_client.py:1576-1578 | the behind count is read back where no name is in the way |
| `GitStatus.NameHidesBehind` | services/api/src/compute_client.py:1576-1578 | a name ending in "behind" makes it 0, whatever the bracket says |
| `GitStatus.EntriesReadBack` | services/api/src/compute_client.py:1579-1600 | the entry lines add exactly what is shown of their staged, unstaged and untracked paths, in order |
| `Text.PyIntOfShow` | services/api/src/compute_client.py:1575 | a printed number is read back |
| `Text.ShowIsDecimal` | services/api/src/compute_client.py:1575 | the numerals are decimal |
| `Text.SplitJoined` | services/api/src/compute_client.py:1556 | splitting undoes joining on a character no part contains |
| `JsonRpc.FirstReplyOrTimeout` | services/api/src/mcp_discovery.py:222-275 | a sender gets the first reply that carried its id unless its timer fired first; then the timed-out error, or a KeyError if and only if a reply came in as well |
| `JsonRpc.PendingIsExactlyTheUnanswered` | services/api/src/mcp_discovery.py:222-275 | in every interleaving the table holds exactly the ids issued and neither answered nor timed out, each with its own future |
| `JsonRpc.NeverAnothersReply` | services/api/src/mcp_discovery.py:262-268 | whatever request n got was read in a line whose id is the number n (or True, for request 1) |
| `JsonRpc.ReplyIsDelivered` | services/api/src/mcp_discovery.py:257-268 | in every run a reply with the id n of a pending request takes n off the table, sets its future to the body if it is open, and leaves every other request, call and future as it was |
| `JsonRpc.OtherRepliesChangeNothing` | services/api/src/mcp_discovery.py:257-268 | a reply with any other id (a number not on the table, a fraction, text, null) changes nothing at all |
| `JsonRpc.OtherLinesOnlyStop` | services/api/src/mcp_discovery.py:257-275 | a line that is no reply leaves table and calls alone; the reader goes on exactly after one that is no JSON |
| `JsonRpc.KeyExactly` | services/api/src/mcp_discovery.py:262-263 | an id finds the request n exactly if it is the number n, or True for request 1 |
| `JsonRpc.SendIssuesNext` | services/api/src/mcp_discovery.py:231-239 | a request gets the next number, which no request had, and is put on the table under it alone |
| `JsonRpc.ResultsStay` | services/api/src/mcp_discovery.py:245-249 | a result never changes once it is there |
| `JsonRpc.EveryRunKeepsInv` | services/api/src/mcp_discovery.py:793-875 | the invariant behind these: table, futures and timers of each request are determined by that request's own history |
| `JsonRpc.TimeoutRace` | services/api/src/mcp_discovery.py:245-249 | a run that ends in the KeyError |
| `JsonRpcClient.McpClient.SendRequest` | services/api/src/mcp_discovery.py:793-820 | the whole call, with any steps of others at its awaits, ends with the first own reply or the timeout as above; what it got came in a line with its own number |
| `JsonRpcClient.McpClient.Issue` | services/api/src/mcp_discovery.py:231-239 | the part before the first await is one step and issues a number no request had before |
| `JsonRpcClient.McpClient.FinishRequest` | services/api/src/mcp_discovery.py:245-249 | the part after the wait is one step |
| `JsonRpcClient.McpClient.HandleLine` | services/api/src/mcp_discovery.py:257-270 | one round of the reader is one step; a reply with the id of a pending request is delivered to that request and no other, any other reply changes nothing; it goes on exactly after a reply or a line that is no JSON |
| `JsonRpcClient.McpClient.ReadResponses` | services/api/src/mcp_discovery.py:851-875 | the reader takes the lines in order up to and including the first that ends it |
| `Base64Url.EncodedReadsBack` | services/api/src/crypto.py:80-82 | decoding undoes encoding, padding included (sections 4 and 5 of RFC 4648) |
| `Base64Url.AlphabetIsUrlSafe` | services/api/src/crypto.py:80-82 | the URL-safe alphabet (section 5 of RFC 4648) |
| `Base64Url.GroupHoldsTheBits` | services/api/src/crypto.py:80-82 | four characters hold the 24 bits of three bytes in order |
| `Base64Url.PaddingIsExact` | services/api/src/crypto.py:80-82 | the padding of one, two and three bytes |
| `Crypto.TokenIsRecognised` | services/api/src/crypto.py:110-127 | a Fernet token is recognised if and only if its timestamp is below 2^36 |
| `Crypto.TokenOpens` | services/api/src/crypto.py:98-103 | a token opens to the bytes it was made of |
| `Crypto.StringReadsBack` | services/api/src/crypto.py:65-107 | decrypting undoes encrypting, the empty string included, under the laws of UTF-8 and the cipher alone |
| `Crypto.MigrationReadsBack` | services/api/src/crypto.py:130-164 | `decrypt_if_needed` undoes `encrypt_if_needed` exactly for empty values, for plain-looking ones encrypted before 2^36, and for token-looking ones that are no tokens |
| `Crypto.MigrationIsIdempotent` | services/api/src/crypto.py:130-143 | migrating twice is migrating once |
| `Crypto.ValidMeansShallow` | services/api/src/crypto.py:202-219 | the recursive validation accepts exactly the values in which no path is longer than ten steps |
| `Crypto.DictReadsBack` | services/api/src/crypto.py:167-246 | a dictionary that the JSON library reloads comes back if and only if it is empty, or not nested too deeply and encrypted before 2^36; otherwise the result is the empty dictionary |
| `Crypto.LegacyDecodesAlike` | services/api/src/crypto.py:221-246 | plaintext JSON decodes to the same dictionary as its encryption |
| `Crypto.OnlyAuthenticIsOpened` | services/api/src/crypto.py:98-103 | only what holds the version byte and ends in the MAC of everything before it is opened |
| `Crypto.LeftAloneExactly` | services/api/src/crypto.py:110-143 | `encrypt_if_needed` leaves a value alone if and only if it is empty, or has more than fifty characters and starts with gAAAAA |
| `Crypto.UndecryptableIsLeftAlone` | services/api/src/crypto.py:146-164 | `decrypt_if_needed` leaves alone what does not look so, or cannot be decrypted |
| `Crypto.WithoutSecret` | services/api/src/crypto.py:65-107 | without a secret only what is empty can be encrypted or decrypted, and a dictionary that looks encrypted reads as empty |
| `Crypto.DictComesFromJson` | services/api/src/crypto.py:187-246 | what comes out of `decrypt_dict` is either empty or the dictionary that the text, or what it decrypts to, is in JSON, with no path longer than ten steps |
| `LawfulLibrary.LawsCanHold` | services/api/src/crypto.py:167-246 | all laws these theorems assume hold of one library at once, and it reloads every JSON value |
| `DeviceFlow.TimerFollowsSlowDowns` | apps/cli/src/services/auth-service.ts:82-193 | in every run, overlapping polls or not: at most one live timer, held by the service, at the initial interval plus five seconds per slow_down |
| `DeviceFlow.NoRequestAfterFinal` | apps/cli/src/services/auth-service.ts:120-138 | after a token or a final error no request is sent any more, if no other poll was waiting for its answer |
| `DeviceFlow.OverlapCanPollAfterFinal` | apps/cli/src/services/auth-service.ts:113-118 | if one was, and the flow is not aborted, a request can follow |
| `DeviceFlow.NoRequestAfterAbort` | apps/cli/src/services/auth-service.ts:93-98 | an aborted flow sends no further request, whatever is under way |
| `DeviceFlow.RequestAfterFinalExactly` | apps/cli/src/services/auth-service.ts:106-138 | together: after a token or a final error another request can follow if and only if another poll was waiting for its answer and the flow is not aborted |
| `DeviceFlow.RequestAfterToken` | apps/cli/src/services/auth-service.ts:106-138 | a run from the start of a flow that gets its token and can send another request |
| `DeviceFlow.PromiseIsSettledOnce` | apps/cli/src/services/auth-service.ts:91-174 | without overlapping polls the promise is settled at most once, and once no poll is under way exactly by a final error, a token that could be stored, or a cancellation |
| `DeviceFlow.PollingGoesOn` | apps/cli/src/services/auth-service.ts:106-118 | until then the timer stays alive |
| `DeviceFlow.RequestsAreFirings` | apps/cli/src/services/auth-service.ts:82-104 | the first request goes out at once, with one timer at the given interval, and one more each time the timer fires until an abort |
| `DeviceFlow.ReasonsAreMeant` | apps/cli/src/services/auth-service.ts:120-174 | what each final answer, or none, makes of the promise of a flow without overlapping polls |
| `DeviceFlow.SettledByVerdict` | apps/cli/src/services/auth-service.ts:91-174 | the invariant behind it: open, storing a token, or over, as the answers so far say |
| `DeviceFlow.IdleAbortNeverSettles` | apps/cli/src/services/auth-service.ts:195-201 | aborted between two polls, the promise stays open for ever |
| `DeviceFlow.BusyAbortCanSettle` | apps/cli/src/services/auth-service.ts:195-201 | aborted with a poll under way, it can still be settled |
| `DeviceFlow.SettledAfterAbortExactly` | apps/cli/src/services/auth-service.ts:195-201 | together: after an abort an open promise can still be settled if and only if a poll was under way |
| `AuthService.AuthService.constructor` | apps/cli/src/services/auth-service.ts:82-174 | starting a flow gives the first state of a run |
| `AuthService.AuthService.HandleResponse` | apps/cli/src/services/auth-service.ts:106-167 | a poll from its answer on is one step of the system |
| `AuthService.AuthService.Poll` | apps/cli/src/services/auth-service.ts:93-104 | a poll up to its request |
| `AuthService.AuthService.RestartTimer` | apps/cli/src/services/auth-service.ts:180-193 | the old timer is cleared before the new one is set |
| `AuthService.AuthService.AbortFlow` | apps/cli/src/services/auth-service.ts:198-201 | aborting is one step |

## Left out

- Building agents, running them, MCP connections, tool executors, logging, WebSocket emits, database sessions and
  HTTP calls are single opaque steps that may take time, fail or raise.
- The insertion order of Python dictionaries is not modelled, so which of several equally old tasks or agents goes
  first is left open; everything proved holds for every order.
- Orchestrator.AgentOrchestrator.ProcessTask: tool calls, token counts and MCP status in the result are not modelled.
- Orchestrator.AgentOrchestrator.GetOrCreateAgent: updates of a cached agent's model, keys and mode are not modelled.
- Orchestrator.AgentOrchestrator.CleanupIdleAgents: the class runs it without interruption; its interleavings are
  steps of `OrchestratorRuns`, which does not follow the MCP disconnections.
- `get_task_status`, `delegate_to_agents`, approvals, pausing and aborting agents would add easy members only.
- StartupLock.MutualExclusion: the run of the task outside the lock after an exception is not part of the claim; it is
  part of `ReturnMeansSomebodySucceeded`.
- StartupWait.WaitIsBounded: a lock that is already held when a run starts counts as one acquisition by somebody else.
- The health check's database query, its commit and the once-per-cycle lock are not modelled, nor are failing Redis
  commands; INCR and EXPIRE on its counter are one step.
- SessionCache.SessionCache.ReadSessions: Redis always answers; the route that calls it is not part
  of this model, so the order read version, look up, read source, store is the one the cache's own comments describe.
- `invalidate_pattern` and `_make_cache_key` are left out: their keys and pattern do not agree.
- ShellQuoting.EscapedArgsReadBack: the shell's side covers one command line of plain words; operators, expansions and
  locale-dependent characters have no result, and escaped arguments never need one.
- GitStatus.StatusReadsBack: reference names keep git's own rules (no blanks, no "..", no "[", no dot at the end); an
  upstream of a branch without commits is printed as gone, as git does.
- GitPaths.QuotedReadsBack: paths are given by their bytes, and git's `core.quotePath` is left at its default, so that
  bytes outside ASCII are escaped.
- Text.PyIntOfShow: only ASCII digits count as digits.
- JsonRpc.FirstReplyOrTimeout: the writes to the server, a client that is not connected and the cleanup after a
  discovery are not modelled; ids that are not numbers in Python's sense match nothing.
- JsonRpcClient.McpClient.SendRequest: for a caller that is neither cancelled nor fails to write; those are
  `Abandon` steps of the system.
- Crypto.TokenOpens: AES, HMAC, PBKDF2, UTF-8 and the JSON library are parameters with their round-trip laws; the
  decoder refuses characters outside the alphabet, which Python's skips.
- Crypto.DictReadsBack: for the dictionaries that the JSON library reloads; what it does not (integers of more than 4300
  digits, values nested beyond its recursion limit) is outside, as are floats that are not finite and strings with
  lone surrogates.
- DeviceFlow.PromiseIsSettledOnce: for one flow at a time on a service, and for callbacks that do not throw.
- Cycle locks, retry backoff, MCP configuration merging, the CLI's history, the VS Code login loop and all user
  interfaces are left out.
