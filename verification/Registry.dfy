/** The orchestrator's four dictionaries as one value, and what each operation is allowed to do to it. */
module Registry {
  import opened Collections
  import opened Eviction

  const TASK_TTL_SECONDS: Time := 1800.0
  const MAX_TASKS: nat := 5000
  const TASK_HEADROOM: nat := 100
  const CLEANUP_INTERVAL_SECONDS: Time := 30.0
  const AGENT_IDLE_TTL_SECONDS: Time := 900.0
  const MAX_AGENTS: nat := 500
  const AGENT_HEADROOM: nat := 50
  const FORCED_IDLE_SECONDS: Time := 60.0

  datatype TaskStatus = Pending | Running | Completed | Failed
  datatype Task = Task(sessionId: Id, agentId: Id, createdAt: Time)
  datatype TaskResult = TaskResult(status: TaskStatus, response: Option<string>, error: Option<string>)
  datatype Agent = Agent(sessionId: Id)

  datatype Registry = Registry(
    tasks: map<Id, Task>,
    results: map<Id, TaskResult>,
    agents: map<Id, Agent>,
    lastActivity: map<Id, Time>,
    lastCleanup: Time,
    lastAgentCleanup: Time)

  const PENDING := TaskResult(Pending, None, None)
  const RUNNING := TaskResult(Running, None, None)
  const CANCELLED := TaskResult(Failed, None, Some("Task cancelled by user"))

  predicate IsFinal(s: TaskStatus) {
    s.Completed? || s.Failed?
  }

  /** What holds of the dictionaries whenever no operation is between two awaits. */
  ghost predicate Consistent(r: Registry) {
    && |r.tasks| <= MAX_TASKS
    && r.tasks.Keys <= r.results.Keys
    && r.agents.Keys <= r.lastActivity.Keys
  }

  // ----- Tasks -----

  predicate FinishedIn(tasks: map<Id, Task>, results: map<Id, TaskResult>, id: Id) {
    id in tasks && id in results && IsFinal(results[id].status)
  }

  function AllFinishedIn(tasks: map<Id, Task>, results: map<Id, TaskResult>): set<Id> {
    set id | id in tasks && FinishedIn(tasks, results, id)
  }

  function OlderThan(tasks: map<Id, Task>, ids: set<Id>, limit: Time): set<Id> {
    set id | id in ids && id in tasks && tasks[id].createdAt < limit
  }

  function CreatedIn(tasks: map<Id, Task>): map<Id, Time> {
    map id | id in tasks :: tasks[id].createdAt
  }

  predicate Finished(r: Registry, id: Id) {
    FinishedIn(r.tasks, r.results, id)
  }

  function FinishedTasks(r: Registry): set<Id> {
    AllFinishedIn(r.tasks, r.results)
  }

  function ExpiredTasks(r: Registry, now: Time): set<Id> {
    OlderThan(r.tasks, FinishedTasks(r), now - TASK_TTL_SECONDS)
  }

  function CreationTimes(r: Registry): map<Id, Time> {
    CreatedIn(r.tasks)
  }

  function WithoutTasks(r: Registry, removed: set<Id>): Registry {
    r.(tasks := r.tasks - removed, results := r.results - removed)
  }

  /** Both passes of the periodic clean-up together: everything finished and expired goes, then as many of
      the oldest finished tasks as the registry is over its limit. */
  ghost predicate PeriodicTaskEviction(r: Registry, now: Time, removed: set<Id>) {
    var expired, finished := ExpiredTasks(r, now), FinishedTasks(r);
    && expired <= removed
    && OldestFirst(removed, finished, CreationTimes(r))
    && |removed| == |expired| + Min(|finished| - |expired|, Max(0, |r.tasks| - |expired| - MAX_TASKS))
  }

  /** The forced clean-up removes the oldest finished tasks: enough to leave the headroom, and every expired one. */
  ghost predicate ForcedTaskEviction(r: Registry, now: Time, removed: set<Id>) {
    var expired, finished := ExpiredTasks(r, now), FinishedTasks(r);
    && expired <= removed
    && OldestFirst(removed, finished, CreationTimes(r))
    && |removed| == Max(|expired|, Min(|finished|, Max(0, |r.tasks| - MAX_TASKS + TASK_HEADROOM)))
  }

  /** The periodic task clean-up as a whole: nothing when the last one was recent. */
  ghost predicate TasksSwept(r: Registry, now: Time, removed: set<Id>) {
    if now - r.lastCleanup < CLEANUP_INTERVAL_SECONDS then removed == {} else PeriodicTaskEviction(r, now, removed)
  }

  function AfterTaskSweep(r: Registry, now: Time, removed: set<Id>): Registry {
    if now - r.lastCleanup < CLEANUP_INTERVAL_SECONDS then r else WithoutTasks(r, removed).(lastCleanup := now)
  }

  function CancelledIn(results: map<Id, TaskResult>, ids: set<Id>): map<Id, TaskResult> {
    results + map id | id in ids :: CANCELLED
  }

  function Cancelled(r: Registry, ids: set<Id>): Registry {
    r.(results := CancelledIn(r.results, ids))
  }

  predicate UnfinishedFor(tasks: map<Id, Task>, results: map<Id, TaskResult>, agentId: Id, id: Id) {
    id in tasks && tasks[id].agentId == agentId && !FinishedIn(tasks, results, id)
  }

  function UnfinishedTasksOf(r: Registry, agentId: Id): set<Id> {
    set id | id in r.tasks && UnfinishedFor(r.tasks, r.results, agentId, id)
  }

  // ----- Agents -----

  function LastActiveIn(lastActivity: map<Id, Time>, id: Id): Time {
    if id in lastActivity then lastActivity[id] else 0.0
  }

  function ActivityIn(agents: map<Id, Agent>, lastActivity: map<Id, Time>): map<Id, Time> {
    map id | id in agents :: LastActiveIn(lastActivity, id)
  }

  function InactiveSince(agents: map<Id, Agent>, lastActivity: map<Id, Time>, limit: Time): set<Id> {
    set id | id in agents && LastActiveIn(lastActivity, id) < limit
  }

  function LastActive(r: Registry, id: Id): Time {
    LastActiveIn(r.lastActivity, id)
  }

  function ActivityTimes(r: Registry): map<Id, Time> {
    ActivityIn(r.agents, r.lastActivity)
  }

  function IdleAgents(r: Registry, now: Time, limit: Time): set<Id> {
    InactiveSince(r.agents, r.lastActivity, now - limit)
  }

  function WithoutAgents(r: Registry, removed: set<Id>): Registry {
    r.(agents := r.agents - removed, lastActivity := r.lastActivity - removed)
  }

  ghost predicate IdleAgentEviction(r: Registry, now: Time, removed: set<Id>) {
    var idle := IdleAgents(r, now, AGENT_IDLE_TTL_SECONDS);
    && idle <= removed
    && OldestFirst(removed, r.agents.Keys, ActivityTimes(r))
    && |removed| == |idle| + Max(0, |r.agents| - |idle| - MAX_AGENTS)
  }

  predicate AgentSweepDue(r: Registry, now: Time) {
    now - r.lastAgentCleanup >= CLEANUP_INTERVAL_SECONDS
  }

  /** Idle for longer than the limit. */
  predicate IsIdle(r: Registry, now: Time, id: Id) {
    LastActive(r, id) < now - AGENT_IDLE_TTL_SECONDS
  }

  /** More agents than the cap are not idle. */
  predicate HasExcess(r: Registry, now: Time) {
    |r.agents| - |IdleAgents(r, now, AGENT_IDLE_TTL_SECONDS)| > MAX_AGENTS
  }

  ghost predicate AgentsSwept(r: Registry, now: Time, removed: set<Id>) {
    if now - r.lastAgentCleanup < CLEANUP_INTERVAL_SECONDS then removed == {} else IdleAgentEviction(r, now, removed)
  }

  function AfterAgentSweep(r: Registry, now: Time, removed: set<Id>): Registry {
    if now - r.lastAgentCleanup < CLEANUP_INTERVAL_SECONDS then r
    else WithoutAgents(r, removed).(lastAgentCleanup := now)
  }

  ghost predicate ForcedAgentEviction(r: Registry, now: Time, removed: set<Id>) {
    var idle := IdleAgents(r, now, FORCED_IDLE_SECONDS);
    && removed <= idle
    && OldestFirst(removed, r.agents.Keys, ActivityTimes(r))
    && |removed| == Min(|idle|, Max(0, |r.agents| - MAX_AGENTS + AGENT_HEADROOM))
  }

  /** The sessions that lost an agent and have none left. */
  function AbandonedSessions(r: Registry, removed: set<Id>): set<Id>
    requires removed <= r.agents.Keys
  {
    set id | id in removed && r.agents[id].sessionId != Id("")
             && (forall a :: a in r.agents.Keys - removed ==> r.agents[a].sessionId != r.agents[id].sessionId)
      :: r.agents[id].sessionId
  }

  function Touched(r: Registry, agentId: Id, now: Time): Registry {
    r.(lastActivity := r.lastActivity[agentId := now])
  }

  function WithAgent(r: Registry, agentId: Id, agent: Agent, now: Time): Registry {
    r.(agents := r.agents[agentId := agent], lastActivity := r.lastActivity[agentId := now])
  }

  /** `get_or_create_agent` gives the agent back: it is there, or it is built and there is or can be made room. */
  predicate LookupSucceeds(r: Registry, agentId: Id, built: Option<Agent>, now: Time) {
    agentId in r.agents || (built.Some? && CanAdmitAgent(r, now))
  }

  predicate CanAdmitAgent(r: Registry, now: Time) {
    |r.agents| < MAX_AGENTS || |IdleAgents(r, now, FORCED_IDLE_SECONDS)| > |r.agents| - MAX_AGENTS
  }

  ghost predicate LookupEvicts(r: Registry, agentId: Id, now: Time, evicted: set<Id>) {
    if agentId in r.agents || |r.agents| < MAX_AGENTS then evicted == {} else ForcedAgentEviction(r, now, evicted)
  }

  /** The registry after a lookup that evicted those agents and, if it succeeded, stored `agent`. */
  function AfterLookup(r: Registry, agentId: Id, agent: Option<Agent>, evicted: set<Id>, now: Time): Registry {
    if agentId in r.agents then Touched(r, agentId, now)
    else if agent.Some? then WithAgent(WithoutAgents(r, evicted), agentId, agent.value, now)
    else WithoutAgents(r, evicted)
  }

  function WithResult(r: Registry, taskId: Id, result: TaskResult): Registry {
    r.(results := r.results[taskId := result])
  }

  function WithTask(r: Registry, taskId: Id, task: Task): Registry {
    r.(tasks := r.tasks[taskId := task], results := r.results[taskId := PENDING])
  }

  function SessionTasks(r: Registry, sessionId: Id): set<Id> {
    set id | id in r.tasks && r.tasks[id].sessionId == sessionId
  }

  function SessionAgents(r: Registry, sessionId: Id): set<Id> {
    set id | id in r.agents && r.agents[id].sessionId == sessionId
  }

  function WithoutSession(r: Registry, sessionId: Id): Registry {
    WithoutTasks(WithoutAgents(r, SessionAgents(r, sessionId)), SessionTasks(r, sessionId))
  }

  // ----- Whole operations -----

  /** A submission: refused exactly when the registry is full and nothing in it has finished; otherwise the task is
      pending and only finished tasks, oldest first, are gone. */
  ghost predicate Submitted(r: Registry, r': Registry, taskId: Id, task: Task, now2: Time,
                            refused: bool, evicted: set<Id>, idle: set<Id>)
  {
    && (refused <==> |r.tasks| == MAX_TASKS && FinishedTasks(r) == {})
    && OldestFirst(evicted, FinishedTasks(r), CreationTimes(r))
    && r'.tasks == (if refused then r.tasks else (r.tasks - evicted)[taskId := task])
    && r'.results == (if refused then r.results else (r.results - evicted)[taskId := PENDING])
    && r'.agents == r.agents - idle && r'.lastActivity == r.lastActivity - idle
    && AgentsSwept(r, now2, idle)
  }

  /** A run of a task: `agent` is what was built, if the call came that far. */
  ghost predicate Processed(r: Registry, r': Registry, taskId: Id, configured: bool, built: Option<Agent>,
                            reply: Option<string>, error: string, now1: Time, now2: Time, now3: Time,
                            result: TaskResult, evicted: set<Id>)
    requires taskId in r.tasks
  {
    var running, agentId := WithResult(r, taskId, RUNNING), r.tasks[taskId].agentId;
    var found := configured && LookupSucceeds(running, agentId, built, now1);
    && result == (if found && reply.Some? then TaskResult(Completed, reply, None)
                  else TaskResult(Failed, None, Some(error)))
    && (if configured then LookupEvicts(running, agentId, now1, evicted) else evicted == {})
    && var looked := if configured then AfterLookup(running, agentId, if found then built else None, evicted, now2)
                     else running;
       r' == WithResult(Touched(looked, agentId, now3), taskId, result)
  }
}
