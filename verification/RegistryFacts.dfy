/** Why the selections the clean-ups make are the evictions `Registry` describes, and what those leave behind. */
module RegistryFacts {
  import opened Collections
  import opened Eviction
  import opened Registry

  // ----- Why a pass over expired ids and a cut of a sorted list are one oldest-first removal -----

  /** Expired ids are the youngest-bounded part of the pool: everything else in it is at least as young. */
  lemma ExpiredThenPrefix(expired: set<Id>, prefix: set<Id>, pool: set<Id>, at: map<Id, Time>)
    requires pool <= at.Keys
    requires OldestFirst(expired, pool, at)
    requires OldestFirst(prefix, pool - expired, at)
    ensures OldestFirst(expired + prefix, pool, at)
    ensures |expired + prefix| == |expired| + |prefix|
  {
    assert expired !! prefix;
  }

  lemma NestedPrefixes(a: set<Id>, b: set<Id>, pool: set<Id>, at: map<Id, Time>)
    requires pool <= at.Keys
    requires OldestFirst(a, pool, at)
    requires b <= pool && forall x, y :: x in b && y in pool - b ==> at[x] < at[y]
    ensures a <= b || b <= a
    ensures OldestFirst(a + b, pool, at) && OldestFirst(a * b, pool, at)
    ensures |a + b| == Max(|a|, |b|) && |a * b| == Min(|a|, |b|)
  {
    if !(a <= b) {
      var x :| x in a && x !in b;
      forall y | y in b ensures y in a {
        assert at[y] < at[x];
      }
    }
    if a <= b {
      assert a + b == b && a * b == a;
      SubsetCard(a, b);
    } else {
      assert a + b == a && a * b == b;
      SubsetCard(b, a);
    }
  }

  lemma ExpiredAreOldest(r: Registry, now: Time)
    ensures var expired, finished, at := ExpiredTasks(r, now), FinishedTasks(r), CreationTimes(r);
            && OldestFirst(expired, finished, at)
            && (forall x, y :: x in expired && y in finished - expired ==> at[x] < at[y])
            && |finished - expired| == |finished| - |expired|
  {
    SubsetCard(ExpiredTasks(r, now), FinishedTasks(r));
  }

  lemma OnlyExpired(r: Registry, now: Time)
    requires |r.tasks| - |ExpiredTasks(r, now)| <= MAX_TASKS
    ensures PeriodicTaskEviction(r, now, ExpiredTasks(r, now))
  {
    ExpiredAreOldest(r, now);
  }

  lemma PeriodicParts(r: Registry, now: Time, oldest: seq<Stamp>, n: nat)
    requires Sorted(oldest) && DistinctIds(oldest) && Stamped(oldest, CreationTimes(r))
    requires Ids(oldest) == FinishedTasks(r) - ExpiredTasks(r, now)
    requires n == Min(|oldest|, Max(0, |r.tasks| - |ExpiredTasks(r, now)| - MAX_TASKS))
    ensures PeriodicTaskEviction(r, now, ExpiredTasks(r, now) + Ids(oldest[..n]))
  {
    ExpiredAreOldest(r, now);
    DistinctMeansOnce(oldest);
    SortedPrefix(oldest, n, CreationTimes(r));
    ExpiredThenPrefix(ExpiredTasks(r, now), Ids(oldest[..n]), FinishedTasks(r), CreationTimes(r));
  }

  lemma ForcedParts(r: Registry, now: Time, oldest: seq<Stamp>, n: nat)
    requires Sorted(oldest) && DistinctIds(oldest) && Stamped(oldest, CreationTimes(r))
    requires Ids(oldest) == FinishedTasks(r)
    requires n == Min(|oldest|, Max(0, |r.tasks| - MAX_TASKS + TASK_HEADROOM))
    ensures ForcedTaskEviction(r, now, Ids(oldest[..n]) + ExpiredTasks(r, now))
  {
    ExpiredAreOldest(r, now);
    DistinctMeansOnce(oldest);
    SortedPrefix(oldest, n, CreationTimes(r));
    NestedPrefixes(Ids(oldest[..n]), ExpiredTasks(r, now), FinishedTasks(r), CreationTimes(r));
  }

  /** In a consistent registry a forced clean-up of a full registry frees room exactly when something has finished. */
  lemma ForcedEvictionFreesRoom(r: Registry, now: Time, removed: set<Id>)
    requires |r.tasks| == MAX_TASKS && ForcedTaskEviction(r, now, removed)
    ensures removed != {} <==> FinishedTasks(r) != {}
    ensures removed == {} <==> |WithoutTasks(r, removed).tasks| >= MAX_TASKS
  {
    var finished := FinishedTasks(r);
    TasksLeft(r, removed);
    if finished != {} {
      var id :| id in finished;
      assert finished == {id} + (finished - {id});
      assert |finished| >= 1;
    }
  }

  lemma TasksLeft(r: Registry, removed: set<Id>)
    requires removed <= r.tasks.Keys
    ensures |WithoutTasks(r, removed).tasks| == |r.tasks| - |removed|
  {
    SubsetCard(removed, r.tasks.Keys);
    assert (r.tasks - removed).Keys == r.tasks.Keys - removed;
  }

  lemma AgentsLeft(r: Registry, removed: set<Id>)
    requires removed <= r.agents.Keys
    ensures |WithoutAgents(r, removed).agents| == |r.agents| - |removed|
  {
    SubsetCard(removed, r.agents.Keys);
    assert (r.agents - removed).Keys == r.agents.Keys - removed;
  }

  lemma NextStamp(xs: seq<Stamp>, k: nat)
    requires DistinctIds(xs) && k < |xs|
    ensures xs[k].id in Ids(xs) && xs[k].id !in Ids(xs[..k])
    ensures Ids(xs[..k + 1]) == Ids(xs[..k]) + {xs[k].id}
  {
    assert xs[k] in xs;
    assert xs[..k + 1] == xs[..k] + [xs[k]];
  }

  lemma Concatenated(xs: seq<Id>, ys: seq<Id>)
    requires NoDup(xs) && NoDup(ys) && ToSet(xs) !! ToSet(ys)
    ensures NoDup(xs + ys) && ToSet(xs + ys) == ToSet(xs) + ToSet(ys)
  {
    assert forall k :: 0 <= k < |xs| ==> xs[k] in ToSet(xs);
    assert forall k :: 0 <= k < |ys| ==> ys[k] in ToSet(ys);
  }

  lemma ForcedUnion(r: Registry, now: Time, oldest: seq<Stamp>, n: nat, head: seq<Id>, late: seq<Id>)
    requires Sorted(oldest) && DistinctIds(oldest) && Stamped(oldest, CreationTimes(r))
    requires Ids(oldest) == FinishedTasks(r)
    requires n == Min(|oldest|, Max(0, |r.tasks| - MAX_TASKS + TASK_HEADROOM))
    requires NoDup(head) && ToSet(head) == Ids(oldest[..n])
    requires NoDup(late) && ToSet(late) == ExpiredTasks(r, now) - ToSet(head)
    ensures NoDup(head + late) && ForcedTaskEviction(r, now, ToSet(head + late))
  {
    ForcedParts(r, now, oldest, n);
    Concatenated(head, late);
    UnionOfRest(ToSet(head), ExpiredTasks(r, now));
  }

  lemma IdleAreOldest(r: Registry, now: Time, limit: Time)
    ensures var idle, all, at := IdleAgents(r, now, limit), r.agents.Keys, ActivityTimes(r);
            && OldestFirst(idle, all, at)
            && (forall x, y :: x in idle && y in all - idle ==> at[x] < at[y])
            && |all - idle| == |r.agents| - |idle|
  {
    SubsetCard(IdleAgents(r, now, limit), r.agents.Keys);
  }

  lemma OnlyIdle(r: Registry, now: Time)
    requires |r.agents| - |IdleAgents(r, now, AGENT_IDLE_TTL_SECONDS)| <= MAX_AGENTS
    ensures IdleAgentEviction(r, now, IdleAgents(r, now, AGENT_IDLE_TTL_SECONDS))
  {
    IdleAreOldest(r, now, AGENT_IDLE_TTL_SECONDS);
  }

  lemma IdleParts(r: Registry, now: Time, oldest: seq<Stamp>, n: nat)
    requires Sorted(oldest) && DistinctIds(oldest) && Stamped(oldest, ActivityTimes(r))
    requires Ids(oldest) == r.agents.Keys - IdleAgents(r, now, AGENT_IDLE_TTL_SECONDS)
    requires n == |r.agents| - |IdleAgents(r, now, AGENT_IDLE_TTL_SECONDS)| - MAX_AGENTS
    ensures n <= |oldest|
    ensures IdleAgentEviction(r, now, IdleAgents(r, now, AGENT_IDLE_TTL_SECONDS) + Ids(oldest[..n]))
  {
    var idle := IdleAgents(r, now, AGENT_IDLE_TTL_SECONDS);
    IdleAreOldest(r, now, AGENT_IDLE_TTL_SECONDS);
    DistinctMeansOnce(oldest);
    SortedPrefix(oldest, n, ActivityTimes(r));
    ExpiredThenPrefix(idle, Ids(oldest[..n]), r.agents.Keys, ActivityTimes(r));
  }

  lemma LeastActivePrefix(r: Registry, oldest: seq<Stamp>, n: nat)
    requires Sorted(oldest) && DistinctIds(oldest) && Stamped(oldest, ActivityTimes(r))
    requires Ids(oldest) == r.agents.Keys && n <= |oldest|
    ensures |oldest| == |r.agents| && |Ids(oldest[..n])| == n
    ensures OldestFirst(Ids(oldest[..n]), r.agents.Keys, ActivityTimes(r))
  {
    DistinctMeansOnce(oldest);
    SortedPrefix(oldest, n, ActivityTimes(r));
  }

  /** The idle ones of a least-recently-active selection. */
  lemma IdlePartOf(r: Registry, now: Time, limit: Time, prefix: set<Id>)
    requires OldestFirst(prefix, r.agents.Keys, ActivityTimes(r))
    ensures var idle := IdleAgents(r, now, limit);
            && OldestFirst(prefix * idle, r.agents.Keys, ActivityTimes(r))
            && |prefix * idle| == Min(|prefix|, |idle|) && |idle| <= |r.agents|
  {
    IdleAreOldest(r, now, limit);
    NestedPrefixes(prefix, IdleAgents(r, now, limit), r.agents.Keys, ActivityTimes(r));
    SubsetCard(IdleAgents(r, now, limit), r.agents.Keys);
  }

  lemma ForcedIdleParts(r: Registry, now: Time, oldest: seq<Stamp>, n: nat)
    requires Sorted(oldest) && DistinctIds(oldest) && Stamped(oldest, ActivityTimes(r))
    requires Ids(oldest) == r.agents.Keys
    requires n == Min(|oldest|, Max(0, |r.agents| - MAX_AGENTS + AGENT_HEADROOM))
    ensures ForcedAgentEviction(r, now, Ids(oldest[..n]) * IdleAgents(r, now, FORCED_IDLE_SECONDS))
  {
    LeastActivePrefix(r, oldest, n);
    IdlePartOf(r, now, FORCED_IDLE_SECONDS, Ids(oldest[..n]));
  }

  /** Filtering the sessions that lost an agent by "no agent left" gives the abandoned ones. */
  lemma AbandonedAreThose(r: Registry, removed: set<Id>, sessions: set<Id>, left: map<Id, Agent>, gone: set<Id>)
    requires removed <= r.agents.Keys && left == r.agents - removed
    requires sessions == set id | id in removed && r.agents[id].sessionId != Id("") :: r.agents[id].sessionId
    requires gone == set s | s in sessions && forall a :: a in left ==> left[a].sessionId != s
    ensures gone == AbandonedSessions(r, removed)
  {
    forall s | s in gone ensures s in AbandonedSessions(r, removed) {
      var id :| id in removed && r.agents[id].sessionId != Id("") && r.agents[id].sessionId == s;
      forall a | a in r.agents.Keys - removed ensures r.agents[a].sessionId != s {
        assert a in left;
      }
    }
    forall s | s in AbandonedSessions(r, removed) ensures s in gone {
    }
  }

  // ----- Consequences of the evictions -----

  /** Evicting twice, each time oldest first, is oldest first overall. */
  lemma EvictedTwice(r: Registry, first: set<Id>, second: set<Id>)
    requires OldestFirst(first, FinishedTasks(r), CreationTimes(r))
    requires OldestFirst(second, FinishedTasks(WithoutTasks(r, first)), CreationTimes(WithoutTasks(r, first)))
    ensures FinishedTasks(WithoutTasks(r, first)) == FinishedTasks(r) - first
    ensures OldestFirst(first + second, FinishedTasks(r), CreationTimes(r))
  {
    var left := WithoutTasks(r, first);
    FinishedLeft(r, first);
    assert forall id :: id in FinishedTasks(left) ==> CreationTimes(left)[id] == CreationTimes(r)[id];
    assert OldestFirst(second, FinishedTasks(r) - first, CreationTimes(r));
    ExpiredThenPrefix(first, second, FinishedTasks(r), CreationTimes(r));
  }

  lemma SweepIsOldestFirst(r: Registry, now: Time, removed: set<Id>)
    requires TasksSwept(r, now, removed)
    ensures removed <= FinishedTasks(r) && OldestFirst(removed, FinishedTasks(r), CreationTimes(r))
    ensures var left := AfterTaskSweep(r, now, removed);
            && left.tasks == r.tasks - removed && left.results == r.results - removed
            && left.agents == r.agents && left.lastActivity == r.lastActivity
            && left.lastAgentCleanup == r.lastAgentCleanup
  {
    RemovedNone(r.tasks);
    RemovedNone(r.results);
  }

  lemma AgentSweepDependsOnAgents(r: Registry, s: Registry, now: Time, removed: set<Id>)
    requires r.agents == s.agents && r.lastActivity == s.lastActivity && r.lastAgentCleanup == s.lastAgentCleanup
    requires AgentsSwept(r, now, removed)
    ensures AgentsSwept(s, now, removed)
    ensures var left := AfterAgentSweep(r, now, removed);
            && left.agents == r.agents - removed && left.lastActivity == r.lastActivity - removed
            && left.tasks == r.tasks && left.results == r.results
  {
    RemovedNone(r.agents);
    RemovedNone(r.lastActivity);
  }

  /** Being full of unfinished tasks is the same before and after a clean-up of finished ones. */
  lemma FullnessSurvives(r: Registry, evicted: set<Id>)
    requires |r.tasks| <= MAX_TASKS && evicted <= FinishedTasks(r)
    ensures var left := WithoutTasks(r, evicted);
            && |left.tasks| <= MAX_TASKS
            && FinishedTasks(left) == FinishedTasks(r) - evicted
            && (|left.tasks| == MAX_TASKS ==> evicted == {})
            && (|left.tasks| == MAX_TASKS && FinishedTasks(left) == {}
                <==> |r.tasks| == MAX_TASKS && FinishedTasks(r) == {})
  {
    TasksLeft(r, evicted);
    FinishedLeft(r, evicted);
  }

  /** A submission's two clean-ups of tasks, seen from the state before both. */
  lemma SubmissionEvictions(before: Registry, swept: set<Id>, middle: Registry, full: bool, forced: set<Id>)
    requires |before.tasks| <= MAX_TASKS
    requires OldestFirst(swept, FinishedTasks(before), CreationTimes(before))
    requires middle.tasks == before.tasks - swept && middle.results == before.results - swept
    requires full <==> |middle.tasks| == MAX_TASKS && FinishedTasks(middle) == {}
    requires OldestFirst(forced, FinishedTasks(middle), CreationTimes(middle)) && (full ==> forced == {})
    ensures |middle.tasks| <= MAX_TASKS
    ensures full <==> |before.tasks| == MAX_TASKS && FinishedTasks(before) == {}
    ensures full ==> swept + forced == {}
    ensures OldestFirst(swept + forced, FinishedTasks(before), CreationTimes(before))
    ensures middle.tasks - forced == before.tasks - (swept + forced)
    ensures middle.results - forced == before.results - (swept + forced)
  {
    assert WithoutTasks(before, swept).tasks == middle.tasks && WithoutTasks(before, swept).results == middle.results;
    FullnessSurvives(before, swept);
    EvictedTwice(before, swept, forced);
    RemovedTwice(before.tasks, swept, forced);
    RemovedTwice(before.results, swept, forced);
  }

  lemma NoneCancelled(results: map<Id, TaskResult>)
    ensures CancelledIn(results, {}) == results
  {
  }

  lemma OneMoreCancelled(results: map<Id, TaskResult>, done: set<Id>, id: Id)
    ensures CancelledIn(results, done + {id}) == CancelledIn(results, done)[id := CANCELLED]
  {
  }

  lemma NotYetCancelled(r: Registry, done: set<Id>, agentId: Id, id: Id)
    requires id in r.tasks && id !in done
    ensures id in UnfinishedTasksOf(r, agentId) <==>
            r.tasks[id].agentId == agentId && !FinishedIn(r.tasks, CancelledIn(r.results, done), id)
  {
  }

  lemma AdmittedIsConsistent(r: Registry, taskId: Id, task: Task)
    requires Consistent(r) && |r.tasks| < MAX_TASKS
    ensures Consistent(WithTask(r, taskId, task))
  {
    assert r.tasks[taskId := task].Keys == r.tasks.Keys + {taskId};
  }

  lemma EvictedIsConsistent(r: Registry, left: Registry, evicted: set<Id>, idle: set<Id>)
    requires Consistent(r)
    requires left.tasks == r.tasks - evicted && left.results == r.results - evicted
    requires left.agents == r.agents - idle && left.lastActivity == r.lastActivity - idle
    ensures Consistent(left)
  {
    assert left.tasks.Keys == r.tasks.Keys - evicted;
    SubsetCard(left.tasks.Keys, r.tasks.Keys);
  }

  /** An idle-agent clean-up leaves nobody over the idle limit and the registry within its cap. */
  lemma IdleEvictionEffect(r: Registry, now: Time, removed: set<Id>)
    requires IdleAgentEviction(r, now, removed)
    ensures IdleAgents(WithoutAgents(r, removed), now, AGENT_IDLE_TTL_SECONDS) == {}
    ensures |WithoutAgents(r, removed).agents| <= MAX_AGENTS
    ensures forall gone, kept :: gone in removed && kept in WithoutAgents(r, removed).agents ==>
              LastActive(r, gone) <= LastActive(r, kept)
  {
    AgentsLeft(r, removed);
    var left := WithoutAgents(r, removed);
    forall id | id in left.agents ensures id !in IdleAgents(left, now, AGENT_IDLE_TTL_SECONDS) {
      assert id !in IdleAgents(r, now, AGENT_IDLE_TTL_SECONDS);
    }
    forall gone, kept | gone in removed && kept in left.agents
      ensures LastActive(r, gone) <= LastActive(r, kept)
    {
      assert ActivityTimes(r)[gone] <= ActivityTimes(r)[kept];
    }
  }

  lemma FinishedLeft(r: Registry, removed: set<Id>)
    ensures FinishedTasks(WithoutTasks(r, removed)) == FinishedTasks(r) - removed
  {
  }

  /** What a periodic task clean-up leaves: no expired finished task, more than the cap only if unfinished tasks
      alone exceed it, and no finished task older than one it removed. */
  lemma PeriodicEvictionEffect(r: Registry, now: Time, removed: set<Id>)
    requires PeriodicTaskEviction(r, now, removed)
    ensures ExpiredTasks(WithoutTasks(r, removed), now) == {}
    ensures |WithoutTasks(r, removed).tasks| <= MAX_TASKS || FinishedTasks(WithoutTasks(r, removed)) == {}
    ensures forall gone, kept :: gone in removed && kept in FinishedTasks(r) - removed ==>
              gone in FinishedTasks(r) && r.tasks[gone].createdAt <= r.tasks[kept].createdAt
  {
    TasksLeft(r, removed);
    FinishedLeft(r, removed);
    SubsetCard(removed, FinishedTasks(r));
    forall gone, kept | gone in removed && kept in FinishedTasks(r) - removed
      ensures r.tasks[gone].createdAt <= r.tasks[kept].createdAt
    {
      assert CreationTimes(r)[gone] <= CreationTimes(r)[kept];
    }
  }

  /** A forced agent clean-up makes room exactly when enough agents have been idle for a minute. */
  lemma ForcedAgentEvictionFreesRoom(r: Registry, now: Time, removed: set<Id>)
    requires |r.agents| >= MAX_AGENTS && ForcedAgentEviction(r, now, removed)
    ensures removed == {} || |WithoutAgents(r, removed).agents| >= MAX_AGENTS
            <==> |IdleAgents(r, now, FORCED_IDLE_SECONDS)| <= |r.agents| - MAX_AGENTS
  {
    SubsetCard(removed, r.agents.Keys);
    AgentsLeft(r, removed);
  }

  /** Which agents a sweep takes: none before it is due; then every idle one, and others only where more than the cap
      are not idle. */
  lemma SweepTakes(r: Registry, now: Time, removed: set<Id>, id: Id)
    requires AgentsSwept(r, now, removed) && id in r.agents
    ensures id in removed ==> AgentSweepDue(r, now) && (IsIdle(r, now, id) || HasExcess(r, now))
    ensures AgentSweepDue(r, now) && IsIdle(r, now, id) ==> id in removed
  {
    var idle := IdleAgents(r, now, AGENT_IDLE_TTL_SECONDS);
    assert id in idle <==> IsIdle(r, now, id);
    if AgentSweepDue(r, now) && !HasExcess(r, now) {
      SubsetCard(idle, removed);
      assert removed - idle == {};
    }
  }
}
