/** `_run_with_startup_lock` as one worker runs it, step by step, while the other workers act on the same keys. Every
    command it issues is a step of `StartupLock`'s system, and it terminates. */
module StartupWorker {
  import opened Collections
  import opened StartupLock
  import opened StartupWait

  /** Whether the call returned, and whether by the timeout, or raised. */
  datatype Outcome = Normal | TimedOut | Exception

  /** What a waiting worker comes upon in one round. */
  datatype Poll = Marked | Free | Held | Raising

  /** What the others can make of the clock, the keys, their remaining acquisitions and the task. */
  predicate MayBecome(now: Time, keys: Keys, foreignLeft: nat, succeeded: bool,
                      later: Time, theirs: Keys, left: nat, done: bool)
  {
    && later >= now && left <= foreignLeft && (succeeded ==> done)
    && (theirs.complete.Some? ==> done || keys.complete.Some?)
    && (keys.complete.Some? ==> theirs.complete.Some? && theirs.complete.value >= keys.complete.value)
    && (theirs.complete.Some? ==> theirs.complete.value <= later + 60.0)
    && (Live(theirs.lock, later) && !Live(keys.lock, now) ==> left < foreignLeft)
  }

  class StartupWorker {
    var now: Time
    var keys: Keys
    /** How often the others will still acquire the lock. */
    var foreignLeft: nat
    /** Some run of the task has succeeded. */
    var succeeded: bool
    /** Where this worker is in the step system. */
    ghost var me: Worker
    /** How often this worker has run the task under the lock, and after an exception without it. */
    ghost var inside: nat
    ghost var outside: nat

    ghost predicate Sound()
      reads this
    {
      && (keys.complete.Some? ==> succeeded && keys.complete.value <= now + 60.0)
      && (Claims(me.phase) ==> succeeded)
    }

    /** The acquisitions still to come, counting the one that currently holds the lock. */
    ghost function Credit(): nat
      reads this
    {
      foreignLeft + if Live(keys.lock, now) then 1 else 0
    }

    constructor (keys: Keys, now: Time, foreignLeft: nat, succeeded: bool)
      requires keys.complete.Some? ==> succeeded && keys.complete.value <= now + 60.0
      ensures this.keys == keys && this.now == now && this.foreignLeft == foreignLeft && this.succeeded == succeeded
      ensures me == Worker(CheckComplete, 0, now) && Sound() && inside == 0 && outside == 0
    {
      this.keys, this.now, this.foreignLeft, this.succeeded := keys, now, foreignLeft, succeeded;
      me, inside, outside := Worker(CheckComplete, 0, now), 0, 0;
    }

    /** Time passes and the other workers act, in any way the shared keys allow. */
    method Others()
      requires Sound()
      modifies this`now, this`keys, this`foreignLeft, this`succeeded
      ensures Sound() && now >= old(now) && (old(succeeded) ==> succeeded)
      ensures foreignLeft <= old(foreignLeft) && MarkKept(old(keys))
      ensures Live(keys.lock, now) && !Live(old(keys).lock, old(now)) ==> foreignLeft < old(foreignLeft)
    {
      var later: Time, theirs: Keys, left: nat, done: bool := *, *, *, *;
      if MayBecome(now, keys, foreignLeft, succeeded, later, theirs, left, done) {
        now, keys, foreignLeft, succeeded := later, theirs, left, done;
      }
    }

    /** The completion key is still there and expires no earlier. */
    ghost predicate MarkKept(keys0: Keys)
      reads this
    {
      keys0.complete.Some? ==> keys.complete.Some? && keys.complete.value >= keys0.complete.value
    }

    /** The completion key that was there is still alive. */
    ghost predicate StillMarked(keys0: Keys)
      reads this
    {
      keys0.complete.Some? && now < keys0.complete.value
    }

    // ----- The commands, each one step of the system -----

    ghost predicate Stepped(keys0: Keys, me0: Worker, a: Action)
      requires Enabled(me0.phase, a)
      reads this
    {
      (keys, me) == Acted(now, keys0, me0, a)
    }

    /** A Redis error: the command raises, whether or not it was carried out and made the keys `effect`. */
    method Fails(effect: Keys)
      requires Enabled(me.phase, RedisFails) && Sound() && effect == Proceeded(now, keys, me).0
      modifies this`keys, this`me
      ensures Sound() && me == AfterException(old(me))
      ensures Stepped(old(keys), old(me), RedisFails) || Stepped(old(keys), old(me), ReplyLost)
      ensures keys == old(keys) || keys == effect
    {
      var carriedOut := *;
      if carriedOut {
        keys := effect;
      }
      me := AfterException(me);
    }

    /** GET of the completion key, before the first attempt or while polling. */
    method GetComplete() returns (found: bool)
      requires me.phase.CheckComplete? || (me.phase.PollComplete? && me.phase.waited < MAX_WAIT)
      requires Sound()
      modifies this`me
      ensures Stepped(keys, old(me), Proceed) && Sound()
      ensures found <==> me.phase == Returned(false)
      ensures found <==> keys.complete.Some? && now < keys.complete.value
    {
      found := Live(keys.complete, now);
      me := Proceeded(now, keys, me).1;
    }

    method SetLockIfAbsent() returns (acquired: bool)
      requires me.phase.TryAcquire? && Sound()
      modifies this`keys, this`me
      ensures Stepped(old(keys), old(me), Proceed) && Sound()
      ensures acquired <==> me.phase == InTask
      ensures !acquired ==> me.phase == PollComplete(0.0) && Live(keys.lock, now)
      ensures keys == if acquired then Keys(Some(now + 300.0), old(keys).complete) else old(keys)
    {
      ghost var next := Proceeded(now, keys, me).1;
      acquired := !Live(keys.lock, now);
      if acquired {
        keys := keys.(lock := Some(now + LOCK_TTL));
      }
      me := next;
    }

    method SetComplete()
      requires me.phase.MarkComplete? && Sound()
      modifies this`keys, this`me
      ensures Stepped(old(keys), old(me), Proceed) && Sound() && me.phase == Release(true)
      ensures keys == Keys(old(keys).lock, Some(now + 60.0))
    {
      me := Proceeded(now, keys, me).1;
      keys := keys.(complete := Some(now + COMPLETE_TTL));
    }

    method DeleteLock()
      requires me.phase.Release? && Sound()
      modifies this`keys, this`me
      ensures Stepped(old(keys), old(me), Proceed) && Sound()
      ensures keys == Keys(None, old(keys).complete)
    {
      me := Proceeded(now, keys, me).1;
      keys := keys.(lock := None);
    }

    method GetLock() returns (held: bool)
      requires me.phase.PollLock? && Sound()
      modifies this`me
      ensures Stepped(keys, old(me), Proceed) && Sound()
      ensures held <==> keys.lock.Some? && now < keys.lock.value
      ensures me.phase == if held then Sleeping(old(me).phase.waited) else CheckComplete
    {
      held := Live(keys.lock, now);
      me := Proceeded(now, keys, me).1;
    }

    /** A run of the task, which may raise. */
    method RunTask() returns (ok: bool)
      requires RunsTask(me.phase) && Sound()
      modifies this`me, this`succeeded, this`inside, this`outside
      ensures Stepped(keys, old(me), if ok then TaskSucceeds else TaskFails) && Sound()
      ensures succeeded <==> old(succeeded) || ok
      ensures inside == old(inside) + if old(me).phase == InTask then 1 else 0
      ensures outside == old(outside) + if old(me).phase == Fallback then 1 else 0
    {
      ok := *;
      if me.phase == InTask {
        inside := inside + 1;
      } else {
        outside := outside + 1;
      }
      me := Acted(now, keys, me, if ok then TaskSucceeds else TaskFails).1;
      succeeded := succeeded || ok;
    }

    // ----- The function itself -----

    /** The locked section. Raises if the task does, or if Redis fails at the completion key or at the release; if it
        does not, the mark lasts for a minute. */
    method RunHoldingLock() returns (ok: bool)
      requires me.phase == InTask && Sound()
      modifies this
      ensures Sound() && foreignLeft <= old(foreignLeft) && me.depth == old(me).depth
      ensures me.phase == if ok then Returned(false) else Fallback
      ensures now >= old(now) && (old(succeeded) ==> succeeded) && MarkKept(old(keys))
      ensures inside == old(inside) + 1 && outside == old(outside)
      ensures ok ==> keys.complete.Some? && keys.complete.value >= old(now) + 60.0
    {
      Others();
      ok := RunTask();
      Others();
      if ok {
        if * {
          Fails(keys.(complete := Some(now + COMPLETE_TTL)));
          ok := false;
        } else {
          SetComplete();
        }
      }
      Others();
      if * {
        Fails(keys.(lock := None));
        ok := false;
      } else {
        DeleteLock();
      }
    }

    /** The whole call. An exception escapes only past a failed run outside the lock; in a retry it lands in the
        handler of the call that made the retry, one level up. `polls` counts the sleeps, retries included. While a
        mark that it could have found lasts, it does not run the task under the lock. */
    method RunWithStartupLock() returns (outcome: Outcome, polls: nat)
      requires me.phase == CheckComplete && Sound()
      modifies this
      ensures Sound() && polls <= 240 * old(Credit())
      ensures outcome == Normal ==> me.phase == Returned(false) && succeeded
      ensures outcome == TimedOut ==> me.phase == Returned(true) && polls >= 240
      ensures now >= old(now) && MarkKept(old(keys)) && inside >= old(inside) && outside >= old(outside)
      ensures outcome == Normal ==> keys.complete.Some? || outside > old(outside)
      ensures outcome == Exception ==>
        if old(me).depth == 0 then me.phase == Raised else me.phase == Fallback && me.depth == old(me).depth - 1
      ensures StillMarked(old(keys)) ==> inside == old(inside) && polls == 0 && outcome != TimedOut
      ensures outcome == Exception ==> outside > old(outside)
      decreases Credit(), 2
    {
      outcome, polls := Attempt();
      if outcome == Exception {
        Others();
        var ok := RunTask();
        outcome := if ok then Normal else Exception;
      }
    }

    /** The body of the `try`: on `Exception` the handler is next. */
    method Attempt() returns (outcome: Outcome, polls: nat)
      requires me.phase == CheckComplete && Sound()
      modifies this
      ensures Sound() && polls <= 240 * old(Credit())
      ensures outcome == Normal ==> me.phase == Returned(false) && succeeded
      ensures outcome == TimedOut ==> me.phase == Returned(true) && polls >= 240
      ensures now >= old(now) && MarkKept(old(keys)) && inside >= old(inside) && outside >= old(outside)
      ensures outcome == Normal ==> keys.complete.Some? || outside > old(outside)
      ensures outcome == Exception ==> me.phase == Fallback && me.depth == old(me).depth
      ensures StillMarked(old(keys)) ==> inside == old(inside) && polls == 0 && outcome != TimedOut
      ensures StillMarked(old(keys)) ==> outside == old(outside)
      decreases Credit(), 1
    {
      polls := 0;
      Others();
      if * {
        Fails(keys);
        return Exception, polls;
      }
      var complete := GetComplete();
      if complete {
        return Normal, polls;
      }
      Others();
      if * {
        Fails(if Live(keys.lock, now) then keys else keys.(lock := Some(now + LOCK_TTL)));
        return Exception, polls;
      }
      var acquired := SetLockIfAbsent();
      if acquired {
        var ok := RunHoldingLock();
        return if ok then Normal else Exception, polls;
      }
      outcome, polls := AwaitCompletion();
    }

    /** One round of the polling loop: look for the mark, look for the lock, sleep. */
    method PollOnce() returns (seen: Poll)
      requires me.phase.PollComplete? && me.phase.waited < MAX_WAIT && Sound()
      modifies this
      ensures Sound() && foreignLeft <= old(foreignLeft) && now >= old(now) && MarkKept(old(keys))
      ensures inside == old(inside) && outside == old(outside)
      ensures StillMarked(old(keys)) ==> seen == Marked || seen == Raising
      ensures match seen
              case Marked => me.phase == Returned(false) && keys.complete.Some?
              case Free => me == Worker(CheckComplete, old(me).depth + 1, old(me).acquiredAt) && !Live(keys.lock, now)
              case Held => me == old(me).(phase := PollComplete(old(me).phase.waited + POLL_INTERVAL))
              case Raising => me == old(me).(phase := Fallback)
    {
      Others();
      if * {
        Fails(keys);
        return Raising;
      }
      var complete := GetComplete();
      if complete {
        return Marked;
      }
      Others();
      if * {
        Fails(keys);
        return Raising;
      }
      var held := GetLock();
      if !held {
        return Free;
      }
      Others();
      me := Proceeded(now, keys, me).1;
      seen := Held;
    }

    /** The polling loop of a worker that found the lock taken. */
    method AwaitCompletion() returns (outcome: Outcome, polls: nat)
      requires me.phase == PollComplete(0.0) && Live(keys.lock, now) && Sound()
      modifies this
      ensures Sound() && polls <= 240 * old(Credit())
      ensures outcome == Normal ==> me.phase == Returned(false) && succeeded
      ensures outcome == TimedOut ==> me.phase == Returned(true) && polls >= 240
      ensures now >= old(now) && MarkKept(old(keys)) && inside >= old(inside) && outside >= old(outside)
      ensures outcome == Normal ==> keys.complete.Some? || outside > old(outside)
      ensures outcome == Exception ==> me.phase == Fallback && me.depth == old(me).depth
      decreases Credit(), 0
    {
      polls := 0;
      var waited := 0.0;
      while waited < MAX_WAIT
        invariant Sound() && me.phase == PollComplete(waited) && me.depth == old(me).depth
        invariant foreignLeft + 1 <= old(Credit())
        invariant now >= old(now) && MarkKept(old(keys)) && inside == old(inside) && outside == old(outside)
        invariant 2.0 * waited == polls as real && polls <= 240
        decreases 240 - polls
      {
        var seen := PollOnce();
        match seen {
          case Marked => return Normal, polls;
          case Raising => return Exception, polls;
          case Free =>
            var retryPolls: nat;
            outcome, retryPolls := RunWithStartupLock();
            return outcome, polls + retryPolls;
          case Held =>
            waited, polls := waited + POLL_INTERVAL, polls + 1;
        }
      }
      me := Proceeded(now, keys, me).1;
      outcome := TimedOut;
    }
  }

  // ----- The other workers do no more than `Others` allows -----

  function Acquisitions(run: Run): nat {
    if run.Start? then 0
    else Acquisitions(run.before) + if Acquires(Last(run.before), run.event, run.after) then 1 else 0
  }

  lemma {:induction false} MarksAreBounded(run: Run)
    requires IsRun(run) && First(run).keys.complete == None
    ensures Last(run).keys.complete.Some? ==> Last(run).keys.complete.value <= Last(run).now + 60.0
  {
    if run.Then? {
      MarksAreBounded(run.before);
    }
  }

  lemma StepIsReliedOn(run: Run, left: nat)
    requires IsRun(run) && run.Then? && First(run).keys.complete == None
    requires Acquires(Last(run.before), run.event, run.after) ==> left > 0
    ensures var s, s' := Last(run.before), run.after;
            MayBecome(s.now, s.keys, left, Succeeded(run.before),
                      s'.now, s'.keys, left - (if Acquires(s, run.event, s') then 1 else 0), Succeeded(run))
  {
    ReturnMeansSomebodySucceeded(run.before);
    MarksAreBounded(run.before);
    MarksAreBounded(run);
    var s, e, s' := Last(run.before), run.event, run.after;
    if e.Act? && s'.keys.complete.Some? && s.keys.complete.None? {
      assert Claims(s.workers[e.worker].phase);
    }
  }

  /** Whatever the step system does between two moments of a worker, `Others` can do, with the number of acquisitions in
      between taken off. */
  lemma {:induction false} RunIsReliedOn(first: Run, later: Run, left: nat)
    requires IsRun(later) && Extends(first, later) && First(later).keys.complete == None
    requires Acquisitions(later) - Acquisitions(first) <= left
    ensures 0 <= Acquisitions(later) - Acquisitions(first)
    ensures MayBecome(Last(first).now, Last(first).keys, left, Succeeded(first),
                      Last(later).now, Last(later).keys, left - (Acquisitions(later) - Acquisitions(first)),
                      Succeeded(later))
  {
    MarksAreBounded(later);
    if later != first {
      var between := Acquisitions(later.before) - Acquisitions(first);
      RunIsReliedOn(first, later.before, left);
      StepIsReliedOn(later, left - between);
    }
  }
}
