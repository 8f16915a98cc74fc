/** The polling half of the CLI's authentication service, with the timers of the JavaScript runtime. */
module AuthService {
  import opened Collections
  import opened DeviceFlow

  class AuthService {
    var pollInterval: Option<nat>
    var aborted: bool

    // Captured by the poll callback.
    var currentInterval: int

    // The runtime: interval timers, polls between their awaits, and the promise.
    var live: map<nat, int>
    var nextHandle: nat
    var polls: map<nat, Phase>
    var nextPoll: nat
    var requests: nat
    var promise: Promise
    var settlements: nat

    ghost var run: Run

    function State(): Flow
      reads this
    {
      Flow(aborted, pollInterval, live, nextHandle, currentInterval, polls, nextPoll, requests, promise, settlements)
    }

    ghost predicate Valid()
      reads this
    {
      IsRun(run) && Last(run) == State()
    }

    /** `pollForToken` up to its return. */
    constructor (interval: int)
      ensures Valid() && run == Start(interval)
    {
      pollInterval, aborted, currentInterval := None, false, interval;
      live, nextHandle, polls, nextPoll, requests := map[], 0, map[], 0, 0;
      promise, settlements := Unsettled, 0;
      new;
      RestartTimer(interval);
      Poll();
      run := Start(interval);
    }

    method ClearTimer()
      modifies this`live, this`pollInterval
      ensures State() == StopPolling(old(State()))
    {
      match pollInterval {
        case None =>
        case Some(handle) =>
          live := live - {handle};
          pollInterval := None;
      }
    }

    /** `restartPolling`: `setInterval` after `stopPolling`. */
    method RestartTimer(seconds: int)
      modifies this`live, this`pollInterval, this`nextHandle
      ensures State() == RestartPolling(old(State()), seconds)
    {
      ClearTimer();
      live := live[nextHandle := seconds];
      pollInterval := Some(nextHandle);
      nextHandle := nextHandle + 1;
    }

    method Settle(outcome: Promise)
      modifies this`promise, this`settlements
      ensures State() == Settled(old(State()), outcome)
    {
      if promise.Unsettled? {
        promise := outcome;
      }
      settlements := settlements + 1;
    }

    /** A poll up to its first await. */
    method Poll()
      modifies this`live, this`pollInterval, this`promise, this`settlements, this`polls, this`nextPoll, this`requests
      ensures State() == PollStarted(old(State()))
    {
      if aborted {
        ClearTimer();
        Settle(Rejected(Cancelled));
        return;
      }
      polls := polls[nextPoll := Asking];
      nextPoll := nextPoll + 1;
      requests := requests + 1;
    }

    method TimerFires(timer: nat)
      requires Valid() && timer in live
      modifies this
      ensures Valid() && run == Then(old(run), Fire(timer), State())
    {
      Poll();
      run := Then(run, Fire(timer), State());
    }

    /** A poll from its answer to its next await or its end. */
    method HandleResponse(poll: nat, response: Response)
      requires Valid() && poll in polls && polls[poll].Asking?
      modifies this
      ensures Valid() && run == Then(old(run), Answer(poll, response), State())
    {
      ghost var before := State();
      match response {
        case Pending => polls := polls - {poll};
        case Failed => polls := polls - {poll};
        case SlowDown =>
          polls := polls - {poll};
          currentInterval := currentInterval + 5;
          RestartTimer(currentInterval);
        case ExpiredToken => Reject(poll, Expired);
        case AccessDenied => Reject(poll, Denied);
        case OtherError(text) => Reject(poll, Refused(text));
        case Token(token, stored) =>
          ClearTimer();
          if stored {
            polls := polls[poll := Storing(token)];
          } else {
            polls := polls - {poll};
          }
      }
      assert State() == Answered(before, poll, response);
      run := Then(run, Answer(poll, response), State());
    }

    method Reject(poll: nat, reason: Reason)
      modifies this`live, this`pollInterval, this`promise, this`settlements, this`polls
      ensures State() == Settled(StopPolling(old(State()).(polls := old(polls) - {poll})), Rejected(reason))
    {
      polls := polls - {poll};
      ClearTimer();
      Settle(Rejected(reason));
    }

    /** The user's data has come, or the request for it has failed. */
    method FinishToken(poll: nat)
      requires Valid() && poll in polls && polls[poll].Storing?
      modifies this
      ensures Valid() && run == Then(old(run), Stored(poll), State())
    {
      var token := polls[poll].token;
      polls := polls - {poll};
      Settle(Resolved(token));
      run := Then(run, Stored(poll), State());
    }

    method AbortFlow()
      requires Valid()
      modifies this
      ensures Valid() && run == Then(old(run), Abort, State())
    {
      aborted := true;
      ClearTimer();
      run := Then(run, Abort, State());
    }
  }
}
