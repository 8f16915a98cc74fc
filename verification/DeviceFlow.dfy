/** One device authorization flow: the interval timer, the polls it starts, and the promise they settle
    (section 3.5 of RFC 8628). */
module DeviceFlow {
  import opened Collections

  datatype Response =
    | Pending
    | SlowDown
    | ExpiredToken
    | AccessDenied
    | OtherError(text: string)
    | Token(token: string, stored: bool)   // whether `setCredentials` goes through
    | Failed                               // the request itself throws

  datatype Reason = Cancelled | Expired | Denied | Refused(text: string)

  datatype Promise = Unsettled | Resolved(token: string) | Rejected(reason: Reason)

  /** What a poll is waiting for: the answer to its request, or the user's data after its token. */
  datatype Phase = Asking | Storing(token: string)

  datatype Flow = Flow(
    aborted: bool,
    pollInterval: Option<nat>,       // the handle the service remembers
    live: map<nat, int>,             // the runtime's interval timers, with their seconds
    nextHandle: nat,
    currentInterval: int,
    polls: map<nat, Phase>,
    nextPoll: nat,
    requests: nat,                   // token requests sent
    promise: Promise,
    settlements: nat)                // calls of resolve or reject

  datatype Event =
    | Fire(timer: nat)
    | Answer(poll: nat, response: Response)
    | Stored(poll: nat)              // the user's data came, or did not
    | Abort

  // ----- Steps -----

  function StopPolling(f: Flow): Flow {
    match f.pollInterval
    case None => f
    case Some(handle) => f.(live := f.live - {handle}, pollInterval := None)
  }

  function SetInterval(f: Flow, seconds: int): Flow {
    f.(live := f.live[f.nextHandle := seconds], pollInterval := Some(f.nextHandle), nextHandle := f.nextHandle + 1)
  }

  function RestartPolling(f: Flow, seconds: int): Flow {
    SetInterval(StopPolling(f), seconds)
  }

  function Settled(f: Flow, promise: Promise): Flow {
    f.(promise := if f.promise.Unsettled? then promise else f.promise, settlements := f.settlements + 1)
  }

  function PollStarted(f: Flow): Flow {
    if f.aborted then Settled(StopPolling(f), Rejected(Cancelled))
    else f.(polls := f.polls[f.nextPoll := Asking], nextPoll := f.nextPoll + 1, requests := f.requests + 1)
  }

  /** `pollForToken` up to its return: the timer, and the first poll at once. */
  function Begun(interval: int): Flow {
    PollStarted(SetInterval(Flow(false, None, map[], 0, interval, map[], 0, 0, Unsettled, 0), interval))
  }

  function Answered(f: Flow, poll: nat, response: Response): Flow {
    var over := f.(polls := f.polls - {poll});
    match response
    case Pending => over
    case Failed => over
    case SlowDown =>
      var slower := over.(currentInterval := over.currentInterval + 5);
      RestartPolling(slower, slower.currentInterval)
    case ExpiredToken => Settled(StopPolling(over), Rejected(Expired))
    case AccessDenied => Settled(StopPolling(over), Rejected(Denied))
    case OtherError(text) => Settled(StopPolling(over), Rejected(Refused(text)))
    case Token(token, stored) =>
      if stored then StopPolling(f).(polls := f.polls[poll := Storing(token)]) else StopPolling(over)
  }

  function StoredFor(f: Flow, poll: nat): Flow
    requires poll in f.polls && f.polls[poll].Storing?
  {
    Settled(f.(polls := f.polls - {poll}), Resolved(f.polls[poll].token))
  }

  function Aborted(f: Flow): Flow {
    StopPolling(f.(aborted := true))
  }

  predicate Enabled(f: Flow, event: Event) {
    match event
    case Fire(timer) => timer in f.live
    case Answer(poll, _) => poll in f.polls && f.polls[poll].Asking?
    case Stored(poll) => poll in f.polls && f.polls[poll].Storing?
    case Abort => true
  }

  function Next(f: Flow, event: Event): Flow
    requires Enabled(f, event)
  {
    match event
    case Fire(_) => PollStarted(f)
    case Answer(poll, response) => Answered(f, poll, response)
    case Stored(poll) => StoredFor(f, poll)
    case Abort => Aborted(f)
  }

  datatype Run = Start(interval: int) | Then(before: Run, event: Event, after: Flow)

  function Last(run: Run): Flow {
    if run.Start? then Begun(run.interval) else run.after
  }

  ghost predicate IsRun(run: Run) {
    run.Then? ==>
      IsRun(run.before) && Enabled(Last(run.before), run.event) && run.after == Next(Last(run.before), run.event)
  }

  /** No poll starts while another one is under way. */
  ghost predicate IsSerial(run: Run) {
    run.Then? ==> IsSerial(run.before) && (run.event.Fire? ==> Last(run.before).polls == map[])
  }

  ghost predicate Extends(first: Run, later: Run) {
    later == first || (later.Then? && Extends(first, later.before))
  }

  // ----- What a history says -----

  function Initial(run: Run): int {
    if run.Start? then run.interval else Initial(run.before)
  }

  function SlowDowns(run: Run): nat {
    if run.Start? then 0
    else SlowDowns(run.before) + if run.event.Answer? && run.event.response.SlowDown? then 1 else 0
  }

  predicate IsFinalError(response: Response) {
    response.ExpiredToken? || response.AccessDenied? || response.OtherError?
  }

  predicate IsFinal(response: Response) {
    response.Token? || IsFinalError(response)
  }

  // ----- The timer, in every run -----

  /** The service's handle is the only live timer, and it runs at the current interval. */
  predicate OneTimer(f: Flow) {
    && f.live == (match f.pollInterval case None => map[] case Some(h) => map[h := f.currentInterval])
    && (f.pollInterval.Some? ==> f.pollInterval.value < f.nextHandle)
  }

  lemma StopLeavesNone(f: Flow)
    requires OneTimer(f)
    ensures StopPolling(f).live == map[] && StopPolling(f).pollInterval == None
  {
  }

  lemma RestartLeavesOne(f: Flow, slower: Flow)
    requires OneTimer(f) && slower == f.(currentInterval := f.currentInterval + 5)
    ensures OneTimer(RestartPolling(slower, slower.currentInterval))
  {
    assert StopPolling(slower).live == map[];
    assert map[][slower.nextHandle := slower.currentInterval] == map[slower.nextHandle := slower.currentInterval];
  }

  lemma OneTimerKept(f: Flow, event: Event)
    requires OneTimer(f) && Enabled(f, event)
    ensures OneTimer(Next(f, event))
  {
    StopLeavesNone(f);
    if event.Answer? && event.response.SlowDown? {
      var over := f.(polls := f.polls - {event.poll});
      RestartLeavesOne(over, over.(currentInterval := over.currentInterval + 5));
    }
  }

  lemma IntervalAfter(f: Flow, event: Event)
    requires Enabled(f, event)
    ensures Next(f, event).currentInterval ==
            f.currentInterval + if event.Answer? && event.response.SlowDown? then 5 else 0
  {
  }

  lemma {:induction false} TimerInv(run: Run)
    requires IsRun(run)
    ensures OneTimer(Last(run))
    ensures Last(run).currentInterval == Initial(run) + 5 * SlowDowns(run)
  {
    if run.Start? {
      OneTimerBegins(run.interval);
    } else {
      TimerInv(run.before);
      OneTimerKept(Last(run.before), run.event);
      IntervalAfter(Last(run.before), run.event);
    }
  }

  lemma OneTimerBegins(interval: int)
    ensures OneTimer(Begun(interval)) && Begun(interval).currentInterval == interval
  {
  }

  /** At most one timer is live, the service holds its handle, and its interval is the initial one plus
      five seconds for every slow_down: in every run, overlapping polls or not. */
  lemma TimerFollowsSlowDowns(run: Run)
    requires IsRun(run)
    ensures Last(run).live == match Last(run).pollInterval
                              case None => map[]
                              case Some(h) => map[h := Initial(run) + 5 * SlowDowns(run)]
  {
    TimerInv(run);
  }

  // ----- After a final answer -----

  /** No timer is live and no poll waits for an answer. */
  predicate IsQuiet(f: Flow) {
    f.live == map[] && f.pollInterval == None && forall poll :: poll in f.polls ==> f.polls[poll].Storing?
  }

  lemma QuietStaysQuiet(f: Flow, event: Event)
    requires IsQuiet(f) && Enabled(f, event)
    ensures IsQuiet(Next(f, event)) && Next(f, event).requests == f.requests
  {
  }

  lemma {:induction false} QuietForGood(first: Run, later: Run)
    requires IsRun(later) && Extends(first, later) && IsQuiet(Last(first))
    ensures IsQuiet(Last(later)) && Last(later).requests == Last(first).requests
  {
    if later != first {
      QuietForGood(first, later.before);
      QuietStaysQuiet(Last(later.before), later.event);
    }
  }

  /** Some other poll waits for its answer. */
  predicate OtherAsks(f: Flow, poll: nat) {
    exists other :: other in f.polls && other != poll && f.polls[other].Asking?
  }

  lemma FinalStopsTimer(f: Flow, poll: nat, response: Response)
    requires OneTimer(f) && Enabled(f, Answer(poll, response)) && IsFinal(response)
    ensures Answered(f, poll, response).live == map[] && Answered(f, poll, response).pollInterval == None
  {
    StopLeavesNone(f);
    StopLeavesNone(f.(polls := f.polls - {poll}));
  }

  lemma OtherPollsStay(f: Flow, poll: nat, response: Response, other: nat)
    requires Enabled(f, Answer(poll, response)) && other != poll
    ensures other in Answered(f, poll, response).polls <==> other in f.polls
    ensures other in f.polls ==> Answered(f, poll, response).polls[other] == f.polls[other]
  {
  }

  lemma FinalQuiets(f: Flow, poll: nat, response: Response)
    requires OneTimer(f) && Enabled(f, Answer(poll, response)) && IsFinal(response)
    ensures IsQuiet(Answered(f, poll, response)) <==> !OtherAsks(f, poll)
  {
    FinalStopsTimer(f, poll, response);
    var after := Answered(f, poll, response);
    forall other | other != poll
      ensures other in after.polls <==> other in f.polls
      ensures other in f.polls ==> after.polls[other] == f.polls[other]
    {
      OtherPollsStay(f, poll, response, other);
    }
    assert poll in after.polls ==> after.polls[poll].Storing?;
  }

  /** Once a token or a final error has come in, no further request is sent, if no other poll was
      waiting for its answer then. */
  lemma NoRequestAfterFinal(first: Run, later: Run)
    requires IsRun(first) && IsRun(later) && Extends(first, later)
    requires first.Then? && first.event.Answer? && IsFinal(first.event.response)
    requires !OtherAsks(Last(first.before), first.event.poll)
    ensures Last(later).requests == Last(first).requests && Last(later).live == map[]
  {
    TimerInv(first.before);
    FinalQuiets(Last(first.before), first.event.poll, first.event.response);
    QuietForGood(first, later);
  }

  lemma FirePollsAgain(run: Run, handle: nat) returns (later: Run)
    requires IsRun(run) && OneTimer(Last(run)) && Last(run).pollInterval == Some(handle)
    ensures IsRun(later) && later == Then(run, Fire(handle), PollStarted(Last(run)))
  {
    later := Then(run, Fire(handle), PollStarted(Last(run)));
  }

  lemma SlowDownRestarts(run: Run, poll: nat) returns (later: Run, handle: nat)
    requires IsRun(run) && poll in Last(run).polls && Last(run).polls[poll].Asking?
    ensures IsRun(later) && later.Then? && later.before == run && OneTimer(Last(later))
    ensures Last(later).pollInterval == Some(handle)
    ensures Last(later).requests == Last(run).requests && Last(later).aborted == Last(run).aborted
    ensures Last(later).promise == Last(run).promise
  {
    TimerInv(run);
    var event := Answer(poll, SlowDown);
    OneTimerKept(Last(run), event);
    later := Then(run, event, Next(Last(run), event));
    handle := Last(later).pollInterval.value;
  }

  /** The other direction: if another poll was waiting, the flow not aborted, the timer can come back
      after the final answer, and a request with it. */
  lemma OverlapCanPollAfterFinal(first: Run) returns (later: Run)
    requires IsRun(first) && first.Then? && first.event.Answer? && IsFinal(first.event.response)
    requires OtherAsks(Last(first.before), first.event.poll) && !Last(first).aborted
    ensures IsRun(later) && Extends(first, later) && Last(later).requests == Last(first).requests + 1
  {
    var f := Last(first.before);
    var other :| other in f.polls && other != first.event.poll && f.polls[other].Asking?;
    OtherPollsStay(f, first.event.poll, first.event.response, other);
    var restarted, handle := SlowDownRestarts(first, other);
    later := FirePollsAgain(restarted, handle);
    assert Extends(first, restarted);
  }

  lemma AbortedStaysAborted(f: Flow, event: Event)
    requires f.aborted && Enabled(f, event)
    ensures Next(f, event).aborted && Next(f, event).requests == f.requests
  {
  }

  /** An aborted flow sends no further request, whatever is still under way. */
  lemma {:induction false} NoRequestAfterAbort(first: Run, later: Run)
    requires IsRun(later) && Extends(first, later) && Last(first).aborted
    ensures Last(later).aborted && Last(later).requests == Last(first).requests
  {
    if later != first {
      NoRequestAfterAbort(first, later.before);
      AbortedStaysAborted(Last(later.before), later.event);
    }
  }

  ghost predicate CanRequestAgain(first: Run) {
    exists later :: IsRun(later) && Extends(first, later) && Last(later).requests > Last(first).requests
  }

  /** When a token or a final error has come in, another request can follow if and only if another poll was waiting
      for its answer and the flow is not aborted. */
  lemma RequestAfterFinalExactly(first: Run)
    requires IsRun(first) && first.Then? && first.event.Answer? && IsFinal(first.event.response)
    ensures CanRequestAgain(first) <==> OtherAsks(Last(first.before), first.event.poll) && !Last(first).aborted
  {
    if OtherAsks(Last(first.before), first.event.poll) && !Last(first).aborted {
      var later := OverlapCanPollAfterFinal(first);
    } else {
      forall later | IsRun(later) && Extends(first, later) ensures Last(later).requests == Last(first).requests {
        if Last(first).aborted {
          NoRequestAfterAbort(first, later);
        } else {
          NoRequestAfterFinal(first, later);
        }
      }
    }
  }

  /** From the start of a flow: the timer fires while the first poll waits, the first answer is a token, the second one
      asks to slow down, and the next firing sends a third request. */
  lemma RequestAfterToken(interval: int, token: string) returns (first: Run)
    ensures IsRun(first) && first.Then? && first.event == Answer(0, Token(token, true))
    ensures Last(first).requests == 2 && CanRequestAgain(first)
  {
    var start := Start(interval);
    assert 0 in Last(start).live;
    var overlapping := Then(start, Fire(0), PollStarted(Last(start)));
    first := Then(overlapping, Answer(0, Token(token, true)), Answered(Last(overlapping), 0, Token(token, true)));
    assert IsRun(start) && IsRun(overlapping);
    assert 1 in Last(overlapping).polls && Last(overlapping).polls[1].Asking?;
    assert OtherAsks(Last(overlapping), 0);
    RequestAfterFinalExactly(first);
  }

  // ----- How a flow without overlapping polls is settled -----

  /** The final answer, if one has come in. */
  function Verdict(run: Run): Option<Response> {
    if run.Start? then None
    else if run.event.Answer? && IsFinal(run.event.response) then Some(run.event.response)
    else Verdict(run.before)
  }

  /** A poll has started after an abort and ended the flow. */
  predicate WasCancelled(run: Run) {
    run.Then? && (WasCancelled(run.before) || (run.event.Fire? && Last(run.before).aborted))
  }

  function ReasonOf(response: Response): Reason
    requires IsFinalError(response)
  {
    match response
    case ExpiredToken => Expired
    case AccessDenied => Denied
    case OtherError(text) => Refused(text)
  }

  /** Still polling: nothing settled, at most one request out, and a timer unless aborted. */
  ghost predicate IsOpen(f: Flow) {
    && f.promise == Unsettled && f.settlements == 0
    && (forall p, q :: p in f.polls && q in f.polls ==> p == q)
    && (forall p :: p in f.polls ==> f.polls[p].Asking?)
    && (!f.aborted ==> f.pollInterval.Some?)
  }

  /** Over: nothing can happen any more but an abort. */
  predicate IsOver(f: Flow, promise: Promise, settlements: nat) {
    && f.live == map[] && f.pollInterval == None && f.polls == map[]
    && f.promise == promise && f.settlements == settlements
  }

  /** The token is stored, the user's data is still being fetched. */
  predicate IsStoring(f: Flow, token: string) {
    && f.live == map[] && f.pollInterval == None && f.promise == Unsettled && f.settlements == 0
    && |f.polls| == 1 && forall p :: p in f.polls ==> f.polls[p] == Storing(token)
  }

  ghost predicate IsSettledBy(f: Flow, verdict: Option<Response>, cancelled: bool) {
    match verdict
    case None => if cancelled then IsOver(f, Rejected(Cancelled), 1) else IsOpen(f)
    case Some(response) =>
      if IsFinalError(response) then IsOver(f, Rejected(ReasonOf(response)), 1)
      else
        && response.Token?
        && if response.stored then
             IsStoring(f, response.token) || IsOver(f, Resolved(response.token), 1)
           else IsOver(f, Unsettled, 0)
  }

  lemma OverStaysOver(f: Flow, event: Event, promise: Promise, settlements: nat)
    requires IsOver(f, promise, settlements) && Enabled(f, event)
    ensures IsOver(Next(f, event), promise, settlements) && event.Abort?
  {
  }

  lemma StoringGoesOn(f: Flow, event: Event, token: string)
    requires IsStoring(f, token) && Enabled(f, event)
    ensures event.Abort? || event.Stored?
    ensures if event.Abort? then IsStoring(Next(f, event), token) else IsOver(Next(f, event), Resolved(token), 1)
  {
    if event.Stored? {
      OnlyKeyRemoved(f.polls, event.poll);
    }
  }

  lemma OnlyKeyRemoved<V>(m: map<nat, V>, key: nat)
    requires key in m && |m| == 1
    ensures m - {key} == map[]
  {
    var rest := m.Keys - {key};
    assert |rest| == 0;
    assert (m - {key}).Keys == rest;
  }

  lemma SoleKey<V>(m: map<nat, V>, key: nat)
    requires key in m && forall p, q :: p in m && q in m ==> p == q
    ensures m - {key} == map[] && |m| == 1
  {
    assert m.Keys == {key};
  }

  lemma OpenGoesOn(f: Flow, event: Event)
    requires IsOpen(f) && OneTimer(f) && Enabled(f, event) && (event.Fire? ==> f.polls == map[])
    ensures var g := Next(f, event);
            if event.Fire? && f.aborted then IsOver(g, Rejected(Cancelled), 1)
            else if event.Answer? && IsFinal(event.response) then IsSettledBy(g, Some(event.response), false)
            else IsOpen(g)
  {
    if event.Answer? {
      OpenAnswered(f, event.poll, event.response);
    } else if event.Fire? {
      StopLeavesNone(f);
    }
  }

  lemma OpenAnswered(f: Flow, poll: nat, response: Response)
    requires IsOpen(f) && OneTimer(f) && Enabled(f, Answer(poll, response))
    ensures var g := Answered(f, poll, response);
            if IsFinal(response) then IsSettledBy(g, Some(response), false) else IsOpen(g)
  {
    SoleKey(f.polls, poll);
    var over := f.(polls := f.polls - {poll});
    StopLeavesNone(f);
    StopLeavesNone(over);
    if response.Token? && response.stored {
      assert f.polls[poll := Storing(response.token)].Keys == {poll};
    }
  }

  lemma {:induction false} SettledByVerdict(run: Run)
    requires IsRun(run) && IsSerial(run)
    ensures IsSettledBy(Last(run), Verdict(run), WasCancelled(run))
  {
    if run.Then? {
      SettledByVerdict(run.before);
      TimerInv(run.before);
      SettledStep(Last(run.before), run.event, Verdict(run.before), WasCancelled(run.before));
    }
  }

  lemma SettledStep(f: Flow, event: Event, verdict: Option<Response>, cancelled: bool)
    requires IsSettledBy(f, verdict, cancelled) && OneTimer(f) && Enabled(f, event)
    requires event.Fire? ==> f.polls == map[]
    ensures IsSettledBy(Next(f, event),
                        if event.Answer? && IsFinal(event.response) then Some(event.response) else verdict,
                        cancelled || (event.Fire? && f.aborted))
  {
    if verdict.None? && !cancelled {
      OpenGoesOn(f, event);
    } else if verdict.Some? && verdict.value.Token? && verdict.value.stored && IsStoring(f, verdict.value.token) {
      StoringGoesOn(f, event, verdict.value.token);
    } else {
      OverStaysOver(f, event, f.promise, f.settlements);
    }
  }

  /** What the promise of a flow without overlapping polls says, once no poll is under way. */
  function PromiseOf(verdict: Option<Response>, cancelled: bool): Promise {
    match verdict
    case None => if cancelled then Rejected(Cancelled) else Unsettled
    case Some(response) =>
      if IsFinalError(response) then Rejected(ReasonOf(response))
      else if response.Token? && response.stored then Resolved(response.token)
      else Unsettled
  }

  /** The promise is settled at most once; with no poll under way, it is settled exactly when a final
      error, a token that could be stored, or a cancellation was seen, and with just that. */
  lemma PromiseIsSettledOnce(run: Run)
    requires IsRun(run) && IsSerial(run)
    ensures Last(run).settlements == if Last(run).promise.Unsettled? then 0 else 1
    ensures !Last(run).promise.Unsettled? ==> Last(run).promise == PromiseOf(Verdict(run), WasCancelled(run))
    ensures Last(run).polls == map[] ==> Last(run).promise == PromiseOf(Verdict(run), WasCancelled(run))
  {
    SettledByVerdict(run);
  }

  /** A flow with neither final answer nor cancellation nor abort still has its timer. */
  lemma PollingGoesOn(run: Run)
    requires IsRun(run) && IsSerial(run)
    requires Verdict(run) == None && !WasCancelled(run) && !Last(run).aborted
    ensures Last(run).pollInterval.Some? && Last(run).live != map[]
  {
    SettledByVerdict(run);
    TimerInv(run);
    assert Last(run).pollInterval.value in Last(run).live;
  }

  // ----- Aborting -----

  lemma AbortStopsTimer(run: Run)
    requires IsRun(run) && run.Then? && run.event.Abort?
    ensures Last(run).live == map[] && Last(run).pollInterval == None && Last(run).aborted
  {
    TimerInv(run.before);
    StopLeavesNone(Last(run.before).(aborted := true));
  }

  lemma {:induction false} OverForGood(first: Run, later: Run, promise: Promise, settlements: nat)
    requires IsRun(later) && Extends(first, later) && IsOver(Last(first), promise, settlements)
    ensures IsOver(Last(later), promise, settlements)
  {
    if later != first {
      OverForGood(first, later.before, promise, settlements);
      OverStaysOver(Last(later.before), later.event, promise, settlements);
    }
  }

  /** Aborted between two polls, a flow whose promise is open leaves it open for ever. */
  lemma IdleAbortNeverSettles(first: Run, later: Run)
    requires IsRun(first) && IsRun(later) && Extends(first, later)
    requires first.Then? && first.event.Abort? && Last(first).polls == map[] && Last(first).promise.Unsettled?
    ensures Last(later).promise.Unsettled?
  {
    AbortStopsTimer(first);
    OverForGood(first, later, Unsettled, Last(first).settlements);
  }

  /** Aborted with a poll under way, the promise can still be settled. */
  lemma BusyAbortCanSettle(first: Run, poll: nat) returns (later: Run)
    requires IsRun(first) && first.Then? && first.event.Abort? && poll in Last(first).polls
    ensures IsRun(later) && Extends(first, later) && !Last(later).promise.Unsettled?
  {
    if Last(first).polls[poll].Asking? {
      var restarted, handle := SlowDownRestarts(first, poll);
      later := FirePollsAgain(restarted, handle);
      AbortStopsTimer(first);
      assert Extends(first, restarted);
    } else {
      later := Then(first, Stored(poll), StoredFor(Last(first), poll));
      assert Extends(first, first);
    }
  }

  ghost predicate CanSettle(first: Run) {
    exists later :: IsRun(later) && Extends(first, later) && !Last(later).promise.Unsettled?
  }

  /** After an abort, an open promise can still be settled if and only if a poll was under way. */
  lemma SettledAfterAbortExactly(first: Run)
    requires IsRun(first) && first.Then? && first.event.Abort? && Last(first).promise.Unsettled?
    ensures CanSettle(first) <==> Last(first).polls != map[]
  {
    if Last(first).polls != map[] {
      var poll :| poll in Last(first).polls;
      var later := BusyAbortCanSettle(first, poll);
    } else {
      forall later | IsRun(later) && Extends(first, later) ensures Last(later).promise.Unsettled? {
        IdleAbortNeverSettles(first, later);
      }
    }
  }

  // ----- Requests and reasons -----

  /** How often the timer has fired before an abort. */
  function Firings(run: Run): nat {
    if run.Start? then 0
    else Firings(run.before) + if run.event.Fire? && !Last(run.before).aborted then 1 else 0
  }

  /** The first request goes out at once, and one more each time the timer fires, until the flow is aborted. */
  lemma {:induction false} RequestsAreFirings(run: Run)
    requires IsRun(run)
    ensures Last(run).requests == 1 + Firings(run)
    ensures run.Start? ==> Last(run).polls == map[0 := Asking] && Last(run).promise == Unsettled
    ensures run.Start? ==> Last(run).live == map[0 := run.interval] && Last(run).pollInterval == Some(0)
  {
    if run.Then? {
      RequestsAreFirings(run.before);
      OnlyFiringsRequest(Last(run.before), run.event);
    }
  }

  lemma OnlyFiringsRequest(f: Flow, event: Event)
    requires Enabled(f, event)
    ensures Next(f, event).requests == f.requests + if event.Fire? && !f.aborted then 1 else 0
  {
  }

  /** What each final answer makes of the promise, in a run without overlapping polls. */
  lemma ReasonsAreMeant(run: Run)
    requires IsRun(run) && IsSerial(run) && Last(run).polls == map[]
    ensures Verdict(run) == Some(ExpiredToken) ==> Last(run).promise == Rejected(Expired)
    ensures Verdict(run) == Some(AccessDenied) ==> Last(run).promise == Rejected(Denied)
    ensures forall text :: Verdict(run) == Some(OtherError(text)) ==> Last(run).promise == Rejected(Refused(text))
    ensures forall token :: Verdict(run) == Some(Token(token, true)) ==> Last(run).promise == Resolved(token)
    ensures forall token :: Verdict(run) == Some(Token(token, false)) ==> Last(run).promise == Unsettled
    ensures Verdict(run) == None ==> Last(run).promise == if WasCancelled(run) then Rejected(Cancelled) else Unsettled
  {
    PromiseIsSettledOnce(run);
  }
}
