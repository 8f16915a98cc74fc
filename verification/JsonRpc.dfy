/** Request and response correlation of the JSON-RPC clients: `_send_request`, cut at its awaits, beside
    the reader of `_read_responses`. */
module JsonRpc {
  import opened Collections

  /** The value of a response's "id" member; a list or an object there is not hashable. */
  datatype JsonId = Number(number: real) | Truth(truth: bool) | Word(word: string) | Null

  /** One line of the server's output, as the reader sees it. */
  datatype Line =
    | Reply(id: JsonId, body: string)
    | Garbage                        // not JSON: the line is skipped
    | Poison                         // raises something else: not an object, unhashable id, not UTF-8
    | EndOfFile

  datatype Future = Open | Set(body: string) | Cancelled

  datatype Result = Got(body: string) | TimedOut | KeyError | Left

  /** One `_send_request` after its write: its future, whether the timer has fired, how it ended. */
  datatype Call = Call(future: Future, fired: bool, result: Option<Result>)

  datatype Client = Client(requestId: nat, pending: map<nat, nat>, calls: map<nat, Call>, listening: bool)

  const CONNECTED := Client(0, map[], map[], true)

  datatype Event =
    | Send                           // up to the first await
    | Read(line: Line)               // one round of the reader
    | Fire(id: nat)                  // the timeout cancels the wait
    | Resume(id: nat)                // the sender runs on after its wait
    | Abandon(id: nat, waiting: bool)  // drain fails, or the sender is cancelled

  /** The key that equals this id in Python's dictionary: 1, 1.0 and True are the same key. */
  function Key(id: JsonId): Option<nat> {
    match id
    case Number(x) => if x >= 0.0 && x.Floor as real == x then Some(x.Floor) else None
    case Truth(b) => Some(if b then 1 else 0)
    case Word(_) => None
    case Null => None
  }

  /** The ids 1, 2, 3 ... of requests are found under the number itself and nothing else, but for 1, which is True. */
  lemma KeyExactly(id: JsonId, n: nat)
    requires n >= 1
    ensures Key(id) == Some(n) <==> id == Number(n as real) || (n == 1 && id == Truth(true))
  {
  }

  // ----- Steps -----

  function Sent(c: Client): Client {
    var id := c.requestId + 1;
    c.(requestId := id, pending := c.pending[id := id], calls := c.calls[id := Call(Open, false, None)])
  }

  function Delivered(call: Call, body: string): Call {
    if call.future.Open? then call.(future := Set(body)) else call
  }

  predicate Sound(c: Client) {
    forall id :: id in c.pending ==> c.pending[id] in c.calls
  }

  function Heard(c: Client, line: Line): Client
    requires Sound(c)
  {
    match line
    case Garbage => c
    case Poison => c.(listening := false)
    case EndOfFile => c.(listening := false)
    case Reply(id, body) =>
      var key := Key(id);
      if key.Some? && key.value in c.pending then
        var owner := c.pending[key.value];
        c.(pending := c.pending - {key.value},
           calls := c.calls[owner := Delivered(c.calls[owner], body)])
      else c
  }

  function CancelOpen(call: Call): Call {
    if call.future.Open? then call.(future := Cancelled) else call
  }

  function Fired(c: Client, id: nat): Client
    requires id in c.calls
  {
    c.(calls := c.calls[id := CancelOpen(c.calls[id]).(fired := true)])
  }

  function Ended(c: Client, id: nat): Result
    requires id in c.calls
  {
    if !c.calls[id].fired && c.calls[id].future.Set? then Got(c.calls[id].future.body)
    else if id in c.pending then TimedOut
    else KeyError
  }

  function Resumed(c: Client, id: nat): Client
    requires id in c.calls
  {
    c.(pending := if c.calls[id].fired then c.pending - {id} else c.pending,
       calls := c.calls[id := c.calls[id].(result := Some(Ended(c, id)))])
  }

  function Abandoned(c: Client, id: nat, waiting: bool): Client
    requires id in c.calls
  {
    var call := if waiting then CancelOpen(c.calls[id]) else c.calls[id];
    c.(calls := c.calls[id := call.(result := Some(Left))])
  }

  predicate Unfinished(c: Client, id: nat) {
    id in c.calls && c.calls[id].result.None?
  }

  predicate Enabled(c: Client, event: Event) {
    match event
    case Send => true
    case Read(_) => c.listening
    case Fire(id) => Unfinished(c, id) && !c.calls[id].fired
    case Resume(id) => Unfinished(c, id) && (c.calls[id].fired || c.calls[id].future.Set?)
    case Abandon(id, _) => Unfinished(c, id) && !c.calls[id].fired
  }

  function Next(c: Client, event: Event): Client
    requires Sound(c) && Enabled(c, event)
  {
    match event
    case Send => Sent(c)
    case Read(line) => Heard(c, line)
    case Fire(id) => Fired(c, id)
    case Resume(id) => Resumed(c, id)
    case Abandon(id, waiting) => Abandoned(c, id, waiting)
  }

  datatype Run = Start | Then(before: Run, event: Event, after: Client)

  function Last(run: Run): Client {
    if run.Start? then CONNECTED else run.after
  }

  ghost predicate IsRun(run: Run) {
    run.Then? ==>
      && IsRun(run.before) && Sound(Last(run.before))
      && Enabled(Last(run.before), run.event) && run.after == Next(Last(run.before), run.event)
  }

  // ----- What the history says of one request -----

  function Sends(run: Run): nat {
    if run.Start? then 0 else Sends(run.before) + if run.event.Send? then 1 else 0
  }

  predicate WasSent(run: Run, id: nat) {
    1 <= id <= Sends(run)
  }

  /** The line carries the request's id; in Python's dictionary True is the key 1. */
  predicate IsReplyTo(line: Line, id: nat) {
    line.Reply? && (line.id == Number(id as real) || (id == 1 && line.id == Truth(true)))
  }

  /** The replies to the request that came in after it was sent, oldest first. */
  function Replies(run: Run, id: nat): seq<string> {
    if run.Start? then []
    else if run.event.Read? && IsReplyTo(run.event.line, id) && WasSent(run.before, id) then
      Replies(run.before, id) + [run.event.line.body]
    else Replies(run.before, id)
  }

  predicate HasFired(run: Run, id: nat) {
    run.Then? && (HasFired(run.before, id) || run.event == Fire(id))
  }

  /** The request ended by its timeout's handler. */
  predicate HasTimedOut(run: Run, id: nat) {
    run.Then? && (HasTimedOut(run.before, id) || (run.event == Resume(id) && HasFired(run.before, id)))
  }

  // ----- The table and the futures, from the history -----

  /** One request, seen through its own history only. */
  ghost predicate Tracks(run: Run, c: Client, id: nat) {
    && (id in c.calls <==> WasSent(run, id))
    && (!WasSent(run, id) ==> Replies(run, id) == [] && !HasFired(run, id) && !HasTimedOut(run, id))
    && (id in c.pending <==> WasSent(run, id) && Replies(run, id) == [] && !HasTimedOut(run, id))
    && (id in c.pending ==> c.pending[id] == id)
    && (id in c.calls ==> c.calls[id].fired == HasFired(run, id))
    && (id in c.calls && c.calls[id].result.None? ==> !HasTimedOut(run, id))
    && (id in c.calls && c.calls[id].future.Set? ==>
          Replies(run, id) != [] && c.calls[id].future.body == Replies(run, id)[0])
    && (id in c.calls && Replies(run, id) == [] && !HasFired(run, id) && c.calls[id].result.None? ==>
          c.calls[id].future.Open?)
  }

  ghost predicate Inv(run: Run) {
    && Last(run).requestId == Sends(run)
    && forall id :: Tracks(run, Last(run), id)
  }

  lemma NobodySentYet()
    ensures Inv(Start)
  {
    forall id: nat ensures Tracks(Start, CONNECTED, id) {
    }
  }

  lemma InvMeansSound(run: Run)
    requires Inv(run)
    ensures Sound(Last(run))
  {
    forall id | id in Last(run).pending ensures Last(run).pending[id] in Last(run).calls {
      assert Tracks(run, Last(run), id);
    }
  }

  lemma SendKeeps(run: Run, id: nat)
    requires IsRun(run) && run.Then? && Inv(run.before) && run.event.Send?
    ensures Tracks(run, Last(run), id)
  {
    assert Tracks(run.before, Last(run.before), id);
  }

  lemma ReadKeeps(run: Run, id: nat)
    requires IsRun(run) && run.Then? && Inv(run.before) && run.event.Read?
    ensures Tracks(run, Last(run), id)
  {
    assert Tracks(run.before, Last(run.before), id);
    var line := run.event.line;
    if line.Reply? {
      if Key(line.id).Some? {
        assert Tracks(run.before, Last(run.before), Key(line.id).value);
      }
      if id >= 1 {
        KeyExactly(line.id, id);
      }
    }
  }

  lemma SenderKeeps(run: Run, id: nat)
    requires IsRun(run) && run.Then? && Inv(run.before) && !run.event.Send? && !run.event.Read?
    ensures Tracks(run, Last(run), id)
  {
    assert Tracks(run.before, Last(run.before), id);
    assert Tracks(run.before, Last(run.before), run.event.id);
  }

  lemma {:induction false} EveryRunKeepsInv(run: Run)
    requires IsRun(run)
    ensures Inv(run)
  {
    if run.Start? {
      NobodySentYet();
    } else {
      EveryRunKeepsInv(run.before);
      forall id: nat ensures Tracks(run, Last(run), id) {
        if run.event.Send? {
          SendKeeps(run, id);
        } else if run.event.Read? {
          ReadKeeps(run, id);
        } else {
          SenderKeeps(run, id);
        }
      }
    }
  }

  // ----- What one line does -----

  /** The reply to `n` has been handled: `n` is off the table, its future holds the body if it was still open, and
      nothing else has changed. */
  predicate IsDelivered(c: Client, c': Client, n: nat, body: string) {
    && n in c.pending && n !in c'.pending
    && (forall k :: k in c.pending && k != n ==> k in c'.pending && c'.pending[k] == c.pending[k])
    && (forall k :: k in c'.pending ==> k in c.pending)
    && c'.calls.Keys == c.calls.Keys && n in c.calls
    && (forall k :: k in c.calls && k != n ==> c'.calls[k] == c.calls[k])
    && c'.calls[n].future == (if c.calls[n].future.Open? then Set(body) else c.calls[n].future)
    && c'.calls[n].fired == c.calls[n].fired && c'.calls[n].result == c.calls[n].result
    && c'.requestId == c.requestId && c'.listening == c.listening
  }

  lemma ReplyIsDelivered(run: Run, n: nat, body: string)
    requires IsRun(run) && run.Then? && n in Last(run.before).pending
    requires || run.event == Read(Reply(Number(n as real), body))
             || (n == 1 && run.event == Read(Reply(Truth(true), body)))
    ensures IsDelivered(Last(run.before), Last(run), n, body)
  {
    EveryRunKeepsInv(run.before);
    assert Tracks(run.before, Last(run.before), n);
    KeyExactly(run.event.line.id, n);
  }

  /** No other reply changes anything: one to a number that is not on the table, to a fraction or a negative number, to
      False, to text or to null. */
  lemma OtherRepliesChangeNothing(run: Run)
    requires IsRun(run) && run.Then? && run.event.Read? && run.event.line.Reply?
    requires forall n :: n in Last(run.before).pending ==> run.event.line.id != Number(n as real)
    requires 1 in Last(run.before).pending ==> run.event.line.id != Truth(true)
    ensures Last(run) == Last(run.before)
  {
    EveryRunKeepsInv(run.before);
    var key := Key(run.event.line.id);
    if key.Some? && key.value in Last(run.before).pending {
      assert Tracks(run.before, Last(run.before), key.value);
      KeyExactly(run.event.line.id, key.value);
      assert false;
    }
  }

  /** Lines that are no replies leave the table and the calls alone; only what raises, or the end, stops the reader. */
  lemma OtherLinesOnlyStop(run: Run)
    requires IsRun(run) && run.Then? && run.event.Read? && !run.event.line.Reply?
    ensures Last(run).pending == Last(run.before).pending && Last(run).calls == Last(run.before).calls
    ensures Last(run).requestId == Last(run.before).requestId
    ensures Last(run).listening <==> run.event.line == Garbage
  {
    EveryRunKeepsInv(run.before);
  }

  /** A request gets the next number, is put on the table under it, and waits. */
  lemma SendIssuesNext(run: Run)
    requires IsRun(run) && run.Then? && run.event.Send?
    ensures var n := Last(run.before).requestId + 1;
            && Last(run).requestId == n && n == Sends(run) && n !in Last(run.before).calls
            && n in Last(run).pending && Last(run).pending[n] == n
            && n in Last(run).calls && Last(run).calls[n] == Call(Open, false, None)
            && (forall k :: k in Last(run.before).pending ==>
                  k in Last(run).pending && Last(run).pending[k] == Last(run.before).pending[k])
            && (forall k :: k in Last(run.before).calls ==>
                  k in Last(run).calls && Last(run).calls[k] == Last(run.before).calls[k])
  {
    EveryRunKeepsInv(run.before);
    var n := Last(run.before).requestId + 1;
    assert Tracks(run.before, Last(run.before), n);
    forall k | k in Last(run.before).pending ensures k != n {
      assert Tracks(run.before, Last(run.before), k);
    }
  }

  // ----- Main results -----

  /** The table holds exactly the requests that were sent, not answered and not timed out, each under
      its own id. */
  lemma PendingIsExactlyTheUnanswered(run: Run, id: nat)
    requires IsRun(run)
    ensures id in Last(run).pending <==> WasSent(run, id) && Replies(run, id) == [] && !HasTimedOut(run, id)
    ensures id in Last(run).pending ==> Last(run).pending[id] == id
  {
    EveryRunKeepsInv(run);
    assert Tracks(run, Last(run), id);
  }

  /** When a sender runs on, it gets the first reply that carried its id, unless its timer fired first;
      then it gets the timeout error, or, where a reply came in as well, the KeyError of the `del`. */
  lemma FirstReplyOrTimeout(run: Run, id: nat)
    requires IsRun(run) && run.Then? && run.event == Resume(id)
    ensures id in Last(run).calls && Last(run).calls[id].result.Some?
    ensures var replies := Replies(run.before, id);
            Last(run).calls[id].result.value ==
              if !HasFired(run.before, id) && replies != [] then Got(replies[0])
              else if replies == [] then TimedOut
              else KeyError
    ensures Replies(run.before, id) == [] ==> HasFired(run.before, id)
  {
    EveryRunKeepsInv(run.before);
    assert Tracks(run.before, Last(run.before), id);
  }

  /** A result, once there, is never changed. */
  lemma ResultsStay(run: Run, id: nat)
    requires IsRun(run) && run.Then? && id in Last(run.before).calls && Last(run.before).calls[id].result.Some?
    ensures id in Last(run).calls && Last(run).calls[id].result == Last(run.before).calls[id].result
  {
    EveryRunKeepsInv(run.before);
    assert Tracks(run.before, Last(run.before), id);
    if run.event.Read? && run.event.line.Reply? && Key(run.event.line.id).Some? {
      assert Tracks(run.before, Last(run.before), Key(run.event.line.id).value);
    }
  }

  /** The body was read in a line whose id is the request's number, or True for the first request. */
  ghost predicate CameFor(run: Run, id: nat, body: string) {
    run.Then? && (CameFor(run.before, id, body) || run.event == Read(Reply(Number(id as real), body))
                  || (id == 1 && run.event == Read(Reply(Truth(true), body))))
  }

  lemma {:induction false} RepliesCameFor(run: Run, id: nat, body: string)
    requires body in Replies(run, id)
    ensures CameFor(run, id, body)
  {
    if body in Replies(run.before, id) {
      RepliesCameFor(run.before, id, body);
    }
  }

  lemma {:induction false} NeverAnothersReply(run: Run, id: nat)
    requires IsRun(run) && id in Last(run).calls && Last(run).calls[id].result.Some?
    requires Last(run).calls[id].result.value.Got?
    ensures CameFor(run, id, Last(run).calls[id].result.value.body)
  {
    EveryRunKeepsInv(run.before);
    assert Tracks(run.before, Last(run.before), id);
    if run.event == Resume(id) {
      FirstReplyOrTimeout(run, id);
      RepliesCameFor(run.before, id, Replies(run.before, id)[0]);
    } else {
      assert Tracks(run, Last(run), id) by { EveryRunKeepsInv(run); }
      StillHadResult(run, id);
      NeverAnothersReply(run.before, id);
    }
  }

  lemma StillHadResult(run: Run, id: nat)
    requires IsRun(run) && run.Then? && Inv(run.before) && run.event != Resume(id)
    requires id in Last(run).calls && Last(run).calls[id].result.Some? && Last(run).calls[id].result.value.Got?
    ensures id in Last(run.before).calls && Last(run.before).calls[id].result == Last(run).calls[id].result
  {
    if run.event.Read? && run.event.line.Reply? && Key(run.event.line.id).Some? {
      assert Tracks(run.before, Last(run.before), Key(run.event.line.id).value);
    }
  }

  /** The reply is read between the firing and the handler: the sender ends in a KeyError. */
  lemma TimeoutRace() returns (run: Run)
    ensures IsRun(run) && 1 in Last(run).calls && Last(run).calls[1].result == Some(KeyError)
  {
    var sent := Then(Start, Send, Sent(CONNECTED));
    var fired := Then(sent, Fire(1), Fired(Last(sent), 1));
    var heard := Then(fired, Read(Reply(Number(1.0), "late")), Heard(Last(fired), Reply(Number(1.0), "late")));
    run := Then(heard, Resume(1), Resumed(Last(heard), 1));
    assert Key(Number(1.0)) == Some(1);
    assert IsRun(Start) && IsRun(sent) && IsRun(fired) && IsRun(heard);
  }
}
