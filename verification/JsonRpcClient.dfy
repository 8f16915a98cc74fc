/** The stdio clients as objects: each stretch of code between two awaits is one step of `JsonRpc`, with
    the steps of other senders, timers and the reader in between. */
module JsonRpcClient {
  import opened Collections
  import opened JsonRpc

  datatype Actor = Reader | Caller(id: nat)

  predicate Foreign(event: Event, me: Actor) {
    match me
    case Reader => !event.Read?
    case Caller(id) => event.Send? || event.Read? || event.id != id
  }

  /** `later` continues `first` by steps of others only. */
  ghost predicate Follows(first: Run, later: Run, me: Actor) {
    later == first || (later.Then? && Foreign(later.event, me) && Follows(first, later.before, me))
  }

  ghost predicate Extends(first: Run, later: Run) {
    later == first || (later.Then? && Extends(first, later.before))
  }

  lemma {:induction false} FollowsExtends(first: Run, middle: Run, later: Run, me: Actor)
    requires Extends(first, middle) && Follows(middle, later, me)
    ensures Extends(first, later)
  {
    if later != middle {
      FollowsExtends(first, middle, later.before, me);
    }
  }

  /** The lines the reader has taken, oldest first. */
  function LinesRead(run: Run): seq<Line> {
    if run.Start? then []
    else if run.event.Read? then LinesRead(run.before) + [run.event.line]
    else LinesRead(run.before)
  }

  lemma {:induction false} OthersReadNothing(first: Run, later: Run)
    requires Follows(first, later, Reader)
    ensures LinesRead(later) == LinesRead(first)
  {
    if later != first {
      OthersReadNothing(first, later.before);
    }
  }

  /** A request still waited for, after steps that are not its own. */
  predicate StillWaiting(before: Client, after: Client, id: nat) {
    Unfinished(before, id) ==>
      && Unfinished(after, id) && after.calls[id].fired == before.calls[id].fired
      && (before.calls[id].future.Set? ==> after.calls[id].future == before.calls[id].future)
  }

  /** The reader takes lines until one ends it; after the last comes the end of the output. */
  function Taken(lines: seq<Line>): seq<Line> {
    if lines == [] then [EndOfFile]
    else if lines[0].Poison? || lines[0].EndOfFile? then [lines[0]]
    else [lines[0]] + Taken(lines[1..])
  }

  lemma ReplyHandled(run: Run)
    requires IsRun(run) && run.Then? && run.event.Read? && run.event.line.Reply?
    ensures forall n :: n in Last(run.before).pending && IsReplyTo(run.event.line, n) ==>
              IsDelivered(Last(run.before), Last(run), n, run.event.line.body)
    ensures (forall n :: n in Last(run.before).pending ==> !IsReplyTo(run.event.line, n)) ==>
              Last(run) == Last(run.before)
  {
    forall n | n in Last(run.before).pending && IsReplyTo(run.event.line, n)
      ensures IsDelivered(Last(run.before), Last(run), n, run.event.line.body)
    {
      ReplyIsDelivered(run, n, run.event.line.body);
    }
    if forall n :: n in Last(run.before).pending ==> !IsReplyTo(run.event.line, n) {
      NoneWaits(run);
    }
  }

  lemma NoneWaits(run: Run)
    requires IsRun(run) && run.Then? && run.event.Read? && run.event.line.Reply?
    requires forall n :: n in Last(run.before).pending ==> !IsReplyTo(run.event.line, n)
    ensures Last(run) == Last(run.before)
  {
    assert 1 in Last(run.before).pending ==> !IsReplyTo(run.event.line, 1);
    OtherRepliesChangeNothing(run);
  }

  class McpClient {
    var requestId: nat
    var pending: map<nat, nat>
    var calls: map<nat, Call>
    var listening: bool
    ghost var run: Run

    ghost predicate Valid()
      reads this
    {
      IsRun(run) && Last(run) == Client(requestId, pending, calls, listening)
    }

    constructor ()
      ensures Valid() && run == Start
    {
      requestId, pending, calls, listening := 0, map[], map[], true;
      run := Start;
    }

    /** Up to the write: a new number, a new future under it. */
    method Issue() returns (id: nat)
      requires Valid()
      modifies this
      ensures Valid() && run == Then(old(run), Send, Last(run)) && id == Sends(run)
      ensures Unfinished(Last(run), id) && !calls[id].fired
    {
      EveryRunKeepsInv(run);
      InvMeansSound(run);
      requestId := requestId + 1;
      id := requestId;
      calls := calls[id := Call(Open, false, None)];
      pending := pending[id := id];
      run := Then(run, Send, Client(requestId, pending, calls, listening));
    }

    /** One round of the reader's loop. */
    method HandleLine(line: Line)
      requires Valid() && listening
      modifies this
      ensures Valid() && run == Then(old(run), Read(line), Last(run))
      ensures listening <==> !line.EndOfFile? && !line.Poison?
      ensures forall n :: n in old(pending) && IsReplyTo(line, n) ==>
                IsDelivered(old(Last(run)), Last(run), n, line.body)
      ensures line.Reply? && (forall n :: n in old(pending) ==> !IsReplyTo(line, n)) ==> Last(run) == old(Last(run))
    {
      EveryRunKeepsInv(run);
      InvMeansSound(run);
      match line {
        case EndOfFile => listening := false;
        case Poison => listening := false;
        case Garbage =>
        case Reply(id, body) =>
          var key := Key(id);
          if key.Some? && key.value in pending {
            var owner := pending[key.value];
            pending := pending - {key.value};
            if calls[owner].future.Open? {
              calls := calls[owner := calls[owner].(future := Set(body))];
            } else {
              assert calls == calls[owner := calls[owner]];
            }
          }
      }
      run := Then(run, Read(line), Client(requestId, pending, calls, listening));
      if line.Reply? {
        ReplyHandled(run);
      }
    }

    method FireTimer(id: nat)
      requires Valid() && Unfinished(Last(run), id) && !calls[id].fired
      modifies this
      ensures Valid() && run == Then(old(run), Fire(id), Last(run))
      ensures Unfinished(Last(run), id) && calls[id].fired
    {
      EveryRunKeepsInv(run);
      InvMeansSound(run);
      calls := calls[id := CancelOpen(calls[id]).(fired := true)];
      run := Then(run, Fire(id), Client(requestId, pending, calls, listening));
    }

    /** After the wait: the reply, or the handler of TimeoutError. */
    method FinishRequest(id: nat) returns (result: Result)
      requires Valid() && Enabled(Last(run), Resume(id))
      modifies this
      ensures Valid() && run == Then(old(run), Resume(id), Last(run))
      ensures id in calls && calls[id].result == Some(result)
    {
      EveryRunKeepsInv(run);
      InvMeansSound(run);
      if !calls[id].fired {
        result := Got(calls[id].future.body);
      } else if id in pending {
        pending := pending - {id};
        result := TimedOut;
      } else {
        assert pending == pending - {id};
        result := KeyError;
      }
      calls := calls[id := calls[id].(result := Some(result))];
      run := Then(run, Resume(id), Client(requestId, pending, calls, listening));
    }

    /** Any number of steps of the others. */
    method Others(me: Actor)
      requires Valid()
      modifies this
      ensures Valid() && Follows(old(run), run, me)
      ensures me.Reader? ==> listening == old(listening)
      ensures me.Caller? ==> StillWaiting(old(Last(run)), Last(run), me.id)
    {
      var n: nat := *;
      while n > 0
        invariant Valid() && Follows(old(run), run, me)
        invariant me.Reader? ==> listening == old(listening)
        invariant me.Caller? ==> StillWaiting(old(Last(run)), Last(run), me.id)
        decreases n
      {
        var event: Event := *;
        if Foreign(event, me) && Enabled(Client(requestId, pending, calls, listening), event) {
          Step(event);
        }
        n := n - 1;
      }
    }

    method Step(event: Event)
      requires Valid() && Enabled(Last(run), event)
      modifies this
      ensures Valid() && run == Then(old(run), event, Last(run))
      ensures !event.Read? ==> listening == old(listening)
      ensures forall id :: Foreign(event, Caller(id)) ==> StillWaiting(old(Last(run)), Last(run), id)
    {
      EveryRunKeepsInv(run);
      InvMeansSound(run);
      var next := Next(Client(requestId, pending, calls, listening), event);
      forall id | Foreign(event, Caller(id)) ensures StillWaiting(Last(run), next, id) {
        OthersLeaveItWaiting(run, event, id);
      }
      requestId, pending, calls, listening := next.requestId, next.pending, next.calls, next.listening;
      run := Then(run, event, next);
    }

    /** `_send_request`, for a caller that is neither cancelled nor fails to write. */
    method SendRequest() returns (id: nat, result: Result)
      requires Valid()
      modifies this
      ensures Valid() && Extends(old(run), run)
      ensures run.Then? && run.event == Resume(id) && id > Sends(old(run))
      ensures var replies := Replies(run.before, id);
              result == if !HasFired(run.before, id) && replies != [] then Got(replies[0])
                        else if replies == [] then TimedOut
                        else KeyError
      ensures result.Got? ==> CameFor(run, id, result.body)
    {
      id := Issue();
      ghost var issued := run;
      Others(Caller(id));
      ghost var waited := run;
      FollowsExtends(old(run), issued, waited, Caller(id));
      if calls[id].future.Open? || calls[id].future.Cancelled? {
        FireTimer(id);
      } else {
        var late := *;
        if late {
          FireTimer(id);
        }
      }
      ghost var decided := run;
      Others(Caller(id));
      FollowsExtends(old(run), decided, run, Caller(id));
      result := FinishRequest(id);
      FirstReplyOrTimeout(run, id);
      if result.Got? {
        NeverAnothersReply(run, id);
      }
    }

    /** Waiting for a line, then handling it. */
    method TakeLine(line: Line)
      requires Valid() && listening
      modifies this
      ensures Valid() && Extends(old(run), run)
      ensures LinesRead(run) == LinesRead(old(run)) + [line]
      ensures listening <==> !line.EndOfFile? && !line.Poison?
    {
      Others(Reader);
      FollowsExtends(old(run), old(run), run, Reader);
      OthersReadNothing(old(run), run);
      HandleLine(line);
    }

    /** `_read_responses` over a whole output of the server. */
    method ReadResponses(lines: seq<Line>)
      requires Valid() && listening
      modifies this
      ensures Valid() && Extends(old(run), run) && !listening
      ensures LinesRead(run) == LinesRead(old(run)) + Taken(lines)
    {
      var rest := lines;
      while listening
        invariant Valid() && Extends(old(run), run)
        invariant LinesRead(run) + (if listening then Taken(rest) else []) == LinesRead(old(run)) + Taken(lines)
        decreases |rest|, listening
      {
        ghost var before := run;
        var line := if rest == [] then EndOfFile else rest[0];
        TakeFirst(LinesRead(before), line, Taken(rest));
        TakeLine(line);
        ExtendsOn(old(run), before, run);
        rest := if rest == [] then [] else rest[1..];
      }
    }
  }

  lemma TakeFirst(read: seq<Line>, line: Line, taken: seq<Line>)
    requires taken != [] && taken[0] == line
    ensures read + taken == (read + [line]) + taken[1..]
    ensures |taken| == 1 ==> read + taken == (read + [line]) + []
  {
  }

  lemma {:induction false} ExtendsOn(first: Run, middle: Run, later: Run)
    requires Extends(first, middle) && Extends(middle, later)
    ensures Extends(first, later)
  {
    if later != middle {
      ExtendsOn(first, middle, later.before);
    }
  }

  lemma OthersLeaveItWaiting(run: Run, event: Event, id: nat)
    requires IsRun(run) && Inv(run) && Sound(Last(run)) && Enabled(Last(run), event)
    requires Foreign(event, Caller(id))
    ensures StillWaiting(Last(run), Next(Last(run), event), id)
  {
    assert Tracks(run, Last(run), id);
  }
}
