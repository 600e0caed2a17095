/**
 * The server's connections as the program keeps them: each handler changes them in place, and its contract
 * says it takes the step `ResponseQueue` states.
 */
module ResponseServer {
  import opened Options
  import opened Reals
  import opened ResponseInvariant
  import opened ResponseQueue
  import opened ResponseRuns

  /** A queue with its first `i` responses already timed, is on its way to `Clocked`. */
  ghost predicate Underway(pending: seq<Pending>, timed: seq<Pending>, i: nat, now: real) {
    && i <= |timed| == |pending|
    && timed[i..] == pending[i..]
    && Clocked(pending, now) == timed[..i] + Clocked(pending[i..], now)
  }

  lemma TimedNext(pending: seq<Pending>, timed: seq<Pending>, i: nat, now: real, next: Pending)
    requires Underway(pending, timed, i, now) && i < |timed| && timed[i].ready
    requires next == if timed[i].readyAt.Some? then timed[i] else timed[i].(readyAt := Some(now))
    ensures Underway(pending, timed[i := next], i + 1, now)
  {
    var rest := pending[i..];
    assert rest[0] == timed[i] && rest[1..] == pending[i + 1..];
    assert Clocked(rest, now) == [next] + Clocked(pending[i + 1..], now);
    assert timed[i := next][..i + 1] == timed[..i] + [next];
  }

  lemma TimedAll(pending: seq<Pending>, timed: seq<Pending>, i: nat, now: real)
    requires Underway(pending, timed, i, now) && (i == |timed| || !timed[i].ready)
    ensures timed == Clocked(pending, now)
  {
    var rest := pending[i..];
    assert rest != [] ==> rest[0] == timed[i];
    assert timed == timed[..i] + rest;
  }

  class Server {
    const limits: Limits
    /** What the clock reads. */
    var now: real
    var sockets: set<Socket>
    var ended: set<Socket>
    var connections: map<Socket, Connection>
    var dropped: set<Socket>
    var shutdownAt: Option<real>
    var checks: set<Socket>
    var resets: seq<(ResetReason, nat)>
    ghost var followed: set<Request>
    ghost var settled: set<Request>
    ghost var lost: set<Request>

    ghost function View(): State
      reads this
    {
      State(now, sockets, ended, connections, dropped, shutdownAt, checks, resets, followed, settled, lost)
    }

    ghost predicate Valid()
      reads this
    {
      Inv(limits, View())
    }

    constructor (now: real, timeoutMs: real, maxPipelinedRequests: int)
      requires timeoutMs >= 0.0
      ensures View() == Start(now) && Valid()
      ensures limits == Limits(timeoutMs, if maxPipelinedRequests < 1 then 1 else maxPipelinedRequests)
    {
      limits := Limits(timeoutMs, if maxPipelinedRequests < 1 then 1 else maxPipelinedRequests);
      this.now, sockets, ended, connections, dropped := now, {}, {}, map[], {};
      shutdownAt, checks, resets := None, {}, [];
      followed, settled, lost := {}, {}, {};
      new;
      assert Waiting(View()) == {};
    }

    /** Takes the connection out of the tables, as `ResponseQueue.Drop` does, and says how long its queue was. */
    method DropConnection(socket: Socket) returns (count: nat)
      requires socket in connections
      modifies this
      ensures View() == Drop(old(View()), socket) && count == |old(connections)[socket].pending|
    {
      count := |connections[socket].pending|;
      lost := lost + Requests(connections[socket].pending);
      connections := connections - {socket};
      dropped := dropped + {socket};
      ended := ended + {socket};
    }

    method ResetConnection(socket: Socket, reason: ResetReason)
      requires socket in connections
      modifies this
      ensures View() == Reset(old(View()), socket, reason)
    {
      var count := DropConnection(socket);
      resets := resets + [(reason, count)];
    }

    /** Takes `ResponseQueue.Refresh` in place. */
    method RefreshConnection(socket: Socket)
      requires socket in connections
      modifies this
      ensures View() == Refresh(limits, old(View()), socket)
    {
      var pending := StartClocks(connections[socket].pending);
      if |pending| == 0 {
        connections := connections - {socket};
        if shutdownAt.Some? {
          ended := ended + {socket};
        }
        return;
      }
      var head := pending[0];
      if shutdownAt.Some? && !head.ready && !head.complete {
        var count := DropConnection(socket);
        return;
      }
      var timer := None;
      if head.readyAt.Some? {
        timer := Some(Max(now, Deadline(limits, shutdownAt, head.readyAt.value)));
      }
      connections := connections[socket := Connection(pending, timer)];
    }

    /** The clocks of a queue, started up to the first response that is not ready. */
    method StartClocks(pending: seq<Pending>) returns (clocked: seq<Pending>)
      ensures clocked == Clocked(pending, now)
    {
      clocked := pending;
      var i := 0;
      while i < |clocked| && clocked[i].ready
        invariant Underway(pending, clocked, i, now)
      {
        var next := clocked[i];
        if next.readyAt.None? {
          next := next.(readyAt := Some(now));
        }
        TimedNext(pending, clocked, i, now, next);
        clocked := clocked[i := next];
        i := i + 1;
      }
      TimedAll(pending, clocked, i, now);
    }

    /** Takes `ResponseQueue.Follow`, and says whether the request joined the queue. */
    method FollowRequest(socket: Socket, request: Request, complete: bool) returns (answered: bool)
      requires Valid() && Possible(View(), Requested(socket, request, complete))
      modifies this
      ensures Valid() && View() == Follow(limits, old(View()), socket, request, complete)
      ensures answered <==> request in followed
    {
      NextKeeps(limits, View(), Requested(socket, request, complete));
      if socket in dropped {
        return false;
      }
      var queue := if socket in connections then connections[socket].pending else [];
      if |queue| >= limits.maxPipelined {
        ResetConnection(socket, Backlog);
        return false;
      }
      JoinQueue(socket, request, complete);
      return true;
    }

    /** The request joins the queue, which it finds short enough. */
    method JoinQueue(socket: Socket, request: Request, complete: bool)
      requires socket !in dropped && |QueueOf(View(), socket)| < limits.maxPipelined
      modifies this
      ensures View() == Follow(limits, old(View()), socket, request, complete)
    {
      var queue, timer := [], None;
      if socket in connections {
        queue, timer := connections[socket].pending, connections[socket].timer;
      }
      connections := connections[socket := Connection(queue + [Pending(request, false, None, complete)], timer)];
      followed := followed + {request};
      if shutdownAt.Some? {
        checks := checks + {socket};
      }
    }

    /** A request's answer was given. */
    method AnswerGiven(socket: Socket, request: Request)
      requires Valid()
      modifies this
      ensures Valid() && View() == Ready(limits, old(View()), socket, request)
    {
      ReadyKeeps(limits, View(), socket, request);
      if socket in connections {
        var queue := connections[socket].pending;
        var i := IndexOf(queue, request);
        if i < |queue| {
          if queue[i].ready {
            return;
          }
          connections := connections[socket := connections[socket].(pending := queue[i := queue[i].(ready := true)])];
        }
        RefreshConnection(socket);
      }
    }

    /** Takes `ResponseQueue.Settle` in place. */
    method ResponseSettled(socket: Socket, request: Request)
      requires Valid()
      modifies this
      ensures Valid() && View() == Settle(limits, old(View()), socket, request)
    {
      SettleKeeps(limits, View(), socket, request);
      if socket in connections {
        var queue := connections[socket].pending;
        var i := IndexOf(queue, request);
        if i < |queue| {
          connections := connections[socket := connections[socket].(pending := WithoutAt(queue, i))];
          settled := settled + {request};
          RefreshConnection(socket);
        }
      }
    }

    /** A connection's timer fires. */
    method TimerFired(socket: Socket)
      requires Valid() && socket in connections
      modifies this
      ensures Valid() && View() == Expire(old(View()), socket)
    {
      InvToInvBut(limits, View(), socket);
      ResetKeeps(limits, View(), socket, WriteTimeout);
      ResetConnection(socket, WriteTimeout);
    }

    /** The parser is done with a request that arrived during shutdown. */
    method ParserDone(socket: Socket)
      requires Valid()
      modifies this
      ensures Valid() && View() == Check(limits, old(View()), socket)
    {
      CheckKeeps(limits, View(), socket);
      checks := checks - {socket};
      if socket in connections {
        RefreshConnection(socket);
      }
    }

    /** Stops the server. `order` is the order its connections are kept in. */
    method Close(order: seq<Socket>)
      requires Valid() && Possible(View(), ShutDown(order))
      modifies this
      ensures Valid() && View() == Next(limits, old(View()), ShutDown(order))
    {
      NextKeeps(limits, View(), ShutDown(order));
      ghost var begun := BeginShutdown(View());
      shutdownAt := Some(now);
      ended := ended + (sockets - connections.Keys);
      var i := 0;
      while i < |order|
        invariant i <= |order|
        invariant RefreshAll(limits, begun, order) == RefreshAll(limits, View(), order[i..])
      {
        assert order[i..][1..] == order[i + 1..];
        if order[i] in connections {
          RefreshConnection(order[i]);
        }
        i := i + 1;
      }
    }
  }
}
