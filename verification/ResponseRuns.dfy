/** Runs of the server: any interleaving of events on any number of connections. */
module ResponseRuns {
  import opened Options
  import opened ResponseInvariant
  import opened ResponseQueue

  datatype Event =
    | Connected(socket: Socket)
    | Requested(socket: Socket, request: Request, complete: bool)
    | Answered(socket: Socket, request: Request)
    | Sent(socket: Socket, request: Request)
    | Arrived(socket: Socket, request: Request)
    | Parsed(socket: Socket)
    | TimedOut(socket: Socket)
    | Disconnected(socket: Socket)
    | ShutDown(order: seq<Socket>)
    | Passed(now: real)

  /**
   * What the environment can do: a request is new, arrives on an open connection after the ones before it
   * have arrived as a whole (on a reset one it is ignored); timers and checks run when they are due, before
   * the clock passes them; no connection is accepted once the server is closed.
   */
  ghost predicate Possible(s: State, e: Event) {
    match e
    case Connected(c) => s.shutdownAt.None? && c !in s.sockets && c !in s.ended && c !in s.dropped
                         && c !in s.connections
    case Requested(c, r, _) =>
      r !in s.followed &&
      (c in s.dropped || (c in s.sockets && c !in s.ended && AllArrived(QueueOf(s, c))))
    case Parsed(c) => c in s.checks
    case TimedOut(c) => c in s.connections && s.connections[c].timer.Some? && s.connections[c].timer.value <= s.now
    case ShutDown(order) => s.shutdownAt.None? && (forall c :: c in order <==> c in s.connections)
    case Passed(t) =>
      s.now <= t && s.checks == {} &&
      forall c | c in s.connections && s.connections[c].timer.Some? :: t <= s.connections[c].timer.value
    case _ => true
  }

  function Next(limits: Limits, s: State, e: Event): State {
    match e
    case Connected(c) => Connect(s, c)
    case Requested(c, r, complete) => Follow(limits, s, c, r, complete)
    case Answered(c, r) => Ready(limits, s, c, r)
    case Sent(c, r) => Settle(limits, s, c, r)
    case Arrived(c, r) => Complete(s, c, r)
    case Parsed(c) => Check(limits, s, c)
    case TimedOut(c) => Expire(s, c)
    case Disconnected(c) => Closed(s, c)
    case ShutDown(order) => RefreshAll(limits, BeginShutdown(s), order)
    case Passed(t) => Tick(s, t)
  }

  // -------------------------------------------------------------------------------------- invariant

  /** The requests waiting on a tracked connection. */
  function Waiting(s: State): set<Request> {
    set c, r | c in s.connections && r in Requests(s.connections[c].pending) :: r
  }

  /** Each followed request is settled, lost to a reset, or waiting: exactly one of them. */
  ghost predicate Accounted(s: State) {
    s.followed == s.settled + s.lost + Waiting(s) && s.settled !! s.lost && s.settled + s.lost !! Waiting(s) &&
    forall c, d | c in s.connections && d in s.connections && c != d ::
      Requests(s.connections[c].pending) !! Requests(s.connections[d].pending)
  }

  /**
   * A tracked connection has something to answer, never too much, exact clocks, and its timer at its head's deadline.
   */
  ghost predicate Tracked(limits: Limits, s: State, c: Socket)
    requires c in s.connections
  {
    s.connections[c].pending != [] && |s.connections[c].pending| <= limits.maxPipelined &&
    QueueExact(s.connections[c].pending, s.now)
        && s.connections[c].timer == TimerFor(limits, s, s.connections[c].pending) &&
    c !in s.ended && c !in s.dropped
  }

  /** During shutdown a connection's head is being answered, unless the parser still has to be asked. */
  ghost predicate HeadAtWork(s: State, c: Socket)
    requires c in s.connections && s.connections[c].pending != []
  {
    s.shutdownAt.Some? ==>
      s.connections[c].pending[0].ready || s.connections[c].pending[0].complete || c in s.checks
  }

  /** Once shutdown has begun, an open connection is one with something to answer. */
  ghost predicate NoneIdle(s: State) {
    s.shutdownAt.Some? ==> s.shutdownAt.value <= s.now && s.sockets - s.ended <= s.connections.Keys
  }

  /** Everything, except that the queues of the connections in `left` are about to be refreshed. */
  ghost predicate InvBut(limits: Limits, s: State, left: set<Socket>) {
    limits.maxPipelined >= 1 && limits.timeoutMs >= 0.0 && Accounted(s) && NoneIdle(s) && s.dropped <= s.ended &&
    (forall c | c in left :: c in s.connections && Untimed(limits, s, c)) &&
    (forall c | c in s.connections && c !in left :: Tracked(limits, s, c) && HeadAtWork(s, c))
  }

  ghost predicate Untimed(limits: Limits, s: State, c: Socket)
    requires c in s.connections
  {
    |s.connections[c].pending| <= limits.maxPipelined && QueueDue(s.connections[c].pending, s.now) &&
    c !in s.ended && c !in s.dropped
  }

  ghost predicate Inv(limits: Limits, s: State) {
    InvBut(limits, s, {})
  }

  /** The requests waiting apart from one connection's. */
  lemma WaitingWithout(s: State, c: Socket)
    requires Accounted(s) && c in s.connections
    ensures Waiting(s.(connections := s.connections - {c})) == Waiting(s) - Requests(s.connections[c].pending)
    ensures Requests(s.connections[c].pending) <= Waiting(s)
  {
    var rest := s.(connections := s.connections - {c});
    forall r ensures r in Waiting(rest) <==> r in Waiting(s) && r !in Requests(s.connections[c].pending) {
      if r in Waiting(s) {
        var d :| d in s.connections && r in Requests(s.connections[d].pending);
        assert d != c ==> d in rest.connections && r in Requests(rest.connections[d].pending);
      }
    }
  }

  /** The requests waiting once one connection's queue is another. */
  lemma WaitingWith(s: State, c: Socket, connection: Connection)
    ensures Waiting(s.(connections := s.connections[c := connection])) ==
            Waiting(s.(connections := s.connections - {c})) + Requests(connection.pending)
  {
    var after, rest := s.(connections := s.connections[c := connection]), s.(connections := s.connections - {c});
    forall r ensures r in Waiting(after) <==> r in Waiting(rest) || r in Requests(connection.pending) {
      if r in Waiting(after) {
        var d :| d in after.connections && r in Requests(after.connections[d].pending);
        assert d != c ==> d in rest.connections && r in Requests(rest.connections[d].pending);
      }
      if r in Waiting(rest) {
        var d :| d in rest.connections && r in Requests(rest.connections[d].pending);
        assert d in after.connections && r in Requests(after.connections[d].pending);
      }
      assert c in after.connections && after.connections[c] == connection;
    }
  }

  lemma DropKeeps(limits: Limits, s: State, left: set<Socket>, c: Socket)
    requires InvBut(limits, s, left) && c in left
    ensures InvBut(limits, Drop(s, c), left - {c})
  {
    WaitingWithout(s, c);
    var after := Drop(s, c);
    assert Waiting(after) == Waiting(s.(connections := s.connections - {c}));
    forall d | d in after.connections && d !in left ensures Tracked(limits, after, d) && HeadAtWork(after, d) {
      assert Tracked(limits, s, d) && HeadAtWork(s, d);
    }
    forall d | d in left && d != c ensures d in after.connections && Untimed(limits, after, d) {
      assert Untimed(limits, s, d);
    }
  }

  lemma EmptyKeeps(limits: Limits, s: State, left: set<Socket>, c: Socket)
    requires InvBut(limits, s, left) && c in left && s.connections[c].pending == []
    ensures InvBut(limits, Refresh(limits, s, c), left - {c})
  {
    WaitingWithout(s, c);
    var after := Refresh(limits, s, c);
    assert Waiting(after) == Waiting(s.(connections := s.connections - {c}));
    forall d | d in after.connections && d !in left ensures Tracked(limits, after, d) && HeadAtWork(after, d) {
      assert Tracked(limits, s, d) && HeadAtWork(s, d);
    }
    forall d | d in left && d != c ensures d in after.connections && Untimed(limits, after, d) {
      assert Untimed(limits, s, d);
    }
  }

  /** A connection whose queue is exact and timed joins the others. */
  lemma TimedKeeps(limits: Limits, s: State, left: set<Socket>, c: Socket, connection: Connection)
    requires InvBut(limits, s, left) && c in left && connection.pending != []
    requires |connection.pending| <= limits.maxPipelined
    requires QueueExact(connection.pending, s.now) && connection.timer == TimerFor(limits, s, connection.pending)
    requires Requests(connection.pending) == Requests(s.connections[c].pending)
    requires s.shutdownAt.Some? ==> connection.pending[0].ready || connection.pending[0].complete || c in s.checks
    ensures InvBut(limits, s.(connections := s.connections[c := connection]), left - {c})
  {
    var after := s.(connections := s.connections[c := connection]);
    WaitingWithout(s, c);
    WaitingWith(s, c, connection);
    assert Waiting(after) == Waiting(s);
    assert Untimed(limits, s, c);
    forall d | d in after.connections && d !in left - {c} ensures Tracked(limits, after, d) && HeadAtWork(after, d) {
      if d != c { assert Tracked(limits, s, d) && HeadAtWork(s, d); }
    }
    forall d | d in left - {c} ensures d in after.connections && Untimed(limits, after, d) {
      assert Untimed(limits, s, d);
    }
  }

  /** A refresh restores the connection it looks at. */
  lemma RefreshKeeps(limits: Limits, s: State, left: set<Socket>, c: Socket)
    requires InvBut(limits, s, left) && c in left
    ensures InvBut(limits, Refresh(limits, s, c), left - {c})
  {
    assert Untimed(limits, s, c);
    var pending := Clocked(s.connections[c].pending, s.now);
    RefreshedQueue(s.connections[c].pending, s.now);
    if pending == [] {
      EmptyKeeps(limits, s, left, c);
    } else if s.shutdownAt.Some? && !pending[0].ready && !pending[0].complete {
      DropKeeps(limits, s, left, c);
    } else {
      TimedKeeps(limits, s, left, c, Connection(pending, TimerFor(limits, s, pending)));
    }
  }

  // ----------------------------------------------------------------------------------- every event

  /** A request that was not followed waits nowhere. */
  lemma NewRequest(s: State, c: Socket, request: Request)
    requires Accounted(s) && request !in s.followed && c in s.connections
    ensures request !in Requests(s.connections[c].pending)
  {
    assert request in Requests(s.connections[c].pending) ==> request in Waiting(s);
  }

  lemma InvToInvBut(limits: Limits, s: State, c: Socket)
    requires Inv(limits, s) && c in s.connections
    ensures InvBut(limits, s, {c})
  {
    assert Tracked(limits, s, c);
    ExactIsDue(s.connections[c].pending, s.now);
  }

  /** The requests stay accounted for when some leave a queue as settled. */
  lemma ChangedAccounts(s: State, c: Socket, pending: seq<Pending>, settled: set<Request>)
    requires Accounted(s) && c in s.connections && settled <= Requests(s.connections[c].pending)
    requires Requests(pending) == Requests(s.connections[c].pending) - settled
    ensures Accounted(Queued(s, c, pending).(settled := s.settled + settled))
  {
    var connection := s.connections[c].(pending := pending);
    var after := s.(connections := s.connections[c := connection], settled := s.settled + settled);
    WaitingWithout(s, c);
    WaitingWith(s, c, connection);
    assert Waiting(after) == Waiting(s.(connections := s.connections[c := connection]));
  }

  /** A change of one queue, and of which of its requests are settled, before its refresh. */
  lemma ChangedQueue(limits: Limits, s: State, c: Socket, pending: seq<Pending>, settled: set<Request>)
    requires Inv(limits, s) && c in s.connections && settled <= Requests(s.connections[c].pending)
    requires QueueDue(pending, s.now) && |pending| <= limits.maxPipelined
    requires Requests(pending) == Requests(s.connections[c].pending) - settled
    ensures InvBut(limits, Queued(s, c, pending).(settled := s.settled + settled), {c})
  {
    var after := Queued(s, c, pending).(settled := s.settled + settled);
    ChangedAccounts(s, c, pending, settled);
    assert Tracked(limits, s, c);
    forall d | d in after.connections && d != c ensures Tracked(limits, after, d) && HeadAtWork(after, d) {
      assert Tracked(limits, s, d) && HeadAtWork(s, d);
    }
  }

  lemma FollowKeeps(limits: Limits, s: State, c: Socket, request: Request, complete: bool)
    requires Inv(limits, s) && Possible(s, Requested(c, request, complete))
    ensures Inv(limits, Follow(limits, s, c, request, complete))
  {
    if c !in s.dropped {
      var queue := QueueOf(s, c);
      if |queue| >= limits.maxPipelined {
        InvToInvBut(limits, s, c);
        ResetKeeps(limits, s, c, Backlog);
      } else {
        PushKeeps(limits, s, c, request, complete);
      }
    }
  }

  lemma ResetKeeps(limits: Limits, s: State, c: Socket, reason: ResetReason)
    requires InvBut(limits, s, {c})
    ensures Inv(limits, Reset(s, c, reason))
  {
    DropKeeps(limits, s, {c}, c);
    var dropped, after := Drop(s, c), Reset(s, c, reason);
    assert Waiting(after) == Waiting(dropped);
    forall d | d in after.connections ensures Tracked(limits, after, d) && HeadAtWork(after, d) {
      assert Tracked(limits, dropped, d) && HeadAtWork(dropped, d);
    }
  }

  /** A new request waits, and nothing else about the requests changes. */
  lemma PushAccounted(limits: Limits, s: State, c: Socket, request: Request, complete: bool)
    requires Accounted(s) && request !in s.followed && c !in s.dropped && |QueueOf(s, c)| < limits.maxPipelined
    requires Requests(QueueOf(s, c) + [Pending(request, false, None, complete)]) == Requests(QueueOf(s, c)) + {request}
    ensures Accounted(Follow(limits, s, c, request, complete))
  {
    var queue, after := QueueOf(s, c), Follow(limits, s, c, request, complete);
    if c in s.connections {
      WaitingWithout(s, c);
    } else {
      assert s.connections - {c} == s.connections;
    }
    WaitingWith(s, c, after.connections[c]);
    assert Waiting(after) == Waiting(s.(connections := after.connections));
    PushedApart(s, c, request, complete);
  }

  lemma PushKeeps(limits: Limits, s: State, c: Socket, request: Request, complete: bool)
    requires Inv(limits, s) && Possible(s, Requested(c, request, complete)) && c !in s.dropped
    requires |QueueOf(s, c)| < limits.maxPipelined
    ensures Inv(limits, Follow(limits, s, c, request, complete))
  {
    var queue, after := QueueOf(s, c), Follow(limits, s, c, request, complete);
    if c in s.connections {
      NewRequest(s, c, request);
      assert Tracked(limits, s, c) && HeadAtWork(s, c);
    }
    PushedQueue(queue, s.now, request, complete);
    PushAccounted(limits, s, c, request, complete);
    forall d | d in after.connections ensures Tracked(limits, after, d) && HeadAtWork(after, d) {
      if d != c { assert Tracked(limits, s, d) && HeadAtWork(s, d); }
    }
  }

  /** A new request is apart from every other connection's. */
  lemma PushedApart(s: State, c: Socket, request: Request, complete: bool)
    requires Accounted(s) && request !in s.followed
    ensures forall d | d in s.connections && d != c ::
      Requests(QueueOf(s, c) + [Pending(request, false, None, complete)]) !! Requests(s.connections[d].pending)
  {
    var queue := QueueOf(s, c);
    forall d | d in s.connections && d != c
      ensures Requests(queue + [Pending(request, false, None, complete)]) !! Requests(s.connections[d].pending)
    {
      NewRequest(s, d, request);
      assert Requests(queue + [Pending(request, false, None, complete)]) <= Requests(queue) + {request};
      assert Requests(queue) !! Requests(s.connections[d].pending);
    }
  }

  lemma ReadyKeeps(limits: Limits, s: State, c: Socket, request: Request)
    requires Inv(limits, s)
    ensures Inv(limits, Ready(limits, s, c, request))
  {
    if c in s.connections {
      var queue := s.connections[c].pending;
      var i := IndexOf(queue, request);
      assert Tracked(limits, s, c);
      if i == |queue| {
        InvToInvBut(limits, s, c);
        RefreshKeeps(limits, s, {c}, c);
      } else if !queue[i].ready {
        AnsweredQueue(queue, s.now, i);
        ChangedQueue(limits, s, c, queue[i := queue[i].(ready := true)], {});
        assert s.settled + {} == s.settled;
        RefreshKeeps(limits, Queued(s, c, queue[i := queue[i].(ready := true)]), {c}, c);
      }
    }
  }

  lemma SettleKeeps(limits: Limits, s: State, c: Socket, request: Request)
    requires Inv(limits, s)
    ensures Inv(limits, Settle(limits, s, c, request))
  {
    if c in s.connections {
      var queue := s.connections[c].pending;
      var i := IndexOf(queue, request);
      if i < |queue| {
        assert Tracked(limits, s, c);
        SettledQueue(queue, s.now, i);
        SettledRequests(queue, i);
        ChangedQueue(limits, s, c, WithoutAt(queue, i), {request});
        RefreshKeeps(limits, Queued(s, c, WithoutAt(queue, i)).(settled := s.settled + {request}), {c}, c);
      }
    }
  }

  lemma CheckKeeps(limits: Limits, s: State, c: Socket)
    requires Inv(limits, s)
    ensures Inv(limits, Check(limits, s, c))
  {
    var done := s.(checks := s.checks - {c});
    assert Waiting(done) == Waiting(s);
    if c in s.connections {
      InvToInvBut(limits, s, c);
      forall d | d in s.connections && d != c ensures Tracked(limits, done, d) && HeadAtWork(done, d) {
        assert Tracked(limits, s, d) && HeadAtWork(s, d);
      }
      assert Untimed(limits, s, c);
      RefreshKeeps(limits, done, {c}, c);
    } else {
      forall d | d in s.connections ensures Tracked(limits, done, d) && HeadAtWork(done, d) {
        assert Tracked(limits, s, d) && HeadAtWork(s, d);
      }
    }
  }

  lemma CompleteKeeps(limits: Limits, s: State, c: Socket, request: Request)
    requires Inv(limits, s)
    ensures Inv(limits, Complete(s, c, request))
  {
    if c in s.connections {
      var queue := s.connections[c].pending;
      var i := IndexOf(queue, request);
      if i < |queue| {
        assert Tracked(limits, s, c) && HeadAtWork(s, c);
        ArrivedQueue(queue, s.now, i);
        InvToInvBut(limits, s, c);
        TimedKeeps(limits, s, {c}, c, s.connections[c].(pending := queue[i := queue[i].(complete := true)]));
      }
    }
  }

  /** The clock runs on, up to the next timer. */
  lemma TickKeeps(limits: Limits, s: State, now: real)
    requires Inv(limits, s) && Possible(s, Passed(now))
    ensures Inv(limits, Tick(s, now))
  {
    var after := Tick(s, now);
    assert Waiting(after) == Waiting(s);
    forall c | c in after.connections ensures Tracked(limits, after, c) && HeadAtWork(after, c) {
      assert Tracked(limits, s, c) && HeadAtWork(s, c);
    }
  }

  /** Sockets come and go without touching the tracked connections. */
  lemma SocketsKeep(limits: Limits, s: State, sockets: set<Socket>)
    requires Inv(limits, s) && (s.shutdownAt.Some? ==> sockets <= s.sockets)
    ensures Inv(limits, s.(sockets := sockets))
  {
    var after := s.(sockets := sockets);
    assert Waiting(after) == Waiting(s);
    forall c | c in after.connections ensures Tracked(limits, after, c) && HeadAtWork(after, c) {
      assert Tracked(limits, s, c) && HeadAtWork(s, c);
    }
  }

  lemma BeginKeeps(limits: Limits, s: State)
    requires Inv(limits, s)
    ensures InvBut(limits, BeginShutdown(s), s.connections.Keys)
  {
    var after := BeginShutdown(s);
    assert Waiting(after) == Waiting(s);
    forall c | c in s.connections ensures Untimed(limits, after, c) {
      assert Tracked(limits, s, c);
      ExactIsDue(s.connections[c].pending, s.now);
    }
  }

  /** Looking at every connection in turn restores them all. */
  lemma {:induction false} RefreshAllKeeps(limits: Limits, s: State, left: set<Socket>, order: seq<Socket>)
    requires InvBut(limits, s, left) && forall c | c in left :: c in order
    requires forall c | c in order && c in s.connections :: c in left
    ensures Inv(limits, RefreshAll(limits, s, order))
    decreases |order|
  {
    if order == [] {
      assert left == {};
    } else {
      var c := order[0];
      var next := if c in s.connections then Refresh(limits, s, c) else s;
      if c in s.connections {
        RefreshKeeps(limits, s, left, c);
        RefreshTwice(limits, next, left - {c}, c);
      }
      var rest := if c in next.connections && c in order[1..] then left - {c} + {c} else left - {c};
      assert forall d | d in left - {c} :: d in order[1..];
      RefreshAllKeeps(limits, next, rest, order[1..]);
    }
  }

  /** A connection looked at may be looked at again. */
  lemma RefreshTwice(limits: Limits, s: State, left: set<Socket>, c: Socket)
    requires InvBut(limits, s, left)
    ensures c in s.connections ==> InvBut(limits, s, left + {c})
  {
    if c in s.connections && c !in left {
      assert Tracked(limits, s, c);
      ExactIsDue(s.connections[c].pending, s.now);
      forall d | d in left + {c} ensures Untimed(limits, s, d) {}
    } else if c in s.connections {
      assert left + {c} == left;
    }
  }

  /** Every event keeps the invariant. */
  lemma NextKeeps(limits: Limits, s: State, e: Event)
    requires Inv(limits, s) && Possible(s, e)
    ensures Inv(limits, Next(limits, s, e))
  {
    match e
    case Connected(c) => SocketsKeep(limits, s, s.sockets + {c});
    case Requested(c, r, complete) => FollowKeeps(limits, s, c, r, complete);
    case Answered(c, r) => ReadyKeeps(limits, s, c, r);
    case Sent(c, r) => SettleKeeps(limits, s, c, r);
    case Arrived(c, r) => CompleteKeeps(limits, s, c, r);
    case Parsed(c) => CheckKeeps(limits, s, c);
    case TimedOut(c) =>
      InvToInvBut(limits, s, c);
      ResetKeeps(limits, s, c, WriteTimeout);
    case Disconnected(c) => SocketsKeep(limits, s, s.sockets - {c});
    case ShutDown(order) =>
      BeginKeeps(limits, s);
      RefreshAllKeeps(limits, BeginShutdown(s), s.connections.Keys, order);
    case Passed(t) => TickKeeps(limits, s, t);
  }

  // ------------------------------------------------------------------------------------------- runs

  function Start(now: real): State {
    State(now, {}, {}, map[], {}, None, {}, [], {}, {}, {})
  }

  /** The states of a run. */
  ghost predicate IsRun(limits: Limits, states: seq<State>, events: seq<Event>) {
    |states| == |events| + 1 &&
    forall i | 0 <= i < |events| ::
      Possible(states[i], events[i]) && states[i + 1] == Next(limits, states[i], events[i])
  }

  /**
   * After every event of every run: on each tracked connection the responses with a clock are exactly the
   * longest ready prefix, clocks do not decrease, the timer is armed exactly when the head has a clock, for
   * its deadline, and the queue is neither empty nor over its limit; and every request followed is settled,
   * lost to a reset or waiting.
   */
  lemma {:induction false} EveryRunKeeps(limits: Limits, now: real, states: seq<State>, events: seq<Event>)
    requires limits.maxPipelined >= 1 && limits.timeoutMs >= 0.0
    requires IsRun(limits, states, events) && states[0] == Start(now)
    ensures forall i | 0 <= i < |states| :: Inv(limits, states[i])
  {
    assert Waiting(states[0]) == {};
    for i := 0 to |events|
      invariant forall j | 0 <= j <= i :: Inv(limits, states[j])
    {
      NextKeeps(limits, states[i], events[i]);
    }
  }
}
