/**
 * The responses the server follows, connection by connection, as a state machine: what each event does to
 * the queues, clocks and timers. Times are in milliseconds.
 */
module ResponseQueue {
  import opened Options
  import opened Reals

  type Socket = nat
  type Request = nat

  /** What a shutdown leaves a clock to run for, when the timeout would leave it more. */
  const SHUTDOWN_WRITE_MS := 1_000.0

  /**
   * A response on a connection. `ready`: its answer was given. `readyAt`: its clock, which starts when the last
   * response up to it is answered. `complete`: its request has arrived as a whole.
   */
  datatype Pending = Pending(request: Request, ready: bool, readyAt: Option<real>, complete: bool)

  /** A connection's queue of responses, in the order of their requests, and when its timer fires. */
  datatype Connection = Connection(pending: seq<Pending>, timer: Option<real>)

  datatype Limits = Limits(timeoutMs: real, maxPipelined: nat)

  datatype ResetReason = WriteTimeout | Backlog

  /**
   * `sockets`: connections accepted and not closed. `ended`: those the server reset or destroyed. `dropped`:
   * those it reset, whose later requests are not answered. `checks`: connections to look at again once the
   * parser is done. `followed`, `settled` and `lost` remember the requests so far.
   */
  datatype State = State(
    now: real, sockets: set<Socket>, ended: set<Socket>, connections: map<Socket, Connection>, dropped: set<Socket>,
    shutdownAt: Option<real>, checks: set<Socket>, resets: seq<(ResetReason, nat)>,
    followed: set<Request>, settled: set<Request>, lost: set<Request>)

  /** When the clock that started at `readyAt` has run out. */
  function Deadline(limits: Limits, shutdownAt: Option<real>, readyAt: real): real {
    if shutdownAt.None? then readyAt + limits.timeoutMs
    else Min(readyAt + limits.timeoutMs, Max(readyAt, shutdownAt.value) + SHUTDOWN_WRITE_MS)
  }

  /** Starts at `now` the clocks the ready prefix of a queue still lacks. */
  function Clocked(pending: seq<Pending>, now: real): (clocked: seq<Pending>)
    ensures |clocked| == |pending|
  {
    if pending == [] || !pending[0].ready then pending else
    [if pending[0].readyAt.Some? then pending[0] else pending[0].(readyAt := Some(now))] + Clocked(pending[1..], now)
  }

  function Requests(pending: seq<Pending>): set<Request> {
    set p | p in pending :: p.request
  }

  /** Forgets a connection's responses and resets it. */
  function Drop(s: State, socket: Socket): State
    requires socket in s.connections
  {
    s.(connections := s.connections - {socket}, dropped := s.dropped + {socket}, ended := s.ended + {socket},
       lost := s.lost + Requests(s.connections[socket].pending))
  }

  function Reset(s: State, socket: Socket, reason: ResetReason): State
    requires socket in s.connections
  {
    Drop(s, socket).(resets := s.resets + [(reason, |s.connections[socket].pending|)])
  }

  /** When the head's timer is to fire: at its deadline, or at once when that has passed. */
  function TimerFor(limits: Limits, s: State, pending: seq<Pending>): Option<real> {
    if pending == [] || pending[0].readyAt.None? then None
    else Some(Max(s.now, Deadline(limits, s.shutdownAt, pending[0].readyAt.value)))
  }

  /** Starts the clocks that are due and times the oldest response; an emptied connection is let go. */
  function Refresh(limits: Limits, s: State, socket: Socket): State
    requires socket in s.connections
  {
    var pending := Clocked(s.connections[socket].pending, s.now);
    if pending == [] then
      s.(connections := s.connections - {socket}, ended := if s.shutdownAt.Some? then s.ended + {socket} else s.ended)
    else if s.shutdownAt.Some? && !pending[0].ready && !pending[0].complete then
      // Nobody is at work on a head that is still arriving.
      Drop(s, socket)
    else
      s.(connections := s.connections[socket := Connection(pending, TimerFor(limits, s, pending))])
  }

  function QueueOf(s: State, socket: Socket): seq<Pending> {
    if socket in s.connections then s.connections[socket].pending else []
  }

  function IndexOf(pending: seq<Pending>, request: Request): (i: nat)
    ensures i <= |pending|
    ensures i < |pending| ==> pending[i].request == request
    ensures forall j | 0 <= j < i :: pending[j].request != request
  {
    if pending == [] || pending[0].request == request then 0 else 1 + IndexOf(pending[1..], request)
  }

  // ----------------------------------------------------------------------------------------- events

  /** A request arrives. */
  function Follow(limits: Limits, s: State, socket: Socket, request: Request, complete: bool): State {
    if socket in s.dropped then s else
    var queue := QueueOf(s, socket);
    if |queue| >= limits.maxPipelined then
      if socket in s.connections then Reset(s, socket, Backlog) else s
    else
      var timer := if socket in s.connections then s.connections[socket].timer else None;
      s.(connections := s.connections[socket := Connection(queue + [Pending(request, false, None, complete)], timer)],
         checks := if s.shutdownAt.Some? then s.checks + {socket} else s.checks,
         followed := s.followed + {request})
  }

  /** The connection has this queue now. */
  function Queued(s: State, socket: Socket, queue: seq<Pending>): State
    requires socket in s.connections
  {
    s.(connections := s.connections[socket := s.connections[socket].(pending := queue)])
  }

  /** Its handler, or the server itself, has answered. */
  function Ready(limits: Limits, s: State, socket: Socket, request: Request): State {
    if socket !in s.connections then s else
    var queue := s.connections[socket].pending;
    var i := IndexOf(queue, request);
    if i == |queue| then Refresh(limits, s, socket)
    else if queue[i].ready then s
    else Refresh(limits, Queued(s, socket, queue[i := queue[i].(ready := true)]), socket)
  }

  /** Its response leaves the queue, whether it was sent or its connection is gone. */
  function Settle(limits: Limits, s: State, socket: Socket, request: Request): State {
    if socket !in s.connections then s else
    var queue := s.connections[socket].pending;
    var i := IndexOf(queue, request);
    if i == |queue| then s else
    Refresh(limits, Queued(s, socket, WithoutAt(queue, i)).(settled := s.settled + {request}), socket)
  }

  /** The rest of its body has arrived. */
  function Complete(s: State, socket: Socket, request: Request): State {
    if socket !in s.connections then s else
    var queue := s.connections[socket].pending;
    var i := IndexOf(queue, request);
    if i == |queue| then s else
    Queued(s, socket, queue[i := queue[i].(complete := true)])
  }

  /** The parser is done with a request that arrived during shutdown. */
  function Check(limits: Limits, s: State, socket: Socket): State {
    var done := s.(checks := s.checks - {socket});
    if socket in s.connections then Refresh(limits, done, socket) else done
  }

  /** A connection's timer fires. */
  function Expire(s: State, socket: Socket): State {
    if socket in s.connections then Reset(s, socket, WriteTimeout) else s
  }

  function Connect(s: State, socket: Socket): State {
    s.(sockets := s.sockets + {socket})
  }

  /** The connection is closed for good; its responses settle one by one. */
  function Closed(s: State, socket: Socket): State {
    s.(sockets := s.sockets - {socket})
  }

  /** Shutdown begins: connections with nothing to answer are closed, */
  function BeginShutdown(s: State): State {
    s.(shutdownAt := Some(s.now), ended := s.ended + (s.sockets - s.connections.Keys))
  }

  /** and every other one is looked at again. */
  function RefreshAll(limits: Limits, s: State, sockets: seq<Socket>): State
    decreases |sockets|
  {
    if sockets == [] then s else
    RefreshAll(limits, if sockets[0] in s.connections then Refresh(limits, s, sockets[0]) else s, sockets[1..])
  }

  function Tick(s: State, now: real): State {
    s.(now := now)
  }
}
