/** Shutdown is held up only by handlers at work. */
module Shutdown {
  import opened Options
  import opened ResponseInvariant
  import opened ResponseQueue
  import opened ResponseRuns

  /** Beginning a shutdown never extends a deadline. */
  lemma ShutdownNeverExtendsDeadline(limits: Limits, shutdownAt: real, readyAt: real)
    ensures Deadline(limits, Some(shutdownAt), readyAt) <= Deadline(limits, None, readyAt)
  {}

  /** Nor does it re-arm a timer for later: on every connection that stays, the timer fires no later than before. */
  lemma ShutdownNeverDelaysTimer(limits: Limits, s: State, order: seq<Socket>, c: Socket)
    requires Inv(limits, s) && Possible(s, ShutDown(order))
    requires c in s.connections && s.connections[c].timer.Some?
    ensures var after := Next(limits, s, ShutDown(order));
      c in after.connections ==>
        after.connections[c].timer.Some? && after.connections[c].timer.value <= s.connections[c].timer.value
  {
    var after := Next(limits, s, ShutDown(order));
    NextKeeps(limits, s, ShutDown(order));
    if c in after.connections {
      assert Tracked(limits, s, c) && Tracked(limits, after, c);
      BeginChangesNoQueue(s);
      RefreshAllKeepsHead(limits, BeginShutdown(s), order, c);
    }
  }

  lemma BeginChangesNoQueue(s: State)
    ensures BeginShutdown(s).connections == s.connections && BeginShutdown(s).now == s.now
  {}

  /** A refresh never changes the clock of a head that has one. */
  lemma {:induction false} RefreshAllKeepsHead(limits: Limits, s: State, order: seq<Socket>, c: Socket)
    requires c in s.connections && s.connections[c].pending != [] && s.connections[c].pending[0].readyAt.Some?
    ensures var after := RefreshAll(limits, s, order);
      after.now == s.now && after.shutdownAt == s.shutdownAt &&
      (c in after.connections ==>
         after.connections[c].pending != []
             && after.connections[c].pending[0].readyAt == s.connections[c].pending[0].readyAt)
    decreases |order|
  {
    if order != [] && order[0] in s.connections {
      var next := Refresh(limits, s, order[0]);
      if c in next.connections {
        RefreshAllKeepsHead(limits, next, order[1..], c);
      } else {
        RefreshAllAddsNone(limits, next, order[1..]);
      }
    } else if order != [] {
      RefreshAllKeepsHead(limits, s, order[1..], c);
    }
  }

  lemma {:induction false} RefreshAllAddsNone(limits: Limits, s: State, order: seq<Socket>)
    ensures var after := RefreshAll(limits, s, order);
      after.now == s.now && after.shutdownAt == s.shutdownAt && after.connections.Keys <= s.connections.Keys
    decreases |order|
  {
    if order != [] {
      RefreshAllAddsNone(limits, if order[0] in s.connections then Refresh(limits, s, order[0]) else s, order[1..]);
    }
  }

  // --------------------------------------------------------------- after the last work on a connection

  /** A handler is at work on a connection: a request that has arrived as a whole waits for its answer. */
  ghost predicate AtWork(s: State, c: Socket) {
    c in s.connections && exists p :: p in s.connections[c].pending && p.complete && !p.ready
  }

  /** When work on a connection was last going on, or an answer given: as it was, or now. */
  ghost function WorkAfter(s: State, e: Event, after: State, c: Socket, work: real): real {
    if AtWork(after, c) || (e.Answered? && e.socket == c) then after.now else work
  }

  /** The latest moment of work on a connection up to a state of a run, or else the run's first moment. */
  ghost function LastWork(states: seq<State>, events: seq<Event>, i: nat, c: Socket): real
    requires |states| == |events| + 1 && i < |states|
  {
    if i == 0 then states[0].now
    else WorkAfter(states[i - 1], events[i - 1], states[i], c, LastWork(states, events, i - 1, c))
  }

  ghost predicate ClocksBy(p: seq<Pending>, work: real) {
    forall i | 0 <= i < |p| && p[i].readyAt.Some? :: p[i].readyAt.value <= work
  }

  /** What bounds a connection once shutdown has begun: no clock started after the last work on it. */
  ghost predicate Bounded(s: State, c: Socket, work: real) {
    && s.shutdownAt.Some? && s.shutdownAt.value <= work <= s.now
    && (AtWork(s, c) ==> work == s.now)
    && (c in s.connections ==> ClocksBy(s.connections[c].pending, work) && s.now <= work + SHUTDOWN_WRITE_MS)
  }

  /** No clock lies ahead, so a connection is bounded while work on it goes on. */
  lemma BoundedByNow(limits: Limits, s: State, c: Socket)
    requires Inv(limits, s) && s.shutdownAt.Some?
    ensures Bounded(s, c, s.now)
  {
    if c in s.connections {
      assert Tracked(limits, s, c);
    }
  }

  /**
   * With no handler at work on a connection, its ready responses have their clocks: only its last can lack an answer.
   */
  lemma QuietIsClocked(limits: Limits, s: State, c: Socket)
    requires Inv(limits, s) && c in s.connections && !AtWork(s, c)
    ensures var p := s.connections[c].pending;
            && (forall i | 0 <= i < |p| && p[i].ready :: p[i].readyAt.Some?)
            && (forall i | 0 <= i < |p| - 1 :: p[i].ready)
  {
    assert Tracked(limits, s, c);
    var p := s.connections[c].pending;
    forall i | 0 <= i < |p| - 1 ensures p[i].ready {
      assert p[i] in p && p[i].complete;
    }
    forall i | 0 <= i < |p| && p[i].ready ensures p[i].readyAt.Some? {
      assert ReadyThrough(p, i);
    }
  }

  /** A look at a connection starts no clock when every ready response has one. */
  lemma LookStartsNoClock(limits: Limits, s: State, c: Socket)
    requires c in s.connections
    requires var p := s.connections[c].pending; forall i | 0 <= i < |p| && p[i].ready :: p[i].readyAt.Some?
    ensures var after := Refresh(limits, s, c);
            && after.now == s.now && after.shutdownAt == s.shutdownAt
            && (c in after.connections ==> after.connections[c].pending == s.connections[c].pending)
  {
    var p := s.connections[c].pending;
    forall i | 0 <= i < |p| ensures Clocked(p, s.now)[i] == p[i] {
      ClockedAt(p, s.now, i);
      if ReadyThrough(p, i) {
        assert p[i].ready;
      }
    }
    assert Clocked(p, s.now) == p;
  }

  /** A response that leaves a quiet connection starts no clock: what it kept waiting was still to arrive. */
  lemma LeavingStartsNoClock(limits: Limits, s: State, c: Socket, request: Request, work: real)
    requires Inv(limits, s) && c in s.connections && !AtWork(s, c) && ClocksBy(s.connections[c].pending, work)
    ensures var after := Settle(limits, s, c, request);
            after.now == s.now && (c in after.connections ==> ClocksBy(after.connections[c].pending, work))
  {
    var queue := s.connections[c].pending;
    var i := IndexOf(queue, request);
    QuietIsClocked(limits, s, c);
    if i < |queue| {
      var rest := WithoutAt(queue, i);
      RestIsClocked(queue, i, work);
      LookStartsNoClock(limits, Queued(s, c, rest).(settled := s.settled + {request}), c);
    }
  }

  lemma RestIsClocked(queue: seq<Pending>, i: nat, work: real)
    requires i < |queue| && ClocksBy(queue, work)
    requires forall k | 0 <= k < |queue| && queue[k].ready :: queue[k].readyAt.Some?
    ensures var rest := WithoutAt(queue, i);
            ClocksBy(rest, work) && forall k | 0 <= k < |rest| && rest[k].ready :: rest[k].readyAt.Some?
  {
    var rest := WithoutAt(queue, i);
    assert forall k | 0 <= k < |rest| :: rest[k] == queue[if k < i then k else k + 1];
  }

  /** A request that arrives has no clock, and takes none from others. */
  lemma RequestStartsNoClock(limits: Limits, s: State, d: Socket, request: Request, complete: bool, c: Socket,
                             work: real)
    requires c in s.connections && ClocksBy(s.connections[c].pending, work)
    ensures var after := Follow(limits, s, d, request, complete);
            c in after.connections ==> ClocksBy(after.connections[c].pending, work)
  {
    if d == c {
      var queue := s.connections[c].pending;
      assert ClocksBy(queue + [Pending(request, false, None, complete)], work);
    }
  }

  lemma ArrivalStartsNoClock(s: State, d: Socket, request: Request, c: Socket, work: real)
    requires c in s.connections && ClocksBy(s.connections[c].pending, work)
    ensures var after := Complete(s, d, request);
            c in after.connections ==> ClocksBy(after.connections[c].pending, work)
  {
  }

  /** An event on another connection leaves this one's queue as it is. */
  lemma OtherConnection(limits: Limits, s: State, e: Event, c: Socket)
    requires c in s.connections && Possible(s, e) && s.shutdownAt.Some?
    requires e.Answered? || e.Sent? || e.Parsed? || e.TimedOut?
    requires e.socket != c
    ensures c in Next(limits, s, e).connections && Next(limits, s, e).connections[c].pending == s.connections[c].pending
  {
  }

  /** What an event on a quiet connection, other than an answer, does to its clocks: nothing, if it stays. */
  lemma QuietEvent(limits: Limits, s: State, e: Event, c: Socket, work: real)
    requires Inv(limits, s) && s.shutdownAt.Some? && Possible(s, e) && c in s.connections && !AtWork(s, c)
    requires ClocksBy(s.connections[c].pending, work) && !(e.Answered? && e.socket == c)
    ensures var after := Next(limits, s, e); c in after.connections ==> ClocksBy(after.connections[c].pending, work)
  {
    if (e.Answered? || e.Sent? || e.Parsed? || e.TimedOut?) && e.socket != c {
      OtherConnection(limits, s, e, c);
    } else {
      match e
      case Sent(_, r) => LeavingStartsNoClock(limits, s, c, r, work);
      case Parsed(_) =>
        QuietIsClocked(limits, s, c);
        LookStartsNoClock(limits, s.(checks := s.checks - {c}), c);
      case Requested(d, r, complete) => RequestStartsNoClock(limits, s, d, r, complete, c, work);
      case Arrived(d, r) => ArrivalStartsNoClock(s, d, r, c, work);
      case _ =>
    }
  }

  /** Shutdown does not begin again, and only its passing moves the clock. */
  lemma StaysClosed(limits: Limits, s: State, e: Event)
    requires Inv(limits, s) && s.shutdownAt.Some? && Possible(s, e)
    ensures Next(limits, s, e).shutdownAt == s.shutdownAt
    ensures if e.Passed? then Next(limits, s, e).now == e.now >= s.now else Next(limits, s, e).now == s.now
  {
  }

  /** During shutdown no event brings a connection back. */
  lemma NoneComesBack(limits: Limits, s: State, e: Event, c: Socket)
    requires Inv(limits, s) && s.shutdownAt.Some? && Possible(s, e)
    ensures c in Next(limits, s, e).connections ==> c in s.connections
  {
    assert NoneIdle(s);
  }

  /** The clock cannot pass the bound of a quiet connection: its timer fires first. */
  lemma TimerBoundsTheClock(limits: Limits, s: State, c: Socket, work: real, now: real)
    requires Inv(limits, s) && Bounded(s, c, work) && Possible(s, Passed(now)) && c in s.connections && !AtWork(s, c)
    ensures now <= work + SHUTDOWN_WRITE_MS
  {
    assert Tracked(limits, s, c) && HeadAtWork(s, c);
    var p := s.connections[c].pending;
    assert p[0] in p && p[0].ready;
    QuietIsClocked(limits, s, c);
    assert s.connections[c].timer.Some?;
  }

  lemma QuietStep(limits: Limits, s: State, e: Event, c: Socket, work: real)
    requires Inv(limits, s) && Bounded(s, c, work) && Possible(s, e) && !AtWork(s, c) && !(e.Answered? && e.socket == c)
    requires !AtWork(Next(limits, s, e), c)
    ensures Bounded(Next(limits, s, e), c, work)
  {
    NoneComesBack(limits, s, e, c);
    StaysClosed(limits, s, e);
    if c in Next(limits, s, e).connections {
      QuietEvent(limits, s, e, c, work);
      if e.Passed? {
        TimerBoundsTheClock(limits, s, c, work, e.now);
      }
    }
  }

  /** Each event keeps every connection bounded by the last work on it. */
  lemma StepKeepsBound(limits: Limits, s: State, e: Event, c: Socket, work: real)
    requires Inv(limits, s) && Bounded(s, c, work) && Possible(s, e)
    ensures var after := Next(limits, s, e); Bounded(after, c, WorkAfter(s, e, after, c, work))
  {
    var after := Next(limits, s, e);
    NextKeeps(limits, s, e);
    NoneComesBack(limits, s, e, c);
    StaysClosed(limits, s, e);
    if AtWork(after, c) || (e.Answered? && e.socket == c) {
      BoundedByNow(limits, after, c);
    } else if AtWork(s, c) {
      WorkEnds(limits, s, e, c);
      BoundedByNow(limits, after, c);
    } else {
      QuietStep(limits, s, e, c, work);
    }
  }

  /** Work on a connection does not end by time passing. */
  lemma WorkEnds(limits: Limits, s: State, e: Event, c: Socket)
    requires s.shutdownAt.Some? && Possible(s, e) && AtWork(s, c) && !AtWork(Next(limits, s, e), c)
    ensures Next(limits, s, e).now == s.now
  {
    assert e.Passed? ==> Next(limits, s, e).connections == s.connections;
  }

  /**
   * Once shutdown has begun, a connection stays for at most SHUTDOWN_WRITE_MS after the last work on it: after
   * a handler was last at work on a request of it that had arrived, or an answer was given. That holds whatever
   * its clients do, and while requests go on to arrive and be answered, there and on other connections.
   */
  lemma {:induction false} ConnectionsEnd(limits: Limits, states: seq<State>, events: seq<Event>, i: nat, c: Socket)
    requires IsRun(limits, states, events) && i < |states|
    requires Inv(limits, states[0]) && states[0].shutdownAt.Some?
    ensures Inv(limits, states[i]) && Bounded(states[i], c, LastWork(states, events, i, c))
    ensures states[i].now > LastWork(states, events, i, c) + SHUTDOWN_WRITE_MS ==>
              c !in states[i].connections && (c in states[i].sockets ==> c in states[i].ended)
  {
    if i == 0 {
      BoundedByNow(limits, states[0], c);
    } else {
      ConnectionsEnd(limits, states, events, i - 1, c);
      assert states[i - 1 + 1] == Next(limits, states[i - 1], events[i - 1]);
      NextKeeps(limits, states[i - 1], events[i - 1]);
      StepKeepsBound(limits, states[i - 1], events[i - 1], c, LastWork(states, events, i - 1, c));
    }
    assert NoneIdle(states[i]);
  }

  // ----------------------------------------------------------------------------- after the last answer

  /** No handler is at work: a request that has arrived as a whole was answered. */
  ghost predicate AllAnswered(s: State) {
    forall c :: !AtWork(s, c)
  }

  lemma {:induction false} NoMoreWork(states: seq<State>, events: seq<Event>, i: nat, c: Socket)
    requires |states| == |events| + 1 && i < |states|
    requires forall j | 0 <= j < |states| :: AllAnswered(states[j])
    requires forall j | 0 <= j < |events| :: !events[j].Answered?
    ensures LastWork(states, events, i, c) == states[0].now
  {
    if i > 0 {
      NoMoreWork(states, events, i - 1, c);
      assert AllAnswered(states[i]) && !events[i - 1].Answered?;
    }
  }

  /**
   * So once every handler has answered, at or after the beginning of the shutdown, every connection has ended
   * after SHUTDOWN_WRITE_MS, whatever the clients do: send, stop reading, or say nothing.
   */
  lemma ShutdownEnds(limits: Limits, states: seq<State>, events: seq<Event>, i: nat)
    requires IsRun(limits, states, events) && i < |states|
    requires Inv(limits, states[0]) && states[0].shutdownAt.Some?
    requires forall j | 0 <= j < |states| :: AllAnswered(states[j])
    requires forall j | 0 <= j < |events| :: !events[j].Answered?
    ensures states[i].now > states[0].now + SHUTDOWN_WRITE_MS ==>
      states[i].connections == map[] && states[i].sockets <= states[i].ended
  {
    if states[i].now > states[0].now + SHUTDOWN_WRITE_MS {
      forall c ensures c !in states[i].connections && (c in states[i].sockets ==> c in states[i].ended) {
        ConnectionsEnd(limits, states, events, i, c);
        NoMoreWork(states, events, i, c);
      }
      assert states[i].connections.Keys == {};
    }
  }
}
