/**
 * What each event on the server's connections does to the requests on them: which are marked, joined, sent and
 * lost, when a connection is reset, and that a handler at work keeps its connection.
 */
module Handling {
  import opened Options
  import opened Reals
  import opened ResponseInvariant
  import opened ResponseQueue
  import opened ResponseRuns

  // ------------------------------------------------------------------------------------- one look

  /** The same responses, of which some clocks started now. */
  ghost predicate Timed(p: seq<Pending>, q: seq<Pending>, now: real) {
    && |q| == |p|
    && forall i | 0 <= i < |p| ::
         && q[i] == p[i].(readyAt := q[i].readyAt)
         && (p[i].readyAt.Some? ==> q[i].readyAt == p[i].readyAt)
         && (p[i].readyAt.None? && q[i].readyAt.Some? ==> q[i].readyAt.value == now)
  }

  lemma TimedTwice(p: seq<Pending>, q: seq<Pending>, r: seq<Pending>, now: real)
    requires Timed(p, q, now) && Timed(q, r, now)
    ensures Timed(p, r, now)
  {
  }

  lemma ClockedIsTimed(p: seq<Pending>, now: real)
    ensures Timed(p, Clocked(p, now), now)
  {
    forall i | 0 <= i < |p| { ClockedAt(p, now, i); }
  }

  /** A handler is at work on the oldest response, or its answer waits to be sent. */
  predicate HeadLives(p: seq<Pending>) {
    p != [] && (p[0].ready || p[0].complete)
  }

  /** Starts clocks, and lets go of the connection when nothing is left, or, in shutdown, nothing to wait for. */
  ghost predicate OneLook(s: State, c: Socket, after: State)
    requires c in s.connections
  {
    var p, stays := s.connections[c].pending, c in after.connections;
    && (stays <==> p != [] && (s.shutdownAt.Some? ==> HeadLives(p)))
    && (stays ==> Timed(p, after.connections[c].pending, s.now))
    && after.connections - {c} == s.connections - {c}
    && after.lost == s.lost + (if stays || p == [] then {} else Requests(p))
    && after.ended == s.ended + (if stays || s.shutdownAt.None? then {} else {c})
    && after.dropped == s.dropped + (if stays || p == [] then {} else {c})
    && after.now == s.now && after.shutdownAt == s.shutdownAt && after.resets == s.resets
    && after.followed == s.followed && after.settled == s.settled && after.sockets == s.sockets
    && after.checks == s.checks
  }

  lemma LookDoes(limits: Limits, s: State, c: Socket)
    requires c in s.connections
    ensures OneLook(s, c, Refresh(limits, s, c))
  {
    ClockedIsTimed(s.connections[c].pending, s.now);
    ClockedKeeps(s.connections[c].pending, s.now);
  }

  // ------------------------------------------------------------------------------- looks at them all

  ghost predicate AllArrivedButLast(s: State) {
    forall c | c in s.connections :: ArrivedButLast(s.connections[c].pending)
  }

  ghost function LookedAt(limits: Limits, s: State, c: Socket): State {
    if c in s.connections then Refresh(limits, s, c) else s
  }

  /** What looks at connections in turn make of one of them. */
  lemma {:induction false} LooksDo(limits: Limits, s: State, order: seq<Socket>, c: Socket)
    requires c in s.connections && s.shutdownAt.Some?
    ensures var p, after := s.connections[c].pending, RefreshAll(limits, s, order);
            && (c in after.connections <==> c !in order || HeadLives(p))
            && (c in after.connections ==> Timed(p, after.connections[c].pending, s.now))
    decreases |order|
  {
    if order != [] {
      var next := LookedAt(limits, s, order[0]);
      if order[0] in s.connections {
        LookDoes(limits, s, order[0]);
      }
      if c in next.connections {
        LooksDo(limits, next, order[1..], c);
        TimedAlong(limits, s, order[0], c, RefreshAll(limits, s, order));
      } else {
        LooksBringNone(limits, next, order[1..], c);
      }
    }
  }

  /** A connection that stays through one look, and is timed after it, is timed from before it. */
  lemma TimedAlong(limits: Limits, s: State, d: Socket, c: Socket, after: State)
    requires c in s.connections && c in LookedAt(limits, s, d).connections
    ensures Timed(s.connections[c].pending, LookedAt(limits, s, d).connections[c].pending, s.now)
    ensures c in after.connections
            && Timed(LookedAt(limits, s, d).connections[c].pending, after.connections[c].pending, s.now) ==>
              Timed(s.connections[c].pending, after.connections[c].pending, s.now)
  {
    if d == c {
      LookDoes(limits, s, c);
    } else if d in s.connections {
      LookDoes(limits, s, d);
      assert c in s.connections - {d};
    }
  }

  lemma {:induction false} LooksBringNone(limits: Limits, s: State, order: seq<Socket>, c: Socket)
    requires c !in s.connections
    ensures c !in RefreshAll(limits, s, order).connections
    decreases |order|
  {
    if order != [] {
      if order[0] in s.connections {
        LookDoes(limits, s, order[0]);
      }
      LooksBringNone(limits, LookedAt(limits, s, order[0]), order[1..], c);
    }
  }

  // ------------------------------------------------------------------------------ one queue, one event

  /** The queue with the answer of one request given, or with that request arrived as a whole. */
  function Marked(p: seq<Pending>, r: Request, answered: bool): (q: seq<Pending>)
    ensures |q| == |p|
    ensures forall i | 0 <= i < |p| ::
              q[i] == if p[i].request != r then p[i]
                      else if answered then p[i].(ready := true) else p[i].(complete := true)
  {
    seq(|p|, i requires 0 <= i < |p| =>
      if p[i].request != r then p[i] else if answered then p[i].(ready := true) else p[i].(complete := true))
  }

  lemma MarkedIs(p: seq<Pending>, r: Request, answered: bool, i: nat)
    requires Distinct(p) && i == IndexOf(p, r)
    ensures i == |p| ==> Marked(p, r, answered) == p
    ensures i < |p| ==>
              Marked(p, r, answered) == p[i := if answered then p[i].(ready := true) else p[i].(complete := true)]
  {
  }

  /** The queue without one request, which is in it. */
  ghost predicate Left(p: seq<Pending>, r: Request, rest: seq<Pending>) {
    exists k :: 0 <= k < |p| && p[k].request == r && rest == p[..k] + p[k + 1..]
  }

  /** What an event makes of the queue of a connection that stays. */
  ghost predicate Evolves(p: seq<Pending>, e: Event, c: Socket, now: real, q: seq<Pending>) {
    match e
    case Requested(d, r, complete) => q == if d == c then p + [Pending(r, false, None, complete)] else p
    case Answered(d, r) => if d == c then Timed(Marked(p, r, true), q, now) else q == p
    case Arrived(d, r) => q == if d == c then Marked(p, r, false) else p
    case Sent(d, r) =>
      if d == c && r in Requests(p) then exists rest :: Left(p, r, rest) && Timed(rest, q, now) else q == p
    case Parsed(_) => Timed(p, q, now)
    case ShutDown(_) => Timed(p, q, now)
    case _ => q == p
  }

  /** An event marks, adds or removes the one request it is about, and starts clocks; the rest of a queue stays. */
  lemma QueueEvolves(limits: Limits, s: State, e: Event, c: Socket)
    requires Inv(limits, s) && Possible(s, e) && c in s.connections && c in Next(limits, s, e).connections
    ensures Evolves(s.connections[c].pending, e, c, s.now, Next(limits, s, e).connections[c].pending)
  {
    assert Tracked(limits, s, c);
    match e
    case Answered(d, r) => AnswerMarks(limits, s, d, r, c);
    case Arrived(d, r) =>
      if d == c {
        MarkedIs(s.connections[c].pending, r, false, IndexOf(s.connections[c].pending, r));
      }
    case Sent(d, r) => SentLeaves(limits, s, d, r, c);
    case Parsed(d) =>
      if d in s.connections {
        LookDoes(limits, s.(checks := s.checks - {d}), d);
        assert c != d ==> c in s.connections - {d};
      }
    case ShutDown(order) => LooksDo(limits, BeginShutdown(s), order, c);
    case _ =>
  }

  lemma AnswerMarks(limits: Limits, s: State, d: Socket, r: Request, c: Socket)
    requires Inv(limits, s) && c in s.connections && c in Ready(limits, s, d, r).connections
    ensures Evolves(s.connections[c].pending, Answered(d, r), c, s.now, Ready(limits, s, d, r).connections[c].pending)
  {
    if d in s.connections {
      assert Tracked(limits, s, d);
      var queue := s.connections[d].pending;
      var i := IndexOf(queue, r);
      MarkedIs(queue, r, true, i);
      if i == |queue| {
        LookDoes(limits, s, d);
      } else if !queue[i].ready {
        LookDoes(limits, Queued(s, d, Marked(queue, r, true)), d);
      } else {
        assert Marked(queue, r, true) == queue;
      }
      assert c != d ==> c in s.connections - {d};
    }
  }

  lemma SentLeaves(limits: Limits, s: State, d: Socket, r: Request, c: Socket)
    requires Inv(limits, s) && c in s.connections && c in Settle(limits, s, d, r).connections
    ensures Evolves(s.connections[c].pending, Sent(d, r), c, s.now, Settle(limits, s, d, r).connections[c].pending)
  {
    if d in s.connections {
      var queue := s.connections[d].pending;
      var i := IndexOf(queue, r);
      if i < |queue| {
        LookDoes(limits, Queued(s, d, WithoutAt(queue, i)).(settled := s.settled + {r}), d);
        assert Left(queue, r, WithoutAt(queue, i));
      } else {
        assert r !in Requests(queue);
      }
      assert c != d ==> c in s.connections - {d};
    }
  }

  // ------------------------------------------------------------------------- which connections stay

  /** Whether a tracked connection is still tracked after an event. */
  ghost predicate Stays(limits: Limits, s: State, e: Event, c: Socket)
    requires c in s.connections
  {
    var p, closing := s.connections[c].pending, s.shutdownAt.Some?;
    match e
    case Requested(d, _, _) => d == c ==> |p| < limits.maxPipelined
    case TimedOut(d) => d != c
    case Sent(d, r) => d == c && r in Requests(p) ==> exists rest :: Left(p, r, rest) && Awaited(rest, closing)
    case Answered(d, r) => d == c ==> Awaited(Marked(p, r, true), closing)
    case Parsed(d) => d == c ==> Awaited(p, closing)
    case ShutDown(_) => Awaited(p, true)
    case _ => true
  }

  /** Something is left to send, and in shutdown not only a request that is still arriving. */
  predicate Awaited(p: seq<Pending>, closing: bool) {
    p != [] && (closing ==> HeadLives(p))
  }

  lemma LeftIsUnique(p: seq<Pending>, r: Request, a: seq<Pending>, b: seq<Pending>)
    requires Distinct(p) && Left(p, r, a) && Left(p, r, b)
    ensures a == b
  {
  }

  lemma LeftAwaited(p: seq<Pending>, r: Request, i: nat, closing: bool)
    requires Distinct(p) && i < |p| && p[i].request == r
    ensures r in Requests(p)
    ensures (exists rest :: Left(p, r, rest) && Awaited(rest, closing)) <==> Awaited(WithoutAt(p, i), closing)
  {
    var rest := WithoutAt(p, i);
    assert Left(p, r, rest) && p[i] in p;
    forall other | Left(p, r, other) ensures other == rest { LeftIsUnique(p, r, other, rest); }
  }

  lemma ReadyIsAwaited(p: seq<Pending>, i: nat)
    requires i < |p| && p[i].ready && ArrivedButLast(p)
    ensures HeadLives(p)
  {
  }

  lemma AnsweredStays(limits: Limits, s: State, d: Socket, r: Request)
    requires Inv(limits, s) && d in s.connections
    ensures d in Ready(limits, s, d, r).connections <==> Stays(limits, s, Answered(d, r), d)
    ensures Ready(limits, s, d, r).connections - {d} == s.connections - {d}
  {
    assert Tracked(limits, s, d);
    var queue := s.connections[d].pending;
    var i := IndexOf(queue, r);
    MarkedIs(queue, r, true, i);
    if i == |queue| {
      LookDoes(limits, s, d);
    } else if !queue[i].ready {
      LookDoes(limits, Queued(s, d, Marked(queue, r, true)), d);
    } else {
      ReadyIsAwaited(queue, i);
      assert Marked(queue, r, true) == queue;
    }
  }

  lemma SettledStays(limits: Limits, s: State, d: Socket, r: Request, i: nat)
    requires d in s.connections && i == IndexOf(s.connections[d].pending, r) < |s.connections[d].pending|
    ensures d in Settle(limits, s, d, r).connections
       <==> Awaited(WithoutAt(s.connections[d].pending, i), s.shutdownAt.Some?)
    ensures Settle(limits, s, d, r).connections - {d} == s.connections - {d}
  {
    var rest := WithoutAt(s.connections[d].pending, i);
    LookDoes(limits, Queued(s, d, rest).(settled := s.settled + {r}), d);
  }

  lemma SentStays(limits: Limits, s: State, d: Socket, r: Request)
    requires d in s.connections && Distinct(s.connections[d].pending)
    ensures d in Settle(limits, s, d, r).connections <==> Stays(limits, s, Sent(d, r), d)
    ensures Settle(limits, s, d, r).connections - {d} == s.connections - {d}
  {
    var queue := s.connections[d].pending;
    var i := IndexOf(queue, r);
    if i < |queue| {
      SettledStays(limits, s, d, r, i);
      LeftAwaited(queue, r, i, s.shutdownAt.Some?);
    } else {
      assert r !in Requests(queue);
    }
  }

  /** Exactly these connections stay. */
  lemma ConnectionStays(limits: Limits, s: State, e: Event, c: Socket)
    requires Inv(limits, s) && Possible(s, e) && c in s.connections
    ensures c in Next(limits, s, e).connections <==> Stays(limits, s, e, c)
  {
    assert Tracked(limits, s, c);
    match e
    case Answered(d, r) =>
      if d in s.connections {
        AnsweredStays(limits, s, d, r);
        assert c != d ==> c in s.connections - {d};
      }
    case Sent(d, r) =>
      if d in s.connections {
        assert Tracked(limits, s, d);
        SentStays(limits, s, d, r);
        assert c != d ==> c in s.connections - {d};
      }
    case Parsed(d) =>
      if d in s.connections {
        LookDoes(limits, s.(checks := s.checks - {d}), d);
        assert c != d ==> c in s.connections - {d};
      }
    case ShutDown(order) => LooksDo(limits, BeginShutdown(s), order, c);
    case _ =>
  }

  /** And one more is tracked exactly when a request comes on it that is to be answered. */
  lemma ConnectionJoins(limits: Limits, s: State, e: Event, c: Socket)
    requires Inv(limits, s) && Possible(s, e) && c !in s.connections
    ensures c in Next(limits, s, e).connections <==> e.Requested? && e.socket == c && c !in s.dropped
    ensures c in Next(limits, s, e).connections ==>
              Next(limits, s, e).connections[c].pending == [Pending(e.request, false, None, e.complete)]
  {
    match e
    case Answered(d, r) =>
      if d in s.connections {
        AnsweredStays(limits, s, d, r);
        assert c in s.connections - {d} <==> c in s.connections;
      }
    case Sent(d, r) =>
      if d in s.connections {
        assert Tracked(limits, s, d);
        SentStays(limits, s, d, r);
        assert c in s.connections - {d} <==> c in s.connections;
      }
    case Parsed(d) =>
      if d in s.connections {
        LookDoes(limits, s.(checks := s.checks - {d}), d);
      }
    case ShutDown(order) => LooksBringNone(limits, BeginShutdown(s), order, c);
    case _ =>
  }

  /**
   * While a handler is at work on a connection's oldest request, the connection stays through every event, the
   * beginning of a shutdown too, with that request first: until it is sent, or one request too many comes.
   */
  lemma HandlerKeepsConnection(limits: Limits, s: State, e: Event, c: Socket)
    requires Inv(limits, s) && Possible(s, e) && c in s.connections && s.connections[c].pending != []
    requires var head := s.connections[c].pending[0];
             && head.complete && !head.ready && e != Sent(c, head.request)
             && !(e.Requested? && e.socket == c && |s.connections[c].pending| >= limits.maxPipelined)
    ensures var head, after := s.connections[c].pending[0], Next(limits, s, e).connections;
            && c in after && after[c].pending != []
            && after[c].pending[0].request == head.request && after[c].pending[0].complete
            && (after[c].pending[0].ready <==> e == Answered(c, head.request))
  {
    assert Tracked(limits, s, c);
    var p := s.connections[c].pending;
    assert p[0].readyAt.Some? ==> ReadyThrough(p, 0);
    HeadStays(limits, s, e, c);
    ConnectionStays(limits, s, e, c);
    QueueEvolves(limits, s, e, c);
    if e.Sent? && e.socket == c && e.request in Requests(p) {
      forall rest | Left(p, e.request, rest) ensures rest != [] && rest[0] == p[0] {}
    }
  }

  lemma HeadStaysFirst(p: seq<Pending>, r: Request, closing: bool)
    requires p != [] && p[0].complete && p[0].request != r && r in Requests(p)
    ensures exists rest :: Left(p, r, rest) && Awaited(rest, closing)
  {
    var i :| 0 <= i < |p| && p[i].request == r;
    var rest := p[..i] + p[i + 1..];
    assert Left(p, r, rest) && rest[0] == p[0];
  }

  lemma HeadStays(limits: Limits, s: State, e: Event, c: Socket)
    requires Inv(limits, s) && Possible(s, e) && c in s.connections && s.connections[c].pending != []
    requires var head := s.connections[c].pending[0];
             && head.complete && !head.ready && e != Sent(c, head.request)
             && !(e.Requested? && e.socket == c && |s.connections[c].pending| >= limits.maxPipelined)
    ensures Stays(limits, s, e, c)
  {
    assert Tracked(limits, s, c);
    var p := s.connections[c].pending;
    assert p[0].readyAt.Some? ==> ReadyThrough(p, 0);
    match e
    case Sent(d, r) =>
      if d == c && r in Requests(p) {
        HeadStaysFirst(p, r, s.shutdownAt.Some?);
      }
    case _ =>
  }

  // ----------------------------------------------------------------------------- requests and resets

  /** A request that is to be answered: its connection was not reset, and has room for it. */
  ghost predicate Joins(limits: Limits, s: State, e: Event) {
    e.Requested? && e.socket !in s.dropped && |QueueOf(s, e.socket)| < limits.maxPipelined
  }

  /** One request too many for its connection. */
  ghost predicate Overflows(limits: Limits, s: State, e: Event) {
    e.Requested? && e.socket !in s.dropped && |QueueOf(s, e.socket)| >= limits.maxPipelined
  }

  ghost predicate Leaves(s: State, e: Event) {
    e.Sent? && e.request in Requests(QueueOf(s, e.socket))
  }

  /** What an event changes beside the connections. */
  ghost predicate Noted(limits: Limits, s: State, e: Event, after: State) {
    && after.followed == s.followed + (if Joins(limits, s, e) then {e.request} else {})
    && after.settled == s.settled + (if Leaves(s, e) then {e.request} else {})
    && after.resets == s.resets + (if Overflows(limits, s, e) then [(Backlog, |QueueOf(s, e.socket)|)]
                                   else if e.TimedOut? then [(WriteTimeout, |QueueOf(s, e.socket)|)] else [])
    && after.now == (if e.Passed? then e.now else s.now)
    && after.shutdownAt == (if e.ShutDown? then Some(s.now) else s.shutdownAt)
    && after.sockets == (if e.Connected? then s.sockets + {e.socket}
                         else if e.Disconnected? then s.sockets - {e.socket} else s.sockets)
    && after.checks == (if Joins(limits, s, e) && s.shutdownAt.Some? then s.checks + {e.socket}
                        else if e.Parsed? then s.checks - {e.socket} else s.checks)
  }

  lemma {:induction false} LooksNote(limits: Limits, s: State, order: seq<Socket>)
    ensures var after := RefreshAll(limits, s, order);
            && after.followed == s.followed && after.settled == s.settled && after.resets == s.resets
            && after.now == s.now && after.shutdownAt == s.shutdownAt && after.sockets == s.sockets
            && after.checks == s.checks
    decreases |order|
  {
    if order != [] {
      if order[0] in s.connections {
        LookDoes(limits, s, order[0]);
      }
      LooksNote(limits, LookedAt(limits, s, order[0]), order[1..]);
    }
  }

  lemma AnswerNotes(limits: Limits, s: State, d: Socket, r: Request)
    ensures Noted(limits, s, Answered(d, r), Ready(limits, s, d, r))
  {
    if d in s.connections {
      var queue := s.connections[d].pending;
      var i := IndexOf(queue, r);
      if i == |queue| {
        LookDoes(limits, s, d);
      } else if !queue[i].ready {
        LookDoes(limits, Queued(s, d, queue[i := queue[i].(ready := true)]), d);
      }
    }
  }

  lemma SendingNotes(limits: Limits, s: State, d: Socket, r: Request)
    ensures Noted(limits, s, Sent(d, r), Settle(limits, s, d, r))
  {
    if d in s.connections {
      var queue := s.connections[d].pending;
      var i := IndexOf(queue, r);
      if i < |queue| {
        assert queue[i] in queue;
        LookDoes(limits, Queued(s, d, WithoutAt(queue, i)).(settled := s.settled + {r}), d);
      } else {
        assert r !in Requests(queue);
      }
    }
  }

  lemma RequestNotes(limits: Limits, s: State, d: Socket, r: Request, complete: bool)
    requires limits.maxPipelined >= 1
    ensures Noted(limits, s, Requested(d, r, complete), Follow(limits, s, d, r, complete))
  {
  }

  lemma ParsingNotes(limits: Limits, s: State, d: Socket)
    ensures Noted(limits, s, Parsed(d), Check(limits, s, d))
  {
    if d in s.connections {
      LookDoes(limits, s.(checks := s.checks - {d}), d);
    }
  }

  lemma EventNotes(limits: Limits, s: State, e: Event)
    requires Inv(limits, s) && Possible(s, e)
    ensures Noted(limits, s, e, Next(limits, s, e))
  {
    match e
    case Requested(d, r, complete) => RequestNotes(limits, s, d, r, complete);
    case Answered(d, r) => AnswerNotes(limits, s, d, r);
    case Sent(d, r) => SendingNotes(limits, s, d, r);
    case Parsed(d) => ParsingNotes(limits, s, d);
    case ShutDown(order) => LooksNote(limits, BeginShutdown(s), order);
    case _ =>
  }

  /** Why a request is lost: its connection was reset, or it was still arriving during a shutdown. */
  ghost predicate LossAllowed(limits: Limits, s: State, e: Event, c: Socket, r: Request) {
    && c in s.connections && r in Requests(s.connections[c].pending)
    && (|| e == TimedOut(c)
        || (Overflows(limits, s, e) && e.socket == c)
        || ((s.shutdownAt.Some? || e.ShutDown?) && StillArriving(s.connections[c].pending, r)))
  }

  predicate StillArriving(p: seq<Pending>, r: Request) {
    exists i :: 0 <= i < |p| && p[i].request == r && !p[i].complete && !p[i].ready
  }

  /** An event loses only requests whose connection it leaves. */
  lemma LostWithConnection(limits: Limits, s: State, e: Event, r: Request) returns (c: Socket)
    requires Inv(limits, s) && Possible(s, e) && r in Next(limits, s, e).lost && r !in s.lost
    ensures c in s.connections && r in Requests(s.connections[c].pending) && c !in Next(limits, s, e).connections
    ensures !(e == Sent(c, r))
  {
    var after := Next(limits, s, e);
    NextKeeps(limits, s, e);
    EventNotes(limits, s, e);
    assert r in after.followed && r !in after.settled && r !in Waiting(after);
    if r !in s.followed {
      ConnectionStaysOrJoins(limits, s, e);
      assert false;
    }
    assert r in Waiting(s);
    c :| c in s.connections && r in Requests(s.connections[c].pending);
    if c in after.connections {
      QueueEvolves(limits, s, e, c);
      StillWaits(s.connections[c].pending, e, c, s.now, after.connections[c].pending, r);
      assert false;
    }
  }

  /** A request that joins waits. */
  lemma ConnectionStaysOrJoins(limits: Limits, s: State, e: Event)
    requires Inv(limits, s) && Possible(s, e)
    ensures Joins(limits, s, e) ==> e.request in Waiting(Next(limits, s, e))
  {
    if Joins(limits, s, e) {
      var after := Next(limits, s, e);
      var queue := after.connections[e.socket].pending;
      assert queue[|queue| - 1] in queue && e.request in Requests(queue);
    }
  }

  lemma StillWaits(p: seq<Pending>, e: Event, c: Socket, now: real, q: seq<Pending>, r: Request)
    requires Evolves(p, e, c, now, q) && r in Requests(p) && e != Sent(c, r)
    ensures r in Requests(q)
  {
    var i :| 0 <= i < |p| && p[i].request == r;
    if e.Sent? && e.socket == c && e.request in Requests(p) {
      var rest :| Left(p, e.request, rest) && Timed(rest, q, now);
      var k :| 0 <= k < |p| && p[k].request == e.request && rest == p[..k] + p[k + 1..];
      assert rest[if i < k then i else i - 1] == p[i];
      assert q[if i < k then i else i - 1] in q;
    } else {
      assert q[i] in q;
    }
  }

  /** Every other request is answered: no event loses one unless a reset is due, or it had not arrived at shutdown. */
  lemma LossIsAllowed(limits: Limits, s: State, e: Event, r: Request) returns (c: Socket)
    requires Inv(limits, s) && Possible(s, e) && r in Next(limits, s, e).lost && r !in s.lost
    ensures LossAllowed(limits, s, e, c, r)
  {
    c := LostWithConnection(limits, s, e, r);
    assert Tracked(limits, s, c);
    ConnectionStays(limits, s, e, c);
    var p := s.connections[c].pending;
    var i :| 0 <= i < |p| && p[i].request == r;
    match e
    case Sent(d, other) => SendingLosesArriving(p, other, i, s.shutdownAt.Some?);
    case Answered(d, other) => OnlyArrivingIsNotAwaited(Marked(p, other, true), i);
    case Parsed(_) => OnlyArrivingIsNotAwaited(p, i);
    case ShutDown(_) => OnlyArrivingIsNotAwaited(p, i);
    case _ =>
  }

  lemma SendingLosesArriving(p: seq<Pending>, other: Request, i: nat, closing: bool)
    requires ArrivedButLast(p) && i < |p| && p[i].request != other && other in Requests(p)
    requires !exists rest :: Left(p, other, rest) && Awaited(rest, closing)
    ensures closing && !p[i].complete && !p[i].ready
  {
    var k :| 0 <= k < |p| && p[k].request == other;
    var rest := p[..k] + p[k + 1..];
    assert Left(p, other, rest) && rest[if i < k then i else i - 1] == p[i];
    OnlyArrivingIsNotAwaited(rest, if i < k then i else i - 1);
  }

  /** When a queue has something and nothing to wait for, it is one request that is still arriving. */
  lemma OnlyArrivingIsNotAwaited(p: seq<Pending>, i: nat)
    requires ArrivedButLast(p) && i < |p|
    ensures !HeadLives(p) ==> i == 0 && |p| == 1 && !p[0].complete && !p[0].ready
  {
  }

  /** In a run, a request is lost only by an event that may lose it. */
  lemma {:induction false} LostOnlyWhenAllowed(limits: Limits, states: seq<State>, events: seq<Event>, i: nat,
                                               r: Request)
    requires IsRun(limits, states, events) && Inv(limits, states[0]) && i < |states|
    requires r in states[i].lost && r !in states[0].lost
    ensures Inv(limits, states[i])
    ensures exists j, c :: 0 <= j < i && LossAllowed(limits, states[j], events[j], c, r)
  {
    RunKeepsInv(limits, states, events, i);
    RunKeepsInv(limits, states, events, i - 1);
    assert states[i - 1 + 1] == Next(limits, states[i - 1], events[i - 1]);
    if r in states[i - 1].lost {
      LostOnlyWhenAllowed(limits, states, events, i - 1, r);
    } else {
      var c := LossIsAllowed(limits, states[i - 1], events[i - 1], r);
    }
  }

  lemma {:induction false} RunKeepsInv(limits: Limits, states: seq<State>, events: seq<Event>, i: nat)
    requires IsRun(limits, states, events) && Inv(limits, states[0]) && i < |states|
    ensures Inv(limits, states[i])
  {
    if i > 0 {
      RunKeepsInv(limits, states, events, i - 1);
      assert states[i - 1 + 1] == Next(limits, states[i - 1], events[i - 1]);
      NextKeeps(limits, states[i - 1], events[i - 1]);
    }
  }

  // -------------------------------------------------------------------------------- when a reset is due

  /** Since its oldest response became ready, at `since`, a connection has had its time. */
  predicate TimeIsUp(limits: Limits, shutdownAt: Option<real>, since: real, now: real) {
    || since + limits.timeoutMs <= now
    || (shutdownAt.Some? && since + SHUTDOWN_WRITE_MS <= now && shutdownAt.value + SHUTDOWN_WRITE_MS <= now)
  }

  /**
   * A connection may be reset for a slow client exactly when its oldest response has been ready, and not taken,
   * for the timeout, or in shutdown for `SHUTDOWN_WRITE_MS`; and the clock does not pass that moment before.
   */
  lemma ResetWhenDue(limits: Limits, s: State, c: Socket)
    requires Inv(limits, s) && c in s.connections
    ensures s.connections[c].pending != []
    ensures var since := s.connections[c].pending[0].readyAt;
            && (Possible(s, TimedOut(c)) <==> since.Some? && TimeIsUp(limits, s.shutdownAt, since.value, s.now))
            && (forall t | since.Some? && t > s.now && Possible(s, Passed(t)) ::
                  !TimeIsUp(limits, s.shutdownAt, since.value, s.now)
                  && forall u | u < t :: !TimeIsUp(limits, s.shutdownAt, since.value, u))
  {
    assert Tracked(limits, s, c);
  }

  // -------------------------------------------------------------------------- which connections are closed

  /** A connection the event lets go of. */
  ghost predicate LetGo(limits: Limits, s: State, e: Event, c: Socket) {
    c in s.connections && c !in Next(limits, s, e).connections
  }

  /** The last response on a connection is sent. */
  predicate LastSent(s: State, e: Event, c: Socket) {
    e.Sent? && e.socket == c && c in s.connections && |s.connections[c].pending| == 1
    && s.connections[c].pending[0].request == e.request
  }

  /** What an event closes, and on which connections nothing more is answered. */
  ghost predicate Closes(limits: Limits, s: State, e: Event, c: Socket) {
    var after := Next(limits, s, e);
    && (c in after.dropped <==> c in s.dropped || (LetGo(limits, s, e, c) && !LastSent(s, e, c)))
    && (c in after.ended
        <==> c in s.ended
             || (LetGo(limits, s, e, c) && (s.shutdownAt.Some? || !LastSent(s, e, c)))
             // Beginning a shutdown closes the idle ones.
             || (e.ShutDown? && c in s.sockets && c !in s.connections))
  }

  lemma {:induction false} LooksClose(limits: Limits, s: State, order: seq<Socket>, c: Socket)
    requires s.shutdownAt.Some? && forall d | d in s.connections :: s.connections[d].pending != []
    ensures var after := RefreshAll(limits, s, order);
            && (c in after.ended <==> c in s.ended || (c in s.connections && c !in after.connections))
            && (c in after.dropped <==> c in s.dropped || (c in s.connections && c !in after.connections))
    decreases |order|
  {
    if order != [] {
      var next := LookedAt(limits, s, order[0]);
      if order[0] in s.connections {
        LookDoes(limits, s, order[0]);
        forall d | d in next.connections ensures d in s.connections && next.connections[d].pending != [] {
          assert d != order[0] ==> d in s.connections - {order[0]};
        }
        assert c != order[0] ==> (c in s.connections <==> c in s.connections - {order[0]});
      }
      LooksClose(limits, next, order[1..], c);
      if c !in next.connections {
        LooksBringNone(limits, next, order[1..], c);
      }
    }
  }

  lemma AnswerCloses(limits: Limits, s: State, d: Socket, r: Request, c: Socket)
    requires Inv(limits, s)
    ensures Closes(limits, s, Answered(d, r), c)
  {
    if d in s.connections {
      assert Tracked(limits, s, d);
      var queue := s.connections[d].pending;
      var i := IndexOf(queue, r);
      var marked := if i < |queue| then Queued(s, d, queue[i := queue[i].(ready := true)]) else s;
      LookDoes(limits, marked, d);
      assert c != d ==> (c in s.connections <==> c in s.connections - {d});
    }
  }

  lemma SendingCloses(limits: Limits, s: State, d: Socket, r: Request, c: Socket)
    requires Inv(limits, s)
    ensures Closes(limits, s, Sent(d, r), c)
  {
    if d in s.connections {
      assert Tracked(limits, s, d);
      var queue := s.connections[d].pending;
      var i := IndexOf(queue, r);
      if i < |queue| {
        LookDoes(limits, Queued(s, d, WithoutAt(queue, i)).(settled := s.settled + {r}), d);
      }
      assert c != d ==> (c in s.connections <==> c in s.connections - {d});
    }
  }

  /**
   * A connection is closed, and what comes on it later ignored, exactly when it is let go of; only one whose last
   * response was sent is not ignored, and, before a shutdown, stays open.
   */
  lemma ClosesWhenLetGo(limits: Limits, s: State, e: Event, c: Socket)
    requires Inv(limits, s) && Possible(s, e)
    ensures Closes(limits, s, e, c)
  {
    match e
    case Answered(d, r) => AnswerCloses(limits, s, d, r, c);
    case Sent(d, r) => SendingCloses(limits, s, d, r, c);
    case Parsed(d) =>
      if d in s.connections {
        assert Tracked(limits, s, d);
        LookDoes(limits, s.(checks := s.checks - {d}), d);
        assert c != d ==> (c in s.connections <==> c in s.connections - {d});
      }
    case ShutDown(order) =>
      forall d | d in s.connections ensures s.connections[d].pending != [] { assert Tracked(limits, s, d); }
      LooksClose(limits, BeginShutdown(s), order, c);
    case _ =>
  }
}
