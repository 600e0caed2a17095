/**
 * Discovery gets on: what a run's pages vouch for is what its routes are walked to, a route whose end a page
 * vouched for is finished, and once all routes are, the covered bound is the last of their ends. All of it is said
 * of the stored bounds and checkpoints alone.
 */
module Progress {
  import opened Coverage
  import opened Effects
  import opened Index
  import opened Options
  import opened Runs
  import opened Settlements

  // ------------------------------------------------------------------------------ one route in a run

  /** A page of the route that vouches for something from the route's start on. */
  predicate Vouching(e: Event, key: RouteKey, route: Route) {
    e.Record? && e.key == key && e.scanned.Some? && e.scanned.value >= route.from - 1
  }

  /** How far into the route it vouches. */
  function Through(e: Event, key: RouteKey, route: Route): int
    requires Vouching(e, key, route)
  {
    if route.to.Some? && route.to.value < e.scanned.value then route.to.value else e.scanned.value
  }

  /** Nothing plans the routes anew or starts this one again. */
  ghost predicate WalksOn(events: seq<Event>, key: RouteKey) {
    forall i | 0 <= i < |events| :: !events[i].Sync? && !(events[i].Restart? && events[i].key == key)
  }

  /** `now` is `was`, walked exactly as far as it was or as the farthest page vouches for. */
  ghost predicate Walked(was: Route, events: seq<Event>, key: RouteKey, now: Route) {
    && now == was.(scanned := now.scanned)
    && (was.scanned.Some? ==> now.scanned.Some? && now.scanned.value >= was.scanned.value)
    && (forall i | 0 <= i < |events| && Vouching(events[i], key, was) ::
          now.scanned.Some? && now.scanned.value >= Through(events[i], key, was))
    && (now.scanned == was.scanned || WalkedByPage(was, events, key, now))
  }

  ghost predicate WalkedByPage(was: Route, events: seq<Event>, key: RouteKey, now: Route) {
    exists i :: 0 <= i < |events| && Vouching(events[i], key, was) && now.scanned == Some(Through(events[i], key, was))
  }

  lemma StepWalks(db: Db, s: State, e: Event, key: RouteKey)
    requires s.db == db && key in db.routes && CheckpointInside(db.routes[key])
    requires !e.Sync? && !(e.Restart? && e.key == key)
    ensures key in Next(s, e).db.routes && Walked(db.routes[key], [e], key, Next(s, e).db.routes[key])
    ensures CheckpointInside(Next(s, e).db.routes[key])
  {
    var was, one := db.routes[key], [e];
    match e
    case Record(k, page, scanned) =>
      if k in db.routes && k == key {
        PageMovesCheckpoint(db, k, page, scanned);
        assert Vouching(one[0], key, was) ==> ReachedBy(was, scanned.value, Next(s, e).db.routes[key]);
      }
    case Restart(k, _) => RestartForgetsCheckpoint(db, k);
    case _ => OthersMoveNoRoute(s, e);
  }

  lemma OthersMoveNoRoute(s: State, e: Event)
    requires !e.Sync? && !e.Record? && !e.Restart?
    ensures Next(s, e).db.routes == s.db.routes
  {
  }

  lemma WalkedOnward(was: Route, mid: Route, now: Route, before: seq<Event>, e: Event, key: RouteKey)
    requires Walked(was, before, key, mid) && Walked(mid, [e], key, now)
    ensures Walked(was, before + [e], key, now)
  {
    var events, one := before + [e], [e];
    assert events[|before|] == e && one[0] == e;
    forall i | 0 <= i < |events| && Vouching(events[i], key, was)
      ensures now.scanned.Some? && now.scanned.value >= Through(events[i], key, was)
    {
      if i < |before| {
        assert events[i] == before[i];
      } else {
        assert Vouching(one[0], key, mid);
      }
    }
    if now.scanned != mid.scanned {
      assert now.scanned == Some(Through(events[|before|], key, was));
    } else if mid.scanned != was.scanned {
      var i :| 0 <= i < |before| && Vouching(before[i], key, was) && mid.scanned == Some(Through(before[i], key, was));
      assert events[i] == before[i];
    }
  }

  /** Through any run that walks on, a route's checkpoint is the farthest of those its pages vouched for. */
  lemma {:induction false} CheckpointIsFarthest(s: State, events: seq<Event>, key: RouteKey)
    requires key in s.db.routes && CheckpointInside(s.db.routes[key]) && WalksOn(events, key)
    ensures var after := Run(s, events).db.routes;
            key in after && Walked(s.db.routes[key], events, key, after[key]) && CheckpointInside(after[key])
    decreases |events|
  {
    if events != [] {
      var n := |events| - 1;
      var before := Run(s, events[..n]);
      CheckpointIsFarthest(s, events[..n], key);
      StepWalks(before.db, before, events[n], key);
      WalkedOnward(s.db.routes[key], before.db.routes[key], Run(s, events).db.routes[key], events[..n], events[n], key);
      assert events[..n] + [events[n]] == events;
    }
  }

  /** So a route is walked to its end exactly if it was, or some page vouched for its end. */
  lemma FinishedByPages(s: State, events: seq<Event>, key: RouteKey)
    requires key in s.db.routes && CheckpointInside(s.db.routes[key]) && WalksOn(events, key)
    requires s.db.routes[key].to.Some?
    ensures var was, after := s.db.routes[key], Run(s, events).db.routes;
            && key in after && after[key].to == was.to
            && (after[key].scanned == was.to
                <==> was.scanned == was.to || exists i :: 0 <= i < |events| && Vouching(events[i], key, was)
                                                          && events[i].scanned.value >= was.to.value)
  {
    CheckpointIsFarthest(s, events, key);
    var was, now := s.db.routes[key], Run(s, events).db.routes[key];
    WalkedToEnd(was, events, key, now);
  }

  lemma WalkedToEnd(was: Route, events: seq<Event>, key: RouteKey, now: Route)
    requires Walked(was, events, key, now) && was.to.Some? && CheckpointInside(was) && CheckpointInside(now)
    ensures now.scanned == was.to
       <==> was.scanned == was.to || exists i :: 0 <= i < |events| && Vouching(events[i], key, was)
                                                 && events[i].scanned.value >= was.to.value
  {
    if i :| 0 <= i < |events| && Vouching(events[i], key, was) && events[i].scanned.value >= was.to.value {
      assert Through(events[i], key, was) == was.to.value;
    }
    if now.scanned == was.to && was.scanned != was.to {
      var i :| 0 <= i < |events| && Vouching(events[i], key, was) && now.scanned == Some(Through(events[i], key, was));
    }
  }

  // ------------------------------------------------------------------------------- the covered bound

  /** A route that follows the head, or has not been walked to its end. */
  predicate Open(route: Route) {
    && (route.to.Some? && route.scanned.Some? ==> route.scanned.value < route.to.value)
    && (route.to.Some? && route.scanned.None? ==> route.from - 1 < route.to.value)
  }

  /** The last ledger of its own a route was walked to. */
  function LastWalked(route: Route): int {
    if route.scanned.Some? then route.scanned.value else route.from - 1
  }

  /** While a route is open the bound is the least that an open one was walked to, from the first of all ledgers on. */
  lemma BoundOfOpenRoutes(routes: seq<Route>)
    requires exists r :: r in routes && Open(r)
    ensures var through := Coverage.Through(routes, None);
            && (through.Some? ==> forall r | r in routes && Open(r) :: through.value <= LastWalked(r))
            && (through.Some? ==> exists r :: r in routes && Open(r) && through.value == LastWalked(r))
            && (through.Some? ==> exists r :: r in routes && r.from <= through.value)
            && (through.None? ==>
                  exists r :: r in routes && Open(r) && forall q | q in routes :: LastWalked(r) < q.from)
  {
    LeastOpenBounds(routes, None);
    FirstIsLeast(routes);
    forall r ensures Finished(r, None) <==> !Open(r) {}
  }

  /** Once none is, the bound is the last of their ends. */
  lemma BoundOfFinishedRoutes(routes: seq<Route>)
    requires routes != [] && forall r | r in routes :: !Open(r)
    ensures var through := Coverage.Through(routes, None);
            && (through.Some? ==> forall r | r in routes :: r.to.Some? && r.to.value <= through.value)
            && (through.Some? ==> exists r :: r in routes && r.to == through)
            && (through.None? ==> forall r, q | r in routes && q in routes :: r.to.Some? && r.to.value < q.from)
  {
    LeastOpenBounds(routes, None);
    GreatestEndBounds(routes, None);
    FirstIsLeast(routes);
    forall r ensures Finished(r, None) <==> !Open(r) {}
  }
}
