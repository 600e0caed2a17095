/**
 * How far discovery has covered the chain: the bound every route has walked to, and what it means for the
 * ledgers a route's address was active in.
 */
module Coverage {
  import opened Index
  import opened Options
  import opened Settlements

  /** A route's checkpoint, or the ledger before its first when nothing was walked. */
  function Checked(route: Route): int {
    if route.scanned.Some? then route.scanned.value else route.from - 1
  }

  /** A route's own end in a run that goes to `to`; none when it follows the head. */
  function End(route: Route, to: Option<Ledger>): Option<Ledger> {
    if route.to.None? then to
    else if to.None? then route.to
    else if route.to.value < to.value then route.to
    else to
  }

  predicate Finished(route: Route, to: Option<Ledger>) {
    End(route, to).Some? && Checked(route) >= End(route, to).value
  }

  /** The least checkpoint of the routes that are not finished. */
  function LeastOpen(routes: seq<Route>, to: Option<Ledger>): Option<int> {
    if routes == [] then None else
    var rest, last := LeastOpen(routes[..|routes| - 1], to), routes[|routes| - 1];
    if Finished(last, to) then rest
    else if rest.None? || Checked(last) < rest.value then Some(Checked(last))
    else rest
  }

  /** The greatest end of the finished routes, at least 0. */
  function GreatestEnd(routes: seq<Route>, to: Option<Ledger>): nat {
    if routes == [] then 0 else
    var rest, last := GreatestEnd(routes[..|routes| - 1], to), routes[|routes| - 1];
    if Finished(last, to) && End(last, to).value > rest then End(last, to).value else rest
  }

  function FirstLedger(routes: seq<Route>): Ledger
    requires routes != []
  {
    var last := routes[|routes| - 1].from;
    if |routes| == 1 then last else
    var rest := FirstLedger(routes[..|routes| - 1]);
    if last < rest then last else rest
  }

  /** It is the least of them. */
  lemma {:induction false} FirstIsLeast(routes: seq<Route>)
    requires routes != []
    ensures forall r | r in routes :: FirstLedger(routes) <= r.from
    ensures exists r :: r in routes && r.from == FirstLedger(routes)
    decreases |routes|
  {
    var n := |routes| - 1;
    assert routes[n] in routes && forall r | r in routes :: r in routes[..n] || r == routes[n];
    if n > 0 {
      FirstIsLeast(routes[..n]);
      var r :| r in routes[..n] && r.from == FirstLedger(routes[..n]);
      assert r in routes;
    }
  }

  /** The covered bound: the least open checkpoint, or else the greatest end; none below the first ledger. */
  function Through(routes: seq<Route>, to: Option<Ledger>): Option<int> {
    if routes == [] then None else
    var open := LeastOpen(routes, to);
    var result := if open.Some? then open.value else GreatestEnd(routes, to);
    if result < FirstLedger(routes) then None else Some(result)
  }

  /** Computes `Through` in one pass over the routes. */
  method DiscoveredThrough(routes: seq<Route>, to: Option<Ledger>) returns (covered: Option<int>)
    ensures covered == Through(routes, to)
  {
    if |routes| == 0 {
      return None;
    }
    var through: Option<int> := None;
    var closedEnd := 0;
    var first := routes[0].from;
    for i := 0 to |routes|
      invariant through == LeastOpen(routes[..i], to)
      invariant closedEnd == GreatestEnd(routes[..i], to)
      invariant first == if i == 0 then routes[0].from else FirstLedger(routes[..i])
    {
      assert routes[..i + 1][..i] == routes[..i];
      var route := routes[i];
      first := if route.from < first then route.from else first;
      var end := End(route, to);
      var scanned := Checked(route);
      if end.Some? && scanned >= end.value {
        closedEnd := if closedEnd < end.value then end.value else closedEnd;
      } else {
        through := if through.None? || scanned < through.value then Some(scanned) else through;
      }
    }
    assert routes[..|routes|] == routes;
    var result := if through.Some? then through.value else closedEnd;
    covered := if result < first then None else Some(result);
  }

  // ------------------------------------------------------------------------------- what the bound says

  /** A ledger of the route, up to `bound` and up to its end in this run. */
  predicate OwnLedger(route: Route, to: Option<Ledger>, bound: int, l: int) {
    route.from <= l <= bound && (End(route, to).Some? ==> l <= End(route, to).value)
  }

  /** The route has walked every ledger of its own up to `bound`. */
  ghost predicate WalkedTo(route: Route, to: Option<Ledger>, bound: int) {
    forall l | OwnLedger(route, to, bound, l) :: l <= Checked(route)
  }

  ghost predicate AllWalkedTo(routes: seq<Route>, to: Option<Ledger>, bound: int) {
    forall r | r in routes :: WalkedTo(r, to, bound)
  }

  lemma {:induction false} LeastOpenBounds(routes: seq<Route>, to: Option<Ledger>)
    ensures LeastOpen(routes, to).None? <==> forall r | r in routes :: Finished(r, to)
    ensures LeastOpen(routes, to).Some? ==>
      (forall r | r in routes && !Finished(r, to) :: LeastOpen(routes, to).value <= Checked(r)) &&
      (exists r :: r in routes && !Finished(r, to) && Checked(r) == LeastOpen(routes, to).value)
  {
    if routes != [] {
      var n := |routes| - 1;
      LeastOpenBounds(routes[..n], to);
      assert forall r | r in routes :: r in routes[..n] || r == routes[n];
      assert routes[n] in routes;
    }
  }

  lemma {:induction false} GreatestEndBounds(routes: seq<Route>, to: Option<Ledger>)
    ensures forall r | r in routes && Finished(r, to) :: End(r, to).value <= GreatestEnd(routes, to)
    ensures GreatestEnd(routes, to) == 0 ||
            exists r :: r in routes && Finished(r, to) && End(r, to).value == GreatestEnd(routes, to)
  {
    if routes != [] {
      var n := |routes| - 1;
      GreatestEndBounds(routes[..n], to);
      assert forall r | r in routes :: r in routes[..n] || r == routes[n];
      assert routes[n] in routes;
    }
  }

  /** Every route has walked to the bound, up to its own end; and a bounded run's bound does not pass the run's end. */
  lemma ThroughIsWalked(routes: seq<Route>, to: Option<Ledger>)
    requires Through(routes, to).Some?
    ensures AllWalkedTo(routes, to, Through(routes, to).value)
    ensures to.Some? ==> Through(routes, to).value <= to.value
  {
    LeastOpenBounds(routes, to);
    GreatestEndBounds(routes, to);
  }

  /** The routes are the ones that decide whether a ledger after the bound is still to be walked. */
  ghost predicate HeldBackByStart(routes: seq<Route>, to: Option<Ledger>) {
    LeastOpen(routes, to).Some? &&
    forall r | r in routes && !Finished(r, to) && Checked(r) == LeastOpen(routes, to).value :: r.from > Checked(r) + 1
  }

  /**
   * With a route still open, the bound is the greatest every route has walked to, except exactly when each
   * open route it comes from starts after the ledger that would be next: its first ledger moved past a
   * checkpoint it kept, and the bound waits for ledgers the route no longer has.
   */
  lemma ThroughIsGreatestUnlessHeldBack(routes: seq<Route>, to: Option<Ledger>)
    requires LeastOpen(routes, to).Some?
    ensures (forall b | b > LeastOpen(routes, to).value :: !AllWalkedTo(routes, to, b))
       <==> !HeldBackByStart(routes, to)
  {
    LeastOpenBounds(routes, to);
    var bound := LeastOpen(routes, to).value;
    if HeldBackByStart(routes, to) {
      assert AllWalkedTo(routes, to, bound + 1);
    } else {
      var r :| r in routes && !Finished(r, to) && Checked(r) == bound && r.from <= bound + 1;
      forall b | b > bound ensures !AllWalkedTo(routes, to, b) {
        assert OwnLedger(r, to, b, bound + 1);
        assert !WalkedTo(r, to, b);
      }
    }
  }

  /** Such a state is reached by moving a route's start past its checkpoint: 99 is walked to, and the answer is 20. */
  lemma HeldBackExample(key: RouteKey)
    ensures var before := Route(10, None, Some(20));
      var moved := Replanned(before, PlannedRoute(key, 100, None));
      var other := Route(10, None, Some(500));
      Through([moved, other], None) == Some(20) && AllWalkedTo([moved, other], None, 99)
  {
    var moved := Replanned(Route(10, None, Some(20)), PlannedRoute(key, 100, None));
    var other := Route(10, None, Some(500));
    var routes := [moved, other];
    assert routes[..1] == [moved] && routes[..1][..0] == [];
    assert LeastOpen(routes[..1], None) == Some(20);
    assert FirstLedger(routes[..1]) == 100;
  }

  // -------------------------------------------------------------------------------- it never falls back

  /** A route that walked on: same bounds, finished if it was, and otherwise no lower checkpoint. */
  predicate WalkedOn(before: Route, after: Route, to: Option<Ledger>) {
    after.from == before.from && after.to == before.to && (Finished(before, to) ==> Finished(after, to)) &&
    (!Finished(after, to) ==> Checked(before) <= Checked(after))
  }

  lemma {:induction false} SameFirst(before: seq<Route>, after: seq<Route>, to: Option<Ledger>)
    requires |before| == |after| > 0 && forall i | 0 <= i < |before| :: WalkedOn(before[i], after[i], to)
    ensures FirstLedger(before) == FirstLedger(after)
  {
    if |before| > 1 {
      SameFirst(before[..|before| - 1], after[..|after| - 1], to);
    }
  }

  /** Walking on never lowers the bound: while a route stays open, */
  lemma OpenNeverFalls(before: seq<Route>, after: seq<Route>, to: Option<Ledger>)
    requires |before| == |after| && forall i | 0 <= i < |before| :: WalkedOn(before[i], after[i], to)
    requires LeastOpen(after, to).Some?
    ensures LeastOpen(before, to).Some? && LeastOpen(before, to).value <= LeastOpen(after, to).value
  {
    LeastOpenBounds(before, to);
    LeastOpenBounds(after, to);
    var r :| r in after && !Finished(r, to) && Checked(r) == LeastOpen(after, to).value;
    var i :| 0 <= i < |after| && after[i] == r;
    assert before[i] in before && WalkedOn(before[i], after[i], to);
  }

  /** and when the last open route finishes, since its end lies past its old checkpoint. */
  lemma LastToFinishNeverFalls(before: seq<Route>, after: seq<Route>, to: Option<Ledger>)
    requires |before| == |after| && forall i | 0 <= i < |before| :: WalkedOn(before[i], after[i], to)
    requires LeastOpen(before, to).Some? && LeastOpen(after, to).None?
    ensures LeastOpen(before, to).value <= GreatestEnd(after, to)
  {
    LeastOpenBounds(before, to);
    LeastOpenBounds(after, to);
    GreatestEndBounds(after, to);
    var r :| r in before && !Finished(r, to) && Checked(r) == LeastOpen(before, to).value;
    var i :| 0 <= i < |before| && before[i] == r;
    assert after[i] in after && Finished(after[i], to) && End(after[i], to) == End(r, to);
  }

  lemma ThroughNeverFalls(before: seq<Route>, after: seq<Route>, to: Option<Ledger>)
    requires |before| == |after| && forall i | 0 <= i < |before| :: WalkedOn(before[i], after[i], to)
    ensures Through(before, to).Some? ==>
              Through(after, to).Some? && Through(before, to).value <= Through(after, to).value
  {
    if before != [] {
      SameFirst(before, after, to);
      if LeastOpen(after, to).Some? {
        OpenNeverFalls(before, after, to);
      } else if LeastOpen(before, to).Some? {
        LastToFinishNeverFalls(before, after, to);
      } else {
        LeastOpenBounds(before, to);
        SameEnds(before, after, to);
      }
    }
  }

  lemma {:induction false} SameEnds(before: seq<Route>, after: seq<Route>, to: Option<Ledger>)
    requires |before| == |after|
    requires forall i | 0 <= i < |before| :: WalkedOn(before[i], after[i], to) && Finished(before[i], to)
    ensures GreatestEnd(before, to) == GreatestEnd(after, to)
  {
    if before != [] {
      var n := |before| - 1;
      SameEnds(before[..n], after[..n], to);
      assert WalkedOn(before[n], after[n], to);
    }
  }

  /** A stored discovery page walks its route on, in every run. */
  lemma PageWalksOn(route: Route, scanned: int, to: Option<Ledger>)
    requires CheckpointInside(route) && Moves(route, Some(scanned))
    ensures WalkedOn(route, route.(scanned := Some(Checkpoint(route, scanned))), to)
  {}
}
