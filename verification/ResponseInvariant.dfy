/** What holds after every event on the server's connections, in whatever order events come. */
module ResponseInvariant {
  import opened Options
  import opened ResponseQueue

  // ---------------------------------------------------------------------------------------- one queue

  ghost predicate ReadyThrough(p: seq<Pending>, i: int) {
    forall j | 0 <= j <= i && j < |p| :: p[j].ready
  }

  /** The responses with a clock are the longest ready prefix of the queue. */
  ghost predicate ClocksExact(p: seq<Pending>) {
    forall i | 0 <= i < |p| :: p[i].readyAt.Some? <==> ReadyThrough(p, i)
  }

  /** Clocks run only inside the ready prefix, from its start. */
  ghost predicate ClocksDue(p: seq<Pending>) {
    (forall i | 0 <= i < |p| :: p[i].readyAt.Some? ==> ReadyThrough(p, i)) &&
    (forall i, j | 0 <= i < j < |p| && p[j].readyAt.Some? :: p[i].readyAt.Some?)
  }

  /** Clocks do not decrease along the queue, and none lies ahead. */
  ghost predicate ClocksOrdered(p: seq<Pending>, now: real) {
    (forall i, j | 0 <= i < j < |p| && p[i].readyAt.Some? && p[j].readyAt.Some? ::
       p[i].readyAt.value <= p[j].readyAt.value) &&
    (forall i | 0 <= i < |p| && p[i].readyAt.Some? :: p[i].readyAt.value <= now)
  }

  /** All requests of a queue have arrived as a whole. */
  ghost predicate AllArrived(p: seq<Pending>) {
    forall i | 0 <= i < |p| :: p[i].complete
  }

  /** All requests of a queue but its last have arrived as a whole. */
  ghost predicate ArrivedButLast(p: seq<Pending>) {
    forall i | 0 <= i < |p| - 1 :: p[i].complete
  }

  ghost predicate Distinct(p: seq<Pending>) {
    forall i, j | 0 <= i < j < |p| :: p[i].request != p[j].request
  }

  lemma {:induction false} ClockedAt(p: seq<Pending>, now: real, i: nat)
    requires i < |p|
    ensures Clocked(p, now)[i] ==
      if ReadyThrough(p, i) && p[i].readyAt.None? then p[i].(readyAt := Some(now)) else p[i]
  {
    if p[0].ready && i > 0 {
      ClockedAt(p[1..], now, i - 1);
      assert ReadyThrough(p, i) <==> ReadyThrough(p[1..], i - 1) by {
        if ReadyThrough(p, i) {
          assert forall j | 0 <= j <= i - 1 && j < |p[1..]| :: p[1..][j] == p[j + 1];
        }
        if ReadyThrough(p[1..], i - 1) {
          forall j | 0 <= j <= i && j < |p| ensures p[j].ready {
            if j > 0 { assert p[1..][j - 1] == p[j]; }
          }
        }
      }
    }
  }

  /** Clocking a queue whose clocks are due makes them exact and keeps their order. */
  lemma ClockedIsExact(p: seq<Pending>, now: real)
    requires ClocksDue(p) && ClocksOrdered(p, now)
    ensures ClocksExact(Clocked(p, now)) && ClocksOrdered(Clocked(p, now), now)
  {
    var q := Clocked(p, now);
    forall i | 0 <= i < |q|
      ensures q[i] == if ReadyThrough(p, i) && p[i].readyAt.None? then p[i].(readyAt := Some(now)) else p[i]
    {
      ClockedAt(p, now, i);
    }
    forall i | 0 <= i < |q| ensures ReadyThrough(q, i) <==> ReadyThrough(p, i) {
      assert forall j | 0 <= j <= i :: q[j].ready == p[j].ready;
    }
  }

  /** Clocking changes nothing but clocks. */
  lemma ClockedKeeps(p: seq<Pending>, now: real)
    ensures Requests(Clocked(p, now)) == Requests(p)
    ensures forall i | 0 <= i < |p| :: Clocked(p, now)[i].(readyAt := p[i].readyAt) == p[i]
  {
    var q := Clocked(p, now);
    forall i | 0 <= i < |p| ensures q[i].(readyAt := p[i].readyAt) == p[i] {
      ClockedAt(p, now, i);
    }
    forall r ensures r in Requests(q) <==> r in Requests(p) {
      if r in Requests(q) { var i :| 0 <= i < |q| && q[i].request == r; assert p[i] in p; }
      if r in Requests(p) { var i :| 0 <= i < |p| && p[i].request == r; assert q[i] in q; }
    }
  }

  /** A queue as an event may leave it just before its clocks are refreshed. */
  ghost predicate QueueDue(p: seq<Pending>, now: real) {
    ClocksDue(p) && ClocksOrdered(p, now) && ArrivedButLast(p) && Distinct(p)
  }

  /** A queue between events. */
  ghost predicate QueueExact(p: seq<Pending>, now: real) {
    ClocksExact(p) && ClocksOrdered(p, now) && ArrivedButLast(p) && Distinct(p)
  }

  lemma ExactIsDue(p: seq<Pending>, now: real)
    requires QueueExact(p, now)
    ensures QueueDue(p, now)
  {
    forall i, j | 0 <= i < j < |p| && p[j].readyAt.Some? ensures p[i].readyAt.Some? {
      assert ReadyThrough(p, j) ==> ReadyThrough(p, i);
    }
  }

  lemma RefreshedQueue(p: seq<Pending>, now: real)
    requires QueueDue(p, now)
    ensures QueueExact(Clocked(p, now), now) && Requests(Clocked(p, now)) == Requests(p)
  {
    ClockedIsExact(p, now);
    ClockedKeeps(p, now);
  }

  /** A request is added at the end. */
  lemma PushedQueue(p: seq<Pending>, now: real, request: Request, complete: bool)
    requires QueueExact(p, now) && request !in Requests(p) && AllArrived(p)
    ensures QueueExact(p + [Pending(request, false, None, complete)], now)
    ensures Requests(p + [Pending(request, false, None, complete)]) == Requests(p) + {request}
  {
    var q := p + [Pending(request, false, None, complete)];
    forall i | 0 <= i < |p| ensures ReadyThrough(q, i) <==> ReadyThrough(p, i) {
      assert forall j | 0 <= j <= i :: q[j] == p[j];
    }
    assert !ReadyThrough(q, |p|) by { assert !q[|p|].ready; }
    forall i, j | 0 <= i < j < |q| ensures q[i].request != q[j].request {
      assert p[i] in p;
    }
    assert Requests(q) == Requests(p) + {request} by {
      forall r | r in Requests(q) ensures r in Requests(p) + {request} {}
      forall r | r in Requests(p) ensures r in Requests(q) {
        var e :| e in p && e.request == r;
        assert e in q;
      }
      assert q[|p|] in q;
    }
  }

  /** An answer is given. */
  lemma AnsweredQueue(p: seq<Pending>, now: real, i: nat)
    requires QueueExact(p, now) && i < |p| && !p[i].ready
    ensures QueueDue(p[i := p[i].(ready := true)], now) && Requests(p[i := p[i].(ready := true)]) == Requests(p)
  {
    ExactIsDue(p, now);
    var q := p[i := p[i].(ready := true)];
    forall k | 0 <= k < |p| && ReadyThrough(p, k) ensures ReadyThrough(q, k) {}
    forall r ensures r in Requests(q) <==> r in Requests(p) {
      if r in Requests(q) { var j :| 0 <= j < |q| && q[j].request == r; assert p[j] in p; }
      if r in Requests(p) { var j :| 0 <= j < |p| && p[j].request == r; assert q[j] in q; }
    }
  }

  /** A response leaves the queue. */
  lemma SettledQueue(p: seq<Pending>, now: real, i: nat)
    requires QueueExact(p, now) && i < |p|
    ensures QueueDue(WithoutAt(p, i), now)
  {
    ExactIsDue(p, now);
    var q := WithoutAt(p, i);
    forall k | 0 <= k < |q| && q[k].readyAt.Some? ensures ReadyThrough(q, k) {
      assert ReadyThrough(p, if k < i then k else k + 1);
    }
    assert Distinct(q) && ArrivedButLast(q);
  }

  lemma SettledRequests(p: seq<Pending>, i: nat)
    requires Distinct(p) && i < |p|
    ensures Requests(WithoutAt(p, i)) == Requests(p) - {p[i].request} && p[i].request in Requests(p)
  {
    var q := WithoutAt(p, i);
    assert p[i] in p;
    forall r ensures r in Requests(q) <==> r in Requests(p) && r != p[i].request {
      if r in Requests(q) {
        var k :| 0 <= k < |q| && q[k].request == r;
        assert p[if k < i then k else k + 1] in p;
      }
      if r in Requests(p) && r != p[i].request {
        var k :| 0 <= k < |p| && p[k].request == r;
        assert q[if k < i then k else k - 1] in q;
      }
    }
  }

  /** The rest of a body arrives. */
  lemma ArrivedQueue(p: seq<Pending>, now: real, i: nat)
    requires QueueExact(p, now) && i < |p|
    ensures var q := p[i := p[i].(complete := true)]; QueueExact(q, now) && Requests(q) == Requests(p)
  {
    var q := p[i := p[i].(complete := true)];
    forall k | 0 <= k < |p| ensures ReadyThrough(q, k) <==> ReadyThrough(p, k) {
      assert forall j | 0 <= j <= k :: q[j].ready == p[j].ready;
    }
    forall r ensures r in Requests(q) <==> r in Requests(p) {
      if r in Requests(q) { var j :| 0 <= j < |q| && q[j].request == r; assert p[j] in p; }
      if r in Requests(p) { var j :| 0 <= j < |p| && p[j].request == r; assert q[j] in q; }
    }
  }
}
