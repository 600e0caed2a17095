/**
 * Token buckets under keys, as values: how full a bucket is at a moment, what taking, refunding and sweeping
 * do to that, and what any run of them lets through. Times are whole milliseconds on a clock that does not
 * run backwards; tokens are real numbers.
 */
module TokenBuckets {
  import opened Reals

  type Key = string

  /** A bucket as it was when last touched. */
  datatype Bucket = Bucket(tokens: real, at: int)

  /** How much a bucket holds, and how much flows in each millisecond. */
  datatype Rate = Rate(capacity: real, perMs: real)

  type Table = map<Key, Bucket>

  /** Every key's rate: its own, or the common one. */
  datatype Sizes = Sizes(common: Rate, own: map<Key, Rate>)

  function RateOf(z: Sizes, key: Key): Rate {
    if key in z.own then z.own[key] else z.common
  }

  ghost predicate Flowing(r: Rate) {
    r.capacity > 0.0 && r.perMs > 0.0
  }

  ghost predicate AllFlowing(z: Sizes) {
    forall key :: Flowing(RateOf(z, key))
  }

  /** The least whole number not below `x`. */
  function Ceil(x: real): (n: int)
    ensures n as real >= x && (n - 1) as real < x
  {
    -((-x).Floor)
  }

  /** What flows in during some milliseconds: `ms * perMs`, as `FlowIsProduct` states. */
  function Flow(r: Rate, ms: int): real {
    if ms <= 0 then 0.0 else Flow(r, ms - 1) + r.perMs
  }

  lemma OneMore(count: real, each: real, more: real)
    requires more == count + 1.0
    ensures more * each == count * each + each
  {
  }

  /** The rate for each millisecond. */
  lemma {:induction false} FlowIsProduct(r: Rate, ms: nat)
    ensures Flow(r, ms) == ms as real * r.perMs
  {
    if ms > 0 {
      FlowIsProduct(r, ms - 1);
      OneMore((ms - 1) as real, r.perMs, ms as real);
    } else {
      assert ms as real == 0.0;
    }
  }

  lemma {:induction false} FlowAdds(r: Rate, a: nat, b: nat)
    requires Flowing(r)
    ensures Flow(r, a + b) == Flow(r, a) + Flow(r, b) && Flow(r, b) >= 0.0
  {
    if b > 0 {
      FlowAdds(r, a, b - 1);
    }
  }

  /** What a key's bucket holds at a moment; a key without one has a full one. */
  function Level(z: Sizes, m: Table, key: Key, now: int): real {
    if key in m
    then Min(RateOf(z, key).capacity, m[key].tokens + Flow(RateOf(z, key), now - m[key].at))
    else RateOf(z, key).capacity
  }

  /** Every bucket was touched before, and holds what a bucket can hold. */
  ghost predicate Settled(z: Sizes, m: Table, now: int) {
    forall k | k in m :: m[k].at <= now && 0.0 <= m[k].tokens <= RateOf(z, k).capacity
  }

  /** Spends from a bucket that holds enough; a refusal only notes the level. */
  function Taken(z: Sizes, m: Table, key: Key, spend: real, now: int): Table {
    var level := Level(z, m, key, now);
    m[key := Bucket(if level >= spend then level - spend else level, now)]
  }

  /** Gives one token back to a key's bucket, if it has one. */
  function Refunded(z: Sizes, m: Table, key: Key): Table {
    if key in m then m[key := m[key].(tokens := Min(RateOf(z, key).capacity, m[key].tokens + 1.0))] else m
  }

  /** Drops the buckets that are full again. */
  function Swept(z: Sizes, m: Table, now: int): Table {
    m - (set k | k in m && Level(z, m, k, now) >= RateOf(z, k).capacity)
  }

  /** A sweep that has yet to look at the keys in `left`. */
  ghost predicate Sweeping(z: Sizes, m: Table, now: int, left: set<Key>, kept: Table) {
    && left <= m.Keys
    && (forall k | k in m :: k in kept <==> k in left || Level(z, m, k, now) < RateOf(z, k).capacity)
    && (forall k | k in kept :: k in m && kept[k] == m[k])
  }

  lemma SweepNext(z: Sizes, m: Table, now: int, left: set<Key>, kept: Table, key: Key)
    requires Sweeping(z, m, now, left, kept) && key in left
    ensures key in kept && key in m
    ensures var full := kept[key].tokens + Flow(RateOf(z, key), now - kept[key].at) >= RateOf(z, key).capacity;
            Sweeping(z, m, now, left - {key}, if full then kept - {key} else kept)
  {
  }

  lemma SweepDone(z: Sizes, m: Table, now: int, kept: Table)
    requires Sweeping(z, m, now, {}, kept)
    ensures kept == Swept(z, m, now)
  {
  }

  /** The whole seconds until `spend` is there, when the bucket is left alone. */
  function Wait(r: Rate, level: real, spend: real): int
    requires r.perMs > 0.0
  {
    if level >= spend then 0 else Ceil((spend - level) / r.perMs / 1000.0)
  }

  // ------------------------------------------------------------------------------------- levels

  lemma Flows(r: Rate, from: int, via: int, to: int)
    requires Flowing(r) && from <= via <= to
    ensures Flow(r, via - from) >= 0.0 && Flow(r, to - via) >= 0.0
    ensures Flow(r, to - from) == Flow(r, via - from) + Flow(r, to - via)
  {
    FlowAdds(r, 0, via - from);
    FlowAdds(r, via - from, to - via);
  }

  /** A bucket starts full, and holds what it held when it was touched and what has flowed in, up to its capacity. */
  lemma LevelIs(z: Sizes, m: Table, key: Key, now: int)
    requires key in m ==> m[key].at <= now
    ensures key !in m ==> Level(z, m, key, now) == RateOf(z, key).capacity
    ensures key in m ==>
              var filled := m[key].tokens + (now - m[key].at) as real * RateOf(z, key).perMs;
              Level(z, m, key, now) == if filled < RateOf(z, key).capacity then filled else RateOf(z, key).capacity
  {
    if key in m {
      var ms: nat := now - m[key].at;
      FlowIsProduct(RateOf(z, key), ms);
      assert Flow(RateOf(z, key), ms) == ms as real * RateOf(z, key).perMs;
    }
  }

  /** A sweep drops the buckets that are full again, and leaves the others as they are. */
  lemma SweptExactly(z: Sizes, m: Table, now: int)
    ensures var swept := Swept(z, m, now);
            && (forall k :: k in swept <==> k in m && Level(z, m, k, now) < RateOf(z, k).capacity)
            && (forall k | k in swept :: swept[k] == m[k])
  {
  }

  lemma LevelLater(z: Sizes, m: Table, key: Key, now: int, later: int)
    requires AllFlowing(z) && Settled(z, m, now) && now <= later
    ensures 0.0 <= Level(z, m, key, now) <= RateOf(z, key).capacity
    ensures Level(z, m, key, later)
            == Min(RateOf(z, key).capacity, Level(z, m, key, now) + Flow(RateOf(z, key), later - now))
  {
    Flows(RateOf(z, key), now, now, later);
    if key in m {
      Flows(RateOf(z, key), m[key].at, now, later);
      assert m[key].tokens >= 0.0;
    }
  }

  lemma TakenLevel(z: Sizes, m: Table, key: Key, spend: real, now: int, other: Key)
    requires AllFlowing(z) && Settled(z, m, now) && spend >= 0.0
    ensures Settled(z, Taken(z, m, key, spend, now), now)
    ensures var level := Level(z, m, other, now);
            Level(z, Taken(z, m, key, spend, now), other, now)
            == if other == key && level >= spend then level - spend else level
  {
    LevelLater(z, m, key, now, now);
  }

  lemma RefundedLevel(z: Sizes, m: Table, key: Key, now: int, other: Key)
    requires AllFlowing(z) && Settled(z, m, now)
    ensures Settled(z, Refunded(z, m, key), now)
    ensures Level(z, Refunded(z, m, key), other, now)
            == if other == key
               then Min(RateOf(z, key).capacity, Level(z, m, other, now) + 1.0)
               else Level(z, m, other, now)
  {
    if key in m {
      Flows(RateOf(z, key), m[key].at, now, now);
    }
  }

  lemma SweptLevel(z: Sizes, m: Table, now: int, key: Key)
    requires AllFlowing(z) && Settled(z, m, now)
    ensures Settled(z, Swept(z, m, now), now)
    ensures Level(z, Swept(z, m, now), key, now) == Level(z, m, key, now)
  {
    LevelLater(z, m, key, now, now);
  }

  // -------------------------------------------------------------------------------------- waits

  /** The wait is the least whole number of seconds after which the take succeeds. */
  lemma WaitIsLeast(z: Sizes, m: Table, key: Key, spend: real, now: int, seconds: nat)
    requires AllFlowing(z) && Settled(z, m, now) && spend <= RateOf(z, key).capacity
    ensures Wait(RateOf(z, key), Level(z, m, key, now), spend) <= seconds
       <==> Level(z, m, key, now + 1000 * seconds) >= spend
  {
    var level := Level(z, m, key, now);
    LevelLater(z, m, key, now, now + 1000 * seconds);
    FlowAdds(RateOf(z, key), 0, 1000 * seconds);
    if level < spend {
      WaitFlowsIn(RateOf(z, key), level, spend, seconds);
    }
  }

  lemma WaitFlowsIn(r: Rate, level: real, spend: real, seconds: nat)
    requires Flowing(r) && level < spend
    ensures Wait(r, level, spend) <= seconds <==> spend - level <= Flow(r, 1000 * seconds)
  {
    FlowIsProduct(r, 1000 * seconds);
    Quotients(spend - level, r.perMs, seconds);
    assert (1000 * seconds) as real == 1000.0 * seconds as real;
  }

  lemma Quotients(missing: real, perMs: real, seconds: nat)
    requires perMs > 0.0
    ensures missing / perMs / 1000.0 <= seconds as real <==> missing <= 1000.0 * seconds as real * perMs
  {
    var q := missing / perMs;
    assert missing == q * perMs;
    var s := 1000.0 * seconds as real;
    assert q / 1000.0 <= seconds as real <==> q <= s;
    if q <= s {
      assert (s - q) * perMs >= 0.0;
    } else {
      assert (q - s) * perMs > 0.0;
    }
  }

  // --------------------------------------------------------------------------------------- runs

  datatype Event =
    | Take(key: Key, spend: real, at: int)
    | Refund(key: Key, at: int)
    | Sweep(at: int)

  function Step(z: Sizes, m: Table, e: Event): Table {
    match e
    case Take(key, spend, at) => Taken(z, m, key, spend, at)
    case Refund(key, _) => Refunded(z, m, key)
    case Sweep(at) => Swept(z, m, at)
  }

  /** Events in the order of the clock, none before `now`. */
  ghost predicate InOrder(events: seq<Event>, now: int)
    decreases |events|
  {
    events == [] || (events[0].at >= now && (events[0].Take? ==> events[0].spend >= 0.0)
                     && InOrder(events[1..], events[0].at))
  }

  /** What the takes of a run are answered. */
  ghost function Answers(z: Sizes, m: Table, events: seq<Event>): seq<int>
    requires AllFlowing(z)
    decreases |events|
  {
    if events == [] then [] else
    var rest := Answers(z, Step(z, m, events[0]), events[1..]);
    if !events[0].Take? then rest else
    [Wait(RateOf(z, events[0].key), Level(z, m, events[0].key, events[0].at), events[0].spend)] + rest
  }

  /** What a run lets through for a key, less what it gives back. */
  ghost function Net(z: Sizes, m: Table, events: seq<Event>, key: Key): real
    decreases |events|
  {
    if events == [] then 0.0 else
    Passed(z, m, events[0], key) + Net(z, Step(z, m, events[0]), events[1..], key)
  }

  ghost function Passed(z: Sizes, m: Table, e: Event, key: Key): real {
    match e
    case Take(k, spend, at) => if k == key && Level(z, m, k, at) >= spend then spend else 0.0
    case Refund(k, _) => if k == key then -1.0 else 0.0
    case Sweep(_) => 0.0
  }

  lemma SettledLater(z: Sizes, m: Table, now: int, later: int)
    requires Settled(z, m, now) && now <= later
    ensures Settled(z, m, later)
  {
  }

  lemma StepLevel(z: Sizes, m: Table, e: Event, key: Key)
    requires AllFlowing(z) && Settled(z, m, e.at) && (e.Take? ==> e.spend >= 0.0)
    ensures Settled(z, Step(z, m, e), e.at)
    ensures Level(z, Step(z, m, e), key, e.at)
            == Min(RateOf(z, key).capacity, Level(z, m, key, e.at) - Passed(z, m, e, key))
  {
    LevelLater(z, m, key, e.at, e.at);
    match e
    case Take(k, spend, at) => TakenLevel(z, m, k, spend, at, key);
    case Refund(k, at) => RefundedLevel(z, m, k, at, key);
    case Sweep(at) => SweptLevel(z, m, at, key);
  }

  ghost function EndOf(events: seq<Event>, now: int): int {
    if events == [] then now else events[|events| - 1].at
  }

  /**
   * In any run a key gets at most what a bucket holds and what flowed in meanwhile, whatever is taken,
   * given back and swept, and whatever happens under other keys.
   */
  lemma {:induction false} RunIsBounded(z: Sizes, m: Table, events: seq<Event>, key: Key, now: int)
    requires AllFlowing(z) && Settled(z, m, now) && InOrder(events, now)
    ensures now <= EndOf(events, now)
    ensures Net(z, m, events, key) <= Level(z, m, key, now) + Flow(RateOf(z, key), EndOf(events, now) - now)
    ensures Net(z, m, events, key) <= RateOf(z, key).capacity + Flow(RateOf(z, key), EndOf(events, now) - now)
    decreases |events|
  {
    LevelLater(z, m, key, now, now);
    if events != [] {
      var e := events[0];
      SettledLater(z, m, now, e.at);
      LevelLater(z, m, key, now, e.at);
      StepLevel(z, m, e, key);
      RunIsBounded(z, Step(z, m, e), events[1..], key, e.at);
      Flows(RateOf(z, key), now, e.at, EndOf(events[1..], e.at));
      assert EndOf(events[1..], e.at) == EndOf(events, now);
    }
  }

  /** Two tables a client cannot tell apart. */
  ghost predicate SameLevels(z: Sizes, m: Table, n: Table, now: int) {
    forall key :: Level(z, m, key, now) == Level(z, n, key, now)
  }

  lemma SameLevelsLater(z: Sizes, m: Table, n: Table, now: int, later: int)
    requires AllFlowing(z) && Settled(z, m, now) && Settled(z, n, now) && now <= later && SameLevels(z, m, n, now)
    ensures SameLevels(z, m, n, later)
  {
    forall key ensures Level(z, m, key, later) == Level(z, n, key, later) {
      LevelLater(z, m, key, now, later);
      LevelLater(z, n, key, now, later);
    }
  }

  lemma SameLevelsStep(z: Sizes, m: Table, n: Table, e: Event)
    requires AllFlowing(z) && Settled(z, m, e.at) && Settled(z, n, e.at) && (e.Take? ==> e.spend >= 0.0)
    requires SameLevels(z, m, n, e.at)
    ensures Settled(z, Step(z, m, e), e.at) && Settled(z, Step(z, n, e), e.at)
    ensures SameLevels(z, Step(z, m, e), Step(z, n, e), e.at)
  {
    StepLevel(z, m, e, "");
    StepLevel(z, n, e, "");
    forall key ensures Level(z, Step(z, m, e), key, e.at) == Level(z, Step(z, n, e), key, e.at) {
      StepLevel(z, m, e, key);
      StepLevel(z, n, e, key);
    }
  }

  /** Tables with the same levels answer every run of takes alike. */
  lemma {:induction false} SameAnswers(z: Sizes, m: Table, n: Table, events: seq<Event>, now: int)
    requires AllFlowing(z) && Settled(z, m, now) && Settled(z, n, now) && InOrder(events, now)
    requires SameLevels(z, m, n, now)
    ensures Answers(z, m, events) == Answers(z, n, events)
    decreases |events|
  {
    if events != [] {
      var e := events[0];
      SettledLater(z, m, now, e.at);
      SettledLater(z, n, now, e.at);
      SameLevelsLater(z, m, n, now, e.at);
      SameLevelsStep(z, m, n, e);
      SameAnswers(z, Step(z, m, e), Step(z, n, e), events[1..], e.at);
      if e.Take? {
        assert Level(z, m, e.key, e.at) == Level(z, n, e.key, e.at);
      }
    }
  }

  ghost function Unswept(events: seq<Event>): seq<Event> {
    if events == [] then [] else
    if events[0].Sweep? then Unswept(events[1..]) else [events[0]] + Unswept(events[1..])
  }

  lemma {:induction false} UnsweptInOrder(events: seq<Event>, now: int)
    requires InOrder(events, now)
    ensures InOrder(Unswept(events), now)
  {
    if events != [] {
      UnsweptInOrder(events[1..], events[0].at);
      if events[0].Sweep? {
        EarlierInOrder(Unswept(events[1..]), events[0].at, now);
      }
    }
  }

  lemma EarlierInOrder(events: seq<Event>, now: int, before: int)
    requires InOrder(events, now) && before <= now
    ensures InOrder(events, before)
  {
  }

  /** Sweeping, whenever and however often, changes no answer. */
  lemma {:induction false} SweepsAreInvisible(z: Sizes, m: Table, events: seq<Event>, now: int)
    requires AllFlowing(z) && Settled(z, m, now) && InOrder(events, now)
    ensures Answers(z, m, events) == Answers(z, m, Unswept(events))
    decreases |events|
  {
    if events != [] {
      var e, rest := events[0], events[1..];
      SettledLater(z, m, now, e.at);
      StepLevel(z, m, e, "");
      SweepsAreInvisible(z, Step(z, m, e), rest, e.at);
      if e.Sweep? {
        forall key ensures Level(z, Swept(z, m, e.at), key, e.at) == Level(z, m, key, e.at) {
          SweptLevel(z, m, e.at, key);
        }
        UnsweptInOrder(rest, e.at);
        SameAnswers(z, Swept(z, m, e.at), m, Unswept(rest), e.at);
      } else {
        assert Unswept(events)[1..] == Unswept(rest);
      }
    }
  }
}
