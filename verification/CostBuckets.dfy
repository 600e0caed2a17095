/** Discovery's cost bucket: requests spend different amounts, from buckets of different sizes. */
module CostBuckets {
  import opened Options
  import opened RateLimiters
  import opened Reals
  import opened TokenBuckets

  /** `z` gives every key with a bucket the size it was last taken with. */
  ghost predicate Fits(z: Sizes, sizes: map<Key, real>) {
    forall k | k in sizes :: RateOf(z, k) == PerMinute(sizes[k])
  }

  predicate Full(bucket: Bucket, size: real, now: int) {
    bucket.tokens + Flow(PerMinute(size), now - bucket.at) >= size
  }

  ghost function FullKeys(m: Table, sizes: map<Key, real>, now: int): set<Key> {
    set k | k in m && k in sizes && Full(m[k], sizes[k], now)
  }

  /** The buckets, and the size each was last taken with. */
  datatype Costs = Costs(buckets: Table, sizes: map<Key, real>)

  /** Takes `cost` from a bucket of `size`, or the whole bucket when it costs more. */
  function CostTaken(m: Costs, key: Key, cost: real, size: real, now: int): Costs {
    Costs(Taken(Sizes(PerMinute(size), map[]), m.buckets, key, Min(cost, size), now), m.sizes[key := size])
  }

  function CostWait(m: Costs, key: Key, cost: real, size: real, now: int): int
    requires size > 0.0
  {
    Wait(PerMinute(size), Level(Sizes(PerMinute(size), map[]), m.buckets, key, now), Min(cost, size))
  }

  ghost function CostSwept(m: Costs, now: int): Costs {
    var full := FullKeys(m.buckets, m.sizes, now);
    Costs(m.buckets - full, m.sizes - full)
  }

  class CostBucket {
    const capacity: real
    var buckets: Table
    /** The size each bucket was last taken with. */
    var sizes: map<Key, real>
    ghost var clock: int

    ghost predicate Valid()
      reads this
    {
      && sizes.Keys == buckets.Keys
      && forall k | k in buckets :: sizes[k] > 0.0 && buckets[k].at <= clock && 0.0 <= buckets[k].tokens <= sizes[k]
    }

    constructor (perMinute: real, now: int)
      ensures Valid() && capacity == perMinute && buckets == map[] && sizes == map[] && clock == now
    {
      capacity, buckets, sizes, clock := perMinute, map[], map[], now;
    }

    ghost function Held(): Costs
      reads this
    {
      Costs(buckets, sizes)
    }

    function SizeFor(perMinute: Option<real>): real {
      if perMinute.Some? then perMinute.value else capacity
    }

    /** Spends `cost`, or the whole bucket when it costs more. Returns 0, or the seconds until it would be allowed. */
    method Take(key: Key, cost: real, perMinute: Option<real>, now: int) returns (wait: int)
      requires Valid() && clock <= now && cost >= 0.0 && (perMinute.Some? ==> perMinute.value > 0.0)
      modifies this
      ensures Valid() && clock == now
      ensures capacity <= 0.0 ==> wait == 0 && buckets == old(buckets) && sizes == old(sizes)
      ensures capacity > 0.0 ==> Held() == CostTaken(old(Held()), key, cost, SizeFor(perMinute), now)
      ensures capacity > 0.0 ==> wait == CostWait(old(Held()), key, cost, SizeFor(perMinute), now)
    {
      clock := now;
      if capacity <= 0.0 {
        return 0;
      }
      wait := TakeAt(key, cost, SizeFor(perMinute), now);
    }

    /** Takes at the size the caller allows the key now. */
    method TakeAt(key: Key, cost: real, size: real, now: int) returns (wait: int)
      requires Valid() && clock == now && cost >= 0.0 && size > 0.0
      modifies this`buckets, this`sizes
      ensures Valid()
      ensures Held() == CostTaken(old(Held()), key, cost, size, now)
      ensures wait == CostWait(old(Held()), key, cost, size, now)
    {
      var rate := PerMinute(size);
      var spend := Min(cost, size);
      var bucket := if key in buckets then buckets[key] else Bucket(size, now);
      FlowAdds(rate, 0, now - bucket.at);
      var tokens := Min(size, bucket.tokens + Flow(rate, now - bucket.at));
      sizes := sizes[key := size];
      if tokens >= spend {
        buckets := buckets[key := Bucket(tokens - spend, now)];
        return 0;
      }
      buckets := buckets[key := Bucket(tokens, now)];
      WaitIsPositive(rate, tokens, spend);
      var seconds := Ceil((spend - tokens) / rate.perMs / 1000.0);
      wait := if seconds < 1 then 1 else seconds;
    }

    /** Drops the buckets that have refilled completely. */
    method Sweep(now: int)
      requires Valid() && clock <= now
      modifies this
      ensures Valid() && clock == now
      ensures Held() == CostSwept(old(Held()), now)
    {
      ghost var full := FullKeys(buckets, sizes, now);
      var left, gone := buckets.Keys, {};
      while left != {}
        invariant left <= buckets.Keys && gone <= full <= gone + left && gone !! left
        decreases |left|
      {
        var key :| key in left;
        left := left - {key};
        if Full(buckets[key], sizes[key], now) {
          gone := gone + {key};
        }
      }
      assert gone == full;
      buckets, sizes, clock := buckets - gone, sizes - gone, now;
    }
  }

  /** A take spends its cost, capped at the size, exactly if so much is there, and notes the size it was made with. */
  lemma CostTakeSpends(m: Costs, key: Key, cost: real, size: real, now: int)
    requires size > 0.0 && cost >= 0.0 && (key in m.buckets ==> m.buckets[key].at <= now)
    ensures var level := Level(Sizes(PerMinute(size), map[]), m.buckets, key, now);
            var spend := if cost < size then cost else size;
            var after := CostTaken(m, key, cost, size, now);
            && after.sizes == m.sizes[key := size] && after.buckets.Keys == m.buckets.Keys + {key}
            && after.buckets[key] == Bucket(if level >= spend then level - spend else level, now)
            && (forall k | k in m.buckets && k != key :: after.buckets[k] == m.buckets[k])
            && (CostWait(m, key, cost, size, now) == 0 <==> level >= spend)
  {
    WaitIsPositive(PerMinute(size), 0.0, 1.0);
    var level := Level(Sizes(PerMinute(size), map[]), m.buckets, key, now);
    if level < Min(cost, size) {
      WaitIsPositive(PerMinute(size), level, Min(cost, size));
    }
  }

  /** A sweep drops the buckets that have flowed full at the size noted, with that size, and leaves the others. */
  lemma CostSweepDrops(m: Costs, now: int)
    requires m.sizes.Keys == m.buckets.Keys && forall k | k in m.buckets :: m.buckets[k].at <= now
    ensures var after := CostSwept(m, now);
            && after.sizes.Keys == after.buckets.Keys
            && (forall k | k in m.buckets ::
                  k in after.buckets
                  <==> m.buckets[k].tokens + (now - m.buckets[k].at) as real * (m.sizes[k] / 60_000.0) < m.sizes[k])
            && (forall k | k in after.buckets ::
                  k in m.buckets && after.buckets[k] == m.buckets[k] && after.sizes[k] == m.sizes[k])
  {
    forall k | k in m.buckets
      ensures Flow(PerMinute(m.sizes[k]), now - m.buckets[k].at)
           == (now - m.buckets[k].at) as real * (m.sizes[k] / 60_000.0)
    {
      var ms: nat := now - m.buckets[k].at;
      FlowIsProduct(PerMinute(m.sizes[k]), ms);
      assert Flow(PerMinute(m.sizes[k]), ms) == ms as real * (m.sizes[k] / 60_000.0);
    }
  }

  lemma WaitIsPositive(r: Rate, level: real, spend: real)
    requires Flowing(r) && level < spend
    ensures Wait(r, level, spend) >= 1
  {
    assert (spend - level) / r.perMs > 0.0;
  }

  // ---------------------------------------------------------------------- one size for each key

  datatype CostEvent =
    | Spend(key: Key, cost: real, size: real, at: int)
    | CostSweep(at: int)

  ghost function CostStep(m: Costs, e: CostEvent): Costs {
    match e
    case Spend(key, cost, size, at) => CostTaken(m, key, cost, size, at)
    case CostSweep(at) => CostSwept(m, at)
  }

  /** What a run lets through for a key. */
  ghost function CostNet(m: Costs, events: seq<CostEvent>, key: Key): real
    decreases |events|
  {
    if events == [] then 0.0 else CostPassed(m, events[0], key) + CostNet(CostStep(m, events[0]), events[1..], key)
  }

  ghost function CostPassed(m: Costs, e: CostEvent, key: Key): real {
    match e
    case Spend(k, cost, size, at) =>
      var spend := Min(cost, size);
      if k == key && Level(Sizes(PerMinute(size), map[]), m.buckets, k, at) >= spend then spend else 0.0
    case CostSweep(_) => 0.0
  }

  /** Every key is taken with its one size, which `z` knows. */
  ghost predicate OneSize(z: Sizes, e: CostEvent) {
    e.Spend? ==> RateOf(z, e.key) == PerMinute(e.size) && e.size > 0.0 && e.cost >= 0.0
  }

  ghost predicate HeldAt(z: Sizes, m: Costs) {
    m.sizes.Keys == m.buckets.Keys && Fits(z, m.sizes)
  }

  function AsEvent(e: CostEvent): Event {
    match e
    case Spend(key, cost, size, at) => Event.Take(key, Min(cost, size), at)
    case CostSweep(at) => Event.Sweep(at)
  }

  function AsEvents(events: seq<CostEvent>): (r: seq<Event>)
    ensures |r| == |events| && forall i | 0 <= i < |events| :: r[i] == AsEvent(events[i])
  {
    seq(|events|, i requires 0 <= i < |events| => AsEvent(events[i]))
  }

  lemma SweepOfOneSize(z: Sizes, m: Costs, now: int)
    requires HeldAt(z, m)
    ensures CostSwept(m, now).buckets == Swept(z, m.buckets, now) && HeldAt(z, CostSwept(m, now))
  {
    assert FullKeys(m.buckets, m.sizes, now)
        == set k | k in m.buckets && Level(z, m.buckets, k, now) >= RateOf(z, k).capacity;
  }

  /** With one size for each key, the buckets go through the runs of `TokenBuckets`. */
  lemma StepOfOneSize(z: Sizes, m: Costs, e: CostEvent, key: Key)
    requires HeldAt(z, m) && OneSize(z, e)
    ensures CostStep(m, e).buckets == Step(z, m.buckets, AsEvent(e)) && HeldAt(z, CostStep(m, e))
    ensures CostPassed(m, e, key) == Passed(z, m.buckets, AsEvent(e), key)
  {
    if e.CostSweep? {
      SweepOfOneSize(z, m, e.at);
    }
  }

  lemma {:induction false} RunOfOneSize(z: Sizes, m: Costs, events: seq<CostEvent>, key: Key)
    requires HeldAt(z, m) && forall e | e in events :: OneSize(z, e)
    ensures CostNet(m, events, key) == Net(z, m.buckets, AsEvents(events), key)
    decreases |events|
  {
    if events != [] {
      assert OneSize(z, events[0]);
      StepOfOneSize(z, m, events[0], key);
      RunOfOneSize(z, CostStep(m, events[0]), events[1..], key);
      assert AsEvents(events)[1..] == AsEvents(events[1..]);
    }
  }

  /** In any run a key spends at most what its bucket holds and what flowed in meanwhile. */
  lemma CostRunIsBounded(z: Sizes, m: Costs, events: seq<CostEvent>, key: Key, now: int)
    requires AllFlowing(z) && Settled(z, m.buckets, now) && HeldAt(z, m) && forall e | e in events :: OneSize(z, e)
    requires InOrder(AsEvents(events), now)
    ensures var end := EndOf(AsEvents(events), now);
            now <= end && CostNet(m, events, key) <= RateOf(z, key).capacity + Flow(RateOf(z, key), end - now)
  {
    RunOfOneSize(z, m, events, key);
    RunIsBounded(z, m.buckets, AsEvents(events), key, now);
  }

  /** What the spendings of a run are answered. */
  ghost function CostAnswers(z: Sizes, m: Costs, events: seq<CostEvent>): seq<int>
    requires forall e | e in events :: OneSize(z, e)
    decreases |events|
  {
    if events == [] then [] else
    var e, rest := events[0], CostAnswers(z, CostStep(m, events[0]), events[1..]);
    assert OneSize(z, e);
    if e.Spend? then [CostWait(m, e.key, e.cost, e.size, e.at)] + rest else rest
  }

  /** With one size for each key, a run's answers are those of the plain buckets. */
  lemma {:induction false} AnswersOfOneSize(z: Sizes, m: Costs, events: seq<CostEvent>)
    requires AllFlowing(z) && HeldAt(z, m) && forall e | e in events :: OneSize(z, e)
    ensures CostAnswers(z, m, events) == Answers(z, m.buckets, AsEvents(events))
    decreases |events|
  {
    if events != [] {
      assert OneSize(z, events[0]);
      StepOfOneSize(z, m, events[0], "");
      AnswersOfOneSize(z, CostStep(m, events[0]), events[1..]);
      assert AsEvents(events)[1..] == AsEvents(events[1..]);
    }
  }

  function NoSweeps(events: seq<CostEvent>): (rest: seq<CostEvent>)
    ensures forall e | e in rest :: e in events
  {
    if events == [] then [] else
    if events[0].CostSweep? then NoSweeps(events[1..]) else [events[0]] + NoSweeps(events[1..])
  }

  lemma {:induction false} NoSweepsAsEvents(events: seq<CostEvent>)
    ensures AsEvents(NoSweeps(events)) == Unswept(AsEvents(events))
  {
    if events == [] {
      assert AsEvents(NoSweeps(events)) == [] && AsEvents(events) == [];
    } else {
      NoSweepsAsEvents(events[1..]);
      assert AsEvents(events)[1..] == AsEvents(events[1..]);
      if events[0].Spend? {
        assert AsEvents([events[0]] + NoSweeps(events[1..])) == [AsEvent(events[0])] + AsEvents(NoSweeps(events[1..]));
      }
    }
  }

  /** So with one size for each key, sweeping, whenever and however often, changes no answer. */
  lemma CostSweepsAreInvisible(z: Sizes, m: Costs, events: seq<CostEvent>, now: int)
    requires AllFlowing(z) && Settled(z, m.buckets, now) && HeldAt(z, m) && forall e | e in events :: OneSize(z, e)
    requires InOrder(AsEvents(events), now)
    ensures CostAnswers(z, m, events) == CostAnswers(z, m, NoSweeps(events))
  {
    AnswersOfOneSize(z, m, events);
    AnswersOfOneSize(z, m, NoSweeps(events));
    NoSweepsAsEvents(events);
    SweepsAreInvisible(z, m.buckets, AsEvents(events), now);
  }

  // ------------------------------------------------------------------- sizes that change

  /** What a take of size `size` finds in a bucket. */
  function Found(bucket: Bucket, size: real, now: int): real {
    Min(size, bucket.tokens + Flow(PerMinute(size), now - bucket.at))
  }

  /**
   * A key taken with another size later can tell that its bucket was dropped, and then finds a full one,
   * exactly if the bucket was not full at that size too.
   */
  lemma SweepShowsExactly(bucket: Bucket, size: real, other: real, now: int)
    requires size > 0.0 && other > 0.0 && bucket.at <= now && 0.0 <= bucket.tokens <= size && Full(bucket, size, now)
    ensures Full(bucket, other, now) <==> forall later | later >= now :: Found(bucket, other, later) == other
    ensures other <= size ==> Full(bucket, other, now)
  {
    if Full(bucket, other, now) {
      forall later | later >= now ensures Found(bucket, other, later) == other {
        Flows(PerMinute(other), bucket.at, now, later);
      }
    } else {
      assert Found(bucket, other, now) != other;
    }
    if other <= size {
      FlowOfSize(size, now - bucket.at);
      FlowOfSize(other, now - bucket.at);
      FullAtLess(bucket.tokens, (now - bucket.at) as real / 60_000.0, size, other);
    }
  }

  lemma FlowOfSize(size: real, ms: nat)
    ensures Flow(PerMinute(size), ms) == ms as real / 60_000.0 * size
  {
    FlowIsProduct(PerMinute(size), ms);
  }

  lemma FullAtLess(tokens: real, minutes: real, size: real, other: real)
    requires tokens >= 0.0 && 0.0 < other <= size && tokens + minutes * size >= size
    ensures tokens + minutes * other >= other
  {
    if minutes >= 1.0 {
      assert (minutes - 1.0) * other >= 0.0;
    } else {
      assert (1.0 - minutes) * (size - other) >= 0.0;
    }
  }

  /** For instance, a full bucket of 60 swept just before its key is taken with 120. */
  lemma SweepShowsExample()
    ensures var bucket := Bucket(60.0, 0);
            Full(bucket, 60.0, 0) && !Full(bucket, 120.0, 0) && Found(bucket, 120.0, 0) == 60.0
  {
  }
}
