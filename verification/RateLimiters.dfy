/** The limiters that keep token buckets: what each call does to the levels, and what it answers. */
module RateLimiters {
  import opened Reals
  import opened TokenBuckets

  function PerMinute(perMinute: real): Rate {
    Rate(perMinute, perMinute / 60_000.0)
  }

  /** What one token costs. */
  const TOKEN := 1.0

  /** The service's limiter: `perMinute` requests a minute for each key, or none counted when it is not positive. */
  class RateLimiter {
    const perMinute: int
    var buckets: Table
    /** What the clock last read. */
    ghost var clock: int

    ghost function Sized(): Sizes {
      Sizes(PerMinute(perMinute as real), map[])
    }

    ghost predicate Valid()
      reads this
    {
      if perMinute > 0 then Settled(Sized(), buckets, clock) else buckets == map[]
    }

    lemma Flows()
      ensures perMinute > 0 ==> AllFlowing(Sized())
    {
      if perMinute > 0 {
        assert perMinute as real / 60_000.0 > 0.0;
      }
    }

    constructor (perMinute: int, now: int)
      ensures Valid() && this.perMinute == perMinute && buckets == map[] && clock == now
    {
      this.perMinute, buckets, clock := perMinute, map[], now;
    }

    /** Takes a token if the key's bucket holds one, and answers the wait for one: 0 when it was taken. */
    method Take(key: Key, now: int) returns (wait: int)
      requires Valid() && clock <= now
      modifies this
      ensures Valid() && clock == now
      ensures perMinute <= 0 ==> wait == 0 && buckets == old(buckets)
      ensures perMinute > 0 ==>
                wait == old(Wait(PerMinute(perMinute as real), Level(Sized(), buckets, key, now), TOKEN))
      ensures perMinute > 0 ==> buckets == old(Taken(Sized(), buckets, key, TOKEN, now))
    {
      clock := now;
      if perMinute <= 0 {
        return 0;
      }
      Flows();
      TakenLevel(Sized(), buckets, key, TOKEN, now, key);
      var rate := PerMinute(perMinute as real);
      var bucket := if key in buckets then buckets[key] else Bucket(rate.capacity, now);
      var tokens := Min(rate.capacity, bucket.tokens + Flow(rate, now - bucket.at));
      if tokens >= TOKEN {
        buckets := buckets[key := Bucket(tokens - TOKEN, now)];
        return 0;
      }
      buckets := buckets[key := Bucket(tokens, now)];
      wait := Ceil((TOKEN - tokens) / rate.perMs / 1000.0);
    }

    /** Drops the buckets that have refilled completely. */
    method Sweep(now: int)
      requires Valid() && clock <= now
      modifies this
      ensures Valid() && clock == now && buckets == old(Swept(Sized(), buckets, now))
    {
      Flows();
      if perMinute > 0 {
        SweptLevel(Sized(), buckets, now, "");
      }
      buckets := KeepUnfilled(PerMinute(perMinute as real), buckets, now);
      clock := now;
    }
  }

  /** The buckets that have not refilled completely. */
  method KeepUnfilled(rate: Rate, buckets: Table, now: int) returns (kept: Table)
    ensures kept == Swept(Sizes(rate, map[]), buckets, now)
  {
    ghost var z := Sizes(rate, map[]);
    kept := buckets;
    var left := buckets.Keys;
    while left != {}
      invariant Sweeping(z, buckets, now, left, kept)
      decreases |left|
    {
      var key :| key in left;
      SweepNext(z, buckets, now, left, kept, key);
      left := left - {key};
      if kept[key].tokens + Flow(rate, now - kept[key].at) >= rate.capacity {
        kept := kept - {key};
      }
    }
    SweepDone(z, buckets, now, kept);
  }

  /** The Playground's limiter: bursts up to `burst`, and tokens can be given back. */
  class RefundingLimiter {
    const rate: Rate
    var buckets: Table
    ghost var clock: int

    ghost function Sized(): Sizes {
      Sizes(rate, map[])
    }

    ghost predicate Valid()
      reads this
    {
      Flowing(rate) && rate.capacity >= TOKEN && AllFlowing(Sized()) && Settled(Sized(), buckets, clock)
    }

    constructor (perMinute: real, burst: real, now: int)
      requires perMinute > 0.0
      ensures Valid() && buckets == map[] && clock == now
      ensures rate == Rate(if burst < 1.0 then 1.0 else burst, perMinute / 60_000.0)
    {
      rate := Rate(if burst < 1.0 then 1.0 else burst, perMinute / 60_000.0);
      buckets, clock := map[], now;
    }

    function TokensOf(key: Key, now: int): (tokens: real)
      reads this
      ensures tokens == Level(Sized(), buckets, key, now)
    {
      if key in buckets
      then Min(rate.capacity, buckets[key].tokens + Flow(rate, now - buckets[key].at))
      else rate.capacity
    }

    /** The seconds until a token is there, without taking one. */
    method Peek(key: Key, now: int) returns (wait: int)
      requires Valid() && clock <= now
      ensures wait == Wait(rate, Level(Sized(), buckets, key, now), TOKEN)
    {
      var tokens := TokensOf(key, now);
      if tokens >= TOKEN {
        return 0;
      }
      WaitIsLeast(Sized(), buckets, key, TOKEN, now, 0);
      wait := WaitFor(tokens);
    }

    method WaitFor(tokens: real) returns (wait: int)
      requires Flowing(rate)
      ensures tokens < TOKEN && Wait(rate, tokens, TOKEN) >= 1 ==> wait == Wait(rate, tokens, TOKEN)
    {
      wait := Ceil((TOKEN - tokens) / rate.perMs / 1000.0);
      wait := if wait < 1 then 1 else wait;
    }

    method Take(key: Key, now: int) returns (wait: int)
      requires Valid() && clock <= now
      modifies this
      ensures Valid() && clock == now
      ensures wait == old(Wait(rate, Level(Sized(), buckets, key, now), TOKEN)) >= 0
      ensures wait == 0 <==> old(Level(Sized(), buckets, key, now)) >= TOKEN
      ensures buckets == old(Taken(Sized(), buckets, key, TOKEN, now))
    {
      TakenLevel(Sized(), buckets, key, TOKEN, now, key);
      WaitIsLeast(Sized(), buckets, key, TOKEN, now, 0);
      clock := now;
      var tokens := TokensOf(key, now);
      if tokens < TOKEN {
        buckets := buckets[key := Bucket(tokens, now)];
        wait := WaitFor(tokens);
        return;
      }
      buckets := buckets[key := Bucket(tokens - TOKEN, now)];
      return 0;
    }

    /** Gives a token back. */
    method Refund(key: Key)
      requires Valid()
      modifies this
      ensures Valid() && clock == old(clock) && buckets == old(Refunded(Sized(), buckets, key))
    {
      RefundedLevel(Sized(), buckets, key, clock, key);
      if key in buckets {
        buckets := buckets[key := buckets[key].(tokens := Min(rate.capacity, buckets[key].tokens + TOKEN))];
      }
    }

    method Sweep(now: int)
      requires Valid() && clock <= now
      modifies this
      ensures Valid() && clock == now && buckets == old(Swept(Sized(), buckets, now))
    {
      SweptLevel(Sized(), buckets, now, "");
      buckets := KeepUnfilled(rate, buckets, now);
      clock := now;
    }
  }

  /** A limit of so many a minute: a bucket holds that many, and an empty one is full after a minute. */
  lemma MinuteFillsBucket(limit: real)
    ensures PerMinute(limit).capacity == limit && Flow(PerMinute(limit), 60_000) == limit
  {
    FlowIsProduct(PerMinute(limit), 60_000);
    assert 60_000.0 * (limit / 60_000.0) == limit;
  }

  lemma RefusalChangesNothing(z: Sizes, m: Table, key: Key, now: int)
    requires AllFlowing(z) && Settled(z, m, now)
    ensures Level(z, m, key, now) < TOKEN ==> SameLevels(z, Taken(z, m, key, TOKEN, now), m, now)
  {
    forall k ensures Level(z, m, key, now) < TOKEN ==>
      Level(z, Taken(z, m, key, TOKEN, now), k, now) == Level(z, m, k, now) {
      TakenLevel(z, m, key, TOKEN, now, k);
    }
  }

  lemma RefundUndoes(z: Sizes, m: Table, key: Key, now: int)
    requires AllFlowing(z) && Settled(z, m, now)
    ensures Level(z, m, key, now) >= TOKEN
        ==> SameLevels(z, Refunded(z, Taken(z, m, key, TOKEN, now), key), m, now)
  {
    var taken := Taken(z, m, key, TOKEN, now);
    TakenLevel(z, m, key, TOKEN, now, key);
    forall k ensures Level(z, m, key, now) >= TOKEN ==>
      Level(z, Refunded(z, taken, key), k, now) == Level(z, m, k, now) {
      LevelLater(z, m, k, now, now);
      TakenLevel(z, m, key, TOKEN, now, k);
      RefundedLevel(z, taken, key, now, k);
    }
  }
}
