/**
 * The demo seller's limits: token buckets that remember only the keys used last, and a second bucket for all
 * clients together, which bounds what gets through whatever is forgotten.
 */
module SellerLimits {
  import opened RateLimiters
  import opened Reals
  import opened TokenBuckets

  // --------------------------------------------------------------------------- least recently used

  /** The keys in order without `key`. */
  function Without(order: seq<Key>, key: Key): (rest: seq<Key>)
    ensures key !in rest && (forall k | k in rest :: k in order) && (forall k | k in order && k != key :: k in rest)
  {
    if order == [] then [] else (if order[0] == key then [] else [order[0]]) + Without(order[1..], key)
  }

  /** The distinct keys of some uses, in order of last use. */
  function LastUses(uses: seq<Key>): (order: seq<Key>)
    decreases |uses|
  {
    if uses == [] then [] else
    var last := uses[|uses| - 1];
    Without(LastUses(uses[..|uses| - 1]), last) + [last]
  }

  /** At most the last `max` of them. */
  function Newest(order: seq<Key>, max: nat): (newest: seq<Key>)
    ensures |newest| <= max
  {
    if |order| <= max then order else order[|order| - max..]
  }

  ghost predicate Distinct(order: seq<Key>) {
    order == [] || (order[0] !in order[1..] && Distinct(order[1..]))
  }

  lemma {:induction false} DistinctParts(a: seq<Key>, b: seq<Key>)
    ensures Distinct(a + b) <==> Distinct(a) && Distinct(b) && forall k | k in a :: k !in b
  {
    if a == [] {
      assert a + b == b;
    } else {
      assert (a + b)[1..] == a[1..] + b;
      DistinctParts(a[1..], b);
      assert forall k :: k in a <==> k == a[0] || k in a[1..];
    }
  }

  lemma {:induction false} WithoutIsDistinct(order: seq<Key>, key: Key)
    requires Distinct(order)
    ensures Distinct(Without(order, key)) && |order| - 1 <= |Without(order, key)|
    ensures key !in order ==> Without(order, key) == order
  {
    if order != [] {
      WithoutIsDistinct(order[1..], key);
      if order[0] == key {
        assert Without(order, key) == Without(order[1..], key) == order[1..];
      } else {
        assert Without(order, key) == [order[0]] + Without(order[1..], key);
        DistinctParts([order[0]], Without(order[1..], key));
      }
    }
  }

  lemma WithoutFirst(head: Key, rest: seq<Key>, key: Key)
    ensures Without([head] + rest, key) == (if head == key then [] else [head]) + Without(rest, key)
  {
    assert ([head] + rest)[1..] == rest;
  }

  lemma {:induction false} WithoutConcat(a: seq<Key>, b: seq<Key>, key: Key)
    ensures Without(a + b, key) == Without(a, key) + Without(b, key)
  {
    if a == [] {
      assert a + b == b;
    } else {
      var head := if a[0] == key then [] else [a[0]];
      WithoutConcat(a[1..], b, key);
      assert a + b == [a[0]] + (a[1..] + b);
      WithoutFirst(a[0], a[1..] + b, key);
      assert head + (Without(a[1..], key) + Without(b, key)) == (head + Without(a[1..], key)) + Without(b, key);
    }
  }

  lemma {:induction false} LastUsesAreDistinct(uses: seq<Key>)
    ensures Distinct(LastUses(uses))
  {
    if uses != [] {
      var before, last := LastUses(uses[..|uses| - 1]), uses[|uses| - 1];
      LastUsesAreDistinct(uses[..|uses| - 1]);
      WithoutIsDistinct(before, last);
      DistinctParts(Without(before, last), [last]);
    }
  }

  /** Using a key moves it to the end, and past `max` keys the oldest one is dropped. */
  function Used(order: seq<Key>, key: Key, max: nat): seq<Key> {
    var moved := Without(order, key) + [key];
    if |moved| > max then moved[1..] else moved
  }

  lemma NewestOfLast(a: seq<Key>, b: seq<Key>, max: nat)
    requires a == [] || |b| >= max
    ensures Newest(a + b, max) == Newest(b, max)
  {
  }

  lemma UsedIsNewest(order: seq<Key>, key: Key, max: nat)
    requires |order| <= max
    ensures Used(order, key, max) == Newest(Without(order, key) + [key], max)
  {
    WithoutIsShorter(order, key);
  }

  lemma UsedOfNewest(dropped: seq<Key>, kept: seq<Key>, key: Key, max: nat)
    requires max > 0 && Distinct(kept) && |kept| <= max && (dropped == [] || |kept| == max)
    ensures Used(kept, key, max) == Newest(Without(dropped + kept, key) + [key], max)
  {
    UsedIsNewest(kept, key, max);
    WithoutIsDistinct(kept, key);
    WithoutConcat(dropped, kept, key);
    var moved := Without(kept, key) + [key];
    assert Without(dropped + kept, key) + [key] == Without(dropped, key) + moved;
    NewestOfLast(Without(dropped, key), moved, max);
  }

  /** Dropping one key at a time keeps just the keys used last. */
  lemma NewestUsed(uses: seq<Key>, key: Key, max: nat)
    requires max > 0
    ensures Used(Newest(LastUses(uses), max), key, max) == Newest(LastUses(uses + [key]), max)
  {
    var all := LastUses(uses);
    var kept := Newest(all, max);
    var dropped := all[..|all| - |kept|];
    assert all == dropped + kept;
    LastUsesAreDistinct(uses);
    DistinctParts(dropped, kept);
    UsedOfNewest(dropped, kept, key, max);
    assert (uses + [key])[..|uses|] == uses;
  }

  /** `order` lists the keys that have a bucket. */
  ghost predicate Lists(order: seq<Key>, m: Table) {
    forall k :: k in order <==> k in m
  }

  lemma UsedLists(order: seq<Key>, m: Table, key: Key, bucket: Bucket, max: nat)
    requires Lists(order, m) && Distinct(Without(order, key) + [key])
    ensures var (moved, next) := (Without(order, key) + [key], m[key := bucket]);
            Lists(Used(order, key, max), if |moved| > max then next - {moved[0]} else next)
  {
    var moved := Without(order, key) + [key];
    assert Lists(moved, m[key := bucket]);
    assert moved == [moved[0]] + moved[1..];
    DistinctParts([moved[0]], moved[1..]);
  }

  lemma {:induction false} WithoutIsShorter(order: seq<Key>, key: Key)
    ensures |Without(order, key)| <= |order|
  {
    if order != [] {
      WithoutIsShorter(order[1..], key);
    }
  }

  // -------------------------------------------------------------------------------------- buckets

  /** After taking from `uses`, only the keys used last have a bucket. */
  ghost predicate Ordered(m: Table, order: seq<Key>, uses: seq<Key>, max: nat) {
    max >= 1 && order == Newest(LastUses(uses), max) && Lists(order, m)
  }

  /** And no bucket is overdrawn. */
  ghost predicate Remembered(z: Sizes, m: Table, order: seq<Key>, uses: seq<Key>, max: nat, now: int) {
    Settled(z, m, now) && Ordered(m, order, uses, max)
  }

  /** A token is taken from a key's bucket, whether it holds one or not. */
  function Charged(z: Sizes, m: Table, key: Key, now: int): Table {
    m[key := Bucket(Level(z, m, key, now) - TOKEN, now)]
  }

  ghost predicate Part(m: Table, whole: Table) {
    forall k | k in m :: k in whole && m[k] == whole[k]
  }

  lemma PutIsOrdered(m: Table, order: seq<Key>, uses: seq<Key>, max: nat, key: Key, bucket: Bucket)
    requires Ordered(m, order, uses, max)
    ensures var put := m[key := bucket];
            var moved := Without(order, key) + [key];
            var next := if |moved| > max then put - {moved[0]} else put;
            Ordered(next, Used(order, key, max), uses + [key], max) && Part(next, put)
  {
    NewestUsed(uses, key, max);
    MovedIsDistinct(uses, key, max);
    UsedLists(order, m, key, bucket, max);
  }

  /** A key that holds a token is not overdrawn by giving it up. */
  lemma ChargedIsSettled(z: Sizes, m: Table, key: Key, now: int, next: Table)
    requires AllFlowing(z) && Settled(z, m, now) && Level(z, m, key, now) >= TOKEN
    requires Part(next, Charged(z, m, key, now))
    ensures Charged(z, m, key, now) == Taken(z, m, key, TOKEN, now) && Settled(z, next, now)
  {
    TakenLevel(z, m, key, TOKEN, now, key);
  }

  lemma {:induction false} DistinctSize(order: seq<Key>, keys: set<Key>)
    requires Distinct(order) && forall k :: k in order <==> k in keys
    ensures |order| == |keys|
  {
    if order != [] {
      var rest := order[1..];
      assert forall k :: k in order <==> k == order[0] || k in rest;
      DistinctSize(rest, keys - {order[0]});
    } else {
      assert keys == {};
    }
  }

  lemma AllFit(order: seq<Key>, m: Table, uses: seq<Key>, key: Key, max: nat)
    requires order == Newest(LastUses(uses), max) && Lists(order, m)
    ensures |Without(order, key) + [key]| == |m.Keys + {key}|
  {
    MovedIsDistinct(uses, key, max);
    DistinctSize(Without(order, key) + [key], m.Keys + {key});
  }

  lemma NewestIsDistinct(uses: seq<Key>, max: nat)
    ensures Distinct(Newest(LastUses(uses), max))
  {
    var all := LastUses(uses);
    var kept := Newest(all, max);
    assert all == all[..|all| - |kept|] + kept;
    LastUsesAreDistinct(uses);
    DistinctParts(all[..|all| - |kept|], kept);
  }

  lemma MovedOf(order: seq<Key>, key: Key)
    requires Distinct(order)
    ensures Distinct(Without(order, key) + [key])
  {
    WithoutIsDistinct(order, key);
    DistinctParts(Without(order, key), [key]);
  }

  lemma MovedIsDistinct(uses: seq<Key>, key: Key, max: nat)
    ensures Distinct(Without(Newest(LastUses(uses), max), key) + [key])
  {
    NewestIsDistinct(uses, max);
    MovedOf(Newest(LastUses(uses), max), key);
  }

  class Buckets {
    const perMinute: int
    const max: nat
    var buckets: Table
    /** The keys in order of last use. */
    var order: seq<Key>
    ghost var clock: int
    /** Every key taken from so far. */
    ghost var uses: seq<Key>

    ghost function Sized(): Sizes {
      Sizes(PerMinute(perMinute as real), map[])
    }

    ghost predicate Valid()
      reads this
    {
      perMinute >= 1 && AllFlowing(Sized()) && Remembered(Sized(), buckets, order, uses, max, clock)
    }

    constructor (perMinute: int, max: nat, now: int)
      requires perMinute >= 1 && max >= 1
      ensures Valid() && buckets == map[] && uses == [] && clock == now
      ensures this.perMinute == perMinute && this.max == max
    {
      this.perMinute, this.max, buckets, order, clock, uses := perMinute, max, map[], [], now, [];
      new;
      assert perMinute as real / 60_000.0 > 0.0;
    }

    function Tokens(key: Key, now: int): (tokens: real)
      reads this
      ensures tokens == Level(Sized(), buckets, key, now)
    {
      var rate := PerMinute(perMinute as real);
      if key in buckets
      then Min(rate.capacity, buckets[key].tokens + Flow(rate, now - buckets[key].at))
      else rate.capacity
    }

    /** Whole seconds until a key holds a token. */
    method Wait(key: Key, now: int) returns (wait: int)
      requires Valid() && clock <= now
      ensures wait == TokenBuckets.Wait(PerMinute(perMinute as real), Level(Sized(), buckets, key, now), TOKEN) >= 0
      ensures wait == 0 <==> Level(Sized(), buckets, key, now) >= TOKEN
    {
      var missing := TOKEN - Tokens(key, now);
      WaitIsLeast(Sized(), buckets, key, TOKEN, now, 0);
      if missing <= 0.0 {
        return 0;
      }
      SameQuotient(missing, perMinute as real);
      var seconds := Ceil(missing * 60.0 / perMinute as real);
      wait := if seconds < 1 then 1 else seconds;
    }

    /** Makes `key` the one used last, with a new bucket; past `max` keys, the one used longest ago goes. */
    method Use(key: Key, bucket: Bucket)
      requires Ordered(buckets, order, uses, max)
      modifies this
      ensures Ordered(buckets, order, uses, max) && clock == old(clock) && uses == old(uses) + [key]
      ensures Part(buckets, old(buckets)[key := bucket])
      ensures max >= |old(buckets.Keys) + {key}| ==> buckets == old(buckets)[key := bucket]
    {
      PutIsOrdered(buckets, order, uses, max, key, bucket);
      AllFit(order, buckets, uses, key, max);
      var moved, next := Without(order, key) + [key], buckets[key := bucket];
      if |moved| > max {
        next, moved := next - {moved[0]}, moved[1..];
      }
      buckets, order, uses := next, moved, uses + [key];
    }

    /**
     * Takes a token, which is up to the caller to have seen there: a key without one is overdrawn. Past `max`
     * keys, the one used longest ago is forgotten.
     */
    method Take(key: Key, now: int)
      requires perMinute >= 1 && Ordered(buckets, order, uses, max)
      modifies this
      ensures Ordered(buckets, order, uses, max) && clock == now && uses == old(uses) + [key]
      ensures Part(buckets, old(Charged(Sized(), buckets, key, now)))
      ensures max >= |old(buckets.Keys) + {key}| ==> buckets == old(Charged(Sized(), buckets, key, now))
      ensures old(Valid() && clock <= now && Level(Sized(), buckets, key, now) >= TOKEN) ==> Valid()
    {
      ghost var m := buckets;
      ghost var held := Valid() && clock <= now && Level(Sized(), buckets, key, now) >= TOKEN;
      var bucket := Bucket(Tokens(key, now) - TOKEN, now);
      assert m[key := bucket] == Charged(Sized(), m, key, now);
      Use(key, bucket);
      clock := now;
      if held {
        ChargedIsSettled(Sized(), m, key, now, buckets);
      }
    }
  }

  lemma SameQuotient(missing: real, perMinute: real)
    requires perMinute > 0.0
    ensures missing * 60.0 / perMinute == missing / (perMinute / 60_000.0) / 1000.0
  {
    var r := perMinute / 60_000.0;
    var q := missing / r;
    assert missing == q * r;
    assert missing * 60.0 == q / 1000.0 * perMinute;
  }

  // ------------------------------------------------------------------------------------ admission

  /** The key under which all payments count together. */
  const ALL: Key := "*"

  /** Clients held in memory. */
  const MAX_CLIENTS := 10_000

  /** The shared bucket after admissions at some times. */
  ghost function After(z: Sizes, times: seq<int>): Table
    decreases |times|
  {
    if times == [] then map[] else
    Taken(z, After(z, times[..|times| - 1]), ALL, TOKEN, times[|times| - 1])
  }

  /** Each of the admissions found a token, and none was before another that came first. */
  ghost predicate Granted(z: Sizes, times: seq<int>)
    decreases |times|
  {
    times == [] || (
      var before, last := times[..|times| - 1], times[|times| - 1];
      Granted(z, before) && Level(z, After(z, before), ALL, last) >= TOKEN
          && (before != [] ==> before[|before| - 1] <= last))
  }

  lemma GrantedNext(z: Sizes, times: seq<int>, now: int)
    requires Granted(z, times) && Level(z, After(z, times), ALL, now) >= TOKEN
    requires times != [] ==> times[|times| - 1] <= now
    ensures Granted(z, times + [now]) && After(z, times + [now]) == Taken(z, After(z, times), ALL, TOKEN, now)
  {
    assert (times + [now])[..|times|] == times;
  }

  lemma {:induction false} AfterIsSettled(z: Sizes, times: seq<int>)
    requires AllFlowing(z) && Granted(z, times) && times != []
    ensures Settled(z, After(z, times), times[|times| - 1])
  {
    var before, last := times[..|times| - 1], times[|times| - 1];
    if before != [] {
      AfterIsSettled(z, before);
      SettledLater(z, After(z, before), before[|before| - 1], last);
    }
    TakenLevel(z, After(z, before), ALL, TOKEN, last, ALL);
  }

  /** An admission leaves one token less. */
  lemma AdmissionTakes(z: Sizes, times: seq<int>)
    requires AllFlowing(z) && Granted(z, times) && times != []
    ensures var n := |times| - 1;
            && Level(z, After(z, times), ALL, times[n]) == Level(z, After(z, times[..n]), ALL, times[n]) - TOKEN
            && TOKEN <= Level(z, After(z, times[..n]), ALL, times[n]) <= RateOf(z, ALL).capacity
  {
    var n := |times| - 1;
    var before, last := times[..n], times[n];
    if before != [] {
      AfterIsSettled(z, before);
      SettledLater(z, After(z, before), before[n - 1], last);
    }
    TakenLevel(z, After(z, before), ALL, TOKEN, last, ALL);
    LevelLater(z, After(z, before), ALL, last, last);
  }

  lemma LevelAfterAdmission(z: Sizes, times: seq<int>)
    requires AllFlowing(z) && Granted(z, times) && times != []
    ensures var n := |times| - 1;
            && 0.0 <= Level(z, After(z, times), ALL, times[n]) <= RateOf(z, ALL).capacity - TOKEN
            && Flow(RateOf(z, ALL), times[n] - times[n]) == 0.0
    ensures |times| > 1 ==>
      var n := |times| - 1;
      Level(z, After(z, times), ALL, times[n]) + TOKEN
        <= Level(z, After(z, times[..n]), ALL, times[n - 1]) + Flow(RateOf(z, ALL), times[n] - times[n - 1])
  {
    var n := |times| - 1;
    AdmissionTakes(z, times);
    if n > 0 {
      AfterIsSettled(z, times[..n]);
      LevelLater(z, After(z, times[..n]), ALL, times[n - 1], times[n]);
    }
  }

  /**
   * Between any two admissions, those and all between them are no more than the shared bucket holds and what
   * flowed in meanwhile: whichever clients they came from, and whichever of those were forgotten.
   */
  lemma {:induction false} AdmissionsAreBounded(z: Sizes, times: seq<int>, i: nat)
    requires AllFlowing(z) && Granted(z, times) && i < |times|
    ensures times[i] <= times[|times| - 1]
    ensures (|times| - i) as real + Level(z, After(z, times), ALL, times[|times| - 1])
         <= RateOf(z, ALL).capacity + Flow(RateOf(z, ALL), times[|times| - 1] - times[i])
    ensures (|times| - i) as real <= RateOf(z, ALL).capacity + Flow(RateOf(z, ALL), times[|times| - 1] - times[i])
    decreases |times|
  {
    var n := |times| - 1;
    LevelAfterAdmission(z, times);
    if i < n {
      AdmissionsAreBounded(z, times[..n], i);
      Flows(RateOf(z, ALL), times[i], times[n - 1], times[n]);
    }
  }

  class PaidRequestLimits {
    const clients: Buckets
    const all: Buckets
    /** When a payment was admitted. */
    ghost var admitted: seq<int>

    ghost predicate Valid()
      reads this, clients, all
    {
      && clients != all && clients.Valid() && all.Valid() && all.buckets.Keys <= {ALL}
      && all.buckets == After(all.Sized(), admitted) && Granted(all.Sized(), admitted)
      && (admitted != [] ==> admitted[|admitted| - 1] <= all.clock)
    }

    constructor (perClient: int, global: int, now: int)
      requires perClient >= 1 && global >= 1
      ensures Valid() && fresh(clients) && fresh(all) && admitted == []
      ensures all.perMinute == global && clients.perMinute == perClient && clients.max == MAX_CLIENTS
    {
      clients := new Buckets(perClient, MAX_CLIENTS, now);
      all := new Buckets(global, 1, now);
      admitted := [];
    }

    /** Takes a token out of the client's limit and one out of the shared limit, as both hold one. */
    method ChargeBoth(client: Key, now: int)
      requires Valid() && clients.clock <= now && all.clock <= now
      requires Level(clients.Sized(), clients.buckets, client, now) >= TOKEN
      requires Level(all.Sized(), all.buckets, ALL, now) >= TOKEN
      modifies this, clients, all
      ensures Valid() && admitted == old(admitted) + [now] && clients.uses == old(clients.uses) + [client]
      ensures Part(clients.buckets, old(Taken(clients.Sized(), clients.buckets, client, TOKEN, now)))
    {
      ChargedIsSettled(clients.Sized(), clients.buckets, client, now, map[]);
      clients.Take(client, now);
      ChargeAll(now);
      admitted := admitted + [now];
    }

    /** The shared limit's part. */
    method ChargeAll(now: int)
      requires all.Valid() && all.buckets.Keys <= {ALL} && all.clock <= now
      requires all.buckets == After(all.Sized(), admitted) && Granted(all.Sized(), admitted)
      requires admitted != [] ==> admitted[|admitted| - 1] <= all.clock
      requires Level(all.Sized(), all.buckets, ALL, now) >= TOKEN
      modifies all
      ensures all.Valid() && all.buckets.Keys <= {ALL} && all.clock == now
      ensures all.buckets == After(all.Sized(), admitted + [now]) && Granted(all.Sized(), admitted + [now])
    {
      GrantedNext(all.Sized(), admitted, now);
      ChargedIsSettled(all.Sized(), all.buckets, ALL, now, map[]);
      assert all.buckets.Keys + {ALL} == {ALL};
      all.Take(ALL, now);
    }

    /** Takes one payment out of the client's limit and the shared one. Returns 0, or the seconds until it could. */
    method Admit(client: Key, now: int) returns (wait: int)
      requires Valid() && clients.clock <= now && all.clock <= now
      modifies this, clients, all
      ensures Valid()
      ensures wait == old(Answer(client, now)) >= 0
      ensures wait == 0 <==>
                old(Level(clients.Sized(), clients.buckets, client, now) >= TOKEN)
                && old(Level(all.Sized(), all.buckets, ALL, now) >= TOKEN)
      ensures wait > 0 ==>
                admitted == old(admitted) && clients.buckets == old(clients.buckets) && all.buckets == old(all.buckets)
      ensures wait == 0 ==> admitted == old(admitted) + [now] && clients.uses == old(clients.uses) + [client]
      ensures wait == 0 ==> Part(clients.buckets, old(Taken(clients.Sized(), clients.buckets, client, TOKEN, now)))
    {
      var own := clients.Wait(client, now);
      var shared := all.Wait(ALL, now);
      wait := if own < shared then shared else own;
      if wait > 0 {
        return;
      }
      ChargeBoth(client, now);
    }

    ghost function Answer(client: Key, now: int): int
      requires Valid()
      reads this, clients, all
    {
      var own := TokenBuckets.Wait(PerMinute(clients.perMinute as real),
                                   Level(clients.Sized(), clients.buckets, client, now), TOKEN);
      var shared := TokenBuckets.Wait(PerMinute(all.perMinute as real), Level(all.Sized(), all.buckets, ALL, now),
                                      TOKEN);
      if own < shared then shared else own
    }

    /** The answer is the least whole number of seconds after which both limits hold a token, so that it is admitted. */
    lemma AnswerIsLeast(client: Key, now: int, seconds: nat)
      requires Valid() && clients.clock <= now && all.clock <= now
      ensures Answer(client, now) <= seconds
         <==> Level(clients.Sized(), clients.buckets, client, now + 1000 * seconds) >= TOKEN
              && Level(all.Sized(), all.buckets, ALL, now + 1000 * seconds) >= TOKEN
    {
      WaitIsLeast(clients.Sized(), clients.buckets, client, TOKEN, now, seconds);
      WaitIsLeast(all.Sized(), all.buckets, ALL, TOKEN, now, seconds);
    }
  }
}
