/**
 * A rate all clients share, of which each network takes at most its fair share: what a take does, what it
 * answers, and when that answer is the time to come back.
 */
module SharedRates {
  import opened Pools
  import opened RateLimiters
  import opened TokenBuckets

  datatype Rates = Rates(network: Rate, pool: Rate)

  function RatesOf(perMinute: int, perClient: int): Rates {
    Rates(PerMinute(FairShare(perMinute, perClient) as real), PerMinute(perMinute as real))
  }

  /** The buckets of the networks, and the one of the pool. */
  datatype Shared = Shared(networks: Table, pool: Table)

  function Common(rate: Rate): Sizes {
    Sizes(rate, map[])
  }

  /** Rates of at least a token a minute, and buckets as they can be at a moment. */
  ghost predicate Sound(r: Rates, s: Shared, now: int) {
    && Flowing(r.network) && r.network.capacity >= TOKEN && Settled(Common(r.network), s.networks, now)
    && Flowing(r.pool) && r.pool.capacity >= TOKEN && Settled(Common(r.pool), s.pool, now)
  }

  function Own(r: Rates, s: Shared, client: Key, now: int): real {
    Level(Common(r.network), s.networks, client, now)
  }

  function All(r: Rates, s: Shared, now: int): real {
    Level(Common(r.pool), s.pool, GLOBAL, now)
  }

  function OwnWait(r: Rates, s: Shared, client: Key, now: int): int
    requires r.network.perMs > 0.0
  {
    Wait(r.network, Own(r, s, client, now), TOKEN)
  }

  function PoolWait(r: Rates, s: Shared, now: int): int
    requires r.pool.perMs > 0.0
  {
    Wait(r.pool, All(r, s, now), TOKEN)
  }

  /** The network's wait, or else the pool's. */
  function Answer(r: Rates, s: Shared, client: Key, now: int): int
    requires r.network.perMs > 0.0 && r.pool.perMs > 0.0
  {
    if OwnWait(r, s, client, now) > 0 then OwnWait(r, s, client, now) else PoolWait(r, s, now)
  }

  /**
   * A network that has no token is refused before the pool is asked; one that has takes it, and gets it back
   * when the pool refuses.
   */
  function SharedTaken(r: Rates, s: Shared, client: Key, now: int): Shared {
    var networks := Taken(Common(r.network), s.networks, client, TOKEN, now);
    if Own(r, s, client, now) < TOKEN then s.(networks := networks) else
    Shared(if All(r, s, now) >= TOKEN then networks else Refunded(Common(r.network), networks, client),
           Taken(Common(r.pool), s.pool, GLOBAL, TOKEN, now))
  }

  /** A token lies in both buckets. */
  ghost predicate Granted(r: Rates, s: Shared, client: Key, now: int) {
    Own(r, s, client, now) >= TOKEN && All(r, s, now) >= TOKEN
  }

  /** A client that takes again after `seconds`, when nobody else took meanwhile, succeeds. */
  ghost predicate Succeeds(r: Rates, s: Shared, client: Key, now: int, seconds: nat) {
    Granted(r, s, client, now + 1000 * seconds)
  }

  /** The answer is the least number of seconds after which the client's take succeeds. */
  ghost predicate AnswerIsLeast(r: Rates, s: Shared, client: Key, now: int)
    requires r.network.perMs > 0.0 && r.pool.perMs > 0.0
  {
    forall seconds: nat :: Succeeds(r, s, client, now, seconds) <==> Answer(r, s, client, now) <= seconds
  }

  ghost predicate SameShared(r: Rates, s: Shared, t: Shared, now: int) {
    SameLevels(Common(r.network), s.networks, t.networks, now) && SameLevels(Common(r.pool), s.pool, t.pool, now)
  }

  lemma TakeSettles(z: Sizes, m: Table, key: Key, now: int)
    requires AllFlowing(z) && Settled(z, m, now)
    ensures Settled(z, Taken(z, m, key, TOKEN, now), now)
    ensures Settled(z, Refunded(z, Taken(z, m, key, TOKEN, now), key), now)
  {
    TakenLevel(z, m, key, TOKEN, now, key);
    RefundedLevel(z, Taken(z, m, key, TOKEN, now), key, now, key);
  }

  lemma SharedTakenKeeps(r: Rates, s: Shared, client: Key, now: int)
    requires Sound(r, s, now)
    ensures Sound(r, SharedTaken(r, s, client, now), now)
  {
    TakeSettles(Common(r.network), s.networks, client, now);
    TakeSettles(Common(r.pool), s.pool, GLOBAL, now);
  }

  lemma AnswerIsZero(r: Rates, s: Shared, client: Key, now: int)
    requires Sound(r, s, now)
    ensures OwnWait(r, s, client, now) >= 0 && PoolWait(r, s, now) >= 0
    ensures Answer(r, s, client, now) == 0 <==> Granted(r, s, client, now)
  {
    WaitIsLeast(Common(r.network), s.networks, client, TOKEN, now, 0);
    WaitIsLeast(Common(r.pool), s.pool, GLOBAL, TOKEN, now, 0);
  }

  /** A take that is granted takes one token from the network's bucket and one from the pool's, and no other. */
  lemma GrantTakesBoth(r: Rates, s: Shared, client: Key, now: int)
    requires Sound(r, s, now) && Granted(r, s, client, now)
    ensures var after := SharedTaken(r, s, client, now);
            && Own(r, after, client, now) == Own(r, s, client, now) - 1.0
            && All(r, after, now) == All(r, s, now) - 1.0
            && forall other | other != client :: Own(r, after, other, now) == Own(r, s, other, now)
  {
    TakenLevel(Common(r.pool), s.pool, GLOBAL, TOKEN, now, GLOBAL);
    TakenLevel(Common(r.network), s.networks, client, TOKEN, now, client);
    forall other | other != client
      ensures Own(r, SharedTaken(r, s, client, now), other, now) == Own(r, s, other, now)
    {
      TakenLevel(Common(r.network), s.networks, client, TOKEN, now, other);
    }
  }

  /** Whoever refuses, no bucket's level has changed. */
  lemma RefusalIsInvisible(r: Rates, s: Shared, client: Key, now: int)
    requires Sound(r, s, now) && !Granted(r, s, client, now)
    ensures SameShared(r, SharedTaken(r, s, client, now), s, now)
  {
    RefusalChangesNothing(Common(r.network), s.networks, client, now);
    RefusalChangesNothing(Common(r.pool), s.pool, GLOBAL, now);
    RefundUndoes(Common(r.network), s.networks, client, now);
  }

  /** A client's take succeeds once both buckets have refilled: after the longer of the two waits. */
  lemma SucceedsExactly(r: Rates, s: Shared, client: Key, now: int, seconds: nat)
    requires Sound(r, s, now)
    ensures Succeeds(r, s, client, now, seconds)
       <==> OwnWait(r, s, client, now) <= seconds && PoolWait(r, s, now) <= seconds
  {
    WaitIsLeast(Common(r.network), s.networks, client, TOKEN, now, seconds);
    WaitIsLeast(Common(r.pool), s.pool, GLOBAL, TOKEN, now, seconds);
  }

  /**
   * The answer is the least number of seconds exactly if the network has a token, or its wait is no shorter
   * than the pool's: a network that waits for its own share is not told how long the pool needs.
   */
  lemma LeastExactly(r: Rates, s: Shared, client: Key, now: int)
    requires Sound(r, s, now)
    ensures AnswerIsLeast(r, s, client, now)
       <==> OwnWait(r, s, client, now) == 0 || PoolWait(r, s, now) <= OwnWait(r, s, client, now)
  {
    AnswerIsZero(r, s, client, now);
    forall seconds: nat
      ensures Succeeds(r, s, client, now, seconds)
         <==> OwnWait(r, s, client, now) <= seconds && PoolWait(r, s, now) <= seconds
    {
      SucceedsExactly(r, s, client, now, seconds);
    }
    var answer: nat := Answer(r, s, client, now);
    assert Succeeds(r, s, client, now, answer) <==> PoolWait(r, s, now) <= answer;
  }

  // ------------------------------------------------------------------------- an answer too short

  const LATER := 54_000

  /** Eight tokens a minute, of which a network takes one. */
  function Eight(): (r: Rates)
    ensures r == Rates(Rate(1.0, 1.0 / 60_000.0), Rate(8.0, 8.0 / 60_000.0))
  {
    RatesOf(8, 1)
  }

  /** Networks of different names. */
  function Named(i: nat): (key: Key)
    ensures |key| == i
  {
    seq(i, _ => 'n')
  }

  lemma NamedApart(i: nat, j: nat)
    ensures i != j ==> Named(i) != Named(j)
  {
  }

  /** Network 0 takes at the start, and networks 1 to `others` 54 seconds later. */
  ghost function Draining(others: nat): Shared {
    if others == 0 then SharedTaken(Eight(), Shared(map[], map[]), Named(0), 0)
    else SharedTaken(Eight(), Draining(others - 1), Named(others), LATER)
  }

  ghost predicate Drained(s: Shared, others: nat) {
    && Sound(Eight(), s, LATER)
    && Own(Eight(), s, Named(0), LATER) == 0.9
    && All(Eight(), s, LATER) == 8.0 - others as real
    && (forall i: nat | i > others :: Own(Eight(), s, Named(i), LATER) == 1.0)
  }

  lemma DrainedFirst()
    ensures Drained(Draining(0), 0)
  {
    var r, none, s := Eight(), Shared(map[], map[]), Draining(0);
    SharedTakenKeeps(r, none, Named(0), 0);
    SettledLater(Common(r.network), s.networks, 0, LATER);
    SettledLater(Common(r.pool), s.pool, 0, LATER);
    FlowIsProduct(r.network, LATER);
    FlowIsProduct(r.pool, LATER);
    assert s.networks == map[Named(0) := Bucket(0.0, 0)];
    assert s.pool == map[GLOBAL := Bucket(7.0, 0)];
    forall i: nat | i > 0 ensures Own(r, s, Named(i), LATER) == 1.0 {
      NamedApart(0, i);
    }
  }

  lemma DrainedNext(s: Shared, others: nat)
    requires Drained(s, others) && others < 8
    ensures Drained(SharedTaken(Eight(), s, Named(others + 1), LATER), others + 1)
  {
    var r, client := Eight(), Named(others + 1);
    SharedTakenKeeps(r, s, client, LATER);
    TakenLevel(Common(r.pool), s.pool, GLOBAL, TOKEN, LATER, GLOBAL);
    forall i: nat | i == 0 || i > others + 1
      ensures Own(r, SharedTaken(r, s, client, LATER), Named(i), LATER) == Own(r, s, Named(i), LATER)
    {
      NamedApart(i, others + 1);
      TakenLevel(Common(r.network), s.networks, client, TOKEN, LATER, Named(i));
    }
  }

  lemma {:induction false} DrainedAll(others: nat)
    requires others <= 8
    ensures Drained(Draining(others), others)
  {
    if others == 0 {
      DrainedFirst();
    } else {
      DrainedAll(others - 1);
      DrainedNext(Draining(others - 1), others - 1);
    }
  }

  /**
   * Nine networks take from eight tokens a minute, the first of them twice: it is told to come back in 6
   * seconds, comes back, and is refused again, for the pool needed 8.
   */
  lemma AnswerTooShort()
    ensures var r, s := Eight(), Draining(8);
            && Sound(r, s, LATER)
            && Answer(r, s, Named(0), LATER) == 6 && PoolWait(r, s, LATER) == 8
            && !Granted(r, SharedTaken(r, s, Named(0), LATER), Named(0), LATER + 6_000)
            && !AnswerIsLeast(r, s, Named(0), LATER)
  {
    DrainedAll(8);
    Waits(Draining(8));
    StillRefused(Draining(8));
    LeastExactly(Eight(), Draining(8), Named(0), LATER);
  }

  lemma StillRefused(s: Shared)
    requires Drained(s, 8)
    ensures !Granted(Eight(), SharedTaken(Eight(), s, Named(0), LATER), Named(0), LATER + 6_000)
  {
    var r, after := Eight(), SharedTaken(Eight(), s, Named(0), LATER);
    RefusalIsInvisible(r, s, Named(0), LATER);
    SharedTakenKeeps(r, s, Named(0), LATER);
    LevelLater(Common(r.pool), after.pool, GLOBAL, LATER, LATER + 6_000);
    FlowIsProduct(r.pool, 6_000);
    assert All(r, after, LATER) == 0.0;
  }

  lemma Waits(s: Shared)
    requires Drained(s, 8)
    ensures OwnWait(Eight(), s, Named(0), LATER) == 6 && PoolWait(Eight(), s, LATER) == 8
  {
    var own, all := 0.1 / (1.0 / 60_000.0) / 1000.0, 1.0 / (8.0 / 60_000.0) / 1000.0;
    assert own == 6.0 && all == 7.5;
  }

  /** The class: a limiter for the networks and one for the pool. */
  class SharedRate {
    const pool: RefundingLimiter
    const network: RefundingLimiter

    ghost predicate Valid()
      reads this, pool, network
    {
      pool != network && pool.Valid() && network.Valid()
    }

    ghost function Both(): Rates
      reads this, pool, network
    {
      Rates(network.rate, pool.rate)
    }

    ghost function Buckets(): Shared
      reads this, pool, network
    {
      Shared(network.buckets, pool.buckets)
    }

    constructor (perMinute: int, perClient: int, now: int)
      requires perMinute >= 1
      ensures Valid() && fresh(pool) && fresh(network)
      ensures Both() == RatesOf(perMinute, perClient) && Buckets() == Shared(map[], map[])
    {
      var share := FairShare(perMinute, perClient) as real;
      pool := new RefundingLimiter(perMinute as real, perMinute as real, now);
      network := new RefundingLimiter(share, share, now);
    }

    /** Takes a token from the network's share and from the pool, or from neither. */
    method Take(client: Key, now: int) returns (wait: int)
      requires Valid() && pool.clock <= now && network.clock <= now
      modifies pool, network
      ensures Valid() && Both() == old(Both())
      ensures old(Sound(Both(), Buckets(), now)) && Sound(Both(), Buckets(), now)
      ensures wait == old(Answer(Both(), Buckets(), client, now))
      ensures wait == 0 <==> old(Granted(Both(), Buckets(), client, now))
      ensures Buckets() == old(SharedTaken(Both(), Buckets(), client, now))
      ensures wait > 0 ==> SameShared(Both(), Buckets(), old(Buckets()), now)
    {
      ghost var r, s := Both(), Buckets();
      AnswerIsZero(r, s, client, now);
      SharedTakenKeeps(r, s, client, now);
      if !Granted(r, s, client, now) {
        RefusalIsInvisible(r, s, client, now);
      }
      var own := network.Take(client, now);
      if own > 0 {
        return own;
      }
      var all := pool.Take(GLOBAL, now);
      if all > 0 {
        network.Refund(client);
        return all;
      }
      return 0;
    }
  }
}
