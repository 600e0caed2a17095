/** Slots in flight under keys: each key's count is the number of its slots not yet given back. */
module Gates {
  import opened Options
  import opened Pools

  type Key = string

  /** A slot, named when it is taken; what its holder calls to give it back. */
  type Slot = nat

  /** The slots a key holds. */
  ghost function HeldBy(open: map<Slot, Key>, key: Key): set<Slot> {
    set slot | slot in open && open[slot] == key
  }

  function CountOf(counts: map<Key, nat>, key: Key): nat {
    if key in counts then counts[key] else 0
  }

  /** The counts of some keys added up. */
  ghost function Total(counts: map<Key, nat>, keys: set<Key>): nat {
    if keys == {} then 0 else
    var key :| key in keys;
    CountOf(counts, key) + Total(counts, keys - {key})
  }

  /** Every key's count is the number of its slots, and no key without one is kept. */
  ghost predicate Counted(counts: map<Key, nat>, open: map<Slot, Key>) {
    && (forall key :: CountOf(counts, key) == |HeldBy(open, key)|)
    && (forall key | key in counts :: counts[key] > 0)
  }

  ghost function HeldByAny(open: map<Slot, Key>, keys: set<Key>): set<Slot> {
    set slot | slot in open && open[slot] in keys
  }

  lemma OneMoreKey(open: map<Slot, Key>, keys: set<Key>, key: Key)
    requires key in keys
    ensures |HeldByAny(open, keys)| == |HeldBy(open, key)| + |HeldByAny(open, keys - {key})|
  {
    var one, others := HeldBy(open, key), HeldByAny(open, keys - {key});
    assert HeldByAny(open, keys) == one + others && one !! others;
  }

  lemma {:induction false} TotalIsSlots(counts: map<Key, nat>, open: map<Slot, Key>, keys: set<Key>)
    requires Counted(counts, open)
    ensures Total(counts, keys) == |HeldByAny(open, keys)|
    decreases |keys|
  {
    if keys == {} {
      assert HeldByAny(open, keys) == {};
    } else {
      var key :| key in keys && Total(counts, keys) == CountOf(counts, key) + Total(counts, keys - {key});
      TotalIsSlots(counts, open, keys - {key});
      OneMoreKey(open, keys, key);
    }
  }

  lemma AllHeld(counts: map<Key, nat>, open: map<Slot, Key>, keys: set<Key>)
    requires Counted(counts, open) && counts.Keys <= keys
    ensures |HeldByAny(open, keys)| == |open|
  {
    forall slot | slot in open ensures open[slot] in counts {
      assert slot in HeldBy(open, open[slot]);
      assert CountOf(counts, open[slot]) == |HeldBy(open, open[slot])|;
    }
    assert HeldByAny(open, keys) == open.Keys;
  }

  /** All the counts together are all the slots. */
  lemma AllCounted(counts: map<Key, nat>, open: map<Slot, Key>)
    requires Counted(counts, open)
    ensures Total(counts, counts.Keys) == |open|
  {
    TotalIsSlots(counts, open, counts.Keys);
    AllHeld(counts, open, counts.Keys);
  }

  lemma FewerFit(count: nat, share: nat)
    requires count <= FAIR_SHARE_DIVISOR
    ensures count * share <= FAIR_SHARE_DIVISOR * share
  {
    assert (FAIR_SHARE_DIVISOR - count) * share >= 0;
  }

  lemma OneMoreShare(total: nat, count: nat, keys: nat, most: nat)
    requires keys > 0 && count <= most && total <= (keys - 1) * most
    ensures count + total <= keys * most
  {
  }

  /** Keys that hold at most so much each hold at most that many times it together. */
  lemma {:induction false} TotalIsBounded(counts: map<Key, nat>, keys: set<Key>, most: nat)
    requires forall key :: CountOf(counts, key) <= most
    ensures Total(counts, keys) <= |keys| * most
    decreases |keys|
  {
    if keys != {} {
      var key :| key in keys && Total(counts, keys) == CountOf(counts, key) + Total(counts, keys - {key});
      TotalIsBounded(counts, keys - {key}, most);
      OneMoreShare(Total(counts, keys - {key}), CountOf(counts, key), |keys|, most);
    }
  }

  /** And less, when one of them holds less. */
  lemma TotalIsLess(counts: map<Key, nat>, keys: set<Key>, most: nat, key: Key)
    requires (forall k :: CountOf(counts, k) <= most) && key in keys && CountOf(counts, key) < most
    ensures Total(counts, keys) < |keys| * most
  {
    var rest := keys - {key};
    TotalIsBounded(counts, rest, most);
    TotalWithout(counts, keys, key);
    OneMoreShare(Total(counts, rest), CountOf(counts, key) + 1, |keys|, most);
  }

  /** The order of adding up does not matter. */
  lemma {:induction false} TotalWithout(counts: map<Key, nat>, keys: set<Key>, key: Key)
    requires key in keys
    ensures Total(counts, keys) == CountOf(counts, key) + Total(counts, keys - {key})
    decreases |keys|
  {
    var first :| first in keys && Total(counts, keys) == CountOf(counts, first) + Total(counts, keys - {first});
    if first != key {
      TotalWithout(counts, keys - {first}, key);
      TotalWithout(counts, keys - {key}, first);
      assert keys - {first} - {key} == keys - {key} - {first};
    }
  }

  function Entered(counts: map<Key, nat>, key: Key): map<Key, nat> {
    counts[key := CountOf(counts, key) + 1]
  }

  function Left(counts: map<Key, nat>, key: Key): map<Key, nat> {
    var held := if key in counts then counts[key] else 1;
    if held <= 1 then counts - {key} else counts[key := held - 1]
  }

  lemma HeldAfterEnter(open: map<Slot, Key>, slot: Slot, key: Key, k: Key)
    requires slot !in open
    ensures |HeldBy(open[slot := key], k)| == |HeldBy(open, k)| + if k == key then 1 else 0
  {
    assert HeldBy(open[slot := key], k) == HeldBy(open, k) + if k == key then {slot} else {};
  }

  lemma EnteredCounts(counts: map<Key, nat>, open: map<Slot, Key>, slot: Slot, key: Key)
    requires Counted(counts, open) && slot !in open
    ensures Counted(Entered(counts, key), open[slot := key])
  {
    forall k ensures CountOf(Entered(counts, key), k) == |HeldBy(open[slot := key], k)| {
      HeldAfterEnter(open, slot, key, k);
      assert CountOf(counts, k) == |HeldBy(open, k)|;
    }
  }

  lemma LeftCounts(counts: map<Key, nat>, open: map<Slot, Key>, slot: Slot)
    requires Counted(counts, open) && slot in open
    ensures Counted(Left(counts, open[slot]), open - {slot})
  {
    var key := open[slot];
    assert slot in HeldBy(open, key) && CountOf(counts, key) == |HeldBy(open, key)|;
    forall k ensures CountOf(Left(counts, key), k) == |HeldBy(open - {slot}, k)| {
      assert HeldBy(open - {slot}, k) == HeldBy(open, k) - if k == key then {slot} else {};
      assert CountOf(counts, k) == |HeldBy(open, k)|;
    }
  }

  /** Counts work in flight under keys, up to a limit for each. */
  class Gate {
    const limit: int
    var counts: map<Key, nat>
    /** The slots not given back, with their keys. */
    var open: map<Slot, Key>
    var next: Slot

    ghost predicate Valid()
      reads this
    {
      && Counted(counts, open)
      && (forall key | key in counts :: counts[key] <= limit)
      && (forall slot | slot in open :: slot < next)
    }

    constructor (limit: int)
      ensures Valid() && this.limit == limit && open == map[] && next == 0
    {
      this.limit, counts, open, next := limit, map[], map[], 0;
      new;
      forall key ensures HeldBy(map[], key) == {} {}
    }

    /** Takes a slot, unless the key is full. */
    method Enter(key: Key) returns (slot: Option<Slot>)
      requires Valid()
      modifies this
      ensures Valid()
      ensures slot.None? <==> |old(HeldBy(open, key))| >= limit
      ensures slot.None? ==> open == old(open) && next == old(next)
      ensures slot.Some? ==> slot.value == old(next) && next == old(next) + 1 && open == old(open)[slot.value := key]
    {
      var count := if key in counts then counts[key] else 0;
      assert CountOf(counts, key) == |HeldBy(open, key)|;
      if count >= limit {
        return None;
      }
      EnteredCounts(counts, open, next, key);
      counts := counts[key := count + 1];
      open := open[next := key];
      next := next + 1;
      return Some(next - 1);
    }

    /** Gives a slot back. Doing so again changes nothing. */
    method Release(slot: Slot)
      requires Valid()
      modifies this
      ensures Valid() && next == old(next) && open == old(open) - {slot}
    {
      if slot !in open {
        return;
      }
      LeftCounts(counts, open, slot);
      var key := open[slot];
      var left := (if key in counts then counts[key] else 1) - 1;
      counts := if left <= 0 then counts - {key} else counts[key := left];
      open := open - {slot};
    }

    function InFlight(key: Key): (count: nat)
      requires Valid()
      reads this
      ensures count == |HeldBy(open, key)|
    {
      assert CountOf(counts, key) == |HeldBy(open, key)|;
      if key in counts then counts[key] else 0
    }
  }

  /** The slots of the pool taken with some slots of the networks. */
  ghost function Images(pairs: map<Slot, Slot>, own: set<Slot>): set<Slot> {
    set slot | slot in own && slot in pairs :: pairs[slot]
  }

  ghost predicate Injective(pairs: map<Slot, Slot>) {
    forall slot, other | slot in pairs && other in pairs && pairs[slot] == pairs[other] :: slot == other
  }

  /** The open slots of the pool are those taken with the open slots of the networks, one each. */
  ghost predicate Paired(pairs: map<Slot, Slot>, own: set<Slot>, all: map<Slot, Key>) {
    && own <= pairs.Keys && Injective(pairs)
    && all.Keys == Images(pairs, own)
    && forall slot | slot in all :: all[slot] == GLOBAL
  }

  /** Slots are numbered in the order they are taken. */
  ghost predicate Numbered(pairs: map<Slot, Slot>, next: Slot, poolNext: Slot) {
    forall slot {:trigger pairs[slot]} | slot in pairs :: slot < next && pairs[slot] < poolNext
  }

  lemma PairedAfterEnter(pairs: map<Slot, Slot>, own: set<Slot>, all: map<Slot, Key>, mine: Slot, slot: Slot)
    requires Paired(pairs, own, all) && Numbered(pairs, mine, slot)
    ensures Paired(pairs[mine := slot], own + {mine}, all[slot := GLOBAL])
    ensures Numbered(pairs[mine := slot], mine + 1, slot + 1)
  {
    assert mine in own + {mine} && pairs[mine := slot][mine] == slot;
    assert Images(pairs[mine := slot], own + {mine}) == Images(pairs, own) + {slot};
  }

  lemma Undone(open: map<Slot, Key>, slot: Slot, key: Key)
    requires slot !in open
    ensures open[slot := key] - {slot} == open
  {
  }

  lemma PairedAfterRelease(pairs: map<Slot, Slot>, own: set<Slot>, all: map<Slot, Key>, mine: Slot)
    requires Paired(pairs, own, all) && mine in pairs
    ensures Paired(pairs, own - {mine}, all - {pairs[mine]})
  {
    assert Images(pairs, own - {mine}) == Images(pairs, own) - {pairs[mine]};
  }

  lemma {:induction false} ImagesCount(pairs: map<Slot, Slot>, own: set<Slot>)
    requires own <= pairs.Keys && Injective(pairs)
    ensures |Images(pairs, own)| == |own|
  {
    if slot :| slot in own {
      ImagesCount(pairs, own - {slot});
      assert Images(pairs, own) == Images(pairs, own - {slot}) + {pairs[slot]};
    } else {
      assert Images(pairs, own) == {};
    }
  }

  /** Slots every client shares, of which each network holds at most its share. */
  class SharedGate {
    const pool: Gate
    const network: Gate
    /** For each slot of a network, the slot of the pool taken with it. */
    var pairs: map<Slot, Slot>

    ghost predicate Valid()
      reads this, pool, network
    {
      && pool != network && pool.Valid() && network.Valid() && Paired(pairs, network.open.Keys, pool.open)
      && Numbered(pairs, network.next, pool.next)
    }

    constructor (limit: int, perClient: int)
      ensures Valid() && fresh(pool) && fresh(network) && network.open == map[]
      ensures pool.limit == limit && network.limit == FairShare(limit, perClient)
    {
      pool := new Gate(limit);
      network := new Gate(FairShare(limit, perClient));
      pairs := map[];
    }

    /** Takes a slot of the network and one of the pool, or neither. */
    method Enter(client: Key) returns (slot: Option<Slot>)
      requires Valid()
      modifies this, pool, network
      ensures Valid()
      ensures slot.None? <==> |old(HeldBy(network.open, client))| >= network.limit || |old(network.open)| >= pool.limit
      ensures slot.None? ==> network.open == old(network.open)
      ensures slot.Some? ==> slot.value !in old(network.open) && network.open == old(network.open)[slot.value := client]
    {
      PoolHoldsAll();
      ghost var before, shared := network.open, pool.open;
      PairedAfterEnter(pairs, before.Keys, shared, network.next, pool.next);
      var own := network.Enter(client);
      if own.None? {
        return None;
      }
      var all := pool.Enter(GLOBAL);
      if all.None? {
        Undone(before, own.value, client);
        network.Release(own.value);
        return None;
      }
      assert network.open.Keys == before.Keys + {own.value};
      pairs := pairs[own.value := all.value];
      return own;
    }

    /** Gives a slot back, in the pool and the network. Doing so again changes nothing. */
    method Release(slot: Slot)
      requires Valid() && slot in pairs
      modifies this, pool, network
      ensures Valid() && pairs == old(pairs) && network.open == old(network.open) - {slot}
    {
      PairedAfterRelease(pairs, network.open.Keys, pool.open, slot);
      pool.Release(pairs[slot]);
      network.Release(slot);
    }

    /** The slots in flight are those of all networks together, each within its share, and no more than the pool. */
    lemma InFlightIsSum()
      requires Valid()
      ensures pool.InFlight(GLOBAL) == |network.open| == Total(network.counts, network.counts.Keys)
      ensures pool.InFlight(GLOBAL) > 0 ==> pool.InFlight(GLOBAL) <= pool.limit
      ensures forall key | key in network.counts :: network.counts[key] <= network.limit
    {
      PoolHoldsAll();
      AllCounted(network.counts, network.open);
      assert CountOf(pool.counts, GLOBAL) == |HeldBy(pool.open, GLOBAL)|;
    }

    /** A network below its share finds the pool open, while the shares of all networks that hold slots fit in it. */
    lemma SharesThatFitLeaveRoom(client: Key)
      requires Valid() && |HeldBy(network.open, client)| < network.limit
      requires |network.counts.Keys + {client}| * network.limit <= pool.limit
      ensures |network.open| < pool.limit
    {
      var keys := network.counts.Keys + {client};
      forall key ensures CountOf(network.counts, key) <= network.limit {
        assert key in network.counts ==> network.counts[key] <= network.limit;
      }
      assert CountOf(network.counts, client) == |HeldBy(network.open, client)|;
      TotalIsLess(network.counts, keys, network.limit, client);
      TotalIsSlots(network.counts, network.open, keys);
      AllHeld(network.counts, network.open, keys);
    }

    /**
     * So no seven networks can keep an eighth from its share: with the fair share of the pool, and unless one
     * client alone may take more than an eighth, `Enter` then gives a slot to each network below its share.
     */
    lemma EightNetworksShare(client: Key, perClient: int)
      requires Valid() && network.limit == FairShare(pool.limit, perClient)
      requires pool.limit >= FAIR_SHARE_DIVISOR && perClient <= pool.limit / FAIR_SHARE_DIVISOR
      requires |HeldBy(network.open, client)| < network.limit
      requires |network.counts.Keys + {client}| <= FAIR_SHARE_DIVISOR
      ensures |network.open| < pool.limit
    {
      var count := |network.counts.Keys + {client}|;
      EightNetworksFit(pool.limit, perClient);
      FewerFit(count, network.limit);
      SharesThatFitLeaveRoom(client);
    }

    lemma PoolHoldsAll()
      requires Valid()
      ensures |HeldBy(pool.open, GLOBAL)| == |network.open|
    {
      ImagesCount(pairs, network.open.Keys);
      assert HeldBy(pool.open, GLOBAL) == pool.open.Keys;
    }
  }
}
