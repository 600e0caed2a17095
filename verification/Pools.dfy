/** Pools every client shares, and the most of one that a network may hold. */
module Pools {
  /** The one key of a pool. */
  const GLOBAL := "*"

  const FAIR_SHARE_DIVISOR := 8

  /**
   * A network's share of a pool: an eighth of it, or what one client may take when that is more, but no more
   * than the pool and never nothing.
   */
  function FairShare(pool: int, perClient: int): (share: int)
    ensures 1 <= share && (pool >= 1 ==> share <= pool)
    ensures pool >= perClient >= 1 ==> share >= perClient
    ensures pool >= FAIR_SHARE_DIVISOR ==> share >= pool / FAIR_SHARE_DIVISOR
    ensures share <= 1 || share <= perClient || share <= pool / FAIR_SHARE_DIVISOR
  {
    var eighth := pool / FAIR_SHARE_DIVISOR;
    var least := if perClient < eighth then eighth else perClient;
    var most := if pool < least then pool else least;
    if most < 1 then 1 else most
  }

  /** A pool divides among networks: unless one client may take more, no eight networks take more than the pool. */
  lemma EightNetworksFit(pool: int, perClient: int)
    requires pool >= FAIR_SHARE_DIVISOR && perClient <= pool / FAIR_SHARE_DIVISOR
    ensures FAIR_SHARE_DIVISOR * FairShare(pool, perClient) <= pool
  {
  }
}
