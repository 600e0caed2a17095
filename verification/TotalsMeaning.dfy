/**
 * What the rows of the three derived tables say, each in terms of the settlements alone: which of them a row is
 * about, and what it tells of those.
 */
module TotalsMeaning {
  import opened Conservation
  import opened GroupBy
  import opened Settlements
  import opened Tables
  import opened Totals

  /** The amounts of some settlements: each counts once. */
  lemma VolumeIs(rows: map<Hash, Row>)
    ensures rows == map[] ==> Volume(rows) == 0
    ensures forall h | h in rows :: Volume(rows) == rows[h].facts.amount + Volume(rows - {h})
  {
    forall h | h in rows { VolumeWithout(rows, h); }
  }

  /** The days of a table row and of a settlement agree when the settlement closed between its midnights. */
  lemma DayIs(at: nat, day: nat)
    ensures Day(at) == day <==> day * DAY_MS <= at < (day + 1) * DAY_MS
  {
  }

  // ------------------------------------------------------------------------------------ daily totals

  /** The settlements a daily row is about. */
  ghost predicate InDay(row: Row, k: DayKey) {
    && k.day * DAY_MS <= row.facts.closedAt < (k.day + 1) * DAY_MS
    && row.attribution.tier == k.tier && row.facts.scheme == k.scheme && row.facts.asset == k.asset
    && (k.selfPayment <==> row.facts.payer == row.facts.payTo)
    && (if row.attribution.facilitator.None? then k.facilitator == ""
        else row.attribution.facilitator.value == k.facilitator)
  }

  ghost function OfDay(rows: map<Hash, Row>, k: DayKey): set<Hash> {
    set h | h in rows && InDay(rows[h], k)
  }

  lemma DayKeyIs(row: Row, k: DayKey)
    ensures k in DayKeys(row) <==> InDay(row, k)
  {
    DayIs(row.facts.closedAt, k.day);
  }

  /** A daily row counts the payments of its day, tier, facilitator, scheme, asset and kind, and adds them up. */
  lemma DailyRowsSay(rows: map<Hash, Row>, r: Derived<DayKey, DayTotal>)
    ensures r in Daily(rows) <==>
              var of := OfDay(rows, r.key);
              of != {} && r.value.payments == |of| && r.value.volume == Volume(Keep(rows, of))
  {
    var of := OfDay(rows, r.key);
    forall h | h in rows ensures r.key in DayKeys(rows[h]) <==> InDay(rows[h], r.key) {
      DayKeyIs(rows[h], r.key);
    }
    InFull(rows, DayKeys, DayAggregate, r);
    KeyHasRows(rows, DayKeys, r.key);
    assert Group(rows, DayKeys, r.key).Keys == of;
    assert Group(rows, DayKeys, r.key) == Keep(rows, of) && |Keep(rows, of)| == |Keep(rows, of).Keys|;
  }

  // ---------------------------------------------------------------------------------- account totals

  /** The settlements an account row is about: those its address paid, or was paid, in its asset. */
  ghost function OfAccount(rows: map<Hash, Row>, k: AccountKey): set<Hash> {
    set h | h in rows && rows[h].facts.asset == k.asset
            && k.address == if k.role.Payer? then rows[h].facts.payer else rows[h].facts.payTo
  }

  lemma AccountGroup(rows: map<Hash, Row>, k: AccountKey)
    ensures Group(rows, AccountKeys, k) == Keep(rows, OfAccount(rows, k))
    ensures k in Keys(rows, AccountKeys) <==> OfAccount(rows, k) != {}
  {
    KeyHasRows(rows, AccountKeys, k);
    assert Group(rows, AccountKeys, k).Keys == OfAccount(rows, k);
  }

  /** The first and the last of some payments were made then, and all the others between. */
  ghost predicate Between(rows: map<Hash, Row>, of: set<Hash>, first: nat, last: nat)
    requires of <= rows.Keys
  {
    && (forall h | h in of :: first <= rows[h].facts.closedAt <= last)
    && (exists h :: h in of && rows[h].facts.closedAt == first)
    && (exists h :: h in of && rows[h].facts.closedAt == last)
  }

  lemma BetweenIsUnique(rows: map<Hash, Row>, of: set<Hash>, a: nat, b: nat, c: nat, d: nat)
    requires of <= rows.Keys && Between(rows, of, a, b) && Between(rows, of, c, d)
    ensures a == c && b == d
  {
  }

  lemma TimesAreBetween(rows: map<Hash, Row>, of: set<Hash>)
    requires of <= rows.Keys && of != {}
    ensures var t := AccountAggregate(Keep(rows, of)); Between(rows, of, t.firstAt, t.lastAt)
  {
    var part := Keep(rows, of);
    var h :| h in of;
    assert part[h].facts.closedAt in Times(part);
    var first, last := Least(Times(part)), Greatest(Times(part));
    var a :| a in part && part[a].facts.closedAt == first;
    var b :| b in part && part[b].facts.closedAt == last;
    forall g | g in of ensures first <= rows[g].facts.closedAt <= last {
      assert part[g].facts.closedAt in Times(part);
    }
  }

  /**
   * An account row counts and adds up the payments its address made, or was made, in its asset, says when the
   * first and the last of them were, and whether one of them was in a verified asset.
   */
  ghost predicate AccountSays(rows: map<Hash, Row>, of: set<Hash>, t: AccountTotal)
    requires of <= rows.Keys
  {
    && t.payments == |of| && t.volume == Volume(Keep(rows, of)) && Between(rows, of, t.firstAt, t.lastAt)
    && (t.assetVerified <==> exists h :: h in of && rows[h].facts.assetVerified)
  }

  lemma AggregateSays(rows: map<Hash, Row>, of: set<Hash>, t: AccountTotal)
    requires of <= rows.Keys && of != {}
    ensures t == AccountAggregate(Keep(rows, of)) <==> AccountSays(rows, of, t)
  {
    var part, own := Keep(rows, of), AccountAggregate(Keep(rows, of));
    assert |part| == |part.Keys|;
    TimesAreBetween(rows, of);
    if AccountSays(rows, of, t) {
      BetweenIsUnique(rows, of, own.firstAt, own.lastAt, t.firstAt, t.lastAt);
    }
  }

  lemma AccountRowsSay(rows: map<Hash, Row>, r: Derived<AccountKey, AccountTotal>)
    ensures r in Accounts(rows) <==>
              var of := OfAccount(rows, r.key); of != {} && AccountSays(rows, of, r.value)
  {
    InFull(rows, AccountKeys, AccountAggregate, r);
    AccountGroup(rows, r.key);
    if OfAccount(rows, r.key) != {} {
      AggregateSays(rows, OfAccount(rows, r.key), r.value);
    }
  }

  // -------------------------------------------------------------------------------- seller summaries

  ghost function OfSeller(rows: map<Hash, Row>, seller: Address): set<Hash> {
    set h | h in rows && rows[h].facts.payTo == seller
  }

  /** A seller's summary counts its payments of each scheme, and its payers, each payer once. */
  lemma SellerRowsSay(rows: map<Hash, Row>, r: Derived<Address, SellerSummary>)
    ensures r in Sellers(rows) <==>
              var of := OfSeller(rows, r.key);
              && of != {}
              && r.value.exact == |set h | h in of && rows[h].facts.scheme == Exact|
              && r.value.upto == |set h | h in of && rows[h].facts.scheme == Upto|
              && r.value.payers == |set h | h in of :: rows[h].facts.payer|
  {
    var of := OfSeller(rows, r.key);
    var group := Group(rows, SellerKeys, r.key);
    InFull(rows, SellerKeys, SellerAggregate, r);
    KeyHasRows(rows, SellerKeys, r.key);
    assert group.Keys == of;
    assert OfScheme(group, Exact) == set h | h in of && rows[h].facts.scheme == Exact;
    assert OfScheme(group, Upto) == set h | h in of && rows[h].facts.scheme == Upto;
    assert PayersOf(group) == set h | h in of :: rows[h].facts.payer;
  }
}
