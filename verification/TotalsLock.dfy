/**
 * What a transaction that changes settlements must refresh of a table derived from them: when a refresh of
 * some keys turns the totals of the committed rows into those of what the transaction sees. The daily totals,
 * the account totals and the seller summaries are three instances, and the reason they need a lock.
 */
module TotalsLock {
  import opened GroupBy
  import opened Options
  import opened Settlements
  import opened Totals

  /**
   * A derived table, and which row changes it cannot tell apart: a row replaced by an alike one needs no
   * refresh.
   */
  datatype Derivation<!K, !V> = Derivation(keysOf: Row -> set<K>, agg: map<Hash, Row> -> V, alike: (Row, Row) -> bool)

  ghost predicate Respects<K, V>(d: Derivation<K, V>) {
    (forall r, s | d.alike(r, s) :: d.keysOf(r) == d.keysOf(s)) &&
    (forall m: map<Hash, Row>, n: map<Hash, Row> | Similar(d, m, n) :: d.agg(m) == d.agg(n))
  }

  ghost predicate Similar<K, V>(d: Derivation<K, V>, m: map<Hash, Row>, n: map<Hash, Row>) {
    m.Keys == n.Keys && forall h | h in m :: m[h] == n[h] || d.alike(m[h], n[h])
  }

  /**
   * A transaction as one table knows it: the committed rows it replaces or removes as they were, the rows it
   * puts, the keys it refreshes, and the totals it deleted and inserted.
   */
  datatype Transaction<!K(==), V(==)> = Transaction(was: map<Hash, Row>, puts: map<Hash, Row>, touched: K -> bool,
                                                    deleted: set<Derived<K, V>>, inserted: set<Derived<K, V>>)

  /** The hashes a transaction writes. */
  function Writes<K(==), V(==)>(t: Transaction<K, V>): set<Hash> {
    t.was.Keys + t.puts.Keys
  }

  /** The rows a transaction sees once others committed `rows`. */
  function Sees<K(==), V(==)>(rows: map<Hash, Row>, t: Transaction<K, V>): map<Hash, Row> {
    (rows - t.was.Keys) + t.puts
  }

  /** Every key whose group the transaction's rows change is one it refreshes. */
  ghost predicate Covers<K, V>(d: Derivation<K, V>, t: Transaction<K, V>) {
    (forall h | h in t.puts :: (h in t.was && d.alike(t.was[h], t.puts[h])) || Refreshes(d, t, t.puts[h])) &&
    (forall h | h in t.was :: (h in t.puts && d.alike(t.was[h], t.puts[h])) || Refreshes(d, t, t.was[h]))
  }

  ghost predicate Refreshes<K, V>(d: Derivation<K, V>, t: Transaction<K, V>, row: Row) {
    forall k | k in d.keysOf(row) :: t.touched(k)
  }

  /** What a transaction in flight relies on: nobody changes the rows it writes. */
  ghost predicate Reserved<K, V>(rows: map<Hash, Row>, t: Transaction<K, V>) {
    forall h | h in Writes(t) :: (h in t.was <==> h in rows) && (h in t.was ==> t.was[h] == rows[h])
  }

  /** A refresh of the covered keys turns the totals of the committed rows into those of what the transaction sees. */
  lemma CommitRefreshes<K(!new), V(!new)>(d: Derivation<K, V>, rows: map<Hash, Row>, t: Transaction<K, V>)
    requires Respects(d) && Covers(d, t) && Reserved(rows, t)
    ensures Untouched(Full(rows, d.keysOf, d.agg), t.touched) + Regrouped(Sees(rows, t), d.keysOf, d.agg, t.touched) ==
            Full(Sees(rows, t), d.keysOf, d.agg)
  {
    var after, off := Sees(rows, t), (k: K) => !t.touched(k);
    forall k | off(k)
      ensures Group(rows, d.keysOf, k).Keys == Group(after, d.keysOf, k).Keys
      ensures d.agg(Group(rows, d.keysOf, k)) == d.agg(Group(after, d.keysOf, k))
    {
      UntouchedGroup(d, rows, t, k);
    }
    SameAggregatesAgree(rows, after, d.keysOf, d.agg, off);
    RefreshExtendsAgreement(Full(rows, d.keysOf, d.agg), after, d.keysOf, d.agg, t.touched, off, k => true);
    AgreesEverywhereIsFull(Refreshed(Full(rows, d.keysOf, d.agg), after, d.keysOf, d.agg, t.touched), after, d.keysOf,
                           d.agg, k => true);
  }

  lemma UntouchedGroup<K(!new), V(!new)>(d: Derivation<K, V>, rows: map<Hash, Row>, t: Transaction<K, V>, k: K)
    requires Respects(d) && Covers(d, t) && Reserved(rows, t) && !t.touched(k)
    ensures Group(rows, d.keysOf, k).Keys == Group(Sees(rows, t), d.keysOf, k).Keys
    ensures d.agg(Group(rows, d.keysOf, k)) == d.agg(Group(Sees(rows, t), d.keysOf, k))
  {
    var after := Sees(rows, t);
    forall h ensures h in Group(rows, d.keysOf, k) <==> h in Group(after, d.keysOf, k) {
      if h in t.was { assert rows[h] == t.was[h]; }
    }
    assert Similar(d, Group(rows, d.keysOf, k), Group(after, d.keysOf, k)) by {
      forall h | h in Group(rows, d.keysOf, k) ensures rows[h] == after[h] || d.alike(rows[h], after[h]) {
        if h in t.was { assert rows[h] == t.was[h]; }
      }
    }
  }

  // -------------------------------------------------------------------------------- the three tables

  const DAILY := Derivation(DayKeys, DayAggregate, (r: Row, s: Row) => false)
  const ACCOUNTS := Derivation(AccountKeys, AccountAggregate, (r: Row, s: Row) => r.facts == s.facts)
  const SELLERS := Derivation(SellerKeys, SellerAggregate, (r: Row, s: Row) => r.facts == s.facts)

  lemma TablesRespectRows()
    ensures Respects(DAILY) && Respects(ACCOUNTS) && Respects(SELLERS)
  {
    DailyRespectsRows();
    AccountsRespectRows();
    SellersRespectRows();
  }

  lemma DailyRespectsRows()
    ensures Respects(DAILY)
  {
    forall m: map<Hash, Row>, n: map<Hash, Row> | Similar(DAILY, m, n) ensures m == n {}
  }

  lemma AccountsRespectRows()
    ensures Respects(ACCOUNTS)
  {
    forall m: map<Hash, Row>, n: map<Hash, Row> | Similar(ACCOUNTS, m, n)
      ensures AccountAggregate(m) == AccountAggregate(n)
    {
      assert SameFacts(m, n);
      SameFactsSameAggregates(m, n);
    }
  }

  lemma SellersRespectRows()
    ensures Respects(SELLERS)
  {
    forall m: map<Hash, Row>, n: map<Hash, Row> | Similar(SELLERS, m, n)
      ensures SellerAggregate(m) == SellerAggregate(n)
    {
      assert SameFacts(m, n);
      SameFactsSameAggregates(m, n);
    }
  }

  lemma RowNamed(rows: map<Hash, Row>, h: Hash)
    requires h in rows
    ensures Day(rows[h].facts.closedAt) in DaysOf(rows)
    ensures rows[h].facts.payer in PayersOf(rows) && rows[h].facts.payTo in PayeesOf(rows)
  {
  }

  /** A row whose day, payer and seller a transaction refreshes. */
  lemma NamedIsRefreshed(t: Transaction<DayKey, DayTotal>, u: Transaction<AccountKey, AccountTotal>,
                         v: Transaction<Address, SellerSummary>, row: Row)
    ensures t.touched(DayKeyOf(row)) ==> Refreshes(DAILY, t, row)
    ensures u.touched(PayerKey(row)) && u.touched(PayToKey(row)) ==> Refreshes(ACCOUNTS, u, row)
    ensures v.touched(row.facts.payTo) ==> Refreshes(SELLERS, v, row)
  {
  }

  /** The days, payers and sellers of the rows a transaction adds and removes cover its change of the three tables. */
  lemma RefreshedKeysCover(t: Transaction<DayKey, DayTotal>, u: Transaction<AccountKey, AccountTotal>,
                           v: Transaction<Address, SellerSummary>, was: map<Hash, Row>, puts: map<Hash, Row>)
    requires t.was == u.was == v.was == was && t.puts == u.puts == v.puts == puts
    ensures (forall k | OnDays(DaysOf(was) + DaysOf(puts), k) :: t.touched(k)) ==> Covers(DAILY, t)
    ensures (forall k | OnAccounts(PayersOf(was) + PayersOf(puts), PayeesOf(was) + PayeesOf(puts), k) ::
               u.touched(k)) ==>
              Covers(ACCOUNTS, u)
    ensures (forall k | k in PayeesOf(was) + PayeesOf(puts) :: v.touched(k)) ==> Covers(SELLERS, v)
  {
    forall h | h in puts ensures Named(t, u, v, was, puts, puts[h]) {
      RowNamed(puts, h);
      NamedIsRefreshed(t, u, v, puts[h]);
    }
    forall h | h in was ensures Named(t, u, v, was, puts, was[h]) {
      RowNamed(was, h);
      NamedIsRefreshed(t, u, v, was[h]);
    }
  }

  /** A row is refreshed in each table whose named keys are. */
  ghost predicate Named(t: Transaction<DayKey, DayTotal>, u: Transaction<AccountKey, AccountTotal>,
                        v: Transaction<Address, SellerSummary>, was: map<Hash, Row>, puts: map<Hash, Row>, row: Row)
  {
    && ((forall k | OnDays(DaysOf(was) + DaysOf(puts), k) :: t.touched(k)) ==> Refreshes(DAILY, t, row))
    && ((forall k | OnAccounts(PayersOf(was) + PayersOf(puts), PayeesOf(was) + PayeesOf(puts), k) :: u.touched(k)) ==>
          Refreshes(ACCOUNTS, u, row))
    && ((forall k | k in PayeesOf(was) + PayeesOf(puts) :: v.touched(k)) ==> Refreshes(SELLERS, v, row))
  }

  /** A re-attribution covers its change although it refreshes no account and no seller. */
  lemma ReattributionCovers(t: Transaction<AccountKey, AccountTotal>, u: Transaction<Address, SellerSummary>)
    requires SameFacts(t.was, t.puts) && SameFacts(u.was, u.puts)
    ensures Covers(ACCOUNTS, t) && Covers(SELLERS, u)
  {}

  // ------------------------------------------------------------------------------- the lock is needed

  const EXACT_ROW := Row(Facts(1, 5, 0, 0, Exact, "", "", "asset", true, "buyer", "seller", 3, None, "", "", ""), "1",
                         Attribution(Shaped, None, None, false))
  const UPTO_ROW := EXACT_ROW.(facts := EXACT_ROW.facts.(hash := 2, ledger := 6, scheme := Upto))

  function OneRow(h: Hash, row: Row): map<Hash, Row> {
    map[h := row]
  }

  /** What a transaction that took no lock would insert for its own new row. */
  ghost function Alone(h: Hash, row: Row): set<Derived<Address, SellerSummary>> {
    Regrouped<Hash, Row, Address, SellerSummary>(OneRow(h, row), SellerKeys, SellerAggregate, k => k == row.facts.payTo)
  }

  /**
   * Two commits that refresh one seller without the lock, each before the other has committed, delete
   * nothing and insert the same key: the table has it twice and is no group-by of the rows.
   */
  lemma WithoutLockKeysClash()
    ensures !KeysUnique(Alone(1, EXACT_ROW) + Alone(2, UPTO_ROW))
    ensures Alone(1, EXACT_ROW) + Alone(2, UPTO_ROW) != Sellers(OneRow(1, EXACT_ROW) + OneRow(2, UPTO_ROW))
  {
    var one, two := OneRow(1, EXACT_ROW), OneRow(2, UPTO_ROW);
    AloneHolds(1, EXACT_ROW);
    AloneHolds(2, UPTO_ROW);
    assert OfScheme(one, Exact) == {1} && OfScheme(two, Exact) == {};
    assert SellerAggregate(one).exact == 1 && SellerAggregate(two).exact == 0;
    FullAgrees(one + two, SellerKeys, SellerAggregate, k => true);
  }

  lemma AloneHolds(h: Hash, row: Row)
    ensures Derived(row.facts.payTo, SellerAggregate(OneRow(h, row))) in Alone(h, row)
  {
    var rows: map<Hash, Row>, seller := OneRow(h, row), row.facts.payTo;
    assert h in rows && seller in SellerKeys(rows[h]);
    assert Group<Hash, Row, Address>(rows, SellerKeys, seller) == rows;
    RegroupedHolds<Hash, Row, Address, SellerSummary>(rows, SellerKeys, SellerAggregate, k => k == seller, seller);
  }
}
