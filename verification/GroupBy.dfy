/**
 * A table derived from another by GROUP BY: `keysOf` names the groups a source row belongs to and `agg`
 * aggregates the rows of one group. `Refreshed` is the incremental form (delete the touched keys, insert
 * them again from the source rows); the lemmas say when it leaves the table a full group-by.
 */
module GroupBy {
  import opened Tables

  /** A row of a derived table. */
  datatype Derived<K, V> = Derived(key: K, value: V)

  /** The keys of the groups that have a row. */
  function Keys<H, R, K>(rows: map<H, R>, keysOf: R -> set<K>): set<K> {
    set h, k | h in rows && k in keysOf(rows[h]) :: k
  }

  /** The source rows of group `k`. */
  function Group<H, R, K(==)>(rows: map<H, R>, keysOf: R -> set<K>, k: K): (group: map<H, R>)
    ensures group.Keys == set h | h in rows && k in keysOf(rows[h])
    ensures forall h | h in group :: group[h] == rows[h]
  {
    Keep(rows, set h | h in rows && k in keysOf(rows[h]))
  }

  /** The whole derived table, computed from every row. */
  function Full<H, R, K(==), V(==)>(rows: map<H, R>, keysOf: R -> set<K>, agg: map<H, R> -> V): set<Derived<K, V>> {
    set k | k in Keys(rows, keysOf) :: Derived(k, agg(Group(rows, keysOf, k)))
  }

  /** The rows of a table a DELETE of the touched keys leaves. */
  function Untouched<K(==), V(==)>(table: set<Derived<K, V>>, touched: K -> bool): set<Derived<K, V>> {
    set r | r in table && !touched(r.key)
  }

  /** The touched groups, as an INSERT ... SELECT ... GROUP BY adds them. */
  function Regrouped<H, R, K(==), V(==)>(rows: map<H, R>, keysOf: R -> set<K>, agg: map<H, R> -> V, touched: K -> bool):
    set<Derived<K, V>>
  {
    set k | k in Keys(rows, keysOf) && touched(k) :: Derived(k, agg(Group(rows, keysOf, k)))
  }

  lemma RegroupedHolds<H, R, K, V>(rows: map<H, R>, keysOf: R -> set<K>, agg: map<H, R> -> V, touched: K -> bool, k: K)
    requires k in Keys(rows, keysOf) && touched(k)
    ensures Derived(k, agg(Group(rows, keysOf, k))) in Regrouped(rows, keysOf, agg, touched)
  {}

  /** DELETE the touched keys, then INSERT their groups as the rows are now. */
  function Refreshed<H, R, K(==), V(==)>(table: set<Derived<K, V>>, rows: map<H, R>, keysOf: R -> set<K>,
                                         agg: map<H, R> -> V,
                                         touched: K -> bool): set<Derived<K, V>>
  {
    Untouched(table, touched) + Regrouped(rows, keysOf, agg, touched)
  }

  /** No key twice: the table's primary key. */
  ghost predicate KeysUnique<K, V>(table: set<Derived<K, V>>) {
    forall r, s | r in table && s in table && r.key == s.key :: r == s
  }

  /** The one row a full group-by has for a key, if any. */
  ghost predicate RowExact<H, R, K, V>(r: Derived<K, V>, rows: map<H, R>, keysOf: R -> set<K>, agg: map<H, R> -> V) {
    r.key in Keys(rows, keysOf) && r.value == agg(Group(rows, keysOf, r.key))
  }

  /** For the keys in `on`, the table has exactly the rows a full group-by gives. */
  ghost predicate Agrees<H, R, K(!new), V(!new)>(table: set<Derived<K, V>>, rows: map<H, R>, keysOf: R -> set<K>,
                                                 agg: map<H, R> -> V, on: K -> bool)
  {
    forall r: Derived<K, V> | on(r.key) :: r in table <==> RowExact(r, rows, keysOf, agg)
  }

  lemma AgreesEverywhereIsFull<H, R, K(!new), V(!new)>(table: set<Derived<K, V>>, rows: map<H, R>, keysOf: R -> set<K>,
                                                       agg: map<H, R> -> V, on: K -> bool)
    requires Agrees(table, rows, keysOf, agg, on)
    requires forall k :: on(k)
    ensures table == Full(rows, keysOf, agg)
  {
    forall r ensures r in table <==> r in Full(rows, keysOf, agg) {
      assert on(r.key);
    }
  }

  lemma FullAgrees<H, R, K(!new), V(!new)>(rows: map<H, R>, keysOf: R -> set<K>, agg: map<H, R> -> V, on: K -> bool)
    ensures Agrees(Full(rows, keysOf, agg), rows, keysOf, agg, on)
    ensures KeysUnique(Full(rows, keysOf, agg))
  {}

  /** An insert of the touched groups never meets a key that is still there. */
  lemma RefreshInsertsNoDuplicate<H, R, K(!new), V(!new)>(table: set<Derived<K, V>>, rows: map<H, R>,
                                                          keysOf: R -> set<K>,
                                                          agg: map<H, R> -> V, touched: K -> bool)
    requires KeysUnique(table)
    ensures KeysUnique(Refreshed(table, rows, keysOf, agg, touched))
  {}

  /** A refresh extends agreement to the touched keys. */
  lemma RefreshExtendsAgreement<H, R, K(!new), V(!new)>(table: set<Derived<K, V>>, rows: map<H, R>, keysOf: R -> set<K>,
                                                        agg: map<H, R> -> V, touched: K -> bool, on: K -> bool,
                                                        goal: K -> bool)
    requires Agrees(table, rows, keysOf, agg, on)
    requires forall k | goal(k) :: on(k) || touched(k)
    ensures Agrees(Refreshed(table, rows, keysOf, agg, touched), rows, keysOf, agg, goal)
  {
    var after := Refreshed(table, rows, keysOf, agg, touched);
    forall r: Derived<K, V> | goal(r.key) ensures r in after <==> RowExact(r, rows, keysOf, agg) {
      if !touched(r.key) {
        assert on(r.key);
      }
    }
  }

  /**
   * A row change that leaves the groups of the keys in `on` with the aggregate they had leaves the full
   * table exact on those keys.
   */
  lemma SameAggregatesAgree<H, R, K(!new), V(!new)>(before: map<H, R>, after: map<H, R>, keysOf: R -> set<K>,
                                                    agg: map<H, R> -> V, on: K -> bool)
    requires forall k | on(k) :: Group(before, keysOf, k).Keys == Group(after, keysOf, k).Keys
    requires forall k | on(k) :: agg(Group(before, keysOf, k)) == agg(Group(after, keysOf, k))
    ensures Agrees(Full(before, keysOf, agg), after, keysOf, agg, on)
  {
    forall k | on(k) ensures k in Keys(before, keysOf) <==> k in Keys(after, keysOf) {
      KeyHasRows(before, keysOf, k);
      KeyHasRows(after, keysOf, k);
    }
  }

  /** A group whose rows do not change, whatever changes beside it. */
  lemma GroupKept<H, R, K>(before: map<H, R>, after: map<H, R>, keysOf: R -> set<K>, k: K)
    requires before.Keys == after.Keys
    requires forall h | h in before && before[h] != after[h] :: k !in keysOf(before[h]) && k !in keysOf(after[h])
    ensures Group(before, keysOf, k) == Group(after, keysOf, k)
  {
    assert (set h | h in before && k in keysOf(before[h])) == set h | h in after && k in keysOf(after[h]);
  }

  lemma KeyHasRows<H, R, K>(rows: map<H, R>, keysOf: R -> set<K>, k: K)
    ensures k in Keys(rows, keysOf) <==> Group(rows, keysOf, k).Keys != {}
  {
    if k in Keys(rows, keysOf) {
      var h :| h in rows && k in keysOf(rows[h]);
      assert h in Group(rows, keysOf, k);
    }
    if h :| h in Group(rows, keysOf, k) {
      assert k in Keys(rows, keysOf);
    }
  }
}
