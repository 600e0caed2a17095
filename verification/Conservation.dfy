/**
 * The derived tables count every settlement once: the payments and volumes of the daily totals, of the
 * payers, of the sellers and of the seller summaries all add up to those of the settlements table.
 */
module Conservation {
  import opened GroupBy
  import opened Settlements
  import opened Tables
  import opened Totals

  /** The sum of a quantity over the rows of a derived table. */
  ghost function Sum<K(!new), V(!new)>(table: set<Derived<K, V>>, weight: V -> nat): nat {
    if table == {} then 0 else
    var r :| r in table;
    weight(r.value) + Sum(table - {r}, weight)
  }

  lemma {:induction false} SumWithout<K(!new), V(!new)>(table: set<Derived<K, V>>, weight: V -> nat, r: Derived<K, V>)
    requires r in table
    ensures Sum(table, weight) == weight(r.value) + Sum(table - {r}, weight)
    decreases |table|
  {
    var picked :| picked in table && Sum(table, weight) == weight(picked.value) + Sum(table - {picked}, weight);
    if picked != r {
      SumWithout(table - {picked}, weight, r);
      SumWithout(table - {r}, weight, picked);
      assert table - {picked} - {r} == table - {r} - {picked};
    }
  }

  /** A quantity of a set of rows that splits over disjoint parts. */
  ghost predicate Additive(measure: map<Hash, Row> -> nat) {
    measure(map[]) == 0 &&
    forall rows: map<Hash, Row>, part: set<Hash> :: measure(rows) == measure(Keep(rows, part)) + measure(rows - part)
  }

  /** When each row has one key, an additive quantity of the groups adds up to that of all rows. */
  lemma {:induction false} GroupsAddUp<K(!new), V(!new)>(rows: map<Hash, Row>, keysOf: Row -> set<K>,
                                                         agg: map<Hash, Row> -> V,
                                                         weight: V -> nat, measure: map<Hash, Row> -> nat)
    requires Additive(measure) && (forall r :: |keysOf(r)| == 1) && forall g :: weight(agg(g)) == measure(g)
    ensures Sum(Full(rows, keysOf, agg), weight) == measure(rows)
    decreases |rows|
  {
    if rows == map[] {
      assert Full(rows, keysOf, agg) == {};
    } else {
      var h :| h in rows;
      assert keysOf(rows[h]) != {};
      var k :| k in keysOf(rows[h]);
      var group := Group(rows, keysOf, k);
      var rest := rows - group.Keys;
      assert group == Keep(rows, group.Keys);
      assert h in group && h !in rest && rest.Keys < rows.Keys;
      FullWithoutGroup(rows, keysOf, agg, k);
      SumWithout(Full(rows, keysOf, agg), weight, Derived(k, agg(group)));
      Smaller(rest.Keys, rows.Keys);
      GroupsAddUp(rest, keysOf, agg, weight, measure);
    }
  }

  lemma Smaller<T>(a: set<T>, b: set<T>)
    requires a < b
    ensures |a| < |b|
  {
    assert b == a + (b - a);
  }

  /** Taking one group's rows away takes its row away and leaves the others. */
  lemma FullWithoutGroup<K(!new), V(!new)>(rows: map<Hash, Row>, keysOf: Row -> set<K>, agg: map<Hash, Row> -> V, k: K)
    requires k in Keys(rows, keysOf) && forall r :: |keysOf(r)| == 1
    ensures var group := Group(rows, keysOf, k);
      Derived(k, agg(group)) in Full(rows, keysOf, agg) &&
      Full(rows - group.Keys, keysOf, agg) == Full(rows, keysOf, agg) - {Derived(k, agg(group))}
  {
    var rest := rows - Group(rows, keysOf, k).Keys;
    forall j | j != k ensures Group(rest, keysOf, j) == Group(rows, keysOf, j) {
      forall h | h in rows && j in keysOf(rows[h]) ensures k !in keysOf(rows[h]) {
        OneElement(keysOf(rows[h]), j, k);
      }
      assert Group(rest, keysOf, j).Keys == Group(rows, keysOf, j).Keys;
    }
    forall j ensures j in Keys(rest, keysOf) <==> j in Keys(rows, keysOf) && j != k {
      KeyHasRows(rest, keysOf, j);
      KeyHasRows(rows, keysOf, j);
    }
  }

  lemma OneElement<K>(s: set<K>, j: K, k: K)
    requires |s| == 1 && j in s && j != k
    ensures k !in s
  {
    assert |s - {j}| == 0;
  }

  lemma CountIsAdditive()
    ensures Additive((rows: map<Hash, Row>) => |rows|)
  {
    forall rows: map<Hash, Row>, part: set<Hash> ensures |rows| == |Keep(rows, part)| + |rows - part| {
      assert rows.Keys == Keep(rows, part).Keys + (rows - part).Keys;
      assert |rows| == |rows.Keys| && |Keep(rows, part)| == |Keep(rows, part).Keys|
             && |rows - part| == |(rows - part).Keys|;
    }
  }

  lemma {:induction false} VolumeWithout(rows: map<Hash, Row>, h: Hash)
    requires h in rows
    ensures Volume(rows) == rows[h].facts.amount + Volume(rows - {h})
    decreases |rows|
  {
    assert rows.Keys != {};
    var least := Least(rows.Keys);
    if h != least {
      VolumeWithout(rows - {least}, h);
      VolumeWithout(rows - {h}, least);
      assert rows - {least} - {h} == rows - {h} - {least};
    }
  }

  lemma PartsWithout(rows: map<Hash, Row>, part: set<Hash>, h: Hash)
    requires h in rows
    ensures if h in part then Keep(rows, part) - {h} == Keep(rows - {h}, part) && rows - {h} - part == rows - part
            else rows - part - {h} == rows - {h} - part && Keep(rows - {h}, part) == Keep(rows, part)
  {}

  lemma {:induction false} VolumeSplits(rows: map<Hash, Row>, part: set<Hash>)
    ensures Volume(rows) == Volume(Keep(rows, part)) + Volume(rows - part)
    decreases rows.Keys
  {
    if rows.Keys == {} {
      assert rows == map[] && Keep(rows, part) == map[] && rows - part == map[];
    } else {
      var h :| h in rows.Keys;
      VolumeWithout(rows, h);
      VolumeSplits(rows - {h}, part);
      PartsWithout(rows, part, h);
      VolumeWithout(if h in part then Keep(rows, part) else rows - part, h);
    }
  }

  lemma VolumeIsAdditive()
    ensures Additive(Volume)
  {
    forall rows: map<Hash, Row>, part: set<Hash> { VolumeSplits(rows, part); }
  }

  /** The account rows of one side. */
  function Side(table: set<Derived<AccountKey, AccountTotal>>, role: Role): set<Derived<AccountKey, AccountTotal>> {
    set r | r in table && r.key.role == role
  }

  function SideKeys(role: Role): Row -> set<AccountKey> {
    (row: Row) => {if role.Payer? then PayerKey(row) else PayToKey(row)}
  }

  /** One side of the account totals is a group-by with one key per row. */
  lemma SideIsFull(rows: map<Hash, Row>, role: Role)
    ensures Side(Accounts(rows), role) == Full(rows, SideKeys(role), AccountAggregate)
  {
    forall r ensures r in Side(Accounts(rows), role) <==> r in Full(rows, SideKeys(role), AccountAggregate) {
      SideRow(rows, role, r);
    }
  }

  lemma SideRow(rows: map<Hash, Row>, role: Role, r: Derived<AccountKey, AccountTotal>)
    ensures r in Side(Accounts(rows), role) <==> r in Full(rows, SideKeys(role), AccountAggregate)
  {
    SideGroup(rows, role, r.key);
    InFull(rows, AccountKeys, AccountAggregate, r);
    InFull(rows, SideKeys(role), AccountAggregate, r);
  }

  lemma InFull<H, R, K, V>(rows: map<H, R>, keysOf: R -> set<K>, agg: map<H, R> -> V, r: Derived<K, V>)
    ensures r in Full(rows, keysOf, agg) <==> RowExact(r, rows, keysOf, agg)
  {
  }

  lemma SideGroup(rows: map<Hash, Row>, role: Role, k: AccountKey)
    ensures k.role == role ==> Group(rows, AccountKeys, k) == Group(rows, SideKeys(role), k)
    ensures k in Keys(rows, AccountKeys) && k.role == role <==> k in Keys(rows, SideKeys(role))
  {
    KeyHasRows(rows, AccountKeys, k);
    KeyHasRows(rows, SideKeys(role), k);
    if k.role == role {
      assert (set h | h in rows && k in AccountKeys(rows[h])) == set h | h in rows && k in SideKeys(role)(rows[h]);
    }
  }

  /** Every settlement is counted once by day, once by payer, once by seller and once in the seller summaries. */
  lemma PaymentsAreConserved(rows: map<Hash, Row>)
    ensures Sum(Daily(rows), (t: DayTotal) => t.payments) == |rows|
    ensures Sum(Side(Accounts(rows), Payer), (t: AccountTotal) => t.payments) == |rows|
    ensures Sum(Side(Accounts(rows), PayTo), (t: AccountTotal) => t.payments) == |rows|
    ensures Sum(Sellers(rows), (s: SellerSummary) => s.exact + s.upto) == |rows|
  {
    var count := (rows: map<Hash, Row>) => |rows|;
    CountIsAdditive();
    GroupsAddUp(rows, DayKeys, DayAggregate, (t: DayTotal) => t.payments, count);
    SideIsFull(rows, Payer);
    GroupsAddUp(rows, SideKeys(Payer), AccountAggregate, (t: AccountTotal) => t.payments, count);
    SideIsFull(rows, PayTo);
    GroupsAddUp(rows, SideKeys(PayTo), AccountAggregate, (t: AccountTotal) => t.payments, count);
    forall g: map<Hash, Row> ensures SellerAggregate(g).exact + SellerAggregate(g).upto == |g| { SchemesSplit(g); }
    GroupsAddUp(rows, SellerKeys, SellerAggregate, (s: SellerSummary) => s.exact + s.upto, count);
  }

  lemma SchemesSplit(rows: map<Hash, Row>)
    ensures SellerAggregate(rows).exact + SellerAggregate(rows).upto == |rows|
  {
    assert rows.Keys == OfScheme(rows, Exact) + OfScheme(rows, Upto);
    assert |rows| == |rows.Keys|;
  }

  /** And every amount. */
  lemma VolumeIsConserved(rows: map<Hash, Row>)
    ensures Sum(Daily(rows), (t: DayTotal) => t.volume) == Volume(rows)
    ensures Sum(Side(Accounts(rows), Payer), (t: AccountTotal) => t.volume) == Volume(rows)
    ensures Sum(Side(Accounts(rows), PayTo), (t: AccountTotal) => t.volume) == Volume(rows)
  {
    VolumeIsAdditive();
    GroupsAddUp(rows, DayKeys, DayAggregate, (t: DayTotal) => t.volume, Volume);
    SideIsFull(rows, Payer);
    GroupsAddUp(rows, SideKeys(Payer), AccountAggregate, (t: AccountTotal) => t.volume, Volume);
    SideIsFull(rows, PayTo);
    GroupsAddUp(rows, SideKeys(PayTo), AccountAggregate, (t: AccountTotal) => t.volume, Volume);
  }
}
