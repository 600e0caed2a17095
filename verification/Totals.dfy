/**
 * The three tables derived from the settlements: daily totals, totals per account and asset, and seller
 * summaries, each as the GROUP BY the program computes it with, with the conservation laws that tie them together.
 */
module Totals {
  import opened GroupBy
  import opened Settlements

  datatype DayKey = DayKey(day: nat, tier: Tier, facilitator: string, scheme: Scheme, asset: string, selfPayment: bool)
  datatype DayTotal = DayTotal(payments: nat, volume: nat)

  datatype Role = Payer | PayTo
  datatype AccountKey = AccountKey(address: Address, role: Role, asset: string)
  datatype AccountTotal = AccountTotal(assetVerified: bool, payments: nat, volume: nat, firstAt: nat, lastAt: nat)

  datatype SellerSummary = SellerSummary(exact: nat, upto: nat, payers: nat)

  /** The least of some numbers (SQL `min`). */
  function Least(s: set<nat>): (least: nat)
    requires s != {}
    ensures least in s && forall x | x in s :: least <= x
  {
    LeastExists(s);
    var least :| least in s && forall x | x in s :: least <= x;
    least
  }

  lemma LeastExists(s: set<nat>)
    requires s != {}
    ensures exists least :: least in s && forall x | x in s :: least <= x
  {
    var least := LeastOf(s);
  }

  lemma {:induction false} LeastOf(s: set<nat>) returns (least: nat)
    requires s != {}
    ensures least in s && forall x | x in s :: least <= x
    decreases s
  {
    var first :| first in s;
    var rest := s - {first};
    assert forall x | x in s :: x == first || x in rest;
    least := first;
    if rest != {} {
      var other := LeastOf(rest);
      if other < least {
        least := other;
      }
    }
  }

  /** The greatest of some numbers (SQL `max`). */
  function Greatest(s: set<nat>): (greatest: nat)
    requires s != {}
    ensures greatest in s && forall x | x in s :: x <= greatest
  {
    GreatestExists(s);
    var greatest :| greatest in s && forall x | x in s :: x <= greatest;
    greatest
  }

  lemma GreatestExists(s: set<nat>)
    requires s != {}
    ensures exists greatest :: greatest in s && forall x | x in s :: x <= greatest
  {
    var greatest := GreatestOf(s);
  }

  lemma {:induction false} GreatestOf(s: set<nat>) returns (greatest: nat)
    requires s != {}
    ensures greatest in s && forall x | x in s :: x <= greatest
    decreases s
  {
    var first :| first in s;
    var rest := s - {first};
    assert forall x | x in s :: x == first || x in rest;
    greatest := first;
    if rest != {} {
      var other := GreatestOf(rest);
      if other > greatest {
        greatest := other;
      }
    }
  }

  /** SQL `sum(amount)`. */
  function Volume(rows: map<Hash, Row>): nat {
    if rows == map[] then 0 else
    assert rows.Keys != {};
    var h := Least(rows.Keys);
    rows[h].facts.amount + Volume(rows - {h})
  }

  // daily_aggregates

  function DayKeyOf(row: Row): DayKey {
    DayKey(Day(row.facts.closedAt), row.attribution.tier,
           if row.attribution.facilitator.Some? then row.attribution.facilitator.value else "",
           row.facts.scheme, row.facts.asset, row.facts.payer == row.facts.payTo)
  }

  function DayKeys(row: Row): set<DayKey> {
    {DayKeyOf(row)}
  }

  function DayAggregate(rows: map<Hash, Row>): DayTotal {
    DayTotal(|rows|, Volume(rows))
  }

  function Daily(rows: map<Hash, Row>): set<Derived<DayKey, DayTotal>> {
    Full(rows, DayKeys, DayAggregate)
  }

  // account_totals: each row counts for its payer and for its seller.

  function PayerKey(row: Row): AccountKey {
    AccountKey(row.facts.payer, Payer, row.facts.asset)
  }

  function PayToKey(row: Row): AccountKey {
    AccountKey(row.facts.payTo, PayTo, row.facts.asset)
  }

  function AccountKeys(row: Row): set<AccountKey> {
    {PayerKey(row), PayToKey(row)}
  }

  function Times(rows: map<Hash, Row>): set<nat> {
    set h | h in rows :: rows[h].facts.closedAt
  }

  function AccountAggregate(rows: map<Hash, Row>): AccountTotal {
    AccountTotal(exists h | h in rows :: rows[h].facts.assetVerified, |rows|, Volume(rows),
                 if Times(rows) == {} then 0 else Least(Times(rows)),
                 if Times(rows) == {} then 0 else Greatest(Times(rows)))
  }

  function Accounts(rows: map<Hash, Row>): set<Derived<AccountKey, AccountTotal>> {
    Full(rows, AccountKeys, AccountAggregate)
  }

  // seller_summaries

  function SellerKeys(row: Row): set<Address> {
    {row.facts.payTo}
  }

  function OfScheme(rows: map<Hash, Row>, scheme: Scheme): set<Hash> {
    set h | h in rows && rows[h].facts.scheme == scheme
  }

  function SellerAggregate(rows: map<Hash, Row>): SellerSummary {
    SellerSummary(|OfScheme(rows, Exact)|, |OfScheme(rows, Upto)|, |PayersOf(rows)|)
  }

  function Sellers(rows: map<Hash, Row>): set<Derived<Address, SellerSummary>> {
    Full(rows, SellerKeys, SellerAggregate)
  }

  // What a change of rows can touch.

  /** The daily rows of the given days. */
  predicate OnDays(days: set<nat>, k: DayKey) {
    k.day in days
  }

  /** The account rows of the given payers and sellers. */
  predicate OnAccounts(payers: set<Address>, payees: set<Address>, k: AccountKey) {
    if k.role.Payer? then k.address in payers else k.address in payees
  }

  function DaysOf(rows: map<Hash, Row>): set<nat> {
    set h | h in rows :: Day(rows[h].facts.closedAt)
  }

  function PayersOf(rows: map<Hash, Row>): set<Address> {
    set h | h in rows :: rows[h].facts.payer
  }

  function PayeesOf(rows: map<Hash, Row>): set<Address> {
    set h | h in rows :: rows[h].facts.payTo
  }

  /** Adding or removing rows leaves every group of other days, payers and sellers alone. */
  lemma AddedRowsTouch(before: map<Hash, Row>, added: map<Hash, Row>)
    requires before.Keys !! added.Keys
    ensures forall k | !OnDays(DaysOf(added), k) :: Group(before, DayKeys, k) == Group(before + added, DayKeys, k)
    ensures forall k | !OnAccounts(PayersOf(added), PayeesOf(added), k) ::
              Group(before, AccountKeys, k) == Group(before + added, AccountKeys, k)
    ensures forall k | k !in PayeesOf(added) :: Group(before, SellerKeys, k) == Group(before + added, SellerKeys, k)
  {
    var after := before + added;
    forall k: DayKey | !OnDays(DaysOf(added), k) ensures Group(before, DayKeys, k) == Group(after, DayKeys, k) {
      AddedOutside(before, added, DayKeys, k);
    }
    forall k: AccountKey | !OnAccounts(PayersOf(added), PayeesOf(added), k)
      ensures Group(before, AccountKeys, k) == Group(after, AccountKeys, k)
    {
      AddedOutside(before, added, AccountKeys, k);
    }
    forall k: Address | k !in PayeesOf(added) ensures Group(before, SellerKeys, k) == Group(after, SellerKeys, k) {
      AddedOutside(before, added, SellerKeys, k);
    }
  }

  lemma AddedOutside<K>(before: map<Hash, Row>, added: map<Hash, Row>, keysOf: Row -> set<K>, k: K)
    requires before.Keys !! added.Keys
    requires forall h | h in added :: k !in keysOf(added[h])
    ensures Group(before, keysOf, k) == Group(before + added, keysOf, k)
  {
    var after := before + added;
    assert (set h | h in after && k in keysOf(after[h])) == set h | h in before && k in keysOf(before[h]);
  }

  // Who settled a row does not matter to the account and seller totals.

  lemma {:induction false} SameFactsSameVolume(a: map<Hash, Row>, b: map<Hash, Row>)
    requires SameFacts(a, b)
    ensures Volume(a) == Volume(b)
    decreases |a|
  {
    if a != map[] {
      assert a.Keys != {};
      var h := Least(a.Keys);
      assert h in a && h in b;
      SameFactsSameVolume(a - {h}, b - {h});
    }
  }

  lemma SameFactsSameAggregates(a: map<Hash, Row>, b: map<Hash, Row>)
    requires SameFacts(a, b)
    ensures AccountAggregate(a) == AccountAggregate(b) && SellerAggregate(a) == SellerAggregate(b)
  {
    SameFactsSameVolume(a, b);
    assert |a| == |a.Keys| && |b| == |b.Keys|;
    assert Times(a) == Times(b);
    assert OfScheme(a, Exact) == OfScheme(b, Exact) && OfScheme(a, Upto) == OfScheme(b, Upto);
    assert PayersOf(a) == PayersOf(b);
  }

  /** A change of attributions alone leaves the account and seller totals as they are. */
  lemma AttributionLeavesAccounts(before: map<Hash, Row>, after: map<Hash, Row>)
    requires SameFacts(before, after)
    ensures Accounts(before) == Accounts(after) && Sellers(before) == Sellers(after)
  {
    forall k ensures SameFacts(Group(before, AccountKeys, k), Group(after, AccountKeys, k)) {}
    forall k ensures SameFacts(Group(before, SellerKeys, k), Group(after, SellerKeys, k)) {}
    forall k { SameFactsSameAggregates(Group(before, AccountKeys, k), Group(after, AccountKeys, k)); }
    forall k { SameFactsSameAggregates(Group(before, SellerKeys, k), Group(after, SellerKeys, k)); }
    SameAggregatesAgree(before, after, AccountKeys, AccountAggregate, k => true);
    SameAggregatesAgree(before, after, SellerKeys, SellerAggregate, k => true);
    AgreesEverywhereIsFull(Accounts(before), after, AccountKeys, AccountAggregate, k => true);
    AgreesEverywhereIsFull(Sellers(before), after, SellerKeys, SellerAggregate, k => true);
  }
}
