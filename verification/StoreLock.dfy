/**
 * Concurrent transactions on the store's settlements and the three tables derived from them, step by step.
 * Each transaction changes rows no other one in flight writes, notes the days, payers and sellers it has to
 * refresh, takes the one lock of the totals, deletes those totals and inserts them again from what it sees,
 * and commits, which releases the lock; it may roll back at any point.
 */
module StoreLock {
  import opened GroupBy
  import opened Index
  import opened Options
  import opened Settlements
  import opened Tables
  import opened Totals
  import TotalsLock

  datatype Stage = Before | Gone | Back

  /** What a transaction has done to one table: the totals it deleted and inserted. */
  datatype Part<!K(==), !V(==)> = Part(stage: Stage, deleted: set<Derived<K, V>>, inserted: set<Derived<K, V>>)

  /** A transaction in flight: the rows it replaces or removes as they were, those it puts, and what it refreshes. */
  datatype Transaction = Transaction(was: map<Hash, Row>, puts: map<Hash, Row>,
                                     days: set<nat>, payers: set<Address>, payees: set<Address>,
                                     daily: Part<DayKey, DayTotal>, accounts: Part<AccountKey, AccountTotal>,
                                     sellers: Part<Address, SellerSummary>)

  type Id = nat

  /** The committed tables, who holds the lock, and the transactions in flight. */
  datatype Store = Store(rows: map<Hash, Row>, daily: set<Derived<DayKey, DayTotal>>,
                         accounts: set<Derived<AccountKey, AccountTotal>>,
                         sellers: set<Derived<Address, SellerSummary>>,
                         lock: Option<Id>, open: map<Id, Transaction>)

  const NEW := Transaction(map[], map[], {}, {}, {}, Part(Before, {}, {}), Part(Before, {}, {}), Part(Before, {}, {}))

  /** The store with its tables computed from its rows, and nothing in flight. */
  ghost function Idle(rows: map<Hash, Row>): Store {
    Store(rows, Daily(rows), Accounts(rows), Sellers(rows), None, map[])
  }

  function Writes(t: Transaction): set<Hash> {
    t.was.Keys + t.puts.Keys
  }

  function Sees(rows: map<Hash, Row>, t: Transaction): map<Hash, Row> {
    (rows - t.was.Keys) + t.puts
  }

  // -------------------------------------------------------------------------------- the three tables

  function DaysTouched(days: set<nat>): DayKey -> bool {
    k => OnDays(days, k)
  }

  function AccountsTouched(payers: set<Address>, payees: set<Address>): AccountKey -> bool {
    k => OnAccounts(payers, payees, k)
  }

  function SellersTouched(payees: set<Address>): Address -> bool {
    k => k in payees
  }

  /** A transaction as each table knows it: the rows it changes, and which of the table's keys it refreshes. */
  function OnDaily(t: Transaction): TotalsLock.Transaction<DayKey, DayTotal> {
    TotalsLock.Transaction(t.was, t.puts, DaysTouched(t.days), t.daily.deleted, t.daily.inserted)
  }

  function OnAccount(t: Transaction): TotalsLock.Transaction<AccountKey, AccountTotal> {
    TotalsLock.Transaction(t.was, t.puts, AccountsTouched(t.payers, t.payees),
                           t.accounts.deleted, t.accounts.inserted)
  }

  function OnSeller(t: Transaction): TotalsLock.Transaction<Address, SellerSummary> {
    TotalsLock.Transaction(t.was, t.puts, SellersTouched(t.payees), t.sellers.deleted, t.sellers.inserted)
  }

  function Deleted<K(==), V(==)>(table: set<Derived<K, V>>, touched: K -> bool): Part<K, V> {
    Part(Gone, table - Untouched(table, touched), {})
  }

  function Inserted<K(==), V(==)>(part: Part<K, V>, totals: set<Derived<K, V>>): Part<K, V> {
    Part(Back, part.deleted, totals)
  }

  function Swapped<K(==), V(==)>(table: set<Derived<K, V>>, part: Part<K, V>): set<Derived<K, V>> {
    (table - part.deleted) + part.inserted
  }

  // ------------------------------------------------------------------------------------------ steps

  datatype Table = DailyTotals | AccountTotals | SellerSummaries

  datatype Step =
    | Begin(id: Id)
    /** A ledger's rows are written: each is new, or replaces the row of its hash. */
    | Upsert(id: Id, rows: map<Hash, Row>)
    /** The rows of some ledgers are read, to know what their removal touches. */
    | Look(id: Id, ledgers: set<Ledger>)
    /** The rows of some ledgers are deleted. */
    | Drop(id: Id, ledgers: set<Ledger>)
    /** Rows are attributed again: some page of those under another registry version. */
    | Rewrite(id: Id, registry: Registry, page: set<Hash>)
    | TakeLock(id: Id)
    | Delete(id: Id, table: Table)
    | Insert(id: Id, table: Table)
    | Commit(id: Id)
    | RollBack(id: Id)

  function RowsIn(rows: map<Hash, Row>, ledgers: set<Ledger>): map<Hash, Row> {
    Keep(rows, set h | h in rows && rows[h].facts.ledger in ledgers)
  }

  /** Row changes of one statement or page: rows put, and rows removed. */
  function Changed(s: Store, t: Transaction, puts: map<Hash, Row>, removed: set<Hash>): Transaction {
    t.(was := t.was + Keep(s.rows, puts.Keys + removed), puts := t.puts + puts)
  }

  function Noted(t: Transaction, days: set<nat>, payers: set<Address>, payees: set<Address>): Transaction {
    t.(days := t.days + days, payers := t.payers + payers, payees := t.payees + payees)
  }

  ghost function Rewritten(s: Store, registry: Registry, page: set<Hash>): map<Hash, Row> {
    ReattributedRows(Keep(s.rows, page), registry)
  }

  /** The transaction as its own step leaves it. */
  ghost function Own(s: Store, t: Transaction, step: Step): Transaction {
    match step
    case Upsert(_, rows) => Noted(Changed(s, t, rows, {}), DaysOf(rows), PayersOf(rows), PayeesOf(rows))
    case Look(_, ledgers) => var seen := RowsIn(s.rows, ledgers); Noted(t, DaysOf(seen), PayersOf(seen), PayeesOf(seen))
    case Drop(_, ledgers) => Changed(s, t, map[], RowsIn(s.rows, ledgers).Keys)
    case Rewrite(_, registry, page) =>
      var rows := Rewritten(s, registry, page);
      Noted(Changed(s, t, rows, {}), DaysOf(rows), {}, {})
    case Delete(_, DailyTotals) => t.(daily := Deleted(s.daily, OnDaily(t).touched))
    case Delete(_, AccountTotals) => t.(accounts := Deleted(s.accounts, OnAccount(t).touched))
    case Delete(_, SellerSummaries) => t.(sellers := Deleted(s.sellers, OnSeller(t).touched))
    case Insert(_, DailyTotals) =>
      t.(daily := Inserted(t.daily, Regrouped(Sees(s.rows, t), DayKeys, DayAggregate, OnDaily(t).touched)))
    case Insert(_, AccountTotals) =>
      t.(accounts := Inserted(t.accounts,
                              Regrouped(Sees(s.rows, t), AccountKeys, AccountAggregate, OnAccount(t).touched)))
    case Insert(_, SellerSummaries) =>
      t.(sellers := Inserted(t.sellers, Regrouped(Sees(s.rows, t), SellerKeys, SellerAggregate, OnSeller(t).touched)))
    case _ => t
  }

  /** The hashes a step writes. */
  function Written(s: Store, step: Step): set<Hash> {
    match step
    case Upsert(_, rows) => rows.Keys
    case Drop(_, ledgers) => RowsIn(s.rows, ledgers).Keys
    case Rewrite(_, _, page) => page
    case _ => {}
  }

  function StageOf(t: Transaction, table: Table): Stage {
    match table
    case DailyTotals => t.daily.stage
    case AccountTotals => t.accounts.stage
    case SellerSummaries => t.sellers.stage
  }

  /** A table is refreshed, or the transaction noted nothing it has to refresh there. */
  predicate Ready(t: Transaction) {
    && (t.daily.stage.Back? || t.days == {})
    && (t.accounts.stage.Back? || (t.payers == {} && t.payees == {}))
    && (t.sellers.stage.Back? || t.payees == {})
  }

  /** When a step can be taken. Row locks keep each row to one writer, which writes it once. */
  ghost predicate Enabled(s: Store, step: Step) {
    if step.Begin? then step.id !in s.open else
    step.id in s.open &&
    match step
    case Upsert(i, _) => s.lock != Some(i) && OnlyWriter(s, step)
    case Look(i, _) => s.lock != Some(i)
    case Drop(i, _) => s.lock != Some(i) && OnlyWriter(s, step)
    case Rewrite(i, _, page) => s.lock != Some(i) && page <= s.rows.Keys && OnlyWriter(s, step)
    case TakeLock(i) => s.lock.None?
    case Delete(i, table) => s.lock == Some(i) && StageOf(s.open[i], table).Before?
    case Insert(i, table) => s.lock == Some(i) && StageOf(s.open[i], table).Gone?
    case Commit(i) => Ready(s.open[i])
    case RollBack(_) => true
  }

  ghost predicate OnlyWriter(s: Store, step: Step) {
    forall j | j in s.open :: Writes(s.open[j]) !! Written(s, step)
  }

  function Released(lock: Option<Id>, i: Id): Option<Id> {
    if lock == Some(i) then None else lock
  }

  function Put(s: Store, i: Id, t: Transaction, lock: Option<Id>): Store {
    s.(lock := lock, open := s.open[i := t])
  }

  ghost function Take(s: Store, step: Step): Store
    requires Enabled(s, step)
  {
    var i := step.id;
    if step.Begin? then s.(open := s.open[i := NEW]) else
    var t := s.open[i];
    if step.Commit? then
      Store(Sees(s.rows, t), Swapped(s.daily, t.daily), Swapped(s.accounts, t.accounts), Swapped(s.sellers, t.sellers),
            Released(s.lock, i), s.open - {i})
    else if step.RollBack? then s.(lock := Released(s.lock, i), open := s.open - {i})
    else Put(s, i, Own(s, t, step), if step.TakeLock? then Some(i) else s.lock)
  }

  /**
   * What keeps a change inside the totals it refreshes: a row written over another has its time, payer and
   * seller, as one transaction hash has, and what is deleted was seen by a look before.
   */
  ghost predicate Careful(s: Store, step: Step)
    requires Enabled(s, step)
  {
    match step
    case Upsert(_, rows) => forall h | h in rows && h in s.rows :: SameParties(s.rows[h], rows[h])
    case Drop(i, ledgers) => Seen(s.open[i], RowsIn(s.rows, ledgers))
    case _ => true
  }

  ghost predicate SameParties(r: Row, q: Row) {
    Day(r.facts.closedAt) == Day(q.facts.closedAt) && r.facts.payer == q.facts.payer && r.facts.payTo == q.facts.payTo
  }

  ghost predicate Seen(t: Transaction, rows: map<Hash, Row>) {
    DaysOf(rows) <= t.days && PayersOf(rows) <= t.payers && PayeesOf(rows) <= t.payees
  }

  // -------------------------------------------------------------------------------------- invariant

  /** What a transaction has done to a table is what the committed table and the rows still say. */
  ghost predicate PartHolds<K(!new), V(!new)>(d: TotalsLock.Derivation<K, V>, rows: map<Hash, Row>,
                                              table: set<Derived<K, V>>,
                                              t: TotalsLock.Transaction<K, V>, stage: Stage, locked: bool)
  {
    && TotalsLock.Covers(d, t)
    && (!stage.Before? ==> locked)
    && t.deleted == (if stage.Before? then {} else table - Untouched(table, t.touched))
    && t.inserted == (if stage.Back? then Regrouped(TotalsLock.Sees(rows, t), d.keysOf, d.agg, t.touched) else {})
  }

  ghost predicate DailyHolds(s: Store, i: Id, t: Transaction) {
    PartHolds(TotalsLock.DAILY, s.rows, s.daily, OnDaily(t), t.daily.stage, s.lock == Some(i))
  }

  ghost predicate AccountsHold(s: Store, i: Id, t: Transaction) {
    PartHolds(TotalsLock.ACCOUNTS, s.rows, s.accounts, OnAccount(t), t.accounts.stage, s.lock == Some(i))
  }

  ghost predicate SellersHold(s: Store, i: Id, t: Transaction) {
    PartHolds(TotalsLock.SELLERS, s.rows, s.sellers, OnSeller(t), t.sellers.stage, s.lock == Some(i))
  }

  ghost predicate InFlight(s: Store, i: Id, t: Transaction) {
    TotalsLock.Reserved(s.rows, OnDaily(t)) && DailyHolds(s, i, t) && AccountsHold(s, i, t) && SellersHold(s, i, t)
  }

  /** The derived tables are the group-bys of the committed rows. */
  ghost predicate TablesExact(s: Store) {
    s.daily == Daily(s.rows) && s.accounts == Accounts(s.rows) && s.sellers == Sellers(s.rows)
  }

  ghost predicate Safe(s: Store) {
    && TablesExact(s)
    && (s.lock.Some? ==> s.lock.value in s.open)
    && (forall i | i in s.open :: InFlight(s, i, s.open[i]))
    && (forall i, j | i in s.open && j in s.open && i != j :: Writes(s.open[i]) !! Writes(s.open[j]))
  }

  // ------------------------------------------------------------------------------- what is refreshed

  /** Changes of different rows: each covered, and together covered by all the keys noted. */
  lemma CoveredTogether<K, V>(d: TotalsLock.Derivation<K, V>, t: TotalsLock.Transaction<K, V>,
                              u: TotalsLock.Transaction<K, V>,
                              both: TotalsLock.Transaction<K, V>)
    requires TotalsLock.Covers(d, t) && TotalsLock.Covers(d, u)
    requires t.was.Keys + t.puts.Keys !! u.was.Keys + u.puts.Keys
    requires both.was == t.was + u.was && both.puts == t.puts + u.puts
    requires forall row | TotalsLock.Refreshes(d, t, row) || TotalsLock.Refreshes(d, u, row) ::
               TotalsLock.Refreshes(d, both, row)
    ensures TotalsLock.Covers(d, both)
  {
    forall h | h in both.puts
      ensures (h in both.was && d.alike(both.was[h], both.puts[h])) || TotalsLock.Refreshes(d, both, both.puts[h])
    {
      if h in u.puts { assert h !in t.was && h !in t.puts; } else { assert h in t.puts && h !in u.was; }
    }
    forall h | h in both.was
      ensures (h in both.puts && d.alike(both.was[h], both.puts[h])) || TotalsLock.Refreshes(d, both, both.was[h])
    {
      if h in u.was { assert h !in t.was && h !in t.puts; } else { assert h in t.was && h !in u.puts; }
    }
  }

  lemma RefreshesMore<K(!new), V>(d: TotalsLock.Derivation<K, V>, t: TotalsLock.Transaction<K, V>,
                                  both: TotalsLock.Transaction<K, V>, row: Row)
    requires TotalsLock.Refreshes(d, t, row)
    requires forall k | t.touched(k) :: both.touched(k)
    ensures TotalsLock.Refreshes(d, both, row)
  {
  }

  /** All three tables' changes are covered by what the transaction noted. */
  ghost predicate AllCovered(t: Transaction) {
    && TotalsLock.Covers(TotalsLock.DAILY, OnDaily(t)) && TotalsLock.Covers(TotalsLock.ACCOUNTS, OnAccount(t))
    && TotalsLock.Covers(TotalsLock.SELLERS, OnSeller(t))
  }

  /** One change by itself. */
  function Alone(was: map<Hash, Row>, puts: map<Hash, Row>, days: set<nat>, payers: set<Address>,
                 payees: set<Address>): Transaction {
    NEW.(was := was, puts := puts, days := days, payers := payers, payees := payees)
  }

  ghost predicate Notes(t: Transaction, both: Transaction) {
    t.days <= both.days && t.payers <= both.payers && t.payees <= both.payees
  }

  lemma NotesRefresh(t: Transaction, both: Transaction, row: Row)
    requires Notes(t, both)
    ensures TotalsLock.Refreshes(TotalsLock.DAILY, OnDaily(t), row) ==>
              TotalsLock.Refreshes(TotalsLock.DAILY, OnDaily(both), row)
    ensures TotalsLock.Refreshes(TotalsLock.ACCOUNTS, OnAccount(t), row) ==>
              TotalsLock.Refreshes(TotalsLock.ACCOUNTS, OnAccount(both), row)
    ensures TotalsLock.Refreshes(TotalsLock.SELLERS, OnSeller(t), row) ==>
              TotalsLock.Refreshes(TotalsLock.SELLERS, OnSeller(both), row)
  {
    if TotalsLock.Refreshes(TotalsLock.DAILY, OnDaily(t), row) {
      RefreshesMore(TotalsLock.DAILY, OnDaily(t), OnDaily(both), row);
    }
    if TotalsLock.Refreshes(TotalsLock.ACCOUNTS, OnAccount(t), row) {
      RefreshesMore(TotalsLock.ACCOUNTS, OnAccount(t), OnAccount(both), row);
    }
    if TotalsLock.Refreshes(TotalsLock.SELLERS, OnSeller(t), row) {
      RefreshesMore(TotalsLock.SELLERS, OnSeller(t), OnSeller(both), row);
    }
  }

  lemma TogetherCovered(t: Transaction, u: Transaction, both: Transaction)
    requires AllCovered(t) && AllCovered(u) && Writes(t) !! Writes(u)
    requires both.was == t.was + u.was && both.puts == t.puts + u.puts && Notes(t, both) && Notes(u, both)
    ensures AllCovered(both)
  {
    forall row { NotesRefresh(t, both, row); }
    forall row { NotesRefresh(u, both, row); }
    CoveredTogether(TotalsLock.DAILY, OnDaily(t), OnDaily(u), OnDaily(both));
    CoveredTogether(TotalsLock.ACCOUNTS, OnAccount(t), OnAccount(u), OnAccount(both));
    CoveredTogether(TotalsLock.SELLERS, OnSeller(t), OnSeller(u), OnSeller(both));
  }

  /** The days, payers and sellers of the rows put and removed cover all three tables. */
  lemma AloneCovered(was: map<Hash, Row>, puts: map<Hash, Row>, days: set<nat>, payers: set<Address>,
                     payees: set<Address>)
    requires DaysOf(was) + DaysOf(puts) <= days && PayersOf(was) + PayersOf(puts) <= payers
    requires PayeesOf(was) + PayeesOf(puts) <= payees
    ensures AllCovered(Alone(was, puts, days, payers, payees))
  {
    var t := Alone(was, puts, days, payers, payees);
    TotalsLock.RefreshedKeysCover(OnDaily(t), OnAccount(t), OnSeller(t), was, puts);
  }

  /** A re-attribution needs its days alone. */
  lemma RewriteCovered(was: map<Hash, Row>, puts: map<Hash, Row>)
    requires SameFacts(was, puts)
    ensures AllCovered(Alone(was, puts, DaysOf(puts), {}, {}))
  {
    assert DaysOf(was) == DaysOf(puts);
    var t := Alone(was, puts, DaysOf(puts), {}, {});
    TotalsLock.RefreshedKeysCover(OnDaily(t), OnAccount(t), OnSeller(t), was, puts);
    TotalsLock.ReattributionCovers(OnAccount(t), OnSeller(t));
  }

  /** The change of a step by itself. */
  ghost function Change(s: Store, t: Transaction, step: Step): Transaction {
    match step
    case Upsert(_, rows) => Alone(Keep(s.rows, rows.Keys), rows, DaysOf(rows), PayersOf(rows), PayeesOf(rows))
    case Look(_, ledgers) =>
      var seen := RowsIn(s.rows, ledgers);
      Alone(map[], map[], DaysOf(seen), PayersOf(seen), PayeesOf(seen))
    case Drop(_, ledgers) => Alone(RowsIn(s.rows, ledgers), map[], t.days, t.payers, t.payees)
    case Rewrite(_, registry, page) =>
      var rows := Rewritten(s, registry, page);
      Alone(Keep(s.rows, page), rows, DaysOf(rows), {}, {})
    case _ => NEW
  }

  predicate Changes(step: Step) {
    step.Upsert? || step.Look? || step.Drop? || step.Rewrite?
  }

  lemma ChangeCovered(s: Store, step: Step)
    requires Changes(step) && Enabled(s, step) && Careful(s, step)
    ensures AllCovered(Change(s, s.open[step.id], step))
  {
    match step
    case Upsert(_, rows) =>
      assert forall h | h in Keep(s.rows, rows.Keys) :: h in rows && SameParties(s.rows[h], rows[h]);
      AloneCovered(Keep(s.rows, rows.Keys), rows, DaysOf(rows), PayersOf(rows), PayeesOf(rows));
    case Look(_, ledgers) =>
      var seen := RowsIn(s.rows, ledgers);
      AloneCovered(map[], map[], DaysOf(seen), PayersOf(seen), PayeesOf(seen));
    case Drop(i, ledgers) =>
      AloneCovered(RowsIn(s.rows, ledgers), map[], s.open[i].days, s.open[i].payers, s.open[i].payees);
    case Rewrite(_, registry, page) =>
      RewriteCovered(Keep(s.rows, page), Rewritten(s, registry, page));
  }

  /** What a step adds to its transaction is that change. */
  ghost predicate Adds(t: Transaction, u: Transaction, own: Transaction) {
    && own.was == t.was + u.was && own.puts == t.puts + u.puts && Notes(t, own) && Notes(u, own)
    && own.daily == t.daily && own.accounts == t.accounts && own.sellers == t.sellers
  }

  lemma OwnAdds(s: Store, step: Step)
    requires Changes(step) && Enabled(s, step)
    ensures Adds(s.open[step.id], Change(s, s.open[step.id], step), Own(s, s.open[step.id], step))
  {
    var t := s.open[step.id];
    match step
    case Upsert(_, rows) => assert Keep(s.rows, rows.Keys + {}) == Keep(s.rows, rows.Keys);
    case Look(_, _) => assert t.was + map[] == t.was && t.puts + map[] == t.puts;
    case Drop(_, ledgers) =>
      assert Keep(s.rows, RowsIn(s.rows, ledgers).Keys) == RowsIn(s.rows, ledgers);
      var none: map<Hash, Row> := map[];
      assert none.Keys + RowsIn(s.rows, ledgers).Keys == RowsIn(s.rows, ledgers).Keys;
      assert t.puts + map[] == t.puts;
    case Rewrite(_, registry, page) =>
      assert Rewritten(s, registry, page).Keys + {} == page;
  }

  // ---------------------------------------------------------------------------------- what is stored

  lemma SeesMore(rows: map<Hash, Row>, t: Transaction, own: Transaction, puts: map<Hash, Row>)
    requires own.was == t.was + Keep(rows, puts.Keys) && own.puts == t.puts + puts
    ensures Sees(rows, own) == Sees(rows, t) + puts
  {
  }

  lemma SeesLess(rows: map<Hash, Row>, t: Transaction, own: Transaction, gone: map<Hash, Row>)
    requires own.was == t.was + gone && own.puts == t.puts && gone.Keys !! t.puts.Keys
    ensures Sees(rows, own) == Sees(rows, t) - gone.Keys
  {
  }

  /** What a transaction sees after it wrote rows is what it saw before, with them. */
  lemma UpsertIsSeen(s: Store, t: Transaction, i: Id, rows: map<Hash, Row>)
    ensures Sees(s.rows, Own(s, t, Upsert(i, rows))) == Sees(s.rows, t) + rows
  {
    assert rows.Keys + {} == rows.Keys;
    SeesMore(s.rows, t, Own(s, t, Upsert(i, rows)), rows);
  }

  /** After it deleted the rows of some ledgers, it sees none of the stored ones. */
  lemma DropIsSeen(s: Store, t: Transaction, i: Id, ledgers: set<Ledger>)
    requires Writes(t) !! Written(s, Drop(i, ledgers))
    ensures Sees(s.rows, Own(s, t, Drop(i, ledgers)))
         == Sees(s.rows, t) - set h | h in s.rows && s.rows[h].facts.ledger in ledgers
  {
    var gone := RowsIn(s.rows, ledgers);
    var none: map<Hash, Row> := map[];
    assert none.Keys + gone.Keys == gone.Keys && Keep(s.rows, gone.Keys) == gone;
    assert t.puts + map[] == t.puts;
    SeesLess(s.rows, t, Own(s, t, Drop(i, ledgers)), gone);
  }

  /** After it rewrote a page of rows, it sees them attributed again. */
  lemma RewriteIsSeen(s: Store, t: Transaction, i: Id, registry: Registry, page: set<Hash>)
    requires page <= s.rows.Keys
    ensures var sees := Sees(s.rows, Own(s, t, Rewrite(i, registry, page)));
            && sees.Keys == Sees(s.rows, t).Keys + page
            && (forall h | h in Sees(s.rows, t) && h !in page :: sees[h] == Sees(s.rows, t)[h])
            && (forall h | h in page :: sees[h] == Reattributed(s.rows[h], registry))
  {
    var rows := Rewritten(s, registry, page);
    assert rows.Keys == page && page + {} == page;
    SeesMore(s.rows, t, Own(s, t, Rewrite(i, registry, page)), rows);
  }

  /** What it saw last is what is stored once it commits; no other step changes what is stored. */
  lemma CommitStoresWhatIsSeen(s: Store, step: Step)
    requires Enabled(s, step)
    ensures Take(s, step).rows == if step.Commit? then Sees(s.rows, s.open[step.id]) else s.rows
    ensures step.Commit? || step.RollBack? ==> step.id !in Take(s, step).open && Take(s, step).lock != Some(step.id)
  {
  }

  // --------------------------------------------------------------------------------- steps are safe

  /** The same committed tables, and the lock held or not as before. */
  lemma StillInFlight(s: Store, after: Store, i: Id, t: Transaction)
    requires InFlight(s, i, t)
    requires after.rows == s.rows && after.daily == s.daily && after.accounts == s.accounts
    requires after.sellers == s.sellers
    requires s.lock == Some(i) <==> after.lock == Some(i)
    ensures InFlight(after, i, t)
  {
  }

  /** A step of one transaction that leaves the committed tables and other transactions alone. */
  lemma OwnStepIsSafe(s: Store, i: Id, t: Transaction, lock: Option<Id>)
    requires Safe(s) && lock in {s.lock, Some(i)}
    requires InFlight(s.(lock := lock), i, t)
    requires lock != s.lock ==> s.lock.None?
    requires forall j | j in s.open && j != i :: Writes(t) !! Writes(s.open[j])
    ensures Safe(Put(s, i, t, lock))
  {
    var after := Put(s, i, t, lock);
    forall j | j in after.open ensures InFlight(after, j, after.open[j]) {
      if j == i {
        StillInFlight(s.(lock := lock), after, i, t);
      } else {
        StillInFlight(s, after, j, s.open[j]);
      }
    }
  }

  /** Before it refreshes, a transaction in flight need only cover its change and find its rows as they were. */
  lemma BeforeRefresh(s: Store, i: Id, t: Transaction)
    requires AllCovered(t) && TotalsLock.Reserved(s.rows, OnDaily(t))
    requires t.daily == Part(Before, {}, {}) && t.accounts == Part(Before, {}, {}) && t.sellers == Part(Before, {}, {})
    ensures InFlight(s, i, t)
  {
  }

  lemma NotYetRefreshed(s: Store, i: Id, t: Transaction)
    requires InFlight(s, i, t) && s.lock != Some(i)
    ensures AllCovered(t) && TotalsLock.Reserved(s.rows, OnDaily(t))
    ensures t.daily == Part(Before, {}, {}) && t.accounts == Part(Before, {}, {}) && t.sellers == Part(Before, {}, {})
  {
  }

  lemma StillReserved(rows: map<Hash, Row>, t: Transaction, u: Transaction, own: Transaction)
    requires TotalsLock.Reserved(rows, OnDaily(t)) && TotalsLock.Reserved(rows, OnDaily(u)) && Writes(t) !! Writes(u)
    requires own.was == t.was + u.was && own.puts == t.puts + u.puts
    ensures TotalsLock.Reserved(rows, OnDaily(own))
  {
  }

  lemma ChangeIsReserved(s: Store, step: Step)
    requires Changes(step) && Enabled(s, step)
    ensures TotalsLock.Reserved(s.rows, OnDaily(Change(s, s.open[step.id], step)))
    ensures Writes(Change(s, s.open[step.id], step)) <= Written(s, step)
  {
  }

  lemma OnlyWriters(s: Store, step: Step, j: Id)
    requires Changes(step) && Enabled(s, step) && j in s.open
    ensures Writes(s.open[j]) !! Written(s, step)
  {
  }

  lemma TakeIsOwn(s: Store, step: Step)
    requires Enabled(s, step) && !step.Begin? && !step.Commit? && !step.RollBack?
    ensures Take(s, step)
            == Put(s, step.id, Own(s, s.open[step.id], step), if step.TakeLock? then Some(step.id) else s.lock)
  {
  }

  lemma ChangeInFlight(s: Store, step: Step)
    requires Enabled(s, step) && Careful(s, step) && Changes(step) && InFlight(s, step.id, s.open[step.id])
    ensures InFlight(s, step.id, Own(s, s.open[step.id], step))
  {
    var i := step.id;
    var t, u, own := s.open[i], Change(s, s.open[i], step), Own(s, s.open[i], step);
    NotYetRefreshed(s, i, t);
    ChangeCovered(s, step);
    OwnAdds(s, step);
    ChangeIsReserved(s, step);
    OnlyWriters(s, step, i);
    AddedIsInFlight(s, i, t, u, own);
  }

  lemma ChangeIsApart(s: Store, step: Step, j: Id)
    requires Enabled(s, step) && Changes(step) && j in s.open && j != step.id
    requires Writes(s.open[step.id]) !! Writes(s.open[j])
    ensures Writes(Own(s, s.open[step.id], step)) !! Writes(s.open[j])
  {
    OwnAdds(s, step);
    ChangeIsReserved(s, step);
    OnlyWriters(s, step, j);
    var t, u := s.open[step.id], Change(s, s.open[step.id], step);
    assert Writes(Own(s, t, step)) == Writes(t) + Writes(u);
  }

  lemma ChangeIsSafe(s: Store, step: Step)
    requires Safe(s) && Enabled(s, step) && Careful(s, step) && Changes(step)
    ensures Safe(Take(s, step))
  {
    ChangeInFlight(s, step);
    forall j | j in s.open && j != step.id ensures Writes(Own(s, s.open[step.id], step)) !! Writes(s.open[j]) {
      ChangeIsApart(s, step, j);
    }
    OwnStepIsSafe(s, step.id, Own(s, s.open[step.id], step), s.lock);
    TakeIsOwn(s, step);
  }

  lemma AddedIsInFlight(s: Store, i: Id, t: Transaction, u: Transaction, own: Transaction)
    requires AllCovered(t) && AllCovered(u) && Writes(t) !! Writes(u) && Adds(t, u, own)
    requires TotalsLock.Reserved(s.rows, OnDaily(t)) && TotalsLock.Reserved(s.rows, OnDaily(u))
    requires t.daily == Part(Before, {}, {}) && t.accounts == Part(Before, {}, {}) && t.sellers == Part(Before, {}, {})
    ensures InFlight(s, i, own)
  {
    TogetherCovered(t, u, own);
    StillReserved(s.rows, t, u, own);
    BeforeRefresh(s, i, own);
  }

  lemma TakeLockIsSafe(s: Store, i: Id)
    requires Safe(s) && Enabled(s, TakeLock(i))
    ensures Safe(Take(s, TakeLock(i)))
  {
    var t := s.open[i];
    NotYetRefreshed(s, i, t);
    BeforeRefresh(s.(lock := Some(i)), i, t);
    OwnStepIsSafe(s, i, t, Some(i));
    TakeIsOwn(s, TakeLock(i));
  }

  /** Deleting and inserting again one table's totals leaves the others as they are. */
  lemma RefreshesOne(s: Store, i: Id, t: Transaction, own: Transaction)
    requires InFlight(s, i, t)
    requires own.was == t.was && own.puts == t.puts && own.days == t.days && own.payers == t.payers
    requires own.payees == t.payees
    ensures TotalsLock.Reserved(s.rows, OnDaily(own))
    ensures own.daily == t.daily ==> DailyHolds(s, i, own)
    ensures own.accounts == t.accounts ==> AccountsHold(s, i, own)
    ensures own.sellers == t.sellers ==> SellersHold(s, i, own)
  {
  }

  lemma PartRefreshes<K(!new), V(!new)>(d: TotalsLock.Derivation<K, V>, rows: map<Hash, Row>, table: set<Derived<K, V>>,
                                        t: TotalsLock.Transaction<K, V>, stage: Stage, part: Part<K, V>)
    requires PartHolds(d, rows, table, t, stage, true) && stage != Back
    requires stage.Before? ==> part == Deleted(table, t.touched)
    requires stage.Gone? ==> part.stage.Back? && part.deleted == t.deleted
    requires stage.Gone? ==> part.inserted == Regrouped(TotalsLock.Sees(rows, t), d.keysOf, d.agg, t.touched)
    ensures PartHolds(d, rows, table, t.(deleted := part.deleted, inserted := part.inserted), part.stage, true)
  {
  }

  lemma DailyRefresh(s: Store, i: Id, t: Transaction, own: Transaction)
    requires DailyHolds(s, i, t) && s.lock == Some(i)
    requires (t.daily.stage.Before? && own == Own(s, t, Delete(i, DailyTotals)))
          || (t.daily.stage.Gone? && own == Own(s, t, Insert(i, DailyTotals)))
    ensures DailyHolds(s, i, own)
  {
    PartRefreshes(TotalsLock.DAILY, s.rows, s.daily, OnDaily(t), t.daily.stage, own.daily);
  }

  lemma AccountsRefresh(s: Store, i: Id, t: Transaction, own: Transaction)
    requires AccountsHold(s, i, t) && s.lock == Some(i)
    requires (t.accounts.stage.Before? && own == Own(s, t, Delete(i, AccountTotals)))
          || (t.accounts.stage.Gone? && own == Own(s, t, Insert(i, AccountTotals)))
    ensures AccountsHold(s, i, own)
  {
    PartRefreshes(TotalsLock.ACCOUNTS, s.rows, s.accounts, OnAccount(t), t.accounts.stage, own.accounts);
  }

  lemma SellersRefresh(s: Store, i: Id, t: Transaction, own: Transaction)
    requires SellersHold(s, i, t) && s.lock == Some(i)
    requires (t.sellers.stage.Before? && own == Own(s, t, Delete(i, SellerSummaries)))
          || (t.sellers.stage.Gone? && own == Own(s, t, Insert(i, SellerSummaries)))
    ensures SellersHold(s, i, own)
  {
    PartRefreshes(TotalsLock.SELLERS, s.rows, s.sellers, OnSeller(t), t.sellers.stage, own.sellers);
  }

  /** The parts of the other two tables are as they were. */
  lemma OthersUntouched(s: Store, t: Transaction, step: Step)
    requires step.Delete? || step.Insert?
    ensures var own := Own(s, t, step);
            && own.was == t.was && own.puts == t.puts && own.days == t.days && own.payers == t.payers
               && own.payees == t.payees
            && (step.table != DailyTotals ==> own.daily == t.daily)
            && (step.table != AccountTotals ==> own.accounts == t.accounts)
            && (step.table != SellerSummaries ==> own.sellers == t.sellers)
  {
  }

  lemma RefreshIsInFlight(s: Store, i: Id, t: Transaction, step: Step, own: Transaction)
    requires InFlight(s, i, t) && s.lock == Some(i) && step.id == i && own == Own(s, t, step)
    requires (step.Delete? && StageOf(t, step.table).Before?) || (step.Insert? && StageOf(t, step.table).Gone?)
    ensures InFlight(s, i, own)
  {
    OthersUntouched(s, t, step);
    RefreshesOne(s, i, t, own);
    match step.table
    case DailyTotals => DailyRefresh(s, i, t, own);
    case AccountTotals => AccountsRefresh(s, i, t, own);
    case SellerSummaries => SellersRefresh(s, i, t, own);
  }

  lemma RefreshWritesNothing(s: Store, step: Step)
    requires Enabled(s, step) && (step.Delete? || step.Insert?)
    ensures Writes(Own(s, s.open[step.id], step)) == Writes(s.open[step.id])
  {
  }

  lemma RefreshIsSafe(s: Store, step: Step)
    requires Safe(s) && Enabled(s, step) && (step.Delete? || step.Insert?)
    ensures Safe(Take(s, step))
  {
    var i := step.id;
    RefreshIsInFlight(s, i, s.open[i], step, Own(s, s.open[i], step));
    RefreshWritesNothing(s, step);
    OwnStepIsSafe(s, i, Own(s, s.open[i], step), s.lock);
    TakeIsOwn(s, step);
  }

  lemma BeginIsSafe(s: Store, i: Id)
    requires Safe(s) && Enabled(s, Begin(i))
    ensures Safe(Take(s, Begin(i)))
  {
    AloneCovered(map[], map[], {}, {}, {});
    BeforeRefresh(s, i, NEW);
    OwnStepIsSafe(s, i, NEW, s.lock);
    assert Take(s, Begin(i)) == Put(s, i, NEW, s.lock);
  }

  lemma RollBackIsSafe(s: Store, i: Id)
    requires Safe(s) && Enabled(s, RollBack(i))
    ensures Safe(Take(s, RollBack(i)))
  {
    var after := Take(s, RollBack(i));
    forall j | j in after.open ensures InFlight(after, j, after.open[j]) {
      StillInFlight(s, after, j, s.open[j]);
    }
  }

  /** A table whose touched keys were refreshed, if there are any, is the group-by of what the transaction sees. */
  lemma CommittedTable<K(!new), V(!new)>(d: TotalsLock.Derivation<K, V>, rows: map<Hash, Row>,
                                         table: set<Derived<K, V>>,
                                         t: TotalsLock.Transaction<K, V>, stage: Stage, locked: bool)
    requires TotalsLock.Respects(d) && TotalsLock.Reserved(rows, t) && PartHolds(d, rows, table, t, stage, locked)
    requires table == Full(rows, d.keysOf, d.agg)
    requires stage.Back? || forall k :: !t.touched(k)
    ensures (table - t.deleted) + t.inserted == Full(TotalsLock.Sees(rows, t), d.keysOf, d.agg)
  {
    TotalsLock.CommitRefreshes(d, rows, t);
    assert table - (table - Untouched(table, t.touched)) == Untouched(table, t.touched);
    if !stage.Back? {
      assert Untouched(table, t.touched) == table;
      assert Regrouped(TotalsLock.Sees(rows, t), d.keysOf, d.agg, t.touched) == {};
    }
  }

  lemma CommittedTables(s: Store, i: Id)
    requires Safe(s) && Enabled(s, Commit(i))
    ensures TablesExact(Take(s, Commit(i)))
  {
    var t := s.open[i];
    assert InFlight(s, i, t);
    TotalsLock.TablesRespectRows();
    CommittedTable(TotalsLock.DAILY, s.rows, s.daily, OnDaily(t), t.daily.stage, s.lock == Some(i));
    CommittedTable(TotalsLock.ACCOUNTS, s.rows, s.accounts, OnAccount(t), t.accounts.stage, s.lock == Some(i));
    CommittedTable(TotalsLock.SELLERS, s.rows, s.sellers, OnSeller(t), t.sellers.stage, s.lock == Some(i));
  }

  /** A transaction that commits without the lock has written nothing. */
  lemma UnlockedWritesNothing(s: Store, i: Id)
    requires Safe(s) && Enabled(s, Commit(i)) && s.lock != Some(i)
    ensures var after := Take(s, Commit(i));
            after == s.(open := s.open - {i}) && Writes(s.open[i]) == {}
  {
    var t := s.open[i];
    NotYetRefreshed(s, i, t);
    NothingNoted(t);
    CommitsNothing(s, i);
  }

  lemma CommitsNothing(s: Store, i: Id)
    requires Enabled(s, Commit(i)) && s.lock != Some(i) && Writes(s.open[i]) == {}
    requires var t := s.open[i];
             t.daily == Part(Before, {}, {}) && t.accounts == Part(Before, {}, {}) && t.sellers == Part(Before, {}, {})
    ensures Take(s, Commit(i)) == s.(open := s.open - {i})
  {
    assert Sees(s.rows, s.open[i]) == s.rows;
    assert s.daily - {} == s.daily && s.accounts - {} == s.accounts && s.sellers - {} == s.sellers;
  }

  lemma NothingNoted(t: Transaction)
    requires TotalsLock.Covers(TotalsLock.DAILY, OnDaily(t)) && t.days == {}
    ensures Writes(t) == {}
  {
    forall row ensures !TotalsLock.Refreshes(TotalsLock.DAILY, OnDaily(t), row) {
      assert DayKeyOf(row) in TotalsLock.DAILY.keysOf(row) && !OnDaily(t).touched(DayKeyOf(row));
    }
  }

  lemma CommitIsSafe(s: Store, i: Id)
    requires Safe(s) && Enabled(s, Commit(i))
    ensures Safe(Take(s, Commit(i)))
  {
    var t, after := s.open[i], Take(s, Commit(i));
    CommittedTables(s, i);
    if s.lock != Some(i) {
      UnlockedWritesNothing(s, i);
    }
    assert InFlight(s, i, t);
    forall j | j in after.open ensures InFlight(after, j, after.open[j]) {
      assert InFlight(s, j, s.open[j]) && Writes(t) !! Writes(s.open[j]);
    }
  }

  lemma StepIsSafe(s: Store, step: Step)
    requires Safe(s) && Enabled(s, step) && Careful(s, step)
    ensures Safe(Take(s, step))
  {
    match step
    case Begin(i) => BeginIsSafe(s, i);
    case Commit(i) => CommitIsSafe(s, i);
    case RollBack(i) => RollBackIsSafe(s, i);
    case TakeLock(i) => TakeLockIsSafe(s, i);
    case _ => if Changes(step) { ChangeIsSafe(s, step); } else { RefreshIsSafe(s, step); }
  }

  // ------------------------------------------------------------------------------------------- runs

  /** The steps can be taken one after the other. */
  ghost predicate Possible(s: Store, steps: seq<Step>)
    decreases |steps|
  {
    steps == [] || (Enabled(s, steps[0]) && Possible(Take(s, steps[0]), steps[1..]))
  }

  ghost function After(s: Store, steps: seq<Step>): Store
    requires Possible(s, steps)
    decreases |steps|
  {
    if steps == [] then s else After(Take(s, steps[0]), steps[1..])
  }

  ghost predicate AllCareful(s: Store, steps: seq<Step>)
    requires Possible(s, steps)
    decreases |steps|
  {
    steps == [] || (Careful(s, steps[0]) && AllCareful(Take(s, steps[0]), steps[1..]))
  }

  lemma {:induction false} RunIsSafe(s: Store, steps: seq<Step>)
    requires Safe(s) && Possible(s, steps) && AllCareful(s, steps)
    ensures Safe(After(s, steps))
    decreases |steps|
  {
    if steps != [] {
      StepIsSafe(s, steps[0]);
      RunIsSafe(Take(s, steps[0]), steps[1..]);
    }
  }

  /** Totals are inserted under keys of which the table has none left. */
  ghost predicate NoDuplicates<K(!new), V(!new)>(table: set<Derived<K, V>>, part: Part<K, V>) {
    (forall r, q | r in table - part.deleted && q in part.inserted :: r.key != q.key) && KeysUnique(part.inserted)
  }

  lemma PartHasNoDuplicates<K(!new), V(!new)>(d: TotalsLock.Derivation<K, V>, rows: map<Hash, Row>,
                                              table: set<Derived<K, V>>,
                                              t: TotalsLock.Transaction<K, V>, stage: Stage, locked: bool)
    requires PartHolds(d, rows, table, t, stage, locked)
    ensures NoDuplicates(table, Part(stage, t.deleted, t.inserted))
  {
  }

  /** An insert never meets a key that is there, whatever others do between the deletion and the insert. */
  lemma InsertsMeetNoKey(s: Store, i: Id)
    requires Safe(s) && i in s.open
    ensures var t := s.open[i];
            NoDuplicates(s.daily, t.daily) && NoDuplicates(s.accounts, t.accounts) && NoDuplicates(s.sellers, t.sellers)
  {
    var t := s.open[i];
    assert InFlight(s, i, t);
    PartHasNoDuplicates(TotalsLock.DAILY, s.rows, s.daily, OnDaily(t), t.daily.stage, s.lock == Some(i));
    PartHasNoDuplicates(TotalsLock.ACCOUNTS, s.rows, s.accounts, OnAccount(t), t.accounts.stage, s.lock == Some(i));
    PartHasNoDuplicates(TotalsLock.SELLERS, s.rows, s.sellers, OnSeller(t), t.sellers.stage, s.lock == Some(i));
  }

  lemma TablesHaveNoDuplicates(s: Store)
    requires TablesExact(s)
    ensures KeysUnique(s.daily) && KeysUnique(s.accounts) && KeysUnique(s.sellers)
  {
    FullAgrees(s.rows, DayKeys, DayAggregate, k => true);
    FullAgrees(s.rows, AccountKeys, AccountAggregate, k => true);
    FullAgrees(s.rows, SellerKeys, SellerAggregate, k => true);
  }

  /**
   * However many commits of ledgers, removals and re-attributions interleave, in whatever way, the three tables
   * are the group-bys of the committed rows in every state they reach, with no key twice.
   */
  lemma EveryInterleavingIsExact(rows: map<Hash, Row>, steps: seq<Step>)
    requires Possible(Idle(rows), steps) && AllCareful(Idle(rows), steps)
    ensures var s := After(Idle(rows), steps);
            TablesExact(s) && KeysUnique(s.daily) && KeysUnique(s.accounts) && KeysUnique(s.sellers)
  {
    RunIsSafe(Idle(rows), steps);
    TablesHaveNoDuplicates(After(Idle(rows), steps));
  }
}
