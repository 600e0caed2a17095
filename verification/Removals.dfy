/**
 * Removals of ledgers beside other transactions: a removal first looks at the rows it is to delete, to know
 * which totals they touch, and deletes them in a later statement. Its totals are exact exactly if no row the
 * look did not see brought another day, payer or seller.
 */
module Removals {
  import opened GroupBy
  import opened Options
  import opened Settlements
  import opened StoreLock
  import opened Tables
  import opened Totals
  import TotalsLock

  /** A group that loses a row unseen keeps a total that counts it. */
  lemma UnseenIsCounted<K(!new), V(!new)>(d: TotalsLock.Derivation<K, V>, rows: map<Hash, Row>,
                                          t: TotalsLock.Transaction<K, V>, k: K)
    requires k in Keys(rows, d.keysOf) && !t.touched(k)
    requires d.agg(Group(rows, d.keysOf, k)) != d.agg(Group(TotalsLock.Sees(rows, t), d.keysOf, k))
    requires t.deleted <= Full(rows, d.keysOf, d.agg) - Untouched(Full(rows, d.keysOf, d.agg), t.touched)
    ensures (Full(rows, d.keysOf, d.agg) - t.deleted) + t.inserted != Full(TotalsLock.Sees(rows, t), d.keysOf, d.agg)
  {
    var kept := Derived(k, d.agg(Group(rows, d.keysOf, k)));
    assert kept in Full(rows, d.keysOf, d.agg) && kept !in t.deleted;
    assert kept !in Full(TotalsLock.Sees(rows, t), d.keysOf, d.agg);
  }

  lemma SmallerGroup<K>(rows: map<Hash, Row>, after: map<Hash, Row>, keysOf: Row -> set<K>, k: K, h: Hash)
    requires after.Keys <= rows.Keys && (forall g | g in after :: after[g] == rows[g])
    requires h in rows && h !in after && k in keysOf(rows[h])
    ensures k in Keys(rows, keysOf) && h in Group(rows, keysOf, k)
    ensures Group(after, keysOf, k).Keys < Group(rows, keysOf, k).Keys
    ensures |Group(after, keysOf, k)| < |Group(rows, keysOf, k)|
  {
    var few, many := Group(after, keysOf, k), Group(rows, keysOf, k);
    assert h in many.Keys && few.Keys <= many.Keys - {h};
    SubsetSize(few.Keys, many.Keys - {h});
    assert |few| == |few.Keys| && |many| == |many.Keys|;
  }

  lemma {:induction false} SubsetSize<T>(a: set<T>, b: set<T>)
    requires a <= b
    ensures |a| <= |b|
    decreases a
  {
    if x :| x in a {
      SubsetSize(a - {x}, b - {x});
    }
  }

  lemma SmallerSeller(many: map<Hash, Row>, few: map<Hash, Row>, h: Hash)
    requires few.Keys <= many.Keys && (forall g | g in few :: few[g] == many[g]) && h in many && h !in few
    ensures SellerAggregate(few) != SellerAggregate(many)
  {
    var scheme := many[h].facts.scheme;
    assert scheme == Exact || scheme == Upto;
    assert h in OfScheme(many, scheme) && OfScheme(few, scheme) <= OfScheme(many, scheme) - {h};
    SubsetSize(OfScheme(few, scheme), OfScheme(many, scheme) - {h});
  }

  /** A transaction that removes rows and has refreshed what it noted, and nothing it did not. */
  ghost predicate Removing(s: Store, i: Id) {
    i in s.open &&
    var t := s.open[i];
    && t.puts == map[] && Ready(t) && TotalsLock.Reserved(s.rows, OnDaily(t))
    && PartDone(TotalsLock.DAILY, s.rows, s.daily, OnDaily(t), t.daily.stage)
    && PartDone(TotalsLock.ACCOUNTS, s.rows, s.accounts, OnAccount(t), t.accounts.stage)
    && PartDone(TotalsLock.SELLERS, s.rows, s.sellers, OnSeller(t), t.sellers.stage)
  }

  ghost predicate PartDone<K(!new), V(!new)>(d: TotalsLock.Derivation<K, V>, rows: map<Hash, Row>,
                                             table: set<Derived<K, V>>,
                                             t: TotalsLock.Transaction<K, V>, stage: Stage)
  {
    && t.deleted == (if stage.Before? then {} else table - Untouched(table, t.touched))
    && t.inserted == (if stage.Back? then Regrouped(TotalsLock.Sees(rows, t), d.keysOf, d.agg, t.touched) else {})
  }

  lemma SeenIsExact(s: Store, i: Id)
    requires TablesExact(s) && Removing(s, i) && Seen(s.open[i], s.open[i].was)
    ensures TablesExact(Take(s, Commit(i)))
  {
    var t := s.open[i];
    AloneCovered(t.was, t.puts, t.days, t.payers, t.payees);
    AloneCoversAll(t);
    TotalsLock.TablesRespectRows();
    CommittedTable(TotalsLock.DAILY, s.rows, s.daily, OnDaily(t), t.daily.stage, true);
    CommittedTable(TotalsLock.ACCOUNTS, s.rows, s.accounts, OnAccount(t), t.accounts.stage, true);
    CommittedTable(TotalsLock.SELLERS, s.rows, s.sellers, OnSeller(t), t.sellers.stage, true);
  }

  lemma AloneCoversAll(t: Transaction)
    requires AllCovered(Alone(t.was, t.puts, t.days, t.payers, t.payees))
    ensures AllCovered(t)
  {
    var u := Alone(t.was, t.puts, t.days, t.payers, t.payees);
    forall row { NotesRefresh(u, t, row); }
  }

  /** The rows after a removal, and a removed one among those before. */
  ghost predicate Lost(rows: map<Hash, Row>, t: Transaction, h: Hash) {
    t.puts == map[] && h in t.was && (forall g | g in t.was :: g in rows && rows[g] == t.was[g])
  }

  lemma UnseenDay(rows: map<Hash, Row>, t: Transaction, h: Hash)
    requires Lost(rows, t, h) && Day(t.was[h].facts.closedAt) !in t.days
    requires PartDone(TotalsLock.DAILY, rows, Daily(rows), OnDaily(t), t.daily.stage)
    ensures Swapped(Daily(rows), t.daily) != Daily(Sees(rows, t))
  {
    var k := DayKeyOf(t.was[h]);
    SmallerGroup(rows, Sees(rows, t), DayKeys, k, h);
    UnseenIsCounted(TotalsLock.DAILY, rows, OnDaily(t), k);
  }

  lemma UnseenPayer(rows: map<Hash, Row>, t: Transaction, h: Hash)
    requires Lost(rows, t, h) && t.was[h].facts.payer !in t.payers
    requires PartDone(TotalsLock.ACCOUNTS, rows, Accounts(rows), OnAccount(t), t.accounts.stage)
    ensures Swapped(Accounts(rows), t.accounts) != Accounts(Sees(rows, t))
  {
    var k := PayerKey(t.was[h]);
    SmallerGroup(rows, Sees(rows, t), AccountKeys, k, h);
    UnseenIsCounted(TotalsLock.ACCOUNTS, rows, OnAccount(t), k);
  }

  lemma UnseenPayee(rows: map<Hash, Row>, t: Transaction, h: Hash)
    requires Lost(rows, t, h) && t.was[h].facts.payTo !in t.payees
    requires PartDone(TotalsLock.SELLERS, rows, Sellers(rows), OnSeller(t), t.sellers.stage)
    ensures Swapped(Sellers(rows), t.sellers) != Sellers(Sees(rows, t))
  {
    var k := t.was[h].facts.payTo;
    SmallerGroup(rows, Sees(rows, t), SellerKeys, k, h);
    SmallerSeller(Group(rows, SellerKeys, k), Group(Sees(rows, t), SellerKeys, k), h);
    UnseenIsCounted(TotalsLock.SELLERS, rows, OnSeller(t), k);
  }

  lemma UnseenIsWrong(s: Store, i: Id, h: Hash)
    requires TablesExact(s) && Removing(s, i) && h in s.open[i].was
    requires var t, row := s.open[i], s.open[i].was[h].facts;
             Day(row.closedAt) !in t.days || row.payer !in t.payers || row.payTo !in t.payees
    ensures !TablesExact(Take(s, Commit(i)))
  {
    var t := s.open[i];
    assert Lost(s.rows, t, h);
    if Day(t.was[h].facts.closedAt) !in t.days {
      UnseenDay(s.rows, t, h);
    } else if t.was[h].facts.payer !in t.payers {
      UnseenPayer(s.rows, t, h);
    } else {
      UnseenPayee(s.rows, t, h);
    }
  }

  /** A removal leaves the tables exact exactly if its look saw the days, payers and sellers of all it deletes. */
  lemma RemovalIsExact(s: Store, i: Id)
    requires TablesExact(s) && Removing(s, i)
    ensures TablesExact(Take(s, Commit(i))) <==> Seen(s.open[i], s.open[i].was)
  {
    var t := s.open[i];
    if Seen(t, t.was) {
      SeenIsExact(s, i);
    } else {
      var h := Unseen(t);
      UnseenIsWrong(s, i, h);
    }
  }

  lemma Unseen(t: Transaction) returns (h: Hash)
    requires !Seen(t, t.was)
    ensures h in t.was
    ensures var row := t.was[h].facts; Day(row.closedAt) !in t.days || row.payer !in t.payers || row.payTo !in t.payees
  {
    if day :| day in DaysOf(t.was) && day !in t.days {
      h :| h in t.was && Day(t.was[h].facts.closedAt) == day;
    } else if payer :| payer in PayersOf(t.was) && payer !in t.payers {
      h :| h in t.was && t.was[h].facts.payer == payer;
    } else {
      var payee :| payee in PayeesOf(t.was) && payee !in t.payees;
      h :| h in t.was && t.was[h].facts.payTo == payee;
    }
  }

  // ----------------------------------------------------- a worker commits between look and deletion

  /** What a worker's commit of a ledger does, step by step. */
  function CommitSteps(i: Id, rows: map<Hash, Row>): seq<Step> {
    RefreshSteps(i, rows) + [Commit(i)]
  }

  function RefreshSteps(i: Id, rows: map<Hash, Row>): seq<Step> {
    [Begin(i), Upsert(i, rows), TakeLock(i)] + TableSteps(i, DailyTotals) + TableSteps(i, AccountTotals)
        + TableSteps(i, SellerSummaries)
  }

  function TableSteps(i: Id, table: Table): seq<Step> {
    [Delete(i, table), Insert(i, table)]
  }

  /** Runs one after the other. */
  lemma {:induction false} Continued(s: Store, first: seq<Step>, next: seq<Step>)
    requires Possible(s, first) && Possible(After(s, first), next)
    ensures Possible(s, first + next) && After(s, first + next) == After(After(s, first), next)
    ensures AllCareful(s, first) && AllCareful(After(s, first), next) ==> AllCareful(s, first + next)
    decreases |first|
  {
    if first == [] {
      assert first + next == next;
    } else {
      Continued(Take(s, first[0]), first[1..], next);
      assert (first + next)[1..] == first[1..] + next;
    }
  }

  lemma OneStep(s: Store, step: Step)
    requires Enabled(s, step)
    ensures Possible(s, [step]) && After(s, [step]) == Take(s, step)
    ensures Careful(s, step) ==> AllCareful(s, [step])
  {
  }

  lemma TwoSteps(s: Store, first: Step, second: Step)
    requires Enabled(s, first) && Enabled(Take(s, first), second)
    ensures Possible(s, [first, second]) && After(s, [first, second]) == Take(Take(s, first), second)
    ensures Careful(s, first) && Careful(Take(s, first), second) ==> AllCareful(s, [first, second])
  {
    OneStep(s, first);
    OneStep(Take(s, first), second);
    Continued(s, [first], [second]);
    assert [first] + [second] == [first, second];
  }

  /** The store with a transaction beside those in `s`, which has written new rows and holds the lock or not. */
  ghost predicate Beside(s: Store, now: Store, i: Id, rows: map<Hash, Row>, locked: bool) {
    && i !in s.open && now.rows == s.rows && now.lock == (if locked then Some(i) else None)
    && i in now.open && now.open - {i} == s.open
    && now.open[i].was == map[] && now.open[i].puts == rows
  }

  /** A transaction that has refreshed nothing. */
  predicate Fresh(t: Transaction) {
    t.daily.stage.Before? && t.accounts.stage.Before? && t.sellers.stage.Before?
  }

  predicate Done(t: Transaction) {
    t.daily.stage.Back? && t.accounts.stage.Back? && t.sellers.stage.Back?
  }

  lemma WorkerUpserts(s: Store, begun: Store, i: Id, rows: map<Hash, Row>)
    requires i !in s.open && s.lock.None? && rows.Keys !! s.rows.Keys && begun == Put(s, i, NEW, None)
    requires forall j | j in s.open :: Writes(s.open[j]) !! rows.Keys
    ensures Enabled(begun, Upsert(i, rows)) && Careful(begun, Upsert(i, rows))
    ensures var after := Take(begun, Upsert(i, rows)); Beside(s, after, i, rows, false) && Fresh(after.open[i])
  {
    assert OnlyWriter(begun, Upsert(i, rows));
    TakeIsOwn(begun, Upsert(i, rows));
    assert Keep(s.rows, rows.Keys + {}) == map[];
    assert NEW.was + map[] == map[] && NEW.puts + rows == rows;
    assert Take(begun, Upsert(i, rows)).open - {i} == s.open;
  }

  lemma WorkerBegins(s: Store, i: Id, rows: map<Hash, Row>)
    requires i !in s.open && s.lock.None? && rows.Keys !! s.rows.Keys
    requires forall j | j in s.open :: Writes(s.open[j]) !! rows.Keys
    ensures var steps := [Begin(i), Upsert(i, rows)];
            Possible(s, steps) && AllCareful(s, steps) && Beside(s, After(s, steps), i, rows, false)
                && Fresh(After(s, steps).open[i])
  {
    assert Take(s, Begin(i)) == Put(s, i, NEW, None);
    WorkerUpserts(s, Take(s, Begin(i)), i, rows);
    TwoSteps(s, Begin(i), Upsert(i, rows));
  }

  lemma WorkerLocks(s: Store, now: Store, i: Id, rows: map<Hash, Row>)
    requires Beside(s, now, i, rows, false)
    ensures Possible(now, [TakeLock(i)]) && AllCareful(now, [TakeLock(i)])
    ensures var after := After(now, [TakeLock(i)]); Beside(s, after, i, rows, true) && after.open[i] == now.open[i]
  {
    OneStep(now, TakeLock(i));
    TakeIsOwn(now, TakeLock(i));
    assert (now.open[i := now.open[i]]) - {i} == now.open - {i};
  }

  lemma WorkerRefreshes(s: Store, now: Store, i: Id, rows: map<Hash, Row>, table: Table)
    requires Beside(s, now, i, rows, true) && StageOf(now.open[i], table).Before?
    ensures Possible(now, TableSteps(i, table)) && AllCareful(now, TableSteps(i, table))
    ensures Beside(s, After(now, TableSteps(i, table)), i, rows, true)
    ensures var t, own := now.open[i], After(now, TableSteps(i, table)).open[i];
            && own.daily.stage == (if table.DailyTotals? then Back else t.daily.stage)
            && own.accounts.stage == (if table.AccountTotals? then Back else t.accounts.stage)
            && own.sellers.stage == (if table.SellerSummaries? then Back else t.sellers.stage)
  {
    var own := Own(now, now.open[i], Delete(i, table));
    var deleted := Put(now, i, own, Some(i));
    TakeIsOwn(now, Delete(i, table));
    OthersUntouched(now, now.open[i], Delete(i, table));
    assert Take(now, Delete(i, table)) == deleted && StageOf(own, table).Gone?;
    TakeIsOwn(deleted, Insert(i, table));
    OthersUntouched(deleted, own, Insert(i, table));
    TwoSteps(now, Delete(i, table), Insert(i, table));
    assert After(now, TableSteps(i, table)).open - {i} == now.open - {i};
  }

  lemma WorkerHolds(s: Store, i: Id, rows: map<Hash, Row>)
    requires i !in s.open && s.lock.None? && rows.Keys !! s.rows.Keys
    requires forall j | j in s.open :: Writes(s.open[j]) !! rows.Keys
    ensures var steps := [Begin(i), Upsert(i, rows)] + [TakeLock(i)];
            Possible(s, steps) && AllCareful(s, steps) && Beside(s, After(s, steps), i, rows, true)
                && Fresh(After(s, steps).open[i])
  {
    var steps := [Begin(i), Upsert(i, rows)];
    WorkerBegins(s, i, rows);
    WorkerLocks(s, After(s, steps), i, rows);
    Continued(s, steps, [TakeLock(i)]);
  }

  lemma WorkerFinishes(s: Store, now: Store, i: Id, rows: map<Hash, Row>)
    requires Beside(s, now, i, rows, true) && Fresh(now.open[i])
    ensures var steps := TableSteps(i, DailyTotals) + TableSteps(i, AccountTotals) + TableSteps(i, SellerSummaries);
            Possible(now, steps) && AllCareful(now, steps) && Beside(s, After(now, steps), i, rows, true)
                && Done(After(now, steps).open[i])
  {
    var daily, accounts := TableSteps(i, DailyTotals), TableSteps(i, AccountTotals);
    var sellers := TableSteps(i, SellerSummaries);
    WorkerRefreshes(s, now, i, rows, DailyTotals);
    var one := After(now, daily);
    WorkerRefreshes(s, one, i, rows, AccountTotals);
    Continued(now, daily, accounts);
    var two := After(one, accounts);
    WorkerRefreshes(s, two, i, rows, SellerSummaries);
    Continued(now, daily + accounts, sellers);
  }

  lemma WorkerRuns(s: Store, i: Id, rows: map<Hash, Row>)
    requires i !in s.open && s.lock.None? && rows.Keys !! s.rows.Keys
    requires forall j | j in s.open :: Writes(s.open[j]) !! rows.Keys
    ensures var steps := RefreshSteps(i, rows);
            Possible(s, steps) && AllCareful(s, steps) && Beside(s, After(s, steps), i, rows, true)
                && Done(After(s, steps).open[i])
  {
    var first := [Begin(i), Upsert(i, rows)] + [TakeLock(i)];
    var next := TableSteps(i, DailyTotals) + TableSteps(i, AccountTotals) + TableSteps(i, SellerSummaries);
    WorkerHolds(s, i, rows);
    WorkerFinishes(s, After(s, first), i, rows);
    Continued(s, first, next);
    assert first + next == RefreshSteps(i, rows);
  }

  /** While nobody holds the lock, a worker can commit a ledger's new rows. */
  lemma WorkerCommits(s: Store, i: Id, rows: map<Hash, Row>)
    requires i !in s.open && s.lock.None? && rows.Keys !! s.rows.Keys
    requires forall j | j in s.open :: Writes(s.open[j]) !! rows.Keys
    ensures var steps := CommitSteps(i, rows);
            && Possible(s, steps) && AllCareful(s, steps)
            && var after := After(s, steps);
               after.rows == s.rows + rows && after.open == s.open && after.lock.None?
  {
    WorkerRuns(s, i, rows);
    var now := After(s, RefreshSteps(i, rows));
    OneStep(now, Commit(i));
    Continued(s, RefreshSteps(i, rows), [Commit(i)]);
    assert now.rows - {} == now.rows;
  }

  /**
   * A removal that finds no row of ledger 5 deletes the one a worker commits there afterwards, and refreshes
   * nothing: the totals count a row that is gone.
   */
  lemma LateRowIsMissed()
    ensures var rows := TotalsLock.OneRow(1, TotalsLock.EXACT_ROW);
            var steps := [Begin(1), Look(1, {5})] + CommitSteps(2, rows) + [Drop(1, {5}), Commit(1)];
            Possible(Idle(map[]), steps) && !TablesExact(After(Idle(map[]), steps))
  {
    var s, rows, looking := Idle(map[]), TotalsLock.OneRow(1, TotalsLock.EXACT_ROW), [Begin(1), Look(1, {5})];
    LookSeesNothing();
    RunIsSafe(s, looking);
    CommittedMeanwhile(After(s, looking), rows);
    Continued(s, looking, CommitSteps(2, rows));
    LateDrop(After(s, looking + CommitSteps(2, rows)));
    Continued(s, looking + CommitSteps(2, rows), [Drop(1, {5}), Commit(1)]);
  }

  lemma CommittedMeanwhile(s: Store, rows: map<Hash, Row>)
    requires Safe(s) && s.rows == map[] && s.lock.None? && s.open == map[1 := NEW]
    ensures Possible(s, CommitSteps(2, rows))
    ensures var after := After(s, CommitSteps(2, rows));
            Safe(after) && after.rows == rows && after.lock.None? && after.open == s.open
  {
    WorkerCommits(s, 2, rows);
    RunIsSafe(s, CommitSteps(2, rows));
    assert s.rows + rows == rows;
  }

  lemma LookSeesNothing()
    ensures var s, steps := Idle(map[]), [Begin(1), Look(1, {5})];
            && Possible(s, steps) && AllCareful(s, steps)
            && After(s, steps) == s.(open := map[1 := NEW])
  {
    var s := Idle(map[]);
    var begun := Take(s, Begin(1));
    assert begun == Put(s, 1, NEW, None);
    TwoSteps(s, Begin(1), Look(1, {5}));
    TakeIsOwn(begun, Look(1, {5}));
    NothingToNote(begun, {5});
    assert begun.open[1 := NEW] == begun.open;
  }

  lemma NothingToNote(s: Store, ledgers: set<Ledger>)
    requires s.rows == map[]
    ensures Own(s, NEW, Look(1, ledgers)) == NEW
  {
    assert RowsIn(s.rows, ledgers) == map[];
    assert DaysOf(map[]) == {} && PayersOf(map[]) == {} && PayeesOf(map[]) == {};
  }

  lemma LateDrop(s: Store)
    requires Safe(s) && s.lock.None? && s.rows == TotalsLock.OneRow(1, TotalsLock.EXACT_ROW) && s.open == map[1 := NEW]
    ensures var steps := [Drop(1, {5}), Commit(1)];
            Possible(s, steps) && !TablesExact(After(s, steps))
  {
    var own := NEW.(was := s.rows);
    var dropped := Put(s, 1, own, None);
    DropsAll(s);
    TakeIsOwn(s, Drop(1, {5}));
    TwoSteps(s, Drop(1, {5}), Commit(1));
    DroppedIsRemoving(dropped, own);
    UnseenIsWrong(dropped, 1, 1);
  }

  lemma DroppedIsRemoving(s: Store, t: Transaction)
    requires 1 in s.open && s.open[1] == t == NEW.(was := s.rows)
    ensures Removing(s, 1)
  {
  }

  lemma DropsAll(s: Store)
    requires s.rows == TotalsLock.OneRow(1, TotalsLock.EXACT_ROW)
    ensures Own(s, NEW, Drop(1, {5})) == NEW.(was := s.rows)
  {
    var none: map<Hash, Row> := map[];
    assert RowsIn(s.rows, {5}) == s.rows && none.Keys + s.rows.Keys == s.rows.Keys;
    assert NEW.was + Keep(s.rows, s.rows.Keys) == s.rows && NEW.puts + none == NEW.puts;
  }
}
