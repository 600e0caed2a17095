/**
 * The indexer's writes: one method per transaction. Each recomputes only the totals it touched; its
 * contract says the base tables change as `Index` states and the totals are again those of every row.
 */
module ExplorerStore {
  import opened Batches
  import Effects
  import opened GroupBy
  import opened Index
  import opened IndexInvariant
  import opened Keyset
  import opened Options
  import opened Settlements
  import opened Tables
  import opened Totals

  /** Rows per INSERT. */
  const INSERT_CHUNK := 500

  /** Rows re-attributed per page. */
  const REATTRIBUTE_PAGE := 1_000

  /** The account rows a refresh of the given payers and sellers leaves alone. */
  ghost function OffAccounts(payers: set<Address>, payees: set<Address>): AccountKey -> bool {
    k => !OnAccounts(payers, payees, k)
  }

  ghost function OffSellers(payees: set<Address>): Address -> bool {
    k => k !in payees
  }

  ghost function OffDays(days: set<nat>): DayKey -> bool {
    k => !OnDays(days, k)
  }

  /** The stored routes once the plan was applied to those in `done`. */
  ghost function RoutesSoFar(routes: map<RouteKey, Route>, plan: map<RouteKey, PlannedRoute>,
                             done: set<RouteKey>): map<RouteKey, Route> {
    MapOf(routes.Keys - (done - plan.Keys),
          k => if k in done || k !in routes then SyncedRoute(routes, plan, k) else routes[k])
  }

  ghost function CandidatesSoFar(candidates: set<Candidate>, plan: map<RouteKey, PlannedRoute>,
                                 done: set<RouteKey>): set<Candidate> {
    set c | c in candidates && (c.route in done ==> c in KeptCandidates(candidates, plan))
  }

  function DropRoute(candidates: set<Candidate>, key: RouteKey): set<Candidate> {
    set c | c in candidates && c.route != key
  }

  function DropBelow(candidates: set<Candidate>, key: RouteKey, from: Ledger): set<Candidate> {
    set c | c in candidates && !(c.route == key && c.ledger < from)
  }

  function DropAbove(candidates: set<Candidate>, key: RouteKey, to: Ledger): set<Candidate> {
    set c | c in candidates && !(c.route == key && c.ledger > to)
  }

  /** What applying the plan to one more stored route does to the routes. */
  lemma RoutesNext(routes: map<RouteKey, Route>, plan: map<RouteKey, PlannedRoute>, done: set<RouteKey>, key: RouteKey)
    requires key in routes && key !in done
    ensures var before, after := RoutesSoFar(routes, plan, done), RoutesSoFar(routes, plan, done + {key});
      key in before && before[key] == routes[key] &&
      after == if key in plan then before[key := Replanned(routes[key], plan[key])] else before - {key}
  {}

  /** And to the candidates. */
  lemma CandidatesNext(candidates: set<Candidate>, plan: map<RouteKey, PlannedRoute>, done: set<RouteKey>,
                       key: RouteKey)
    requires key !in done
    ensures var before, after := CandidatesSoFar(candidates, plan, done),
            CandidatesSoFar(candidates, plan, done + {key});
      if key !in plan then after == DropRoute(before, key)
      else if plan[key].to.None? then after == DropBelow(before, key, plan[key].from)
      else after == DropAbove(DropBelow(before, key, plan[key].from), key, plan[key].to.value)
  {}

  lemma CandidatesDone(routes: map<RouteKey, Route>, candidates: set<Candidate>, plan: map<RouteKey, PlannedRoute>)
    requires forall c | c in candidates :: c.route in routes
    ensures CandidatesSoFar(candidates, plan, routes.Keys) == KeptCandidates(candidates, plan)
  {}

  /** The planned routes that were not stored start unwalked. */
  ghost function RoutesAdded(routes: map<RouteKey, Route>, plan: map<RouteKey, PlannedRoute>,
                             added: set<RouteKey>): map<RouteKey, Route> {
    RoutesSoFar(routes, plan, routes.Keys) + MapOf(added, k => SyncedRoute(map[], plan, k))
  }

  lemma RoutesAddedNext(routes: map<RouteKey, Route>, plan: map<RouteKey, PlannedRoute>, added: set<RouteKey>,
                        key: RouteKey)
    requires key in plan
    ensures RoutesAdded(routes, plan, added + {key}) ==
            RoutesAdded(routes, plan, added)[key := Route(plan[key].from, plan[key].to, None)]
  {}

  lemma RoutesDone(routes: map<RouteKey, Route>, plan: map<RouteKey, PlannedRoute>)
    ensures RoutesAdded(routes, plan, plan.Keys - routes.Keys) == SyncedRoutes(routes, plan)
  {}

  /** Storing one more slice of a page. */
  lemma InsertNext(ledgers: map<Ledger, LedgerRow>, candidates: set<Candidate>, found: set<Ledger>, left: set<Ledger>,
                   slice: set<Ledger>, key: RouteKey)
    requires slice <= left <= found
    ensures NewLedgers(slice) + (NewLedgers(found - left) + ledgers) == NewLedgers(found - (left - slice)) + ledgers
    ensures candidates + NewCandidates(found - left, key) + NewCandidates(slice, key) ==
            candidates + NewCandidates(found - (left - slice), key)
  {
    assert found - (left - slice) == found - left + slice;
    assert NewCandidates(found - left + slice, key) == NewCandidates(found - left, key) + NewCandidates(slice, key);
  }

  /** Inserting one more slice of rows or failed attempts. */
  lemma InsertRowsNext(rows: map<Hash, Row>, front: seq<Row>, back: seq<Row>)
    ensures rows + RowTable(front) + RowTable(back) == rows + RowTable(front + back)
  {
    RowTableConcat(front, back);
  }

  lemma InsertFailuresNext(failures: map<Hash, FailedAttempt>, front: seq<FailedAttempt>, back: seq<FailedAttempt>)
    ensures FailedTable(back) + (FailedTable(front) + failures) == FailedTable(front + back) + failures
  {
    FailedTableConcat(front, back);
  }

  lemma WithoutNone(db: Db)
    ensures Without(db, {}) == db
  {
    assert db.ledgers - {} == db.ledgers && db.exclusions - {} == db.exclusions;
    assert RowsOutside(db.settlements, {}) == db.settlements && FailuresOutside(db.failures, {}) == db.failures;
  }

  lemma ResetNothing(db: Db, rules: string, classification: string)
    requires StaleLedgers(db.ledgers, rules, classification) == {}
    ensures Index.ResetStale(db, rules, classification) == db
  {
    WithoutNone(db);
    assert db.ledgers + NewLedgers({}) == db.ledgers;
  }

  lemma RemovalSize<K, V>(m: map<K, V>, gone: set<K>)
    requires gone <= m.Keys
    ensures |m - gone| == |m| - |gone|
  {
    assert m.Keys == (m - gone).Keys + gone;
  }

  lemma LessItself<T>(lost: set<T>, gained: set<T>)
    ensures lost + gained - gained == lost - gained
  {
  }

  lemma ReplacedAgree<K(!new), V(!new)>(rest: map<Hash, Row>, lost: map<Hash, Row>, gained: map<Hash, Row>,
                                        keysOf: Row -> set<K>, agg: map<Hash, Row> -> V, on: K -> bool)
    requires forall k | on(k) :: Group(rest, keysOf, k) == Group(rest + lost, keysOf, k)
    requires forall k | on(k) :: Group(rest, keysOf, k) == Group(rest + gained, keysOf, k)
    ensures Agrees(Full(rest + lost, keysOf, agg), rest + gained, keysOf, agg, on)
  {
    SameAggregatesAgree(rest + lost, rest + gained, keysOf, agg, on);
  }

  lemma ReplacedDays(rest: map<Hash, Row>, lost: map<Hash, Row>, gained: map<Hash, Row>)
    requires rest.Keys !! lost.Keys && rest.Keys !! gained.Keys
    ensures Agrees(Daily(rest + lost), rest + gained, DayKeys, DayAggregate, OffDays(DaysOf(lost) + DaysOf(gained)))
  {
    AddedRowsTouch(rest, lost);
    AddedRowsTouch(rest, gained);
    ReplacedAgree(rest, lost, gained, DayKeys, DayAggregate, OffDays(DaysOf(lost) + DaysOf(gained)));
  }

  lemma ReplacedAccounts(rest: map<Hash, Row>, lost: map<Hash, Row>, gained: map<Hash, Row>)
    requires rest.Keys !! lost.Keys && rest.Keys !! gained.Keys
    ensures Agrees(Accounts(rest + lost), rest + gained, AccountKeys, AccountAggregate,
                   OffAccounts(PayersOf(lost) + PayersOf(gained), PayeesOf(lost) + PayeesOf(gained)))
  {
    AddedRowsTouch(rest, lost);
    AddedRowsTouch(rest, gained);
    ReplacedAgree(rest, lost, gained, AccountKeys, AccountAggregate,
                  OffAccounts(PayersOf(lost) + PayersOf(gained), PayeesOf(lost) + PayeesOf(gained)));
  }

  lemma ReplacedSellers(rest: map<Hash, Row>, lost: map<Hash, Row>, gained: map<Hash, Row>)
    requires rest.Keys !! lost.Keys && rest.Keys !! gained.Keys
    ensures Agrees(Sellers(rest + lost), rest + gained, SellerKeys, SellerAggregate,
                   OffSellers(PayeesOf(lost) + PayeesOf(gained)))
  {
    AddedRowsTouch(rest, lost);
    AddedRowsTouch(rest, gained);
    ReplacedAgree(rest, lost, gained, SellerKeys, SellerAggregate, OffSellers(PayeesOf(lost) + PayeesOf(gained)));
  }

  lemma NothingTouched()
    ensures DaysOf(map[]) == {} && PayersOf(map[]) == {} && PayeesOf(map[]) == {}
  {
  }

  /** Rows of new hashes replace none. */
  lemma NothingReplaced(rows: map<Hash, Row>, added: map<Hash, Row>)
    requires rows.Keys !! added.Keys
    ensures var lost := Keep(rows, added.Keys); DaysOf(lost) == {} && PayersOf(lost) == {} && PayeesOf(lost) == {}
  {
    assert Keep(rows, added.Keys) == map[];
  }

  lemma ReattributeIs(db: Db, registry: Registry, rows: map<Hash, Row>, ledgers: map<Ledger, LedgerRow>)
    requires rows == ReattributedRows(db.settlements, registry)
    requires ledgers == RestampedLedgers(db.ledgers, registry, rows)
    ensures Index.Reattribute(db, registry) == db.(settlements := rows, ledgers := ledgers)
  {
  }

  /** Ledgers as a page or a reset stores them. */
  method Waiting(found: set<Ledger>) returns (waiting: map<Ledger, LedgerRow>)
    ensures waiting == NewLedgers(found)
  {
    waiting := Tabulate(found, l => NEW_LEDGER);
  }

  class Store {
    var routes: map<RouteKey, Route>
    var candidates: set<Candidate>
    var ledgers: map<Ledger, LedgerRow>
    var settlements: map<Hash, Row>
    var failures: map<Hash, FailedAttempt>
    var exclusions: map<Ledger, map<string, nat>>
    var daily: set<Derived<DayKey, DayTotal>>
    var accounts: set<Derived<AccountKey, AccountTotal>>
    var sellers: set<Derived<Address, SellerSummary>>

    ghost function Base(): Db
      reads this
    {
      Db(routes, candidates, ledgers, settlements, failures, exclusions)
    }

    /** Every derived table is the full group-by of the settlements. */
    ghost predicate TotalsExact()
      reads this
    {
      daily == Daily(settlements) && accounts == Accounts(settlements) && sellers == Sellers(settlements)
    }

    ghost predicate Valid()
      reads this
    {
      Consistent(Base()) && TotalsExact()
    }

    constructor ()
      ensures Valid() && Base() == EMPTY
    {
      routes, candidates, ledgers, settlements, failures, exclusions := map[], {}, map[], map[], map[], map[];
      daily, accounts, sellers := {}, {}, {};
      new;
      EmptyIsConsistent();
    }

    // ------------------------------------------------------------------------------------- totals

    /**
     * Recomputes the daily totals of `days` from the settlements table: of the days that were `stale`, the others stay
     * so.
     */
    method RefreshAggregates(days: set<nat>, ghost stale: set<nat>)
      requires Agrees(daily, settlements, DayKeys, DayAggregate, OffDays(stale))
      modifies this`daily
      ensures Agrees(daily, settlements, DayKeys, DayAggregate, OffDays(stale - days))
      ensures stale <= days ==> daily == Daily(settlements)
    {
      ghost var before := daily;
      daily := Refreshed(daily, settlements, DayKeys, DayAggregate, k => OnDays(days, k));
      RefreshExtendsAgreement(before, settlements, DayKeys, DayAggregate, k => OnDays(days, k), OffDays(stale),
                              OffDays(stale - days));
      if stale <= days {
        AgreesEverywhereIsFull(daily, settlements, DayKeys, DayAggregate, OffDays(stale - days));
      }
    }

    /** Makes the account rows of some payers and sellers, and those sellers' summaries, exact again. */
    method RefreshAccountTotals(payers: set<Address>, payees: set<Address>, ghost stalePayers: set<Address>,
                                ghost stalePayees: set<Address>)
      requires Agrees(accounts, settlements, AccountKeys, AccountAggregate, OffAccounts(stalePayers, stalePayees))
      requires Agrees(sellers, settlements, SellerKeys, SellerAggregate, OffSellers(stalePayees))
      modifies this`accounts, this`sellers
      ensures Agrees(accounts, settlements, AccountKeys, AccountAggregate,
                     OffAccounts(stalePayers - payers, stalePayees - payees))
      ensures Agrees(sellers, settlements, SellerKeys, SellerAggregate, OffSellers(stalePayees - payees))
      ensures stalePayers <= payers && stalePayees <= payees ==>
                accounts == Accounts(settlements) && sellers == Sellers(settlements)
    {
      RefreshPayers(payers, stalePayers, stalePayees);
      RefreshPayees(payees, stalePayers - payers, stalePayees);
      if stalePayers <= payers && stalePayees <= payees {
        AgreesEverywhereIsFull(accounts, settlements, AccountKeys, AccountAggregate,
                               OffAccounts(stalePayers - payers, stalePayees - payees));
        AgreesEverywhereIsFull(sellers, settlements, SellerKeys, SellerAggregate, OffSellers(stalePayees - payees));
      }
    }

    method RefreshPayers(payers: set<Address>, ghost stale: set<Address>, ghost payees: set<Address>)
      requires Agrees(accounts, settlements, AccountKeys, AccountAggregate, OffAccounts(stale, payees))
      modifies this`accounts
      ensures Agrees(accounts, settlements, AccountKeys, AccountAggregate, OffAccounts(stale - payers, payees))
    {
      var left := payers;
      assert stale - (payers - left) == stale;
      while left != {}
        invariant left <= payers
        invariant Agrees(accounts, settlements, AccountKeys, AccountAggregate,
                         OffAccounts(stale - (payers - left), payees))
        decreases left
      {
        var slice := NextSlice(left, INSERT_CHUNK);
        ghost var before, was := accounts, stale - (payers - left);
        left := left - slice;
        accounts := Refreshed(accounts, settlements, AccountKeys, AccountAggregate,
                              (k: AccountKey) => k.role.Payer? && k.address in slice);
        RefreshExtendsAgreement(before, settlements, AccountKeys, AccountAggregate,
                                (k: AccountKey) => k.role.Payer? && k.address in slice,
                                OffAccounts(was, payees), OffAccounts(stale - (payers - left), payees));
      }
      assert payers - left == payers;
    }

    method RefreshPayees(payees: set<Address>, ghost payers: set<Address>, ghost stale: set<Address>)
      requires Agrees(accounts, settlements, AccountKeys, AccountAggregate, OffAccounts(payers, stale))
      requires Agrees(sellers, settlements, SellerKeys, SellerAggregate, OffSellers(stale))
      modifies this`accounts, this`sellers
      ensures Agrees(accounts, settlements, AccountKeys, AccountAggregate, OffAccounts(payers, stale - payees))
      ensures Agrees(sellers, settlements, SellerKeys, SellerAggregate, OffSellers(stale - payees))
    {
      var left := payees;
      assert stale - (payees - left) == stale;
      while left != {}
        invariant left <= payees
        invariant Agrees(accounts, settlements, AccountKeys, AccountAggregate,
                         OffAccounts(payers, stale - (payees - left)))
        invariant Agrees(sellers, settlements, SellerKeys, SellerAggregate, OffSellers(stale - (payees - left)))
        decreases left
      {
        var slice := NextSlice(left, INSERT_CHUNK);
        ghost var before, beforeSellers, was := accounts, sellers, stale - (payees - left);
        left := left - slice;
        accounts := Refreshed(accounts, settlements, AccountKeys, AccountAggregate,
                              (k: AccountKey) => k.role.PayTo? && k.address in slice);
        sellers := Refreshed(sellers, settlements, SellerKeys, SellerAggregate, (k: Address) => k in slice);
        RefreshExtendsAgreement(before, settlements, AccountKeys, AccountAggregate,
                                (k: AccountKey) => k.role.PayTo? && k.address in slice,
                                OffAccounts(payers, was), OffAccounts(payers, stale - (payees - left)));
        RefreshExtendsAgreement(beforeSellers, settlements, SellerKeys, SellerAggregate, (k: Address) => k in slice,
                                OffSellers(was), OffSellers(stale - (payees - left)));
      }
      assert payees - left == payees;
    }

    /** The totals are those of the settlements, except perhaps of these days, payers and sellers. */
    ghost predicate ExactBut(days: set<nat>, payers: set<Address>, payees: set<Address>)
      reads this
    {
      && Agrees(daily, settlements, DayKeys, DayAggregate, OffDays(days))
      && Agrees(accounts, settlements, AccountKeys, AccountAggregate, OffAccounts(payers, payees))
      && Agrees(sellers, settlements, SellerKeys, SellerAggregate, OffSellers(payees))
    }

    /** Recomputes totals once `lost` rows made way for `gained` ones beside `rest`. */
    method RefreshTotals(days: set<nat>, payers: set<Address>, payees: set<Address>,
                         ghost rest: map<Hash, Row>, ghost lost: map<Hash, Row>, ghost gained: map<Hash, Row>)
      requires rest.Keys !! lost.Keys && rest.Keys !! gained.Keys && settlements == rest + gained
      requires daily == Daily(rest + lost) && accounts == Accounts(rest + lost) && sellers == Sellers(rest + lost)
      modifies this`daily, this`accounts, this`sellers
      ensures ExactBut(DaysOf(lost) + DaysOf(gained) - days, PayersOf(lost) + PayersOf(gained) - payers,
                       PayeesOf(lost) + PayeesOf(gained) - payees)
      ensures (DaysOf(lost) + DaysOf(gained) <= days && PayersOf(lost) + PayersOf(gained) <= payers
               && PayeesOf(lost) + PayeesOf(gained) <= payees) ==> TotalsExact()
    {
      ghost var allDays := DaysOf(lost) + DaysOf(gained);
      ghost var allPayers, allPayees := PayersOf(lost) + PayersOf(gained), PayeesOf(lost) + PayeesOf(gained);
      ReplacedDays(rest, lost, gained);
      ReplacedAccounts(rest, lost, gained);
      ReplacedSellers(rest, lost, gained);
      RefreshAggregates(days, allDays);
      RefreshAccountTotals(payers, payees, allPayers, allPayees);
    }

    // ---------------------------------------------------------------------------------- discovery

    /** Takes `Index.SyncRoutes`, and says by how much the ledgers shrank. */
    method SyncRoutes(plan: seq<PlannedRoute>) returns (removed: nat)
      requires Valid()
      modifies this
      ensures Valid() && Base() == Index.SyncRoutes(old(Base()), plan)
      ensures removed == |old(ledgers)| - |ledgers|
    {
      ghost var db := Base();
      SyncKeepsConsistent(db, plan);
      Replan(plan);
      removed := RemoveOrphans();
    }

    /** Brings the stored routes and their candidates to the plan's bounds. */
    method Replan(plan: seq<PlannedRoute>)
      requires forall c | c in candidates :: c.route in routes
      modifies this`routes, this`candidates
      ensures routes == SyncedRoutes(old(routes), PlanTable(plan))
      ensures candidates == KeptCandidates(old(candidates), PlanTable(plan))
    {
      ghost var table, was, listed := PlanTable(plan), routes, candidates;
      var planned := ReplanStored(plan);
      CandidatesDone(was, listed, table);
      InsertRoutes(planned, was, table);
      RoutesDone(was, table);
    }

    /** Applies the plan to the routes already stored, and returns the rest of it. */
    method ReplanStored(plan: seq<PlannedRoute>) returns (planned: map<RouteKey, PlannedRoute>)
      requires forall c | c in candidates :: c.route in routes
      modifies this`routes, this`candidates
      ensures planned == PlanTable(plan) - old(routes).Keys
      ensures routes == RoutesSoFar(old(routes), PlanTable(plan), old(routes).Keys)
      ensures candidates == CandidatesSoFar(old(candidates), PlanTable(plan), old(routes).Keys)
    {
      ghost var table, was, listed := PlanTable(plan), routes, candidates;
      planned := PlanTable(plan);
      var left := routes.Keys;
      while left != {}
        invariant left <= was.Keys && planned == table - (was.Keys - left)
        invariant routes == RoutesSoFar(was, table, was.Keys - left)
        invariant candidates == CandidatesSoFar(listed, table, was.Keys - left)
        decreases left
      {
        var key :| key in left;
        ghost var done := was.Keys - left;
        assert was.Keys - (left - {key}) == done + {key};
        RoutesNext(was, table, done, key);
        CandidatesNext(listed, table, done, key);
        if key !in planned {
          // Its candidates go with it (ON DELETE CASCADE).
          candidates := DropRoute(candidates, key);
          routes := routes - {key};
        } else {
          var route := planned[key];
          candidates := DropBelow(candidates, key, route.from);
          if route.to.Some? {
            candidates := DropAbove(candidates, key, route.to.value);
          }
          routes := routes[key := Replanned(routes[key], route)];
        }
        planned := planned - {key};
        left := left - {key};
      }
      assert was.Keys - left == was.Keys;
    }

    /** Stores the planned routes that were not stored yet. */
    method InsertRoutes(planned: map<RouteKey, PlannedRoute>, ghost was: map<RouteKey, Route>,
                        ghost table: map<RouteKey, PlannedRoute>)
      requires planned == table - was.Keys && routes == RoutesAdded(was, table, {})
      modifies this`routes
      ensures routes == RoutesAdded(was, table, planned.Keys)
    {
      var left := planned.Keys;
      while left != {}
        invariant left <= planned.Keys && routes == RoutesAdded(was, table, planned.Keys - left)
        decreases left
      {
        var key :| key in left;
        assert planned.Keys - (left - {key}) == planned.Keys - left + {key};
        RoutesAddedNext(was, table, planned.Keys - left, key);
        routes := routes[key := Route(planned[key].from, planned[key].to, None)];
        left := left - {key};
      }
    }

    /** Stores one discovery page; the checkpoint only moves forward. */
    method RecordWindow(key: RouteKey, page: seq<Ledger>, scanned: Option<int>) returns (moved: bool, added: nat)
      requires Valid()
      modifies this
      ensures Valid() && Base() == Index.RecordWindow(old(Base()), key, page, scanned)
      // It vouched for more than the checkpoint, from the route's start on.
      ensures moved <==>
                && key in old(routes) && scanned.Some? && scanned.value >= old(routes)[key].from - 1
                && (old(routes)[key].scanned.None? || old(routes)[key].scanned.value < scanned.value)
      ensures added == |candidates| - |old(candidates)|
    {
      ghost var db := Base();
      RecordKeepsConsistent(db, key, page, scanned);
      if key !in routes {
        return false, 0;
      }
      moved, added := RecordOf(key, page, scanned);
    }

    /** Records a page of a stored route. */
    method RecordOf(key: RouteKey, page: seq<Ledger>, scanned: Option<int>) returns (moved: bool, added: nat)
      requires key in routes
      modifies this`routes, this`candidates, this`ledgers
      ensures Base() == Index.RecordWindow(old(Base()), key, page, scanned)
      ensures moved == Moves(old(routes)[key], scanned) && added == |candidates| - |old(candidates)|
    {
      var route := routes[key];
      added := InsertCandidates(key, Accepted(route, page));
      moved := Moves(route, scanned);
      if moved {
        routes := routes[key := route.(scanned := Some(Checkpoint(route, scanned.value)))];
      }
    }

    /**
     * Stores the ledgers a page lists: pending when new, and listed by this route. Returns how many it had not listed.
     */
    method InsertCandidates(key: RouteKey, found: set<Ledger>) returns (added: nat)
      modifies this`ledgers, this`candidates
      ensures ledgers == NewLedgers(found) + old(ledgers)
      ensures candidates == old(candidates) + NewCandidates(found, key)
      ensures added == |candidates| - |old(candidates)|
    {
      ghost var was, listed := ledgers, candidates;
      var left := found;
      added := 0;
      while left != {}
        invariant left <= found
        invariant ledgers == NewLedgers(found - left) + was
        invariant candidates == listed + NewCandidates(found - left, key)
        invariant added == |candidates| - |listed|
        decreases left
      {
        var slice := NextSlice(left, INSERT_CHUNK);
        InsertNext(was, listed, found, left, slice, key);
        var inserted := InsertSlice(key, slice);
        added := added + inserted;
        left := left - slice;
      }
      assert found - left == found;
    }

    method InsertSlice(key: RouteKey, slice: set<Ledger>) returns (inserted: nat)
      modifies this`ledgers, this`candidates
      ensures ledgers == NewLedgers(slice) + old(ledgers)
      ensures candidates == old(candidates) + NewCandidates(slice, key)
      ensures inserted == |candidates| - |old(candidates)|
    {
      // ON CONFLICT DO NOTHING: a ledger already stored keeps its row.
      var waiting := Waiting(slice);
      ledgers := waiting + ledgers;
      var listed := NewCandidates(slice, key) - candidates;
      inserted := |listed|;
      assert candidates + listed == candidates + NewCandidates(slice, key);
      candidates := candidates + listed;
    }

    /** Takes `Index.RestartRoute`: the route's checkpoint goes, and nothing else. */
    method RestartRoute(key: RouteKey)
      requires Valid()
      modifies this`routes
      ensures Valid() && Base() == Index.RestartRoute(old(Base()), key)
    {
      RestartKeepsConsistent(Base(), key);
      if key in routes {
        routes := routes[key := routes[key].(scanned := None)];
      }
    }

    // ----------------------------------------------------------------------------------- indexing

    /** Takes `Index.Commit`, and says whether the ledger was pending, without which nothing happens. */
    method CommitLedger(entry: LedgerCommit) returns (written: bool)
      requires Valid() && Admissible(Base(), entry)
      modifies this
      ensures Valid() && Base() == Commit(old(Base()), entry)
      ensures written <==> IsPending(old(Base()), entry.ledger)
    {
      ghost var db := Base();
      if entry.ledger !in ledgers || !ledgers[entry.ledger].status.Pending? {
        return false;
      }
      CommitPrepared(db, entry);
      NothingReplaced(settlements, RowTable(entry.rows));
      Upsert(entry);
      ledgers := ledgers[entry.ledger := LedgerRow(Indexed, |entry.rows|, AttributedCount(entry.rows),
                                                   |entry.failed|, 0, Some(entry.versions), None)];
      assert Base() == Commit(db, entry);
      return true;
    }

    /**
     * Writes a ledger's rows, over those of the same hashes, and refreshes the totals of the new rows: all
     * totals are exact if the rows replaced, if any, had days, payers and sellers of those.
     */
    method Upsert(entry: LedgerCommit)
      requires TotalsExact() && DistinctHashes(entry.rows)
      modifies this`settlements, this`failures, this`exclusions, this`daily, this`accounts, this`sellers
      ensures settlements == old(settlements) + RowTable(entry.rows)
      ensures failures == FailedTable(entry.failed) + old(failures)
      ensures exclusions == if Occurred(entry.excluded) == map[] then old(exclusions) - {entry.ledger}
                            else old(exclusions)[entry.ledger := Occurred(entry.excluded)]
      ensures var (lost, gained) := (old(Keep(settlements, RowTable(entry.rows).Keys)), RowTable(entry.rows));
              && ExactBut(DaysOf(lost) - DaysOf(gained), PayersOf(lost) - PayersOf(gained),
                          PayeesOf(lost) - PayeesOf(gained))
              && ((DaysOf(lost) <= DaysOf(gained) && PayersOf(lost) <= PayersOf(gained)
                   && PayeesOf(lost) <= PayeesOf(gained)) ==>
                    TotalsExact())
    {
      ghost var gained := RowTable(entry.rows);
      ghost var lost, rest := Keep(settlements, gained.Keys), settlements - gained.Keys;
      assert rest + lost == settlements && rest + gained == settlements + gained;
      WriteRows(entry);
      if |entry.rows| == 0 {
        assert settlements == old(settlements) && lost == map[];
        NothingTouched();
        ExactIsExactBut();
        return;
      }
      var days := set r | r in entry.rows :: Day(r.facts.closedAt);
      var payers := set r | r in entry.rows :: r.facts.payer;
      var payees := set r | r in entry.rows :: r.facts.payTo;
      CommitTouches(entry.rows);
      LessItself(DaysOf(lost), days);
      LessItself(PayersOf(lost), payers);
      LessItself(PayeesOf(lost), payees);
      RefreshTotals(days, payers, payees, rest, lost, gained);
    }

    /** What a commit stores apart from totals and the ledger's own row. */
    method WriteRows(entry: LedgerCommit)
      modifies this`settlements, this`failures, this`exclusions
      ensures settlements == old(settlements) + RowTable(entry.rows)
      ensures failures == FailedTable(entry.failed) + old(failures)
      ensures exclusions == if Occurred(entry.excluded) == map[] then old(exclusions) - {entry.ledger}
                            else old(exclusions)[entry.ledger := Occurred(entry.excluded)]
    {
      InsertRows(entry.rows);
      InsertFailures(entry.failed);
      exclusions := exclusions - {entry.ledger};
      var exclusion := Occurred(entry.excluded);
      if exclusion != map[] {
        exclusions := exclusions[entry.ledger := exclusion];
      }
    }

    lemma ExactIsExactBut()
      requires TotalsExact()
      ensures ExactBut({}, {}, {})
    {
      FullAgrees(settlements, DayKeys, DayAggregate, OffDays({}));
      FullAgrees(settlements, AccountKeys, AccountAggregate, OffAccounts({}, {}));
      FullAgrees(settlements, SellerKeys, SellerAggregate, OffSellers({}));
    }

    method InsertRows(rows: seq<Row>)
      modifies this`settlements
      ensures settlements == old(settlements) + RowTable(rows)
    {
      var slices := Chunks(rows, INSERT_CHUNK);
      assert Flatten(slices[..0]) == [];
      for i := 0 to |slices|
        invariant settlements == old(settlements) + RowTable(Flatten(slices[..i]))
      {
        FlattenNext(slices, i);
        InsertRowsNext(old(settlements), Flatten(slices[..i]), slices[i]);
        // ON CONFLICT DO UPDATE
        settlements := settlements + RowTable(slices[i]);
      }
      assert slices[..|slices|] == slices;
    }

    method InsertFailures(failed: seq<FailedAttempt>)
      modifies this`failures
      ensures failures == FailedTable(failed) + old(failures)
    {
      var slices := Chunks(failed, INSERT_CHUNK);
      assert Flatten(slices[..0]) == [];
      for i := 0 to |slices|
        invariant failures == FailedTable(Flatten(slices[..i])) + old(failures)
      {
        FlattenNext(slices, i);
        InsertFailuresNext(old(failures), Flatten(slices[..i]), slices[i]);
        // ON CONFLICT DO NOTHING
        failures := FailedTable(slices[i]) + failures;
      }
      assert slices[..|slices|] == slices;
    }

    /** Takes `Index.MarkFailed`, which leaves an indexed ledger alone. */
    method MarkFailed(ledger: Ledger, error: string)
      requires Valid()
      modifies this`ledgers
      ensures Valid() && Base() == Index.MarkFailed(old(Base()), ledger, error)
    {
      MarkFailedKeepsConsistent(Base(), ledger, error);
      if ledger in ledgers && !ledgers[ledger].status.Indexed? {
        ledgers := ledgers[ledger := ledgers[ledger].(status := Failed, error := Some(Shortened(error)))];
      }
    }

    /** Takes `Index.RetryFailed`, and counts the ledgers that had failed. */
    method RetryFailed() returns (updated: nat)
      requires Valid()
      modifies this`ledgers
      ensures Valid() && Base() == Index.RetryFailed(old(Base()))
      ensures updated == |set l | l in old(ledgers) && old(ledgers)[l].status.Failed?|
    {
      RetryKeepsConsistent(Base());
      updated := |set l | l in ledgers && ledgers[l].status.Failed?|;
      var queued := ledgers;
      ledgers := Tabulate(queued.Keys, l => Retried(queued, l));
    }

    // ------------------------------------------------------------------------------------ removal

    /** Takes `Index.Prune`, and says by how much the ledgers shrank. */
    method RemoveOrphans() returns (removed: nat)
      requires TotalsExact()
      modifies this`ledgers, this`settlements, this`failures, this`exclusions, this`daily, this`accounts, this`sellers
      ensures TotalsExact() && Base() == Prune(old(Base()))
      ensures removed == |old(ledgers)| - |ledgers|
    {
      var orphans := ledgers.Keys - LedgersListed(candidates);
      if orphans == {} {
        WithoutNone(Base());
        return 0;
      }
      RemoveRows(orphans);
      RemovalSize(ledgers, orphans);
      ledgers := ledgers - orphans;
      return |orphans|;
    }

    /** Empties some ledgers: nothing stored refers to them any more, and the totals are those of the rows left. */
    method RemoveRows(gone: set<Ledger>)
      requires TotalsExact()
      modifies this`settlements, this`failures, this`exclusions, this`daily, this`accounts, this`sellers
      ensures TotalsExact()
      ensures settlements == RowsOutside(old(settlements), gone)
      ensures failures == FailuresOutside(old(failures), gone) && exclusions == old(exclusions) - gone
    {
      ghost var was := settlements;
      var days, payers, payees := DeleteRows(gone);
      ghost var removed := RowsInside(was, gone);
      RemovedAndRest(was, gone);
      if days == {} {
        NoDayNoRow(removed);
        return;
      }
      RefreshRemoved(days, payers, payees, removed);
    }

    /** Deletes what some ledgers hold, a slice of them at a time, and returns the groups its rows were in. */
    method DeleteRows(gone: set<Ledger>) returns (days: set<nat>, payers: set<Address>, payees: set<Address>)
      modifies this`settlements, this`failures, this`exclusions
      ensures settlements == RowsOutside(old(settlements), gone)
      ensures failures == FailuresOutside(old(failures), gone) && exclusions == old(exclusions) - gone
      ensures var removed := RowsInside(old(settlements), gone);
              days == DaysOf(removed) && payers == PayersOf(removed) && payees == PayeesOf(removed)
    {
      days, payers, payees := {}, {}, {};
      ghost var was, wasFailures, wasExclusions := settlements, failures, exclusions;
      var left := gone;
      while left != {}
        modifies this`settlements, this`failures, this`exclusions
        invariant left <= gone
        invariant settlements == RowsOutside(was, gone - left)
        invariant failures == FailuresOutside(wasFailures, gone - left)
        invariant exclusions == wasExclusions - (gone - left)
        invariant days == DaysOf(RowsInside(was, gone - left))
        invariant payers == PayersOf(RowsInside(was, gone - left)) && payees == PayeesOf(RowsInside(was, gone - left))
        decreases left
      {
        var slice := NextSlice(left, INSERT_CHUNK);
        var touched := RowsInside(settlements, slice);
        RemovedNext(was, gone - left, slice);
        FailuresNext(wasFailures, wasExclusions, gone - left, slice);
        SliceDone(gone, left, slice);
        days := days + DaysOf(touched);
        payers := payers + PayersOf(touched);
        payees := payees + PayeesOf(touched);
        settlements := RowsOutside(settlements, slice);
        failures := FailuresOutside(failures, slice);
        exclusions := exclusions - slice;
        left := left - slice;
      }
      assert gone - left == gone;
    }

    /** Recomputes the totals that removed rows touched. */
    method RefreshRemoved(days: set<nat>, payers: set<Address>, payees: set<Address>, ghost removed: map<Hash, Row>)
      requires settlements.Keys !! removed.Keys
      requires daily == Daily(settlements + removed) && accounts == Accounts(settlements + removed)
      requires sellers == Sellers(settlements + removed)
      requires days == DaysOf(removed) && payers == PayersOf(removed) && payees == PayeesOf(removed)
      modifies this`daily, this`accounts, this`sellers
      ensures TotalsExact()
    {
      NothingTouched();
      assert settlements + map[] == settlements;
      RefreshTotals(days, payers, payees, settlements, removed, map[]);
    }

    /** Takes `Index.ResetStale`, and counts the ledgers that were stale. */
    method ResetStale(rules: string, classification: string) returns (reset: nat)
      requires Valid()
      modifies this
      ensures Valid() && Base() == Index.ResetStale(old(Base()), rules, classification)
      ensures reset == |Effects.Outdated(old(Base()), rules, classification)|
    {
      ghost var db := Base();
      ResetKeepsConsistent(db, rules, classification);
      Effects.OutdatedAreStale(db, rules, classification);
      var stale := StaleLedgers(ledgers, rules, classification);
      if stale == {} {
        ResetNothing(db, rules, classification);
        return 0;
      }
      Requeue(stale);
      return |stale|;
    }

    /** Empties some ledgers and lets them wait again. */
    method Requeue(stale: set<Ledger>)
      requires TotalsExact()
      modifies this`settlements, this`failures, this`exclusions, this`daily, this`accounts, this`sellers, this`ledgers
      ensures TotalsExact() && ledgers == old(ledgers) + NewLedgers(stale)
      ensures settlements == RowsOutside(old(settlements), stale)
      ensures failures == FailuresOutside(old(failures), stale) && exclusions == old(exclusions) - stale
    {
      RemoveRows(stale);
      var waiting := Waiting(stale);
      ledgers := ledgers + waiting;
    }

    // ------------------------------------------------------------------------------ re-attribution

    /** Takes `Index.Reattribute`, and counts the ledgers it stamps; `updates` counts the rows it writes. */
    method Reattribute(registry: Registry) returns (touched: nat, ghost updates: nat)
      requires Valid()
      modifies this
      ensures Valid() && Base() == Index.Reattribute(old(Base()), registry)
      ensures touched == |RestampedIn(old(ledgers), registry)|
      // Every row out of date is written exactly once.
      ensures updates == |OutOfDate(old(settlements), registry.version)|
    {
      ghost var db := Base();
      ReattributeKeepsConsistent(db, registry);
      var days;
      days, touched, updates := ReattributeLedgers(registry);
      RefreshDays(days, registry, db.settlements);
    }

    /** Re-attribution without its totals: rewrites the rows, stamps the ledgers, and names the days touched. */
    method ReattributeLedgers(registry: Registry) returns (days: set<nat>, touched: nat, ghost updates: nat)
      requires PositionsUnique(settlements)
      modifies this`settlements, this`ledgers
      ensures Base() == Index.Reattribute(old(Base()), registry)
      ensures days == DaysIn(old(settlements), OutOfDate(old(settlements), registry.version))
      ensures touched == |RestampedIn(old(ledgers), registry)|
      ensures updates == |OutOfDate(old(settlements), registry.version)|
    {
      days, updates := ReattributeRows(registry);
      ReattributedAll(old(settlements), registry);
      touched := StampLedgers(registry);
      ReattributeIs(old(Base()), registry, settlements, ledgers);
    }

    /** Recomputes the daily totals of the days a re-attribution touched, if there are any. */
    method RefreshDays(days: set<nat>, ghost registry: Registry, ghost was: map<Hash, Row>)
      requires settlements == ReattributedRows(was, registry) && days == DaysIn(was, OutOfDate(was, registry.version))
      requires daily == Daily(was) && accounts == Accounts(was) && sellers == Sellers(was)
      modifies this`daily
      ensures TotalsExact()
    {
      ReattributedAll(was, registry);
      AttributionLeavesAccounts(was, settlements);
      OtherDaysKeep(was, registry, days);
      if days != {} {
        RefreshAggregates(days, days);
      } else {
        AgreesEverywhereIsFull(daily, settlements, DayKeys, DayAggregate, OffDays(days));
      }
    }

    /** Stamps the registry on the ledgers under another one, and recounts their attributed rows. */
    method StampLedgers(registry: Registry) returns (touched: nat)
      modifies this`ledgers
      ensures ledgers == RestampedLedgers(old(ledgers), registry, settlements)
      ensures touched == |RestampedIn(old(ledgers), registry)|
    {
      touched := |RestampedIn(ledgers, registry)|;
      var was, rows := ledgers, settlements;
      ledgers := Tabulate(was.Keys, l => Restamp(was, registry, rows, l));
    }

    method ReattributeRows(registry: Registry) returns (days: set<nat>, ghost updates: nat)
      requires PositionsUnique(settlements)
      modifies this`settlements
      ensures settlements == ReattributedIn(old(settlements), registry, OutOfDate(old(settlements), registry.version))
      ensures days == DaysIn(old(settlements), OutOfDate(old(settlements), registry.version))
      ensures updates == |OutOfDate(old(settlements), registry.version)|
    {
      ghost var was, all := settlements, OutOfDate(settlements, registry.version);
      ghost var done: set<Hash> := {};
      days, updates := {}, 0;
      var after := START;
      while true
        invariant done == OutOfDateUpTo(was, registry.version, after) && done <= all
        invariant settlements == ReattributedIn(was, registry, done)
        invariant days == DaysIn(was, done) && updates == |done|
        decreases all - done
      {
        ReattributedPositions(was, registry, done);
        var page := Page(settlements, registry.version, after, REATTRIBUTE_PAGE);
        PageDone(was, settlements, registry, after, done, REATTRIBUTE_PAGE, page);
        PageSize(settlements, page);
        days := UpdatePage(registry, page, days, was, done);
        updates := updates + |page|;
        done := done + Named(page);
        if |page| < REATTRIBUTE_PAGE {
          break;
        }
        assert page[|page| - 1] in Named(page);
        after := At(settlements[page[|page| - 1]]);
      }
    }

    /** Writes the rows of one page and adds their days to the touched ones. */
    method UpdatePage(registry: Registry, page: seq<Hash>, before: set<nat>, ghost was: map<Hash, Row>,
                      ghost done: set<Hash>)
      returns (days: set<nat>)
      requires Named(page) <= was.Keys && Named(page) !! done
      requires forall i, j | 0 <= i < j < |page| :: page[i] != page[j]
      requires settlements == ReattributedIn(was, registry, done) && before == DaysIn(was, done)
      requires Named(page) <= OutOfDate(was, registry.version)
      modifies this`settlements
      ensures settlements == ReattributedIn(was, registry, done + Named(page))
      ensures days == DaysIn(was, done + Named(page))
    {
      days := before;
      for i := 0 to |page|
        invariant settlements == ReattributedIn(was, registry, done + Named(page[..i]))
        invariant days == DaysIn(was, done + Named(page[..i]))
      {
        NamedNext(page, done, i);
        UpdateNext(was, registry, done + Named(page[..i]), page[i]);
        var row := settlements[page[i]];
        settlements := settlements[page[i] := Row(row.facts, registry.version, registry.attribute(row.facts))];
        days := days + {Day(row.facts.closedAt)};
      }
      assert page[..|page|] == page;
    }
  }

  lemma CommitPrepared(db: Db, entry: LedgerCommit)
    ensures Consistent(db) && Admissible(db, entry) && IsPending(db, entry.ledger) ==>
      DistinctHashes(entry.rows) && db.settlements.Keys !! RowTable(entry.rows).Keys && Consistent(Commit(db, entry))
  {
    if Consistent(db) && Admissible(db, entry) && IsPending(db, entry.ledger) {
      CommitAdds(db, entry);
      CommitKeepsConsistent(db, entry);
    }
  }

  /** What `ReconcileRegistry` did. */
  datatype Reconciliation = Reconciliation(reattributed: nat, reset: nat)

  /** Brings every indexed ledger to the given rules and registry. */
  method ReconcileRegistry(store: Store, registry: Registry, rules: string) returns (done: Reconciliation)
    requires store.Valid()
    modifies store
    ensures store.Valid() && store.Base() == Reconciled(old(store.Base()), registry, rules)
    // It says how many ledgers wait again, and how many of those left carry another registry now.
    ensures done.reset == |Effects.Outdated(old(store.Base()), rules, registry.fingerprint)|
    ensures done.reattributed == |Effects.Restampable(old(store.Base()), registry, rules)|
  {
    Effects.RestampableAreRestamped(store.Base(), registry, rules);
    var reset := store.ResetStale(rules, registry.fingerprint);
    var reattributed, updates := store.Reattribute(registry);
    var retried := store.RetryFailed();
    done := Reconciliation(reattributed, reset);
  }

  /** The days of some of the rows. */
  function DaysIn(rows: map<Hash, Row>, hashes: set<Hash>): set<nat> {
    set h | h in hashes && h in rows :: Day(rows[h].facts.closedAt)
  }

  lemma SliceDone<T>(all: set<T>, left: set<T>, slice: set<T>)
    requires slice <= left <= all
    ensures all - left + slice == all - (left - slice)
  {
  }

  lemma NamedNext(page: seq<Hash>, done: set<Hash>, i: nat)
    requires i < |page| && Named(page) !! done && forall j, k | 0 <= j < k < |page| :: page[j] != page[k]
    ensures done + Named(page[..i + 1]) == done + Named(page[..i]) + {page[i]}
    ensures page[i] in Named(page) && page[i] !in done + Named(page[..i])
  {
    assert page[i] in Named(page);
    assert Named(page[..i + 1]) == Named(page[..i]) + {page[i]};
  }

  /** Writing one more row. */
  lemma UpdateNext(was: map<Hash, Row>, registry: Registry, done: set<Hash>, h: Hash)
    requires h in OutOfDate(was, registry.version) && h !in done
    ensures ReattributedIn(was, registry, done + {h}) ==
      ReattributedIn(was, registry, done)[h := Row(was[h].facts, registry.version, registry.attribute(was[h].facts))]
    ensures ReattributedIn(was, registry, done)[h] == was[h]
    ensures DaysIn(was, done + {h}) == DaysIn(was, done) + {Day(was[h].facts.closedAt)}
  {}

  lemma ReattributedPositions(was: map<Hash, Row>, registry: Registry, done: set<Hash>)
    requires PositionsUnique(was)
    ensures PositionsUnique(ReattributedIn(was, registry, done))
  {
    var rows := ReattributedIn(was, registry, done);
    forall g, h | g in rows && h in rows && SamePosition(rows[g].facts, rows[h].facts) ensures g == h {
      assert SamePosition(was[g].facts, was[h].facts);
    }
  }

  lemma ReattributedAll(was: map<Hash, Row>, registry: Registry)
    ensures ReattributedIn(was, registry, OutOfDate(was, registry.version)) == ReattributedRows(was, registry)
    ensures SameFacts(was, ReattributedRows(was, registry))
  {}

  /** Re-attribution leaves the rows of other days alone. */
  lemma OtherDayKeeps(was: map<Hash, Row>, registry: Registry, k: DayKey)
    requires k.day !in DaysIn(was, OutOfDate(was, registry.version))
    ensures Group(was, DayKeys, k) == Group(ReattributedRows(was, registry), DayKeys, k)
  {
    var after, late := ReattributedRows(was, registry), OutOfDate(was, registry.version);
    assert forall h | h in late :: Day(was[h].facts.closedAt) in DaysIn(was, late);
    assert forall h | h in was && was[h] != after[h] :: h in late && after[h].facts == was[h].facts;
    GroupKept(was, after, DayKeys, k);
  }

  lemma OtherDaysKeep(was: map<Hash, Row>, registry: Registry, days: set<nat>)
    requires days == DaysIn(was, OutOfDate(was, registry.version))
    ensures Agrees(Daily(was), ReattributedRows(was, registry), DayKeys, DayAggregate, OffDays(days))
  {
    var after := ReattributedRows(was, registry);
    forall k: DayKey | !OnDays(days, k) ensures Group(was, DayKeys, k) == Group(after, DayKeys, k) {
      OtherDayKeeps(was, registry, k);
    }
    SameAggregatesAgree(was, after, DayKeys, DayAggregate, OffDays(days));
  }

  function RowsInside(settlements: map<Hash, Row>, gone: set<Ledger>): (rows: map<Hash, Row>)
    ensures rows.Keys == set h | h in settlements && settlements[h].facts.ledger in gone
    ensures forall h | h in rows :: rows[h] == settlements[h]
  {
    Keep(settlements, set h | h in settlements && settlements[h].facts.ledger in gone)
  }

  /** Removing another slice of ledgers adds that slice's days, payers and sellers to the touched ones. */
  lemma RemovedNext(was: map<Hash, Row>, done: set<Ledger>, slice: set<Ledger>)
    ensures var touched := RowsInside(RowsOutside(was, done), slice);
      DaysOf(RowsInside(was, done + slice)) == DaysOf(RowsInside(was, done)) + DaysOf(touched) &&
      PayersOf(RowsInside(was, done + slice)) == PayersOf(RowsInside(was, done)) + PayersOf(touched) &&
      PayeesOf(RowsInside(was, done + slice)) == PayeesOf(RowsInside(was, done)) + PayeesOf(touched)
    ensures RowsOutside(RowsOutside(was, done), slice) == RowsOutside(was, done + slice)
  {
    var touched := RowsInside(RowsOutside(was, done), slice);
    assert RowsInside(was, done + slice) == RowsInside(was, done) + touched;
    UnionTouches(RowsInside(was, done), touched);
  }

  lemma FailuresNext(failures: map<Hash, FailedAttempt>, exclusions: map<Ledger, map<string, nat>>, done: set<Ledger>,
                     slice: set<Ledger>)
    ensures FailuresOutside(FailuresOutside(failures, done), slice) == FailuresOutside(failures, done + slice)
    ensures exclusions - done - slice == exclusions - (done + slice)
  {}

  /** The rows left and the rows removed make up the table. */
  lemma RemovedAndRest(was: map<Hash, Row>, gone: set<Ledger>)
    ensures RowsOutside(was, gone) + RowsInside(was, gone) == was
    ensures RowsOutside(was, gone).Keys !! RowsInside(was, gone).Keys
    ensures RowsInside(was, gone) == map[] ==> RowsOutside(was, gone) == was
  {}

  lemma NoDayNoRow(rows: map<Hash, Row>)
    ensures DaysOf(rows) == {} ==> rows == map[]
  {
    if h :| h in rows {
      assert Day(rows[h].facts.closedAt) in DaysOf(rows);
    }
  }

  lemma UnionTouches(a: map<Hash, Row>, b: map<Hash, Row>)
    requires a.Keys !! b.Keys
    ensures DaysOf(a + b) == DaysOf(a) + DaysOf(b)
    ensures PayersOf(a + b) == PayersOf(a) + PayersOf(b)
    ensures PayeesOf(a + b) == PayeesOf(a) + PayeesOf(b)
  {
    var all := a + b;
    assert forall h | h in a :: all[h] == a[h];
    assert forall h | h in b :: all[h] == b[h];
  }

  /** The days, payers and sellers of a commit's rows are those of the rows it stores. */
  lemma CommitTouches(rows: seq<Row>)
    requires DistinctHashes(rows)
    ensures (set r | r in rows :: Day(r.facts.closedAt)) == DaysOf(RowTable(rows))
    ensures (set r | r in rows :: r.facts.payer) == PayersOf(RowTable(rows))
    ensures (set r | r in rows :: r.facts.payTo) == PayeesOf(RowTable(rows))
  {
    var table := RowTable(rows);
    forall r | r in rows ensures r.facts.hash in table && table[r.facts.hash] == r {
      var i :| 0 <= i < |rows| && rows[i] == r;
      RowTableHolds(rows, i);
    }
    forall h | h in table ensures table[h] in rows {
      RowTableEntry(rows, h);
    }
  }
}
