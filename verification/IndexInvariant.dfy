/** Every transaction of the store keeps the index consistent. */
module IndexInvariant {
  import opened Index
  import opened Options
  import opened Settlements

  lemma EmptyIsConsistent()
    ensures Consistent(EMPTY)
  {}

  /** Nothing is stored for a ledger that is not indexed. */
  lemma NothingUnlessIndexed(db: Db, l: Ledger)
    requires RowsBelong(db.ledgers, db.settlements) && FailuresBelong(db.ledgers, db.failures)
    requires !IsIndexed(db.ledgers, l)
    ensures RowsOf(db.settlements, l) == {} && AttributedOf(db.settlements, l) == {} && FailedOf(db.failures, l) == {}
  {
    forall h | h in db.settlements ensures db.settlements[h].facts.ledger != l {
      assert RowBelongs(db.ledgers, h, db.settlements[h]);
    }
  }

  // -------------------------------------------------------------------------------------- pruning

  lemma RemainingLedgerExact(l: Ledger, ledger: LedgerRow, settlements: map<Hash, Row>,
                             failures: map<Hash, FailedAttempt>,
                          gone: set<Ledger>)
    requires l !in gone && LedgerExact(l, ledger, settlements, failures)
    ensures LedgerExact(l, ledger, RowsOutside(settlements, gone), FailuresOutside(failures, gone))
  {
    var rows, failed := RowsOutside(settlements, gone), FailuresOutside(failures, gone);
    assert RowsOf(rows, l) == RowsOf(settlements, l);
    assert AttributedOf(rows, l) == AttributedOf(settlements, l);
    assert FailedOf(failed, l) == FailedOf(failures, l);
  }

  lemma RemovalKeepsRows(db: Db, gone: set<Ledger>)
    requires RowsBelong(db.ledgers, db.settlements) && FailuresBelong(db.ledgers, db.failures)
    requires ExclusionsBelong(db.ledgers, db.exclusions) && PositionsUnique(db.settlements)
    ensures var p := Without(db, gone);
      RowsBelong(p.ledgers, p.settlements) && FailuresBelong(p.ledgers, p.failures) &&
      ExclusionsBelong(p.ledgers, p.exclusions) && PositionsUnique(p.settlements)
  {
    var p := Without(db, gone);
    forall h | h in p.settlements ensures RowBelongs(p.ledgers, h, p.settlements[h]) {
      assert RowBelongs(db.ledgers, h, db.settlements[h]);
    }
    forall g, h |
      g in p.settlements && h in p.settlements && SamePosition(p.settlements[g].facts, p.settlements[h].facts)
      ensures g == h
    {
      assert SamePosition(db.settlements[g].facts, db.settlements[h].facts);
    }
  }

  lemma RemovalKeepsCounts(db: Db, gone: set<Ledger>)
    requires LedgersExact(db.ledgers, db.settlements, db.failures)
    ensures var p := Without(db, gone); LedgersExact(p.ledgers, p.settlements, p.failures)
  {
    var p := Without(db, gone);
    forall l | l in p.ledgers ensures LedgerExact(l, p.ledgers[l], p.settlements, p.failures) {
      RemainingLedgerExact(l, db.ledgers[l], db.settlements, db.failures, gone);
    }
  }

  // ------------------------------------------------------------------------------------- discovery

  lemma SyncKeepsConsistent(db: Db, plan: seq<PlannedRoute>)
    requires Consistent(db)
    ensures Consistent(SyncRoutes(db, plan))
  {
    var table := PlanTable(plan);
    var moved := db.(routes := SyncedRoutes(db.routes, table), candidates := KeptCandidates(db.candidates, table));
    RemovalKeepsRows(moved, Orphans(moved));
    RemovalKeepsCounts(moved, Orphans(moved));
    assert LedgersListed(moved.candidates) <= LedgersListed(db.candidates);
  }

  lemma FoundIsListed(candidates: set<Candidate>, accepted: set<Ledger>, key: RouteKey)
    ensures LedgersListed(candidates + NewCandidates(accepted, key)) == LedgersListed(candidates) + accepted
  {
    forall l | l in accepted ensures l in LedgersListed(candidates + NewCandidates(accepted, key)) {
      assert Candidate(l, key) in NewCandidates(accepted, key);
    }
  }

  lemma RecordKeepsConsistent(db: Db, key: RouteKey, ledgers: seq<Ledger>, scanned: Option<int>)
    requires Consistent(db)
    ensures Consistent(RecordWindow(db, key, ledgers, scanned))
  {
    if key in db.routes {
      var after := RecordWindow(db, key, ledgers, scanned);
      var accepted := Accepted(db.routes[key], ledgers);
      assert after.candidates == db.candidates + NewCandidates(accepted, key);
      FoundIsListed(db.candidates, accepted, key);
      NewLedgersKeepRows(db, accepted);
    }
  }

  /** Adding ledgers that wait to be read changes nothing else. */
  lemma NewLedgersKeepRows(db: Db, accepted: set<Ledger>)
    requires RowsBelong(db.ledgers, db.settlements) && FailuresBelong(db.ledgers, db.failures)
    requires ExclusionsBelong(db.ledgers, db.exclusions) && LedgersExact(db.ledgers, db.settlements, db.failures)
    ensures var ledgers := NewLedgers(accepted) + db.ledgers;
      RowsBelong(ledgers, db.settlements) && FailuresBelong(ledgers, db.failures) &&
      ExclusionsBelong(ledgers, db.exclusions) && LedgersExact(ledgers, db.settlements, db.failures)
  {
    var ledgers := NewLedgers(accepted) + db.ledgers;
    assert forall l | l in db.ledgers :: ledgers[l] == db.ledgers[l];
    forall h | h in db.settlements ensures RowBelongs(ledgers, h, db.settlements[h]) {
      assert RowBelongs(db.ledgers, h, db.settlements[h]);
    }
    forall l | l in ledgers ensures LedgerExact(l, ledgers[l], db.settlements, db.failures) {
      if l !in db.ledgers { NothingUnlessIndexed(db, l); }
    }
  }

  lemma RestartKeepsConsistent(db: Db, key: RouteKey)
    requires Consistent(db)
    ensures Consistent(RestartRoute(db, key))
  {}

  // -------------------------------------------------------------------------------------- indexing

  /** A row the commit may store under `h`: of its own ledger, under its own versions. */
  predicate OwnRow(entry: LedgerCommit, h: Hash, row: Row) {
    row.facts.hash == h && row.facts.ledger == entry.ledger && row.registry == entry.versions.registry &&
    row.facts.rules == entry.versions.rules
  }

  /** What a commit adds is new to the tables. */
  lemma CommitAdds(db: Db, entry: LedgerCommit)
    requires RowsBelong(db.ledgers, db.settlements) && FailuresBelong(db.ledgers, db.failures)
    requires Admissible(db, entry) && IsPending(db, entry.ledger)
    ensures forall h | h in RowTable(entry.rows) :: h !in db.settlements && OwnRow(entry, h, RowTable(entry.rows)[h])
    ensures forall h | h in FailedTable(entry.failed) ::
      h !in db.failures && FailedTable(entry.failed)[h].ledger == entry.ledger && FailedTable(entry.failed)[h].hash == h
  {
    NothingUnlessIndexed(db, entry.ledger);
    forall h | h in RowTable(entry.rows) ensures h !in db.settlements && OwnRow(entry, h, RowTable(entry.rows)[h]) {
      RowTableEntry(entry.rows, h);
      assert h in db.settlements ==> h in RowsOf(db.settlements, entry.ledger);
    }
    forall h | h in FailedTable(entry.failed)
      ensures FailedTable(entry.failed)[h].ledger == entry.ledger && FailedTable(entry.failed)[h].hash == h
      ensures h !in db.failures
    {
      FailedTableEntry(entry.failed, h);
      assert h in db.failures ==> h in FailedOf(db.failures, entry.ledger);
    }
  }

  lemma CommitKeepsRows(db: Db, entry: LedgerCommit)
    requires RowsBelong(db.ledgers, db.settlements) && FailuresBelong(db.ledgers, db.failures)
    requires Admissible(db, entry) && IsPending(db, entry.ledger)
    ensures RowsBelong(Commit(db, entry).ledgers, Commit(db, entry).settlements)
  {
    CommitAdds(db, entry);
    var after := Commit(db, entry);
    forall h | h in after.settlements ensures RowBelongs(after.ledgers, h, after.settlements[h]) {
      if h in RowTable(entry.rows) {
        assert OwnRow(entry, h, after.settlements[h]);
      } else {
        assert RowBelongs(db.ledgers, h, db.settlements[h]);
      }
    }
  }

  lemma CommitKeepsFailures(db: Db, entry: LedgerCommit)
    requires RowsBelong(db.ledgers, db.settlements) && FailuresBelong(db.ledgers, db.failures)
    requires ExclusionsBelong(db.ledgers, db.exclusions)
    requires Admissible(db, entry) && IsPending(db, entry.ledger)
    ensures FailuresBelong(Commit(db, entry).ledgers, Commit(db, entry).failures)
    ensures ExclusionsBelong(Commit(db, entry).ledgers, Commit(db, entry).exclusions)
  {
    CommitAdds(db, entry);
    FailuresTogether(db.ledgers, Commit(db, entry).ledgers, FailedTable(entry.failed), db.failures, entry.ledger);
    ExclusionsKept(db, entry);
  }

  lemma FailuresTogether(ledgers: map<Ledger, LedgerRow>, after: map<Ledger, LedgerRow>,
                         added: map<Hash, FailedAttempt>,
                         failures: map<Hash, FailedAttempt>, l: Ledger)
    requires FailuresBelong(ledgers, failures) && IsIndexed(after, l)
    requires forall k | IsIndexed(ledgers, k) :: IsIndexed(after, k)
    requires forall h | h in added :: added[h].hash == h && added[h].ledger == l
    ensures FailuresBelong(after, added + failures)
  {
  }

  lemma ExclusionsKept(db: Db, entry: LedgerCommit)
    requires ExclusionsBelong(db.ledgers, db.exclusions) && IsPending(db, entry.ledger)
    ensures ExclusionsBelong(Commit(db, entry).ledgers, Commit(db, entry).exclusions)
  {
    forall l | l in Commit(db, entry).exclusions ensures IsIndexed(Commit(db, entry).ledgers, l) {
      assert l != entry.ledger ==> IsIndexed(db.ledgers, l);
    }
  }

  lemma CommitKeepsPositions(db: Db, entry: LedgerCommit)
    requires RowsBelong(db.ledgers, db.settlements) && FailuresBelong(db.ledgers, db.failures)
    requires PositionsUnique(db.settlements) && Admissible(db, entry) && IsPending(db, entry.ledger)
    ensures PositionsUnique(Commit(db, entry).settlements)
  {
    CommitAdds(db, entry);
    OtherRowsElsewhere(db, entry.ledger);
    OwnPositionsUnique(db, entry);
    PositionsTogether(db.settlements, RowTable(entry.rows), entry.ledger);
  }

  lemma OtherRowsElsewhere(db: Db, l: Ledger)
    requires RowsBelong(db.ledgers, db.settlements) && FailuresBelong(db.ledgers, db.failures)
    requires !IsIndexed(db.ledgers, l)
    ensures forall h | h in db.settlements :: db.settlements[h].facts.ledger != l
  {
    forall h | h in db.settlements ensures db.settlements[h].facts.ledger != l {
      assert RowBelongs(db.ledgers, h, db.settlements[h]);
    }
  }

  lemma OwnPositionsUnique(db: Db, entry: LedgerCommit)
    requires Admissible(db, entry)
    ensures PositionsUnique(RowTable(entry.rows))
  {
    var added := RowTable(entry.rows);
    forall g, h | g in added && h in added && SamePosition(added[g].facts, added[h].facts) ensures g == h {
      RowTableEntry(entry.rows, g);
      RowTableEntry(entry.rows, h);
    }
  }

  lemma PositionsTogether(rows: map<Hash, Row>, added: map<Hash, Row>, l: Ledger)
    requires PositionsUnique(rows) && PositionsUnique(added) && rows.Keys !! added.Keys
    requires (forall h | h in rows :: rows[h].facts.ledger != l) && forall h | h in added :: added[h].facts.ledger == l
    ensures PositionsUnique(rows + added)
  {
    var all := rows + added;
    forall g, h | g in all && h in all && SamePosition(all[g].facts, all[h].facts) ensures g == h {
      assert g in rows && h in rows ==> SamePosition(rows[g].facts, rows[h].facts);
      assert g in added && h in added ==> SamePosition(added[g].facts, added[h].facts);
    }
  }

  /** Rows of one ledger, new to the table, change that ledger's counts only. */
  lemma AddedRowsCount(settlements: map<Hash, Row>, added: map<Hash, Row>, ledger: Ledger, l: Ledger)
    requires settlements.Keys !! added.Keys
    requires forall h | h in added :: added[h].facts.ledger == ledger
    ensures var after := settlements + added;
      RowsOf(after, l) == RowsOf(settlements, l) + (if l == ledger then added.Keys else {}) &&
      AttributedOf(after, l) == AttributedOf(settlements, l) + (if l == ledger then Settled(added) else {})
  {}

  lemma AddedFailuresCount(failures: map<Hash, FailedAttempt>, added: map<Hash, FailedAttempt>, ledger: Ledger,
                           l: Ledger)
    requires failures.Keys !! added.Keys
    requires forall h | h in added :: added[h].ledger == ledger
    ensures FailedOf(added + failures, l) == FailedOf(failures, l) + (if l == ledger then added.Keys else {})
  {}

  lemma CommittedRows(db: Db, entry: LedgerCommit)
    requires RowsBelong(db.ledgers, db.settlements) && FailuresBelong(db.ledgers, db.failures)
    requires Admissible(db, entry) && IsPending(db, entry.ledger)
    ensures var after := Commit(db, entry).settlements;
      |RowsOf(after, entry.ledger)| == |entry.rows|
          && |AttributedOf(after, entry.ledger)| == AttributedCount(entry.rows)
  {
    CommitAdds(db, entry);
    NothingUnlessIndexed(db, entry.ledger);
    RowTableSize(entry.rows);
    AddedRowsCount(db.settlements, RowTable(entry.rows), entry.ledger, entry.ledger);
  }

  lemma CommittedFailures(db: Db, entry: LedgerCommit)
    requires RowsBelong(db.ledgers, db.settlements) && FailuresBelong(db.ledgers, db.failures)
    requires Admissible(db, entry) && IsPending(db, entry.ledger)
    ensures |FailedOf(Commit(db, entry).failures, entry.ledger)| == |entry.failed|
  {
    CommitAdds(db, entry);
    NothingUnlessIndexed(db, entry.ledger);
    FailedTableSize(entry.failed);
    AddedFailuresCount(db.failures, FailedTable(entry.failed), entry.ledger, entry.ledger);
  }

  lemma CommitElsewhere(db: Db, entry: LedgerCommit, l: Ledger)
    requires IsPending(db, entry.ledger) && l in db.ledgers && l != entry.ledger
    ensures var after := Commit(db, entry);
            && l in after.ledgers && after.ledgers[l] == db.ledgers[l]
            && after.settlements == db.settlements + RowTable(entry.rows)
            && after.failures == FailedTable(entry.failed) + db.failures
  {
  }

  lemma RowsElsewhere(db: Db, entry: LedgerCommit, l: Ledger)
    requires RowsBelong(db.ledgers, db.settlements) && FailuresBelong(db.ledgers, db.failures)
    requires Admissible(db, entry) && IsPending(db, entry.ledger) && l != entry.ledger
    ensures RowsOf(db.settlements + RowTable(entry.rows), l) == RowsOf(db.settlements, l)
    ensures AttributedOf(db.settlements + RowTable(entry.rows), l) == AttributedOf(db.settlements, l)
    ensures FailedOf(FailedTable(entry.failed) + db.failures, l) == FailedOf(db.failures, l)
  {
    CommitAdds(db, entry);
    AddedRowsCount(db.settlements, RowTable(entry.rows), entry.ledger, l);
    AddedFailuresCount(db.failures, FailedTable(entry.failed), entry.ledger, l);
  }

  lemma OtherLedgerExact(db: Db, entry: LedgerCommit, l: Ledger)
    requires RowsBelong(db.ledgers, db.settlements) && FailuresBelong(db.ledgers, db.failures)
    requires Admissible(db, entry) && IsPending(db, entry.ledger)
    requires l in db.ledgers && l != entry.ledger && LedgerExact(l, db.ledgers[l], db.settlements, db.failures)
    ensures var after := Commit(db, entry); LedgerExact(l, after.ledgers[l], after.settlements, after.failures)
  {
    CommitElsewhere(db, entry, l);
    RowsElsewhere(db, entry, l);
  }

  lemma CommitKeepsCounts(db: Db, entry: LedgerCommit)
    requires RowsBelong(db.ledgers, db.settlements) && FailuresBelong(db.ledgers, db.failures)
    requires LedgersExact(db.ledgers, db.settlements, db.failures)
    requires Admissible(db, entry) && IsPending(db, entry.ledger)
    ensures var after := Commit(db, entry); LedgersExact(after.ledgers, after.settlements, after.failures)
  {
    var after := Commit(db, entry);
    forall l | l in after.ledgers ensures LedgerExact(l, after.ledgers[l], after.settlements, after.failures) {
      if l == entry.ledger {
        CommittedRows(db, entry);
        CommittedFailures(db, entry);
      } else {
        assert LedgerExact(l, db.ledgers[l], db.settlements, db.failures);
        OtherLedgerExact(db, entry, l);
      }
    }
  }

  lemma CommitKeepsConsistent(db: Db, entry: LedgerCommit)
    requires Consistent(db) && Admissible(db, entry)
    ensures Consistent(Commit(db, entry))
  {
    if IsPending(db, entry.ledger) {
      CommitKeepsRows(db, entry);
      CommitKeepsFailures(db, entry);
      CommitKeepsPositions(db, entry);
      CommitKeepsCounts(db, entry);
      assert Commit(db, entry).ledgers.Keys == db.ledgers.Keys;
    }
  }

  /** A change of ledgers that are not indexed, which leaves them not indexed and their counts alone. */
  lemma StatusChangeKeepsConsistent(db: Db, after: Db)
    requires Consistent(db) && after == db.(ledgers := after.ledgers) && after.ledgers.Keys == db.ledgers.Keys
    requires forall l | l in db.ledgers ::
      if db.ledgers[l].status.Indexed? then after.ledgers[l] == db.ledgers[l]
      else !after.ledgers[l].status.Indexed? && after.ledgers[l].rows == db.ledgers[l].rows &&
           after.ledgers[l].attributed == db.ledgers[l].attributed && after.ledgers[l].failed == db.ledgers[l].failed &&
           after.ledgers[l].versions == db.ledgers[l].versions
    ensures Consistent(after)
  {
    forall h | h in db.settlements ensures RowBelongs(after.ledgers, h, db.settlements[h]) {
      assert RowBelongs(db.ledgers, h, db.settlements[h]);
    }
    forall l | l in after.ledgers ensures LedgerExact(l, after.ledgers[l], db.settlements, db.failures) {
      assert LedgerExact(l, db.ledgers[l], db.settlements, db.failures);
    }
  }

  lemma MarkFailedKeepsConsistent(db: Db, ledger: Ledger, error: string)
    requires Consistent(db)
    ensures Consistent(MarkFailed(db, ledger, error))
  {
    StatusChangeKeepsConsistent(db, MarkFailed(db, ledger, error));
  }

  lemma RetryKeepsConsistent(db: Db)
    requires Consistent(db)
    ensures Consistent(RetryFailed(db))
  {
    StatusChangeKeepsConsistent(db, RetryFailed(db));
  }

  // ---------------------------------------------------------------------- a registry or rules change

  lemma ResetKeepsConsistent(db: Db, rules: string, classification: string)
    requires Consistent(db)
    ensures Consistent(ResetStale(db, rules, classification))
  {
    var stale := StaleLedgers(db.ledgers, rules, classification);
    var rest, after := Without(db, stale), ResetStale(db, rules, classification);
    RemovalKeepsRows(db, stale);
    RemovalKeepsCounts(db, stale);
    NewLedgersKeepRows(rest, stale);
    assert after.ledgers == NewLedgers(stale) + rest.ledgers;
  }

  lemma ReattributeKeepsRows(ledgers: map<Ledger, LedgerRow>, settlements: map<Hash, Row>, registry: Registry)
    requires RowsBelong(ledgers, settlements)
    ensures var rows := ReattributedRows(settlements, registry);
            RowsBelong(RestampedLedgers(ledgers, registry, rows), rows)
  {
    var rows := ReattributedRows(settlements, registry);
    var after := RestampedLedgers(ledgers, registry, rows);
    forall h | h in rows ensures RowBelongs(after, h, rows[h]) {
      assert RowBelongs(ledgers, h, settlements[h]);
    }
  }

  lemma ReattributeKeepsPositions(settlements: map<Hash, Row>, registry: Registry)
    requires PositionsUnique(settlements)
    ensures PositionsUnique(ReattributedRows(settlements, registry))
  {
    var after := ReattributedRows(settlements, registry);
    forall g, h | g in after && h in after && SamePosition(after[g].facts, after[h].facts) ensures g == h {
      assert SamePosition(settlements[g].facts, settlements[h].facts);
    }
  }

  /** A ledger that is not stamped has no row that changes. */
  lemma UnstampedLedgerUnchanged(ledgers: map<Ledger, LedgerRow>, settlements: map<Hash, Row>, registry: Registry,
                                 l: Ledger)
    requires RowsBelong(ledgers, settlements) && l in ledgers && !Restamped(ledgers[l], registry)
    ensures AttributedOf(ReattributedRows(settlements, registry), l) == AttributedOf(settlements, l)
  {
    var after := ReattributedRows(settlements, registry);
    forall h | h in settlements && settlements[h].facts.ledger == l ensures after[h] == settlements[h] {
      assert RowBelongs(ledgers, h, settlements[h]);
    }
  }

  lemma ReattributeKeepsRowsOf(settlements: map<Hash, Row>, registry: Registry, l: Ledger)
    ensures RowsOf(ReattributedRows(settlements, registry), l) == RowsOf(settlements, l)
  {
  }

  lemma ReattributeKeepsCount(ledgers: map<Ledger, LedgerRow>, settlements: map<Hash, Row>,
                              failures: map<Hash, FailedAttempt>, registry: Registry, l: Ledger)
    requires RowsBelong(ledgers, settlements) && l in ledgers && LedgerExact(l, ledgers[l], settlements, failures)
    ensures var rows := ReattributedRows(settlements, registry);
            LedgerExact(l, Restamp(ledgers, registry, rows, l), rows, failures)
  {
    ReattributeKeepsRowsOf(settlements, registry, l);
    if !Restamped(ledgers[l], registry) {
      UnstampedLedgerUnchanged(ledgers, settlements, registry, l);
    }
  }

  lemma ReattributeKeepsCounts(ledgers: map<Ledger, LedgerRow>, settlements: map<Hash, Row>,
                               failures: map<Hash, FailedAttempt>, registry: Registry)
    requires RowsBelong(ledgers, settlements) && LedgersExact(ledgers, settlements, failures)
    ensures var rows := ReattributedRows(settlements, registry);
            LedgersExact(RestampedLedgers(ledgers, registry, rows), rows, failures)
  {
    var rows := ReattributedRows(settlements, registry);
    var after := RestampedLedgers(ledgers, registry, rows);
    forall l | l in after ensures LedgerExact(l, after[l], rows, failures) {
      assert LedgerExact(l, ledgers[l], settlements, failures);
      ReattributeKeepsCount(ledgers, settlements, failures, registry, l);
    }
  }

  lemma ReattributeKeepsConsistent(db: Db, registry: Registry)
    requires Consistent(db)
    ensures Consistent(Reattribute(db, registry))
  {
    ReattributeKeepsRows(db.ledgers, db.settlements, registry);
    ReattributeKeepsPositions(db.settlements, registry);
    ReattributeKeepsCounts(db.ledgers, db.settlements, db.failures, registry);
  }
}
