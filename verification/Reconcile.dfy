/**
 * Registry reconciliation equals a fresh index. The classifier and the registry are taken as given: what a
 * ledger holds depends on the rules version and the classification fingerprint, and who settled a row on
 * the registry version.
 */
module Reconcile {
  import opened Index
  import opened IndexInvariant
  import opened Options
  import opened Settlements

  /** What classifying a ledger finds in it. */
  datatype Classified = Classified(facts: seq<Facts>, failed: seq<FailedAttempt>, excluded: map<string, nat>)

  datatype World = World(classify: (string, string, Ledger) -> Classified, attribute: (string, Facts) -> Attribution,
                         ledgerOf: Hash -> Ledger)

  /** Attributes classified rows under a registry version. */
  function Attributed(w: World, registry: string, facts: seq<Facts>): (rows: seq<Row>)
    ensures |rows| == |facts|
    ensures forall i | 0 <= i < |facts| :: rows[i] == Row(facts[i], registry, w.attribute(registry, facts[i]))
  {
    seq(|facts|, i requires 0 <= i < |facts| => Row(facts[i], registry, w.attribute(registry, facts[i])))
  }

  function Contents(w: World, v: Versions, l: Ledger): Classified {
    w.classify(v.rules, v.classification, l)
  }

  /** The commit of a ledger under some versions. */
  function CommitOf(w: World, v: Versions, l: Ledger): LedgerCommit {
    var found := Contents(w, v, l);
    LedgerCommit(l, Attributed(w, v.registry, found.facts), found.failed, found.excluded, v)
  }

  function RegistryOf(w: World, version: string, fingerprint: string): Registry {
    Registry(version, fingerprint, facts => w.attribute(version, facts))
  }

  /**
   * A ledger's rows carry its number and rules; hashes and positions are not repeated; a hash belongs to one ledger.
   */
  ghost predicate LedgerSound(w: World, rules: string, l: Ledger, found: Classified) {
    (forall i | 0 <= i < |found.facts| ::
       found.facts[i].ledger == l == w.ledgerOf(found.facts[i].hash) && found.facts[i].rules == rules) &&
    (forall i, j | 0 <= i < j < |found.facts| ::
       found.facts[i].hash != found.facts[j].hash && found.facts[i].txIndex != found.facts[j].txIndex) &&
    (forall i | 0 <= i < |found.failed| :: found.failed[i].ledger == l == w.ledgerOf(found.failed[i].hash)) &&
    DistinctFailures(found.failed)
  }

  ghost predicate Sound(w: World) {
    forall rules, classification, l :: LedgerSound(w, rules, l, w.classify(rules, classification, l))
  }

  // -------------------------------------------------------------------------------------- provenance

  /** The row a ledger's commit stores under `h`. */
  ghost predicate Holds(w: World, v: Versions, row: Row) {
    row.facts in Contents(w, v, row.facts.ledger).facts
        && row == Row(row.facts, v.registry, w.attribute(v.registry, row.facts))
  }

  /** What the index stores for an indexed ledger is what its commit under its versions would store now. */
  ghost predicate AsCommitted(w: World, db: Db, l: Ledger) {
    l in db.ledgers && db.ledgers[l].versions.Some? && db.ledgers[l].attempts == 0 && db.ledgers[l].error.None? &&
    var found := Contents(w, db.ledgers[l].versions.value, l);
    (forall i | 0 <= i < |found.facts| :: found.facts[i].hash in db.settlements &&
       db.settlements[found.facts[i].hash].facts == found.facts[i]) &&
    (forall i | 0 <= i < |found.failed| ::
       found.failed[i].hash in db.failures && db.failures[found.failed[i].hash] == found.failed[i]) &&
    (l in db.exclusions <==> Occurred(found.excluded) != map[]) &&
    (l in db.exclusions ==> db.exclusions[l] == Occurred(found.excluded))
  }

  /** A stored row, or failed attempt, is one its ledger's commit would store now. */
  ghost predicate RowKnown(w: World, ledgers: map<Ledger, LedgerRow>, row: Row) {
    row.facts.ledger in ledgers && ledgers[row.facts.ledger].versions.Some? &&
    Holds(w, ledgers[row.facts.ledger].versions.value, row)
  }

  ghost predicate FailureKnown(w: World, ledgers: map<Ledger, LedgerRow>, failure: FailedAttempt) {
    failure.ledger in ledgers && ledgers[failure.ledger].versions.Some? &&
    failure in Contents(w, ledgers[failure.ledger].versions.value, failure.ledger).failed
  }

  ghost predicate Provenance(w: World, db: Db) {
    (forall l {:trigger AsCommitted(w, db, l)} | IsIndexed(db.ledgers, l) :: AsCommitted(w, db, l)) &&
    (forall h {:trigger RowKnown(w, db.ledgers, db.settlements[h])} | h in db.settlements ::
       RowKnown(w, db.ledgers, db.settlements[h])) &&
    (forall h {:trigger FailureKnown(w, db.ledgers, db.failures[h])} | h in db.failures ::
       FailureKnown(w, db.ledgers, db.failures[h]))
  }

  /** A stored hash is in the ledger it belongs to. */
  lemma StoredRowLedger(w: World, db: Db, h: Hash)
    requires Sound(w) && Provenance(w, db) && RowsBelong(db.ledgers, db.settlements) && h in db.settlements
    ensures w.ledgerOf(h) == db.settlements[h].facts.ledger
  {
    var row := db.settlements[h];
    assert RowBelongs(db.ledgers, h, row) && RowKnown(w, db.ledgers, row);
    var v := db.ledgers[row.facts.ledger].versions.value;
    assert LedgerSound(w, v.rules, row.facts.ledger, Contents(w, v, row.facts.ledger));
  }

  lemma StoredFailureLedger(w: World, db: Db, h: Hash)
    requires Sound(w) && Provenance(w, db) && FailuresBelong(db.ledgers, db.failures) && h in db.failures
    ensures w.ledgerOf(h) == db.failures[h].ledger
  {
    var failure := db.failures[h];
    assert FailureKnown(w, db.ledgers, failure);
    var v := db.ledgers[failure.ledger].versions.value;
    assert LedgerSound(w, v.rules, failure.ledger, Contents(w, v, failure.ledger));
  }

  /** A commit of a classified ledger is admissible. */
  lemma CommitAdmissible(w: World, db: Db, v: Versions, l: Ledger)
    requires Sound(w) && Provenance(w, db) && RowsBelong(db.ledgers, db.settlements)
    requires FailuresBelong(db.ledgers, db.failures)
    ensures Admissible(db, CommitOf(w, v, l))
  {
    var entry := CommitOf(w, v, l);
    assert LedgerSound(w, v.rules, l, Contents(w, v, l));
    forall i | 0 <= i < |entry.rows| && entry.rows[i].facts.hash in db.settlements
      ensures db.settlements[entry.rows[i].facts.hash].facts.ledger == l
    {
      StoredRowLedger(w, db, entry.rows[i].facts.hash);
    }
    forall i | 0 <= i < |entry.failed| && entry.failed[i].hash in db.failures
      ensures db.failures[entry.failed[i].hash].ledger == l
    {
      StoredFailureLedger(w, db, entry.failed[i].hash);
    }
  }

  // ----------------------------------------------------------------- provenance is kept

  lemma CommittedAsCommitted(w: World, db: Db, v: Versions, l: Ledger)
    requires Sound(w) && RowsBelong(db.ledgers, db.settlements) && FailuresBelong(db.ledgers, db.failures)
    requires Admissible(db, CommitOf(w, v, l)) && IsPending(db, l)
    ensures AsCommitted(w, Commit(db, CommitOf(w, v, l)), l)
  {
    var entry, found := CommitOf(w, v, l), Contents(w, v, l);
    var after := Commit(db, entry);
    forall i | 0 <= i < |found.facts|
      ensures found.facts[i].hash in after.settlements && after.settlements[found.facts[i].hash].facts == found.facts[i]
    {
      RowTableHolds(entry.rows, i);
    }
    forall i | 0 <= i < |found.failed|
      ensures found.failed[i].hash in after.failures && after.failures[found.failed[i].hash] == found.failed[i]
    {
      FailedTableHolds(found.failed, i);
    }
  }

  lemma OthersAsCommitted(w: World, db: Db, entry: LedgerCommit, l: Ledger)
    requires RowsBelong(db.ledgers, db.settlements) && FailuresBelong(db.ledgers, db.failures)
    requires Admissible(db, entry) && IsPending(db, entry.ledger)
    requires l != entry.ledger && AsCommitted(w, db, l)
    ensures AsCommitted(w, Commit(db, entry), l)
  {
    CommitAdds(db, entry);
  }

  lemma CommitKeepsKnown(w: World, db: Db, v: Versions, l: Ledger)
    requires Sound(w) && Provenance(w, db) && RowsBelong(db.ledgers, db.settlements)
    requires FailuresBelong(db.ledgers, db.failures)
    requires IsPending(db, l)
    ensures var after := Commit(db, CommitOf(w, v, l));
      (forall h | h in after.settlements :: RowKnown(w, after.ledgers, after.settlements[h])) &&
      (forall h | h in after.failures :: FailureKnown(w, after.ledgers, after.failures[h]))
  {
    CommitAdmissible(w, db, v, l);
    var entry := CommitOf(w, v, l);
    var after := Commit(db, entry);
    assert LedgerSound(w, v.rules, l, Contents(w, v, l));
    forall h | h in after.settlements ensures RowKnown(w, after.ledgers, after.settlements[h]) {
      if h in RowTable(entry.rows) {
        RowTableEntry(entry.rows, h);
      } else {
        assert RowBelongs(db.ledgers, h, db.settlements[h]) && RowKnown(w, db.ledgers, db.settlements[h]);
      }
    }
    forall h | h in after.failures ensures FailureKnown(w, after.ledgers, after.failures[h]) {
      if h in db.failures {
        assert FailureKnown(w, db.ledgers, db.failures[h]);
      } else {
        FailedTableEntry(entry.failed, h);
      }
    }
  }

  lemma CommitKeepsProvenance(w: World, db: Db, v: Versions, l: Ledger)
    requires Sound(w) && Consistent(db) && Provenance(w, db)
    ensures Admissible(db, CommitOf(w, v, l)) && Provenance(w, Commit(db, CommitOf(w, v, l)))
  {
    CommitAdmissible(w, db, v, l);
    if IsPending(db, l) {
      var after := Commit(db, CommitOf(w, v, l));
      CommitKeepsKnown(w, db, v, l);
      forall k | IsIndexed(after.ledgers, k) ensures AsCommitted(w, after, k) {
        if k == l {
          CommittedAsCommitted(w, db, v, l);
        } else {
          assert AsCommitted(w, db, k);
          OthersAsCommitted(w, db, CommitOf(w, v, l), k);
        }
      }
    }
  }

  /** A removal of whole ledgers, and a change of ledgers that are not indexed, keep provenance. */
  lemma RemovalKeepsProvenance(w: World, db: Db, gone: set<Ledger>, after: Db)
    requires Provenance(w, db)
    requires after.settlements == RowsOutside(db.settlements, gone)
    requires after.failures == FailuresOutside(db.failures, gone)
    requires after.exclusions == db.exclusions - gone
    requires forall l | l in after.ledgers && IsIndexed(after.ledgers, l) :: l !in gone
    requires forall l | l in db.ledgers && l !in gone && IsIndexed(db.ledgers, l) ::
               l in after.ledgers && after.ledgers[l] == db.ledgers[l]
    requires forall l | IsIndexed(after.ledgers, l) :: IsIndexed(db.ledgers, l)
    requires RowsBelong(db.ledgers, db.settlements) && FailuresBelong(db.ledgers, db.failures)
    requires Sound(w)
    ensures Provenance(w, after)
  {
    forall l | IsIndexed(after.ledgers, l) ensures AsCommitted(w, after, l) {
      assert AsCommitted(w, db, l);
      var v := db.ledgers[l].versions.value;
      assert LedgerSound(w, v.rules, l, Contents(w, v, l));
    }
    forall h | h in after.settlements ensures RowKnown(w, after.ledgers, after.settlements[h]) {
      assert RowBelongs(db.ledgers, h, db.settlements[h]) && RowKnown(w, db.ledgers, db.settlements[h]);
    }
    forall h | h in after.failures ensures FailureKnown(w, after.ledgers, after.failures[h]) {
      assert FailureKnown(w, db.ledgers, db.failures[h]);
    }
  }

  lemma SyncKeepsProvenance(w: World, db: Db, plan: seq<PlannedRoute>)
    requires Sound(w) && Consistent(db) && Provenance(w, db)
    ensures Provenance(w, SyncRoutes(db, plan))
  {
    var moved := db.(routes := SyncedRoutes(db.routes, PlanTable(plan)),
                     candidates := KeptCandidates(db.candidates, PlanTable(plan)));
    RemovalKeepsProvenance(w, db, Orphans(moved), SyncRoutes(db, plan));
  }

  lemma ResetKeepsProvenance(w: World, db: Db, rules: string, classification: string)
    requires Sound(w) && Consistent(db) && Provenance(w, db)
    ensures Provenance(w, ResetStale(db, rules, classification))
  {
    RemovalKeepsProvenance(w, db, StaleLedgers(db.ledgers, rules, classification),
                           ResetStale(db, rules, classification));
  }

  lemma NothingRemovedKeepsProvenance(w: World, db: Db, after: Db)
    requires Sound(w) && Consistent(db) && Provenance(w, db)
    requires after.settlements == db.settlements && after.failures == db.failures && after.exclusions == db.exclusions
    requires forall l | IsIndexed(db.ledgers, l) :: l in after.ledgers && after.ledgers[l] == db.ledgers[l]
    requires forall l | IsIndexed(after.ledgers, l) :: IsIndexed(db.ledgers, l)
    ensures Provenance(w, after)
  {
    assert RowsOutside(db.settlements, {}) == db.settlements && FailuresOutside(db.failures, {}) == db.failures;
    assert db.exclusions - {} == db.exclusions;
    RemovalKeepsProvenance(w, db, {}, after);
  }

  lemma RecordKeepsProvenance(w: World, db: Db, key: RouteKey, page: seq<Ledger>, scanned: Option<int>)
    requires Sound(w) && Consistent(db) && Provenance(w, db)
    ensures Provenance(w, RecordWindow(db, key, page, scanned))
  {
    NothingRemovedKeepsProvenance(w, db, RecordWindow(db, key, page, scanned));
  }

  lemma RestartKeepsProvenance(w: World, db: Db, key: RouteKey)
    requires Sound(w) && Consistent(db) && Provenance(w, db)
    ensures Provenance(w, RestartRoute(db, key))
  {
    NothingRemovedKeepsProvenance(w, db, RestartRoute(db, key));
  }

  lemma MarkFailedKeepsProvenance(w: World, db: Db, l: Ledger, error: string)
    requires Sound(w) && Consistent(db) && Provenance(w, db)
    ensures Provenance(w, MarkFailed(db, l, error))
  {
    NothingRemovedKeepsProvenance(w, db, MarkFailed(db, l, error));
  }

  lemma RetryKeepsProvenance(w: World, db: Db)
    requires Sound(w) && Consistent(db) && Provenance(w, db)
    ensures Provenance(w, RetryFailed(db))
  {
    NothingRemovedKeepsProvenance(w, db, RetryFailed(db));
  }

  lemma ReattributeKeepsProvenance(w: World, db: Db, version: string, fingerprint: string)
    requires Sound(w) && Consistent(db) && Provenance(w, db)
    ensures Provenance(w, Reattribute(db, RegistryOf(w, version, fingerprint)))
  {
    var after := Reattribute(db, RegistryOf(w, version, fingerprint));
    forall l | IsIndexed(after.ledgers, l) ensures AsCommitted(w, after, l) {
      assert IsIndexed(db.ledgers, l) && AsCommitted(w, db, l);
      ReattributedLedger(w, db, version, fingerprint, l);
    }
    forall h | h in after.settlements ensures RowKnown(w, after.ledgers, after.settlements[h]) {
      ReattributedRow(w, db, version, fingerprint, h);
    }
    forall h | h in after.failures ensures FailureKnown(w, after.ledgers, after.failures[h]) {
      ReattributedFailure(w, db, version, fingerprint, h);
    }
  }

  /** An index that keeps a ledger's facts, failed attempts and exclusions, and the versions these depend on. */
  lemma StillAsCommitted(w: World, db: Db, after: Db, l: Ledger)
    requires AsCommitted(w, db, l) && l in after.ledgers && after.ledgers[l].versions.Some?
    requires after.ledgers[l].attempts == db.ledgers[l].attempts && after.ledgers[l].error == db.ledgers[l].error
    requires after.ledgers[l].versions.value.rules == db.ledgers[l].versions.value.rules
    requires after.ledgers[l].versions.value.classification == db.ledgers[l].versions.value.classification
    requires SameFacts(db.settlements, after.settlements)
    requires after.failures == db.failures && after.exclusions == db.exclusions
    ensures AsCommitted(w, after, l)
  {
  }

  lemma ReattributedLedger(w: World, db: Db, version: string, fingerprint: string, l: Ledger)
    requires AsCommitted(w, db, l)
    ensures AsCommitted(w, Reattribute(db, RegistryOf(w, version, fingerprint)), l)
  {
    var registry := RegistryOf(w, version, fingerprint);
    ReattributedIs(db, registry, l);
    StillAsCommitted(w, db, Reattribute(db, registry), l);
  }

  lemma ReattributedFacts(db: Db, registry: Registry)
    ensures var after := Reattribute(db, registry);
            SameFacts(db.settlements, after.settlements) && after.failures == db.failures
            && after.exclusions == db.exclusions && after.ledgers.Keys == db.ledgers.Keys
  {
  }

  lemma RestampedIs(ledgers: map<Ledger, LedgerRow>, registry: Registry, rows: map<Hash, Row>, l: Ledger)
    requires l in ledgers && ledgers[l].versions.Some?
    ensures var after := Restamp(ledgers, registry, rows, l);
            && after.versions.Some? && after.attempts == ledgers[l].attempts && after.error == ledgers[l].error
            && after.versions.value.rules == ledgers[l].versions.value.rules
            && after.versions.value.classification == ledgers[l].versions.value.classification
  {
  }

  lemma ReattributedIs(db: Db, registry: Registry, l: Ledger)
    requires l in db.ledgers && db.ledgers[l].versions.Some?
    ensures var after := Reattribute(db, registry);
            && SameFacts(db.settlements, after.settlements) && l in after.ledgers && after.ledgers[l].versions.Some?
            && after.ledgers[l].attempts == db.ledgers[l].attempts && after.ledgers[l].error == db.ledgers[l].error
            && after.ledgers[l].versions.value.rules == db.ledgers[l].versions.value.rules
            && after.ledgers[l].versions.value.classification == db.ledgers[l].versions.value.classification
            && after.failures == db.failures && after.exclusions == db.exclusions
  {
    ReattributedFacts(db, registry);
    RestampedIs(db.ledgers, registry, ReattributedRows(db.settlements, registry), l);
  }

  lemma ReattributedRow(w: World, db: Db, version: string, fingerprint: string, h: Hash)
    requires Sound(w) && Consistent(db) && Provenance(w, db)
    requires h in Reattribute(db, RegistryOf(w, version, fingerprint)).settlements
    ensures var after := Reattribute(db, RegistryOf(w, version, fingerprint));
            RowKnown(w, after.ledgers, after.settlements[h])
  {
    assert RowBelongs(db.ledgers, h, db.settlements[h]) && RowKnown(w, db.ledgers, db.settlements[h]);
  }

  lemma ReattributedFailure(w: World, db: Db, version: string, fingerprint: string, h: Hash)
    requires Sound(w) && Consistent(db) && Provenance(w, db)
    requires h in Reattribute(db, RegistryOf(w, version, fingerprint)).failures
    ensures var after := Reattribute(db, RegistryOf(w, version, fingerprint));
            FailureKnown(w, after.ledgers, after.failures[h])
  {
    assert FailureKnown(w, db.ledgers, db.failures[h]);
  }

  // -------------------------------------------------------------------------- equality with a fresh index

  /** Commits ledgers in the given order. */
  ghost function CommitAll(w: World, v: Versions, db: Db, queue: seq<Ledger>): Db {
    if queue == [] then db else Commit(CommitAll(w, v, db, queue[..|queue| - 1]), CommitOf(w, v, queue[|queue| - 1]))
  }

  /** An index of the same routes and candidates that has read no ledger yet. */
  ghost function Fresh(db: Db): Db {
    Db(db.routes, db.candidates, NewLedgers(db.ledgers.Keys), map[], map[], map[])
  }

  /** Every ledger waits to be read or is indexed under `v`. */
  ghost predicate ReadyFor(db: Db, v: Versions) {
    forall l | l in db.ledgers ::
      db.ledgers[l].status.Pending? || (db.ledgers[l].status.Indexed? && db.ledgers[l].versions == Some(v))
  }

  ghost predicate AllIndexed(db: Db, v: Versions) {
    forall l | l in db.ledgers :: db.ledgers[l].status.Indexed? && db.ledgers[l].versions == Some(v)
  }

  lemma FreshIsReady(w: World, db: Db, v: Versions)
    requires Consistent(db)
    ensures Consistent(Fresh(db)) && Provenance(w, Fresh(db)) && ReadyFor(Fresh(db), v)
  {
    var empty := Fresh(db);
    forall l | l in empty.ledgers ensures LedgerExact(l, empty.ledgers[l], empty.settlements, empty.failures) {
      assert RowsOf(empty.settlements, l) == {} && AttributedOf(empty.settlements, l) == {}
             && FailedOf(empty.failures, l) == {};
    }
  }

  lemma ReconcileKeeps(w: World, db: Db, version: string, fingerprint: string, rules: string)
    requires Sound(w) && Consistent(db) && Provenance(w, db)
    ensures var after := Reconciled(db, RegistryOf(w, version, fingerprint), rules);
            Consistent(after) && Provenance(w, after)
  {
    var registry := RegistryOf(w, version, fingerprint);
    var reset := ResetStale(db, rules, fingerprint);
    var attributed := Reattribute(reset, registry);
    ResetKeepsConsistent(db, rules, fingerprint);
    ResetKeepsProvenance(w, db, rules, fingerprint);
    ReattributeKeepsConsistent(reset, registry);
    ReattributeKeepsProvenance(w, reset, version, fingerprint);
    RetryKeepsConsistent(attributed);
    RetryKeepsProvenance(w, attributed);
  }

  lemma ReconcileKeepsLedgers(db: Db, registry: Registry, rules: string)
    ensures var after := Reconciled(db, registry, rules);
      after.ledgers.Keys == db.ledgers.Keys && after.routes == db.routes && after.candidates == db.candidates
  {}

  /**
   * A reset leaves only ledgers of the given rules and fingerprint indexed; re-attribution stamps the registry on them.
   */
  lemma ReconciledVersions(db: Db, registry: Registry, rules: string)
    requires LedgersExact(db.ledgers, db.settlements, db.failures)
    ensures ReadyFor(Reconciled(db, registry, rules), Versions(rules, registry.version, registry.fingerprint))
  {
    var v := Versions(rules, registry.version, registry.fingerprint);
    var after := Reconciled(db, registry, rules);
    forall l | l in after.ledgers
      ensures after.ledgers[l].status.Pending?
              || (after.ledgers[l].status.Indexed? && after.ledgers[l].versions == Some(v))
    {
      ReconciledVersion(db, registry, rules, l);
    }
  }

  lemma ReconciledVersion(db: Db, registry: Registry, rules: string, l: Ledger)
    requires LedgersExact(db.ledgers, db.settlements, db.failures) && l in Reconciled(db, registry, rules).ledgers
    ensures var after := Reconciled(db, registry, rules).ledgers[l];
      after.status.Pending? ||
      (after.status.Indexed? && after.versions == Some(Versions(rules, registry.version, registry.fingerprint)))
  {
    var reset := ResetStale(db, rules, registry.fingerprint);
    assert LedgerExact(l, db.ledgers[l], db.settlements, db.failures);
    if reset.ledgers[l].status.Indexed? {
      assert l !in StaleLedgers(db.ledgers, rules, registry.fingerprint);
    }
  }

  lemma {:induction false} CommitAllKeeps(w: World, v: Versions, db: Db, queue: seq<Ledger>)
    requires Sound(w) && Consistent(db) && Provenance(w, db)
    ensures Consistent(CommitAll(w, v, db, queue)) && Provenance(w, CommitAll(w, v, db, queue))
  {
    if queue != [] {
      var n := |queue| - 1;
      CommitAllKeeps(w, v, db, queue[..n]);
      CommitKeepsProvenance(w, CommitAll(w, v, db, queue[..n]), v, queue[n]);
      CommitKeepsConsistent(CommitAll(w, v, db, queue[..n]), CommitOf(w, v, queue[n]));
    }
  }

  /** Commits read the ledgers of the queue and change no route, candidate or other ledger. */
  lemma {:induction false} CommitAllReads(w: World, v: Versions, db: Db, queue: seq<Ledger>)
    requires ReadyFor(db, v)
    ensures var after := CommitAll(w, v, db, queue);
      ReadyFor(after, v) && after.ledgers.Keys == db.ledgers.Keys && after.routes == db.routes
          && after.candidates == db.candidates &&
      (forall l | l in after.ledgers && (l in queue || IsIndexed(db.ledgers, l)) :: after.ledgers[l].status.Indexed?)
  {
    if queue != [] {
      var n := |queue| - 1;
      CommitAllReads(w, v, db, queue[..n]);
      assert forall l | l in queue :: l in queue[..n] || l == queue[n];
    }
  }

  /** Two indexes of the same ledgers, all indexed under the same versions, hold the same rows. */
  lemma SameRows(w: World, v: Versions, a: Db, b: Db)
    requires Consistent(a) && Provenance(w, a) && AllIndexed(a, v)
    requires Consistent(b) && Provenance(w, b) && AllIndexed(b, v)
    requires a.ledgers.Keys <= b.ledgers.Keys
    ensures forall h | h in a.settlements :: h in b.settlements && b.settlements[h] == a.settlements[h]
    ensures forall h | h in a.failures :: h in b.failures && b.failures[h] == a.failures[h]
    ensures forall l | l in a.exclusions :: l in b.exclusions && b.exclusions[l] == a.exclusions[l]
  {
    forall h | h in a.settlements ensures h in b.settlements && b.settlements[h] == a.settlements[h] {
      var row := a.settlements[h];
      assert RowBelongs(a.ledgers, h, row) && RowKnown(w, a.ledgers, row);
      assert AsCommitted(w, b, row.facts.ledger);
      assert RowKnown(w, b.ledgers, b.settlements[h]);
    }
    forall h | h in a.failures ensures h in b.failures && b.failures[h] == a.failures[h] {
      assert FailureKnown(w, a.ledgers, a.failures[h]);
      assert AsCommitted(w, b, a.failures[h].ledger);
    }
    forall l | l in a.exclusions ensures l in b.exclusions && b.exclusions[l] == a.exclusions[l] {
      assert AsCommitted(w, a, l) && AsCommitted(w, b, l);
    }
  }

  lemma SameIndex(w: World, v: Versions, a: Db, b: Db)
    requires Consistent(a) && Provenance(w, a) && AllIndexed(a, v)
    requires Consistent(b) && Provenance(w, b) && AllIndexed(b, v)
    requires a.ledgers.Keys == b.ledgers.Keys && a.routes == b.routes && a.candidates == b.candidates
    ensures a == b
  {
    SameRows(w, v, a, b);
    SameRows(w, v, b, a);
    assert a.settlements == b.settlements && a.failures == b.failures && a.exclusions == b.exclusions;
    forall l | l in a.ledgers ensures a.ledgers[l] == b.ledgers[l] {
      assert LedgerExact(l, a.ledgers[l], a.settlements, a.failures)
             && LedgerExact(l, b.ledgers[l], b.settlements, b.failures);
      assert AsCommitted(w, a, l) && AsCommitted(w, b, l);
    }
    assert a.ledgers == b.ledgers;
  }

  /**
   * After a reconciliation, and once everything pending was committed in any order, the index is the one an
   * empty store would have that indexed the same candidates, in any order, under the new rules and registry.
   */
  lemma ReconcileEqualsFresh(w: World, db: Db, version: string, fingerprint: string, rules: string,
                             queue: seq<Ledger>, freshQueue: seq<Ledger>)
    requires Sound(w) && Consistent(db) && Provenance(w, db)
    requires forall l | IsPending(Reconciled(db, RegistryOf(w, version, fingerprint), rules), l) :: l in queue
    requires forall l | l in db.ledgers :: l in freshQueue
    ensures var v := Versions(rules, version, fingerprint);
      CommitAll(w, v, Reconciled(db, RegistryOf(w, version, fingerprint), rules), queue)
          == CommitAll(w, v, Fresh(db), freshQueue)
  {
    var v := Versions(rules, version, fingerprint);
    var reconciled := Reconciled(db, RegistryOf(w, version, fingerprint), rules);
    ReconcileKeeps(w, db, version, fingerprint, rules);
    ReconcileKeepsLedgers(db, RegistryOf(w, version, fingerprint), rules);
    ReconciledVersions(db, RegistryOf(w, version, fingerprint), rules);
    FreshIsReady(w, db, v);
    CommitAllKeeps(w, v, reconciled, queue);
    CommitAllReads(w, v, reconciled, queue);
    CommitAllKeeps(w, v, Fresh(db), freshQueue);
    CommitAllReads(w, v, Fresh(db), freshQueue);
    SameIndex(w, v, CommitAll(w, v, reconciled, queue), CommitAll(w, v, Fresh(db), freshQueue));
  }
}
