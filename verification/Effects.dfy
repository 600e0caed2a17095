/**
 * What each transaction does to a store, route by route and ledger by ledger, in terms of what is stored before
 * and after it: what changes, and to what, and that everything else stays.
 */
module Effects {
  import opened Index
  import opened IndexInvariant
  import opened Options
  import opened Settlements
  import opened Tables

  /** Nothing but routes, candidates and the list of ledgers differs, and every ledger listed before is as it was. */
  ghost predicate ContentsStay(db: Db, after: Db) {
    && after.settlements == db.settlements && after.failures == db.failures && after.exclusions == db.exclusions
    && (forall l | l in db.ledgers :: l in after.ledgers && after.ledgers[l] == db.ledgers[l])
  }

  /** A ledger that waits to be read for the first time. */
  predicate Unread(ledger: LedgerRow) {
    && ledger.status == Pending && ledger.rows == 0 && ledger.attributed == 0 && ledger.failed == 0
    && ledger.attempts == 0 && ledger.versions == None && ledger.error == None
  }

  // --------------------------------------------------------------------------------- discovery pages

  /** What a walk has reached once a page vouches through `scanned`: no less than before, no more than the end. */
  ghost predicate ReachedBy(was: Route, scanned: int, now: Route) {
    var most := if was.to.Some? && was.to.value < scanned then was.to.value else scanned;
    now == was.(scanned := if was.scanned.Some? && was.scanned.value > most then was.scanned else Some(most))
  }

  /**
   * A page moves its route's checkpoint as far as it vouches for and the route goes, and never back; a page that
   * vouches for nothing from the route's start on leaves it.
   */
  lemma PageMovesCheckpoint(db: Db, key: RouteKey, page: seq<Ledger>, scanned: Option<int>)
    requires key in db.routes && CheckpointInside(db.routes[key])
    ensures var was, after := db.routes[key], RecordWindow(db, key, page, scanned).routes;
            && after.Keys == db.routes.Keys && (forall k | k in db.routes && k != key :: after[k] == db.routes[k])
            && (scanned.Some? && scanned.value >= was.from - 1 ==> ReachedBy(was, scanned.value, after[key]))
            && (scanned.None? || scanned.value < was.from - 1 ==> after[key] == was)
  {
  }

  /** A ledger of the page, inside the route's bounds. */
  predicate OnPage(route: Route, page: seq<Ledger>, l: Ledger) {
    l in page && route.from <= l && (route.to.Some? ==> l <= route.to.value)
  }

  /** It lists the ledgers of the page inside the route's bounds, and those not listed before wait to be read. */
  lemma PageListsLedgers(db: Db, key: RouteKey, page: seq<Ledger>, scanned: Option<int>)
    requires key in db.routes
    ensures var route, after := db.routes[key], RecordWindow(db, key, page, scanned);
            && ContentsStay(db, after)
            && (forall c ::
                  c in after.candidates <==> c in db.candidates || (c.route == key && OnPage(route, page, c.ledger)))
            && (forall l :: l in after.ledgers <==> l in db.ledgers || OnPage(route, page, l))
            && (forall l | l in after.ledgers && l !in db.ledgers :: Unread(after.ledgers[l]))
  {
  }

  /** A page of a route that is gone changes nothing. */
  lemma PageOfNoRoute(db: Db, key: RouteKey, page: seq<Ledger>, scanned: Option<int>)
    requires key !in db.routes
    ensures RecordWindow(db, key, page, scanned) == db
  {
  }

  /** A restart forgets how far the route was walked, and nothing else. */
  lemma RestartForgetsCheckpoint(db: Db, key: RouteKey)
    ensures var after := RestartRoute(db, key);
            && ContentsStay(db, after) && after.ledgers.Keys == db.ledgers.Keys && after.candidates == db.candidates
            && after.routes.Keys == db.routes.Keys
            && (forall k | k in db.routes ::
                  after.routes[k] == if k == key then db.routes[k].(scanned := None) else db.routes[k])
  {
  }

  // ------------------------------------------------------------------------------------------- plans

  /** The entry of a plan that counts for a route: its last one. */
  ghost predicate Plans(plan: seq<PlannedRoute>, i: int, k: RouteKey) {
    0 <= i < |plan| && plan[i].key == k && forall j | i < j < |plan| :: plan[j].key != k
  }

  lemma {:induction false} PlanTableIs(plan: seq<PlannedRoute>, k: RouteKey)
    ensures forall i | Plans(plan, i, k) :: k in PlanTable(plan) && PlanTable(plan)[k] == plan[i]
    ensures k in PlanTable(plan) ==> exists i :: Plans(plan, i, k)
    ensures (forall i | 0 <= i < |plan| :: plan[i].key != k) ==> k !in PlanTable(plan)
    decreases |plan|
  {
    if plan != [] {
      var n := |plan| - 1;
      PlanTableIs(plan[..n], k);
      if plan[n].key == k {
        assert Plans(plan, n, k);
      } else {
        forall i ensures Plans(plan, i, k) <==> Plans(plan[..n], i, k) {}
      }
    }
  }

  /** What a plan makes of a route: its own bounds, and of the walk what still holds under them. */
  ghost predicate PlannedAs(routes: map<RouteKey, Route>, p: PlannedRoute, now: Route) {
    && now.from == p.from && now.to == p.to
    && (p.key !in routes ==> now.scanned == None)
    && (p.key in routes ==>
          var was := routes[p.key];
          // A start moved back is walked again.
          && (now.scanned.Some? <==> was.scanned.Some? && was.from <= p.from)
          && (now.scanned.Some? ==>
                now.scanned.value == if p.to.Some? && p.to.value < was.scanned.value then p.to.value
                                     else was.scanned.value))
  }

  /** The routes stored after a plan are those it names, as it plans them. */
  lemma PlanMovesRoutes(db: Db, plan: seq<PlannedRoute>, k: RouteKey)
    ensures var after := SyncRoutes(db, plan).routes;
            && (forall i | Plans(plan, i, k) :: k in after && PlannedAs(db.routes, plan[i], after[k]))
            && (k in after ==> exists i :: Plans(plan, i, k))
  {
    PlanTableIs(plan, k);
    PlanTableKeys(plan);
  }

  lemma {:induction false} PlanTableKeys(plan: seq<PlannedRoute>)
    ensures forall k | k in PlanTable(plan) :: PlanTable(plan)[k].key == k
    decreases |plan|
  {
    if plan != [] {
      PlanTableKeys(plan[..|plan| - 1]);
    }
  }

  /** Of the ledgers a route lists, those inside its new bounds stay listed. */
  lemma PlanKeepsCandidates(db: Db, plan: seq<PlannedRoute>, c: Candidate)
    ensures c in SyncRoutes(db, plan).candidates
       <==> c in db.candidates
            && exists i :: Plans(plan, i, c.route) && plan[i].from <= c.ledger
                           && (plan[i].to.Some? ==> c.ledger <= plan[i].to.value)
  {
    PlanTableIs(plan, c.route);
    if c.route in PlanTable(plan) {
      var i :| Plans(plan, i, c.route);
    }
  }

  /** The ledgers still listed stay as they are, with all they hold; the others are gone, with all they held. */
  lemma PlanKeepsLedgers(db: Db, plan: seq<PlannedRoute>)
    ensures var after := SyncRoutes(db, plan);
            && (forall l ::
                  l in after.ledgers <==> l in db.ledgers && exists c :: c in after.candidates && c.ledger == l)
            && (forall l | l in after.ledgers :: after.ledgers[l] == db.ledgers[l])
            && StaysOutside(db, after, db.ledgers.Keys - after.ledgers.Keys) && NothingNew(db, after)
            && HoldsNothing(after, db.ledgers.Keys - after.ledgers.Keys)
  {
  }

  /** What belongs to no ledger in `gone` stays. */
  ghost predicate StaysOutside(db: Db, after: Db, gone: set<Ledger>) {
    && (forall h | h in db.settlements && db.settlements[h].facts.ledger !in gone ::
          h in after.settlements && after.settlements[h] == db.settlements[h])
    && (forall h | h in db.failures && db.failures[h].ledger !in gone ::
          h in after.failures && after.failures[h] == db.failures[h])
    && (forall l | l in db.exclusions && l !in gone ::
          l in after.exclusions && after.exclusions[l] == db.exclusions[l])
  }

  ghost predicate NothingNew(db: Db, after: Db) {
    && after.settlements.Keys <= db.settlements.Keys && after.failures.Keys <= db.failures.Keys
    && after.exclusions.Keys <= db.exclusions.Keys
  }

  /** Nothing stored belongs to these ledgers. */
  ghost predicate HoldsNothing(db: Db, ledgers: set<Ledger>) {
    && (forall h | h in db.settlements :: db.settlements[h].facts.ledger !in ledgers)
    && (forall h | h in db.failures :: db.failures[h].ledger !in ledgers)
    && (forall l | l in db.exclusions :: l !in ledgers)
  }

  // ----------------------------------------------------------------------------------------- commits

  /** The ledger's rows are those of the commit. */
  ghost predicate RowsWritten(rows: map<Hash, Row>, entry: LedgerCommit) {
    && (forall i | 0 <= i < |entry.rows| ::
          entry.rows[i].facts.hash in rows && rows[entry.rows[i].facts.hash] == entry.rows[i])
    && (forall h | h in rows && rows[h].facts.ledger == entry.ledger :: rows[h] in entry.rows)
  }

  ghost predicate FailuresWritten(failures: map<Hash, FailedAttempt>, entry: LedgerCommit) {
    && (forall i | 0 <= i < |entry.failed| ::
          entry.failed[i].hash in failures && failures[entry.failed[i].hash] == entry.failed[i])
    && (forall h | h in failures && failures[h].ledger == entry.ledger :: failures[h] in entry.failed)
  }

  /** Its exclusion counts are those of the reasons that occurred, if any did. */
  ghost predicate ReasonsWritten(reasons: map<Ledger, map<string, nat>>, entry: LedgerCommit) {
    && (entry.ledger in reasons <==> exists reason :: reason in entry.excluded && entry.excluded[reason] > 0)
    && (entry.ledger in reasons ==>
          forall reason {:trigger reason in entry.excluded} :: Counts(reasons[entry.ledger], entry.excluded, reason))
  }

  /** The reason is kept with its count, if it occurred. */
  predicate Counts(kept: map<string, nat>, excluded: map<string, nat>, reason: string) {
    && (reason in kept <==> reason in excluded && excluded[reason] > 0)
    && (reason in kept ==> kept[reason] == excluded[reason])
  }

  lemma CommitStoresRows(db: Db, entry: LedgerCommit)
    requires Consistent(db) && Admissible(db, entry) && IsPending(db, entry.ledger)
    ensures RowsWritten(Commit(db, entry).settlements, entry)
  {
    var after := Commit(db, entry);
    NothingUnlessIndexed(db, entry.ledger);
    forall i | 0 <= i < |entry.rows|
      ensures entry.rows[i].facts.hash in after.settlements
      ensures after.settlements[entry.rows[i].facts.hash] == entry.rows[i]
    {
      RowTableHolds(entry.rows, i);
    }
    forall h | h in after.settlements && after.settlements[h].facts.ledger == entry.ledger
      ensures after.settlements[h] in entry.rows
    {
      assert h in RowTable(entry.rows) by { assert h !in RowsOf(db.settlements, entry.ledger); }
      RowTableEntry(entry.rows, h);
    }
  }

  lemma CommitStoresFailures(db: Db, entry: LedgerCommit)
    requires Consistent(db) && Admissible(db, entry) && IsPending(db, entry.ledger)
    ensures FailuresWritten(Commit(db, entry).failures, entry)
  {
    var after := Commit(db, entry);
    CommitAdds(db, entry);
    NothingUnlessIndexed(db, entry.ledger);
    forall i | 0 <= i < |entry.failed|
      ensures entry.failed[i].hash in after.failures
      ensures after.failures[entry.failed[i].hash] == entry.failed[i]
    {
      FailedTableHolds(entry.failed, i);
    }
    forall h | h in after.failures && after.failures[h].ledger == entry.ledger
      ensures after.failures[h] in entry.failed
    {
      assert h in FailedTable(entry.failed) by { assert h !in FailedOf(db.failures, entry.ledger); }
      FailedTableEntry(entry.failed, h);
    }
  }

  lemma CommitStoresReasons(db: Db, entry: LedgerCommit)
    requires IsPending(db, entry.ledger)
    ensures ReasonsWritten(Commit(db, entry).exclusions, entry)
  {
    var occurred := Occurred(entry.excluded);
    forall reason ensures Counts(occurred, entry.excluded, reason) {}
    if reason :| reason in entry.excluded && entry.excluded[reason] > 0 {
      assert Counts(occurred, entry.excluded, reason) && reason in occurred;
    } else {
      assert occurred.Keys == {};
    }
  }

  /** The routes, the candidates and the other ledgers are what they were. */
  ghost predicate LedgersStay(db: Db, after: Db, but: set<Ledger>) {
    && after.ledgers.Keys == db.ledgers.Keys && after.routes == db.routes && after.candidates == db.candidates
    && (forall l | l in db.ledgers && l !in but :: after.ledgers[l] == db.ledgers[l])
  }

  /** The rows of the other ledgers are those they had. */
  ghost predicate RowsApart(rows: map<Hash, Row>, after: map<Hash, Row>, l: Ledger) {
    forall h :: (h in rows && rows[h].facts.ledger != l) || (h in after && after[h].facts.ledger != l) ==>
      h in rows && h in after && after[h] == rows[h]
  }

  ghost predicate FailuresApart(failures: map<Hash, FailedAttempt>, after: map<Hash, FailedAttempt>, l: Ledger) {
    forall h :: (h in failures && failures[h].ledger != l) || (h in after && after[h].ledger != l) ==>
      h in failures && h in after && after[h] == failures[h]
  }

  ghost predicate ReasonsApart(reasons: map<Ledger, map<string, nat>>, after: map<Ledger, map<string, nat>>,
                               l: Ledger) {
    forall k | k != l :: (k in reasons <==> k in after) && (k in reasons ==> after[k] == reasons[k])
  }

  lemma AddedRowsApart(rows: map<Hash, Row>, added: map<Hash, Row>, l: Ledger)
    requires rows.Keys !! added.Keys && forall h | h in added :: added[h].facts.ledger == l
    ensures RowsApart(rows, rows + added, l)
  {
  }

  lemma AddedFailuresApart(failures: map<Hash, FailedAttempt>, added: map<Hash, FailedAttempt>, l: Ledger)
    requires failures.Keys !! added.Keys && forall h | h in added :: added[h].ledger == l
    ensures FailuresApart(failures, added + failures, l)
  {
  }

  lemma CommitLeavesContents(db: Db, entry: LedgerCommit)
    requires Consistent(db) && Admissible(db, entry) && IsPending(db, entry.ledger)
    ensures var after := Commit(db, entry);
            && RowsApart(db.settlements, after.settlements, entry.ledger)
            && FailuresApart(db.failures, after.failures, entry.ledger)
            && ReasonsApart(db.exclusions, after.exclusions, entry.ledger)
  {
    CommitAdds(db, entry);
    AddedRowsApart(db.settlements, RowTable(entry.rows), entry.ledger);
    AddedFailuresApart(db.failures, FailedTable(entry.failed), entry.ledger);
  }

  /** What the commit makes of the ledger itself. */
  predicate MarkedIndexed(ledger: LedgerRow, entry: LedgerCommit) {
    && ledger.status == Indexed && ledger.versions == Some(entry.versions) && ledger.attempts == 0
    && ledger.error == None && ledger.rows == |entry.rows| && ledger.failed == |entry.failed|
  }

  lemma CommitMarks(db: Db, entry: LedgerCommit)
    requires IsPending(db, entry.ledger)
    ensures var after := Commit(db, entry);
            && LedgersStay(db, after, {entry.ledger})
            && entry.ledger in after.ledgers && MarkedIndexed(after.ledgers[entry.ledger], entry)
  {
  }

  /** A pending ledger then holds exactly what the commit brings, and the others what they held. */
  ghost predicate Written(db: Db, after: Db, entry: LedgerCommit) {
    && LedgersStay(db, after, {entry.ledger})
    && entry.ledger in after.ledgers && MarkedIndexed(after.ledgers[entry.ledger], entry)
    && RowsWritten(after.settlements, entry) && RowsApart(db.settlements, after.settlements, entry.ledger)
    && FailuresWritten(after.failures, entry) && FailuresApart(db.failures, after.failures, entry.ledger)
    && ReasonsWritten(after.exclusions, entry) && ReasonsApart(db.exclusions, after.exclusions, entry.ledger)
  }

  /** A pending ledger is written as a whole, and any other is left alone. */
  lemma CommitWritesPending(db: Db, entry: LedgerCommit)
    requires Consistent(db) && Admissible(db, entry)
    ensures if entry.ledger in db.ledgers && db.ledgers[entry.ledger].status == Pending
            then Written(db, Commit(db, entry), entry)
            else Commit(db, entry) == db
  {
    if IsPending(db, entry.ledger) {
      CommitMarks(db, entry);
      CommitStoresRows(db, entry);
      CommitStoresFailures(db, entry);
      CommitStoresReasons(db, entry);
      CommitLeavesContents(db, entry);
    }
  }

  // ---------------------------------------------------------------------------- failures and retries

  /** A ledger that is not indexed is marked with the beginning of the error, and nothing else changes. */
  lemma FailureIsNoted(db: Db, l: Ledger, error: string)
    ensures var after := MarkFailed(db, l, error);
            if l !in db.ledgers || db.ledgers[l].status == Indexed then after == db else
            && LedgersStay(db, after, {l}) && SameContents(db, after)
            && after.ledgers[l].error.Some? && IsStart(after.ledgers[l].error.value, error)
            && after.ledgers[l] == db.ledgers[l].(status := Failed, error := after.ledgers[l].error)
  {
  }

  /** The text, or its first 1,000 characters when it has more. */
  predicate IsStart(kept: string, text: string) {
    kept <= text && |kept| <= 1_000 && (kept != text ==> |kept| == 1_000)
  }

  ghost predicate SameContents(db: Db, after: Db) {
    after.settlements == db.settlements && after.failures == db.failures && after.exclusions == db.exclusions
  }

  /** The failed ledgers, and no others, wait again. */
  lemma RetryQueuesFailed(db: Db)
    ensures var after := RetryFailed(db);
            && LedgersStay(db, after, set l | l in db.ledgers && db.ledgers[l].status == Failed)
            && SameContents(db, after)
            && forall l | l in db.ledgers && db.ledgers[l].status == Failed ::
                 after.ledgers[l] == db.ledgers[l].(status := Pending, attempts := 0)
  {
  }

  // ------------------------------------------------------------------------------------ new versions

  /** The ledger's rows are what it gives under these rules and this fingerprint. */
  predicate ReadUnder(ledger: LedgerRow, rules: string, classification: string) {
    && ledger.versions.Some?
    && ledger.versions.value.rules == rules && ledger.versions.value.classification == classification
  }

  /** The indexed ledgers that have to be read again. */
  function Outdated(db: Db, rules: string, classification: string): set<Ledger> {
    set l | l in db.ledgers && db.ledgers[l].status == Indexed && !ReadUnder(db.ledgers[l], rules, classification)
  }

  lemma OutdatedAreStale(db: Db, rules: string, classification: string)
    ensures StaleLedgers(db.ledgers, rules, classification) == Outdated(db, rules, classification)
  {
  }

  /** A reset empties exactly the ledgers read under other rules or another fingerprint, and lets them wait again. */
  lemma ResetEmptiesOutdated(db: Db, rules: string, classification: string)
    ensures var after, gone := ResetStale(db, rules, classification), Outdated(db, rules, classification);
            && LedgersStay(db, after, gone) && (forall l | l in gone :: Unread(after.ledgers[l]))
            && StaysOutside(db, after, gone) && NothingNew(db, after) && HoldsNothing(after, gone)
  {
    OutdatedAreStale(db, rules, classification);
  }

  /** A row as it is under a registry: its facts, and who that registry says settled it. */
  ghost predicate UnderRegistry(row: Row, registry: Registry, now: Row) {
    && now.facts == row.facts && now.registry == registry.version
    && now.attribution == if row.registry == registry.version then row.attribution else registry.attribute(row.facts)
  }

  /** A re-attribution rewrites what the registry says of rows and ledgers, and nothing else. */
  lemma ReattributionRewrites(db: Db, registry: Registry)
    requires Consistent(db)
    ensures var after := Reattribute(db, registry);
            && after.routes == db.routes && after.candidates == db.candidates
            && after.failures == db.failures && after.exclusions == db.exclusions
            && after.settlements.Keys == db.settlements.Keys && after.ledgers.Keys == db.ledgers.Keys
            && (forall h | h in db.settlements :: UnderRegistry(db.settlements[h], registry, after.settlements[h]))
            && (forall l | l in db.ledgers :: StampedAs(db.ledgers[l], registry, after.ledgers[l]))
  {
    var after := Reattribute(db, registry);
    forall l | l in db.ledgers ensures StampedAs(db.ledgers[l], registry, after.ledgers[l]) {
      assert LedgerExact(l, db.ledgers[l], db.settlements, db.failures);
    }
  }

  /** Of a ledger, only the registry version of its rows and how many of them are attributed may change. */
  ghost predicate StampedAs(ledger: LedgerRow, registry: Registry, now: LedgerRow) {
    if ledger.status != Indexed || ledger.versions.None? || ledger.versions.value.registry == registry.version
    then now == ledger
    else now == ledger.(versions := Some(ledger.versions.value.(registry := registry.version)),
                        attributed := now.attributed)
  }

  /** What an indexed ledger holds stays, but for who settled its rows. */
  ghost predicate Holds(db: Db, after: Db, registry: Registry, l: Ledger) {
    && (forall h :: h in after.settlements && after.settlements[h].facts.ledger == l
          <==> h in db.settlements && db.settlements[h].facts.ledger == l)
    && (forall h | h in db.settlements && db.settlements[h].facts.ledger == l ::
          UnderRegistry(db.settlements[h], registry, after.settlements[h]))
    && (forall h | h in after.failures && after.failures[h].ledger == l ::
          h in db.failures && after.failures[h] == db.failures[h])
    && (forall h | h in db.failures && db.failures[h].ledger == l :: h in after.failures)
    && (l in after.exclusions <==> l in db.exclusions)
    && (l in db.exclusions ==> after.exclusions[l] == db.exclusions[l])
  }

  /** A ledger that is not outdated keeps what it holds through a reset, and one that is holds nothing then. */
  lemma ResetHolds(db: Db, rules: string, classification: string, l: Ledger)
    ensures var after, gone := ResetStale(db, rules, classification), Outdated(db, rules, classification);
            if l in gone then HoldsNothing(after, {l}) else HeldAlike(db, after, l)
  {
    ResetEmptiesOutdated(db, rules, classification);
  }

  /** Both hold the same of this ledger. */
  ghost predicate HeldAlike(db: Db, after: Db, l: Ledger) {
    && (forall h :: (h in db.settlements && db.settlements[h].facts.ledger == l)
                    || (h in after.settlements && after.settlements[h].facts.ledger == l) ==>
          h in db.settlements && h in after.settlements && after.settlements[h] == db.settlements[h])
    && (forall h :: (h in db.failures && db.failures[h].ledger == l)
                    || (h in after.failures && after.failures[h].ledger == l) ==>
          h in db.failures && h in after.failures && after.failures[h] == db.failures[h])
    && (l in after.exclusions <==> l in db.exclusions)
    && (l in db.exclusions ==> after.exclusions[l] == db.exclusions[l])
  }

  lemma ReattributionHolds(db: Db, registry: Registry, l: Ledger)
    requires Consistent(db)
    ensures Holds(db, Reattribute(db, registry), registry, l)
    ensures HoldsNothing(db, {l}) ==> HoldsNothing(Reattribute(db, registry), {l})
  {
    ReattributionRewrites(db, registry);
  }

  lemma HoldsFrom(db: Db, reset: Db, after: Db, registry: Registry, l: Ledger)
    requires HeldAlike(db, reset, l) && Holds(reset, after, registry, l)
    ensures Holds(db, after, registry, l)
  {
  }

  lemma SameHolds(reset: Db, attributed: Db, after: Db, registry: Registry, l: Ledger)
    requires SameContents(attributed, after)
    ensures Holds(reset, attributed, registry, l) ==> Holds(reset, after, registry, l)
    ensures HoldsNothing(attributed, {l}) ==> HoldsNothing(after, {l})
  {
  }

  /** What a ledger holds through a reconciliation. */
  lemma ReconciledHolds(db: Db, registry: Registry, rules: string, l: Ledger)
    requires Consistent(db)
    ensures var after := Reconciled(db, registry, rules);
            if l in Outdated(db, rules, registry.fingerprint) then HoldsNothing(after, {l})
            else Holds(db, after, registry, l)
  {
    var reset := ResetStale(db, rules, registry.fingerprint);
    var attributed := Reattribute(reset, registry);
    ResetHolds(db, rules, registry.fingerprint, l);
    ResetKeepsConsistent(db, rules, registry.fingerprint);
    ReattributionHolds(reset, registry, l);
    RetryQueuesFailed(attributed);
    SameHolds(reset, attributed, RetryFailed(attributed), registry, l);
    if l !in Outdated(db, rules, registry.fingerprint) {
      HoldsFrom(db, reset, RetryFailed(attributed), registry, l);
    }
  }

  /** What a reconciliation makes of a ledger. */
  ghost predicate ReconciledAs(was: LedgerRow, registry: Registry, rules: string, now: LedgerRow) {
    match was.status
    case Pending => now == was
    case Failed => now == was.(status := Pending, attempts := 0)
    case Indexed =>
      if ReadUnder(was, rules, registry.fingerprint)
      then now == was.(versions := Some(Versions(rules, registry.version, registry.fingerprint)),
                       attributed := now.attributed)
      else Unread(now)
  }

  lemma ReconciledLedger(db: Db, registry: Registry, rules: string, l: Ledger)
    requires Consistent(db) && l in db.ledgers
    ensures var after := Reconciled(db, registry, rules);
            l in after.ledgers && ReconciledAs(db.ledgers[l], registry, rules, after.ledgers[l])
  {
    var reset := ResetStale(db, rules, registry.fingerprint);
    var attributed := Reattribute(reset, registry);
    assert LedgerExact(l, db.ledgers[l], db.settlements, db.failures);
    ResetEmptiesOutdated(db, rules, registry.fingerprint);
    ResetKeepsConsistent(db, rules, registry.fingerprint);
    ReattributionRewrites(reset, registry);
    RetryQueuesFailed(attributed);
    InTurn(db.ledgers[l], reset.ledgers[l], attributed.ledgers[l], RetryFailed(attributed).ledgers[l], registry, rules);
  }

  /** A ledger through the three transactions in turn. */
  lemma InTurn(was: LedgerRow, reset: LedgerRow, stamped: LedgerRow, now: LedgerRow, registry: Registry, rules: string)
    requires was.status.Indexed? <==> was.versions.Some?
    requires if was.status == Indexed && !ReadUnder(was, rules, registry.fingerprint) then Unread(reset)
             else reset == was
    requires StampedAs(reset, registry, stamped)
    requires now == if stamped.status == Failed then stamped.(status := Pending, attempts := 0) else stamped
    ensures ReconciledAs(was, registry, rules, now)
  {
  }

  /**
   * A reconciliation keeps an indexed ledger indexed exactly if it was read under the given rules and
   * fingerprint, with all it held, and rewrites what the registry says of it; every other indexed ledger is
   * emptied and waits, and so do the failed ones.
   */
  lemma ReconcileKeepsExactly(db: Db, registry: Registry, rules: string, l: Ledger)
    requires Consistent(db) && l in db.ledgers
    ensures var after := Reconciled(db, registry, rules);
            && l in after.ledgers && ReconciledAs(db.ledgers[l], registry, rules, after.ledgers[l])
            && (db.ledgers[l].status == Indexed ==>
                  if ReadUnder(db.ledgers[l], rules, registry.fingerprint)
                  then after.ledgers[l].status == Indexed && Holds(db, after, registry, l)
                  else after.ledgers[l].status == Pending && HoldsNothing(after, {l}))
  {
    ReconciledLedger(db, registry, rules, l);
    ReconciledHolds(db, registry, rules, l);
  }

  /** The ledgers a reconciliation keeps and stamps: those read under another registry version. */
  function Restampable(db: Db, registry: Registry, rules: string): set<Ledger> {
    set l | l in db.ledgers && db.ledgers[l].status == Indexed && ReadUnder(db.ledgers[l], rules, registry.fingerprint)
            && db.ledgers[l].versions.value.registry != registry.version
  }

  lemma RestampableAreRestamped(db: Db, registry: Registry, rules: string)
    ensures RestampedIn(ResetStale(db, rules, registry.fingerprint).ledgers, registry)
         == Restampable(db, registry, rules)
  {
    ResetEmptiesOutdated(db, rules, registry.fingerprint);
  }
}
