/**
 * The Explorer's index as a value, and each transaction of the store as a function on it: what the
 * transaction does to the stored routes, candidates, ledgers and rows. The derived totals are not part of
 * this value; `Totals` says what they are for it.
 */
module Index {
  import opened Options
  import opened Settlements
  import opened Tables

  datatype RouteKind = Account | Contract | Approvals
  datatype RouteKey = RouteKey(kind: RouteKind, address: Address)

  /** A stored discovery route: its bounds and its checkpoint, the last ledger its walk covered. */
  datatype Route = Route(from: Ledger, to: Option<Ledger>, scanned: Option<int>)

  /** A route as the registry plans it. */
  datatype PlannedRoute = PlannedRoute(key: RouteKey, from: Ledger, to: Option<Ledger>)

  datatype Candidate = Candidate(ledger: Ledger, route: RouteKey)

  datatype Status = Pending | Indexed | Failed

  /** What an indexed ledger's rows depend on: the rules, the registry version and the fingerprint of the registry. */
  datatype Versions = Versions(rules: string, registry: string, classification: string)

  datatype LedgerRow = LedgerRow(status: Status, rows: nat, attributed: nat, failed: nat, attempts: nat,
                                 versions: Option<Versions>, error: Option<string>)

  const NEW_LEDGER := LedgerRow(Pending, 0, 0, 0, 0, None, None)

  datatype Db = Db(
    routes: map<RouteKey, Route>,
    candidates: set<Candidate>,
    ledgers: map<Ledger, LedgerRow>,
    settlements: map<Hash, Row>,
    failures: map<Hash, FailedAttempt>,
    exclusions: map<Ledger, map<string, nat>>)

  const EMPTY := Db(map[], {}, map[], map[], map[], map[])

  /** What a worker has to write for one ledger, and under which versions. */
  datatype LedgerCommit = LedgerCommit(ledger: Ledger, rows: seq<Row>, failed: seq<FailedAttempt>,
                                       excluded: map<string, nat>, versions: Versions)

  /** A registry: its version, the fingerprint of what it says about classification, and who it says settled what. */
  datatype Registry = Registry(version: string, fingerprint: string, attribute: Facts -> Attribution)

  // ---------------------------------------------------------------------------------------- invariant

  predicate IsIndexed(ledgers: map<Ledger, LedgerRow>, ledger: Ledger) {
    ledger in ledgers && ledgers[ledger].status.Indexed?
  }

  /** A settlement stored under `h`: it belongs to an indexed ledger, and was produced under that ledger's versions. */
  predicate RowBelongs(ledgers: map<Ledger, LedgerRow>, h: Hash, row: Row) {
    row.facts.hash == h && IsIndexed(ledgers, row.facts.ledger) && ledgers[row.facts.ledger].versions.Some? &&
    row.registry == ledgers[row.facts.ledger].versions.value.registry &&
    row.facts.rules == ledgers[row.facts.ledger].versions.value.rules
  }

  ghost predicate RowsBelong(ledgers: map<Ledger, LedgerRow>, settlements: map<Hash, Row>) {
    forall h {:trigger RowBelongs(ledgers, h, settlements[h])} | h in settlements ::
      RowBelongs(ledgers, h, settlements[h])
  }

  /** Failed attempts and exclusion counts belong to indexed ledgers too. */
  ghost predicate FailuresBelong(ledgers: map<Ledger, LedgerRow>, failures: map<Hash, FailedAttempt>) {
    forall h | h in failures :: failures[h].hash == h && IsIndexed(ledgers, failures[h].ledger)
  }

  ghost predicate ExclusionsBelong(ledgers: map<Ledger, LedgerRow>, exclusions: map<Ledger, map<string, nat>>) {
    forall l | l in exclusions :: IsIndexed(ledgers, l)
  }

  /** A ledger's counts are those of its stored rows, and it carries versions exactly while it is indexed. */
  predicate LedgerExact(l: Ledger, ledger: LedgerRow, settlements: map<Hash, Row>, failures: map<Hash, FailedAttempt>) {
    ledger.rows == |RowsOf(settlements, l)| && ledger.attributed == |AttributedOf(settlements, l)| &&
    ledger.failed == |FailedOf(failures, l)| && (ledger.status.Indexed? <==> ledger.versions.Some?)
  }

  ghost predicate LedgersExact(ledgers: map<Ledger, LedgerRow>, settlements: map<Hash, Row>,
                               failures: map<Hash, FailedAttempt>) {
    forall l {:trigger LedgerExact(l, ledgers[l], settlements, failures)} | l in ledgers ::
      LedgerExact(l, ledgers[l], settlements, failures)
  }

  predicate SamePosition(a: Facts, b: Facts) {
    a.ledger == b.ledger && a.txIndex == b.txIndex
  }

  /** A position in a ledger holds one transaction. */
  ghost predicate PositionsUnique(settlements: map<Hash, Row>) {
    forall g, h {:trigger SamePosition(settlements[g].facts, settlements[h].facts)} |
      g in settlements && h in settlements && SamePosition(settlements[g].facts, settlements[h].facts) ::
      g == h
  }

  predicate Within(route: Route, ledger: Ledger) {
    route.from <= ledger && (route.to.Some? ==> ledger <= route.to.value)
  }

  function LedgersListed(candidates: set<Candidate>): set<Ledger> {
    set c | c in candidates :: c.ledger
  }

  predicate CheckpointInside(route: Route) {
    route.scanned.Some? && route.to.Some? ==> route.scanned.value <= route.to.value
  }

  /** A candidate lies inside the bounds of the route that lists it, and no checkpoint passes its route's end. */
  ghost predicate RoutesBound(routes: map<RouteKey, Route>, candidates: set<Candidate>) {
    (forall c | c in candidates :: c.route in routes && Within(routes[c.route], c.ledger)) &&
    (forall k | k in routes :: CheckpointInside(routes[k]))
  }

  ghost predicate Consistent(db: Db) {
    RowsBelong(db.ledgers, db.settlements) && FailuresBelong(db.ledgers, db.failures) &&
    ExclusionsBelong(db.ledgers, db.exclusions) && LedgersExact(db.ledgers, db.settlements, db.failures) &&
    PositionsUnique(db.settlements) && RoutesBound(db.routes, db.candidates) &&
    // The index holds exactly the ledgers some route lists.
    db.ledgers.Keys == LedgersListed(db.candidates)
  }

  // --------------------------------------------------------------------------------------- discovery

  /** The plan as a table; the last entry for a route counts. */
  function PlanTable(plan: seq<PlannedRoute>): map<RouteKey, PlannedRoute> {
    if plan == [] then map[] else PlanTable(plan[..|plan| - 1])[plan[|plan| - 1].key := plan[|plan| - 1]]
  }

  /**
   * A stored route under new bounds: walked again when its first ledger moved earlier, and never walked
   * past a new last ledger.
   */
  function Replanned(route: Route, plan: PlannedRoute): Route {
    Route(plan.from, plan.to,
          if plan.from < route.from || route.scanned.None? then None
          else if plan.to.Some? && route.scanned.value > plan.to.value then Some(plan.to.value)
          else route.scanned)
  }

  /** What the plan makes of a route: moved to its new bounds when stored, else unwalked. */
  function SyncedRoute(routes: map<RouteKey, Route>, plan: map<RouteKey, PlannedRoute>, k: RouteKey): Route {
    if k !in plan then Route(0, None, None)
    else if k in routes then Replanned(routes[k], plan[k])
    else Route(plan[k].from, plan[k].to, None)
  }

  ghost function SyncedRoutes(routes: map<RouteKey, Route>, plan: map<RouteKey, PlannedRoute>): map<RouteKey, Route> {
    MapOf(plan.Keys, k => SyncedRoute(routes, plan, k))
  }

  function KeptCandidates(candidates: set<Candidate>, plan: map<RouteKey, PlannedRoute>): set<Candidate> {
    set c | c in candidates && c.route in plan && Within(Route(plan[c.route].from, plan[c.route].to, None), c.ledger)
  }

  /** The index without some ledgers and everything that belongs to them. */
  function Without(db: Db, gone: set<Ledger>): Db {
    db.(ledgers := db.ledgers - gone, settlements := RowsOutside(db.settlements, gone),
        failures := FailuresOutside(db.failures, gone), exclusions := db.exclusions - gone)
  }

  function RowsOutside(settlements: map<Hash, Row>, gone: set<Ledger>): (rows: map<Hash, Row>)
    ensures rows.Keys == set h | h in settlements && settlements[h].facts.ledger !in gone
    ensures forall h | h in rows :: rows[h] == settlements[h]
  {
    settlements - set h | h in settlements && settlements[h].facts.ledger in gone
  }

  function FailuresOutside(failures: map<Hash, FailedAttempt>, gone: set<Ledger>): (rest: map<Hash, FailedAttempt>)
    ensures rest.Keys == set h | h in failures && failures[h].ledger !in gone
    ensures forall h | h in rest :: rest[h] == failures[h]
  {
    failures - set h | h in failures && failures[h].ledger in gone
  }

  /** Ledgers no route lists any more. */
  function Orphans(db: Db): set<Ledger> {
    db.ledgers.Keys - LedgersListed(db.candidates)
  }

  function Prune(db: Db): Db {
    Without(db, Orphans(db))
  }

  ghost function SyncRoutes(db: Db, plan: seq<PlannedRoute>): Db {
    var table := PlanTable(plan);
    Prune(db.(routes := SyncedRoutes(db.routes, table), candidates := KeptCandidates(db.candidates, table)))
  }

  /** The ledgers of a discovery page that lie inside the route's bounds. */
  function Accepted(route: Route, ledgers: seq<Ledger>): set<Ledger> {
    set l | l in ledgers && Within(route, l)
  }

  /** Whether a page's checkpoint moves the route's. */
  predicate Moves(route: Route, scanned: Option<int>) {
    scanned.Some? && (route.scanned.None? || scanned.value > route.scanned.value) && scanned.value >= route.from - 1
  }

  function Checkpoint(route: Route, scanned: int): int {
    if route.to.Some? && route.to.value < scanned then route.to.value else scanned
  }

  /** Ledgers that wait to be read. */
  ghost function NewLedgers(found: set<Ledger>): map<Ledger, LedgerRow> {
    MapOf(found, l => NEW_LEDGER)
  }

  function NewCandidates(found: set<Ledger>, key: RouteKey): set<Candidate> {
    set l | l in found :: Candidate(l, key)
  }

  ghost function RecordWindow(db: Db, key: RouteKey, ledgers: seq<Ledger>, scanned: Option<int>): Db {
    if key !in db.routes then db else
    var route := db.routes[key];
    var accepted := Accepted(route, ledgers);
    db.(candidates := db.candidates + NewCandidates(accepted, key))
      .(ledgers := NewLedgers(accepted) + db.ledgers)
      .(routes := if Moves(route, scanned)
                  then db.routes[key := route.(scanned := Some(Checkpoint(route, scanned.value)))]
                  else db.routes)
  }

  function RestartRoute(db: Db, key: RouteKey): Db {
    if key in db.routes then db.(routes := db.routes[key := db.routes[key].(scanned := None)]) else db
  }

  // ---------------------------------------------------------------------------------------- indexing

  /**
   * What a commit may hold: rows and attempts of its own ledger under its own versions, each hash and position once.
   */
  ghost predicate Admissible(db: Db, entry: LedgerCommit) {
    DistinctHashes(entry.rows) && DistinctFailures(entry.failed) &&
    (forall i | 0 <= i < |entry.rows| ::
       entry.rows[i].facts.ledger == entry.ledger && entry.rows[i].registry == entry.versions.registry &&
       entry.rows[i].facts.rules == entry.versions.rules) &&
    (forall i, j | 0 <= i < j < |entry.rows| :: entry.rows[i].facts.txIndex != entry.rows[j].facts.txIndex) &&
    (forall i | 0 <= i < |entry.failed| :: entry.failed[i].ledger == entry.ledger) &&
    // A transaction hash belongs to one ledger.
    (forall i | 0 <= i < |entry.rows| && entry.rows[i].facts.hash in db.settlements ::
       db.settlements[entry.rows[i].facts.hash].facts.ledger == entry.ledger) &&
    (forall i | 0 <= i < |entry.failed| && entry.failed[i].hash in db.failures ::
       db.failures[entry.failed[i].hash].ledger == entry.ledger)
  }

  predicate IsPending(db: Db, ledger: Ledger) {
    ledger in db.ledgers && db.ledgers[ledger].status.Pending?
  }

  /** Exclusion reasons that occurred. */
  function Occurred(excluded: map<string, nat>): map<string, nat> {
    Keep(excluded, set r | r in excluded && excluded[r] > 0)
  }

  /** Writes one ledger; a ledger that is not pending is left alone. */
  function Commit(db: Db, entry: LedgerCommit): Db {
    if !IsPending(db, entry.ledger) then db else
    db.(settlements := db.settlements + RowTable(entry.rows))
      .(failures := FailedTable(entry.failed) + db.failures)
      .(exclusions := if Occurred(entry.excluded) == map[] then db.exclusions - {entry.ledger}
                      else db.exclusions[entry.ledger := Occurred(entry.excluded)])
      .(ledgers := db.ledgers[entry.ledger := LedgerRow(Indexed, |entry.rows|, AttributedCount(entry.rows),
                                                       |entry.failed|, 0, Some(entry.versions), None)])
  }

  /** The most characters of an error that are kept. */
  const MAX_ERROR := 1_000

  function Shortened(error: string): string {
    if |error| > MAX_ERROR then error[..MAX_ERROR] else error
  }

  function MarkFailed(db: Db, ledger: Ledger, error: string): Db {
    if ledger in db.ledgers && !db.ledgers[ledger].status.Indexed?
    then db.(ledgers := db.ledgers[ledger := db.ledgers[ledger].(status := Failed, error := Some(Shortened(error)))])
    else db
  }

  /** A failed ledger goes back to the queue. */
  function Retried(ledgers: map<Ledger, LedgerRow>, l: Ledger): LedgerRow {
    if l !in ledgers then NEW_LEDGER
    else if ledgers[l].status.Failed? then ledgers[l].(status := Pending, attempts := 0)
    else ledgers[l]
  }

  ghost function RetryFailed(db: Db): Db {
    db.(ledgers := MapOf(db.ledgers.Keys, l => Retried(db.ledgers, l)))
  }

  // --------------------------------------------------------------------------- a registry or rules change

  /** An indexed ledger that a reset to these rules and this fingerprint reads again. */
  predicate Stale(ledger: LedgerRow, rules: string, classification: string) {
    ledger.status.Indexed? &&
    (ledger.versions.None? || ledger.versions.value.rules != rules
     || ledger.versions.value.classification != classification)
  }

  function StaleLedgers(ledgers: map<Ledger, LedgerRow>, rules: string, classification: string): set<Ledger> {
    set l | l in ledgers && Stale(ledgers[l], rules, classification)
  }

  /** Stale ledgers lose their rows and are read again. */
  ghost function ResetStale(db: Db, rules: string, classification: string): Db {
    var stale := StaleLedgers(db.ledgers, rules, classification);
    Without(db, stale).(ledgers := db.ledgers + NewLedgers(stale))
  }

  function Reattributed(row: Row, registry: Registry): Row {
    if row.registry == registry.version then row else Row(row.facts, registry.version, registry.attribute(row.facts))
  }

  const NO_ROW := Row(Facts(0, 0, 0, 0, Exact, "", "", "", false, "", "", 0, None, "", "", ""), "",
                      Attribution(Shaped, None, None, false))

  ghost function ReattributedRows(rows: map<Hash, Row>, registry: Registry): (after: map<Hash, Row>)
    ensures after.Keys == rows.Keys && forall h | h in rows :: after[h] == Reattributed(rows[h], registry)
  {
    MapOf(rows.Keys, h => if h in rows then Reattributed(rows[h], registry) else NO_ROW)
  }

  /** Whether re-attribution stamps this ledger. */
  predicate Restamped(ledger: LedgerRow, registry: Registry) {
    ledger.status.Indexed? && ledger.versions.Some? && ledger.versions.value.registry != registry.version
  }

  /** The ledgers a re-attribution stamps. */
  function RestampedIn(ledgers: map<Ledger, LedgerRow>, registry: Registry): set<Ledger> {
    set l | l in ledgers && Restamped(ledgers[l], registry)
  }

  function Restamp(ledgers: map<Ledger, LedgerRow>, registry: Registry, rows: map<Hash, Row>, l: Ledger): LedgerRow {
    if l !in ledgers then NEW_LEDGER
    else if Restamped(ledgers[l], registry)
    then ledgers[l].(versions := Some(ledgers[l].versions.value.(registry := registry.version)),
                     attributed := |AttributedOf(rows, l)|)
    else ledgers[l]
  }

  ghost function RestampedLedgers(ledgers: map<Ledger, LedgerRow>, registry: Registry, rows: map<Hash, Row>):
    (after: map<Ledger, LedgerRow>)
    ensures after.Keys == ledgers.Keys && forall l | l in ledgers :: after[l] == Restamp(ledgers, registry, rows, l)
  {
    MapOf(ledgers.Keys, l => Restamp(ledgers, registry, rows, l))
  }

  /** Every row of another registry version is attributed again, and its ledger's attributed rows recounted. */
  ghost function Reattribute(db: Db, registry: Registry): Db {
    var rows := ReattributedRows(db.settlements, registry);
    db.(settlements := rows, ledgers := RestampedLedgers(db.ledgers, registry, rows))
  }

  /** What `reconcileRegistry` does to the index. */
  ghost function Reconciled(db: Db, registry: Registry, rules: string): Db {
    RetryFailed(Reattribute(ResetStale(db, rules, registry.fingerprint), registry))
  }
}
