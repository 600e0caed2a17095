/**
 * Runs of the store: any sequence of its transactions, in any order, over discovery sources that answer
 * truthfully for the route as stored. Every run keeps the index consistent and its coverage sound.
 */
module Runs {
  import opened Coverage
  import opened Index
  import opened IndexInvariant
  import opened Options
  import opened Settlements

  /** The ledgers each route's address is active in, as the discovery source knows them. */
  type Activity = RouteKey -> iset<int>

  datatype Event =
    | Sync(plan: seq<PlannedRoute>)
    | Record(key: RouteKey, page: seq<Ledger>, scanned: Option<int>)
    /** The discovery source rebuilt its index: what it knows about the route may have changed. */
    | Restart(key: RouteKey, now: iset<int>)
    | Write(entry: LedgerCommit)
    | Fail(ledger: Ledger, error: string)
    | Retry
    | Reset(rules: string, classification: string)
    | Attribute(registry: Registry)

  datatype State = State(db: Db, activity: Activity)

  /**
   * A page vouches for its checkpoint: after the stored one, up to it, the route's activity is in the page or
   * was stored before. A commit holds one ledger's rows.
   */
  ghost predicate Truthful(s: State, e: Event) {
    match e
    case Record(key, page, scanned) => key in s.db.routes && scanned.Some? ==> Vouches(s, key, page, scanned.value)
    case Write(entry) => Admissible(s.db, entry)
    case _ => true
  }

  ghost predicate Vouches(s: State, key: RouteKey, page: seq<Ledger>, scanned: int)
    requires key in s.db.routes
  {
    forall l: Ledger | l in s.activity(key) && Checked(s.db.routes[key]) < l <= scanned ::
      l in page || Candidate(l, key) in s.db.candidates
  }

  ghost function Next(s: State, e: Event): State {
    match e
    case Sync(plan) => s.(db := SyncRoutes(s.db, plan))
    case Record(key, page, scanned) => s.(db := RecordWindow(s.db, key, page, scanned))
    case Restart(key, now) => State(RestartRoute(s.db, key), k => if k == key then now else s.activity(k))
    case Write(entry) => s.(db := Commit(s.db, entry))
    case Fail(ledger, error) => s.(db := MarkFailed(s.db, ledger, error))
    case Retry => s.(db := RetryFailed(s.db))
    case Reset(rules, classification) => s.(db := ResetStale(s.db, rules, classification))
    case Attribute(registry) => s.(db := Reattribute(s.db, registry))
  }

  ghost function Run(s: State, events: seq<Event>): State {
    if events == [] then s else Next(Run(s, events[..|events| - 1]), events[|events| - 1])
  }

  ghost predicate TruthfulRun(s: State, events: seq<Event>) {
    forall i | 0 <= i < |events| :: Truthful(Run(s, events[..i]), events[i])
  }

  // ------------------------------------------------------------------------------------- coverage

  /** The route's activity up to its checkpoint, inside its bounds, is stored. */
  ghost predicate RouteCovered(s: State, key: RouteKey)
    requires key in s.db.routes
  {
    var route := s.db.routes[key];
    forall l: Ledger | l in s.activity(key) && route.scanned.Some? && l <= route.scanned.value && Within(route, l) ::
      Candidate(l, key) in s.db.candidates
  }

  ghost predicate Covered(s: State) {
    forall key | key in s.db.routes :: RouteCovered(s, key)
  }

  /** Bounds that move keep the coverage: a start moved back unwalks the route, and no checkpoint outruns an end. */
  lemma SyncKeepsCovered(s: State, plan: seq<PlannedRoute>)
    requires RoutesBound(s.db.routes, s.db.candidates) && Covered(s)
    ensures Covered(Next(s, Sync(plan)))
  {
    var after, table := Next(s, Sync(plan)), PlanTable(plan);
    forall key | key in after.db.routes ensures RouteCovered(after, key) {
      if key in s.db.routes {
        assert CheckpointInside(s.db.routes[key]) && RouteCovered(s, key);
      }
    }
  }

  /** A page read again, or one that vouches for more, keeps it. */
  lemma RecordKeepsCovered(s: State, key: RouteKey, page: seq<Ledger>, scanned: Option<int>)
    requires Covered(s) && Truthful(s, Record(key, page, scanned))
    ensures Covered(Next(s, Record(key, page, scanned)))
  {
    var after := Next(s, Record(key, page, scanned));
    forall k | k in after.db.routes ensures RouteCovered(after, k) {
      assert RouteCovered(s, k);
      if k == key {
        var route := s.db.routes[key];
        forall l: Ledger | l in page && Within(route, l) ensures Candidate(l, key) in after.db.candidates {
          assert l in Accepted(route, page);
        }
      }
    }
  }

  lemma RestartKeepsCovered(s: State, key: RouteKey, now: iset<int>)
    requires Covered(s)
    ensures Covered(Next(s, Restart(key, now)))
  {
    var after := Next(s, Restart(key, now));
    forall k | k in after.db.routes ensures RouteCovered(after, k) {
      assert RouteCovered(s, k);
    }
  }

  /** A step that leaves routes and candidates alone. */
  lemma OtherStepsKeepCovered(s: State, e: Event)
    requires Covered(s) && !e.Sync? && !e.Record? && !e.Restart?
    ensures Covered(Next(s, e))
  {
    var after := Next(s, e);
    assert after.db.routes == s.db.routes && after.db.candidates == s.db.candidates && after.activity == s.activity;
    forall k | k in after.db.routes ensures RouteCovered(after, k) {
      assert RouteCovered(s, k);
    }
  }

  lemma NextKeepsCovered(s: State, e: Event)
    requires Consistent(s.db) && Covered(s) && Truthful(s, e)
    ensures Covered(Next(s, e))
  {
    match e
    case Sync(plan) => SyncKeepsCovered(s, plan);
    case Record(key, page, scanned) => RecordKeepsCovered(s, key, page, scanned);
    case Restart(key, now) => RestartKeepsCovered(s, key, now);
    case _ => OtherStepsKeepCovered(s, e);
  }

  lemma NextKeepsConsistent(s: State, e: Event)
    requires Consistent(s.db) && Truthful(s, e)
    ensures Consistent(Next(s, e).db)
  {
    match e
    case Sync(plan) => SyncKeepsConsistent(s.db, plan);
    case Record(key, page, scanned) => RecordKeepsConsistent(s.db, key, page, scanned);
    case Restart(key, now) => RestartKeepsConsistent(s.db, key);
    case Write(entry) => CommitKeepsConsistent(s.db, entry);
    case Fail(ledger, error) => MarkFailedKeepsConsistent(s.db, ledger, error);
    case Retry => RetryKeepsConsistent(s.db);
    case Reset(rules, classification) => ResetKeepsConsistent(s.db, rules, classification);
    case Attribute(registry) => ReattributeKeepsConsistent(s.db, registry);
  }

  /** In every state a run reaches, the index is consistent and every route's coverage is sound. */
  lemma {:induction false} EveryRunIsSound(activity: Activity, events: seq<Event>)
    requires TruthfulRun(State(EMPTY, activity), events)
    ensures Consistent(Run(State(EMPTY, activity), events).db) && Covered(Run(State(EMPTY, activity), events))
  {
    var start := State(EMPTY, activity);
    if events == [] {
      EmptyIsConsistent();
    } else {
      var n := |events| - 1;
      forall i | 0 <= i < n ensures Truthful(Run(start, events[..n][..i]), events[..n][i]) {
        assert events[..n][..i] == events[..i];
      }
      EveryRunIsSound(activity, events[..n]);
      assert Truthful(Run(start, events[..n]), events[n]);
      NextKeepsConsistent(Run(start, events[..n]), events[n]);
      NextKeepsCovered(Run(start, events[..n]), events[n]);
    }
  }

  // ---------------------------------------------------------------------- what a covered bound means

  /** The stored routes, in some order. */
  ghost predicate Lists(routes: seq<Route>, stored: map<RouteKey, Route>) {
    (forall k | k in stored :: stored[k] in routes)
        && (forall r | r in routes :: exists k :: k in stored && stored[k] == r)
  }

  /** No ledger a route's address was active in, at or below the covered bound, is unknown to the index. */
  lemma CoveredLedgersAreKnown(s: State, routes: seq<Route>, to: Option<Ledger>, key: RouteKey, l: Ledger)
    requires Consistent(s.db) && Covered(s) && Lists(routes, s.db.routes)
    requires Through(routes, to).Some? && l <= Through(routes, to).value
    requires key in s.db.routes && l in s.activity(key) && Within(s.db.routes[key], l)
    ensures l in s.db.ledgers
  {
    var route, bound := s.db.routes[key], Through(routes, to).value;
    ThroughIsWalked(routes, to);
    assert WalkedTo(route, to, bound) && OwnLedger(route, to, bound, l);
    assert RouteCovered(s, key);
    assert Candidate(l, key) in s.db.candidates;
  }

  /** Storing a page never lowers the covered bound. */
  lemma PageNeverLowersCoverage(s: State, key: RouteKey, page: seq<Ledger>, scanned: Option<int>,
                                keys: seq<RouteKey>, before: seq<Route>, after: seq<Route>, to: Option<Ledger>)
    requires Consistent(s.db)
    requires |before| == |after| == |keys| && (forall k | k in keys :: k in s.db.routes)
    requires forall i | 0 <= i < |keys| ::
      before[i] == s.db.routes[keys[i]] && after[i] == RecordWindow(s.db, key, page, scanned).routes[keys[i]]
    ensures Through(before, to).Some? ==>
              Through(after, to).Some? && Through(before, to).value <= Through(after, to).value
  {
    forall i | 0 <= i < |keys| ensures WalkedOn(before[i], after[i], to) {
      assert keys[i] in keys;
      if keys[i] == key && Moves(s.db.routes[key], scanned) {
        assert CheckpointInside(s.db.routes[key]);
        PageWalksOn(s.db.routes[key], scanned.value, to);
      }
    }
    ThroughNeverFalls(before, after, to);
  }
}
