/**
 * Runs of the store as the program makes them: what is written is what classifying the ledger gives, under
 * the versions and registries of the moment. Nothing else is assumed of what the store holds.
 */
module WorldRuns {
  import opened Index
  import opened IndexInvariant
  import opened Reconcile
  import opened Runs
  import opened Settlements

  /** A commit writes what the ledger's classification gives; a registry attributes as its version does. */
  ghost predicate OfWorld(w: World, e: Event) {
    match e
    case Write(entry) => exists v: Versions, l: Ledger :: entry == CommitOf(w, v, l)
    case Attribute(registry) => exists version, fingerprint :: registry == RegistryOf(w, version, fingerprint)
    case _ => true
  }

  ghost predicate AllOfWorld(w: World, events: seq<Event>) {
    forall e | e in events :: OfWorld(w, e)
  }

  lemma NextKeepsProvenance(w: World, s: State, e: Event)
    requires Sound(w) && OfWorld(w, e) && Consistent(s.db) && Provenance(w, s.db)
    ensures e.Write? ==> Truthful(s, e)
    ensures Consistent(Next(s, e).db) && Provenance(w, Next(s, e).db)
  {
    match e
    case Sync(plan) =>
      SyncKeepsProvenance(w, s.db, plan);
      SyncKeepsConsistent(s.db, plan);
    case Record(key, page, scanned) =>
      RecordKeepsProvenance(w, s.db, key, page, scanned);
      RecordKeepsConsistent(s.db, key, page, scanned);
    case Restart(key, _) =>
      RestartKeepsProvenance(w, s.db, key);
      RestartKeepsConsistent(s.db, key);
    case Write(entry) =>
      var v: Versions, l: Ledger :| entry == CommitOf(w, v, l);
      CommitKeepsProvenance(w, s.db, v, l);
      CommitKeepsConsistent(s.db, entry);
    case Fail(ledger, error) =>
      MarkFailedKeepsProvenance(w, s.db, ledger, error);
      MarkFailedKeepsConsistent(s.db, ledger, error);
    case Retry =>
      RetryKeepsProvenance(w, s.db);
      RetryKeepsConsistent(s.db);
    case Reset(rules, classification) =>
      ResetKeepsProvenance(w, s.db, rules, classification);
      ResetKeepsConsistent(s.db, rules, classification);
    case Attribute(registry) =>
      var version, fingerprint :| registry == RegistryOf(w, version, fingerprint);
      ReattributeKeepsProvenance(w, s.db, version, fingerprint);
      ReattributeKeepsConsistent(s.db, registry);
  }

  /**
   * In every state a run reaches, everything stored is what classifying its ledger gives under the ledger's versions.
   */
  lemma {:induction false} EveryRunKeepsProvenance(w: World, activity: Activity, events: seq<Event>)
    requires Sound(w) && AllOfWorld(w, events)
    ensures Consistent(Run(State(EMPTY, activity), events).db) && Provenance(w, Run(State(EMPTY, activity), events).db)
  {
    if events == [] {
      EmptyIsConsistent();
    } else {
      var n := |events| - 1;
      EveryRunKeepsProvenance(w, activity, events[..n]);
      assert OfWorld(w, events[n]);
      NextKeepsProvenance(w, Run(State(EMPTY, activity), events[..n]), events[n]);
    }
  }

  /** The discovery pages of a run vouch for their checkpoints. */
  ghost predicate PagesVouch(start: State, events: seq<Event>) {
    forall i | 0 <= i < |events| && events[i].Record? :: Truthful(Run(start, events[..i]), events[i])
  }

  /** Truthful pages are all a run needs for its coverage: every commit it makes is admissible. */
  lemma EveryRunIsCovered(w: World, activity: Activity, events: seq<Event>)
    requires Sound(w) && AllOfWorld(w, events) && PagesVouch(State(EMPTY, activity), events)
    ensures TruthfulRun(State(EMPTY, activity), events) && Covered(Run(State(EMPTY, activity), events))
  {
    forall i | 0 <= i < |events| ensures Truthful(Run(State(EMPTY, activity), events[..i]), events[i]) {
      EveryRunKeepsProvenance(w, activity, events[..i]);
      NextKeepsProvenance(w, Run(State(EMPTY, activity), events[..i]), events[i]);
    }
    EveryRunIsSound(activity, events);
  }

  /**
   * Whatever a run did, a reconciliation and then commits of all that is pending, in any order, leave the
   * index that an empty store would have that indexed the same candidates, in any order.
   */
  lemma EveryReconciliationEqualsFresh(w: World, activity: Activity, events: seq<Event>, version: string,
                                       fingerprint: string, rules: string, queue: seq<Ledger>, freshQueue: seq<Ledger>)
    requires Sound(w) && AllOfWorld(w, events)
    requires var db := Run(State(EMPTY, activity), events).db;
             && (forall l | IsPending(Reconciled(db, RegistryOf(w, version, fingerprint), rules), l) :: l in queue)
             && (forall l | l in db.ledgers :: l in freshQueue)
    ensures var db, v := Run(State(EMPTY, activity), events).db, Versions(rules, version, fingerprint);
            CommitAll(w, v, Reconciled(db, RegistryOf(w, version, fingerprint), rules), queue)
                == CommitAll(w, v, Fresh(db), freshQueue)
  {
    EveryRunKeepsProvenance(w, activity, events);
    ReconcileEqualsFresh(w, Run(State(EMPTY, activity), events).db, version, fingerprint, rules, queue, freshQueue);
  }
}
