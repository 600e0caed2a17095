/** The range of ledgers a report covers, and why the index holds everything that happened in it. */
module Reports {
  import opened Coverage
  import opened Index
  import opened Options
  import opened Reconcile
  import opened Runs
  import opened Settlements
  import opened WorldRuns

  /** A ledger as the store lists it for a report. */
  datatype Entry = Entry(ledger: Ledger, status: Status)

  /** The range, its indexed ledgers in order, and the ledger that ends it early, if one does. */
  datatype Report = Report(start: int, end: int, ledgers: seq<Entry>, detached: Option<Entry>)

  ghost predicate Ascending(entries: seq<Entry>) {
    forall i, j | 0 <= i < j < |entries| :: entries[i].ledger <= entries[j].ledger
  }

  lemma FirstIsEarliest(entries: seq<Entry>)
    requires Ascending(entries) && entries != []
    ensures forall e | e in entries :: entries[0].ledger <= e.ledger
  {
  }

  function Inserted(entry: Entry, entries: seq<Entry>): (r: seq<Entry>)
    ensures multiset(r) == multiset([entry]) + multiset(entries)
  {
    if entries == [] || entry.ledger <= entries[0].ledger then [entry] + entries else
    assert entries == [entries[0]] + entries[1..];
    [entries[0]] + Inserted(entry, entries[1..])
  }

  lemma InsertedHolds(entry: Entry, entries: seq<Entry>)
    ensures forall e | e in Inserted(entry, entries) :: e == entry || e in entries
  {
    forall e | e in Inserted(entry, entries) ensures e == entry || e in entries {
      assert e in multiset(Inserted(entry, entries));
    }
  }

  lemma {:induction false} InsertedInOrder(entry: Entry, entries: seq<Entry>)
    requires Ascending(entries)
    ensures Ascending(Inserted(entry, entries))
  {
    if entries != [] && entry.ledger > entries[0].ledger {
      FirstIsEarliest(entries);
      InsertedInOrder(entry, entries[1..]);
      InsertedHolds(entry, entries[1..]);
      var rest := Inserted(entry, entries[1..]);
      forall i | 0 <= i < |rest| ensures entries[0].ledger <= rest[i].ledger {
        assert rest[i] in rest;
      }
    } else if entries != [] {
      FirstIsEarliest(entries);
    }
  }

  /** The entries in order of their ledgers. */
  function InOrder(entries: seq<Entry>): (r: seq<Entry>)
    ensures Ascending(r) && multiset(r) == multiset(entries)
  {
    if entries == [] then [] else
    InsertedInOrder(entries[0], InOrder(entries[1..]));
    assert entries == [entries[0]] + entries[1..];
    Inserted(entries[0], InOrder(entries[1..]))
  }

  lemma InOrderHolds(entries: seq<Entry>, e: Entry)
    ensures e in InOrder(entries) <==> e in entries
  {
    assert e in multiset(InOrder(entries)) <==> e in multiset(entries);
  }

  predicate Blocks(entry: Entry, through: int) {
    entry.ledger <= through && !entry.status.Indexed?
  }

  function FirstBlocked(entries: seq<Entry>, through: int): (r: Option<Entry>)
    ensures r.None? ==> forall e | e in entries :: !Blocks(e, through)
    ensures r.Some? ==> r.value in entries && Blocks(r.value, through)
    ensures r.Some? && Ascending(entries) ==>
              forall e | e in entries && Blocks(e, through) :: r.value.ledger <= e.ledger
  {
    if entries == [] then None else
    if Blocks(entries[0], through) then Some(entries[0]) else FirstBlocked(entries[1..], through)
  }

  function Chosen(entries: seq<Entry>, start: int, end: int): (r: seq<Entry>)
    ensures forall e :: e in r <==> e in entries && start <= e.ledger <= end && e.status.Indexed?
    ensures Ascending(entries) ==> Ascending(r)
  {
    if entries == [] then [] else
    var rest := Chosen(entries[1..], start, end);
    if start <= entries[0].ledger <= end && entries[0].status.Indexed? then [entries[0]] + rest else rest
  }

  /** The covered bound, or the ledger before the one that stops the range. */
  function EndOf(through: int, blocked: Option<Entry>): int {
    if blocked.None? || through < blocked.value.ledger - 1 then through else blocked.value.ledger - 1
  }

  /** The report's range: from the first route's start to the covered bound, cut before what is not indexed. */
  function CoverageOf(routes: seq<Route>, entries: seq<Entry>): Option<Report> {
    var through := Through(routes, None);
    if through.None? then None else
    ThroughHasRoutes(routes);
    var start := FirstLedger(routes);
    var sorted := InOrder(entries);
    var blocked := FirstBlocked(sorted, through.value);
    var end := EndOf(through.value, blocked);
    if end < start then None else Some(Report(start, end, Chosen(sorted, start, end), blocked))
  }

  lemma ThroughHasRoutes(routes: seq<Route>)
    ensures Through(routes, None).Some? ==> routes != []
  {
  }

  /** The entries are the stored ledgers, each with its status. */
  ghost predicate EntriesOf(entries: seq<Entry>, ledgers: map<Ledger, LedgerRow>) {
    && (forall e | e in entries :: e.ledger in ledgers && ledgers[e.ledger].status == e.status)
    && (forall l | l in ledgers :: Entry(l, ledgers[l].status) in entries)
  }

  /** A range may end here: discovery has covered it, and all it found up to here is indexed. */
  ghost predicate MayEnd(ledgers: map<Ledger, LedgerRow>, through: int, end: int) {
    end <= through && forall l | l in ledgers && l <= end :: ledgers[l].status.Indexed?
  }

  ghost predicate IsGreatestEnd(ledgers: map<Ledger, LedgerRow>, through: int, end: int) {
    MayEnd(ledgers, through, end) && forall other | MayEnd(ledgers, through, other) :: other <= end
  }

  /** What a report says of the stored ledgers: where it ends, which it lists, and what stops it. */
  ghost predicate Describes(routes: seq<Route>, ledgers: map<Ledger, LedgerRow>, report: Report)
    requires Through(routes, None).Some?
  {
    var through := Through(routes, None).value;
    && routes != [] && report.start == FirstLedger(routes) <= report.end
    && IsGreatestEnd(ledgers, through, report.end)
    && Ascending(report.ledgers)
    && (forall e :: e in report.ledgers
          <==> e.ledger in ledgers && e.status == ledgers[e.ledger].status && report.start <= e.ledger <= report.end)
    && (report.detached.None? <==> report.end == through)
    && (report.detached.Some? ==>
          var stop := report.detached.value;
          stop.ledger == report.end + 1 && stop.ledger in ledgers && ledgers[stop.ledger].status == stop.status)
  }

  lemma BlockedEnd(entries: seq<Entry>, ledgers: map<Ledger, LedgerRow>, through: int)
    requires EntriesOf(entries, ledgers)
    ensures IsGreatestEnd(ledgers, through, EndOf(through, FirstBlocked(InOrder(entries), through)))
  {
    forall e ensures e in InOrder(entries) <==> e in entries {
      InOrderHolds(entries, e);
    }
    var blocked := FirstBlocked(InOrder(entries), through);
    var end := EndOf(through, blocked);
    forall l | l in ledgers && l <= end ensures ledgers[l].status.Indexed? {
      assert Entry(l, ledgers[l].status) in InOrder(entries);
    }
    forall other | MayEnd(ledgers, through, other) ensures other <= end {
      if blocked.Some? {
        assert blocked.value in InOrder(entries);
      }
    }
  }

  /** What stops a range is a stored ledger just behind it. */
  lemma StopIsNext(entries: seq<Entry>, ledgers: map<Ledger, LedgerRow>, through: int)
    requires EntriesOf(entries, ledgers)
    ensures var blocked := FirstBlocked(InOrder(entries), through);
            var end := EndOf(through, blocked);
            && (blocked.None? <==> end == through)
            && (blocked.Some? ==>
                  var stop := blocked.value;
                  stop.ledger == end + 1 && stop.ledger in ledgers && ledgers[stop.ledger].status == stop.status)
  {
    var blocked := FirstBlocked(InOrder(entries), through);
    if blocked.Some? {
      InOrderHolds(entries, blocked.value);
    }
  }

  /** The entries of a range in which everything is indexed are its ledgers. */
  lemma ChosenAreStored(entries: seq<Entry>, ledgers: map<Ledger, LedgerRow>, through: int, start: int, end: int)
    requires EntriesOf(entries, ledgers) && MayEnd(ledgers, through, end)
    ensures var chosen := Chosen(InOrder(entries), start, end);
            && Ascending(chosen)
            && (forall e :: e in chosen
                  <==> e.ledger in ledgers && e.status == ledgers[e.ledger].status && start <= e.ledger <= end)
  {
    forall e ensures e in InOrder(entries) <==> e.ledger in ledgers && e.status == ledgers[e.ledger].status {
      InOrderHolds(entries, e);
    }
  }

  /**
   * A report covers the longest range discovery has covered in which everything found is indexed; there is
   * none only before discovery covers a ledger, or when that range is empty.
   */
  lemma CoverageIsGreatest(routes: seq<Route>, entries: seq<Entry>, ledgers: map<Ledger, LedgerRow>)
    requires EntriesOf(entries, ledgers)
    ensures var report := CoverageOf(routes, entries);
            && (report.Some? ==> Through(routes, None).Some? && Describes(routes, ledgers, report.value))
            && (report.None? && Through(routes, None).Some? ==>
                  && routes != []
                  && (forall end | MayEnd(ledgers, Through(routes, None).value, end) :: end < FirstLedger(routes)))
  {
    if Through(routes, None).Some? {
      var through := Through(routes, None).value;
      ThroughHasRoutes(routes);
      BlockedEnd(entries, ledgers, through);
      StopIsNext(entries, ledgers, through);
      var end := EndOf(through, FirstBlocked(InOrder(entries), through));
      ChosenAreStored(entries, ledgers, through, FirstLedger(routes), end);
    }
  }

  /**
   * After any run with truthful pages, every ledger of a report's range that a route's address was active in
   * is one the report lists, and the store holds what classifying it gives, row for row.
   */
  lemma ReportsAreComplete(w: World, activity: Activity, events: seq<Event>, routes: seq<Route>, entries: seq<Entry>,
                           key: RouteKey, l: Ledger)
    requires Sound(w) && AllOfWorld(w, events) && PagesVouch(State(EMPTY, activity), events)
    requires var s := Run(State(EMPTY, activity), events);
             && Lists(routes, s.db.routes) && EntriesOf(entries, s.db.ledgers) && CoverageOf(routes, entries).Some?
             && key in s.db.routes && l in s.activity(key) && Within(s.db.routes[key], l)
             && l <= CoverageOf(routes, entries).value.end
    ensures var s, report := Run(State(EMPTY, activity), events), CoverageOf(routes, entries).value;
            AsCommitted(w, s.db, l) && Entry(l, Indexed) in report.ledgers
  {
    var s, report := Run(State(EMPTY, activity), events), CoverageOf(routes, entries).value;
    EveryRunKeepsProvenance(w, activity, events);
    EveryRunIsCovered(w, activity, events);
    CoverageIsGreatest(routes, entries, s.db.ledgers);
    CoveredLedgersAreKnown(s, routes, None, key, l);
    FirstIsLeast(routes);
    assert IsIndexed(s.db.ledgers, l);
  }
}
