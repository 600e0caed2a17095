/**
 * A re-attribution beside workers that commit ledgers under another registry version, step by step: it
 * rewrites the rows out of date page by page, then stamps the ledgers, and commits both together. What
 * others commit in between it sees, but rows that come where its pages have passed it never rewrites.
 */
module LateCommits {
  import opened Index
  import opened IndexInvariant
  import opened Keyset
  import opened Options
  import opened Settlements
  import opened Tables

  /**
   * The committed tables, the rows the re-attribution has rewritten, where its last page ended, whether
   * there are more pages, and the ledgers it has stamped, with what it counted there.
   */
  datatype Walk = Walk(db: Db, done: set<Hash>, last: Position, paging: bool, stamps: Option<map<Ledger, nat>>)

  datatype Step =
    | NextPage(page: seq<Hash>)
    /** A worker commits a ledger. */
    | Write(entry: LedgerCommit)
    | Stamp

  function Begun(db: Db): Walk {
    Walk(db, {}, START, true, None)
  }

  /** The settlements as the re-attribution sees them: what is committed, and its own changes. */
  ghost function Seen(r: Registry, s: Walk): map<Hash, Row> {
    ReattributedIn(s.db.settlements, r, s.done)
  }

  /** `limit` rows make a page. */
  ghost predicate Enabled(r: Registry, limit: nat, s: Walk, step: Step) {
    match step
    case NextPage(page) => s.paging && limit > 0 && IsPage(Seen(r, s), r.version, s.last, limit, page)
    case Write(entry) => Admissible(s.db, entry)
    case Stamp => !s.paging && s.stamps.None?
  }

  /** The ledgers a stamp finds, with the rows it counts in each. */
  ghost function Counted(r: Registry, s: Walk): map<Ledger, nat> {
    MapOf(RestampedIn(s.db.ledgers, r), l => |AttributedOf(Seen(r, s), l)|)
  }

  ghost function Take(r: Registry, limit: nat, s: Walk, step: Step): Walk
    requires Enabled(r, limit, s, step)
  {
    match step
    case NextPage(page) =>
      var next := s.(done := s.done + Named(page));
      if |page| < limit then next.(paging := false) else next.(last := At(Seen(r, s)[page[|page| - 1]]))
    case Write(entry) => s.(db := Commit(s.db, entry))
    case Stamp => s.(stamps := Some(Counted(r, s)))
  }

  /** The tables once the re-attribution commits. */
  ghost function Committed(r: Registry, s: Walk): Db
    requires s.stamps.Some?
  {
    s.db.(settlements := Seen(r, s), ledgers := StampedLedgers(r, s.db.ledgers, s.stamps.value))
  }

  ghost function StampedLedgers(r: Registry, ledgers: map<Ledger, LedgerRow>,
                                stamps: map<Ledger, nat>): (after: map<Ledger, LedgerRow>)
    ensures after.Keys == ledgers.Keys && forall l | l in ledgers :: after[l] == Stamped(r, ledgers[l], stamps, l)
  {
    MapOf(ledgers.Keys, l => if l in ledgers then Stamped(r, ledgers[l], stamps, l) else NEW_LEDGER)
  }

  function Stamped(r: Registry, ledger: LedgerRow, stamps: map<Ledger, nat>, l: Ledger): LedgerRow {
    if l in stamps && ledger.versions.Some?
    then ledger.(versions := Some(ledger.versions.value.(registry := r.version)), attributed := stamps[l])
    else ledger
  }

  // -------------------------------------------------------------------------------------------- runs

  ghost predicate Possible(r: Registry, limit: nat, s: Walk, steps: seq<Step>)
    decreases |steps|
  {
    steps == [] || (Enabled(r, limit, s, steps[0]) && Possible(r, limit, Take(r, limit, s, steps[0]), steps[1..]))
  }

  ghost function After(r: Registry, limit: nat, s: Walk, steps: seq<Step>): Walk
    requires Possible(r, limit, s, steps)
    decreases |steps|
  {
    if steps == [] then s else After(r, limit, Take(r, limit, s, steps[0]), steps[1..])
  }

  /** No page to come reads a row of such a position. */
  predicate Passed(s: Walk, row: Row) {
    !s.paging || !Before(s.last, At(row))
  }

  /** The rows of another registry version a worker commits, before the stamp, where the pages have passed. */
  function MissedBy(r: Registry, s: Walk, step: Step): set<Hash> {
    if !step.Write? || s.stamps.Some? || !IsPending(s.db, step.entry.ledger) then {} else
    var rows := RowTable(step.entry.rows);
    set h | h in rows && rows[h].registry != r.version && Passed(s, rows[h])
  }

  ghost function Missed(r: Registry, limit: nat, s: Walk, steps: seq<Step>): set<Hash>
    requires Possible(r, limit, s, steps)
    decreases |steps|
  {
    if steps == [] then {} else
    MissedBy(r, s, steps[0]) + Missed(r, limit, Take(r, limit, s, steps[0]), steps[1..])
  }

  // --------------------------------------------------------------------------------------- invariant

  function Behind(r: Registry, s: Walk): set<Hash> {
    set h | h in s.db.settlements && s.db.settlements[h].registry != r.version && Passed(s, s.db.settlements[h])
  }

  ghost predicate Apart(r: Registry, s: Walk, missed: set<Hash>) {
    && s.done !! missed
    && s.done <= OutOfDate(s.db.settlements, r.version) && missed <= OutOfDate(s.db.settlements, r.version)
  }

  /** A stamped ledger was indexed under another version, and is as it was counted. */
  ghost predicate StampHolds(r: Registry, s: Walk, l: Ledger, count: nat) {
    && IsIndexed(s.db.ledgers, l) && s.db.ledgers[l].versions.Some?
       && s.db.ledgers[l].versions.value.registry != r.version
    && count == |AttributedOf(Seen(r, s), l)|
  }

  /**
   * Before the stamp, the rows behind are those rewritten and those missed; after it, those of the stamped ledgers are.
   */
  ghost predicate OnTheWay(r: Registry, s: Walk, missed: set<Hash>) {
    && Consistent(s.db) && Apart(r, s, missed)
    && (s.stamps.None? ==> s.done + missed == Behind(r, s))
    && (s.stamps.Some? ==> AfterStamp(r, s, missed, s.stamps.value))
  }

  ghost predicate AfterStamp(r: Registry, s: Walk, missed: set<Hash>, stamps: map<Ledger, nat>) {
    && !s.paging
    && (forall l | l in stamps :: StampHolds(r, s, l, stamps[l]))
    && (forall h | h in OutOfDate(s.db.settlements, r.version) ::
          h in s.done + missed <==> s.db.settlements[h].facts.ledger in stamps)
  }

  lemma BeginsOnTheWay(r: Registry, db: Db)
    requires Consistent(db)
    ensures OnTheWay(r, Begun(db), {})
  {
  }

  lemma BeforeIsTransitive(p: Position, q: Position, x: Position)
    requires Before(p, q) && !Before(p, x)
    ensures !Before(q, x)
  {
  }

  lemma PageIsBehind(r: Registry, limit: nat, s: Walk, page: seq<Hash>, missed: set<Hash>)
    requires OnTheWay(r, s, missed) && s.stamps.None? && Enabled(r, limit, s, NextPage(page))
    ensures Named(page) <= OutOfDate(s.db.settlements, r.version) && Named(page) !! Behind(r, s)
    ensures Behind(r, Take(r, limit, s, NextPage(page))) == Behind(r, s) + Named(page)
  {
    var rows, seen := s.db.settlements, Seen(r, s);
    forall h | h in page ensures h in OutOfDate(rows, r.version) && h !in s.done && Before(s.last, At(rows[h])) {
      var i :| 0 <= i < |page| && page[i] == h;
    }
    forall h | h in OutOfDate(rows, r.version)
      ensures h in Behind(r, Take(r, limit, s, NextPage(page))) <==> h in Behind(r, s) || h in page
    {
      PagePasses(r, limit, s, page, missed, h);
    }
  }

  lemma PagePasses(r: Registry, limit: nat, s: Walk, page: seq<Hash>, missed: set<Hash>, h: Hash)
    requires OnTheWay(r, s, missed) && s.stamps.None? && Enabled(r, limit, s, NextPage(page))
    requires h in OutOfDate(s.db.settlements, r.version)
    ensures var row := s.db.settlements[h];
            Passed(Take(r, limit, s, NextPage(page)), row) <==> Passed(s, row) || h in page
  {
    var seen, row := Seen(r, s), s.db.settlements[h];
    if Before(s.last, At(row)) {
      assert h !in Behind(r, s) && h in OutOfDate(seen, r.version) && At(seen[h]) == At(row);
      if h in page && |page| == limit {
        var i :| 0 <= i < |page| && page[i] == h;
        assert !Before(At(seen[page[|page| - 1]]), At(seen[page[i]]));
      }
    } else if |page| == limit {
      assert Before(s.last, At(seen[page[|page| - 1]]));
      BeforeIsTransitive(s.last, At(seen[page[|page| - 1]]), At(row));
    }
  }

  lemma PageKeeps(r: Registry, limit: nat, s: Walk, page: seq<Hash>, missed: set<Hash>)
    requires OnTheWay(r, s, missed) && Enabled(r, limit, s, NextPage(page))
    ensures OnTheWay(r, Take(r, limit, s, NextPage(page)), missed)
  {
    PageIsBehind(r, limit, s, page, missed);
  }

  /** What a worker commits is new: no row that was there changes. */
  lemma WriteAdds(r: Registry, s: Walk, entry: LedgerCommit)
    requires Consistent(s.db) && Admissible(s.db, entry) && IsPending(s.db, entry.ledger)
    ensures var rows, added := s.db.settlements, RowTable(entry.rows);
            && Commit(s.db, entry).settlements == rows + added && rows.Keys !! added.Keys
            && (forall h | h in added :: added[h].facts.ledger == entry.ledger)
            && (forall h | h in rows :: rows[h].facts.ledger != entry.ledger)
  {
    CommitAdds(s.db, entry);
    NothingUnlessIndexed(s.db, entry.ledger);
    forall h | h in s.db.settlements ensures s.db.settlements[h].facts.ledger != entry.ledger {
      assert h in s.db.settlements ==> h in RowsOf(s.db.settlements, s.db.settlements[h].facts.ledger);
    }
  }

  lemma WriteKeepsBehind(r: Registry, s: Walk, entry: LedgerCommit, missed: set<Hash>)
    requires OnTheWay(r, s, missed) && s.stamps.None? && Admissible(s.db, entry) && IsPending(s.db, entry.ledger)
    ensures var after := s.(db := Commit(s.db, entry)); Behind(r, after) == Behind(r, s) + MissedBy(r, s, Write(entry))
  {
    WriteAdds(r, s, entry);
  }

  lemma WriteKeepsApart(r: Registry, s: Walk, entry: LedgerCommit, missed: set<Hash>)
    requires Consistent(s.db) && Apart(r, s, missed) && Admissible(s.db, entry) && IsPending(s.db, entry.ledger)
    ensures Apart(r, s.(db := Commit(s.db, entry)), missed + MissedBy(r, s, Write(entry)))
  {
    WriteAdds(r, s, entry);
  }

  lemma WriteKeepsStamp(r: Registry, s: Walk, entry: LedgerCommit, l: Ledger, count: nat)
    requires Consistent(s.db) && StampHolds(r, s, l, count) && Admissible(s.db, entry) && IsPending(s.db, entry.ledger)
    ensures l != entry.ledger && StampHolds(r, s.(db := Commit(s.db, entry)), l, count)
  {
    WriteAdds(r, s, entry);
    StampedIsNotPending(r, s, entry, l, count);
    AddedElsewhere(r, s.db.settlements, RowTable(entry.rows), s.done, entry.ledger, l);
  }

  lemma StampedIsNotPending(r: Registry, s: Walk, entry: LedgerCommit, l: Ledger, count: nat)
    requires StampHolds(r, s, l, count) && IsPending(s.db, entry.ledger)
    ensures l != entry.ledger && l in s.db.ledgers && Commit(s.db, entry).ledgers[l] == s.db.ledgers[l]
  {
  }

  lemma AddedElsewhere(r: Registry, rows: map<Hash, Row>, added: map<Hash, Row>, done: set<Hash>, there: Ledger,
                       l: Ledger)
    requires rows.Keys !! added.Keys && l != there && forall h | h in added :: added[h].facts.ledger == there
    ensures AttributedOf(ReattributedIn(rows + added, r, done), l) == AttributedOf(ReattributedIn(rows, r, done), l)
  {
    var all, few := ReattributedIn(rows + added, r, done), ReattributedIn(rows, r, done);
    forall h | h in all ensures h in AttributedOf(all, l) <==> h in AttributedOf(few, l) {
      if h in added {
        assert all[h].facts.ledger == there;
      } else {
        assert all[h] == few[h];
      }
    }
  }

  /** The rows out of date in stamped ledgers stay those rewritten and those missed. */
  lemma WriteIsElsewhere(r: Registry, s: Walk, entry: LedgerCommit, all: set<Hash>, stamped: set<Ledger>)
    requires Consistent(s.db) && Admissible(s.db, entry) && IsPending(s.db, entry.ledger) && entry.ledger !in stamped
    requires all <= s.db.settlements.Keys
    requires forall h | h in OutOfDate(s.db.settlements, r.version) ::
               h in all <==> s.db.settlements[h].facts.ledger in stamped
    ensures var rows := Commit(s.db, entry).settlements;
            forall h | h in OutOfDate(rows, r.version) :: h in all <==> rows[h].facts.ledger in stamped
  {
    WriteAdds(r, s, entry);
    var rows := Commit(s.db, entry).settlements;
    forall h | h in OutOfDate(rows, r.version) ensures h in all <==> rows[h].facts.ledger in stamped {
      if h in s.db.settlements {
        assert h in OutOfDate(s.db.settlements, r.version);
      }
    }
  }

  lemma WriteKeepsStamps(r: Registry, s: Walk, entry: LedgerCommit, missed: set<Hash>)
    requires OnTheWay(r, s, missed) && s.stamps.Some? && Admissible(s.db, entry) && IsPending(s.db, entry.ledger)
    ensures AfterStamp(r, s.(db := Commit(s.db, entry)), missed, s.stamps.value)
  {
    var stamps := s.stamps.value;
    forall l | l in stamps ensures l != entry.ledger && StampHolds(r, s.(db := Commit(s.db, entry)), l, stamps[l]) {
      WriteKeepsStamp(r, s, entry, l, stamps[l]);
    }
    WriteIsElsewhere(r, s, entry, s.done + missed, stamps.Keys);
  }

  lemma WriteKeeps(r: Registry, s: Walk, entry: LedgerCommit, missed: set<Hash>)
    requires OnTheWay(r, s, missed) && Admissible(s.db, entry)
    ensures OnTheWay(r, s.(db := Commit(s.db, entry)), missed + MissedBy(r, s, Write(entry)))
  {
    CommitKeepsConsistent(s.db, entry);
    if IsPending(s.db, entry.ledger) {
      WriteKeepsApart(r, s, entry, missed);
      if s.stamps.None? {
        WriteKeepsBehind(r, s, entry, missed);
      } else {
        WriteKeepsStamps(r, s, entry, missed);
      }
    }
  }

  lemma StampKeeps(r: Registry, limit: nat, s: Walk, missed: set<Hash>)
    requires OnTheWay(r, s, missed) && Enabled(r, limit, s, Stamp)
    ensures OnTheWay(r, Take(r, limit, s, Stamp), missed)
  {
    var after, stamps := Take(r, limit, s, Stamp), Counted(r, s);
    forall l | l in stamps ensures StampHolds(r, after, l, stamps[l]) {
    }
    forall h | h in OutOfDate(s.db.settlements, r.version)
      ensures h in s.done + missed && s.db.settlements[h].facts.ledger in stamps
    {
      assert RowBelongs(s.db.ledgers, h, s.db.settlements[h]);
    }
  }

  lemma {:induction false} EveryRunIsOnTheWay(r: Registry, limit: nat, s: Walk, steps: seq<Step>, missed: set<Hash>)
    requires OnTheWay(r, s, missed) && Possible(r, limit, s, steps)
    ensures OnTheWay(r, After(r, limit, s, steps), missed + Missed(r, limit, s, steps))
    decreases |steps|
  {
    if steps == [] {
      assert missed + {} == missed;
    } else {
      var step := steps[0];
      var more := missed + MissedBy(r, s, step);
      match step {
        case NextPage(page) => PageKeeps(r, limit, s, page, missed); assert more == missed;
        case Write(entry) => WriteKeeps(r, s, entry, missed);
        case Stamp => StampKeeps(r, limit, s, missed); assert more == missed;
      }
      var next := Take(r, limit, s, step);
      EveryRunIsOnTheWay(r, limit, next, steps[1..], more);
      assert missed + Missed(r, limit, s, steps) == more + Missed(r, limit, next, steps[1..]);
    }
  }

  // --------------------------------------------------------------------------------- what is committed

  lemma StampedRow(r: Registry, s: Walk, missed: set<Hash>, h: Hash, l: Ledger, count: nat)
    requires Apart(r, s, missed) && s.stamps.Some? && h in s.db.settlements && l == s.db.settlements[h].facts.ledger
    requires RowBelongs(s.db.ledgers, h, s.db.settlements[h]) && l in s.stamps.value && StampHolds(r, s, l, count)
    requires h in s.done + missed
    ensures RowBelongs(Committed(r, s).ledgers, h, Committed(r, s).settlements[h]) <==> h !in missed
  {
  }

  lemma OtherRow(r: Registry, s: Walk, h: Hash)
    requires s.stamps.Some? && h in s.db.settlements && h !in s.done
    requires s.db.settlements[h].facts.ledger !in s.stamps.value
    requires RowBelongs(s.db.ledgers, h, s.db.settlements[h])
    ensures RowBelongs(Committed(r, s).ledgers, h, Committed(r, s).settlements[h])
  {
  }

  lemma RowsAfter(r: Registry, s: Walk, missed: set<Hash>, h: Hash)
    requires OnTheWay(r, s, missed) && s.stamps.Some? && h in s.db.settlements
    ensures RowBelongs(Committed(r, s).ledgers, h, Committed(r, s).settlements[h]) <==> h !in missed
  {
    var row, stamps := s.db.settlements[h], s.stamps.value;
    var l := row.facts.ledger;
    assert RowBelongs(s.db.ledgers, h, row);
    if l in stamps {
      assert StampHolds(r, s, l, stamps[l]);
      assert h in OutOfDate(s.db.settlements, r.version);
      StampedRow(r, s, missed, h, l, stamps[l]);
    } else {
      assert h in OutOfDate(s.db.settlements, r.version) ==> h !in s.done + missed;
      OtherRow(r, s, h);
    }
  }

  lemma SameLedgerRows(rows: map<Hash, Row>, r: Registry, done: set<Hash>, l: Ledger)
    ensures RowsOf(ReattributedIn(rows, r, done), l) == RowsOf(rows, l)
    ensures (forall h | h in rows && rows[h].facts.ledger == l :: h !in done) ==>
              AttributedOf(ReattributedIn(rows, r, done), l) == AttributedOf(rows, l)
  {
  }

  lemma CountsAfter(r: Registry, s: Walk, missed: set<Hash>, l: Ledger)
    requires OnTheWay(r, s, missed) && s.stamps.Some? && l in s.db.ledgers
    ensures var after := Committed(r, s); LedgerExact(l, after.ledgers[l], after.settlements, after.failures)
  {
    assert LedgerExact(l, s.db.ledgers[l], s.db.settlements, s.db.failures);
    SameLedgerRows(s.db.settlements, r, s.done, l);
    if l in s.stamps.value {
      assert StampHolds(r, s, l, s.stamps.value[l]);
    } else {
      forall h | h in s.db.settlements && s.db.settlements[h].facts.ledger == l ensures h !in s.done {
        assert h in OutOfDate(s.db.settlements, r.version) ==> h !in s.done + missed;
      }
    }
  }

  lemma PositionsAfter(r: Registry, s: Walk)
    requires PositionsUnique(s.db.settlements)
    ensures PositionsUnique(Seen(r, s))
  {
    var seen := Seen(r, s);
    forall g, h | g in seen && h in seen && SamePosition(seen[g].facts, seen[h].facts) ensures g == h {
      assert SamePosition(s.db.settlements[g].facts, s.db.settlements[h].facts);
    }
  }

  lemma RestAfter(r: Registry, s: Walk)
    requires Consistent(s.db) && s.stamps.Some?
    ensures var after := Committed(r, s);
            && FailuresBelong(after.ledgers, after.failures) && ExclusionsBelong(after.ledgers, after.exclusions)
            && RoutesBound(after.routes, after.candidates) && after.ledgers.Keys == LedgersListed(after.candidates)
  {
  }

  /**
   * Whatever workers commit meanwhile, the rows that do not carry their ledger's versions once the
   * re-attribution has committed are those written before the stamp where its pages had passed; every count
   * is exact all the same. So the index is consistent exactly if there are none.
   */
  lemma LateCommitsExactly(r: Registry, limit: nat, db: Db, steps: seq<Step>)
    requires Consistent(db) && Possible(r, limit, Begun(db), steps) && After(r, limit, Begun(db), steps).stamps.Some?
    ensures var after, missed := Committed(r, After(r, limit, Begun(db), steps)), Missed(r, limit, Begun(db), steps);
            && missed <= after.settlements.Keys
            && (forall h | h in after.settlements ::
                  RowBelongs(after.ledgers, h, after.settlements[h]) <==> h !in missed)
            && LedgersExact(after.ledgers, after.settlements, after.failures)
            && (Consistent(after) <==> missed == {})
  {
    var s, missed := After(r, limit, Begun(db), steps), Missed(r, limit, Begun(db), steps);
    BeginsOnTheWay(r, db);
    EveryRunIsOnTheWay(r, limit, Begun(db), steps, {});
    assert {} + missed == missed;
    MissedIsAll(r, s, missed);
  }

  lemma MissedIsAll(r: Registry, s: Walk, missed: set<Hash>)
    requires OnTheWay(r, s, missed) && s.stamps.Some?
    ensures var after := Committed(r, s);
            && missed <= after.settlements.Keys
            && (forall h | h in after.settlements ::
                  RowBelongs(after.ledgers, h, after.settlements[h]) <==> h !in missed)
            && LedgersExact(after.ledgers, after.settlements, after.failures)
            && (Consistent(after) <==> missed == {})
  {
    var after := Committed(r, s);
    forall h | h in after.settlements ensures RowBelongs(after.ledgers, h, after.settlements[h]) <==> h !in missed {
      RowsAfter(r, s, missed, h);
    }
    forall l | l in after.ledgers ensures LedgerExact(l, after.ledgers[l], after.settlements, after.failures) {
      CountsAfter(r, s, missed, l);
    }
    PositionsAfter(r, s);
    RestAfter(r, s);
    if missed == {} {
      assert RowsBelong(after.ledgers, after.settlements);
    } else {
      var h :| h in missed;
      assert !RowBelongs(after.ledgers, h, after.settlements[h]);
    }
  }

  // ---------------------------------------------------------------------------- the next re-attribution

  /**
   * A ledger that carries the registry's version is not stamped again: when rows of it are rewritten all the
   * same, its count stays exact exactly if as many of them are attributed as before.
   */
  lemma NotRecounted(db: Db, r: Registry, l: Ledger)
    requires l in db.ledgers && !Restamped(db.ledgers[l], r)
    requires LedgerExact(l, db.ledgers[l], db.settlements, db.failures)
    ensures var after := Reattribute(db, r);
            && l in after.ledgers
            && (LedgerExact(l, after.ledgers[l], after.settlements, after.failures)
                <==> |AttributedOf(after.settlements, l)| == |AttributedOf(db.settlements, l)|)
  {
    SameRowsOf(db.settlements, r, l);
    assert Reattribute(db, r).ledgers[l] == db.ledgers[l];
  }

  lemma SameRowsOf(rows: map<Hash, Row>, r: Registry, l: Ledger)
    ensures RowsOf(ReattributedRows(rows, r), l) == RowsOf(rows, l)
  {
  }

  // ------------------------------------------------------------------------------------- an example

  const ROUTE := RouteKey(Account, "address")
  /** A store that waits to read ledger 5. */
  const WAITING := Db(map[ROUTE := Route(1, None, None)], {Candidate(5, ROUTE)}, map[5 := NEW_LEDGER],
                      map[], map[], map[])

  const LATE_ROW := Row(Facts(7, 5, 0, 0, Exact, "", "rules", "asset", true, "buyer", "seller", 3, None, "", "", ""),
                        "1", Attribution(Shaped, None, None, false))
  /** Its commit under registry version 1, with a row that version attributes to nobody. */
  const LATE := LedgerCommit(5, [LATE_ROW], [], map[], Versions("rules", "1", ""))

  const BY_FACILITATOR := Attribution(Facilitator, Some("facilitator"), None, false)

  function Second(): Registry {
    Registry("2", "", facts => BY_FACILITATOR)
  }

  /** The re-attribution finds nothing to rewrite; the ledger is committed; the re-attribution stamps it. */
  function LateSteps(): seq<Step> {
    [NextPage([]), Write(LATE), Stamp]
  }

  lemma WaitingIsConsistent()
    ensures Consistent(WAITING)
  {
    assert LedgersListed(WAITING.candidates) == {5} by {
      assert Candidate(5, ROUTE) in WAITING.candidates;
    }
    assert RowsOf(map[], 5) == {} && AttributedOf(map[], 5) == {} && FailedOf(map[], 5) == {};
  }

  ghost function LateWalk(): Walk {
    Walk(Commit(WAITING, LATE), {}, START, false, None)
  }

  lemma LateRun()
    ensures var (r, begun) := (Second(), Begun(WAITING));
            && Possible(r, 1_000, begun, LateSteps()) && Missed(r, 1_000, begun, LateSteps()) == {7}
            && After(r, 1_000, begun, LateSteps()) == LateWalk().(stamps := Some(Counted(r, LateWalk())))
  {
    var r, begun := Second(), Begun(WAITING);
    assert Seen(r, begun) == map[] && Named([]) == {};
    var paged := Take(r, 1_000, begun, NextPage([]));
    assert paged == Walk(WAITING, {}, START, false, None);
    LateRows();
    var written := Take(r, 1_000, paged, Write(LATE));
    assert written == LateWalk();
    var stamped := Take(r, 1_000, written, Stamp);
    assert LateSteps()[1..] == [Write(LATE), Stamp] && [Write(LATE), Stamp][1..] == [Stamp] && [Stamp][1..] == [];
    assert MissedBy(r, paged, Write(LATE)) == {7};
    assert Possible(r, 1_000, stamped, []);
    assert Possible(r, 1_000, written, [Stamp]) && Missed(r, 1_000, written, [Stamp]) == {};
    assert Possible(r, 1_000, paged, [Write(LATE), Stamp]);
  }

  lemma LateRows()
    ensures RowTable(LATE.rows) == map[7 := LATE_ROW] && Admissible(WAITING, LATE) && IsPending(WAITING, 5)
    ensures Commit(WAITING, LATE).settlements == map[7 := LATE_ROW]
  {
    assert LATE.rows[..0] == [];
  }

  /**
   * Attributed again under the same registry, the missed row moves to the facilitator, and its ledger's count does not.
   */
  lemma MissedThenUncounted()
    ensures Consistent(WAITING)
    ensures var (r, begun) := (Second(), Begun(WAITING));
            && Possible(r, 1_000, begun, LateSteps()) && Missed(r, 1_000, begun, LateSteps()) == {7}
            && After(r, 1_000, begun, LateSteps()).stamps.Some?
            && var after := Committed(r, After(r, 1_000, begun, LateSteps()));
               var again := Reattribute(after, r);
               !Consistent(after) && 5 in again.ledgers
                   && !LedgerExact(5, again.ledgers[5], again.settlements, again.failures)
  {
    WaitingIsConsistent();
    LateRun();
    LateCommitsExactly(Second(), 1_000, WAITING, LateSteps());
    LateUncounted(After(Second(), 1_000, Begun(WAITING), LateSteps()));
  }

  lemma LateUncounted(s: Walk)
    requires s == LateWalk().(stamps := Some(Counted(Second(), LateWalk())))
    ensures var again := Reattribute(Committed(Second(), s), Second());
            5 in again.ledgers && !LedgerExact(5, again.ledgers[5], again.settlements, again.failures)
  {
    LateRows();
    var r, after := Second(), Committed(Second(), s);
    assert Seen(r, s) == map[7 := LATE_ROW];
    assert AttributedOf(Seen(r, s), 5) == {};
    assert 5 in s.stamps.value && after.ledgers[5].attributed == 0 && !Restamped(after.ledgers[5], r);
    LateAttributed(after);
  }

  lemma LateAttributed(db: Db)
    requires db.settlements == map[7 := LATE_ROW] && 5 in db.ledgers && db.ledgers[5].attributed == 0
    requires !Restamped(db.ledgers[5], Second())
    ensures var again := Reattribute(db, Second()); !LedgerExact(5, again.ledgers[5], again.settlements, again.failures)
  {
    var again := Reattribute(db, Second());
    assert again.settlements[7] == Row(LATE_ROW.facts, "2", BY_FACILITATOR);
    assert 7 in AttributedOf(again.settlements, 5);
  }
}
