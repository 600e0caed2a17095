/**
 * A change of routes beside workers that commit ledgers, step by step: it deletes the rows of the ledgers no
 * route lists any more, slice by slice, then those ledgers, and commits all of it together. What a worker
 * commits of such a ledger in between stays, and its ledger goes.
 */
module Prunes {
  import opened Index
  import opened IndexInvariant
  import opened Options
  import opened Settlements
  import LateCommits

  /**
   * The committed tables; the ledgers whose rows are deleted, and those deleted themselves; and what the
   * change has deleted, for the others to see once it commits.
   */
  datatype Pruning = Pruning(db: Db, swept: set<Ledger>, removed: set<Ledger>, rows: set<Hash>, failures: set<Hash>,
                             exclusions: set<Ledger>)

  datatype Step =
    | DeleteRows(slice: set<Ledger>)
    | DeleteLedgers(slice: set<Ledger>)
    /** A worker commits a ledger. */
    | Write(entry: LedgerCommit)

  function Begun(db: Db): Pruning {
    Pruning(db, {}, {}, {}, {}, {})
  }

  /** The index with the routes of the plan, and the candidates they still list. */
  ghost function Moved(db: Db, plan: seq<PlannedRoute>): Db {
    var table := PlanTable(plan);
    db.(routes := SyncedRoutes(db.routes, table), candidates := KeptCandidates(db.candidates, table))
  }

  ghost function Unlisted(db: Db, plan: seq<PlannedRoute>): set<Ledger> {
    Orphans(Moved(db, plan))
  }

  function RowsIn(rows: map<Hash, Row>, ledgers: set<Ledger>): set<Hash> {
    set h | h in rows && rows[h].facts.ledger in ledgers
  }

  function FailuresIn(failures: map<Hash, FailedAttempt>, ledgers: set<Ledger>): set<Hash> {
    set h | h in failures && failures[h].ledger in ledgers
  }

  /** Rows go before ledgers. A ledger that is deleted is locked for other writers. */
  ghost predicate Enabled(plan: seq<PlannedRoute>, s: Pruning, step: Step) {
    match step
    case DeleteRows(slice) => s.removed == {} && slice <= Unlisted(s.db, plan) - s.swept
    case DeleteLedgers(slice) => s.swept == Unlisted(s.db, plan) && slice <= s.swept - s.removed
    case Write(entry) => Admissible(s.db, entry) && entry.ledger !in s.removed
  }

  ghost function Take(plan: seq<PlannedRoute>, s: Pruning, step: Step): Pruning
    requires Enabled(plan, s, step)
  {
    match step
    case DeleteRows(slice) =>
      s.(swept := s.swept + slice, rows := s.rows + RowsIn(s.db.settlements, slice),
         failures := s.failures + FailuresIn(s.db.failures, slice), exclusions := s.exclusions + slice)
    case DeleteLedgers(slice) => s.(removed := s.removed + slice)
    case Write(entry) =>
      s.(db := Commit(s.db, entry),
         // The exclusion counts a commit replaces are its own.
         exclusions := if IsPending(s.db, entry.ledger) then s.exclusions - {entry.ledger} else s.exclusions)
  }

  ghost predicate Finished(plan: seq<PlannedRoute>, s: Pruning) {
    s.swept == s.removed == Unlisted(s.db, plan)
  }

  /** The tables once the change commits. */
  ghost function Committed(plan: seq<PlannedRoute>, s: Pruning): Db {
    Moved(s.db, plan).(ledgers := s.db.ledgers - s.removed, settlements := s.db.settlements - s.rows,
                       failures := s.db.failures - s.failures, exclusions := s.db.exclusions - s.exclusions)
  }

  // -------------------------------------------------------------------------------------------- runs

  ghost predicate Possible(plan: seq<PlannedRoute>, s: Pruning, steps: seq<Step>)
    decreases |steps|
  {
    steps == [] || (Enabled(plan, s, steps[0]) && Possible(plan, Take(plan, s, steps[0]), steps[1..]))
  }

  ghost function After(plan: seq<PlannedRoute>, s: Pruning, steps: seq<Step>): Pruning
    requires Possible(plan, s, steps)
    decreases |steps|
  {
    if steps == [] then s else After(plan, Take(plan, s, steps[0]), steps[1..])
  }

  /** A ledger whose rows are deleted already, and which a worker commits all the same. */
  function LateBy(s: Pruning, step: Step): set<Ledger> {
    if step.Write? && IsPending(s.db, step.entry.ledger) && step.entry.ledger in s.swept
    then {step.entry.ledger}
    else {}
  }

  ghost function Late(plan: seq<PlannedRoute>, s: Pruning, steps: seq<Step>): set<Ledger>
    requires Possible(plan, s, steps)
    decreases |steps|
  {
    if steps == [] then {} else LateBy(s, steps[0]) + Late(plan, Take(plan, s, steps[0]), steps[1..])
  }

  // --------------------------------------------------------------------------------------- invariant

  /** What is deleted of the swept ledgers is all they had, but for what was committed late. */
  ghost predicate OnTheWay(plan: seq<PlannedRoute>, s: Pruning, late: set<Ledger>) {
    && Consistent(s.db) && s.removed <= s.swept <= Unlisted(s.db, plan) && late <= s.swept
    && (forall l | l in late :: IsIndexed(s.db.ledgers, l))
    && s.rows == RowsIn(s.db.settlements, s.swept - late)
    && s.failures == FailuresIn(s.db.failures, s.swept - late)
    && s.exclusions == s.swept - late
  }

  lemma UnlistedStays(plan: seq<PlannedRoute>, db: Db, entry: LedgerCommit)
    ensures Unlisted(Commit(db, entry), plan) == Unlisted(db, plan)
  {
  }

  lemma DeleteRowsKeeps(plan: seq<PlannedRoute>, s: Pruning, slice: set<Ledger>, late: set<Ledger>)
    requires OnTheWay(plan, s, late) && Enabled(plan, s, DeleteRows(slice))
    ensures OnTheWay(plan, Take(plan, s, DeleteRows(slice)), late)
  {
    assert s.swept + slice - late == (s.swept - late) + slice;
  }

  /** What a worker commits is new, and all of its ledger. */
  lemma WriteAdds(db: Db, entry: LedgerCommit, ledgers: set<Ledger>)
    requires Consistent(db) && Admissible(db, entry) && IsPending(db, entry.ledger) && entry.ledger !in ledgers
    ensures RowsIn(Commit(db, entry).settlements, ledgers) == RowsIn(db.settlements, ledgers)
    ensures FailuresIn(Commit(db, entry).failures, ledgers) == FailuresIn(db.failures, ledgers)
  {
    CommitAdds(db, entry);
  }

  lemma NothingPending(db: Db, ledgers: set<Ledger>, l: Ledger)
    requires Consistent(db) && IsPending(db, l)
    ensures RowsIn(db.settlements, ledgers) == RowsIn(db.settlements, ledgers - {l})
    ensures FailuresIn(db.failures, ledgers) == FailuresIn(db.failures, ledgers - {l})
  {
    NothingUnlessIndexed(db, l);
    forall h | h in db.settlements ensures db.settlements[h].facts.ledger != l {
      assert db.settlements[h].facts.ledger == l ==> h in RowsOf(db.settlements, l);
    }
    forall h | h in db.failures ensures db.failures[h].ledger != l {
      assert db.failures[h].ledger == l ==> h in FailedOf(db.failures, l);
    }
  }

  lemma WriteKeepsLate(plan: seq<PlannedRoute>, s: Pruning, entry: LedgerCommit, late: set<Ledger>)
    requires OnTheWay(plan, s, late) && IsPending(s.db, entry.ledger)
    ensures var (db, more) := (Commit(s.db, entry), late + LateBy(s, Write(entry)));
            && s.swept <= Unlisted(db, plan) && more <= s.swept && entry.ledger !in late
            && forall l | l in more :: IsIndexed(db.ledgers, l)
  {
    UnlistedStays(plan, s.db, entry);
  }

  lemma PendingWriteKeeps(plan: seq<PlannedRoute>, s: Pruning, entry: LedgerCommit, late: set<Ledger>)
    requires OnTheWay(plan, s, late) && Enabled(plan, s, Write(entry)) && IsPending(s.db, entry.ledger)
    requires Consistent(Commit(s.db, entry))
    ensures OnTheWay(plan, Take(plan, s, Write(entry)), late + LateBy(s, Write(entry)))
  {
    WriteKeepsLate(plan, s, entry, late);
    WriteKeepsDeleted(s, entry, late);
  }

  lemma WriteKeeps(plan: seq<PlannedRoute>, s: Pruning, entry: LedgerCommit, late: set<Ledger>)
    requires OnTheWay(plan, s, late) && Enabled(plan, s, Write(entry))
    ensures OnTheWay(plan, Take(plan, s, Write(entry)), late + LateBy(s, Write(entry)))
  {
    if IsPending(s.db, entry.ledger) {
      CommitKeepsConsistent(s.db, entry);
      PendingWriteKeeps(plan, s, entry, late);
    } else {
      assert Take(plan, s, Write(entry)) == s && late + LateBy(s, Write(entry)) == late;
    }
  }

  lemma WriteKeepsDeleted(s: Pruning, entry: LedgerCommit, late: set<Ledger>)
    requires Consistent(s.db) && Admissible(s.db, entry) && IsPending(s.db, entry.ledger) && entry.ledger !in late
    ensures var gone, more := s.swept - late, s.swept - (late + LateBy(s, Write(entry)));
            && RowsIn(Commit(s.db, entry).settlements, more) == RowsIn(s.db.settlements, gone)
            && FailuresIn(Commit(s.db, entry).failures, more) == FailuresIn(s.db.failures, gone)
            && more == gone - {entry.ledger}
  {
    var more := late + LateBy(s, Write(entry));
    assert s.swept - more == (s.swept - late) - {entry.ledger};
    NothingPending(s.db, s.swept - late, entry.ledger);
    WriteAdds(s.db, entry, s.swept - more);
  }

  lemma {:induction false} EveryRunIsOnTheWay(plan: seq<PlannedRoute>, s: Pruning, steps: seq<Step>, late: set<Ledger>)
    requires OnTheWay(plan, s, late) && Possible(plan, s, steps)
    ensures OnTheWay(plan, After(plan, s, steps), late + Late(plan, s, steps))
    decreases |steps|
  {
    if steps == [] {
      assert late + {} == late;
    } else {
      var step, next := steps[0], Take(plan, s, steps[0]);
      var more := late + LateBy(s, step);
      match step {
        case DeleteRows(slice) => DeleteRowsKeeps(plan, s, slice, late); assert more == late;
        case DeleteLedgers(_) => assert more == late;
        case Write(entry) => WriteKeeps(plan, s, entry, late);
      }
      EveryRunIsOnTheWay(plan, next, steps[1..], more);
      assert late + Late(plan, s, steps) == more + Late(plan, next, steps[1..]);
    }
  }

  // --------------------------------------------------------------------------------- what is committed

  /** Something is stored for one of these ledgers. */
  ghost predicate Stored(db: Db, ledgers: set<Ledger>) {
    || RowsIn(db.settlements, ledgers) != {} || FailuresIn(db.failures, ledgers) != {}
    || exists l :: l in ledgers && l in db.exclusions
  }

  /** Whether what is stored under a hash or for a ledger belongs to an indexed ledger. */
  ghost predicate AtOddsExactly(after: Db, late: set<Ledger>) {
    && (forall h | h in after.settlements ::
          RowBelongs(after.ledgers, h, after.settlements[h]) <==> after.settlements[h].facts.ledger !in late)
    && (forall h | h in after.failures ::
          IsIndexed(after.ledgers, after.failures[h].ledger) <==> after.failures[h].ledger !in late)
    && (forall l | l in after.exclusions :: IsIndexed(after.ledgers, l) <==> l !in late)
  }

  lemma RowIsLate(plan: seq<PlannedRoute>, s: Pruning, late: set<Ledger>, h: Hash)
    requires OnTheWay(plan, s, late) && Finished(plan, s) && h in Committed(plan, s).settlements
    ensures var after := Committed(plan, s);
            RowBelongs(after.ledgers, h, after.settlements[h]) <==> after.settlements[h].facts.ledger !in late
  {
    assert RowBelongs(s.db.ledgers, h, s.db.settlements[h]);
  }

  lemma RestIsLate(plan: seq<PlannedRoute>, s: Pruning, late: set<Ledger>)
    requires OnTheWay(plan, s, late) && Finished(plan, s)
    ensures var after := Committed(plan, s);
            && (forall h | h in after.failures ::
                  IsIndexed(after.ledgers, after.failures[h].ledger) <==> after.failures[h].ledger !in late)
            && (forall l | l in after.exclusions :: IsIndexed(after.ledgers, l) <==> l !in late)
  {
  }

  lemma LeftIsLate(plan: seq<PlannedRoute>, s: Pruning, late: set<Ledger>)
    requires OnTheWay(plan, s, late) && Finished(plan, s)
    ensures AtOddsExactly(Committed(plan, s), late)
  {
    var after := Committed(plan, s);
    RestIsLate(plan, s, late);
    forall h | h in after.settlements
      ensures RowBelongs(after.ledgers, h, after.settlements[h]) <==> after.settlements[h].facts.ledger !in late
    {
      RowIsLate(plan, s, late, h);
    }
  }

  lemma CountsStay(plan: seq<PlannedRoute>, s: Pruning, late: set<Ledger>, l: Ledger)
    requires OnTheWay(plan, s, late) && Finished(plan, s) && l in Committed(plan, s).ledgers
    ensures var after := Committed(plan, s); LedgerExact(l, after.ledgers[l], after.settlements, after.failures)
  {
    var after := Committed(plan, s);
    assert LedgerExact(l, s.db.ledgers[l], s.db.settlements, s.db.failures);
    assert RowsOf(after.settlements, l) == RowsOf(s.db.settlements, l);
    assert AttributedOf(after.settlements, l) == AttributedOf(s.db.settlements, l);
    assert FailedOf(after.failures, l) == FailedOf(s.db.failures, l);
  }

  lemma RowsLeft(plan: seq<PlannedRoute>, s: Pruning, late: set<Ledger>)
    requires OnTheWay(plan, s, late) && Finished(plan, s) && RowsIn(Committed(plan, s).settlements, late) == {}
    ensures Committed(plan, s).settlements == RowsOutside(s.db.settlements, s.swept)
  {
    var left := Committed(plan, s).settlements;
    forall h | h in s.db.settlements ensures h in left <==> s.db.settlements[h].facts.ledger !in s.swept {
      assert h in left && s.db.settlements[h].facts.ledger in late ==> h in RowsIn(left, late);
    }
  }

  lemma FailuresLeft(plan: seq<PlannedRoute>, s: Pruning, late: set<Ledger>)
    requires OnTheWay(plan, s, late) && Finished(plan, s) && FailuresIn(Committed(plan, s).failures, late) == {}
    ensures Committed(plan, s).failures == FailuresOutside(s.db.failures, s.swept)
  {
    var left := Committed(plan, s).failures;
    forall h | h in s.db.failures ensures h in left <==> s.db.failures[h].ledger !in s.swept {
      assert h in left && s.db.failures[h].ledger in late ==> h in FailuresIn(left, late);
    }
  }

  /** With nothing left of late ledgers, the change is as if it had happened at once, after all those commits. */
  lemma NothingLeft(plan: seq<PlannedRoute>, s: Pruning, late: set<Ledger>)
    requires OnTheWay(plan, s, late) && Finished(plan, s) && !Stored(Committed(plan, s), late)
    ensures Committed(plan, s) == SyncRoutes(s.db, plan) && Consistent(Committed(plan, s))
  {
    RowsLeft(plan, s, late);
    FailuresLeft(plan, s, late);
    ExclusionsLeft(plan, s, late);
    SyncIsWithout(s.db, plan);
    SyncKeepsConsistent(s.db, plan);
  }

  lemma ExclusionsLeft(plan: seq<PlannedRoute>, s: Pruning, late: set<Ledger>)
    requires OnTheWay(plan, s, late) && Finished(plan, s)
    requires forall l | l in late :: l !in Committed(plan, s).exclusions
    ensures Committed(plan, s).exclusions == s.db.exclusions - s.swept
  {
    forall l | l in s.db.exclusions ensures l in s.exclusions <==> l in s.swept {
      assert l in late ==> l !in Committed(plan, s).exclusions;
    }
  }

  lemma SyncIsWithout(db: Db, plan: seq<PlannedRoute>)
    ensures SyncRoutes(db, plan) == Without(Moved(db, plan), Unlisted(db, plan))
  {
  }

  /**
   * Whatever workers commit meanwhile, what is at odds with the ledgers once the change has committed is all
   * that was committed of ledgers whose rows had been deleted before; every count is exact all the same. So
   * the index is consistent exactly if nothing is stored for such a ledger, and is then the one an atomic
   * change would have left.
   */
  lemma PruneLeavesExactly(plan: seq<PlannedRoute>, db: Db, steps: seq<Step>)
    requires Consistent(db) && Possible(plan, Begun(db), steps) && Finished(plan, After(plan, Begun(db), steps))
    ensures var s, late := After(plan, Begun(db), steps), Late(plan, Begun(db), steps);
            var after := Committed(plan, s);
            && AtOddsExactly(after, late) && LedgersExact(after.ledgers, after.settlements, after.failures)
            && (Consistent(after) <==> !Stored(after, late))
            && (Consistent(after) ==> after == SyncRoutes(s.db, plan))
  {
    var s, late := After(plan, Begun(db), steps), Late(plan, Begun(db), steps);
    assert OnTheWay(plan, Begun(db), {});
    EveryRunIsOnTheWay(plan, Begun(db), steps, {});
    assert {} + late == late;
    FinishedLeaves(plan, s, late);
  }

  lemma FinishedLeaves(plan: seq<PlannedRoute>, s: Pruning, late: set<Ledger>)
    requires OnTheWay(plan, s, late) && Finished(plan, s)
    ensures var after := Committed(plan, s);
            && AtOddsExactly(after, late) && LedgersExact(after.ledgers, after.settlements, after.failures)
            && (Consistent(after) <==> !Stored(after, late))
            && (Consistent(after) ==> after == SyncRoutes(s.db, plan))
  {
    var after := Committed(plan, s);
    LeftIsLate(plan, s, late);
    forall l | l in after.ledgers ensures LedgerExact(l, after.ledgers[l], after.settlements, after.failures) {
      CountsStay(plan, s, late, l);
    }
    if Stored(after, late) {
      StoredIsInconsistent(after, late);
    } else {
      NothingLeft(plan, s, late);
    }
  }

  lemma StoredIsInconsistent(after: Db, late: set<Ledger>)
    requires AtOddsExactly(after, late) && Stored(after, late)
    ensures !Consistent(after)
  {
    if h :| h in RowsIn(after.settlements, late) {
      assert !RowBelongs(after.ledgers, h, after.settlements[h]);
    } else if h :| h in FailuresIn(after.failures, late) {
      assert !IsIndexed(after.ledgers, after.failures[h].ledger);
    } else {
      var l :| l in late && l in after.exclusions;
      assert !IsIndexed(after.ledgers, l);
    }
  }

  /** No later change of routes, and no reset, looks at rows whose ledger is gone. */
  lemma LeftForGood(db: Db, plan: seq<PlannedRoute>, rules: string, classification: string, h: Hash)
    requires h in db.settlements && db.settlements[h].facts.ledger !in db.ledgers
    ensures h in SyncRoutes(db, plan).settlements && h in ResetStale(db, rules, classification).settlements
  {
  }

  // -------------------------------------------------------------------------------------- an example

  /**
   * The routes of a store that waits to read ledger 5 are dropped; a worker commits that ledger after its rows
   * are deleted, and before it is.
   */
  function LateSteps(): seq<Step> {
    [DeleteRows({5}), Write(LateCommits.LATE), DeleteLedgers({5})]
  }

  lemma FiveIsUnlisted()
    ensures Unlisted(LateCommits.WAITING, []) == {5}
  {
    assert KeptCandidates(LateCommits.WAITING.candidates, map[]) == {} && LedgersListed({}) == {};
  }

  lemma LateRun()
    ensures Possible([], Begun(LateCommits.WAITING), LateSteps())
    ensures Late([], Begun(LateCommits.WAITING), LateSteps()) == {5}
    ensures After([], Begun(LateCommits.WAITING), LateSteps())
            == Pruning(Commit(LateCommits.WAITING, LateCommits.LATE), {5}, {5}, {}, {}, {})
  {
    LateCommits.WaitingIsConsistent();
    LateCommits.LateRows();
    FiveIsUnlisted();
    UnlistedStays([], LateCommits.WAITING, LateCommits.LATE);
    var begun := Begun(LateCommits.WAITING);
    var swept := Take([], begun, DeleteRows({5}));
    assert swept == Pruning(LateCommits.WAITING, {5}, {}, {}, {}, {5});
    var written := Take([], swept, Write(LateCommits.LATE));
    assert written == Pruning(Commit(LateCommits.WAITING, LateCommits.LATE), {5}, {}, {}, {}, {});
    var removed := Take([], written, DeleteLedgers({5}));
    assert removed == Pruning(Commit(LateCommits.WAITING, LateCommits.LATE), {5}, {5}, {}, {}, {});
    var last := [DeleteLedgers({5})];
    assert LateSteps()[1..] == [Write(LateCommits.LATE)] + last && ([Write(LateCommits.LATE)] + last)[1..] == last
           && last[1..] == [];
    assert Possible([], removed, []) && Possible([], written, last) && Late([], written, last) == {};
    assert Possible([], swept, [Write(LateCommits.LATE)] + last) && LateBy(swept, Write(LateCommits.LATE)) == {5};
  }

  /** Then the row stays, and no ledger it belongs to. */
  lemma LateRowIsLeft()
    ensures Consistent(LateCommits.WAITING) && Possible([], Begun(LateCommits.WAITING), LateSteps())
    ensures var after := Committed([], After([], Begun(LateCommits.WAITING), LateSteps()));
            7 in after.settlements && after.ledgers == map[] && !Consistent(after)
  {
    LateCommits.WaitingIsConsistent();
    LateCommits.LateRows();
    FiveIsUnlisted();
    UnlistedStays([], LateCommits.WAITING, LateCommits.LATE);
    LateRun();
    PruneLeavesExactly([], LateCommits.WAITING, LateSteps());
    var after := Committed([], After([], Begun(LateCommits.WAITING), LateSteps()));
    assert after.settlements == map[7 := LateCommits.LATE_ROW] && 7 in RowsIn(after.settlements, {5});
  }
}
