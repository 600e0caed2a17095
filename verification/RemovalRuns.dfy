/**
 * Runs in which one removal goes on beside other transactions that are careful: whatever it missed, the
 * store's other promises hold, and its own commit leaves the tables exact exactly if it missed nothing.
 */
module RemovalRuns {
  import opened Options
  import opened Removals
  import opened Settlements
  import opened StoreLock
  import opened Totals
  import TotalsLock

  /** A removal as if it had refreshed nothing yet, and had noted all it deletes. */
  function Shadow(t: Transaction): Transaction {
    Alone(t.was, map[], DaysOf(t.was), PayersOf(t.was), PayeesOf(t.was))
  }

  function Shadowed(s: Store, i: Id): Store
    requires i in s.open
  {
    s.(open := s.open[i := Shadow(s.open[i])])
  }

  predicate Untouched(t: Transaction) {
    t.daily == Part(Before, {}, {}) && t.accounts == Part(Before, {}, {}) && t.sellers == Part(Before, {}, {})
  }

  /** What removal `i` has deleted and inserted so far is what its notes say of the tables as they are. */
  ghost predicate PartsDone(s: Store, t: Transaction) {
    && PartDone(TotalsLock.DAILY, s.rows, s.daily, OnDaily(t), t.daily.stage)
    && PartDone(TotalsLock.ACCOUNTS, s.rows, s.accounts, OnAccount(t), t.accounts.stage)
    && PartDone(TotalsLock.SELLERS, s.rows, s.sellers, OnSeller(t), t.sellers.stage)
  }

  /** Everything but the notes of removal `i` is as it should be. */
  ghost predicate SafeBeside(s: Store, i: Id) {
    && i in s.open && Safe(Shadowed(s, i)) && s.open[i].puts == map[]
    && PartsDone(s, s.open[i]) && (s.lock != Some(i) ==> Untouched(s.open[i]))
  }

  /** The removal looks, deletes and refreshes what it noted; the others are careful. */
  ghost predicate Removes(s: Store, i: Id, step: Step)
    requires Enabled(s, step)
  {
    if step.id == i
    then step.Look? || step.Drop? || step.TakeLock? || step.Delete? || step.Insert?
    else Careful(s, step)
  }

  lemma BeginsBeside(s: Store, i: Id)
    requires Safe(s) && Enabled(s, Begin(i))
    ensures SafeBeside(Take(s, Begin(i)), i)
  {
    BeginIsSafe(s, i);
    ShadowOfNew();
    NewIsItsShadow(Take(s, Begin(i)), i);
    UntouchedIsDone(Take(s, Begin(i)), NEW);
  }

  lemma NewIsItsShadow(s: Store, i: Id)
    requires i in s.open && s.open[i] == NEW == Shadow(NEW)
    ensures Shadowed(s, i) == s
  {
    assert s.open[i := NEW] == s.open;
  }

  lemma ShadowOfNew()
    ensures Shadow(NEW) == NEW
  {
    assert DaysOf(map[]) == {} && PayersOf(map[]) == {} && PayeesOf(map[]) == {};
  }

  lemma UntouchedIsDone(s: Store, t: Transaction)
    requires Untouched(t)
    ensures PartsDone(s, t)
  {
  }

  // ------------------------------------------------------------------------- steps of the others

  /** A shadow writes what its removal writes, so others can do beside it what they can do beside the removal. */
  lemma ShadowWrites(s: Store, i: Id, j: Id)
    requires i in s.open && j in s.open && s.open[i].puts == map[]
    ensures Writes(Shadowed(s, i).open[j]) == Writes(s.open[j])
  {
  }

  lemma OtherIsEnabled(s: Store, i: Id, step: Step)
    requires i in s.open && s.open[i].puts == map[] && step.id != i && Enabled(s, step)
    ensures Enabled(Shadowed(s, i), step) && (Careful(s, step) ==> Careful(Shadowed(s, i), step))
  {
    forall j | j in s.open ensures Writes(Shadowed(s, i).open[j]) == Writes(s.open[j]) {
      ShadowWrites(s, i, j);
    }
  }

  lemma EndIsSame(s: Store, i: Id, step: Step)
    requires i in s.open && step.id != i && Enabled(s, step) && Enabled(Shadowed(s, i), step)
    requires step.Commit? || step.RollBack?
    ensures i in Take(s, step).open && Take(s, step).open[i] == s.open[i]
    ensures Take(Shadowed(s, i), step) == Shadowed(Take(s, step), i)
  {
    assert Shadowed(s, i).open - {step.id} == (s.open - {step.id})[i := Shadow(s.open[i])];
  }

  lemma PutIsSame(s: Store, i: Id, j: Id, t: Transaction, lock: Option<Id>)
    requires i in s.open && j != i
    ensures Put(Shadowed(s, i), j, t, lock) == Shadowed(Put(s, j, t, lock), i)
  {
    assert Shadowed(s, i).open[j := t] == s.open[j := t][i := Shadow(s.open[i])];
  }

  lemma OtherIsSame(s: Store, i: Id, step: Step)
    requires i in s.open && step.id != i && Enabled(s, step) && Enabled(Shadowed(s, i), step)
    ensures i in Take(s, step).open && Take(s, step).open[i] == s.open[i]
    ensures Take(Shadowed(s, i), step) == Shadowed(Take(s, step), i)
  {
    if step.Commit? || step.RollBack? {
      EndIsSame(s, i, step);
    } else if step.Begin? {
      PutIsSame(s, i, step.id, NEW, s.lock);
    } else {
      var own := Own(s, s.open[step.id], step);
      SameOwn(s, Shadowed(s, i), s.open[step.id], step);
      TakeIsOwn(s, step);
      TakeIsOwn(Shadowed(s, i), step);
      PutIsSame(s, i, step.id, own, if step.TakeLock? then Some(step.id) else s.lock);
    }
  }

  lemma SameOwn(s: Store, q: Store, t: Transaction, step: Step)
    requires q.rows == s.rows && q.daily == s.daily && q.accounts == s.accounts && q.sellers == s.sellers
    ensures Own(q, t, step) == Own(s, t, step)
  {
  }

  ghost predicate SameTables(s: Store, after: Store) {
    after.rows == s.rows && after.daily == s.daily && after.accounts == s.accounts && after.sellers == s.sellers
  }

  /** Only a commit under the lock changes the tables. */
  lemma TablesChange(s: Store, step: Step)
    requires Safe(s) && Enabled(s, step)
    ensures SameTables(s, Take(s, step)) || (step.Commit? && s.lock == Some(step.id))
  {
    if step.Commit? && s.lock != Some(step.id) {
      UnlockedWritesNothing(s, step.id);
    }
  }

  lemma LockMoves(s: Store, i: Id, step: Step)
    requires Enabled(s, step) && step.id != i
    ensures s.lock == Some(i) <==> Take(s, step).lock == Some(i)
  {
  }

  lemma OtherKeeps(s: Store, i: Id, step: Step)
    requires SafeBeside(s, i) && Enabled(s, step) && step.id != i && Careful(s, step)
    ensures SafeBeside(Take(s, step), i)
  {
    OtherIsEnabled(s, i, step);
    OtherIsSame(s, i, step);
    StepIsSafe(Shadowed(s, i), step);
    TablesChange(Shadowed(s, i), step);
    LockMoves(s, i, step);
    if step.Commit? && s.lock == Some(step.id) {
      UntouchedIsDone(Take(s, step), s.open[i]);
    }
  }

  // ----------------------------------------------------------------------- steps of the removal

  lemma ShadowInFlight(s: Store, i: Id, t: Transaction)
    requires t.puts == map[] && TotalsLock.Reserved(s.rows, OnDaily(t))
    ensures InFlight(s, i, Shadow(t))
  {
    AloneCovered(t.was, map[], DaysOf(t.was), PayersOf(t.was), PayeesOf(t.was));
    BeforeRefresh(s, i, Shadow(t));
  }

  /** A removal that deletes more: its shadow deletes as much. */
  lemma ShadowGrows(s: Store, i: Id, t: Transaction, lock: Option<Id>)
    requires i in s.open && Safe(Shadowed(s, i)) && t.puts == map[] && TotalsLock.Reserved(s.rows, OnDaily(t))
    requires forall j | j in s.open && j != i :: Writes(t) !! Writes(s.open[j])
    requires lock == s.lock || (lock == Some(i) && s.lock.None?)
    ensures Safe(Shadowed(Put(s, i, t, lock), i))
  {
    var q := Shadowed(s, i);
    ShadowInFlight(q.(lock := lock), i, t);
    ShadowOfPut(s, i, t, lock);
    ShadowIsApart(s, i, t);
    OwnStepIsSafe(q, i, Shadow(t), lock);
  }

  lemma ShadowIsApart(s: Store, i: Id, t: Transaction)
    requires i in s.open && t.puts == map[] && forall j | j in s.open && j != i :: Writes(t) !! Writes(s.open[j])
    ensures forall j | j in Shadowed(s, i).open && j != i :: Writes(Shadow(t)) !! Writes(Shadowed(s, i).open[j])
  {
    assert Writes(Shadow(t)) == Writes(t);
    assert forall j | j in s.open && j != i :: Shadowed(s, i).open[j] == s.open[j];
  }

  lemma ShadowOfPut(s: Store, i: Id, t: Transaction, lock: Option<Id>)
    requires i in s.open
    ensures Shadowed(Put(s, i, t, lock), i) == Put(Shadowed(s, i), i, Shadow(t), lock)
  {
    assert s.open[i := t][i := Shadow(t)] == s.open[i := Shadow(s.open[i])][i := Shadow(t)];
  }

  lemma ReservedAsShadow(rows: map<Hash, Row>, t: Transaction)
    requires t.puts == map[] && TotalsLock.Reserved(rows, OnDaily(Shadow(t)))
    ensures TotalsLock.Reserved(rows, OnDaily(t))
  {
  }

  lemma ShadowApart(s: Store, i: Id, j: Id)
    requires i in s.open && j in s.open && j != i && Safe(Shadowed(s, i)) && s.open[i].puts == map[]
    ensures Writes(s.open[i]) !! Writes(s.open[j])
  {
    var q := Shadowed(s, i);
    assert Writes(q.open[i]) !! Writes(q.open[j]);
    ShadowWrites(s, i, i);
    ShadowWrites(s, i, j);
  }

  lemma ShadowReserved(s: Store, i: Id)
    requires i in s.open && Safe(Shadowed(s, i)) && s.open[i].puts == map[]
    ensures TotalsLock.Reserved(s.rows, OnDaily(s.open[i]))
    ensures forall j | j in s.open && j != i :: Writes(s.open[i]) !! Writes(s.open[j])
  {
    var q := Shadowed(s, i);
    assert InFlight(q, i, q.open[i]) && q.open[i] == Shadow(s.open[i]);
    ReservedAsShadow(s.rows, s.open[i]);
    forall j | j in s.open && j != i ensures Writes(s.open[i]) !! Writes(s.open[j]) {
      ShadowApart(s, i, j);
    }
  }

  lemma LookKeeps(s: Store, i: Id, step: Step)
    requires SafeBeside(s, i) && Enabled(s, step) && step.id == i && (step.Look? || step.TakeLock?)
    ensures SafeBeside(Take(s, step), i)
  {
    var t := Own(s, s.open[i], step);
    TakeIsOwn(s, step);
    ShadowReserved(s, i);
    assert t.was == s.open[i].was && t.puts == map[] && Untouched(t) by {
      assert Untouched(s.open[i]);
    }
    UntouchedIsDone(s, t);
    ShadowGrows(s, i, t, if step.TakeLock? then Some(i) else s.lock);
  }

  lemma DropKeeps(s: Store, i: Id, ledgers: set<Ledger>)
    requires SafeBeside(s, i) && Enabled(s, Drop(i, ledgers))
    ensures SafeBeside(Take(s, Drop(i, ledgers)), i)
  {
    var step := Drop(i, ledgers);
    var t, own := s.open[i], Own(s, s.open[i], step);
    TakeIsOwn(s, step);
    ShadowReserved(s, i);
    DroppedIs(s, i, ledgers);
    UntouchedIsDone(s, own);
    ShadowGrows(s, i, own, s.lock);
  }

  lemma DroppedIs(s: Store, i: Id, ledgers: set<Ledger>)
    requires i in s.open && s.open[i].puts == map[] && TotalsLock.Reserved(s.rows, OnDaily(s.open[i]))
    requires forall j | j in s.open && j != i :: Writes(s.open[i]) !! Writes(s.open[j])
    requires Enabled(s, Drop(i, ledgers))
    ensures var own := Own(s, s.open[i], Drop(i, ledgers));
            && own.puts == map[] && TotalsLock.Reserved(s.rows, OnDaily(own))
            && (forall j | j in s.open && j != i :: Writes(own) !! Writes(s.open[j]))
            && own.daily == s.open[i].daily && own.accounts == s.open[i].accounts && own.sellers == s.open[i].sellers
  {
    var t, step := s.open[i], Drop(i, ledgers);
    OwnAdds(s, step);
    ChangeIsReserved(s, step);
    OnlyWriters(s, step, i);
    StillReserved(s.rows, t, Change(s, t, step), Own(s, t, step));
    forall j | j in s.open && j != i ensures Writes(Own(s, t, step)) !! Writes(s.open[j]) {
      ChangeIsApart(s, step, j);
    }
  }

  lemma RefreshKeeps(s: Store, i: Id, step: Step)
    requires SafeBeside(s, i) && Enabled(s, step) && step.id == i && (step.Delete? || step.Insert?)
    ensures SafeBeside(Take(s, step), i)
  {
    var t, own := s.open[i], Own(s, s.open[i], step);
    TakeIsOwn(s, step);
    ShadowReserved(s, i);
    OthersUntouched(s, t, step);
    ShadowGrows(s, i, own, s.lock);
    OwnIsDone(s, t, step);
  }

  lemma OwnIsDone(s: Store, t: Transaction, step: Step)
    requires PartsDone(s, t)
    requires (step.Delete? && StageOf(t, step.table).Before?) || (step.Insert? && StageOf(t, step.table).Gone?)
    ensures PartsDone(s, Own(s, t, step))
  {
    var own := Own(s, t, step);
    OthersUntouched(s, t, step);
    OthersDone(s, t, own);
    match step.table
    case DailyTotals =>
    case AccountTotals =>
    case SellerSummaries =>
  }

  lemma OthersDone(s: Store, t: Transaction, own: Transaction)
    requires PartsDone(s, t)
    requires own.was == t.was && own.puts == t.puts && own.days == t.days && own.payers == t.payers
    requires own.payees == t.payees
    ensures own.daily == t.daily ==> PartDone(TotalsLock.DAILY, s.rows, s.daily, OnDaily(own), own.daily.stage)
    ensures own.accounts == t.accounts ==>
              PartDone(TotalsLock.ACCOUNTS, s.rows, s.accounts, OnAccount(own), own.accounts.stage)
    ensures own.sellers == t.sellers ==>
              PartDone(TotalsLock.SELLERS, s.rows, s.sellers, OnSeller(own), own.sellers.stage)
  {
  }

  lemma StepKeeps(s: Store, i: Id, step: Step)
    requires SafeBeside(s, i) && Enabled(s, step) && Removes(s, i, step)
    ensures SafeBeside(Take(s, step), i)
  {
    if step.id != i {
      OtherKeeps(s, i, step);
    } else if step.Drop? {
      DropKeeps(s, i, step.ledgers);
    } else if step.Look? || step.TakeLock? {
      LookKeeps(s, i, step);
    } else {
      RefreshKeeps(s, i, step);
    }
  }

  // -------------------------------------------------------------------------------------------- runs

  ghost predicate AllRemove(s: Store, i: Id, steps: seq<Step>)
    requires Possible(s, steps)
    decreases |steps|
  {
    steps == [] || (Removes(s, i, steps[0]) && AllRemove(Take(s, steps[0]), i, steps[1..]))
  }

  lemma {:induction false} RunKeeps(s: Store, i: Id, steps: seq<Step>)
    requires SafeBeside(s, i) && Possible(s, steps) && AllRemove(s, i, steps)
    ensures SafeBeside(After(s, steps), i)
    decreases |steps|
  {
    if steps != [] {
      StepKeeps(s, i, steps[0]);
      RunKeeps(Take(s, steps[0]), i, steps[1..]);
    }
  }

  /** All along, the committed tables are exact: a removal does no harm before it commits. */
  lemma RemovingIsReady(s: Store, i: Id)
    requires SafeBeside(s, i)
    ensures TablesExact(s) && (Ready(s.open[i]) ==> Removing(s, i))
  {
    ShadowReserved(s, i);
  }

  /**
   * A removal that begins in any state careful transactions reach, and then looks, deletes and refreshes what it
   * saw, however others go on beside it: its commit leaves the three tables exact if and only if the days,
   * payers and sellers of all it deletes are among those it looked at.
   */
  lemma RemovalsAreExact(rows: map<Hash, Row>, before: seq<Step>, i: Id, steps: seq<Step>)
    requires Possible(Idle(rows), before) && AllCareful(Idle(rows), before)
    requires Enabled(After(Idle(rows), before), Begin(i))
    requires var begun := Take(After(Idle(rows), before), Begin(i));
             Possible(begun, steps) && AllRemove(begun, i, steps) && Enabled(After(begun, steps), Commit(i))
    ensures var s := After(Take(After(Idle(rows), before), Begin(i)), steps);
            && i in s.open && TablesExact(s)
            && (TablesExact(Take(s, Commit(i))) <==> Seen(s.open[i], s.open[i].was))
  {
    var begun := Take(After(Idle(rows), before), Begin(i));
    RunIsSafe(Idle(rows), before);
    BeginsBeside(After(Idle(rows), before), i);
    RunKeeps(begun, i, steps);
    RemovingIsReady(After(begun, steps), i);
    RemovalIsExact(After(begun, steps), i);
  }
}
