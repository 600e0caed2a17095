/** Keyset paging over stored rows by their position in the chain. */
module Keyset {
  import opened Index
  import opened Settlements
  import opened Tables

  /** A position `(ledger, tx_index)`; the walk starts before the first. */
  datatype Position = Position(ledger: int, txIndex: int)

  const START := Position(0, -1)

  predicate Before(p: Position, q: Position) {
    p.ledger < q.ledger || (p.ledger == q.ledger && p.txIndex < q.txIndex)
  }

  function At(row: Row): Position {
    Position(row.facts.ledger, row.facts.txIndex)
  }

  /** Rows are in the order of their ledgers, and inside a ledger in that of their transactions. */
  lemma OrderIs(p: Row, q: Row)
    ensures Before(At(p), At(q))
       <==> p.facts.ledger < q.facts.ledger
            || (p.facts.ledger == q.facts.ledger && p.facts.txIndex < q.facts.txIndex)
    ensures Before(START, At(p))
  {
  }

  /** The rows produced under another registry version. */
  function OutOfDate(rows: map<Hash, Row>, version: string): set<Hash> {
    set h | h in rows && rows[h].registry != version
  }

  /** Those at or before a position. */
  function OutOfDateUpTo(rows: map<Hash, Row>, version: string, last: Position): set<Hash> {
    set h | h in rows && rows[h].registry != version && !Before(last, At(rows[h]))
  }

  /** The table with the rows in `done` re-attributed. */
  ghost function ReattributedIn(rows: map<Hash, Row>, registry: Registry, done: set<Hash>): (after: map<Hash, Row>)
    ensures after.Keys == rows.Keys
    ensures forall h | h in rows :: after[h] == if h in done then Reattributed(rows[h], registry) else rows[h]
  {
    MapOf(rows.Keys, h => if h !in rows then NO_ROW else if h in done then Reattributed(rows[h], registry) else rows[h])
  }

  /** The rows a page names. */
  function Named(page: seq<Hash>): set<Hash> {
    set h | h in page
  }

  /** One page: the first rows after `last`, in order, of those a query selects. */
  ghost predicate IsPage(rows: map<Hash, Row>, version: string, last: Position, limit: nat, page: seq<Hash>) {
    |page| <= limit &&
    (forall i | 0 <= i < |page| :: page[i] in OutOfDate(rows, version) && Before(last, At(rows[page[i]]))) &&
    (forall i, j | 0 <= i < j < |page| :: Before(At(rows[page[i]]), At(rows[page[j]]))) &&
    (forall h | h in OutOfDate(rows, version) && Before(last, At(rows[h])) && h !in page ::
       0 < |page| == limit && Before(At(rows[page[|page| - 1]]), At(rows[h])))
  }

  lemma {:induction false} FirstExists(rows: map<Hash, Row>, left: set<Hash>)
    requires PositionsUnique(rows) && left <= rows.Keys && left != {}
    ensures exists h :: h in left && forall g | g in left && g != h :: Before(At(rows[h]), At(rows[g]))
    decreases |left|
  {
    var x :| x in left;
    var rest := left - {x};
    if rest == {} {
      assert x in left && forall g | g in left && g != x :: g in rest;
    } else {
      FirstExists(rows, rest);
      var y :| y in rest && forall g | g in rest && g != y :: Before(At(rows[y]), At(rows[g]));
      assert !SamePosition(rows[x].facts, rows[y].facts);
      var first := if Before(At(rows[x]), At(rows[y])) then x else y;
      assert forall g | g in left && g != first :: Before(At(rows[first]), At(rows[g]));
    }
  }

  /** A page so far: the first of `all`, in order, with those in `left` still to come. */
  ghost predicate Filling(rows: map<Hash, Row>, all: set<Hash>, left: set<Hash>, page: seq<Hash>) {
    && left <= all <= rows.Keys && (forall h | h in all :: h in left || h in page)
    && (forall i | 0 <= i < |page| :: page[i] in all)
    && (forall i, j | 0 <= i < j < |page| :: Before(At(rows[page[i]]), At(rows[page[j]])))
    && (forall i, h | 0 <= i < |page| && h in left :: Before(At(rows[page[i]]), At(rows[h])))
  }

  lemma OneMoreOnPage(rows: map<Hash, Row>, all: set<Hash>, left: set<Hash>, page: seq<Hash>, h: Hash)
    requires Filling(rows, all, left, page)
    requires h in left && forall g | g in left && g != h :: Before(At(rows[h]), At(rows[g]))
    ensures Filling(rows, all, left - {h}, page + [h])
  {
    var more := page + [h];
    assert forall i | 0 <= i < |page| :: more[i] == page[i];
    assert h in more && forall g | g in page :: g in more;
  }

  /** Reads a page: ORDER BY position LIMIT `limit`. */
  method Page(rows: map<Hash, Row>, version: string, last: Position, limit: nat) returns (page: seq<Hash>)
    requires PositionsUnique(rows) && limit > 0
    ensures IsPage(rows, version, last, limit, page)
  {
    var all := set h | h in rows && rows[h].registry != version && Before(last, At(rows[h]));
    var left := all;
    page := [];
    while |page| < limit && left != {}
      invariant |page| <= limit && Filling(rows, all, left, page)
      decreases left
    {
      FirstExists(rows, left);
      var h :| h in left && forall g | g in left && g != h :: Before(At(rows[h]), At(rows[g]));
      OneMoreOnPage(rows, all, left, page, h);
      page, left := page + [h], left - {h};
    }
  }

  lemma PageIsDue(was: map<Hash, Row>, rows: map<Hash, Row>, registry: Registry, last: Position, done: set<Hash>,
                  limit: nat, page: seq<Hash>)
    requires done == OutOfDateUpTo(was, registry.version, last) && rows == ReattributedIn(was, registry, done)
    requires IsPage(rows, registry.version, last, limit, page)
    ensures Named(page) !! done && Named(page) <= OutOfDate(was, registry.version)
    ensures OutOfDate(rows, registry.version) == OutOfDate(was, registry.version) - done
    ensures forall h | h in was :: At(rows[h]) == At(was[h])
  {
    forall h | h in page ensures h in OutOfDate(was, registry.version) && h !in done {
      var i :| 0 <= i < |page| && page[i] == h;
    }
  }

  /** After a page, the rows done are exactly those up to its last one; a short page is the last. */
  lemma PageDone(was: map<Hash, Row>, rows: map<Hash, Row>, registry: Registry, last: Position, done: set<Hash>,
                 limit: nat, page: seq<Hash>)
    requires done == OutOfDateUpTo(was, registry.version, last) && rows == ReattributedIn(was, registry, done)
    requires IsPage(rows, registry.version, last, limit, page)
    ensures Named(page) !! done && Named(page) <= OutOfDate(was, registry.version)
    ensures |page| < limit ==> done + Named(page) == OutOfDate(was, registry.version)
    ensures |page| == limit > 0 ==>
      done + Named(page) == OutOfDateUpTo(was, registry.version, At(was[page[|page| - 1]]))
  {
    PageIsDue(was, rows, registry, last, done, limit, page);
    if |page| == limit > 0 {
      assert page[|page| - 1] in Named(page);
      forall h | h in OutOfDate(was, registry.version)
        ensures h in done + Named(page) <==> !Before(At(was[page[|page| - 1]]), At(was[h]))
      {
        PagePasses(was, rows, registry, last, done, limit, page, h);
      }
    }
  }

  /** A full page ends at its last row: the rows out of date up to there are those done before and those on it. */
  lemma PagePasses(was: map<Hash, Row>, rows: map<Hash, Row>, registry: Registry, last: Position, done: set<Hash>,
                   limit: nat, page: seq<Hash>, h: Hash)
    requires done == OutOfDateUpTo(was, registry.version, last) && rows == ReattributedIn(was, registry, done)
    requires IsPage(rows, registry.version, last, limit, page) && |page| == limit > 0
    requires h in OutOfDate(was, registry.version)
    ensures page[|page| - 1] in was
    ensures h in done + Named(page) <==> !Before(At(was[page[|page| - 1]]), At(was[h]))
  {
    PageIsDue(was, rows, registry, last, done, limit, page);
    var end := page[|page| - 1];
    assert end in Named(page) && At(rows[end]) == At(was[end]) && At(rows[h]) == At(was[h]);
    if h in page {
      var i :| 0 <= i < |page| && page[i] == h;
      assert i < |page| - 1 ==> Before(At(rows[page[i]]), At(rows[end]));
    } else if h !in done {
      assert h in OutOfDate(rows, registry.version);
    }
  }

  /** A page names a row once. */
  lemma {:induction false} PageSize(rows: map<Hash, Row>, page: seq<Hash>)
    requires forall h | h in page :: h in rows
    requires forall i, j | 0 <= i < j < |page| :: Before(At(rows[page[i]]), At(rows[page[j]]))
    ensures |Named(page)| == |page|
  {
    if page == [] {
      assert Named(page) == {};
    } else {
      var n := |page| - 1;
      PageSize(rows, page[..n]);
      assert page[n] !in page[..n];
      assert Named(page) == Named(page[..n]) + {page[n]};
    }
  }
}
