/**
 * The rows the Explorer stores for one network and epoch: every query is bounded by both, so they
 * are left implicit. A transaction hash (64 hex digits) is the number it spells, and an instant is in
 * milliseconds.
 */
module Settlements {
  import opened Options

  type Hash = nat
  type Ledger = nat
  type Address = string

  datatype Scheme = Exact | Upto

  datatype Tier = Rail402 | Rail402Beta | Facilitator | Shaped

  datatype Attribution = Attribution(tier: Tier, facilitator: Option<string>, evidence: Option<string>,
                                     sharedRelayer: bool)

  /** What a settlement's ledger, and the rules it was classified under, fix about its row. */
  datatype Facts = Facts(
    hash: Hash, ledger: Ledger, txIndex: nat, closedAt: nat, scheme: Scheme, rule: string, rules: string,
    asset: string, assetVerified: bool, payer: Address, payTo: Address, amount: nat,
    uptoContract: Option<string>, feePayer: Address, innerSource: Address, opSource: Address)

  /** A settlement row: its facts, and who the registry of that version says settled it. */
  datatype Row = Row(facts: Facts, registry: string, attribution: Attribution)

  datatype FailedAttempt = FailedAttempt(hash: Hash, ledger: Ledger, txIndex: nat, scheme: Scheme,
                                         resultCode: string, feePayer: Address, feeCharged: nat)

  const DAY_MS := 86_400_000

  /** The UTC day of an instant. */
  function Day(at: nat): nat {
    at / DAY_MS
  }

  /** The same rows up to who settled them. */
  ghost predicate SameFacts(a: map<Hash, Row>, b: map<Hash, Row>) {
    a.Keys == b.Keys && forall h | h in a :: a[h].facts == b[h].facts
  }

  function RowsOf(rows: map<Hash, Row>, ledger: Ledger): set<Hash> {
    set h | h in rows && rows[h].facts.ledger == ledger
  }

  /** The rows of a ledger that a registry facilitator settled. */
  function AttributedOf(rows: map<Hash, Row>, ledger: Ledger): set<Hash> {
    set h | h in rows && rows[h].facts.ledger == ledger && !rows[h].attribution.tier.Shaped?
  }

  /** The rows a registry facilitator settled. */
  function Settled(rows: map<Hash, Row>): set<Hash> {
    set h | h in rows && !rows[h].attribution.tier.Shaped?
  }

  function FailedOf(failed: map<Hash, FailedAttempt>, ledger: Ledger): set<Hash> {
    set h | h in failed && failed[h].ledger == ledger
  }

  /** Rows as a table keyed by hash; a later row of the same hash replaces an earlier one. */
  function RowTable(rows: seq<Row>): map<Hash, Row> {
    if rows == [] then map[] else
    RowTable(rows[..|rows| - 1])[rows[|rows| - 1].facts.hash := rows[|rows| - 1]]
  }

  /** How many of the rows a registry facilitator settled. */
  function AttributedCount(rows: seq<Row>): nat {
    if rows == [] then 0 else
    AttributedCount(rows[..|rows| - 1]) + if rows[|rows| - 1].attribution.tier.Shaped? then 0 else 1
  }

  /** Failed attempts as a table keyed by hash; an earlier one of the same hash stays. */
  function FailedTable(failed: seq<FailedAttempt>): map<Hash, FailedAttempt> {
    if failed == [] then map[] else
    map[failed[|failed| - 1].hash := failed[|failed| - 1]] + FailedTable(failed[..|failed| - 1])
  }

  ghost predicate DistinctHashes(rows: seq<Row>) {
    forall i, j | 0 <= i < j < |rows| :: rows[i].facts.hash != rows[j].facts.hash
  }

  ghost predicate DistinctFailures(failed: seq<FailedAttempt>) {
    forall i, j | 0 <= i < j < |failed| :: failed[i].hash != failed[j].hash
  }

  lemma {:induction false} RowTableConcat(front: seq<Row>, back: seq<Row>)
    ensures RowTable(front + back) == RowTable(front) + RowTable(back)
  {
    if back == [] {
      assert front + back == front;
    } else {
      RowTableConcat(front, back[..|back| - 1]);
      assert (front + back)[..|front + back| - 1] == front + back[..|back| - 1];
    }
  }

  lemma {:induction false} FailedTableConcat(front: seq<FailedAttempt>, back: seq<FailedAttempt>)
    ensures FailedTable(front + back) == FailedTable(back) + FailedTable(front)
  {
    if back == [] {
      assert front + back == front;
    } else {
      var n := |back| - 1;
      FailedTableConcat(front, back[..n]);
      assert (front + back)[..|front + back| - 1] == front + back[..n];
      MergeAssociates(map[back[n].hash := back[n]], FailedTable(back[..n]), FailedTable(front));
    }
  }

  lemma MergeAssociates<K, V>(a: map<K, V>, b: map<K, V>, c: map<K, V>)
    ensures a + (b + c) == (a + b) + c
  {}

  /** Every entry of the table is one of the rows, under its own hash. */
  lemma {:induction false} RowTableEntry(rows: seq<Row>, h: Hash)
    requires h in RowTable(rows)
    ensures exists i :: 0 <= i < |rows| && rows[i] == RowTable(rows)[h] && rows[i].facts.hash == h
  {
    var n := |rows| - 1;
    if h == rows[n].facts.hash {
      assert rows[n] == RowTable(rows)[h];
    } else {
      RowTableEntry(rows[..n], h);
      var i :| 0 <= i < n && rows[..n][i] == RowTable(rows[..n])[h] && rows[..n][i].facts.hash == h;
      assert rows[i] == RowTable(rows)[h];
    }
  }

  /** Every row is in the table when hashes are distinct. */
  lemma {:induction false} RowTableHolds(rows: seq<Row>, i: nat)
    requires i < |rows| && DistinctHashes(rows)
    ensures rows[i].facts.hash in RowTable(rows) && RowTable(rows)[rows[i].facts.hash] == rows[i]
  {
    var n := |rows| - 1;
    if i < n {
      RowTableHolds(rows[..n], i);
      assert rows[i].facts.hash != rows[n].facts.hash;
    }
  }

  /** The table of some rows with distinct hashes has as many entries as there are rows. */
  lemma {:induction false} RowTableSize(rows: seq<Row>)
    requires DistinctHashes(rows)
    ensures |RowTable(rows).Keys| == |rows|
    ensures |Settled(RowTable(rows))| == AttributedCount(rows)
  {
    if rows != [] {
      var n := |rows| - 1;
      RowTableSize(rows[..n]);
      LastIsNew(rows);
      OneMoreRow(RowTable(rows[..n]), rows[n]);
    }
  }

  lemma LastIsNew(rows: seq<Row>)
    requires DistinctHashes(rows) && rows != []
    ensures var n := |rows| - 1; rows[n].facts.hash !in RowTable(rows[..n])
  {
    var n := |rows| - 1;
    if rows[n].facts.hash in RowTable(rows[..n]) {
      RowTableEntry(rows[..n], rows[n].facts.hash);
      assert false;
    }
  }

  lemma OneMoreRow(table: map<Hash, Row>, row: Row)
    requires row.facts.hash !in table
    ensures |table[row.facts.hash := row].Keys| == |table.Keys| + 1
    ensures |Settled(table[row.facts.hash := row])| == |Settled(table)| + if row.attribution.tier.Shaped? then 0 else 1
  {
    assert table[row.facts.hash := row].Keys == table.Keys + {row.facts.hash};
    OneMoreSettled(table, row);
    assert row.facts.hash !in Settled(table);
  }

  lemma OneMoreSettled(table: map<Hash, Row>, row: Row)
    requires row.facts.hash !in table
    ensures Settled(table[row.facts.hash := row])
         == Settled(table) + if row.attribution.tier.Shaped? then {} else {row.facts.hash}
  {
    var more := table[row.facts.hash := row];
    forall h
      ensures h in Settled(more) <==> h in Settled(table) || (h == row.facts.hash && !row.attribution.tier.Shaped?)
    {
      if h != row.facts.hash {
        assert h in more <==> h in table;
      }
    }
  }

  lemma {:induction false} FailedTableEntry(failed: seq<FailedAttempt>, h: Hash)
    requires h in FailedTable(failed)
    ensures exists i :: 0 <= i < |failed| && failed[i] == FailedTable(failed)[h] && failed[i].hash == h
  {
    var n := |failed| - 1;
    if h in FailedTable(failed[..n]) {
      FailedTableEntry(failed[..n], h);
      var i :| 0 <= i < n && failed[..n][i] == FailedTable(failed[..n])[h] && failed[..n][i].hash == h;
      assert failed[i] == FailedTable(failed)[h];
    } else {
      assert failed[n] == FailedTable(failed)[h];
    }
  }

  lemma {:induction false} FailedTableHolds(failed: seq<FailedAttempt>, i: nat)
    requires i < |failed| && DistinctFailures(failed)
    ensures failed[i].hash in FailedTable(failed) && FailedTable(failed)[failed[i].hash] == failed[i]
  {
    var n := |failed| - 1;
    if i < n {
      FailedTableHolds(failed[..n], i);
    } else if failed[n].hash in FailedTable(failed[..n]) {
      FailedTableEntry(failed[..n], failed[n].hash);
      assert false;
    }
  }

  lemma {:induction false} FailedTableSize(failed: seq<FailedAttempt>)
    requires DistinctFailures(failed)
    ensures |FailedTable(failed).Keys| == |failed|
  {
    if failed != [] {
      var n := |failed| - 1;
      FailedTableSize(failed[..n]);
      if failed[n].hash in FailedTable(failed[..n]) {
        FailedTableEntry(failed[..n], failed[n].hash);
        assert false;
      }
      assert FailedTable(failed).Keys == FailedTable(failed[..n]).Keys + {failed[n].hash};
    }
  }
}
