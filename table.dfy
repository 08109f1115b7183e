/**
 * The `request_details` table of src/lib/requestDetailsDb.js as a map from
 * primary key to row, with the two statements every batch runs: INSERT OR
 * REPLACE of each row, then one DELETE that keeps the `maxRecords` newest
 * rows by timestamp.
 */
module Table {
  import opened Wrappers
  import opened JsMath

  /** One stored row: timestamps are epoch milliseconds, payload columns serialized JSON text. */
  datatype Row = Row(
    id: string,
    provider: Option<string>,
    model: Option<string>,
    connectionId: Option<string>,
    timestamp: int,
    status: Option<string>,
    latency: string,
    tokens: string,
    request: string,
    providerRequest: string,
    providerResponse: string,
    response: string)

  type Table = map<string, Row>

  /** The primary-key invariant: each row is stored under its own id. */
  ghost predicate Keyed(t: Table) {
    forall k :: k in t ==> t[k].id == k
  }

  /** INSERT OR REPLACE: a row with a colliding id replaces the old one. */
  function Upsert(t: Table, row: Row): Table {
    t[row.id := row]
  }

  /** The rows of a batch upserted in order. */
  function UpsertAll(t: Table, rows: seq<Row>): Table
    decreases |rows|
  {
    if rows == [] then t else Upsert(UpsertAll(t, rows[..|rows| - 1]), rows[|rows| - 1])
  }

  function Ids(rows: seq<Row>): set<string> {
    set i | 0 <= i < |rows| :: rows[i].id
  }

  /** rows[i] is the last row of the sequence carrying its id. */
  predicate LastWithId(rows: seq<Row>, i: int) {
    0 <= i < |rows| && forall j :: i < j < |rows| ==> rows[j].id != rows[i].id
  }

  lemma IdsOfInit(rows: seq<Row>)
    requires rows != []
    ensures Ids(rows) == Ids(rows[..|rows| - 1]) + {rows[|rows| - 1].id}
  {
    var n := |rows| - 1;
    forall i | 0 <= i < n ensures rows[..n][i] == rows[i] {
    }
  }

  /**
   * Upserting a batch adds exactly the batch's ids, leaves every other row
   * alone, and keeps the primary-key invariant.
   */
  lemma {:induction false} UpsertAllFrame(t: Table, rows: seq<Row>)
    ensures UpsertAll(t, rows).Keys == t.Keys + Ids(rows)
    ensures forall k :: k in t && k !in Ids(rows) ==> UpsertAll(t, rows)[k] == t[k]
    ensures Keyed(t) ==> Keyed(UpsertAll(t, rows))
    decreases |rows|
  {
    if rows != [] {
      UpsertAllFrame(t, rows[..|rows| - 1]);
      IdsOfInit(rows);
    }
  }

  /** Within a batch the last row carrying an id is the one stored under it. */
  lemma {:induction false} UpsertAllLastWins(t: Table, rows: seq<Row>)
    ensures forall i :: LastWithId(rows, i) ==>
              rows[i].id in UpsertAll(t, rows) && UpsertAll(t, rows)[rows[i].id] == rows[i]
    decreases |rows|
  {
    if rows != [] {
      var n := |rows| - 1;
      var init := rows[..n];
      UpsertAllLastWins(t, init);
      forall i | LastWithId(rows, i)
        ensures rows[i].id in UpsertAll(t, rows) && UpsertAll(t, rows)[rows[i].id] == rows[i]
      {
        if i < n {
          assert init[i] == rows[i];
          assert LastWithId(init, i);
        }
      }
    }
  }

  /**
   * What the retention DELETE leaves behind. A negative limit is SQLite's
   * "no limit": nothing is deleted. Otherwise the survivors are unchanged
   * rows of the table, there are min(count, maxRecords) of them, and none is
   * older than a deleted row. Rows tied on timestamp at the boundary may go
   * either way, as SQLite leaves their order unspecified.
   */
  ghost predicate RetainedNewest(before: Table, after: Table, maxRecords: int) {
    if maxRecords < 0 then after == before
    else
      && after.Keys <= before.Keys
      && (forall k :: k in after ==> after[k] == before[k])
      && |after| == Min(|before|, maxRecords)
      && (forall kept, gone :: kept in after && gone in before && gone !in after ==>
            before[kept].timestamp >= before[gone].timestamp)
  }

  /** A key of `among` whose row is the newest (or the oldest) of them. */
  method PickByTimestamp(t: Table, among: set<string>, newest: bool) returns (pick: string)
    requires among != {} && among <= t.Keys
    ensures pick in among
    ensures newest ==> forall k :: k in among ==> t[k].timestamp <= t[pick].timestamp
    ensures !newest ==> forall k :: k in among ==> t[pick].timestamp <= t[k].timestamp
  {
    pick :| pick in among;
    var rest := among - {pick};
    while rest != {}
      invariant rest <= among && pick in among
      invariant newest ==> forall k :: k in among && k !in rest ==> t[k].timestamp <= t[pick].timestamp
      invariant !newest ==> forall k :: k in among && k !in rest ==> t[pick].timestamp <= t[k].timestamp
      decreases rest
    {
      var k :| k in rest;
      if (newest && t[k].timestamp > t[pick].timestamp) || (!newest && t[k].timestamp < t[pick].timestamp) {
        pick := k;
      }
      rest := rest - {k};
    }
  }

  /**
   * The retention DELETE (`... WHERE id NOT IN (SELECT id ... ORDER BY
   * timestamp DESC LIMIT ?)`): an oldest row is removed until at most
   * `maxRecords` remain.
   */
  method TrimToNewest(t: Table, maxRecords: int) returns (kept: Table)
    ensures RetainedNewest(t, kept, maxRecords)
    ensures Keyed(t) ==> Keyed(kept)
  {
    kept := t;
    if maxRecords < 0 {
      return;
    }
    while |kept| > maxRecords
      invariant kept.Keys <= t.Keys
      invariant forall k :: k in kept ==> kept[k] == t[k]
      invariant |kept| <= |t|
      invariant kept == t || |kept| >= maxRecords
      invariant forall k, g :: k in kept && g in t && g !in kept ==> t[k].timestamp >= t[g].timestamp
      decreases |kept|
    {
      var oldest := PickByTimestamp(kept, kept.Keys, false);
      kept := kept - {oldest};
    }
  }

  /** With distinct timestamps the retention outcome is unique: exactly the newest rows survive. */
  lemma RetentionDeterministic(before: Table, a: Table, b: Table, maxRecords: int)
    requires forall k1, k2 :: k1 in before && k2 in before && k1 != k2 ==> before[k1].timestamp != before[k2].timestamp
    requires RetainedNewest(before, a, maxRecords) && RetainedNewest(before, b, maxRecords)
    ensures a == b
  {
    if maxRecords >= 0 {
      forall x | x in a ensures x in b {
        SurvivorAgrees(before, a, b, maxRecords, x);
      }
      forall x | x in b ensures x in a {
        SurvivorAgrees(before, b, a, maxRecords, x);
      }
      assert a.Keys == b.Keys;
    }
  }

  lemma SurvivorAgrees(before: Table, a: Table, b: Table, maxRecords: int, x: string)
    requires maxRecords >= 0
    requires forall k1, k2 :: k1 in before && k2 in before && k1 != k2 ==> before[k1].timestamp != before[k2].timestamp
    requires RetainedNewest(before, a, maxRecords) && RetainedNewest(before, b, maxRecords)
    requires x in a
    ensures x in b
  {
    if x !in b {
      OtherKey(a.Keys, b.Keys, x);
      assert false;
    }
  }

  /** Two sets of one size: when x is only in the first, some key is only in the second. */
  lemma OtherKey(A: set<string>, B: set<string>, x: string)
    requires |A| == |B| && x in A && x !in B
    ensures exists y :: y in B && y !in A
  {
    SubsetCard(A * B, A - {x});
    assert |B - A| == |B| - |B * A|;
    assert B - A != {};
  }

  lemma {:induction false} SubsetCard(S: set<string>, T: set<string>)
    requires S <= T
    ensures |S| <= |T|
    decreases |T|
  {
    if S != {} {
      var s :| s in S;
      SubsetCard(S - {s}, T - {s});
    }
  }

  /** A subset splits its superset's size. */
  lemma SplitCard(S: set<string>, T: set<string>)
    requires S <= T
    ensures |T| == |S| + |T - S|
  {
    assert T == S + (T - S);
    assert S * (T - S) == {};
  }

  /** A subset missing an element is strictly smaller. */
  lemma StrictSubsetCard(S: set<string>, T: set<string>, x: string)
    requires S <= T && x in T && x !in S
    ensures |S| < |T|
  {
    SplitCard(S, T);
    assert x in T - S;
  }

  /** A subset as large as its superset is all of it. */
  lemma SubsetSameSize(S: set<string>, T: set<string>)
    requires S <= T && |S| >= |T|
    ensures S == T
  {
    SplitCard(S, T);
    assert |T - S| == 0;
    assert T - S == {};
  }
}
