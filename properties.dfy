/**
 * What the audit engine guarantees, proved about the functions of Model:
 * how the table map and the working set are filled, what a table scan
 * counts and collects, what a first audit commits, when a second run over
 * unchanged data finds nothing, and what a run appends to the store.
 */
module Properties {
  import opened Scalars
  import opened Format
  import opened Canon
  import opened Model

  /** `a` is `b` with some elements left out. */
  predicate Subsequence<T(==)>(a: seq<T>, b: seq<T>)
    decreases |b|
  {
    if a == [] then true
    else if b == [] then false
    else (a[0] == b[0] && Subsequence(a[1..], b[1..])) || Subsequence(a, b[1..])
  }

  lemma {:induction false} SubsequenceMembers<T>(a: seq<T>, b: seq<T>)
    requires Subsequence(a, b)
    ensures forall x :: x in a ==> x in b
    decreases |b|
  {
    if a != [] {
      if a[0] == b[0] && Subsequence(a[1..], b[1..]) {
        SubsequenceMembers(a[1..], b[1..]);
        assert forall x :: x in a ==> x == a[0] || x in a[1..];
      } else {
        SubsequenceMembers(a, b[1..]);
      }
    }
  }

  /** Keeping the first element of both. */
  lemma SubsequenceKeep<T>(a: seq<T>, b: seq<T>)
    requires a != [] && b != [] && a[0] == b[0] && Subsequence(a[1..], b[1..])
    ensures Subsequence(a, b)
  {
  }

  /** Leaving out the first element of `b`. */
  lemma SubsequenceSkip<T>(a: seq<T>, b: seq<T>)
    requires b != [] && Subsequence(a, b[1..])
    ensures Subsequence(a, b)
  {
  }

  /** The records the rows of a table produce, one per row, in scan order. */
  function Records(env: Env, t: string, rows: seq<Row>): seq<AuditRow>
  {
    seq(|rows|, i requires 0 <= i < |rows| => Build(env, t, NormalizeRow(rows[i])))
  }

  // ---------------------------------------------------------------------
  // Config.load

  /** The table map's names are exactly the configured ones. */
  lemma {:induction false} TableMapOfKeys(ts: seq<TargetTable>)
    ensures forall n :: n in TableMapOf(ts) <==> exists i :: 0 <= i < |ts| && ts[i].tableName == n
  {
    if ts != [] {
      var init := ts[..|ts| - 1];
      var last := ts[|ts| - 1];
      TableMapOfKeys(init);
      assert TableMapOf(ts) == TableMapOf(init)[last.tableName := TableMapItem(last, "")];
      forall n | n in TableMapOf(ts)
        ensures exists i :: 0 <= i < |ts| && ts[i].tableName == n
      {
        if n != last.tableName {
          assert n in TableMapOf(init);
          var i :| 0 <= i < |init| && init[i].tableName == n;
          assert ts[i] == init[i];
        }
      }
      forall n | exists i :: 0 <= i < |ts| && ts[i].tableName == n
        ensures n in TableMapOf(ts)
      {
        var i :| 0 <= i < |ts| && ts[i].tableName == n;
        if i < |init| {
          assert init[i] == ts[i];
        }
      }
    }
  }

  /** Under each name, the last configured entry of that name, with an empty primary key. */
  lemma {:induction false} TableMapOfEntries(ts: seq<TargetTable>, i: nat)
    requires i < |ts| && forall j :: i < j < |ts| ==> ts[j].tableName != ts[i].tableName
    ensures ts[i].tableName in TableMapOf(ts)
    ensures TableMapOf(ts)[ts[i].tableName] == TableMapItem(ts[i], "")
  {
    if i < |ts| - 1 {
      var init := ts[..|ts| - 1];
      assert init[i] == ts[i];
      assert forall j :: i < j < |init| ==> init[j] == ts[j];
      TableMapOfEntries(init, i);
    }
  }

  /**
   * The table map holds exactly the configured table names, and under each
   * the last configured entry of that name, with an empty primary key.
   */
  lemma TableMapOfSpec(ts: seq<TargetTable>)
    ensures forall n :: n in TableMapOf(ts) <==> exists i :: 0 <= i < |ts| && ts[i].tableName == n
    ensures forall i :: 0 <= i < |ts| && (forall j :: i < j < |ts| ==> ts[j].tableName != ts[i].tableName) ==>
              TableMapOf(ts)[ts[i].tableName] == TableMapItem(ts[i], "")
  {
    TableMapOfKeys(ts);
    forall i | 0 <= i < |ts| && (forall j :: i < j < |ts| ==> ts[j].tableName != ts[i].tableName)
      ensures TableMapOf(ts)[ts[i].tableName] == TableMapItem(ts[i], "")
    {
      TableMapOfEntries(ts, i);
    }
  }

  // ---------------------------------------------------------------------
  // Reading the store and loading the working set

  lemma {:induction false} TableRecordsAppend(a: seq<AuditRow>, b: seq<AuditRow>, t: string)
    ensures TableRecords(a + b, t) == TableRecords(a, t) + TableRecords(b, t)
    decreases |b|
  {
    if b != [] {
      var init := b[..|b| - 1];
      assert (a + b)[..|a + b| - 1] == a + init;
      TableRecordsAppend(a, init, t);
    } else {
      assert a + b == a;
    }
  }

  /** The records of a table are exactly the store's records with that table name. */
  lemma {:induction false} TableRecordsSelects(store: seq<AuditRow>, t: string)
    ensures forall r :: r in TableRecords(store, t) <==> r in store && r.tableName == t
  {
    if store != [] {
      var init := store[..|store| - 1];
      TableRecordsSelects(init, t);
      assert store == init + [store[|store| - 1]];
    }
  }

  lemma {:induction false} TableRecordsOfOneTable(recs: seq<AuditRow>, t: string)
    requires forall i :: 0 <= i < |recs| ==> recs[i].tableName == t
    ensures TableRecords(recs, t) == recs
  {
    if recs != [] {
      var init := recs[..|recs| - 1];
      TableRecordsOfOneTable(init, t);
      assert recs == init + [recs[|recs| - 1]];
    }
  }

  /**
   * After loading, the working set holds the old keys and the key of every
   * loaded record; a record is found under its key unless a later record
   * has the same key, and old entries no record replaces are kept.
   */
  lemma {:induction false} LoadRowsKeys(wm: RowMap, recs: seq<AuditRow>)
    ensures forall k :: k in LoadRows(wm, recs) <==> k in wm || exists i :: 0 <= i < |recs| && StoreKey(recs[i]) == k
  {
    if recs != [] {
      var init := recs[..|recs| - 1];
      LoadRowsKeys(wm, init);
      assert forall i :: 0 <= i < |init| ==> init[i] == recs[i];
    }
  }

  lemma {:induction false} LoadRowsLastWins(wm: RowMap, recs: seq<AuditRow>, i: nat)
    requires i < |recs| && forall j :: i < j < |recs| ==> StoreKey(recs[j]) != StoreKey(recs[i])
    ensures StoreKey(recs[i]) in LoadRows(wm, recs) && LoadRows(wm, recs)[StoreKey(recs[i])] == recs[i]
  {
    if i < |recs| - 1 {
      var init := recs[..|recs| - 1];
      assert init[i] == recs[i];
      assert forall j :: i < j < |init| ==> init[j] == recs[j];
      LoadRowsLastWins(wm, init, i);
    }
  }

  lemma {:induction false} LoadRowsUntouched(wm: RowMap, recs: seq<AuditRow>, k: string)
    requires k in wm && forall i :: 0 <= i < |recs| ==> StoreKey(recs[i]) != k
    ensures k in LoadRows(wm, recs) && LoadRows(wm, recs)[k] == wm[k]
  {
    if recs != [] {
      var init := recs[..|recs| - 1];
      assert forall i :: 0 <= i < |init| ==> init[i] == recs[i];
      LoadRowsUntouched(wm, init, k);
    }
  }

  lemma LoadRowsSpec(wm: RowMap, recs: seq<AuditRow>)
    ensures forall k :: k in LoadRows(wm, recs) <==> k in wm || exists i :: 0 <= i < |recs| && StoreKey(recs[i]) == k
    ensures forall i :: 0 <= i < |recs| && (forall j :: i < j < |recs| ==> StoreKey(recs[j]) != StoreKey(recs[i])) ==>
              LoadRows(wm, recs)[StoreKey(recs[i])] == recs[i]
    ensures forall k :: k in wm && (forall i :: 0 <= i < |recs| ==> StoreKey(recs[i]) != k) ==>
              LoadRows(wm, recs)[k] == wm[k]
  {
    LoadRowsKeys(wm, recs);
    forall i | 0 <= i < |recs| && (forall j :: i < j < |recs| ==> StoreKey(recs[j]) != StoreKey(recs[i]))
      ensures LoadRows(wm, recs)[StoreKey(recs[i])] == recs[i]
    {
      LoadRowsLastWins(wm, recs, i);
    }
    forall k | k in wm && (forall i :: 0 <= i < |recs| ==> StoreKey(recs[i]) != k)
      ensures LoadRows(wm, recs)[k] == wm[k]
    {
      LoadRowsUntouched(wm, recs, k);
    }
  }


  lemma {:induction false} LoadRowsAppend(wm: RowMap, a: seq<AuditRow>, b: seq<AuditRow>)
    ensures LoadRows(wm, a + b) == LoadRows(LoadRows(wm, a), b)
    decreases |b|
  {
    if b != [] {
      var init := b[..|b| - 1];
      assert (a + b)[..|a + b| - 1] == a + init;
      LoadRowsAppend(wm, a, init);
    } else {
      assert a + b == a;
    }
  }

  /**
   * Loading keeps a record matched when every loaded record under its key
   * has its row hash, and it was matched before or some loaded record has
   * its key.
   */
  lemma {:induction false} LoadRowsKeepsMatch(wm: RowMap, recs: seq<AuditRow>, ar: AuditRow)
    requires forall i :: 0 <= i < |recs| && StoreKey(recs[i]) == StoreKey(ar) ==> recs[i].rowHash == ar.rowHash
    requires Matched(ar, wm) || exists i :: 0 <= i < |recs| && StoreKey(recs[i]) == StoreKey(ar)
    ensures Matched(ar, LoadRows(wm, recs))
  {
    if recs != [] {
      var init := recs[..|recs| - 1];
      var last := recs[|recs| - 1];
      if StoreKey(last) != StoreKey(ar) {
        assert forall i :: 0 <= i < |init| ==> init[i] == recs[i];
        if !Matched(ar, wm) {
          var i :| 0 <= i < |recs| && StoreKey(recs[i]) == StoreKey(ar);
          assert i < |init|;
        }
        LoadRowsKeepsMatch(wm, init, ar);
      }
    }
  }

  // ---------------------------------------------------------------------
  // Classifying a row

  /** A table in the table map without key columns stops the run at its first row. */
  lemma NoKeyColumnsIsFatal(env: Env, t: string, row: Row, wm: RowMap)
    requires t in env.tableMap && env.tableMap[t].target.keyColumns == []
    ensures Classify(env, t, row, wm) == Err(EmptyPrimaryKey(t))
  {
    PrimaryKeyEmptyIff(row, [], env.keySeparator);
  }

  /**
   * A matched keyed row removes the entry at its row hash, so the entry at
   * its primary key stays in the working set unless the key is that hash.
   */
  lemma KeyedMatchKeepsKeyEntry(env: Env, t: string, row: Row, wm: RowMap)
    requires t in env.tableMap && Classify(env, t, row, wm).Ok?
    requires !Classify(env, t, row, wm).value.changed
    ensures var pk := KeyOf(env, t, row); var ws := Classify(env, t, row, wm).value.workingSet;
      && (pk != RowHash(env.lib, row) ==> pk in ws && ws[pk] == wm[pk])
      && RowHash(env.lib, row) !in ws
      && |ws| <= |wm|
  {
    var ws := Classify(env, t, row, wm).value.workingSet;
    if RowHash(env.lib, row) in wm {
      assert |ws| == |wm| - 1;
    } else {
      assert ws == wm;
    }
  }

  // ---------------------------------------------------------------------
  // Scanning a table

  /**
   * Every scanned row adds one to the rows processed; every changed row,
   * and only those, adds one to the database changes and to the table's
   * own counter; no other table's counter moves.
   */
  lemma {:induction false} ScanCounts(env: Env, t: string, rows: seq<Row>, wm: RowMap, c: Counts, batch: seq<AuditRow>)
    requires Scan(env, t, rows, wm, c, batch).Ok?
    ensures var out := Scan(env, t, rows, wm, c, batch).value;
      var n := |out.batch| - |batch|;
      && n >= 0
      && out.counts.rowsProcessed == c.rowsProcessed + |rows|
      && out.counts.databaseChanges == c.databaseChanges + n
      && Get(out.counts.tableChanges, t) == Get(c.tableChanges, t) + n
      && forall k :: k != t ==> Get(out.counts.tableChanges, k) == Get(c.tableChanges, k)
    decreases |rows|
  {
    if rows != [] {
      var s := Classify(env, t, NormalizeRow(rows[0]), wm).value;
      var batch1 := if s.changed then batch + [s.record] else batch;
      ScanCounts(env, t, rows[1..], s.workingSet, Count(c, t, s.changed), batch1);
    }
  }

  /** The records of rows after the first are the rest of the records. */
  lemma RecordsTail(env: Env, t: string, rows: seq<Row>)
    requires rows != []
    ensures Records(env, t, rows) == [Build(env, t, NormalizeRow(rows[0]))] + Records(env, t, rows[1..])
  {
    assert forall i :: 1 <= i < |rows| ==> rows[1..][i - 1] == rows[i];
  }

  /** A scan whose first row is classified continues with the rest. */
  lemma ScanUnfold(env: Env, t: string, rows: seq<Row>, wm: RowMap, c: Counts, batch: seq<AuditRow>)
    requires rows != [] && Classify(env, t, NormalizeRow(rows[0]), wm).Ok?
    ensures var s := Classify(env, t, NormalizeRow(rows[0]), wm).value;
      Scan(env, t, rows, wm, c, batch) ==
      Scan(env, t, rows[1..], s.workingSet, Count(c, t, s.changed), if s.changed then batch + [s.record] else batch)
  {
  }

  /** One step of a completed scan: the first row's classification and the scan of the rest. */
  lemma ScanStep(env: Env, t: string, rows: seq<Row>, wm: RowMap, c: Counts, batch: seq<AuditRow>)
    requires rows != [] && Scan(env, t, rows, wm, c, batch).Ok?
    ensures Classify(env, t, NormalizeRow(rows[0]), wm).Ok?
    ensures var s := Classify(env, t, NormalizeRow(rows[0]), wm).value;
      && s.record == Records(env, t, rows)[0]
      && Records(env, t, rows[1..]) == Records(env, t, rows)[1..]
      && Scan(env, t, rows, wm, c, batch) ==
         Scan(env, t, rows[1..], s.workingSet, Count(c, t, s.changed), if s.changed then batch + [s.record] else batch)
  {
    RecordsTail(env, t, rows);
    ScanUnfold(env, t, rows, wm, c, batch);
  }

  /**
   * The batch a scan collects extends the batch it started with by records
   * of the scanned rows, kept in scan order.
   */
  lemma {:induction false} ScanKeepsChangedInOrder(env: Env, t: string, rows: seq<Row>, wm: RowMap, c: Counts, batch: seq<AuditRow>)
    requires Scan(env, t, rows, wm, c, batch).Ok?
    ensures var out := Scan(env, t, rows, wm, c, batch).value.batch;
      && |batch| <= |out|
      && out[..|batch|] == batch
      && Subsequence(out[|batch|..], Records(env, t, rows))
    decreases |rows|
  {
    var out := Scan(env, t, rows, wm, c, batch).value.batch;
    if rows != [] {
      ScanStep(env, t, rows, wm, c, batch);
      var s := Classify(env, t, NormalizeRow(rows[0]), wm).value;
      var batch1 := if s.changed then batch + [s.record] else batch;
      ScanKeepsChangedInOrder(env, t, rows[1..], s.workingSet, Count(c, t, s.changed), batch1);
      var recs := Records(env, t, rows);
      var tail, tail1 := out[|batch|..], out[|batch1|..];
      assert Subsequence(tail1, recs[1..]);
      assert out[..|batch|] == out[..|batch1|][..|batch|];
      if s.changed {
        assert tail[1..] == tail1;
        assert tail[0] == batch1[|batch|] == recs[0];
        SubsequenceKeep(tail, recs);
      } else {
        assert tail == tail1;
        SubsequenceSkip(tail, recs);
      }
    } else {
      assert out[|batch|..] == [];
    }
  }

  /** Every record a scan collects belongs to the scanned table. */
  lemma ScanBatchOfTable(env: Env, t: string, rows: seq<Row>, wm: RowMap, c: Counts)
    requires Scan(env, t, rows, wm, c, []).Ok?
    ensures var out := Scan(env, t, rows, wm, c, []).value.batch;
      forall i :: 0 <= i < |out| ==> out[i] in Records(env, t, rows) && out[i].tableName == t
  {
    var out := Scan(env, t, rows, wm, c, []).value.batch;
    ScanKeepsChangedInOrder(env, t, rows, wm, c, []);
    assert out[0..] == out;
    var recs := Records(env, t, rows);
    SubsequenceMembers(out, recs);
    forall i | 0 <= i < |out|
      ensures out[i] in recs && out[i].tableName == t
    {
      assert out[i] in recs;
      var j :| 0 <= j < |recs| && recs[j] == out[i];
    }
  }

  /**
   * A scan that completes had no fatal row, and every row it did not
   * collect was matched by the working set it started from.
   */
  lemma {:induction false} ScanUnchangedWereStored(env: Env, t: string, rows: seq<Row>, wm: RowMap, c: Counts, batch: seq<AuditRow>)
    requires Scan(env, t, rows, wm, c, batch).Ok?
    ensures forall i :: 0 <= i < |rows| ==> !Fatal(env, t, NormalizeRow(rows[i]))
    ensures |batch| <= |Scan(env, t, rows, wm, c, batch).value.batch|
    ensures var out := Scan(env, t, rows, wm, c, batch).value.batch;
      forall i :: 0 <= i < |rows| ==>
        Records(env, t, rows)[i] in out[|batch|..] || Matched(Records(env, t, rows)[i], wm)
    decreases |rows|
  {
    ScanKeepsChangedInOrder(env, t, rows, wm, c, batch);
    if rows != [] {
      var out := Scan(env, t, rows, wm, c, batch).value.batch;
      var s := Classify(env, t, NormalizeRow(rows[0]), wm).value;
      var c1 := Count(c, t, s.changed);
      var batch1 := if s.changed then batch + [s.record] else batch;
      var rest := rows[1..];
      ScanStep(env, t, rows, wm, c, batch);
      ScanUnchangedWereStored(env, t, rest, s.workingSet, c1, batch1);
      ScanKeepsChangedInOrder(env, t, rest, s.workingSet, c1, batch1);
      var recs := Records(env, t, rows);
      var tail := out[|batch|..];
      assert out[|batch1|..] == tail[|batch1| - |batch|..];
      forall i | 0 <= i < |rows|
        ensures !Fatal(env, t, NormalizeRow(rows[i]))
        ensures recs[i] in tail || Matched(recs[i], wm)
      {
        if i == 0 {
          if s.changed {
            assert tail[0] == batch1[|batch|] == recs[0];
          }
        } else {
          assert rest[i - 1] == rows[i];
          assert Records(env, t, rest)[i - 1] == recs[i];
          if recs[i] !in out[|batch1|..] {
            MatchedShrink(recs[i], wm, s.workingSet);
          }
        }
      }
    }
  }

  /** A record matched by a part of a working set is matched by the whole. */
  lemma MatchedShrink(ar: AuditRow, wm: RowMap, part: RowMap)
    requires part.Keys <= wm.Keys && forall k :: k in part ==> part[k] == wm[k]
    requires Matched(ar, part)
    ensures Matched(ar, wm)
  {
  }

  /** Against an empty working set a row that is not fatal is changed. */
  lemma ClassifyAgainstEmpty(env: Env, t: string, row: Row)
    requires !Fatal(env, t, row)
    ensures Classify(env, t, row, map[]) == Ok(Step(Build(env, t, row), true, map[]))
  {
    assert !Matched(Build(env, t, row), map[]);
  }

  /** A row the working set matches is unchanged and removes the entry at its hash. */
  lemma ClassifyMatched(env: Env, t: string, row: Row, wm: RowMap)
    requires !Fatal(env, t, row) && Matched(Build(env, t, row), wm)
    ensures Classify(env, t, row, wm) == Ok(Step(Build(env, t, row), false, wm - {RowHash(env.lib, row)}))
  {
  }

  /** Scanning against an empty working set finds every row changed. */
  lemma {:induction false} ScanFromEmpty(env: Env, t: string, rows: seq<Row>, c: Counts, batch: seq<AuditRow>)
    requires forall i :: 0 <= i < |rows| ==> !Fatal(env, t, NormalizeRow(rows[i]))
    ensures var r := Scan(env, t, rows, map[], c, batch);
      r.Ok? && r.value.batch == batch + Records(env, t, rows) && r.value.workingSet == map[]
    decreases |rows|
  {
    if rows != [] {
      var s := Classify(env, t, NormalizeRow(rows[0]), map[]).value;
      ClassifyAgainstEmpty(env, t, NormalizeRow(rows[0]));
      ScanUnfold(env, t, rows, map[], c, batch);
      var rest := rows[1..];
      forall i | 0 <= i < |rest|
        ensures !Fatal(env, t, NormalizeRow(rest[i]))
      {
        assert rest[i] == rows[i + 1];
      }
      ScanFromEmpty(env, t, rest, Count(c, t, true), batch + [s.record]);
      RecordsTail(env, t, rows);
      assert (batch + [s.record]) + Records(env, t, rest) == batch + ([s.record] + Records(env, t, rest));
    } else {
      assert batch + [] == batch;
    }
  }

  /** No record's key is the row hash of an earlier record. */
  predicate KeysAvoidEarlierHashes(recs: seq<AuditRow>)
  {
    forall i, j :: 0 <= i < j < |recs| ==> StoreKey(recs[j]) != recs[i].rowHash
  }

  /** Records filed under the same key have the same row hash. */
  predicate SameKeySameHash(recs: seq<AuditRow>)
  {
    forall i, j :: 0 <= i < |recs| && 0 <= j < |recs| && StoreKey(recs[i]) == StoreKey(recs[j]) ==>
      recs[i].rowHash == recs[j].rowHash
  }

  /**
   * When the working set matches every row and no row's key is an earlier
   * row's hash, the scan finds nothing changed and only counts the rows.
   */
  lemma {:induction false} ScanAllMatched(env: Env, t: string, rows: seq<Row>, wm: RowMap, c: Counts, batch: seq<AuditRow>)
    requires forall i :: 0 <= i < |rows| ==> !Fatal(env, t, NormalizeRow(rows[i]))
    requires forall i :: 0 <= i < |rows| ==> Matched(Records(env, t, rows)[i], wm)
    requires KeysAvoidEarlierHashes(Records(env, t, rows))
    ensures var r := Scan(env, t, rows, wm, c, batch);
      r.Ok? && r.value.batch == batch && r.value.counts == c.(rowsProcessed := c.rowsProcessed + |rows|)
    decreases |rows|
  {
    if rows != [] {
      var recs := Records(env, t, rows);
      RecordsTail(env, t, rows);
      assert !Fatal(env, t, NormalizeRow(rows[0])) && Matched(recs[0], wm);
      ClassifyMatched(env, t, NormalizeRow(rows[0]), wm);
      var rest := rows[1..];
      var wm1 := wm - {recs[0].rowHash};
      ScanUnfold(env, t, rows, wm, c, batch);
      assert Records(env, t, rest) == recs[1..];
      forall i | 0 <= i < |rest|
        ensures !Fatal(env, t, NormalizeRow(rest[i]))
      {
        assert rest[i] == rows[i + 1];
      }
      forall i, j | 0 <= i < j < |rest|
        ensures StoreKey(recs[1..][j]) != recs[1..][i].rowHash
      {
        assert recs[1..][j] == recs[j + 1] && recs[1..][i] == recs[i + 1];
      }
      forall i | 0 <= i < |rest|
        ensures Matched(Records(env, t, rest)[i], wm1)
      {
        assert recs[i + 1] == Records(env, t, rest)[i];
        assert StoreKey(recs[i + 1]) != recs[0].rowHash;
      }
      ScanAllMatched(env, t, rest, wm1, Count(c, t, false), batch);
    }
  }

  // ---------------------------------------------------------------------
  // Committing a table

  /** Committing keeps identity, hash and table; stamps the time; drops the dump on the first run only. */
  lemma StampedRecords(batch: seq<AuditRow>, now: string, firstRun: bool)
    ensures |Stamped(batch, now, firstRun)| == |batch|
    ensures forall i :: 0 <= i < |batch| ==> var s := Stamped(batch, now, firstRun)[i];
      && s.tableName == batch[i].tableName
      && s.primaryKey == batch[i].primaryKey
      && s.rowHash == batch[i].rowHash
      && StoreKey(s) == StoreKey(batch[i])
      && s.modified == now
      && (firstRun ==> s.rowDump == GetNull())
      && (!firstRun ==> s.rowDump == batch[i].rowDump)
  {
  }

  /**
   * One table: the store grows by exactly the table's change count, the
   * counters grow as the scan counted, and other tables' counters keep.
   */
  lemma RunTableCounts(env: Env, store: seq<AuditRow>, t: string, rows: seq<Row>, c: Counts, firstRun: bool, now: string)
    requires RunTable(env, store, t, rows, c, firstRun, now).Ok?
    ensures var r := RunTable(env, store, t, rows, c, firstRun, now).value;
      var n := Get(r.counts.tableChanges, t);
      && |r.store| == |store| + n
      && r.store[..|store|] == store
      && (forall k :: |store| <= k < |r.store| ==> r.store[k].tableName == t)
      && r.counts.rowsProcessed == c.rowsProcessed + |rows|
      && r.counts.databaseChanges == c.databaseChanges + n
      && forall k :: k != t ==> Get(r.counts.tableChanges, k) == Get(c.tableChanges, k)
  {
    var wm := LoadRows(map[], TableRecords(store, t));
    var c0 := c.(tableChanges := c.tableChanges[t := 0]);
    ScanCounts(env, t, rows, wm, c0, []);
    ScanBatchOfTable(env, t, rows, wm, c0);
    var r := RunTable(env, store, t, rows, c, firstRun, now).value;
    assert forall k :: k != t ==> Get(c0.tableChanges, k) == Get(c.tableChanges, k);
    assert forall k :: |store| <= k < |r.store| ==> r.store[k] == Stamped(Scan(env, t, rows, wm, c0, []).value.batch, now, firstRun)[k - |store|];
  }

  /**
   * The first audit of a table (no records of it in the store) fails
   * exactly when some row has an empty primary key; otherwise it commits
   * one record per row, in scan order, and counts every row as changed.
   */
  lemma FirstAuditCommitsEveryRow(env: Env, store: seq<AuditRow>, t: string, rows: seq<Row>, c: Counts, firstRun: bool, now: string)
    requires TableRecords(store, t) == []
    ensures RunTable(env, store, t, rows, c, firstRun, now).Ok? <==>
              forall i :: 0 <= i < |rows| ==> !Fatal(env, t, NormalizeRow(rows[i]))
    ensures RunTable(env, store, t, rows, c, firstRun, now).Ok? ==>
              var r := RunTable(env, store, t, rows, c, firstRun, now).value;
              r.store == store + Stamped(Records(env, t, rows), now, firstRun) &&
              Get(r.counts.tableChanges, t) == |rows|
  {
    var c0 := c.(tableChanges := c.tableChanges[t := 0]);
    assert LoadRows(map[], TableRecords(store, t)) == map[];
    if RunTable(env, store, t, rows, c, firstRun, now).Ok? {
      ScanUnchangedWereStored(env, t, rows, map[], c0, []);
      ScanFromEmpty(env, t, rows, c0, []);
      assert [] + Records(env, t, rows) == Records(env, t, rows);
      RunTableCounts(env, store, t, rows, c, firstRun, now);
    } else if forall i :: 0 <= i < |rows| ==> !Fatal(env, t, NormalizeRow(rows[i])) {
      ScanFromEmpty(env, t, rows, c0, []);
    }
  }

  /** Loading a table after a commit of its records files them over the earlier ones. */
  lemma CommitThenLoad(store: seq<AuditRow>, t: string, b: seq<AuditRow>, now: string, firstRun: bool)
    requires forall k :: 0 <= k < |b| ==> b[k].tableName == t
    ensures LoadRows(map[], TableRecords(store + Stamped(b, now, firstRun), t)) ==
            LoadRows(LoadRows(map[], TableRecords(store, t)), Stamped(b, now, firstRun))
  {
    var added := Stamped(b, now, firstRun);
    TableRecordsOfOneTable(added, t);
    TableRecordsAppend(store, added, t);
    LoadRowsAppend(map[], TableRecords(store, t), added);
  }

  /**
   * A row of the run stays matched after the commit: it was committed, or
   * it was matched before and every committed record under its key has its hash.
   */
  lemma RowStillMatched(recs: seq<AuditRow>, b: seq<AuditRow>, wm: RowMap, now: string, firstRun: bool, i: nat)
    requires i < |recs| && SameKeySameHash(recs)
    requires forall k :: 0 <= k < |b| ==> b[k] in recs
    requires recs[i] in b || Matched(recs[i], wm)
    ensures Matched(recs[i], LoadRows(wm, Stamped(b, now, firstRun)))
  {
    var added := Stamped(b, now, firstRun);
    StampedRecords(b, now, firstRun);
    forall k | 0 <= k < |added| && StoreKey(added[k]) == StoreKey(recs[i])
      ensures added[k].rowHash == recs[i].rowHash
    {
      var j :| 0 <= j < |recs| && recs[j] == b[k];
    }
    if recs[i] in b {
      var k :| 0 <= k < |b| && b[k] == recs[i];
      assert StoreKey(added[k]) == StoreKey(recs[i]);
    }
    LoadRowsKeepsMatch(wm, added, recs[i]);
  }

  /**
   * After a table's run, the working set loaded for the next run matches
   * every row of that run, provided rows filed under one key have one hash.
   */
  lemma FirstRunLeavesMatches(env: Env, store: seq<AuditRow>, t: string, rows: seq<Row>,
                              c: Counts, firstRun: bool, now: string)
    requires RunTable(env, store, t, rows, c, firstRun, now).Ok?
    requires SameKeySameHash(Records(env, t, rows))
    ensures var store1 := RunTable(env, store, t, rows, c, firstRun, now).value.store;
      forall i :: 0 <= i < |rows| ==>
        Matched(Records(env, t, rows)[i], LoadRows(map[], TableRecords(store1, t)))
  {
    var recs := Records(env, t, rows);
    var wm1 := LoadRows(map[], TableRecords(store, t));
    var c1 := c.(tableChanges := c.tableChanges[t := 0]);
    var b := Scan(env, t, rows, wm1, c1, []).value.batch;
    ScanUnchangedWereStored(env, t, rows, wm1, c1, []);
    ScanBatchOfTable(env, t, rows, wm1, c1);
    assert b[0..] == b;
    CommitThenLoad(store, t, b, now, firstRun);
    forall i | 0 <= i < |rows|
      ensures Matched(recs[i], LoadRows(wm1, Stamped(b, now, firstRun)))
    {
      RowStillMatched(recs, b, wm1, now, firstRun, i);
    }
  }

  /**
   * A second run over the same rows finds no change and commits nothing,
   * provided rows filed under one key have one hash and no row's key is an
   * earlier row's hash (for a table without key columns: no two rows are
   * identical).
   */
  lemma SecondRunFindsNoChanges(env: Env, store: seq<AuditRow>, t: string, rows: seq<Row>,
                                c: Counts, firstRun: bool, now: string,
                                c2: Counts, firstRun2: bool, now2: string)
    requires RunTable(env, store, t, rows, c, firstRun, now).Ok?
    requires SameKeySameHash(Records(env, t, rows))
    requires KeysAvoidEarlierHashes(Records(env, t, rows))
    ensures var first := RunTable(env, store, t, rows, c, firstRun, now).value;
      var second := RunTable(env, first.store, t, rows, c2, firstRun2, now2);
      && second.Ok?
      && second.value.store == first.store
      && Get(second.value.counts.tableChanges, t) == 0
      && second.value.counts.databaseChanges == c2.databaseChanges
      && second.value.counts.rowsProcessed == c2.rowsProcessed + |rows|
  {
    var store1 := RunTable(env, store, t, rows, c, firstRun, now).value.store;
    var c1 := c.(tableChanges := c.tableChanges[t := 0]);
    ScanUnchangedWereStored(env, t, rows, LoadRows(map[], TableRecords(store, t)), c1, []);
    FirstRunLeavesMatches(env, store, t, rows, c, firstRun, now);
    var wm2 := LoadRows(map[], TableRecords(store1, t));
    var c2z := c2.(tableChanges := c2.tableChanges[t := 0]);
    ScanAllMatched(env, t, rows, wm2, c2z, []);
    assert Stamped([], now2, firstRun2) == [];
    assert store1 + [] == store1;
  }

  /** The second scan of two identical rows of a table without key columns. */
  lemma DuplicateScan(env: Env, t: string, row: Row, stored: AuditRow, c: Counts)
    requires t !in env.tableMap
    ensures var ar := Build(env, t, NormalizeRow(row));
      Scan(env, t, [row, row], map[ar.rowHash := stored], c, []) ==
        Ok(Scanned([ar], map[], Count(Count(c, t, false), t, true)))
  {
    var nr := NormalizeRow(row);
    var ar := Build(env, t, nr);
    var wm := map[ar.rowHash := stored];
    var s1 := Classify(env, t, nr, wm).value;
    assert !s1.changed && s1.workingSet == map[];
    var s2 := Classify(env, t, nr, map[]).value;
    assert s2.changed && s2.record == ar;
    var rows := [row, row];
    assert rows[0] == row && rows[1..] == [row];
    assert Scan(env, t, rows, wm, c, []) == Scan(env, t, [row], wm - {ar.rowHash}, Count(c, t, false), []);
    assert wm - {ar.rowHash} == map[];
    var one := [row];
    assert one[0] == row && one[1..] == [];
    assert [] + [ar] == [ar];
    assert Scan(env, t, one, map[], Count(c, t, false), []) ==
           Scan(env, t, [], map[], Count(Count(c, t, false), t, true), [ar]);
  }

  /** The first audit of two identical unkeyed rows commits both. */
  lemma DuplicateFirstRun(env: Env, store: seq<AuditRow>, t: string, row: Row, c: Counts, firstRun: bool, now: string)
    requires t !in env.tableMap
    requires TableRecords(store, t) == []
    ensures var ar := Build(env, t, NormalizeRow(row));
      var first := RunTable(env, store, t, [row, row], c, firstRun, now);
      first.Ok? && first.value.store == store + Stamped([ar, ar], now, firstRun)
  {
    var rows := [row, row];
    FirstAuditCommitsEveryRow(env, store, t, rows, c, firstRun, now);
    assert Records(env, t, rows) == [Build(env, t, NormalizeRow(row)), Build(env, t, NormalizeRow(row))];
  }

  /** Loading two committed copies of one unkeyed record files one entry, at its hash. */
  lemma LoadTwoCopies(store: seq<AuditRow>, t: string, ar: AuditRow, now: string, firstRun: bool)
    requires TableRecords(store, t) == []
    requires ar.tableName == t && !ar.primaryKey.valid
    ensures LoadRows(map[], TableRecords(store + Stamped([ar, ar], now, firstRun), t)) ==
            map[ar.rowHash := Stamp(ar, now, firstRun)]
  {
    LoadIntoEmptyTable(store, t, [ar, ar], now, firstRun);
    StampedTwice(ar, now, firstRun);
    LoadTwice(Stamp(ar, now, firstRun));
  }

  /** A table with no records before a commit loads exactly the committed batch. */
  lemma LoadIntoEmptyTable(store: seq<AuditRow>, t: string, b: seq<AuditRow>, now: string, firstRun: bool)
    requires TableRecords(store, t) == []
    requires forall k :: 0 <= k < |b| ==> b[k].tableName == t
    ensures LoadRows(map[], TableRecords(store + Stamped(b, now, firstRun), t)) == LoadRows(map[], Stamped(b, now, firstRun))
  {
    CommitThenLoad(store, t, b, now, firstRun);
  }

  lemma StampedTwice(ar: AuditRow, now: string, firstRun: bool)
    ensures Stamped([ar, ar], now, firstRun) == [Stamp(ar, now, firstRun), Stamp(ar, now, firstRun)]
  {
  }

  /** Filing the same record twice leaves one entry. */
  lemma LoadTwice(st: AuditRow)
    ensures LoadRows(map[], [st, st]) == map[StoreKey(st) := st]
  {
    assert [st, st][..1] == [st] && [st][..0] == [];
    calc {
      LoadRows(map[], [st, st]);
      LoadRows(map[], [st])[StoreKey(st) := st];
      (map[][StoreKey(st) := st])[StoreKey(st) := st];
    }
  }

  /**
   * Two identical rows in a table without key columns are both committed
   * on the first audit, and one of them is reported changed again on the
   * next run: the working set holds their hash once, and the first row
   * removes it.
   */
  lemma DuplicateRowChangesNextRun(env: Env, store: seq<AuditRow>, t: string, row: Row,
                                    c: Counts, firstRun: bool, now: string, c2: Counts, now2: string)
    requires t !in env.tableMap
    requires TableRecords(store, t) == []
    ensures var first := RunTable(env, store, t, [row, row], c, firstRun, now);
      && first.Ok?
      && |first.value.store| == |store| + 2
      && var second := RunTable(env, first.value.store, t, [row, row], c2, false, now2);
      && second.Ok?
      && Get(second.value.counts.tableChanges, t) == 1
      && |second.value.store| == |first.value.store| + 1
  {
    var ar := Build(env, t, NormalizeRow(row));
    DuplicateFirstRun(env, store, t, row, c, firstRun, now);
    var store1 := store + Stamped([ar, ar], now, firstRun);
    LoadTwoCopies(store, t, ar, now, firstRun);
    DuplicateSecondRun(env, store1, t, row, Stamp(ar, now, firstRun), c2, now2);
  }

  /** The run after two identical unkeyed rows were committed: the hash entry serves the first row only. */
  lemma DuplicateSecondRun(env: Env, store1: seq<AuditRow>, t: string, row: Row, stored: AuditRow, c2: Counts, now2: string)
    requires t !in env.tableMap
    requires LoadRows(map[], TableRecords(store1, t)) == map[Build(env, t, NormalizeRow(row)).rowHash := stored]
    ensures var second := RunTable(env, store1, t, [row, row], c2, false, now2);
      && second.Ok?
      && Get(second.value.counts.tableChanges, t) == 1
      && second.value.store == store1 + [Stamp(Build(env, t, NormalizeRow(row)), now2, false)]
  {
    var ar := Build(env, t, NormalizeRow(row));
    var c2z := c2.(tableChanges := c2.tableChanges[t := 0]);
    DuplicateScan(env, t, row, stored, c2z);
    assert Stamped([ar], now2, false) == [Stamp(ar, now2, false)];
    assert Get(Count(Count(c2z, t, false), t, true).tableChanges, t) == 1;
  }

  /**
   * Two identical rows of a table without key columns have one key and one
   * hash, yet the second row's key is the first row's hash: they meet the
   * first condition of `SecondRunFindsNoChanges` and break the second.
   */
  lemma DuplicatesBreakKeyHashCondition(env: Env, t: string, row: Row)
    requires t !in env.tableMap
    ensures SameKeySameHash(Records(env, t, [row, row]))
    ensures !KeysAvoidEarlierHashes(Records(env, t, [row, row]))
  {
    var recs := Records(env, t, [row, row]);
    assert recs[0] == recs[1];
    assert StoreKey(recs[1]) == recs[0].rowHash;
  }

  // ---------------------------------------------------------------------
  // A whole run

  /**
   * A run only appends to the store, and everything it appends belongs to
   * one of the tables it was still to process. In particular a run that
   * stops at a table keeps what earlier tables committed.
   */
  lemma {:induction false} RunStoreGrows(env: Env, store: seq<AuditRow>, names: seq<string>, i: nat,
                                         source: string -> seq<Row>, wm: RowMap, c: Counts,
                                         firstRun: bool, clock: nat -> string)
    requires i <= |names|
    ensures var o := Run(env, store, names, i, source, wm, c, firstRun, clock);
      && |store| <= |o.store|
      && o.store[..|store|] == store
      && forall k :: |store| <= k < |o.store| ==> o.store[k].tableName in names[i..]
    decreases |names| - i
  {
    if i < |names| {
      var t := names[i];
      var r := RunTable(env, store, t, source(t), c, firstRun, clock(i));
      if r.Ok? {
        RunTableCounts(env, store, t, source(t), c, firstRun, clock(i));
        RunStoreGrows(env, r.value.store, names, i + 1, source, r.value.workingSet, r.value.counts, firstRun, clock);
        var o := Run(env, store, names, i, source, wm, c, firstRun, clock);
        assert o == Run(env, r.value.store, names, i + 1, source, r.value.workingSet, r.value.counts, firstRun, clock);
        assert o.store[..|r.value.store|] == r.value.store;
        assert o.store[..|store|] == r.value.store[..|store|];
        forall k | |store| <= k < |o.store|
          ensures o.store[k].tableName in names[i..]
        {
          if k < |r.value.store| {
            assert o.store[k] == r.value.store[k];
            assert names[i..][0] == t;
          } else {
            assert names[i + 1..] == names[i..][1..];
          }
        }
      }
    }
  }

  // ---------------------------------------------------------------------
  // History

  /**
   * The history of a run: one row per table in the given order, then the
   * database changes, the rows processed and the execution time; all with
   * one timestamp, and each count reads back as the counter it renders.
   */
  lemma HistoryRowsShape(ts: string, names: seq<string>, c: Counts, executionTime: string)
    ensures var h := HistoryRows(ts, names, c, executionTime);
      && |h| == |names| + 3
      && (forall i :: 0 <= i < |h| ==> h[i].executionTimestamp == ts)
      && (forall i :: 0 <= i < |names| ==>
            h[i].key == "Table " + names[i] && ParseDecimal(h[i].value) == Get(c.tableChanges, names[i]))
      && h[|names|].key == "Database changes" && ParseDecimal(h[|names|].value) == c.databaseChanges
      && h[|names| + 1].key == "Rows processed" && ParseDecimal(h[|names| + 1].value) == c.rowsProcessed
      && h[|names| + 2].key == "Execution time" && h[|names| + 2].value == executionTime
  {
    var h := HistoryRows(ts, names, c, executionTime);
    forall i | 0 <= i < |names|
      ensures ParseDecimal(h[i].value) == Get(c.tableChanges, names[i])
    {
      DecimalRoundTrip(Get(c.tableChanges, names[i]));
    }
    DecimalRoundTrip(c.databaseChanges);
    DecimalRoundTrip(c.rowsProcessed);
  }
}
