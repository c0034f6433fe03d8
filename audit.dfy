/**
 * The audit engine of audit.go as it runs: the package state (configuration,
 * table map, working set, first-run flag, and the audit database's two
 * tables) is the state of an `Auditor`, and the run counters are a `Meta`.
 * Each method changes that state step by step, as the engine does, and is
 * proved to end in the state the functions of Model describe.
 */
module Audit {
  import opened Scalars
  import opened Format
  import opened Canon
  import opened Model
  import opened Order

  /** One more name gives one more "Table" history row. */
  lemma TableHistoryExtend(ts: string, names: seq<string>, tc: map<string, int>, i: nat)
    requires i < |names|
    ensures TableHistory(ts, names[..i + 1], tc) ==
            TableHistory(ts, names[..i], tc) + [HistoryRow(ts, "Table " + names[i], Decimal(Get(tc, names[i])))]
  {
    var a := TableHistory(ts, names[..i + 1], tc);
    var b := TableHistory(ts, names[..i], tc) + [HistoryRow(ts, "Table " + names[i], Decimal(Get(tc, names[i])))];
    assert |a| == |b|;
    forall k | 0 <= k < |a|
      ensures a[k] == b[k]
    {
      if k < i {
        assert names[..i + 1][k] == names[..i][k];
      }
    }
  }

  /** One more store record seen by tableStart: filed when it belongs to the table, skipped otherwise. */
  lemma TableRecordsStep(wm: RowMap, store: seq<AuditRow>, t: string, i: nat)
    requires i < |store|
    ensures var ar := store[i];
      LoadRows(wm, TableRecords(store[..i + 1], t)) ==
      if ar.tableName == t then LoadRows(wm, TableRecords(store[..i], t))[StoreKey(ar) := ar]
      else LoadRows(wm, TableRecords(store[..i], t))
  {
    assert store[..i + 1][..i] == store[..i];
    var recs := TableRecords(store[..i], t);
    if store[i].tableName == t {
      assert TableRecords(store[..i + 1], t) == recs + [store[i]];
      assert (recs + [store[i]])[..|recs|] == recs;
    } else {
      assert TableRecords(store[..i + 1], t) == recs;
    }
  }

  /** Three appends after a prefix, regrouped (kept apart to keep Finished's proof small). */
  lemma AppendThree<T>(a: seq<T>, b: seq<T>, x: T, y: T, z: T)
    ensures a + b + [x] + [y] + [z] == a + (b + [x, y, z])
  {
  }

  /** A run over tables i.. continues with table i + 1 after table i commits. */
  lemma RunCommitted(env: Env, store: seq<AuditRow>, names: seq<string>, i: nat, source: string -> seq<Row>,
                     wm: RowMap, c: Counts, firstRun: bool, clock: nat -> string, r: Committed)
    requires i < |names|
    requires RunTable(env, store, names[i], source(names[i]), c, firstRun, clock(i)) == Ok(r)
    ensures Run(env, store, names, i, source, wm, c, firstRun, clock) ==
            Run(env, r.store, names, i + 1, source, r.workingSet, r.counts, firstRun, clock)
  {
  }

  /** A run over tables i.. stops at table i when that table is fatal. */
  lemma RunStopped(env: Env, store: seq<AuditRow>, names: seq<string>, i: nat, source: string -> seq<Row>,
                   wm: RowMap, c: Counts, firstRun: bool, clock: nat -> string, e: Error)
    requires i < |names|
    requires RunTable(env, store, names[i], source(names[i]), c, firstRun, clock(i)) == Err(e)
    ensures Run(env, store, names, i, source, wm, c, firstRun, clock) == Outcome(store, wm, c, Some(e))
  {
  }

  /** The counters of one audit run. */
  class Meta {
    var rowsProcessed: int
    var databaseChanges: int
    var tableChanges: map<string, int>
    /** The run's duration in nanoseconds. */
    var executionTime: int

    /** Meta{}: every counter zero, no table counted yet. */
    constructor()
      ensures Snapshot() == Counts(0, 0, map[]) && executionTime == 0
    {
      rowsProcessed := 0;
      databaseChanges := 0;
      tableChanges := map[];
      executionTime := 0;
    }

    function Snapshot(): Counts
      reads this
    {
      Counts(rowsProcessed, databaseChanges, tableChanges)
    }
  }

  class Auditor {
    /** json.Marshal, md5.Sum and the rendering of a duration. */
    const lib: Library
    var config: Config
    var tableMap: TableMap
    /** The working set of the table being audited. */
    var rowMap: RowMap
    var firstRun: bool
    /** The audit table, in insertion order. */
    var store: seq<AuditRow>
    /** The history table, in insertion order. */
    var history: seq<HistoryRow>

    /** The engine before main runs: the default configuration over an existing audit database. */
    constructor(lib: Library, store: seq<AuditRow>, history: seq<HistoryRow>)
      ensures this.lib == lib && this.store == store && this.history == history
      ensures config == DefaultConfig && tableMap == map[] && rowMap == map[] && !firstRun
    {
      this.lib := lib;
      this.store := store;
      this.history := history;
      config := DefaultConfig;
      tableMap := map[];
      rowMap := map[];
      firstRun := false;
    }

    /** What classifying a row depends on in the current state. */
    function Env(): Env
      reads this
    {
      Model.Env(tableMap, config.keySeparator, lib)
    }

    /**
     * Config.load: the decoded configuration file, when there is one,
     * replaces the configuration, and the table map is rebuilt with one
     * entry per configured table.
     */
    method Load(file: Option<Config>)
      modifies this`config, this`tableMap
      ensures config == if file.Some? then file.value else old(config)
      ensures tableMap == TableMapOf(ConfiguredTables(config))
    {
      if file.Some? {
        config := file.value;
      }
      tableMap := map[];
      var ts := ConfiguredTables(config);
      for i := 0 to |ts|
        modifies this`tableMap
        invariant tableMap == TableMapOf(ts[..i])
      {
        assert ts[..i + 1][..i] == ts[..i];
        tableMap := tableMap[ts[i].tableName := TableMapItem(ts[i], "")];
      }
      assert ts[..|ts|] == ts;
    }

    /** initAudit: whether the audit table is empty. */
    method InitAudit() returns (empty: bool)
      ensures empty <==> |store| == 0
    {
      var auditCount := |store|;
      empty := auditCount == 0;
    }

    /**
     * getTables: the configured table names in configuration order, or,
     * when no table list is configured, every table of the catalog.
     */
    method GetTables(catalog: seq<string>) returns (names: seq<string>)
      ensures names == TableNamesOf(config, catalog)
      ensures config.tables.None? ==> names == catalog
      ensures config.tables.Some? ==> var ts := config.tables.value;
        |names| == |ts| && forall i :: 0 <= i < |ts| ==> names[i] == ts[i].tableName
    {
      if config.tables.Some? {
        var ts := config.tables.value;
        names := [];
        for i := 0 to |ts|
          invariant |names| == i
          invariant forall j :: 0 <= j < i ==> names[j] == ts[j].tableName
        {
          names := names + [ts[i].tableName];
        }
      } else {
        names := catalog;
      }
    }

    /**
     * tableStart: every audit record of the table, in insertion order, is
     * filed into the working set under its primary key when it has one and
     * under its row hash otherwise; a later record replaces an earlier one.
     */
    method TableStart(t: string)
      modifies this`rowMap
      ensures rowMap == LoadRows(old(rowMap), TableRecords(store, t))
    {
      for i := 0 to |store|
        invariant rowMap == LoadRows(old(rowMap), TableRecords(store[..i], t))
      {
        var ar := store[i];
        TableRecordsStep(old(rowMap), store, t, i);
        if ar.tableName == t {
          if ar.primaryKey.valid {
            rowMap := rowMap[ar.primaryKey.str := ar];
          } else {
            rowMap := rowMap[ar.rowHash := ar];
          }
        }
      }
      assert store[..|store|] == store;
    }

    /** The primary key processRow builds: each key column formatted, joined by the separator. */
    method BuildKey(t: string, row: Row) returns (primaryKey: string)
      requires t in tableMap
      ensures primaryKey == KeyOf(Env(), t, row)
    {
      var columns := tableMap[t].target.keyColumns;
      var parts := new string[|columns|];
      for i := 0 to |columns|
        invariant forall j :: 0 <= j < i ==> parts[j] == FormatValue(Lookup(row, columns[j]))
      {
        parts[i] := FormatValue(Lookup(row, columns[i]));
      }
      assert parts[..] == KeyParts(row, columns);
      primaryKey := Join(parts[..], config.keySeparator);
    }

    /**
     * processRow: counts the row, builds its primary key when the table has
     * key columns (an empty key stops the run), dumps and hashes it, and
     * decides whether it changed; an unchanged row's ROW HASH entry leaves
     * the working set, and a changed row is counted for the database and
     * for its table.
     */
    method ProcessRow(t: string, row: Row, meta: Meta) returns (ar: AuditRow, changed: bool, fatal: Option<Error>)
      modifies this`rowMap, meta
      ensures meta.rowsProcessed == old(meta.rowsProcessed) + 1
      ensures meta.executionTime == old(meta.executionTime)
      ensures var r := Classify(Env(), t, row, old(rowMap));
        && (fatal.Some? <==> r.Err?)
        && (r.Err? ==> fatal == Some(r.error) && rowMap == old(rowMap))
        && (r.Ok? ==>
              && ar == r.value.record && changed == r.value.changed
              && rowMap == r.value.workingSet
              && meta.Snapshot() == Count(old(meta.Snapshot()), t, changed))
    {
      meta.rowsProcessed := meta.rowsProcessed + 1;
      fatal := None;

      var primaryKey := "";
      var hasPrimaryKey := false;
      if t in tableMap {
        primaryKey := BuildKey(t, row);
        if primaryKey == "" {
          assert Fatal(Env(), t, row);
          ar, changed, fatal := AuditRow(t, GetNull(), "", GetNull(), ""), false, Some(EmptyPrimaryKey(t));
          return;
        }
        hasPrimaryKey := true;
      }

      var dump := lib.marshal(row);
      ar := AuditRow(t, GetNull(), Hex(lib.md5(dump)), GetNullString(BytesToString(dump)), "");

      if hasPrimaryKey {
        ar := ar.(primaryKey := GetNullString(primaryKey));
        assert ar == Build(Env(), t, row) && !Fatal(Env(), t, row);
        if primaryKey in rowMap && rowMap[primaryKey].rowHash == ar.rowHash {
          rowMap := rowMap - {ar.rowHash};
          changed := false;
          return;
        }
      } else {
        assert ar == Build(Env(), t, row) && !Fatal(Env(), t, row);
        if ar.rowHash in rowMap {
          rowMap := rowMap - {ar.rowHash};
          changed := false;
          return;
        }
      }
      assert !Matched(ar, rowMap);

      meta.databaseChanges := meta.databaseChanges + 1;
      meta.tableChanges := meta.tableChanges[t := Get(meta.tableChanges, t) + 1];
      changed := true;
    }

    /**
     * tableFinished: the batch is appended in one transaction, each record
     * stamped with the commit time and, on the first run, stripped of its
     * dump.
     */
    method TableFinished(t: string, batch: seq<AuditRow>, now: string)
      modifies this`store
      ensures store == old(store) + Stamped(batch, now, firstRun)
    {
      var tx: seq<AuditRow> := [];
      for i := 0 to |batch|
        invariant |tx| == i
        invariant forall j :: 0 <= j < i ==> tx[j] == Stamp(batch[j], now, firstRun)
      {
        var ar := batch[i];
        ar := ar.(modified := now);
        if firstRun {
          ar := ar.(rowDump := GetNull());
        }
        tx := tx + [ar];
      }
      assert tx == Stamped(batch, now, firstRun);
      store := store + tx;
    }

    /** insertHistoryRow: one row appended to the history table. */
    method InsertHistoryRow(executionTimestamp: string, key: string, value: string)
      modifies this`history
      ensures history == old(history) + [HistoryRow(executionTimestamp, key, value)]
    {
      history := history + [HistoryRow(executionTimestamp, key, value)];
    }

    /**
     * finished: with a positive history flag, one row per counted table in
     * ascending name order, then the database change count, the row count
     * and the execution time, all under one timestamp; otherwise nothing.
     */
    method Finished(meta: Meta, historyFlag: int, now: string)
      modifies this`history
      ensures historyFlag > 0 ==>
        history == old(history) +
          HistoryRows(now, SortedSeq(meta.tableChanges.Keys), meta.Snapshot(), lib.formatDuration(meta.executionTime))
      ensures historyFlag <= 0 ==> history == old(history)
    {
      if historyFlag > 0 {
        var keys := SortedKeys(meta.tableChanges.Keys);
        ghost var h0 := history;
        for i := 0 to |keys|
          invariant history == h0 + TableHistory(now, keys[..i], meta.tableChanges)
        {
          var v := meta.tableChanges[keys[i]];
          TableHistoryExtend(now, keys, meta.tableChanges, i);
          InsertHistoryRow(now, "Table " + keys[i], Decimal(v));
        }
        assert keys[..|keys|] == keys;
        ghost var tables := TableHistory(now, keys, meta.tableChanges);
        var d := HistoryRow(now, "Database changes", Decimal(meta.databaseChanges));
        var r := HistoryRow(now, "Rows processed", Decimal(meta.rowsProcessed));
        var e := HistoryRow(now, "Execution time", lib.formatDuration(meta.executionTime));
        InsertHistoryRow(d.executionTimestamp, d.key, d.value);
        InsertHistoryRow(r.executionTimestamp, r.key, r.value);
        InsertHistoryRow(e.executionTimestamp, e.key, e.value);
        AppendThree(h0, tables, d, r, e);
        assert HistoryRows(now, keys, meta.Snapshot(), lib.formatDuration(meta.executionTime)) == tables + [d, r, e];
      }
    }

    /**
     * The row loop of mapTableRows: each row, in scan order, is converted
     * by MapBytesToString and handed to processRow, and the changed records
     * are collected in that order. A fatal row stops the loop.
     */
    method ScanRows(t: string, rows: seq<Row>, meta: Meta) returns (batch: seq<AuditRow>, fatal: Option<Error>)
      modifies this`rowMap, meta
      ensures meta.executionTime == old(meta.executionTime)
      ensures var s := Scan(Env(), t, rows, old(rowMap), old(meta.Snapshot()), []);
        && (fatal.Some? <==> s.Err?)
        && (s.Err? ==> fatal == Some(s.error))
        && (s.Ok? ==> batch == s.value.batch && rowMap == s.value.workingSet && meta.Snapshot() == s.value.counts)
    {
      batch := [];
      fatal := None;
      ghost var env := Env();
      for j := 0 to |rows|
        invariant meta.executionTime == old(meta.executionTime)
        invariant env == Env()
        invariant Scan(env, t, rows[j..], rowMap, meta.Snapshot(), batch) ==
                  Scan(env, t, rows, old(rowMap), old(meta.Snapshot()), [])
      {
        assert rows[j..][0] == rows[j] && rows[j..][1..] == rows[j + 1..];
        var rowData := MapBytesToString(rows[j]);
        var ar, changed, err := ProcessRow(t, rowData, meta);
        if err.Some? {
          fatal := err;
          return;
        }
        if changed {
          batch := batch + [ar];
        }
      }
      assert rows[|rows|..] == [];
    }

    /**
     * One pass of mapTableRows' table loop: a fresh working set loaded from
     * the audit table, the table's change counter set to 0, the scan of its
     * rows, and the commit of the changed ones at `now`. A fatal row stops
     * before the commit.
     */
    method AuditTable(t: string, rows: seq<Row>, meta: Meta, now: string) returns (fatal: Option<Error>)
      modifies this`rowMap, this`store, meta
      ensures meta.executionTime == old(meta.executionTime)
      ensures var r := RunTable(Env(), old(store), t, rows, old(meta.Snapshot()), firstRun, now);
        && (fatal.Some? <==> r.Err?)
        && (r.Err? ==> fatal == Some(r.error) && store == old(store))
        && (r.Ok? ==> store == r.value.store && rowMap == r.value.workingSet && meta.Snapshot() == r.value.counts)
    {
      ghost var c := meta.Snapshot();
      rowMap := map[];
      meta.tableChanges := meta.tableChanges[t := 0];
      TableStart(t);
      ghost var wm0, c0 := rowMap, meta.Snapshot();
      assert wm0 == LoadRows(map[], TableRecords(store, t));
      assert c0 == c.(tableChanges := c.tableChanges[t := 0]);
      var batch;
      batch, fatal := ScanRows(t, rows, meta);
      if fatal.Some? {
        return;
      }
      TableFinished(t, batch, now);
    }

    /**
     * mapTableRows: the tables in order, each audited and committed at
     * clock(i); a fatal row stops the run, keeping the earlier tables'
     * commits.
     */
    method MapTableRows(meta: Meta, catalog: seq<string>, source: string -> seq<Row>, clock: nat -> string)
      returns (err: Option<Error>)
      modifies this`rowMap, this`store, meta
      ensures meta.executionTime == old(meta.executionTime)
      ensures var o := Run(Env(), old(store), TableNamesOf(config, catalog), 0, source,
                           old(rowMap), old(meta.Snapshot()), firstRun, clock);
        && store == o.store && err == o.error
        && (err.None? ==> rowMap == o.workingSet && meta.Snapshot() == o.counts)
    {
      var names := GetTables(catalog);
      ghost var env := Env();
      for i := 0 to |names|
        invariant Env() == env
        invariant meta.executionTime == old(meta.executionTime)
        invariant Run(env, store, names, i, source, rowMap, meta.Snapshot(), firstRun, clock) ==
                  Run(env, old(store), names, 0, source, old(rowMap), old(meta.Snapshot()), firstRun, clock)
      {
        var t := names[i];
        ghost var wm, c, store0 := rowMap, meta.Snapshot(), store;
        var fatal := AuditTable(t, source(t), meta, clock(i));
        ghost var r := RunTable(env, store0, t, source(t), c, firstRun, clock(i));
        if fatal.Some? {
          RunStopped(env, store0, names, i, source, wm, c, firstRun, clock, fatal.value);
          err := fatal;
          return;
        }
        RunCommitted(env, store0, names, i, source, wm, c, firstRun, clock, r.value);
      }
      err := None;
    }

    /**
     * The audit branch of main: fresh counters, the first-run flag from the
     * audit table, every table audited, the elapsed time recorded, and the
     * history written when asked for. A fatal row ends the process before
     * the history is written.
     */
    method RunAudit(catalog: seq<string>, source: string -> seq<Row>, clock: nat -> string,
                    elapsed: int, historyFlag: int, now: string) returns (err: Option<Error>)
      modifies this
      ensures config == old(config) && tableMap == old(tableMap)
      ensures firstRun <==> |old(store)| == 0
      ensures var o := Run(Env(), old(store), TableNamesOf(config, catalog), 0, source,
                           old(rowMap), Counts(0, 0, map[]), firstRun, clock);
        && store == o.store && err == o.error
        && (err.Some? || historyFlag <= 0 ==> history == old(history))
        && (err.None? && historyFlag > 0 ==>
              history == old(history) +
                HistoryRows(now, SortedSeq(o.counts.tableChanges.Keys), o.counts, lib.formatDuration(elapsed)))
    {
      var meta := new Meta();
      firstRun := InitAudit();
      err := MapTableRows(meta, catalog, source, clock);
      if err.Some? {
        return;
      }
      meta.executionTime := elapsed;
      Finished(meta, historyFlag, now);
    }
  }
}
