/**
 * The audit engine of audit.go on values: the records and configuration it
 * works with, and one function per step of a run (load the working set,
 * classify a row, scan a table, commit its batch, run every table, record
 * history). The classes in Audit carry out the same steps in place and are
 * proved equal to these functions.
 */
module Model {
  import opened Scalars
  import opened Format
  import opened Canon

  datatype Option<T> = None | Some(value: T)

  /** Why a run stops (log.Fatal in the engine). */
  datatype Error = EmptyPrimaryKey(tableName: string)

  datatype Result<T> = Ok(value: T) | Err(error: Error)

  /** One row of the audit table. */
  datatype AuditRow = AuditRow(
    tableName: string,
    primaryKey: NullString,
    rowHash: string,
    rowDump: NullString,
    modified: string)

  /** One row of the history table. */
  datatype HistoryRow = HistoryRow(executionTimestamp: string, key: string, value: string)

  /** A table named in the configuration, with its key columns. */
  datatype TargetTable = TargetTable(tableName: string, keyColumns: seq<string>)

  datatype TableMapItem = TableMapItem(target: TargetTable, primaryKey: string)

  /** The working set: previously audited rows by primary key or row hash. */
  type RowMap = map<string, AuditRow>

  type TableMap = map<string, TableMapItem>

  /** The configuration the engine reads; `tables` is None for a nil table list. */
  datatype Config = Config(keySeparator: string, tables: Option<seq<TargetTable>>)

  const DefaultKeySeparator: string := "|"

  /** The built-in configuration, used when no configuration file exists. */
  const DefaultConfig: Config := Config(DefaultKeySeparator, None)

  /** What classifying a row depends on besides the row and the working set. */
  datatype Env = Env(tableMap: TableMap, keySeparator: string, lib: Library)

  /** The counters of Meta. */
  datatype Counts = Counts(rowsProcessed: int, databaseChanges: int, tableChanges: map<string, int>)

  /** Reading a Go map of ints: a missing key reads as 0. */
  function Get(m: map<string, int>, k: string): int
  {
    if k in m then m[k] else 0
  }

  // ---------------------------------------------------------------------
  // Configuration

  function ConfiguredTables(c: Config): seq<TargetTable>
  {
    match c.tables
    case None => []
    case Some(ts) => ts
  }

  /** The table map built from the configured tables; a later entry replaces an earlier one. */
  function TableMapOf(ts: seq<TargetTable>): TableMap
  {
    if ts == [] then map[]
    else TableMapOf(ts[..|ts| - 1])[ts[|ts| - 1].tableName := TableMapItem(ts[|ts| - 1], "")]
  }

  /** The tables to audit: the configured ones, or the catalog's when none are configured. */
  function TableNamesOf(c: Config, catalog: seq<string>): seq<string>
  {
    match c.tables
    case None => catalog
    case Some(ts) => seq(|ts|, i requires 0 <= i < |ts| => ts[i].tableName)
  }

  // ---------------------------------------------------------------------
  // Loading the working set

  /** The key a stored record is filed under in the working set. */
  function StoreKey(ar: AuditRow): string
  {
    if ar.primaryKey.valid then ar.primaryKey.str else ar.rowHash
  }

  /** The audit records of one table, in the order they were appended (SQLite's rowid order). */
  function TableRecords(store: seq<AuditRow>, t: string): (recs: seq<AuditRow>)
    ensures |recs| <= |store|
    ensures forall i :: 0 <= i < |recs| ==> recs[i].tableName == t
  {
    if store == [] then []
    else
      var last := store[|store| - 1];
      TableRecords(store[..|store| - 1], t) + (if last.tableName == t then [last] else [])
  }

  /** The working set after filing `recs` into `wm` one after another. */
  function LoadRows(wm: RowMap, recs: seq<AuditRow>): RowMap
  {
    if recs == [] then wm
    else LoadRows(wm, recs[..|recs| - 1])[StoreKey(recs[|recs| - 1]) := recs[|recs| - 1]]
  }

  // ---------------------------------------------------------------------
  // Classifying one row

  /** The primary key of a row of a table that is in the table map. */
  function KeyOf(env: Env, t: string, row: Row): string
    requires t in env.tableMap
  {
    PrimaryKey(row, env.tableMap[t].target.keyColumns, env.keySeparator)
  }

  /** Whether processing this row stops the run: a keyed table and an empty key. */
  predicate Fatal(env: Env, t: string, row: Row)
  {
    t in env.tableMap && KeyOf(env, t, row) == ""
  }

  /** The audit record built for a row (Modified is set only when committing). */
  function Build(env: Env, t: string, row: Row): AuditRow
  {
    AuditRow(
      t,
      if t in env.tableMap then GetNullString(KeyOf(env, t, row)) else GetNull(),
      RowHash(env.lib, row),
      GetNullString(RowDump(env.lib, row)),
      "")
  }

  /**
   * Whether the working set vouches for the record: for a keyed record an
   * entry at its key with the same row hash, otherwise an entry at its hash.
   */
  predicate Matched(ar: AuditRow, wm: RowMap)
  {
    if ar.primaryKey.valid then ar.primaryKey.str in wm && wm[ar.primaryKey.str].rowHash == ar.rowHash
    else ar.rowHash in wm
  }

  datatype Step = Step(record: AuditRow, changed: bool, workingSet: RowMap)

  /**
   * processRow without the counters. A matched row is unchanged and the
   * entry at its ROW HASH is removed from the working set (for a keyed
   * table that is not the entry that matched, which stays).
   */
  function Classify(env: Env, t: string, row: Row, wm: RowMap): (r: Result<Step>)
    ensures r.Err? <==> Fatal(env, t, row)
    ensures r.Err? ==> r.error == EmptyPrimaryKey(t)
    ensures r.Ok? ==> var s := r.value;
      && s.record.tableName == t
      && s.record.rowDump == GetNullString(RowDump(env.lib, row))
      && s.record.rowHash == RowHash(env.lib, row)
      && s.record.modified == ""
    ensures r.Ok? && t in env.tableMap ==> var s := r.value; var pk := KeyOf(env, t, row);
      && s.record.primaryKey == GetNullString(pk)
      && (!s.changed <==> pk in wm && wm[pk].rowHash == RowHash(env.lib, row))
    ensures r.Ok? && t !in env.tableMap ==> var s := r.value;
      && s.record.primaryKey == GetNull()
      && (!s.changed <==> RowHash(env.lib, row) in wm)
    ensures r.Ok? ==> var s := r.value;
      s.workingSet == if s.changed then wm else wm - {RowHash(env.lib, row)}
  {
    if Fatal(env, t, row) then Err(EmptyPrimaryKey(t))
    else
      var ar := Build(env, t, row);
      if Matched(ar, wm) then Ok(Step(ar, false, wm - {ar.rowHash}))
      else Ok(Step(ar, true, wm))
  }

  /** The counters after one processed row. */
  function Count(c: Counts, t: string, changed: bool): Counts
  {
    if changed then
      Counts(c.rowsProcessed + 1, c.databaseChanges + 1, c.tableChanges[t := Get(c.tableChanges, t) + 1])
    else
      c.(rowsProcessed := c.rowsProcessed + 1)
  }

  // ---------------------------------------------------------------------
  // Scanning and committing a table

  datatype Scanned = Scanned(batch: seq<AuditRow>, workingSet: RowMap, counts: Counts)

  /**
   * The scan of a table's rows in order: each raw row is normalised,
   * classified, counted, and its record appended to `batch` when changed.
   */
  function Scan(env: Env, t: string, rows: seq<Row>, wm: RowMap, c: Counts, batch: seq<AuditRow>): Result<Scanned>
    decreases |rows|
  {
    if rows == [] then Ok(Scanned(batch, wm, c))
    else
      match Classify(env, t, NormalizeRow(rows[0]), wm)
      case Err(e) => Err(e)
      case Ok(s) =>
        Scan(env, t, rows[1..], s.workingSet, Count(c, t, s.changed),
             if s.changed then batch + [s.record] else batch)
  }

  /** The record as committed: stamped, and without its dump on the first run. */
  function Stamp(ar: AuditRow, now: string, firstRun: bool): AuditRow
  {
    ar.(modified := now, rowDump := if firstRun then GetNull() else ar.rowDump)
  }

  function Stamped(batch: seq<AuditRow>, now: string, firstRun: bool): seq<AuditRow>
  {
    seq(|batch|, i requires 0 <= i < |batch| => Stamp(batch[i], now, firstRun))
  }

  datatype Committed = Committed(store: seq<AuditRow>, workingSet: RowMap, counts: Counts)

  /**
   * One table: a fresh working set loaded from the store, the table's change
   * counter reset to 0, the scan, and one all-or-nothing append of the batch.
   */
  function RunTable(env: Env, store: seq<AuditRow>, t: string, rows: seq<Row>, c: Counts,
                    firstRun: bool, now: string): Result<Committed>
  {
    var wm := LoadRows(map[], TableRecords(store, t));
    match Scan(env, t, rows, wm, c.(tableChanges := c.tableChanges[t := 0]), [])
    case Err(e) => Err(e)
    case Ok(s) => Ok(Committed(store + Stamped(s.batch, now, firstRun), s.workingSet, s.counts))
  }

  /**
   * The end of a run. On an error only `store` is meaningful: the process
   * exits, keeping what earlier tables committed.
   */
  datatype Outcome = Outcome(store: seq<AuditRow>, workingSet: RowMap, counts: Counts, error: Option<Error>)

  /** The tables `names[i..]` in order; table k is committed at time clock(k). */
  function Run(env: Env, store: seq<AuditRow>, names: seq<string>, i: nat, source: string -> seq<Row>,
               wm: RowMap, c: Counts, firstRun: bool, clock: nat -> string): Outcome
    requires i <= |names|
    decreases |names| - i
  {
    if i == |names| then Outcome(store, wm, c, None)
    else
      match RunTable(env, store, names[i], source(names[i]), c, firstRun, clock(i))
      case Err(e) => Outcome(store, wm, c, Some(e))
      case Ok(r) => Run(env, r.store, names, i + 1, source, r.workingSet, r.counts, firstRun, clock)
  }

  // ---------------------------------------------------------------------
  // History

  /** One "Table <name>" row per name, with that table's change count. */
  function TableHistory(ts: string, names: seq<string>, tc: map<string, int>): seq<HistoryRow>
  {
    seq(|names|, i requires 0 <= i < |names| => HistoryRow(ts, "Table " + names[i], Decimal(Get(tc, names[i]))))
  }

  /** The history rows of a run, in the order they are inserted. */
  function HistoryRows(ts: string, names: seq<string>, c: Counts, executionTime: string): seq<HistoryRow>
  {
    TableHistory(ts, names, c.tableChanges) +
    [ HistoryRow(ts, "Database changes", Decimal(c.databaseChanges)),
      HistoryRow(ts, "Rows processed", Decimal(c.rowsProcessed)),
      HistoryRow(ts, "Execution time", executionTime) ]
  }
}
