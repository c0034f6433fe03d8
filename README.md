# gaudit change-detection engine in Dafny

gaudit audits the tables of a SQL database. Each run reads every row of
every audited table. It builds a JSON dump of the row and takes the MD5 of
that dump as the row hash. It compares the row with the audit records
that earlier runs stored. The rows that are new or changed go into the
`audit` table in one transaction per table, and an optional summary goes
into the `history` table.

This project models that engine: `audit.go` and the row helpers of
`utils/utils.go`.

- `scalars.dfy` (module `Scalars`): scanned column values, `sql.NullString`,
  `GetNull`, `GetNullString` and `MapBytesToString`.
- `format.dfy` (module `Format`): `strings.Join`, and the `%d`, `%x` and `%v`
  renderings the engine uses.
- `order.dfy` (module `Order`): Go's byte-wise string order, and the
  `sort.Strings` of the table names in the history.
- `canon.dfy` (module `Canon`): the primary key joined from the key
  columns, the row dump and the row hash.
- `model.dfy` (module `Model`): the engine as functions on values. It has
  the records, the configuration, loading the working set, classifying a
  row, scanning a table, committing its batch, running every table, and
  the history rows.
- `properties.dfy` (module `Properties`): lemmas about those functions.
- `audit.dfy` (module `Audit`): the engine as it runs. The package state
  (configuration, table map, working set `rowMap`, `firstRun`, the audit
  and history tables) is an `Auditor` object, and the counters are a
  `Meta` object. Each method changes that state with loops corresponding
  to the Go code and is proved to end in the state the `Model` functions
  describe.

The audit database is two sequences that the engine appends to. The
model assumes that the query `tableStart` runs returns a table's records
in insertion order (see `Model.TableRecords` under "Left out").
A table's batch is appended all at once or not at all. `log.Fatal` on an
empty primary key becomes the error `EmptyPrimaryKey`. It ends the run
and keeps what earlier tables committed. `json.Marshal`, `md5.Sum` and the
rendering of a `time.Duration` are fields of a `Library` value that the
model does not interpret. Commit times and the history timestamp are
parameters (`clock(i)` for the i-th table, `now`). The catalog of the
target database and each table's rows are parameters too.

The model follows the code where it behaves other than one might expect:

- When a keyed row matches, the entry removed from the working set is the
  one at the row's hash, not the one at its primary key (audit.go:250).
- A configured table with no key columns takes the keyed path. Its key is
  the empty string, so the run stops at its first row.
- Two or more key columns that are all empty give a key made of
  separators, such as `"|"`. With a non-empty separator the run goes on;
  with an empty separator the key is `""` and the run stops.
- A nil or missing key column renders as `<nil>`.
- One would expect a second run over unchanged data to find no change.
  `Properties.SecondRunFindsNoChanges` proves this only when rows
  with the same key have the same hash and no row's key is an earlier
  row's hash. `Properties.DuplicatesBreakKeyHashCondition` shows that two
  identical rows in a table without key columns meet the first condition
  and break the second, and `Properties.DuplicateRowChangesNextRun` shows
  the effect: one of the two rows is reported again on the run after the
  first audit.

## Model

| member | source | states |
|---|---|---|
| Scalars.GetNull | utils/utils.go:19-21 | the result is not valid and holds the empty string |
| Scalars.GetNullString | utils/utils.go:23-25 | the result is valid, holds `s`, and differs from `GetNull()` |
| Scalars.BytesToString | utils/utils.go:32 | `string(b)` has one character per byte, with the same code |
| Scalars.MapBytesToString | utils/utils.go:29-35 | same key set; no byte-slice value is left; each byte slice becomes its string conversion under the same key; every other value is unchanged |
| Scalars.NormalizeRowIdempotent | utils/utils.go:29-35 | converting a second time changes nothing |
| Format.JoinEmptyIff | audit.go:230-231 | a join is empty exactly when every part is empty and either there is at most one part or the separator is empty |
| Format.NatDecimal | audit.go:373 | `%d` of a natural number is at least one digit, with no leading zero |
| Format.NatDecimalRoundTrip | audit.go:373 | reading back `%d` of a natural number gives that number |
| Format.DecimalRoundTrip | audit.go:373-379 | `%d` of any integer is a well-formed signed decimal that reads back as that integer |
| Format.Hex | audit.go:241 | `%x` of a digest has two characters per byte |
| Format.HexInjective | audit.go:241 | distinct digests have distinct `%x` renderings |
| Format.FormatValue | audit.go:228 | `%v` of a value is empty exactly when the value is the empty string (nil gives `<nil>`) |
| Order.LessIrreflexive | audit.go:367 | no string sorts before itself |
| Order.LessAsymmetric | audit.go:367 | two strings never sort before each other |
| Order.LessTransitive | audit.go:367 | the string order is transitive |
| Order.LessTotal | audit.go:367 | of two distinct strings, one sorts before the other |
| Order.LeastExists | audit.go:367 | a non-empty set of names has a least element |
| Order.LeastUnique | audit.go:367 | that least element is unique |
| Order.Least | audit.go:367 | the chosen element is the least of the set |
| Order.SortedSeqSpec | audit.go:363-367 | the sorted keys are strictly ascending, one per element of the set, and nothing else |
| Order.MinOf | audit.go:367 | the loop finds an element of the set that sorts before every other element |
| Order.SortedKeys | audit.go:363-367 | the collected and sorted keys are the set in ascending order, each once |
| Canon.PrimaryKeyEmptyIff | audit.go:225-233 | the key is empty exactly when there are no key columns, or every key column holds "" and there is one column or the separator is "" |
| Canon.TwoColumnKey | audit.go:226-230 | key columns holding "x" and "y", joined with a bar, give "x", the bar, then "y" |
| Canon.TwoEmptyColumnsKey | audit.go:226-233 | two empty key columns give the bar alone, which is not empty and not fatal |
| Canon.TwoEmptyColumnsNoSeparator | audit.go:226-233 | with an empty separator two empty key columns give the empty key, which is fatal |
| Canon.RowHash | audit.go:239-241 | the row hash has 32 characters |
| Canon.RowHashMatchesDigest | audit.go:239-241 | two rows have the same row hash exactly when their dumps have the same MD5 digest |
| Model.TableRecords | audit.go:189-198 | the table's query returns only records of that table, and no more than the store holds |
| Model.Classify | audit.go:216-268 | an error exactly when the table is keyed and the key is empty; record fields as built; keyed: unchanged iff the entry at the key has the row's hash; unkeyed: unchanged iff the hash is present; an unchanged row removes the hash entry and a changed one leaves the working set alone |
| Properties.TableMapOfSpec | audit.go:90-96 | the table map holds exactly the configured names; each maps to its last configured entry with an empty key |
| Properties.TableMapOfKeys | audit.go:90-96 | the table map's names are exactly the configured table names |
| Properties.TableMapOfEntries | audit.go:90-96 | a name's entry is its last configured table, with an empty primary key |
| Properties.TableRecordsAppend | audit.go:189-193 | querying a table after an append gives the earlier records, then the appended ones |
| Properties.TableRecordsSelects | audit.go:189-193 | the query returns exactly the store's records of that table |
| Properties.TableRecordsOfOneTable | audit.go:189-193 | records that all belong to the table come back in full and in order |
| Properties.LoadRowsKeys | audit.go:198-213 | the loaded keys are the earlier ones plus each record's key (the primary key if valid, else the hash) |
| Properties.LoadRowsLastWins | audit.go:198-213 | a record no later record shares a key with is the entry at its key |
| Properties.LoadRowsUntouched | audit.go:198-213 | an earlier entry whose key no record has keeps its value |
| Properties.LoadRowsSpec | audit.go:198-213 | the loaded keys are the earlier ones plus each record's key (the primary key if valid, else the hash); the last record with a key wins; other entries keep |
| Properties.LoadRowsAppend | audit.go:198-213 | loading two runs of records is loading one after the other |
| Properties.LoadRowsKeepsMatch | audit.go:198-213 | a matched record stays matched when the loaded records under its key share its hash |
| Properties.NoKeyColumnsIsFatal | audit.go:225-233 | a configured table without key columns is fatal on any row |
| Properties.KeyedMatchKeepsKeyEntry | audit.go:245-253 | a matched keyed row removes the hash entry, and the primary-key entry stays unless it is that hash |
| Properties.ScanCounts | audit.go:218-219 | each row adds one to the rows processed; each changed row adds one to the database changes and its table's count; other tables' counts do not move |
| Properties.ScanKeepsChangedInOrder | audit.go:318-328 | the batch grows only by records of scanned rows, in scan order |
| Properties.ScanBatchOfTable | audit.go:318-328 | every batch record belongs to the scanned table and comes from one of its rows |
| Properties.ScanUnchangedWereStored | audit.go:243-262 | a completed scan had no fatal row, and every row it left out was matched by the working set |
| Properties.ScanFromEmpty | audit.go:243-268 | against an empty working set every row is changed and the batch is every record in order |
| Properties.ScanAllMatched | audit.go:243-262 | when every row is matched and no key is an earlier row's hash, nothing is collected and only rows processed grows |
| Properties.StampedRecords | audit.go:276-288 | a commit keeps each record's table, key and hash, stamps the commit time, and nulls the dump on the first run only |
| Properties.RunTableCounts | audit.go:296-330 | the store grows by exactly the table's change count, with records of that table; counters grow as scanned |
| Properties.FirstAuditCommitsEveryRow | audit.go:296-330 | with no stored records the table fails exactly when a row is fatal, and otherwise commits every row in order |
| Properties.CommitThenLoad | audit.go:270-291 | loading after a commit files the committed records over the earlier ones |
| Properties.RowStillMatched | audit.go:198-213 | a row of the run stays matched after its records are committed |
| Properties.FirstRunLeavesMatches | audit.go:296-330 | after a run, the next run's working set matches every row, when rows with one key have one hash |
| Properties.SecondRunFindsNoChanges | audit.go:296-330 | re-running over the same rows commits nothing and counts no change, only the rows |
| Properties.DuplicateScan | audit.go:255-261 | of two identical unkeyed rows, the first consumes the stored hash and the second is changed |
| Properties.DuplicateFirstRun | audit.go:255-261 | the first audit of two identical unkeyed rows succeeds and commits both, stamped |
| Properties.LoadTwoCopies | audit.go:198-213 | two committed copies of one unkeyed record load as a single entry at its hash |
| Properties.DuplicateSecondRun | audit.go:255-261 | on the run after two identical unkeyed rows were committed, the hash entry serves the first row only, so the table counts one change and commits one record |
| Properties.DuplicatesBreakKeyHashCondition | audit.go:255-261 | two identical unkeyed rows share key and hash, yet the second row's key is the first row's hash |
| Properties.DuplicateRowChangesNextRun | audit.go:255-261 | two identical unkeyed rows are both committed first, and one is committed again on the next run |
| Properties.RunStoreGrows | audit.go:293-336 | a run only appends to the store, and only records of the tables it audits |
| Properties.HistoryRowsShape | audit.go:359-382 | one "Table" row per name with its count, then database changes, rows processed and execution time, all under one timestamp |
| Audit.Meta.constructor | audit.go:417 | every counter is zero and no table has been counted yet |
| Audit.Auditor.constructor | audit.go:99-110 | the default configuration (a bar as separator, no table list) and an empty table map |
| Audit.Auditor.Load | audit.go:78-97 | the file's configuration replaces the default, and the table map is built from the configured tables |
| Audit.Auditor.InitAudit | audit.go:151-158 | first run exactly when the audit table is empty |
| Audit.Auditor.GetTables | audit.go:161-186 | the configured names in order, or the catalog when no table list is configured |
| Audit.Auditor.BuildKey | audit.go:225-230 | the key built from the key columns' formatted values and the separator is the table's `Model.KeyOf` |
| Audit.Auditor.TableStart | audit.go:188-214 | the working set is the old one with the table's records filed in insertion order |
| Audit.Auditor.ProcessRow | audit.go:216-268 | rows processed always grows by one; the outcome, record and new working set are those of `Model.Classify`; counters move only on a change |
| Audit.Auditor.TableFinished | audit.go:270-291 | the store is the old store plus the stamped batch, in order |
| Audit.Auditor.InsertHistoryRow | audit.go:338-351 | exactly one history row is appended |
| Audit.Auditor.Finished | audit.go:353-390 | with a positive flag, the history gains the table rows in ascending name order, then the three summary rows; otherwise nothing |
| Audit.Auditor.ScanRows | audit.go:318-328 | the batch, working set and counters are those of the scan, or the fatal row's error |
| Audit.Auditor.AuditTable | audit.go:297-330 | fresh working set, counter reset, scan and commit, as `Model.RunTable` |
| Audit.Auditor.MapTableRows | audit.go:293-336 | the store, error, working set and counters are those of `Model.Run` over the table names |
| Audit.Auditor.RunAudit | audit.go:413-421 | first run iff the store was empty; the store is that of the run; history is written only after a run without error and only with a positive flag |

## Left out

- Scalars.BytesToString: a byte slice becomes one character per byte,
  while a string the driver hands back holds Unicode characters, so
  non-ASCII text converted from bytes (UTF-8 `C3 A9`) differs from the
  same text held as a string (`"é"`). The model does not decode UTF-8;
  the engine cannot observe this while a column keeps its type across runs.
- Model.TableRecords: the query at audit.go:190-193 has no ORDER BY, so
  SQL does not fix the order of a table's records. The model assumes
  SQLite's rowid order, which is insertion order. That order decides which
  record of a key ends up in the working set, so `Properties.LoadRowsSpec`,
  `Properties.CommitThenLoad`, `Properties.RowStillMatched`,
  `Properties.FirstRunLeavesMatches` and
  `Properties.SecondRunFindsNoChanges` hold for that order only.

- SQL and connections: opening, closing, queries, `count(*)`, and the
  begin and commit of transactions. The audit and history tables are
  sequences, and a table's batch is appended all at once.
- `getTables` reading `sqlite_master`: the catalog's table names are a
  parameter.
- `sqlx.MapScan` inside `utils.MapScan`: each table's rows come from a
  `source` parameter and are converted with `MapBytesToString`.
- Audit.Auditor.Load: decoding `config.json` is not modelled. The decoded
  file is given as a whole `Config` that replaces the current one; Go
  merges the decoded fields into the defaults. A decode error (fatal in
  Go) is not modelled.
- Audit.Auditor.TableFinished: Go calls `time.Now()` once per record. The
  model stamps every record of a table with one given time. The `%.19s`
  truncation of timestamps is not modelled.
- Audit.Auditor.Finished: the `%s` rendering of a `time.Duration` is the
  `formatDuration` field of the `Library`.
- MD5, `json.Marshal` and its encoding, and Duration formatting are not
  interpreted. The error result of `json.Marshal`, which Go ignores, is
  not modelled.
- Column values of float or `time.Time` type are not modelled. The values
  are strings, byte slices, integers, booleans and nil.
- Scalars.MapBytesToString: Go rewrites the caller's map in place. The
  model returns the rewritten map.
- Audit.Auditor.ProcessRow: counters are unbounded integers. The model
  does not wrap them at 64 bits.
- Audit.Auditor.MapTableRows: Go makes a nil `tableChanges` map before its
  first write. Here the map is never nil. The per-table `verbose` log line
  is not modelled.
- Audit.Auditor.RunAudit: `time.Since(start)` is the `elapsed` parameter.
- Verbose logging, printing, flag parsing, `main`'s list and
  print-config branches, and `init` are not modelled.
- `GetTimeStamp`, `GetBytes`, `JsonString.UnmarshalJSON` and `JsonDump`
  are not modelled. They are wrappers over the clock, `encoding/gob` and
  `encoding/json`.
- `log.Fatal` on SQL errors is not modelled, because the store
  operations here cannot fail.
- The working-set entries left after a table's scan are not used by the
  engine, and the model does not use them either.
