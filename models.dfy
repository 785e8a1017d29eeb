/**
 * The records exchanged by the core: table statistics, database summaries, the
 * per-table migration result, and the scheduled-job records. Sizes in megabytes are
 * kept as integer hundredths (the source rounds them to two decimals).
 */
module Models {
  import opened Common

  /** An opaque instant: `datetime.now()` and the scheduler's fire times. */
  type Timestamp = int

  /** One value of a fetched row. */
  datatype Value = Null | Int(i: int) | Text(s: string)

  /** A fetched row: column name to value. */
  type Row = map<string, Value>

  datatype TableInfo = TableInfo(
    tableName: string,
    rowCount: int,
    sizeHundredths: int,   // size_mb * 100
    dataLength: int,
    indexLength: int)

  datatype DatabaseSummary = DatabaseSummary(
    databaseType: string,
    databaseName: string,
    totalTables: int,
    totalRows: int,
    totalSizeHundredths: int,
    tables: seq<TableInfo>)

  function TableNames(tables: seq<TableInfo>): (names: seq<string>)
    ensures |names| == |tables|
    ensures forall i :: 0 <= i < |tables| ==> names[i] == tables[i].tableName
  {
    seq(|tables|, i requires 0 <= i < |tables| => tables[i].tableName)
  }

  /** No two entries share a name. */
  predicate NamesDistinct(tables: seq<TableInfo>) {
    Distinct(TableNames(tables))
  }

  /**
   * A dictionary comprehension keyed by table name (`table_dict`, `source_tables`,
   * `destination_tables`): each name to its entry.
   */
  function ByName(tables: seq<TableInfo>): (m: map<string, TableInfo>)
    ensures m.Keys == Elements(TableNames(tables))
    ensures forall n :: n in m ==> m[n].tableName == n && m[n] in tables
    decreases |tables|
  {
    if tables == [] then map[]
    else
      var init := tables[..|tables| - 1];
      var last := tables[|tables| - 1];
      assert tables == init + [last];
      assert TableNames(tables) == TableNames(init) + [last.tableName];
      ByName(init)[last.tableName := last]
  }

  /** When two entries share a name the later one wins: the dictionary holds the last. */
  lemma {:induction false} ByNameLastWins(tables: seq<TableInfo>, k: nat)
    requires k < |tables|
    requires forall j :: k < j < |tables| ==> tables[j].tableName != tables[k].tableName
    ensures ByName(tables)[tables[k].tableName] == tables[k]
    decreases |tables|
  {
    if k < |tables| - 1 {
      var init := tables[..|tables| - 1];
      assert tables[|tables| - 1].tableName != tables[k].tableName;
      ByNameLastWins(init, k);
    }
  }

  /** With distinct names, the dictionary maps each name back to its own entry. */
  lemma ByNameOfDistinct(tables: seq<TableInfo>, k: nat)
    requires NamesDistinct(tables) && k < |tables|
    ensures ByName(tables)[tables[k].tableName] == tables[k]
  {
    var names := TableNames(tables);
    forall j | k < j < |tables| ensures tables[j].tableName != tables[k].tableName {
      assert names[j] != names[k];
    }
    ByNameLastWins(tables, k);
  }

  /** The dictionary's keys in iteration order: each name once, where it first occurs. */
  function DictKeys(tables: seq<TableInfo>): (keys: seq<string>)
    ensures Distinct(keys)
    ensures forall x :: x in keys <==> x in TableNames(tables)
    decreases |tables|
  {
    if tables == [] then []
    else
      var init := tables[..|tables| - 1];
      var last := tables[|tables| - 1];
      var prev := DictKeys(init);
      assert TableNames(tables) == TableNames(init) + [last.tableName];
      if last.tableName in prev then prev else prev + [last.tableName]
  }

  /** With distinct names the keys are the names in entry order. */
  lemma {:induction false} DictKeysOfDistinct(tables: seq<TableInfo>)
    requires NamesDistinct(tables)
    ensures DictKeys(tables) == TableNames(tables)
    decreases |tables|
  {
    if tables != [] {
      var init := tables[..|tables| - 1];
      var names := TableNames(tables);
      assert TableNames(init) == names[..|tables| - 1];
      assert names[|tables| - 1] !in names[..|tables| - 1];
      DictKeysOfDistinct(init);
    }
  }


  /** Why a table migration failed; each stands for the exception text the source reports. */
  datatype MigrationError =
    | SourceTableMissing       // the table is not in the source database
    | DestinationTableExists   // the table exists at the destination and overwrite is off
    | DropFailed
    | CreateFailed
    | InsertFailed
    | StructureUnavailable     // get_table_structure raised
    | DataUnavailable          // get_table_data raised

  /** The response record of a single-table migration (missing fields take their defaults). */
  datatype MigrationResult = MigrationResult(
    success: bool,
    tableName: string,
    recordsMigrated: int,
    overwritten: bool,
    error: Option<MigrationError>,
    message: string)

  datatype CronJobStatus = Active | Paused | Removed

  datatype CronJobCreate = CronJobCreate(
    name: string,
    cronExpression: string,
    description: Option<string>,
    overwrite: bool,
    maxTables: int)

  /** The stored metadata of a job, also returned as its response. */
  datatype CronJob = CronJob(
    id: string,
    name: string,
    cronExpression: string,
    description: Option<string>,
    status: CronJobStatus,
    nextRun: Option<Timestamp>,
    createdAt: Timestamp,
    lastRun: Option<Timestamp>,
    overwrite: bool,
    maxTables: int)
}
