/**
 * The migration routes: the single-table route's response record, and the batch route
 * that migrates the first tables of the dependency-ordered source list one by one.
 */
module DatabaseRoutes {
  import opened Common
  import opened Models
  import opened Migration
  import Text

  /** `MigrationResult(**result)`: the keys a failure record lacks take the model's defaults. */
  function ToMigrationResult(record: MigrationRecord): (r: MigrationResult)
    ensures r.success == record.success && r.tableName == record.tableName
    ensures r.error == record.error && r.message == record.message
    ensures record.recordsMigrated.Some? ==> r.recordsMigrated == record.recordsMigrated.value
    ensures record.recordsMigrated.None? ==> r.recordsMigrated == 0
    ensures record.overwritten.Some? ==> r.overwritten == record.overwritten.value
    ensures record.overwritten.None? ==> !r.overwritten
  {
    MigrationResult(record.success, record.tableName, record.recordsMigrated.GetOr(0),
                    record.overwritten.GetOr(false), record.error, record.message)
  }

  /**
   * The route's response to a migration: a success reports the fetched rows and whether
   * a table was replaced, a failure zero rows and no replacement.
   */
  lemma RouteResult(src: Database, dst: Database, t: string, overwrite: bool)
    ensures var r := ToMigrationResult(MigrateRun(src, dst, t, overwrite).record);
      r.tableName == t
      && (r.success ==> t in src.rows && r.recordsMigrated == |src.rows[t]|
                        && r.overwritten == (t in dst.tables && overwrite) && r.error.None?)
      && (!r.success ==> r.recordsMigrated == 0 && !r.overwritten && r.error.Some?)
  {
    MigrateRecordShape(src, dst, t, overwrite);
  }

  /** The response of the batch route. */
  datatype BatchReport = BatchReport(
    success: bool,
    totalTables: int,
    migratedCount: int,
    maxTables: int,
    results: seq<MigrationRecord>,
    message: string)

  /** Reading the ordered source summary raised; the route answers with an HTTP 500. */
  datatype BatchError = SummaryUnavailable

  function BatchMessage(count: nat): string {
    "Migração em lote concluída: " + Text.NatToString(count) + " tabelas processadas"
  }

  /** The loop of `migrate_batch`: migrate each table in order and count every attempt. */
  method MigrateEach(manager: DatabaseManager, names: seq<string>, overwrite: bool)
    returns (results: seq<MigrationRecord>, migratedCount: nat)
    modifies manager
    ensures results == BatchRecords(manager.source, old(manager.destination), names, overwrite)
    ensures migratedCount == |names|
    ensures manager.calls == old(manager.calls) + BatchCalls(manager.source, old(manager.destination), names, overwrite)
    ensures manager.destination == BatchAfter(manager.source, old(manager.destination), names, overwrite)
  {
    ghost var dst := manager.destination;
    results := [];
    migratedCount := 0;
    var i := 0;
    while i < |names|
      invariant 0 <= i <= |names| && migratedCount == i
      invariant results == BatchRecords(manager.source, dst, names[..i], overwrite)
      invariant manager.calls == old(manager.calls) + BatchCalls(manager.source, dst, names[..i], overwrite)
      invariant manager.destination == BatchAfter(manager.source, dst, names[..i], overwrite)
    {
      results := MigrateNext(manager, names, i, overwrite, results, dst, old(manager.calls));
      migratedCount := migratedCount + 1;
      i := i + 1;
    }
    assert names[..i] == names;
  }

  /**
   * `migrate_batch`: `summary` is the source summary sorted by dependencies (None when
   * reading it raised). Every table of its first `maxTables` is attempted in order, and
   * every attempt is counted, whatever its outcome.
   */
  method MigrateBatch(manager: DatabaseManager, summary: Option<DatabaseSummary>, overwrite: bool, maxTables: int)
    returns (r: Result<BatchReport, BatchError>)
    modifies manager
    ensures summary.None? ==>
      r == Err(SummaryUnavailable) && manager.calls == old(manager.calls) && manager.destination == old(manager.destination)
    ensures summary.Some? ==>
      var names := Attempted(summary.value.tables, maxTables);
      && r.Ok?
      && r.value == BatchReport(true, |summary.value.tables|, |names|, maxTables,
                                BatchRecords(manager.source, old(manager.destination), names, overwrite),
                                BatchMessage(|names|))
      && manager.calls == old(manager.calls) + BatchCalls(manager.source, old(manager.destination), names, overwrite)
      && manager.destination == BatchAfter(manager.source, old(manager.destination), names, overwrite)
  {
    if summary.None? {
      return Err(SummaryUnavailable);
    }
    var names := Attempted(summary.value.tables, maxTables);
    var results, migratedCount := MigrateEach(manager, names, overwrite);
    return Ok(BatchReport(true, |summary.value.tables|, migratedCount, maxTables, results, BatchMessage(migratedCount)));
  }
}
