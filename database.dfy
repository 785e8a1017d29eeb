/**
 * The database manager: role dispatch between the source and destination adapters,
 * and the single-table migration, a sequence of adapter calls that stops at the first
 * failure and always ends in a result record. The databases are given by what they
 * answer; the manager records every adapter call it issues, in order.
 */
module Migration {
  import opened Common
  import opened Models

  datatype Role = Source | Destination

  /** The `ValueError` of a role name other than 'source' and 'destination'. */
  datatype RoleError = InvalidRole

  /** `get_tables_info`'s choice of adapter: only the two role names are accepted. */
  function TablesInfoRole(databaseType: string): (r: Result<Role, RoleError>)
    ensures r.Ok? <==> databaseType == "source" || databaseType == "destination"
    ensures r.Ok? ==> (r.value == Source <==> databaseType == "source")
  {
    if databaseType == "source" then Ok(Source)
    else if databaseType == "destination" then Ok(Destination)
    else Err(InvalidRole)
  }

  /** `get_database_summary`'s choice of adapter: every name but 'source' selects the destination. */
  function SummaryRole(databaseType: string): (r: Role)
    ensures r == Source <==> databaseType == "source"
  {
    if databaseType == "source" then Source else Destination
  }

  /** The two dispatches agree wherever `get_tables_info` accepts the name. */
  lemma RolesAgree(databaseType: string)
    ensures TablesInfoRole(databaseType).Ok? ==> TablesInfoRole(databaseType).value == SummaryRole(databaseType)
    ensures TablesInfoRole(databaseType).Err? ==> SummaryRole(databaseType) == Destination
  {
  }

  /** What one database answers to the adapter calls the migration makes. */
  datatype Database = Database(
    tables: set<string>,              // `table_exists` is true
    structures: map<string, string>,  // `create_table_sql` of `get_table_structure`; a missing table raises
    rows: map<string, seq<Row>>,      // `get_table_data`; a missing table raises
    dropFails: set<string>,           // `drop_table` returns False
    createFails: set<string>,         // `create_table` returns False whatever else exists
    insertFails: set<string>,         // `insert_data` returns False
    references: map<string, set<string>>)  // the tables the `REFERENCES` clauses of a table's statement name

  /**
   * The other tables that the source's statement for `t` references. The statement is
   * created with its foreign keys (database.py:190), so MySQL rejects the create while one
   * of them is missing at the destination.
   */
  function Needs(src: Database, t: string): set<string> {
    if t in src.references then src.references[t] - {t} else {}
  }

  /** `create_table` of the source's statement for `t` succeeds at `dst`. */
  predicate CreateSucceeds(src: Database, dst: Database, t: string) {
    t !in dst.createFails && Needs(src, t) <= dst.tables
  }

  /** Whether `t` itself exists does not decide its create. */
  lemma CreateIgnoresOwnTable(src: Database, dst: Database, t: string)
    ensures CreateSucceeds(src, Dropped(dst, t), t) == CreateSucceeds(src, dst, t)
    ensures CreateSucceeds(src, Created(dst, t), t) == CreateSucceeds(src, dst, t)
  {
  }

  /** Destinations that agree on the faults and on the tables `t` references agree on its create. */
  lemma CreateDependsOnNeeds(src: Database, d1: Database, d2: Database, t: string)
    requires d1.createFails == d2.createFails
    requires d1.tables * Needs(src, t) == d2.tables * Needs(src, t)
    ensures CreateSucceeds(src, d1, t) == CreateSucceeds(src, d2, t)
  {
    assert Needs(src, t) <= d1.tables <==> d1.tables * Needs(src, t) == Needs(src, t);
    assert Needs(src, t) <= d2.tables <==> d2.tables * Needs(src, t) == Needs(src, t);
  }

  /** One adapter call; structure and data are read from the source, the rest written to the destination. */
  datatype Call =
    | Probe(role: Role, table: string)
    | ReadStructure(table: string)
    | Drop(table: string)
    | Create(table: string, sql: string)
    | ReadData(table: string)
    | Insert(table: string, data: seq<Row>)

  /** A call that changes the destination database. */
  predicate ChangesDestination(c: Call) {
    c.Drop? || c.Create? || c.Insert?
  }

  /** The destination after a successful `drop_table`: the table no longer exists. */
  function Dropped(d: Database, t: string): (d': Database)
    ensures d'.tables == d.tables - {t} && d' == d.(tables := d'.tables)
  {
    d.(tables := d.tables - {t})
  }

  /** The destination after a successful `create_table`: the table exists. */
  function Created(d: Database, t: string): (d': Database)
    ensures d'.tables == d.tables + {t} && d' == d.(tables := d'.tables)
  {
    d.(tables := d.tables + {t})
  }

  /**
   * The dictionary `migrate_table` returns: a failure has no `records_migrated` and no
   * `overwritten` key, a success no `error` key.
   */
  datatype MigrationRecord = MigrationRecord(
    success: bool,
    tableName: string,
    recordsMigrated: Option<int>,
    overwritten: Option<bool>,
    error: Option<MigrationError>,
    message: string)

  function SuccessMessage(t: string): string {
    "Tabela '" + t + "' migrada com sucesso"
  }

  function FailureMessage(t: string): string {
    "Falha na migração da tabela '" + t + "'"
  }

  /** A migration's outcome, the adapter calls it made and the destination it leaves. */
  datatype Run = Run(record: MigrationRecord, calls: seq<Call>, after: Database)

  function Failure(t: string, e: MigrationError, calls: seq<Call>, after: Database): Run {
    Run(MigrationRecord(false, t, None, None, Some(e), FailureMessage(t)), calls, after)
  }

  /** `run` preceded by the calls `first`. */
  function Then(first: seq<Call>, run: Run): Run {
    Run(run.record, first + run.calls, run.after)
  }

  /**
   * The migration of table `t`: check the source, probe the destination, read the
   * structure, then drop (overwrite) or stop (conflict), create, read the rows and
   * insert them when there are any.
   */
  function MigrateRun(src: Database, dst: Database, t: string, overwrite: bool): Run {
    if t !in src.tables then Failure(t, SourceTableMissing, [Probe(Source, t)], dst)
    else Then([Probe(Source, t), Probe(Destination, t), ReadStructure(t)], AfterProbes(src, dst, t, overwrite))
  }

  /** The steps after the structure was read: stop, or drop when replacing, then create. */
  function AfterProbes(src: Database, dst: Database, t: string, overwrite: bool): Run {
    var existsDest := t in dst.tables;
    if t !in src.structures then Failure(t, StructureUnavailable, [], dst)
    else if existsDest && !overwrite then Failure(t, DestinationTableExists, [], dst)
    else if existsDest && t in dst.dropFails then Failure(t, DropFailed, [Drop(t)], dst)
    else if existsDest then Then([Drop(t)], FromCreate(src, Dropped(dst, t), t, true))
    else FromCreate(src, dst, t, false)
  }

  /** The steps from the create on; `replaced` says whether an existing table was dropped. */
  function FromCreate(src: Database, dst: Database, t: string, replaced: bool): Run
    requires t in src.structures
  {
    Then([Create(t, src.structures[t])],
      if !CreateSucceeds(src, dst, t) then Failure(t, CreateFailed, [], dst)
      else Then([ReadData(t)], FromData(src, Created(dst, t), t, replaced)))
  }

  /** The steps after the rows were read. */
  function FromData(src: Database, dst: Database, t: string, replaced: bool): Run {
    if t !in src.rows then Failure(t, DataUnavailable, [], dst)
    else
      var data := src.rows[t];
      var success := Run(MigrationRecord(true, t, Some(|data|), Some(replaced), None, SuccessMessage(t)), [], dst);
      if data == [] then success
      else if t in dst.insertFails then Failure(t, InsertFailed, [Insert(t, data)], dst)
      else Then([Insert(t, data)], success)
  }

  /** Every step that can fail succeeds. */
  predicate Migratable(src: Database, dst: Database, t: string, overwrite: bool) {
    t in src.tables && t in src.structures
    && (t in dst.tables ==> overwrite && t !in dst.dropFails)
    && CreateSucceeds(src, dst, t)
    && t in src.rows
    && (src.rows[t] != [] ==> t !in dst.insertFails)
  }

  /** The migration succeeds exactly when every step does. */
  lemma MigrateSucceedsIff(src: Database, dst: Database, t: string, overwrite: bool)
    ensures MigrateRun(src, dst, t, overwrite).record.success <==> Migratable(src, dst, t, overwrite)
  {
  }

  /**
   * The record names the table; a success reports every fetched row and whether a
   * table was replaced, a failure carries an error and no counts.
   */
  predicate WellShaped(r: MigrationRecord, src: Database, t: string, replaced: bool) {
    r.tableName == t
    && (r.success ==> t in src.rows && r.recordsMigrated == Some(|src.rows[t]|)
                      && r.overwritten == Some(replaced) && r.error.None?
                      && r.message == SuccessMessage(t))
    && (!r.success ==> r.error.Some? && r.recordsMigrated.None? && r.overwritten.None?
                       && r.message == FailureMessage(t))
  }

  lemma FromDataShape(src: Database, dst: Database, t: string, replaced: bool)
    ensures WellShaped(FromData(src, dst, t, replaced).record, src, t, replaced)
  {
  }

  lemma AfterProbesShape(src: Database, dst: Database, t: string, overwrite: bool)
    ensures WellShaped(AfterProbes(src, dst, t, overwrite).record, src, t, t in dst.tables && overwrite)
  {
    FromDataShape(src, Created(Dropped(dst, t), t), t, true);
    FromDataShape(src, Created(dst, t), t, false);
  }

  /** Every migration record is well shaped; `overwritten` is `exists and overwrite`. */
  lemma MigrateRecordShape(src: Database, dst: Database, t: string, overwrite: bool)
    ensures WellShaped(MigrateRun(src, dst, t, overwrite).record, src, t, t in dst.tables && overwrite)
  {
    AfterProbesShape(src, dst, t, overwrite);
  }

  /** A table missing from the source fails before any destination call. */
  lemma SourceMissingStopsFirst(src: Database, dst: Database, t: string, overwrite: bool)
    requires t !in src.tables
    ensures var run := MigrateRun(src, dst, t, overwrite);
      run.record.error == Some(SourceTableMissing) && run.calls == [Probe(Source, t)]
  {
  }

  /**
   * A table at the destination without overwrite fails with nothing changed there; its
   * structure has already been read by then.
   */
  lemma ConflictChangesNothing(src: Database, dst: Database, t: string)
    requires t in src.tables && t in dst.tables
    ensures var run := MigrateRun(src, dst, t, false);
      !run.record.success
      && (t in src.structures ==> run.record.error == Some(DestinationTableExists))
      && ReadStructure(t) in run.calls
      && forall c :: c in run.calls ==> !ChangesDestination(c)
  {
  }

  /** With overwrite, an existing table is dropped before it is created, and a failed drop stops the run. */
  lemma DropPrecedesCreate(src: Database, dst: Database, t: string, j: nat)
    requires t in dst.tables
    requires var calls := MigrateRun(src, dst, t, true).calls; j < |calls| && calls[j].Create?
    ensures t !in dst.dropFails
    ensures exists i :: 0 <= i < j && MigrateRun(src, dst, t, true).calls[i] == Drop(t)
  {
    assert MigrateRun(src, dst, t, true).calls[3] == Drop(t);
  }

  /** A failed create, rejected outright or for a missing referenced table, stops the run before any insert. */
  lemma CreateFailureStopsInsert(src: Database, dst: Database, t: string, overwrite: bool)
    requires !CreateSucceeds(src, dst, t)
    ensures var run := MigrateRun(src, dst, t, overwrite);
      !run.record.success && forall c :: c in run.calls ==> !c.Insert?
  {
  }

  /** An empty source table migrates zero records and is never inserted into. */
  lemma EmptyTableSkipsInsert(src: Database, dst: Database, t: string, overwrite: bool)
    requires t in src.rows && src.rows[t] == []
    requires Migratable(src, dst, t, overwrite)
    ensures var run := MigrateRun(src, dst, t, overwrite);
      run.record.success && run.record.recordsMigrated == Some(0)
      && forall c :: c in run.calls ==> !c.Insert?
  {
  }

  /**
   * What a migration leaves at the destination: only whether `t` exists can change. It
   * exists afterwards exactly when it existed and was not dropped, or a create succeeded;
   * in particular it exists after every success.
   */
  lemma MigrateLeavesDestination(src: Database, dst: Database, t: string, overwrite: bool)
    ensures var run := MigrateRun(src, dst, t, overwrite);
      && run.after == dst.(tables := run.after.tables)
      && run.after.tables - {t} == dst.tables - {t}
      && (t in run.after.tables <==>
            (t in dst.tables && (Drop(t) !in run.calls || t in dst.dropFails))
            || (t in src.structures && Create(t, src.structures[t]) in run.calls && CreateSucceeds(src, dst, t)))
      && (run.record.success ==> t in run.after.tables)
      && ((forall c :: c in run.calls ==> !ChangesDestination(c)) ==> run.after == dst)
  {
    var run := MigrateRun(src, dst, t, overwrite);
    CreateIgnoresOwnTable(src, dst, t);
    if t in src.tables && t in src.structures && (t !in dst.tables || overwrite) {
      if t in dst.tables && t !in dst.dropFails {
        assert run.calls[3] == Drop(t) && run.calls[4] == Create(t, src.structures[t]);
      } else if t !in dst.tables {
        assert run.calls[3] == Create(t, src.structures[t]);
      }
    }
  }

  /**
   * Migrating a table a second time without overwrite, after the first migration
   * succeeded, fails because the table now exists, and changes nothing.
   */
  lemma SecondMigrationConflicts(src: Database, dst: Database, t: string)
    requires MigrateRun(src, dst, t, false).record.success
    ensures var second := MigrateRun(src, MigrateRun(src, dst, t, false).after, t, false);
      second.record.error == Some(DestinationTableExists)
      && (forall c :: c in second.calls ==> !ChangesDestination(c))
      && second.after == MigrateRun(src, dst, t, false).after
  {
    var after := MigrateRun(src, dst, t, false).after;
    MigrateLeavesDestination(src, dst, t, false);
    MigrateSucceedsIff(src, dst, t, false);
    ConflictChangesNothing(src, after, t);
    MigrateLeavesDestination(src, after, t, false);
  }

  /**
   * With overwrite, a second migration after a successful one drops the table it created
   * and reports the replacement; it succeeds exactly when that drop does.
   */
  lemma SecondMigrationReplaces(src: Database, dst: Database, t: string)
    requires MigrateRun(src, dst, t, true).record.success
    ensures var second := MigrateRun(src, MigrateRun(src, dst, t, true).after, t, true);
      second.calls[3] == Drop(t)
      && (second.record.success <==> t !in dst.dropFails)
      && (second.record.success ==> second.record.overwritten == Some(true))
  {
    var after := MigrateRun(src, dst, t, true).after;
    MigrateLeavesDestination(src, dst, t, true);
    MigrateSucceedsIff(src, dst, t, true);
    MigrateSucceedsIff(src, after, t, true);
    MigrateRecordShape(src, after, t, true);
  }

  /**
   * A migration's record and calls depend on the destination's tables only through its
   * own table and the tables its statement references.
   */
  lemma MigrateDependsOnOwnTable(src: Database, d1: Database, d2: Database, t: string, overwrite: bool)
    requires d2 == d1.(tables := d2.tables) && (t in d1.tables <==> t in d2.tables)
    requires d1.tables * Needs(src, t) == d2.tables * Needs(src, t)
    ensures MigrateRun(src, d1, t, overwrite).record == MigrateRun(src, d2, t, overwrite).record
    ensures MigrateRun(src, d1, t, overwrite).calls == MigrateRun(src, d2, t, overwrite).calls
    ensures Migratable(src, d1, t, overwrite) == Migratable(src, d2, t, overwrite)
  {
    if t in src.structures {
      CreateDependsOnNeeds(src, d1, d2, t);
      CreateIgnoresOwnTable(src, d1, t);
      CreateIgnoresOwnTable(src, d2, t);
      FromCreateAgree(src, d1, d2, t, false);
      FromCreateAgree(src, Dropped(d1, t), Dropped(d2, t), t, true);
    }
  }

  /** The steps from the create on see only the faults and whether the create succeeds. */
  lemma FromCreateAgree(src: Database, d1: Database, d2: Database, t: string, replaced: bool)
    requires t in src.structures
    requires d2 == d1.(tables := d2.tables) && CreateSucceeds(src, d1, t) == CreateSucceeds(src, d2, t)
    ensures FromCreate(src, d1, t, replaced).record == FromCreate(src, d2, t, replaced).record
    ensures FromCreate(src, d1, t, replaced).calls == FromCreate(src, d2, t, replaced).calls
  {
    assert FromData(src, Created(d1, t), t, replaced).record == FromData(src, Created(d2, t), t, replaced).record;
    assert FromData(src, Created(d1, t), t, replaced).calls == FromData(src, Created(d2, t), t, replaced).calls;
  }

  /** The tables a batch attempts: the first `maxTables` names, as Python's `tables[:max_tables]` slices. */
  function Attempted(tables: seq<TableInfo>, maxTables: int): (names: seq<string>)
    ensures |names| <= |tables| && names == TableNames(tables)[..|names|]
    ensures 0 <= maxTables ==> |names| == if maxTables <= |tables| then maxTables else |tables|
  {
    var kept := PyPrefix(tables, maxTables);
    assert forall i :: 0 <= i < |kept| ==> kept[i] == tables[i];
    TableNames(kept)
  }

  /** The destination after migrating each table in turn on one manager. */
  function BatchAfter(src: Database, dst: Database, names: seq<string>, overwrite: bool): Database
    decreases |names|
  {
    if names == [] then dst
    else MigrateRun(src, BatchAfter(src, dst, names[..|names| - 1], overwrite), names[|names| - 1], overwrite).after
  }

  /** The records of migrating each table in turn, each against the destination the earlier ones left. */
  function BatchRecords(src: Database, dst: Database, names: seq<string>, overwrite: bool): (rs: seq<MigrationRecord>)
    ensures |rs| == |names|
    decreases |names|
  {
    if names == [] then []
    else
      var init := names[..|names| - 1];
      BatchRecords(src, dst, init, overwrite)
        + [MigrateRun(src, BatchAfter(src, dst, init, overwrite), names[|names| - 1], overwrite).record]
  }

  /** The `i`-th record of a batch is the migration of the `i`-th name after the names before it. */
  lemma {:induction false} BatchRecordsAt(src: Database, dst: Database, names: seq<string>, overwrite: bool, i: nat)
    requires i < |names|
    ensures BatchRecords(src, dst, names, overwrite)[i]
      == MigrateRun(src, BatchAfter(src, dst, names[..i], overwrite), names[i], overwrite).record
    decreases |names|
  {
    var init := names[..|names| - 1];
    if i < |init| {
      BatchRecordsAt(src, dst, init, overwrite, i);
      assert init[..i] == names[..i] && init[i] == names[i];
    }
  }

  /** The adapter calls of migrating each table in turn. */
  function BatchCalls(src: Database, dst: Database, names: seq<string>, overwrite: bool): seq<Call>
    decreases |names|
  {
    if names == [] then []
    else
      var init := names[..|names| - 1];
      BatchCalls(src, dst, init, overwrite)
        + MigrateRun(src, BatchAfter(src, dst, init, overwrite), names[|names| - 1], overwrite).calls
  }

  /** How many records report success. */
  function Successes(rs: seq<MigrationRecord>): nat
    decreases |rs|
  {
    if rs == [] then 0
    else Successes(rs[..|rs| - 1]) + (if rs[|rs| - 1].success then 1 else 0)
  }

  lemma SuccessesSnoc(rs: seq<MigrationRecord>, r: MigrationRecord)
    ensures Successes(rs + [r]) == Successes(rs) + (if r.success then 1 else 0)
  {
    assert (rs + [r])[..|rs|] == rs;
  }

  /** Successes are at most the records, and all of them exactly when every record succeeded. */
  lemma {:induction false} SuccessesBound(rs: seq<MigrationRecord>)
    ensures Successes(rs) <= |rs|
    ensures Successes(rs) == |rs| <==> forall i :: 0 <= i < |rs| ==> rs[i].success
    decreases |rs|
  {
    if rs != [] {
      var init := rs[..|rs| - 1];
      SuccessesBound(init);
      assert forall i :: 0 <= i < |init| ==> init[i] == rs[i];
    }
  }

  /**
   * Every table of a batch migrates exactly when each of them is migratable against the
   * destination that the tables before it left.
   */
  lemma BatchSucceedsIff(src: Database, dst: Database, names: seq<string>, overwrite: bool)
    ensures Successes(BatchRecords(src, dst, names, overwrite)) == |names|
      <==> forall i :: 0 <= i < |names| ==> Migratable(src, BatchAfter(src, dst, names[..i], overwrite), names[i], overwrite)
  {
    var rs := BatchRecords(src, dst, names, overwrite);
    SuccessesBound(rs);
    forall i | 0 <= i < |names|
      ensures rs[i] == MigrateRun(src, BatchAfter(src, dst, names[..i], overwrite), names[i], overwrite).record
      ensures rs[i].success <==> Migratable(src, BatchAfter(src, dst, names[..i], overwrite), names[i], overwrite)
    {
      BatchRecordsAt(src, dst, names, overwrite, i);
      MigrateSucceedsIff(src, BatchAfter(src, dst, names[..i], overwrite), names[i], overwrite);
    }
  }

  /** A batch leaves every table it does not name as it was, and changes nothing else. */
  lemma {:induction false} BatchAfterUntouched(src: Database, dst: Database, names: seq<string>, overwrite: bool, t: string)
    requires t !in names
    ensures var d := BatchAfter(src, dst, names, overwrite);
      d == dst.(tables := d.tables) && (t in d.tables <==> t in dst.tables)
    decreases |names|
  {
    if names != [] {
      var init := names[..|names| - 1];
      assert t !in init;
      BatchAfterUntouched(src, dst, init, overwrite, t);
      MigrateLeavesDestination(src, BatchAfter(src, dst, init, overwrite), names[|names| - 1], overwrite);
    }
  }

  /** No table of the batch references another table of the batch. */
  predicate Unrelated(src: Database, names: seq<string>) {
    forall i, j :: 0 <= i < |names| && 0 <= j < |names| ==> names[j] !in Needs(src, names[i])
  }

  /**
   * Over distinct names, as a schema's table list has, none of which references another,
   * the earlier migrations do not affect the later ones: each record is that table's
   * migration against the original destination, and all succeed exactly when each table
   * is migratable there.
   */
  lemma BatchOfDistinct(src: Database, dst: Database, names: seq<string>, overwrite: bool)
    requires Distinct(names) && Unrelated(src, names)
    ensures forall i :: 0 <= i < |names| ==>
      BatchRecords(src, dst, names, overwrite)[i] == MigrateRun(src, dst, names[i], overwrite).record
    ensures Successes(BatchRecords(src, dst, names, overwrite)) == |names|
      <==> forall i :: 0 <= i < |names| ==> Migratable(src, dst, names[i], overwrite)
  {
    forall i | 0 <= i < |names|
      ensures BatchRecords(src, dst, names, overwrite)[i] == MigrateRun(src, dst, names[i], overwrite).record
      ensures Migratable(src, BatchAfter(src, dst, names[..i], overwrite), names[i], overwrite)
              == Migratable(src, dst, names[i], overwrite)
    {
      BatchRecordsAt(src, dst, names, overwrite, i);
      var after := BatchAfter(src, dst, names[..i], overwrite);
      assert names[i] !in names[..i];
      BatchAfterUntouched(src, dst, names[..i], overwrite, names[i]);
      forall r | r in Needs(src, names[i])
        ensures r in dst.tables <==> r in after.tables
      {
        assert r !in names[..i];
        BatchAfterUntouched(src, dst, names[..i], overwrite, r);
      }
      assert dst.tables * Needs(src, names[i]) == after.tables * Needs(src, names[i]);
      MigrateDependsOnOwnTable(src, dst, BatchAfter(src, dst, names[..i], overwrite), names[i], overwrite);
    }
    BatchSucceedsIff(src, dst, names, overwrite);
  }

  /**
   * A batch that names a table twice without overwrite: the first migration creates it
   * and the second fails because it now exists.
   */
  lemma RepeatedNameConflicts(src: Database, dst: Database, t: string)
    requires MigrateRun(src, dst, t, false).record.success
    ensures var rs := BatchRecords(src, dst, [t, t], false);
      rs[0].success && rs[1].error == Some(DestinationTableExists)
  {
    assert [t, t][..0] == [] && [t, t][..1] == [t] && [t][..0] == [];
    assert BatchAfter(src, dst, [t], false) == MigrateRun(src, dst, t, false).after;
    BatchRecordsAt(src, dst, [t, t], false, 0);
    BatchRecordsAt(src, dst, [t, t], false, 1);
    SecondMigrationConflicts(src, dst, t);
  }

  /**
   * When every migration of a batch succeeds, every table it names exists at the end,
   * and so does every table that existed before.
   */
  lemma {:induction false} BatchKeepsTables(src: Database, dst: Database, names: seq<string>, overwrite: bool)
    requires Successes(BatchRecords(src, dst, names, overwrite)) == |names|
    ensures var after := BatchAfter(src, dst, names, overwrite);
      dst.tables <= after.tables && forall j :: 0 <= j < |names| ==> names[j] in after.tables
    decreases |names|
  {
    if names != [] {
      var init := names[..|names| - 1];
      KeepStep(src, dst, names, overwrite);
      BatchKeepsTables(src, dst, init, overwrite);
    }
  }

  /** The last migration of a batch that wholly succeeds: the rest succeeded, and it keeps what they left and adds its table. */
  lemma KeepStep(src: Database, dst: Database, names: seq<string>, overwrite: bool)
    requires names != []
    requires Successes(BatchRecords(src, dst, names, overwrite)) == |names|
    ensures var init := names[..|names| - 1];
      Successes(BatchRecords(src, dst, init, overwrite)) == |init|
      && BatchAfter(src, dst, init, overwrite).tables + {names[|names| - 1]} <= BatchAfter(src, dst, names, overwrite).tables
  {
    var init := names[..|names| - 1];
    var prev := BatchAfter(src, dst, init, overwrite);
    var run := MigrateRun(src, prev, names[|names| - 1], overwrite);
    SuccessesSnoc(BatchRecords(src, dst, init, overwrite), run.record);
    SuccessesBound(BatchRecords(src, dst, init, overwrite));
    MigrateLeavesDestination(src, prev, names[|names| - 1], overwrite);
  }

  /**
   * A batch in dependency order: when every table the `i`-th one references already
   * exists or comes earlier, and the earlier migrations succeeded, its create is not
   * rejected for a missing reference; it fails only where the destination rejects it outright.
   */
  lemma DependencyOrderCreates(src: Database, dst: Database, names: seq<string>, overwrite: bool, i: nat)
    requires i < |names|
    requires Successes(BatchRecords(src, dst, names[..i], overwrite)) == i
    requires forall r :: r in Needs(src, names[i]) ==> r in dst.tables || exists j :: 0 <= j < i && names[j] == r
    ensures var after := BatchAfter(src, dst, names[..i], overwrite);
      Needs(src, names[i]) <= after.tables
      && (CreateSucceeds(src, after, names[i]) <==> names[i] !in dst.createFails)
  {
    BatchKeepsTables(src, dst, names[..i], overwrite);
    BatchAfterUntouchedFaults(src, dst, names[..i], overwrite);
  }

  /** A batch changes only the destination's set of tables. */
  lemma {:induction false} BatchAfterUntouchedFaults(src: Database, dst: Database, names: seq<string>, overwrite: bool)
    ensures var after := BatchAfter(src, dst, names, overwrite);
      after == dst.(tables := after.tables)
    decreases |names|
  {
    if names != [] {
      var init := names[..|names| - 1];
      BatchAfterUntouchedFaults(src, dst, init, overwrite);
      MigrateLeavesDestination(src, BatchAfter(src, dst, init, overwrite), names[|names| - 1], overwrite);
    }
  }

  /**
   * Out of dependency order: a table whose referenced table is not yet at the destination
   * fails to be created, whatever the destination would otherwise accept.
   */
  lemma MissingReferenceFails(src: Database, dst: Database, t: string, r: string, overwrite: bool)
    requires t in src.tables && t in src.structures && t !in dst.tables
    requires r in Needs(src, t) && r !in dst.tables
    ensures var run := MigrateRun(src, dst, t, overwrite);
      run.record.error == Some(CreateFailed) && run.after == dst
  {
  }

  /** The prefix of one more name: its last name and the shorter prefix. */
  lemma PrefixStep(names: seq<string>, i: nat)
    requires i < |names|
    ensures var next := names[..i + 1];
      next != [] && next[..|next| - 1] == names[..i] && next[|next| - 1] == names[i]
  {
  }

  /** Extending a batch by one table appends that table's record, calls and success, and moves the destination on. */
  lemma BatchStep(src: Database, dst: Database, names: seq<string>, i: nat, overwrite: bool)
    requires i < |names|
    ensures var run := MigrateRun(src, BatchAfter(src, dst, names[..i], overwrite), names[i], overwrite);
      && BatchRecords(src, dst, names[..i + 1], overwrite) == BatchRecords(src, dst, names[..i], overwrite) + [run.record]
      && BatchCalls(src, dst, names[..i + 1], overwrite) == BatchCalls(src, dst, names[..i], overwrite) + run.calls
      && BatchAfter(src, dst, names[..i + 1], overwrite) == run.after
      && Successes(BatchRecords(src, dst, names[..i + 1], overwrite))
         == Successes(BatchRecords(src, dst, names[..i], overwrite)) + (if run.record.success then 1 else 0)
  {
    PrefixStep(names, i);
    assert names[..i + 1][..i] == names[..i];
    var run := MigrateRun(src, BatchAfter(src, dst, names[..i], overwrite), names[i], overwrite);
    SuccessesSnoc(BatchRecords(src, dst, names[..i], overwrite), run.record);
  }

  /**
   * `DatabaseManager`: the source, the destination as the manager's own drops and
   * creates leave it, and the calls issued so far.
   */
  class DatabaseManager {
    const source: Database
    var destination: Database
    var calls: seq<Call>

    constructor (source: Database, destination: Database)
      ensures this.source == source && this.destination == destination && calls == []
    {
      this.source := source;
      this.destination := destination;
      calls := [];
    }

    function Of(role: Role): Database
      reads this
    {
      if role == Source then source else destination
    }

    method TableExists(role: Role, t: string) returns (b: bool)
      modifies this
      ensures b == (t in old(Of(role)).tables)
      ensures calls == old(calls) + [Probe(role, t)] && destination == old(destination)
    {
      calls := calls + [Probe(role, t)];
      b := t in Of(role).tables;
    }

    method GetTableStructure(t: string) returns (sql: Option<string>)
      modifies this
      ensures sql == if t in source.structures then Some(source.structures[t]) else None
      ensures calls == old(calls) + [ReadStructure(t)] && destination == old(destination)
    {
      calls := calls + [ReadStructure(t)];
      sql := if t in source.structures then Some(source.structures[t]) else None;
    }

    /** `drop_table`: on success the table no longer exists at the destination. */
    method DropTable(t: string) returns (ok: bool)
      modifies this
      ensures ok == (t !in old(destination).dropFails)
      ensures destination == if ok then Dropped(old(destination), t) else old(destination)
      ensures calls == old(calls) + [Drop(t)]
    {
      calls := calls + [Drop(t)];
      ok := t !in destination.dropFails;
      if ok {
        destination := Dropped(destination, t);
      }
    }

    /** `create_table`: on success the table exists at the destination. */
    method CreateTable(t: string, sql: string) returns (ok: bool)
      modifies this
      ensures ok == CreateSucceeds(source, old(destination), t)
      ensures destination == if ok then Created(old(destination), t) else old(destination)
      ensures calls == old(calls) + [Create(t, sql)]
    {
      calls := calls + [Create(t, sql)];
      ok := CreateSucceeds(source, destination, t);
      if ok {
        destination := Created(destination, t);
      }
    }

    method GetTableData(t: string) returns (data: Option<seq<Row>>)
      modifies this
      ensures data == if t in source.rows then Some(source.rows[t]) else None
      ensures calls == old(calls) + [ReadData(t)] && destination == old(destination)
    {
      calls := calls + [ReadData(t)];
      data := if t in source.rows then Some(source.rows[t]) else None;
    }

    method InsertData(t: string, data: seq<Row>) returns (ok: bool)
      modifies this
      ensures ok == (t !in destination.insertFails)
      ensures calls == old(calls) + [Insert(t, data)] && destination == old(destination)
    {
      calls := calls + [Insert(t, data)];
      ok := t !in destination.insertFails;
    }

    /** `migrate_table`: the steps in order, each failure ending the run with a failure record. */
    method MigrateTable(t: string, overwrite: bool) returns (record: MigrationRecord)
      modifies this
      ensures var run := MigrateRun(source, old(destination), t, overwrite);
        record == run.record && calls == old(calls) + run.calls && destination == run.after
    {
      var inSource := TableExists(Source, t);
      if !inSource {
        return Failure(t, SourceTableMissing, [], destination).record;
      }
      var existsDest := TableExists(Destination, t);
      var structure := GetTableStructure(t);
      assert calls == old(calls) + [Probe(Source, t), Probe(Destination, t), ReadStructure(t)];
      record := ReplaceAndCopy(t, overwrite, existsDest, structure);
      assert MigrateRun(source, old(destination), t, overwrite)
        == Then([Probe(Source, t), Probe(Destination, t), ReadStructure(t)], AfterProbes(source, old(destination), t, overwrite));
      AppendAssoc(old(calls), [Probe(Source, t), Probe(Destination, t), ReadStructure(t)],
                  AfterProbes(source, old(destination), t, overwrite).calls);
    }

    /** The steps after the structure was read. */
    method ReplaceAndCopy(t: string, overwrite: bool, existsDest: bool, structure: Option<string>)
      returns (record: MigrationRecord)
      requires existsDest == (t in destination.tables)
      requires structure == if t in source.structures then Some(source.structures[t]) else None
      modifies this
      ensures var run := AfterProbes(source, old(destination), t, overwrite);
        record == run.record && calls == old(calls) + run.calls && destination == run.after
    {
      if structure.None? {
        return Failure(t, StructureUnavailable, [], destination).record;
      }
      if existsDest && overwrite {
        var dropped := DropTable(t);
        if !dropped {
          return Failure(t, DropFailed, [], destination).record;
        }
      } else if existsDest && !overwrite {
        return Failure(t, DestinationTableExists, [], destination).record;
      }
      record := Copy(t, existsDest && overwrite, structure.value);
      if existsDest {
        AppendAssoc(old(calls), [Drop(t)], FromCreate(source, Dropped(old(destination), t), t, true).calls);
      }
    }

    /** Create the table, read the rows and insert them when there are any. */
    method Copy(t: string, replaced: bool, sql: string) returns (record: MigrationRecord)
      requires t in source.structures && sql == source.structures[t]
      modifies this
      ensures var run := FromCreate(source, old(destination), t, replaced);
        record == run.record && calls == old(calls) + run.calls && destination == run.after
    {
      var created := CreateTable(t, sql);
      if !created {
        return Failure(t, CreateFailed, [], destination).record;
      }
      var data := GetTableData(t);
      if data.None? {
        return Failure(t, DataUnavailable, [], destination).record;
      }
      if data.value != [] {
        var inserted := InsertData(t, data.value);
        if !inserted {
          return Failure(t, InsertFailed, [], destination).record;
        }
      }
      record := MigrationRecord(true, t, Some(|data.value|), Some(replaced), None, SuccessMessage(t));
    }
  }

  /** One turn of a batch loop: migrate the next table and add its record. */
  method MigrateNext(manager: DatabaseManager, names: seq<string>, i: nat, overwrite: bool,
                     results: seq<MigrationRecord>, ghost dst: Database, ghost before: seq<Call>)
    returns (results': seq<MigrationRecord>)
    requires i < |names|
    requires results == BatchRecords(manager.source, dst, names[..i], overwrite)
    requires manager.calls == before + BatchCalls(manager.source, dst, names[..i], overwrite)
    requires manager.destination == BatchAfter(manager.source, dst, names[..i], overwrite)
    modifies manager
    ensures results' == BatchRecords(manager.source, dst, names[..i + 1], overwrite)
    ensures |results'| == i + 1 && results' == results + [results'[i]]
    ensures results'[i] == MigrateRun(manager.source, old(manager.destination), names[i], overwrite).record
    ensures manager.calls == before + BatchCalls(manager.source, dst, names[..i + 1], overwrite)
    ensures manager.destination == BatchAfter(manager.source, dst, names[..i + 1], overwrite)
  {
    BatchStep(manager.source, dst, names, i, overwrite);
    ghost var done := BatchCalls(manager.source, dst, names[..i], overwrite);
    var result := manager.MigrateTable(names[i], overwrite);
    results' := results + [result];
    AppendAssoc(before, done, MigrateRun(manager.source, old(manager.destination), names[i], overwrite).calls);
  }

  lemma AppendAssoc<T>(a: seq<T>, b: seq<T>, c: seq<T>)
    ensures (a + b) + c == a + (b + c)
  {
  }

  /** The loop of a fire: migrate each table in order and count the successes. */
  method MigrateCountingSuccesses(manager: DatabaseManager, names: seq<string>, overwrite: bool)
    returns (migratedCount: nat)
    modifies manager
    ensures migratedCount == Successes(BatchRecords(manager.source, old(manager.destination), names, overwrite))
    ensures manager.calls == old(manager.calls) + BatchCalls(manager.source, old(manager.destination), names, overwrite)
    ensures manager.destination == BatchAfter(manager.source, old(manager.destination), names, overwrite)
  {
    ghost var dst := manager.destination;
    var results: seq<MigrationRecord> := [];
    migratedCount := 0;
    var i := 0;
    while i < |names|
      invariant 0 <= i <= |names|
      invariant results == BatchRecords(manager.source, dst, names[..i], overwrite)
      invariant migratedCount == Successes(results)
      invariant manager.calls == old(manager.calls) + BatchCalls(manager.source, dst, names[..i], overwrite)
      invariant manager.destination == BatchAfter(manager.source, dst, names[..i], overwrite)
    {
      var results' := MigrateNext(manager, names, i, overwrite, results, dst, old(manager.calls));
      SuccessesSnoc(results, results'[i]);
      migratedCount := migratedCount + if results'[i].success then 1 else 0;
      results := results';
      i := i + 1;
    }
    assert names[..i] == names;
  }
}
