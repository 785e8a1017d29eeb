# mysql_sync_db — a Dafny model of the table-sync core

mysql_sync_db copies tables from a source database (MySQL or PostgreSQL) to a
destination database, one table or a batch at a time, on demand or on a cron schedule.
This project models the logic that sits between its SQL calls and proves what that
logic promises:

- the adapter bookkeeping (`mysql_adapter.py`, `postgresql_adapter.py`):
  - the depth-first ordering of tables by their foreign-key references;
  - the regular-expression rewrite that strips foreign keys and pins the MySQL engine and character set;
  - the PostgreSQL `CREATE TABLE` synthesis;
  - summaries and their totals;
  - batched inserts;
  - row dictionaries;
  - connection URLs;
- the adapter factory's registry of engine names (`adapter_factory.py`);
- `DatabaseManager.migrate_table`, a step sequence over a source and a destination
  database that always returns a result record (`database.py`);
- the `migrate_batch` route and the single-table route's response (`database_routes.py`);
- the difference finder of the comparison service (`database_service.py`);
- the cron service: its job table, the refresh done by the listing, deletion and the
  scheduled fire (`cron_service.py`).

Every SQL round trip is an oracle: a parameter, or a field of a `Database` value saying
what each adapter call answers or whether it fails. The destination's set of tables is
state: the manager's own successful drops and creates change it, so a later migration
through the same manager (the module-level `db_manager` of `database.py:239`, which the
routes and the cron fires share) sees the tables an earlier one created. The statement
`migrate_table` creates keeps its foreign keys (`database.py:190` passes
`remove_foreign_keys=False`), so a create also fails while a table that the statement
references is missing at the destination; that is why the batch route and the cron fire
migrate the tables in dependency order. `migrate_table` and the batch loops
are specified by a `Run`: the record produced plus the sequence of adapter calls issued,
so that orderings such as "the drop precedes the create" and "nothing is done to the
destination" are stated about that sequence.

Modules follow the source files:

| module | file | models |
|---|---|---|
| `Common` | `common.dfy` | options/results, distinctness, Python's `s[:k]` |
| `Text` | `text.dfy` | `str.lower`, `str.rstrip`, `\s`, `\w`, `str(int)`, joins |
| `Models` | `models.dfy` | the pydantic records, name-keyed dictionaries |
| `DependencyResolver` | `dependency_resolver.dfy` | `_get_table_dependencies`, `_sort_tables_by_dependencies` |
| `MySqlDdl`, `MySqlStructure` | `mysql_ddl.dfy` | `_remove_foreign_keys`, MySQL `get_table_structure` |
| `MySqlDdlExample` | `mysql_ddl_example.dfy` | `_remove_foreign_keys` on a statement whose last definition is a constraint with an `ON DELETE` action |
| `PostgreSqlDdl` | `postgresql_ddl.dfy` | PostgreSQL `get_table_structure` |
| `Adapters` | `adapters.dfy` | summaries, `insert_data`, `get_table_data`, URLs |
| `AdapterFactory` | `adapter_factory.dfy` | `DatabaseAdapterFactory` |
| `Migration` | `database.dfy` | `DatabaseManager`, role dispatch, the batch specification |
| `DatabaseService` | `database_service.dfy` | `_find_differences` |
| `DatabaseRoutes` | `database_routes.dfy` | the migrate routes |
| `CronService` | `cron_service.dfy` | `CronService` |

Where the code and its own comments disagree, the model follows the code.

- On a dependency cycle, the comment at `mysql_adapter.py:232` says that the tables are
  returned in alphabetical order. In the code, `visit` returns `sorted(table_names)` at
  `mysql_adapter.py:234`, but both callers (:244, :253) discard that value. The back
  edge is simply cut and the traversal goes on. `DependencyResolver.Visit` models that:
  the result is still a permutation of the tables, but it need not be alphabetical.
  Tables `["a", "b"]` that reference each other come out as `["b", "a"]`: `visit("a")`
  visits `b`, which meets the cycle at `a`, and `b` is appended first. The same two
  tables listed as `["b", "a"]` happen to come out alphabetical, as `["a", "b"]`. The
  alphabetical fall-back that the comment at `mysql_adapter.py:273` describes happens
  only when the `try` block raises.
- `_remove_foreign_keys` appends `) ENGINE=InnoDB DEFAULT CHARSET=utf8` to a statement
  in which no `ENGINE=<word>` is left (`mysql_adapter.py:175-177`).
  `MySqlDdl.NoEngineGainsOptions` states this behaviour exactly as written. The main
  way to get there is a foreign-key constraint with an `ON DELETE` or `ON UPDATE`
  action as the table's last definition. The action's `[^,]+` (`mysql_adapter.py:156`)
  runs to the next comma, and after the last definition there is none. So the match
  deletes everything to the end of the statement, including the closing `)`, the
  `ENGINE=…` and the `DEFAULT CHARSET=…` of the table. The appended
  `) ENGINE=InnoDB DEFAULT CHARSET=utf8` is then what closes the column list, and the
  table's own engine is replaced without a trace.
  `MySqlDdlExample.ActionSwallowsOptions` proves this for a statement ending in
  `` ,CONSTRAINT `fk_p` FOREIGN KEY (`p`) REFERENCES `t` (`id`) ON DELETE CASCADE) ENGINE=MyISAM ``,
  preceded by a `` KEY `fk_p` `` index and a column list without commas (one
  definition), without `ENGINE=` or `DEFAULT CHARSET=` text and not ending in white space.
  Longer column lists are not covered by the proof.
  A statement whose definitions survive but that has no engine clause gets the same
  suffix. If such a statement already ends in `)`, the `)` is doubled before ` ENGINE=`.

## Model

| member | source | states |
|---|---|---|
| Common.PyPrefix | backend/app/routes/database_routes.py:132 | `s[:k]` keeps the first `k` elements, or all of them when `k` exceeds the length; a negative `k` drops `-k` from the end (none left when `-k` exceeds the length); the result is always a prefix |
| Text.Lower | backend/app/core/adapters/adapter_factory.py:22 | `str.lower()` keeps the length and lowers each character in place |
| Text.LowerIdempotent | backend/app/core/adapters/adapter_factory.py:22-38 | lowering an already lowered name changes nothing, so a registered key is found again by lookup |
| Text.RStrip | backend/app/core/adapters/mysql_adapter.py:177 | `rstrip()` removes exactly the trailing white space: what remains is a prefix that is empty or ends in a non-space, and only white space followed it |
| Text.IntToStringRoundTrip | backend/app/core/adapters/mysql_adapter.py:86 | the decimal text `str(port)` puts in a URL reads back as the same integer |
| Text.NatToStringRoundTrip | backend/app/routes/database_routes.py:158 | the decimal text of a count is digits only and reads back as the same count |
| Models.ByName | backend/app/services/database_service.py:67-68 | the name-keyed dictionary has exactly the listed names as keys, and each maps to an entry of that name from the list |
| Models.ByNameLastWins | backend/app/services/database_service.py:67-68 | when names repeat, the dictionary holds the last entry of each name |
| Models.ByNameOfDistinct | backend/app/core/adapters/mysql_adapter.py:256 | with distinct names, each name maps back to its own entry |
| Models.DictKeys | backend/app/services/database_service.py:71-91 | the dictionary's iteration order: each name once, and exactly the names listed |
| Models.DictKeysOfDistinct | backend/app/services/database_service.py:71 | with distinct names, iteration order is list order |
| DependencyResolver.UniqueReferences | backend/app/core/adapters/mysql_adapter.py:203-206 | the dependency list has no repeats and no empty names, and holds exactly the non-empty names the query returned |
| DependencyResolver.UniqueReferencesKeepsFirstOccurrenceOrder | backend/app/core/adapters/mysql_adapter.py:203-206 | the dependencies keep the order of their first occurrences in the query rows |
| DependencyResolver.TableDependencies | backend/app/core/adapters/mysql_adapter.py:185-208 | the collecting loop builds exactly `UniqueReferences` of the rows |
| DependencyResolver.DependencyGraph | backend/app/core/adapters/mysql_adapter.py:218-223 | the graph has one key per table name, each mapping to that table's de-duplicated references |
| DependencyResolver.BuildDependencyGraph | backend/app/core/adapters/mysql_adapter.py:221-223 | the filling loop builds exactly `DependencyGraph` |
| DependencyResolver.BackEdgeCloses | backend/app/core/adapters/mysql_adapter.py:231-234 | a reference from the table being visited to a table on the traversal stack means the graph has a cycle |
| DependencyResolver.Visit | backend/app/core/adapters/mysql_adapter.py:230-248 | `visit` only appends, and never appends a table twice. Afterwards the table is visited, or it is on the stack and its back edge is ignored. Without a cycle, every table it appends follows its in-set dependencies. With no in-set dependencies, it appends just the table itself |
| DependencyResolver.VisitDependencies | backend/app/core/adapters/mysql_adapter.py:242-244 | every dependency that is among the tables is finished or on the stack afterwards, and references outside the set are skipped |
| DependencyResolver.DependenciesDone | backend/app/core/adapters/mysql_adapter.py:242-247 | without a cycle, every in-set dependency of a finished visit is visited |
| DependencyResolver.AppendAfterDependencies | backend/app/core/adapters/mysql_adapter.py:248 | appending a table whose in-set dependencies are all listed keeps "dependencies first" |
| DependencyResolver.VisitUnvisited | backend/app/core/adapters/mysql_adapter.py:251-253 | one turn of the outer loop leaves the table visited and keeps the ordering invariants |
| DependencyResolver.SortTableNames | backend/app/core/adapters/mysql_adapter.py:226-253 | the order lists every table name exactly once. Without a cycle, every table follows the tables it references. With no in-set references, the input order is kept |
| DependencyResolver.EntriesPermutation | backend/app/core/adapters/mysql_adapter.py:256-261 | looking up each ordered name once gives a permutation of the entries |
| DependencyResolver.EntriesInOwnOrder | backend/app/core/adapters/mysql_adapter.py:256-261 | looking the names up in their own order gives the entries back |
| DependencyResolver.Reassemble | backend/app/core/adapters/mysql_adapter.py:256-266 | the rebuilt list holds only input entries; when the order covers every name, it is the entry of each ordered name, in that order |
| DependencyResolver.OrderedEntries | backend/app/core/adapters/mysql_adapter.py:255-266 | the rebuilt entries are a permutation (distinct names), referenced tables come first (acyclic), and the input order is kept (no references) |
| DependencyResolver.SortTablesByDependencies | backend/app/core/adapters/mysql_adapter.py:214-269 | the sorted list is a permutation of the tables when names are distinct; without a cycle, referenced tables precede referencing ones; with no in-set references it is the input unchanged |
| MySqlDdl.SpaceEnd | backend/app/core/adapters/mysql_adapter.py:156-180 | a greedy `\s*` consumes exactly the white-space run that starts here |
| MySqlDdl.WordEnd | backend/app/core/adapters/mysql_adapter.py:169-175 | a greedy `\w+` continuation consumes exactly the word-character run that starts here |
| MySqlDdl.RunEnd | backend/app/core/adapters/mysql_adapter.py:156-161 | a greedy `[^c]+` consumes everything up to the next `c` or the end |
| MySqlDdl.ActionClause | backend/app/core/adapters/mysql_adapter.py:156 | an `ON DELETE`/`ON UPDATE` group, when it matches, ends at the next comma or the end of the text |
| MySqlDdl.ForeignKeyConstraint | backend/app/core/adapters/mysql_adapter.py:156 | a foreign-key clause match is non-empty and lies within the text |
| MySqlDdl.ForeignKeyIndex | backend/app/core/adapters/mysql_adapter.py:161 | an `fk_` key match is non-empty and lies within the text |
| MySqlDdl.DoubleComma | backend/app/core/adapters/mysql_adapter.py:165 | a `,\s*,` match is non-empty and lies within the text |
| MySqlDdl.TrailingComma | backend/app/core/adapters/mysql_adapter.py:166 | a `,\s*\)` match is non-empty and lies within the text |
| MySqlDdl.Charset | backend/app/core/adapters/mysql_adapter.py:169 | `DEFAULT\s+CHARSET=\w+` matches here exactly when the text starts that way, case-insensitively, and the match ends after the whole word |
| MySqlDdl.Engine | backend/app/core/adapters/mysql_adapter.py:172-175 | `ENGINE=\w+` matches here exactly when the text starts with `ENGINE=` (any case) and a word character, and the match ends after the whole word |
| MySqlDdl.ClosingEngine | backend/app/core/adapters/mysql_adapter.py:180 | `\)\s*ENGINE=` matches here exactly when `)`, blanks and `ENGINE=` start the text, and the match ends just after `ENGINE=` |
| MySqlDdl.Search | backend/app/core/adapters/mysql_adapter.py:175 | `re.search` finds something exactly when the pattern matches at some position |
| MySqlDdl.SubWithoutMatch | backend/app/core/adapters/mysql_adapter.py:157-180 | `re.sub` leaves text without any match unchanged |
| MySqlDdl.DropForeignKeysWithoutKeys | backend/app/core/adapters/mysql_adapter.py:154-166 | a statement without foreign keys and without doubled or trailing commas passes lines 154-166 unchanged |
| MySqlDdl.EngineRewrite | backend/app/core/adapters/mysql_adapter.py:172 | the engine rewrite replaces a whole `ENGINE=<word>` with `ENGINE=InnoDB` |
| MySqlDdl.CharsetRewrite | backend/app/core/adapters/mysql_adapter.py:169 | the charset rewrite replaces a whole `DEFAULT CHARSET=<word>` with `DEFAULT CHARSET=utf8` |
| MySqlDdl.ClosingRewrite | backend/app/core/adapters/mysql_adapter.py:180 | the closing rewrite writes `) ENGINE=`, and that text cannot start a charset clause |
| MySqlDdl.NoEngineGainsOptions | backend/app/core/adapters/mysql_adapter.py:175-177 | a statement without `ENGINE=<word>` becomes its charset-pinned, right-stripped text followed by `) ENGINE=InnoDB DEFAULT CHARSET=utf8` |
| MySqlDdl.TableOptionsPinned | backend/app/core/adapters/mysql_adapter.py:168-180 | afterwards every `ENGINE=<word>` reads `ENGINE=InnoDB`, every `DEFAULT CHARSET=<word>` reads `DEFAULT CHARSET=utf8`, and an engine clause is present |
| MySqlDdl.RemoveForeignKeysPins | backend/app/core/adapters/mysql_adapter.py:150-183 | whatever the statement, `_remove_foreign_keys` returns one whose engine is InnoDB and whose charset is utf8 everywhere, with an engine clause present |
| MySqlDdlExample.ConstraintTakesTail | backend/app/core/adapters/mysql_adapter.py:156 | on `` ,CONSTRAINT `fk_p` FOREIGN KEY (`p`) REFERENCES `t` (`id`) ON DELETE CASCADE) ENGINE=MyISAM ``, the constraint pattern matches the whole text, past the closing parenthesis and the engine |
| MySqlDdlExample.IndexMatches | backend/app/core/adapters/mysql_adapter.py:161 | the `fk_` index pattern matches a whole `` ,KEY `fk_<name>` (<column>) `` when the name has no backquote and the column no closing parenthesis |
| MySqlDdlExample.IndexIsNoConstraint | backend/app/core/adapters/mysql_adapter.py:156 | the constraint pattern does not match at a `,K` (an index definition) |
| MySqlDdlExample.ConstraintRemoved | backend/app/core/adapters/mysql_adapter.py:156-157 | after a comma-free column list and an `fk_` index, line 157 deletes the trailing constraint with everything after it and keeps the rest |
| MySqlDdlExample.KeysRemoved | backend/app/core/adapters/mysql_adapter.py:154-166 | lines 154-166 reduce that statement to its column list: constraint and index are gone, and the closing `)` and table options with them |
| MySqlDdlExample.ActionSwallowsOptions | backend/app/core/adapters/mysql_adapter.py:150-183 | `_remove_foreign_keys` turns a column list without commas (one definition), without `ENGINE=` or `DEFAULT CHARSET=` text and not ending in white space, followed by that index and constraint, into the column list followed by `) ENGINE=InnoDB DEFAULT CHARSET=utf8`: the table's `ENGINE=MyISAM` is lost |
| MySqlDdlExample.TableRemovesForeignKeys | backend/app/core/adapters/mysql_adapter.py:150-183 | on `` (`p` int `` followed by that index and constraint, the result is `` (`p` int) ENGINE=InnoDB DEFAULT CHARSET=utf8 `` |
| MySqlStructure.GetTableStructure | backend/app/core/adapters/mysql_adapter.py:110-148 | no `SHOW CREATE TABLE` row raises not-found. Otherwise the statement is returned as read, or rewritten by `_remove_foreign_keys` when asked. The `DESCRIBE` columns come back in order |
| PostgreSqlDdl.ColumnDefinition | backend/app/core/adapters/postgresql_adapter.py:125-129 | a definition is `    <name> <type>`, then ` NOT NULL` exactly when `is_nullable` is `NO`, then ` DEFAULT <d>` exactly when the default is truthy |
| PostgreSqlDdl.WithCommas | backend/app/core/adapters/postgresql_adapter.py:132 | every definition but the last is followed by a comma |
| PostgreSqlDdl.JoinWithCommas | backend/app/core/adapters/postgresql_adapter.py:132 | `",\n".join` equals joining the comma-suffixed definitions with line breaks |
| PostgreSqlDdl.CreateTableSqlJoin | backend/app/core/adapters/postgresql_adapter.py:122-133 | the statement is the header, the comma-suffixed definitions and `);`, joined by line breaks |
| PostgreSqlDdl.CreateTableSqlLines | backend/app/core/adapters/postgresql_adapter.py:122-133 | split into lines, the statement is `CREATE TABLE <name> (`, one line per column in order, then `);` |
| PostgreSqlDdl.GetTableStructure | backend/app/core/adapters/postgresql_adapter.py:89-143 | no column raises not-found, and only then. Otherwise the statement is built from one definition per column, in ordinal order |
| Adapters.TotalsAppend | backend/app/core/adapters/mysql_adapter.py:71-72 | the row and size totals of two lists add up |
| Adapters.TotalsOfPermutation | backend/app/core/adapters/mysql_adapter.py:68-72 | reordering the tables changes neither total |
| Adapters.RemoveAt | backend/app/core/adapters/mysql_adapter.py:71-72 | removing one entry lowers each total by exactly that entry's share |
| Adapters.MySqlSummary | backend/app/core/adapters/mysql_adapter.py:66-81 | the summary is `mysql`, names the database, and counts and sums its own tables. Unsorted, the tables are as listed. Sorted, no table is lost or gained and the totals equal those of the listed tables (distinct names) |
| Adapters.PgSummary | backend/app/core/adapters/postgresql_adapter.py:68-83 | the summary has database type `"postgresql"` and the given database name, and lists the tables as read, with their count, row total and size total |
| Adapters.PgSummaryIgnoresSort | backend/app/core/adapters/postgresql_adapter.py:68-70 | the dependency-sort flag makes no difference |
| Adapters.BatchesCover | backend/app/core/adapters/mysql_adapter.py:332-335 | the batches are non-empty and at most 1000 rows each, all but the last exactly 1000, `ceil(n/1000)` of them, and together the data in order |
| Adapters.SendStep | backend/app/core/adapters/postgresql_adapter.py:201-204 | sending the next slice keeps the sent batches a prefix of all batches, and their rows a prefix of the data |
| Adapters.InsertData | backend/app/core/adapters/mysql_adapter.py:316-343 | empty data succeeds and sends nothing. Batches go out in order until one fails. The insert succeeds exactly when no batch fails, and then everything is stored. After a failure, MySQL (autocommit) keeps the earlier batches and PostgreSQL (single commit, postgresql_adapter.py:206) keeps none |
| Adapters.RowOf | backend/app/core/adapters/mysql_adapter.py:293-295 | the row's keys are the names of the columns that received a value |
| Adapters.RowOfValue | backend/app/core/adapters/mysql_adapter.py:294-295 | a name maps to the value at its last position |
| Adapters.RowOfDistinct | backend/app/core/adapters/postgresql_adapter.py:162-165 | with distinct column names, `columns[i]` maps to the i-th value |
| Adapters.RowDict | backend/app/core/adapters/postgresql_adapter.py:162-165 | the per-row loop builds `RowOf`, and raises an index error exactly when a row has more values than there are column names |
| Adapters.TableData | backend/app/core/adapters/mysql_adapter.py:276-302 | `get_table_data` succeeds exactly when no row is longer than the column list, and then gives one dictionary per row, in order |
| Adapters.MySqlUrlWithFallback | backend/app/core/adapters/mysql_adapter.py:88-108 | the URL uses the first of utf8, utf8mb4 and latin1 that connects, or utf8 when none does |
| Adapters.NoSlashInNumber | backend/app/core/adapters/mysql_adapter.py:86 | a port's text holds no `/`, so the database name is separated from it |
| Adapters.AuthorityRoundTrip | backend/app/core/adapters/mysql_adapter.py:86 | `{user}:{password}@{host}:{port}/{database}` reads back by the model's parser `ParseAuthority` as the credentials it was built from (for credentials whose separators are unambiguous) |
| Adapters.PgUrlRoundTrip | backend/app/core/adapters/postgresql_adapter.py:85-87 | when the credentials are separable (no `:` in the user or the host, no `@` in the password), the PostgreSQL URL reads back by `ParseAuthority` as exactly its credentials; the f-string escapes nothing, so other credentials can be misread |
| Adapters.MySqlUrlRoundTrip | backend/app/core/adapters/mysql_adapter.py:83-86 | when the credentials are separable (no `:` in the user or the host, no `@` in the password) and no `?` occurs before the query, the MySQL URL reads back by `ParseAuthority` as exactly its credentials and charset, with autocommit on; the f-string escapes nothing, so other credentials can be misread |
| AdapterFactory.Register | backend/app/core/adapters/adapter_factory.py:36-38 | registering keeps the registry well formed: lower-case keys, each once, in insertion order. It adds exactly the lower-cased type |
| AdapterFactory.LookupIffListed | backend/app/core/adapters/adapter_factory.py:22-26 | a type is accepted exactly when its lower-case form is a supported type |
| AdapterFactory.ListedAccepted | backend/app/core/adapters/adapter_factory.py:22 | every case variant of a supported type resolves to its class |
| AdapterFactory.RegisterThenLookup | backend/app/core/adapters/adapter_factory.py:22-38 | after registering under `t`, every case variant of `t` resolves to the new class |
| AdapterFactory.RegisterKeepsOthers | backend/app/core/adapters/adapter_factory.py:38 | registering changes the lookup of no other type |
| AdapterFactory.RegisterKeepsOrder | backend/app/core/adapters/adapter_factory.py:33-38 | the supported types keep their order; a new type goes last, and an existing one stays in place |
| AdapterFactory.InitialWellFormed | backend/app/core/adapters/adapter_factory.py:14-17 | the initial registry is well formed |
| AdapterFactory.DatabaseAdapterFactory.constructor | backend/app/core/adapters/adapter_factory.py:14-17 | the registry starts as exactly `mysql`, then `postgresql` |
| AdapterFactory.DatabaseAdapterFactory.CreateAdapter | backend/app/core/adapters/adapter_factory.py:19-28 | the adapter is created exactly when the lower-cased type is registered, and carries that class, the engine and the database name; otherwise the error lists every supported type |
| AdapterFactory.DatabaseAdapterFactory.GetSupportedTypes | backend/app/core/adapters/adapter_factory.py:30-33 | the supported types are the registered keys, in registration order and without repeats |
| AdapterFactory.DatabaseAdapterFactory.RegisterAdapter | backend/app/core/adapters/adapter_factory.py:35-38 | the registry becomes `Register` of the old one and stays well formed |
| Migration.TablesInfoRole | backend/app/core/database.py:141-144 | only `source` and `destination` are accepted, `source` selecting the source adapter |
| Migration.SummaryRole | backend/app/core/database.py:157 | every name but `source` selects the destination |
| Migration.RolesAgree | backend/app/core/database.py:141-157 | the two dispatches agree wherever the first accepts, and a rejected name goes to the destination in the second |
| Migration.MigrateSucceedsIff | backend/app/core/database.py:176-226 | a migration succeeds exactly when every step does: the source has the table, its structure and data can be read, there is no conflict, and the drop, the create (which needs every table the statement references) and the (non-empty) insert succeed |
| Migration.MigrateRecordShape | backend/app/core/database.py:220-235 | every record names the table. A success reports every fetched row, `exists and overwrite`, and the success message. A failure carries an error and the failure message, and no counts |
| Migration.SourceMissingStopsFirst | backend/app/core/database.py:180-181 | a table missing from the source fails after the single source probe |
| Migration.ConflictChangesNothing | backend/app/core/database.py:184-201 | an existing table without overwrite fails. Nothing is dropped, created or inserted at the destination, and the structure has already been read |
| Migration.DropPrecedesCreate | backend/app/core/database.py:194-206 | with overwrite, an existing table is dropped before any create, and a failed drop means no create |
| Migration.CreateFailureStopsInsert | backend/app/core/database.py:205-216 | a create that fails, whether rejected outright or for a referenced table missing at the destination, ends the run without any insert |
| Migration.CreateIgnoresOwnTable | backend/app/core/database.py:194-205 | whether a create succeeds does not depend on whether the table itself exists, so the drop before it changes nothing for the create |
| Migration.CreateDependsOnNeeds | backend/app/core/adapters/mysql_adapter.py:304-314 | two destinations with the same faults that agree on the tables a statement references agree on whether its create succeeds |
| Migration.FromCreateAgree | backend/app/core/database.py:203-226 | the steps from the create on depend on the destination's tables only through whether the create succeeds |
| Migration.MissingReferenceFails | backend/app/core/database.py:190-206 | a table created before a table it references fails with a create error and leaves the destination as it was |
| Migration.MigrateLeavesDestination | backend/app/core/database.py:194-206 | a migration changes only whether its own table exists. The table exists afterwards exactly when it existed and was not dropped, or a create of it succeeded; it exists after every success, and a run with no drop and no create leaves the destination as it was |
| Migration.SecondMigrationConflicts | backend/app/core/database.py:184-201 | on one manager, migrating a table again without overwrite after a success fails with "already exists" and changes nothing at the destination |
| Migration.SecondMigrationReplaces | backend/app/core/database.py:194-198 | with overwrite, a second migration after a success drops the table the first created, succeeds exactly when that drop does, and then reports the table as overwritten |
| Migration.MigrateDependsOnOwnTable | backend/app/core/database.py:180-216 | a migration's record and calls depend on the destination's tables only through whether its own table exists and which of the tables it references exist |
| Migration.EmptyTableSkipsInsert | backend/app/core/database.py:210-226 | an empty source table migrates 0 records and `insert_data` is not called |
| Migration.Attempted | backend/app/routes/database_routes.py:132 | the attempted names are a prefix of the ordered names: the first `max_tables` of them, or all when there are fewer |
| Migration.BatchRecordsAt | backend/app/routes/database_routes.py:132-135 | the i-th record of a batch is the migration of the i-th table against the destination the tables before it left |
| Migration.SuccessesBound | backend/app/services/cron_service.py:142-143 | successes are at most the records, and equal to them exactly when every record succeeded |
| Migration.BatchSucceedsIff | backend/app/services/cron_service.py:137-143 | every attempted table succeeds exactly when each is migratable against the destination the tables before it left |
| Migration.BatchStep | backend/app/routes/database_routes.py:132-136 | one more table appends its record, its calls and its success to the batch, and moves the destination on to what its migration left |
| Migration.BatchAfterUntouched | backend/app/routes/database_routes.py:132-135 | a batch leaves every table it does not name as it was, and nothing else about the destination changes |
| Migration.BatchOfDistinct | backend/app/services/cron_service.py:137-143 | over distinct names (a schema's table list) none of which references another, each record is the table's migration against the original destination, and all succeed exactly when each is migratable there |
| Migration.BatchKeepsTables | backend/app/routes/database_routes.py:132-135 | when every migration of a batch succeeds, every table it names and every table that existed before exist at the end |
| Migration.DependencyOrderCreates | backend/app/routes/database_routes.py:124-135 | in a batch in dependency order (every table referenced by the i-th one already exists or comes earlier) whose earlier migrations succeeded, the i-th create is not rejected for a missing reference, only where the destination rejects that table outright |
| Migration.BatchAfterUntouchedFaults | backend/app/routes/database_routes.py:132-135 | a batch changes only the destination's set of tables |
| Migration.RepeatedNameConflicts | backend/app/core/database.py:199-201 | a batch naming a table twice without overwrite: when the first migration succeeds, the second fails because the table now exists |
| Migration.DatabaseManager.constructor | backend/app/core/database.py:12-19 | a manager over the two databases, with no calls yet |
| Migration.DatabaseManager.TableExists | backend/app/core/database.py:180-184 | the probe answers whether the table exists and records the call |
| Migration.DatabaseManager.GetTableStructure | backend/app/core/database.py:190-191 | the structure is the stored statement or nothing when reading raises, and the call is recorded |
| Migration.DatabaseManager.DropTable | backend/app/core/database.py:196 | the drop reports failure exactly when the destination rejects it. After a success the table is gone from the destination; after a failure the destination is unchanged. The call is recorded |
| Migration.DatabaseManager.CreateTable | backend/app/core/database.py:205 | the create reports failure exactly when the destination rejects it outright or a table the statement references is missing there. After a success the table exists at the destination; after a failure the destination is unchanged. The call is recorded |
| Migration.DatabaseManager.GetTableData | backend/app/core/database.py:210 | the data are the stored rows or nothing when reading raises, and the call is recorded |
| Migration.DatabaseManager.InsertData | backend/app/core/database.py:215 | the insert reports failure exactly when the destination rejects it, and the call is recorded |
| Migration.DatabaseManager.MigrateTable | backend/app/core/database.py:165-235 | `migrate_table` returns the record of `MigrateRun` against the manager's current destination, issues exactly its calls, in order, and leaves the destination `MigrateRun` says; it never raises |
| Migration.DatabaseManager.ReplaceAndCopy | backend/app/core/database.py:190-226 | the steps after the probes return the record, issue the calls and leave the destination of the `AfterProbes` stage |
| Migration.DatabaseManager.Copy | backend/app/core/database.py:203-226 | create, fetch and insert return the record, issue the calls and leave the destination of the `FromCreate` stage |
| Migration.MigrateNext | backend/app/routes/database_routes.py:133-135 | one turn of a batch loop appends the table's migration record and its calls, and moves the destination on |
| Migration.MigrateCountingSuccesses | backend/app/services/cron_service.py:134-154 | the fire's loop counts exactly the successful records, issues the batch's calls in order, and leaves the destination the batch leaves |
| DatabaseRoutes.ToMigrationResult | backend/app/models/table_info.py:44-51 | the response copies the record and fills in 0 records and no overwrite when a failure omits them |
| DatabaseRoutes.RouteResult | backend/app/routes/database_routes.py:102-110 | the single-table response names the table. A success reports the fetched rows and `exists and overwrite`. A failure reports 0 records, no overwrite and an error |
| DatabaseRoutes.MigrateEach | backend/app/routes/database_routes.py:129-150 | one record per attempted table in order, the batch's calls in order, the destination the batch leaves, and `migrated_count` equal to the number attempted, failures included |
| DatabaseRoutes.MigrateBatch | backend/app/routes/database_routes.py:119-166 | when the summary cannot be read, an error, no call and an unchanged destination. Otherwise success, `total_tables` of the untruncated list, and the first `max_tables` tables attempted in order, each counted, with their records, calls and the destination they leave |
| DatabaseService.PassRecords | backend/app/services/database_service.py:71-105 | each loop emits only records of its own category, each the classification of a key it iterates |
| DatabaseService.FindDifferences | backend/app/services/database_service.py:62-107 | records come `missing_in_destination` first, then `missing_in_source`, then `different_data` |
| DatabaseService.FindDifferencesClassifies | backend/app/services/database_service.py:70-105 | each table name gets exactly one record when it is classified and none otherwise |
| DatabaseService.FindDifferencesRecords | backend/app/services/database_service.py:70-105 | every record is the classification of its table name |
| DatabaseService.ClassifiedReported | backend/app/services/database_service.py:70-105 | a classified name has exactly one record, and it is that classification |
| DatabaseService.OnlyInSourceReported | backend/app/services/database_service.py:71-78 | a table only in the source yields exactly one `missing_in_destination` record, holding its last source entry |
| DatabaseService.OnlyInDestinationReported | backend/app/services/database_service.py:81-88 | a table only in the destination yields exactly one `missing_in_source` record |
| DatabaseService.RowCountChangeReported | backend/app/services/database_service.py:91-105 | a table at both ends with unequal row counts yields exactly one `different_data` record whose `row_count_diff` is source minus destination |
| DatabaseService.IdenticalSummariesNoDifferences | backend/app/services/database_service.py:96-97 | comparing a summary with itself reports nothing |
| CronService.RefreshStatus | backend/app/services/cron_service.py:88-93 | a listed job is active when the scheduler has it with a next run, paused when it has it without one, removed when it lacks it; only status and next run change |
| CronService.RefreshIdempotent | backend/app/services/cron_service.py:86-95 | listing twice against the same scheduler state gives what listing once gives |
| CronService.Without | backend/app/services/cron_service.py:113 | removing an id from the insertion order leaves every other id |
| CronService.WithoutDistinct | backend/app/services/cron_service.py:113 | the insertion order stays free of repeats after a deletion |
| CronService.RefreshedNext | backend/app/services/cron_service.py:86-93 | refreshing the next id in order sees its stored record still untouched |
| CronService.CronService.constructor | backend/app/services/cron_service.py:29-37 | the service starts with no stored and no scheduled jobs |
| CronService.CronService.CreateCronJob | backend/app/services/cron_service.py:39-80 | an invalid expression is rejected with nothing stored or scheduled. Otherwise the job is stored as ACTIVE under the fresh id, with no last run and the given overwrite and table limit, and it is scheduled with its next run time |
| CronService.CronService.ListCronJobs | backend/app/services/cron_service.py:82-101 | one listed entry per stored job, in insertion order, each the refreshed record, and the refreshed records written back; the set of jobs is unchanged |
| CronService.CronService.RefreshNext | backend/app/services/cron_service.py:86-95 | one turn of the listing loop refreshes and lists the next job |
| CronService.CronService.DeleteCronJob | backend/app/services/cron_service.py:103-120 | an unknown id raises with nothing changed. An id the scheduler no longer has also raises with nothing changed. Otherwise exactly that job is removed from both tables |
| CronService.CronService.GetJobCount | backend/app/services/cron_service.py:161-163 | the count is the number of stored jobs |
| CronService.CronService.ExecuteSyncJob | backend/app/services/cron_service.py:122-159 | `last_run` is set only when the id is still stored, and nothing else in the job table changes. An unreadable summary ends the fire quietly. Otherwise the first `max_tables` tables are migrated in order, each against the destination the earlier ones left, and only successes are counted |
| CronService.FireBound | backend/app/services/cron_service.py:137-143 | a fire counts at most the attempted tables, which are at most `max_tables` and at most the tables listed |

## Left out

- SQL execution, connections and result parsing are oracles. This covers `test_connection`, the `information_schema` queries, `SHOW CREATE TABLE`, `DESCRIBE`, `table_exists`, `drop_table` and `create_table`. The answers are parameters or fields of `Migration.Database`. The set of destination tables follows the manager's own drops and creates; the rows written by `insert_data` are not kept, because no migration reads the destination's rows. Whether `drop_table` and `insert_data` fail is fixed per table name, and so is whether `create_table` is rejected for reasons other than a missing referenced table: an insert rejected because a referenced row has not been copied yet is not captured, and MySQL's `FOREIGN_KEY_CHECKS` is taken to be on, as it is by default. The references of a PostgreSQL source table are empty, because its synthesized statement has no foreign keys.
- Migration.DatabaseManager.DropTable: MySQL's `drop_table` (`mysql_adapter.py:359-373`) returns False also when `SET FOREIGN_KEY_CHECKS = 1` or the commit raises after the `DROP` has run, so the table can be gone although the drop reported failure. The model keeps the destination unchanged after every failed drop.
- Engine and pool construction (`database.py:21-113`) and `test_connections` are network set-up with no logic to verify.
- Adapters.AuthorityRoundTrip, Adapters.PgUrlRoundTrip, Adapters.MySqlUrlRoundTrip: the URL is read back by the model's own `ParseAuthority`, not by SQLAlchemy's `make_url`. SQLAlchemy also ends the user and the host at `/` and the database at `?`, which `Separable` does not rule out, so for such credentials the driver can read a URL differently from the model.
- The live charset probe in `get_connection_url_with_fallback` is network I/O. It is a parameter `connects` of `Adapters.MySqlUrlWithFallback`.
- APScheduler's internals are foreign library code and concurrency. This covers crontab parsing (an abstract predicate `validExpression`), next-fire computation (a given `nextRun`) and the `max_instances=1` overlap rule.
- Async execution and the event loop are not modelled.
- `uuid.uuid4()` and `datetime.now()` are parameters: a fresh id and opaque timestamps.
- Floating point is not modelled:
  - sizes are integer hundredths of a megabyte;
  - `round(..., 2)` is taken as exact;
  - the 0.01 tolerance of `_find_differences` is "more than one hundredth apart".
- Case-insensitive matching and `str.lower()` fold ASCII letters only. The Unicode extras of `re.IGNORECASE` (such as the long s and the Kelvin sign) and Unicode `\w` are outside the model, because the statements MySQL produces are ASCII in their keywords.
- `base_adapter.py` is an abstract interface. It is mirrored by the closed datatype `Adapters.Engine` and per-engine functions instead of a dynamic class hierarchy.
- HTTP wiring, status codes, `main.py`, `cron_routes.py`, `config.py` and the non-batch handlers of `database_routes.py` are transport only.
- Logging throughout is left out.
- Exception texts are enumerations (`MigrationError`, `CronError`, `FactoryError`, `RoleError`) rather than the formatted messages. The factory's error carries the type and the supported-type list it would print.
- DatabaseRoutes.MigrateBatch does not model the per-table `except` branch (`database_routes.py:143-150`). That branch is unreachable because `migrate_table` returns a record on every path and never raises.
- CronService.CronService.ExecuteSyncJob does not model the per-table `except` branch (`cron_service.py:148-154`), for the same reason. The fire's `results` list and its count are only logged by the source; the model returns the count so that it can be stated.
- The `except` fall-back of `_sort_tables_by_dependencies` (`mysql_adapter.py:271-274`) is not modelled. Nothing in the modelled body raises once the dependency lookup is a given function, and `_get_table_dependencies` itself turns errors into an empty list. One way the source does raise is not modelled either: the recursive `visit` raises `RecursionError` on a chain of references deeper than Python's recursion limit, and the source then returns the tables in alphabetical order. The model has no recursion limit.
- Adapters.InsertData: assumes each batch's statement is atomic: it either stores the whole batch or nothing. The driver (pymysql's `executemany`) may split one batch into several statements of about 1 MB each, and on a table whose engine is not transactional the rows written before the failing one stay. `migrate_table` reads the structure with `remove_foreign_keys=False` (`database.py:190`), so the source's `ENGINE` is kept and such tables can occur.
- MySqlDdl.ForeignKeyConstraint, MySqlDdl.ForeignKeyIndex, MySqlDdl.DoubleComma and MySqlDdl.TrailingComma state only where a match ends. The patterns of lines 156-166 are given by their definitions. What is proved about them is `MySqlDdl.DropForeignKeysWithoutKeys` in general, and the removal of a trailing constraint and an `fk_` index on the statement of `MySqlDdlExample`; a general "every foreign key is removed" is not stated.
- The `LIMIT` argument of `get_table_data` is left out because no modelled caller passes it.
