/**
 * The PostgreSQL adapter's `get_table_structure`: a CREATE TABLE statement written
 * from the column records of `information_schema.columns`, one definition per line.
 */
module PostgreSqlDdl {
  import opened Common
  import opened Text

  /** One row of the column query, in ordinal order. */
  datatype ColumnRecord = ColumnRecord(
    columnName: string,
    dataType: string,
    isNullable: string,              // 'YES' or 'NO'
    columnDefault: Option<string>,
    characterMaximumLength: Option<int>)

  datatype Structure = Structure(tableName: string, createTableSql: string, columns: seq<ColumnRecord>)

  datatype StructureError = TableNotFound   // the column query returned no row

  /** Python's truth test on `column_default`: present and non-empty. */
  predicate HasDefault(col: ColumnRecord) {
    col.columnDefault.Some? && col.columnDefault.value != ""
  }

  /** `    {column_name} {data_type}`, the part every definition starts with. */
  function DefinitionHead(col: ColumnRecord): string {
    "    " + col.columnName + " " + col.dataType
  }

  /**
   * `col_def`: the head, then ` NOT NULL` exactly when the column is not nullable, then
   * ` DEFAULT <d>` exactly when it has a default.
   */
  function ColumnDefinition(col: ColumnRecord): (d: string)
    ensures |d| >= |DefinitionHead(col)| && d[..|DefinitionHead(col)|] == DefinitionHead(col)
    ensures var rest := d[|DefinitionHead(col)|..];
      col.isNullable == "NO" <==> |rest| >= 9 && rest[..9] == " NOT NULL"
    ensures var tail := d[|DefinitionHead(col)| + (if col.isNullable == "NO" then 9 else 0)..];
      && (HasDefault(col) <==> tail != [])
      && (HasDefault(col) ==> tail == " DEFAULT " + col.columnDefault.value)
  {
    var head := DefinitionHead(col);
    var notNull := if col.isNullable == "NO" then " NOT NULL" else "";
    var default := if HasDefault(col) then " DEFAULT " + col.columnDefault.value else "";
    var d := head + notNull + default;
    assert d[..|head|] == head && d[|head|..] == notNull + default;
    assert d[|head| + |notNull|..] == default;
    d
  }

  /** The definitions followed by `,` except the last: the lines `",\n".join` leaves. */
  function WithCommas(defs: seq<string>): (r: seq<string>)
    ensures |r| == |defs|
    ensures forall i :: 0 <= i < |defs| ==> r[i] == if i < |defs| - 1 then defs[i] + "," else defs[i]
  {
    if |defs| <= 1 then defs else [defs[0] + ","] + WithCommas(defs[1..])
  }

  lemma {:induction false} JoinWithCommas(defs: seq<string>)
    ensures Join(defs, ",\n") == Join(WithCommas(defs), "\n")
  {
    if |defs| > 1 {
      JoinWithCommas(defs[1..]);
      assert WithCommas(defs)[1..] == WithCommas(defs[1..]);
      assert defs[0] + ",\n" + Join(defs[1..], ",\n") == (defs[0] + ",") + "\n" + Join(defs[1..], ",\n");
    }
  }

  lemma {:induction false} JoinAppend(p: seq<string>, q: seq<string>, sep: string)
    requires p != [] && q != []
    ensures Join(p + q, sep) == Join(p, sep) + sep + Join(q, sep)
    decreases |p|
  {
    if |p| == 1 {
      assert (p + q)[1..] == q;
    } else {
      assert (p + q)[1..] == p[1..] + q;
      JoinAppend(p[1..], q, sep);
    }
  }

  /** The statement text: header line, the joined definitions, and the closing line. */
  function CreateTableSql(tableName: string, defs: seq<string>): string {
    "CREATE TABLE " + tableName + " (\n" + Join(defs, ",\n") + "\n);"
  }

  /** The statement is its header line, then one line per definition, in order, then `);`. */
  lemma {:induction false} CreateTableSqlLines(tableName: string, defs: seq<string>)
    requires defs != []
    requires '\n' !in tableName
    requires forall i :: 0 <= i < |defs| ==> '\n' !in defs[i]
    ensures Lines(CreateTableSql(tableName, defs)) ==
      ["CREATE TABLE " + tableName + " ("] + WithCommas(defs) + [");"]
  {
    var parts := ["CREATE TABLE " + tableName + " ("] + WithCommas(defs) + [");"];
    CreateTableSqlJoin(tableName, defs);
    PartsWithoutNewline(tableName, defs);
    LinesOfJoin(parts);
  }

  /** The statement joins the header, the definitions with their commas and `);` with newlines. */
  lemma {:induction false} CreateTableSqlJoin(tableName: string, defs: seq<string>)
    requires defs != []
    ensures CreateTableSql(tableName, defs) ==
      Join(["CREATE TABLE " + tableName + " ("] + WithCommas(defs) + [");"], "\n")
  {
    var header := "CREATE TABLE " + tableName + " (";
    var body := WithCommas(defs);
    JoinWithCommas(defs);
    JoinAppend([header], body, "\n");
    JoinAppend([header] + body, [");"], "\n");
  }

  lemma {:induction false} PartsWithoutNewline(tableName: string, defs: seq<string>)
    requires '\n' !in tableName
    requires forall i :: 0 <= i < |defs| ==> '\n' !in defs[i]
    ensures var parts := ["CREATE TABLE " + tableName + " ("] + WithCommas(defs) + [");"];
      forall i :: 0 <= i < |parts| ==> '\n' !in parts[i]
  {
    var body := WithCommas(defs);
    var parts := ["CREATE TABLE " + tableName + " ("] + body + [");"];
    forall i | 0 <= i < |parts| ensures '\n' !in parts[i] {
      if 0 < i < |parts| - 1 {
        assert parts[i] == body[i - 1];
        assert '\n' !in defs[i - 1];
        if i - 1 < |defs| - 1 {
          assert body[i - 1] == defs[i - 1] + ",";
        }
      }
    }
  }

  /**
   * `get_table_structure` over the rows of the column query: no row means the table is
   * not found; otherwise one definition per column, in the given order.
   */
  method GetTableStructure(tableName: string, columns: seq<ColumnRecord>) returns (r: Result<Structure, StructureError>)
    ensures columns == [] <==> r == Err(TableNotFound)
    ensures r.Ok? ==> r.value.tableName == tableName && r.value.columns == columns
    ensures r.Ok? ==> exists defs ::
      && |defs| == |columns|
      && (forall i :: 0 <= i < |columns| ==> defs[i] == ColumnDefinition(columns[i]))
      && r.value.createTableSql == CreateTableSql(tableName, defs)
  {
    if columns == [] {
      return Err(TableNotFound);
    }
    var defs: seq<string> := [];
    for i := 0 to |columns|
      invariant |defs| == i
      invariant forall k :: 0 <= k < i ==> defs[k] == ColumnDefinition(columns[k])
    {
      defs := defs + [ColumnDefinition(columns[i])];
    }
    var sql := "CREATE TABLE " + tableName + " (\n";
    sql := sql + Join(defs, ",\n");
    sql := sql + "\n);";
    return Ok(Structure(tableName, sql, columns));
  }
}
