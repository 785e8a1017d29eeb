/**
 * The bookkeeping of the MySQL and PostgreSQL adapters around their SQL calls:
 * database summaries, batched inserts, rows as column-keyed dictionaries, and
 * connection URLs. Every query result is a parameter; every statement that may fail
 * is a predicate saying whether it raises.
 */
module Adapters {
  import opened Common
  import opened Text
  import opened Models
  import DependencyResolver

  /** The closed set of adapter variants. */
  datatype Engine = MySql | PostgreSql

  // ---------------------------------------------------------------------------
  // Summaries
  // ---------------------------------------------------------------------------

  /** `sum(table['row_count'] for table in tables_info)`. */
  function TotalRows(tables: seq<TableInfo>): int {
    if tables == [] then 0 else TotalRows(tables[..|tables| - 1]) + tables[|tables| - 1].rowCount
  }

  /** `sum(table['size_mb'] ...)` in hundredths of a megabyte. */
  function TotalSize(tables: seq<TableInfo>): int {
    if tables == [] then 0 else TotalSize(tables[..|tables| - 1]) + tables[|tables| - 1].sizeHundredths
  }

  lemma {:induction false} TotalsAppend(a: seq<TableInfo>, b: seq<TableInfo>)
    ensures TotalRows(a + b) == TotalRows(a) + TotalRows(b)
    ensures TotalSize(a + b) == TotalSize(a) + TotalSize(b)
    decreases |b|
  {
    if b == [] {
      assert a + b == a;
    } else {
      assert (a + b)[..|a + b| - 1] == a + b[..|b| - 1];
      TotalsAppend(a, b[..|b| - 1]);
    }
  }

  /** Reordering the tables changes neither total. */
  lemma {:induction false} TotalsOfPermutation(a: seq<TableInfo>, b: seq<TableInfo>)
    requires multiset(a) == multiset(b)
    ensures TotalRows(a) == TotalRows(b) && TotalSize(a) == TotalSize(b)
    decreases |a|
  {
    if a == [] {
      assert |b| == |multiset(b)| == 0;
    } else {
      var k := MatchLast(a, b);
      TotalsOfPermutation(a[..|a| - 1], RemoveAt(b, k));
    }
  }

  /** Where `b` holds the last entry of `a`, and the rest of `a` is a reordering of the rest of `b`. */
  lemma MatchLast(a: seq<TableInfo>, b: seq<TableInfo>) returns (k: nat)
    requires multiset(a) == multiset(b) && a != []
    ensures k < |b| && b[k] == a[|a| - 1]
    ensures multiset(a[..|a| - 1]) == multiset(RemoveAt(b, k))
  {
    var x := a[|a| - 1];
    assert a == a[..|a| - 1] + [x];
    assert x in multiset(b);
    k :| 0 <= k < |b| && b[k] == x;
  }

  /** `b` without its `k`-th entry: one fewer of that entry, and totals short by it. */
  function RemoveAt(b: seq<TableInfo>, k: nat): (r: seq<TableInfo>)
    requires k < |b|
    ensures multiset(r) == multiset(b) - multiset{b[k]}
    ensures TotalRows(b) == TotalRows(r) + b[k].rowCount
    ensures TotalSize(b) == TotalSize(r) + b[k].sizeHundredths
  {
    var front, back := b[..k], b[k + 1..];
    assert b == front + [b[k]] + back;
    TotalsAppend(front + [b[k]], back);
    TotalsAppend(front, [b[k]]);
    TotalsAppend(front, back);
    TotalsOfOne(b[k]);
    front + back
  }

  lemma TotalsOfOne(x: TableInfo)
    ensures TotalRows([x]) == x.rowCount && TotalSize([x]) == x.sizeHundredths
  {
    assert [x][..0] == [];
  }

  /** The dictionary both adapters' `get_database_summary` return. */
  function Summary(databaseType: string, databaseName: string, tables: seq<TableInfo>): DatabaseSummary {
    DatabaseSummary(databaseType, databaseName, |tables|, TotalRows(tables), TotalSize(tables), tables)
  }

  /**
   * The MySQL `get_database_summary`: the listed tables, ordered by dependencies when
   * asked, and their totals. Ordering loses no table and changes no total when the
   * names are distinct, as they are in one schema.
   */
  method MySqlSummary(databaseName: string, listed: seq<TableInfo>, sortByDependencies: bool,
                      references: string -> seq<Option<string>>)
    returns (summary: DatabaseSummary)
    ensures summary.databaseType == "mysql" && summary.databaseName == databaseName
    ensures summary.totalTables == |summary.tables|
    ensures summary.totalRows == TotalRows(summary.tables) && summary.totalSizeHundredths == TotalSize(summary.tables)
    ensures !sortByDependencies ==> summary.tables == listed
    ensures forall x :: x in summary.tables ==> x in listed
    ensures NamesDistinct(listed) ==>
      && multiset(summary.tables) == multiset(listed)
      && summary.totalTables == |listed|
      && summary.totalRows == TotalRows(listed)
      && summary.totalSizeHundredths == TotalSize(listed)
  {
    var tables := listed;
    if sortByDependencies {
      tables := DependencyResolver.SortTablesByDependencies(listed, references);
    }
    if NamesDistinct(listed) {
      TotalsOfPermutation(tables, listed);
      assert |tables| == |multiset(tables)| == |multiset(listed)| == |listed|;
    }
    summary := Summary("mysql", databaseName, tables);
  }

  /** The PostgreSQL `get_database_summary`: the flag is accepted and ignored. */
  function PgSummary(databaseName: string, listed: seq<TableInfo>, sortByDependencies: bool): (summary: DatabaseSummary)
    ensures summary.databaseType == "postgresql" && summary.databaseName == databaseName
    ensures summary.tables == listed && summary.totalTables == |listed|
    ensures summary.totalRows == TotalRows(listed) && summary.totalSizeHundredths == TotalSize(listed)
  {
    Summary("postgresql", databaseName, listed)
  }

  /** Asking PostgreSQL for the dependency order changes nothing. */
  lemma PgSummaryIgnoresSort(databaseName: string, listed: seq<TableInfo>)
    ensures PgSummary(databaseName, listed, true) == PgSummary(databaseName, listed, false)
  {
  }

  // ---------------------------------------------------------------------------
  // Batched inserts
  // ---------------------------------------------------------------------------

  const BatchSize: nat := 1000

  /** `[data[i:i + 1000] for i in range(0, len(data), 1000)]`. */
  function Batches<T>(data: seq<T>): seq<seq<T>>
    decreases |data|
  {
    if data == [] then []
    else if |data| <= BatchSize then [data]
    else [data[..BatchSize]] + Batches(data[BatchSize..])
  }

  function Flatten<T>(bs: seq<seq<T>>): seq<T> {
    if bs == [] then [] else bs[0] + Flatten(bs[1..])
  }

  lemma {:induction false} FlattenAppend<T>(a: seq<seq<T>>, b: seq<seq<T>>)
    ensures Flatten(a + b) == Flatten(a) + Flatten(b)
    decreases |a|
  {
    if a == [] {
      assert a + b == b;
    } else {
      assert (a + b)[1..] == a[1..] + b;
      FlattenAppend(a[1..], b);
    }
  }

  /**
   * The batches are consecutive, non-empty, at most 1000 rows each, all but the last
   * exactly 1000, and together they are the data.
   */
  lemma {:induction false} BatchesCover<T>(data: seq<T>)
    ensures Flatten(Batches(data)) == data
    ensures forall i :: 0 <= i < |Batches(data)| ==> 0 < |Batches(data)[i]| <= BatchSize
    ensures forall i :: 0 <= i < |Batches(data)| - 1 ==> |Batches(data)[i]| == BatchSize
    ensures |Batches(data)| == (|data| + BatchSize - 1) / BatchSize
    decreases |data|
  {
    if |data| > BatchSize {
      var rest := data[BatchSize..];
      BatchesCover(rest);
      var bs := Batches(data);
      assert bs == [data[..BatchSize]] + Batches(rest);
      assert bs[1..] == Batches(rest);
      assert data == data[..BatchSize] + rest;
      forall i | 0 <= i < |bs| ensures 0 < |bs[i]| <= BatchSize {
        if i > 0 {
          assert bs[i] == Batches(rest)[i - 1];
        }
      }
      forall i | 0 <= i < |bs| - 1 ensures |bs[i]| == BatchSize {
        if i > 0 {
          assert bs[i] == Batches(rest)[i - 1];
        }
      }
    } else if data != [] {
      assert Batches(data) == [data];
      assert Flatten([data]) == data + Flatten([data][1..]);
      assert [data][1..] == [];
    }
  }

  /** Splitting the remaining rows one batch further. */
  lemma BatchesStep<T>(data: seq<T>, i: nat, j: nat)
    requires i < |data| && j == (if i + BatchSize <= |data| then i + BatchSize else |data|)
    ensures Batches(data[i..]) == [data[i..j]] + Batches(data[j..])
  {
    if j == |data| {
      assert data[i..j] == data[i..] && data[j..] == [];
      assert Batches(data[i..]) == [data[i..]];
    } else {
      assert data[i..][..BatchSize] == data[i..j];
      assert data[i..][BatchSize..] == data[j..];
    }
  }

  /** Sending the next batch keeps the sent batches a prefix of all of them... */
  lemma {:induction false} SendStep<T>(data: seq<T>, sent: seq<seq<T>>, i: nat, j: nat)
    requires i < |data| && j == (if i + BatchSize <= |data| then i + BatchSize else |data|)
    requires Batches(data) == sent + Batches(data[i..]) && Flatten(sent) == data[..i]
    ensures Batches(data) == (sent + [data[i..j]]) + Batches(data[j..])
    ensures Flatten(sent + [data[i..j]]) == data[..j]
    ensures |sent| < |Batches(data)| && Batches(data)[..|sent| + 1] == sent + [data[i..j]]
  {
    BatchesStep(data, i, j);
    SentRows(data, sent, i, j);
    PrefixOfJoin(Batches(data), sent + [data[i..j]], Batches(data[j..]));
  }

  lemma PrefixOfJoin<T>(all: seq<T>, a: seq<T>, b: seq<T>)
    requires all == a + b
    ensures |a| <= |all| && all[..|a|] == a
  {
  }

  /** ... and their rows a prefix of the data. */
  lemma {:induction false} SentRows<T>(data: seq<T>, sent: seq<seq<T>>, i: nat, j: nat)
    requires i <= j <= |data| && Flatten(sent) == data[..i]
    ensures Flatten(sent + [data[i..j]]) == data[..j]
  {
    var batch := data[i..j];
    FlattenAppend(sent, [batch]);
    assert Flatten([batch]) == batch + Flatten([batch][1..]) && [batch][1..] == [];
    assert data[..j] == data[..i] + batch;
  }

  /**
   * `insert_data`: nothing to insert succeeds at once; otherwise the batches are sent in
   * order until one raises. `fails` says which batch the database rejects. The MySQL URL
   * sets `autocommit=true`, so the batches sent before a rejected one stay stored; the
   * PostgreSQL connection commits only after the loop, so a rejection stores nothing.
   */
  method InsertData<T>(engine: Engine, data: seq<T>, fails: seq<T> -> bool)
    returns (ok: bool, sent: seq<seq<T>>, stored: seq<T>)
    ensures data == [] ==> ok && sent == [] && stored == []
    ensures |sent| <= |Batches(data)| && sent == Batches(data)[..|sent|]
    ensures ok <==> forall b :: b in Batches(data) ==> !fails(b)
    ensures ok ==> sent == Batches(data) && stored == data
    ensures !ok ==>
      && sent != [] && fails(sent[|sent| - 1])
      && (forall b :: b in sent[..|sent| - 1] ==> !fails(b))
      && stored == (if engine == MySql then Flatten(sent[..|sent| - 1]) else [])
  {
    if data == [] {
      return true, [], [];
    }
    sent := [];
    var i := 0;
    while i < |data|
      invariant 0 <= i <= |data|
      invariant Batches(data) == sent + Batches(data[i..])
      invariant Flatten(sent) == data[..i]
      invariant forall b :: b in sent ==> !fails(b)
      decreases |data| - i
    {
      var j := if i + BatchSize <= |data| then i + BatchSize else |data|;
      var batch := data[i..j];
      SendStep(data, sent, i, j);
      if fails(batch) {
        ok := false;
        stored := if engine == MySql then Flatten(sent) else [];
        assert (sent + [batch])[..|sent|] == sent;
        sent := sent + [batch];
        return;
      }
      sent := sent + [batch];
      i := j;
    }
    assert data[i..] == [] && data[..i] == data;
    ok, stored := true, data;
  }

  // ---------------------------------------------------------------------------
  // Rows
  // ---------------------------------------------------------------------------

  /** Why reading a table's rows raised. */
  datatype DataError = IndexError   // a row has more values than there are column names

  /**
   * `row_dict` after `for i, value in enumerate(row): row_dict[columns[i]] = value`:
   * when two columns share a name the later value wins.
   */
  function RowOf(columns: seq<string>, values: seq<Value>): (r: Row)
    requires |values| <= |columns|
    ensures r.Keys == Elements(columns[..|values|])
  {
    if values == [] then map[]
    else
      var n := |values| - 1;
      assert columns[..n + 1] == columns[..n] + [columns[n]];
      RowOf(columns, values[..n])[columns[n] := values[n]]
  }

  /** The value under a column name is the one at its last position among the values. */
  lemma {:induction false} RowOfValue(columns: seq<string>, values: seq<Value>, i: nat)
    requires i < |values| <= |columns|
    requires forall j :: i < j < |values| ==> columns[j] != columns[i]
    ensures RowOf(columns, values)[columns[i]] == values[i]
    decreases |values|
  {
    if i < |values| - 1 {
      RowOfValue(columns, values[..|values| - 1], i);
    }
  }

  /** With distinct column names, the i-th value sits under the i-th name. */
  lemma RowOfDistinct(columns: seq<string>, values: seq<Value>)
    requires |values| <= |columns| && Distinct(columns)
    ensures forall i :: 0 <= i < |values| ==> RowOf(columns, values)[columns[i]] == values[i]
  {
    forall i | 0 <= i < |values| ensures RowOf(columns, values)[columns[i]] == values[i] {
      RowOfValue(columns, values, i);
    }
  }

  /** The inner loop of `get_table_data` for one row; `columns[i]` raises past the names. */
  method RowDict(columns: seq<string>, values: seq<Value>) returns (r: Result<Row, DataError>)
    ensures |values| <= |columns| ==> r == Ok(RowOf(columns, values))
    ensures |values| > |columns| ==> r == Err(IndexError)
  {
    var row: Row := map[];
    for i := 0 to |values|
      invariant i <= |columns|
      invariant row == RowOf(columns, values[..i])
    {
      if i >= |columns| {
        return Err(IndexError);
      }
      assert values[..i + 1][..i] == values[..i];
      row := row[columns[i] := values[i]];
    }
    assert values[..|values|] == values;
    return Ok(row);
  }

  /** `get_table_data` over the fetched column names and row tuples. */
  method TableData(columns: seq<string>, rows: seq<seq<Value>>) returns (r: Result<seq<Row>, DataError>)
    ensures r.Ok? <==> forall k :: 0 <= k < |rows| ==> |rows[k]| <= |columns|
    ensures r.Ok? ==> |r.value| == |rows| && forall k :: 0 <= k < |rows| ==> r.value[k] == RowOf(columns, rows[k])
  {
    var data: seq<Row> := [];
    for k := 0 to |rows|
      invariant |data| == k
      invariant forall m :: 0 <= m < k ==> |rows[m]| <= |columns| && data[m] == RowOf(columns, rows[m])
    {
      var row := RowDict(columns, rows[k]);
      if row.Err? {
        return Err(row.error);
      }
      data := data + [row.value];
    }
    return Ok(data);
  }

  // ---------------------------------------------------------------------------
  // Connection URLs
  // ---------------------------------------------------------------------------

  datatype Credentials = Credentials(user: string, password: string, host: string, port: int, database: string)

  /** `{user}:{password}@{host}:{port}/{database}`. */
  function Authority(c: Credentials): string {
    c.user + ":" + c.password + "@" + c.host + ":" + IntToString(c.port) + "/" + c.database
  }

  function MySqlUrlWithCharset(c: Credentials, charset: string): string {
    "mysql+pymysql://" + Authority(c) + "?charset=" + charset + "&autocommit=true"
  }

  /** The MySQL `get_connection_url`. */
  function MySqlUrl(c: Credentials): string {
    MySqlUrlWithCharset(c, "utf8")
  }

  /** The PostgreSQL `get_connection_url`. */
  function PgUrl(c: Credentials): string {
    "postgresql://" + Authority(c)
  }

  /** The charsets `get_connection_url_with_fallback` tries, in order. */
  const Charsets: seq<string> := ["utf8", "utf8mb4", "latin1"]

  /**
   * `get_connection_url_with_fallback`: the URL of the first charset whose test
   * connection succeeds, or the utf8 URL when none does. `connects` stands for opening
   * an engine on a URL and running `SELECT 1`.
   */
  method MySqlUrlWithFallback(c: Credentials, connects: string -> bool) returns (url: string)
    ensures connects(MySqlUrlWithCharset(c, "utf8")) ==> url == MySqlUrlWithCharset(c, "utf8")
    ensures !connects(MySqlUrlWithCharset(c, "utf8")) && connects(MySqlUrlWithCharset(c, "utf8mb4")) ==>
      url == MySqlUrlWithCharset(c, "utf8mb4")
    ensures (!connects(MySqlUrlWithCharset(c, "utf8")) && !connects(MySqlUrlWithCharset(c, "utf8mb4")) &&
             connects(MySqlUrlWithCharset(c, "latin1"))) ==> url == MySqlUrlWithCharset(c, "latin1")
    ensures (forall cs :: cs in Charsets ==> !connects(MySqlUrlWithCharset(c, cs))) ==> url == MySqlUrl(c)
  {
    assert Charsets[0] == "utf8" && Charsets[1] == "utf8mb4" && Charsets[2] == "latin1";
    for i := 0 to |Charsets|
      invariant forall k :: 0 <= k < i ==> !connects(MySqlUrlWithCharset(c, Charsets[k]))
    {
      var candidate := MySqlUrlWithCharset(c, Charsets[i]);
      if connects(candidate) {
        return candidate;
      }
    }
    return MySqlUrl(c);
  }

  /** Credentials whose fields can be told apart again inside a URL. */
  predicate Separable(c: Credentials) {
    ':' !in c.user && '@' !in c.password && ':' !in c.host
  }

  /** The text of a port number, as `str` writes it. */
  predicate IsNumber(s: string) {
    s != [] && forall m :: (if s[0] == '-' then 1 else 0) <= m < |s| ==> IsDigit(s[m])
  }

  /** Reads `{user}:{password}@{host}:{port}/{database}` back. */
  function ParseAuthority(s: string): Option<Credentials> {
    match SplitAt(s, ':')
    case None => None
    case Some((user, afterUser)) =>
      match SplitAt(afterUser, '@')
      case None => None
      case Some((password, afterPassword)) =>
        match SplitAt(afterPassword, ':')
        case None => None
        case Some((host, afterHost)) =>
          match SplitAt(afterHost, '/')
          case None => None
          case Some((port, database)) =>
            if IsNumber(port) then Some(Credentials(user, password, host, ParseInt(port), database)) else None
  }

  /** The decimal text of a port holds no `/`. */
  lemma NoSlashInNumber(n: int)
    ensures '/' !in IntToString(n) && IsNumber(IntToString(n))
  {
    var s := IntToString(n);
    IntToStringRoundTrip(n);
    forall m | 0 <= m < |s| ensures s[m] != '/' {
      if m > 0 || s[0] != '-' {
        assert IsDigit(s[m]);
      }
    }
  }

  /** The authority as its four separators and the text between them. */
  lemma AuthorityParts(c: Credentials)
    ensures Authority(c) ==
      c.user + [':'] + (c.password + ['@'] + (c.host + [':'] + (IntToString(c.port) + ['/'] + c.database)))
  {
  }

  /** The authority part of a URL reads back as the credentials it was made from. */
  lemma AuthorityRoundTrip(c: Credentials)
    requires Separable(c)
    ensures ParseAuthority(Authority(c)) == Some(c)
  {
    var port := IntToString(c.port);
    var rest3 := port + ['/'] + c.database;
    var rest2 := c.host + [':'] + rest3;
    var rest1 := c.password + ['@'] + rest2;
    AuthorityParts(c);
    SplitAtJoin(c.user, ':', rest1);
    SplitAtJoin(c.password, '@', rest2);
    SplitAtJoin(c.host, ':', rest3);
    NoSlashInNumber(c.port);
    SplitAtJoin(port, '/', c.database);
    IntToStringRoundTrip(c.port);
  }

  /** Reads a PostgreSQL URL back. */
  function ParsePgUrl(url: string): Option<Credentials> {
    match StripPrefix(url, "postgresql://")
    case None => None
    case Some(rest) => ParseAuthority(rest)
  }

  /** The PostgreSQL URL carries exactly the credentials it was made from. */
  lemma PgUrlRoundTrip(c: Credentials)
    requires Separable(c)
    ensures ParsePgUrl(PgUrl(c)) == Some(c)
  {
    StripPrefixJoin("postgresql://", Authority(c));
    AuthorityRoundTrip(c);
  }

  /** Reads a MySQL URL back: the credentials and the charset. */
  function ParseMySqlUrl(url: string): Option<(Credentials, string)> {
    match StripPrefix(url, "mysql+pymysql://")
    case None => None
    case Some(rest) =>
      match SplitAt(rest, '?')
      case None => None
      case Some((authority, query)) =>
        match StripPrefix(query, "charset=")
        case None => None
        case Some(options) =>
          match StripSuffix(options, "&autocommit=true")
          case None => None
          case Some(charset) =>
            match ParseAuthority(authority)
            case None => None
            case Some(c) => Some((c, charset))
  }

  /** The MySQL URL carries exactly the credentials and charset it was made from. */
  lemma MySqlUrlRoundTrip(c: Credentials, charset: string)
    requires Separable(c) && '?' !in Authority(c)
    ensures ParseMySqlUrl(MySqlUrlWithCharset(c, charset)) == Some((c, charset))
  {
    var options := charset + "&autocommit=true";
    var query := "charset=" + options;
    var rest := Authority(c) + ['?'] + query;
    assert MySqlUrlWithCharset(c, charset) == "mysql+pymysql://" + rest;
    StripPrefixJoin("mysql+pymysql://", rest);
    SplitAtJoin(Authority(c), '?', query);
    StripPrefixJoin("charset=", options);
    StripSuffixJoin(charset, "&autocommit=true");
    AuthorityRoundTrip(c);
  }
}
