/**
 * The comparison of a source and a destination summary (`_find_differences`): tables
 * are keyed by name, and each name is classified as missing at the destination,
 * missing at the source, or present at both with different row counts or sizes.
 */
module DatabaseService {
  import opened Common
  import opened Models

  /** One record of the difference list. */
  datatype Difference =
    | MissingInDestination(tableName: string, sourceInfo: TableInfo)
    | MissingInSource(tableName: string, destinationInfo: TableInfo)
    | DifferentData(tableName: string, sourceInfo: TableInfo, destinationInfo: TableInfo,
                    rowCountDiff: int, sizeDiffHundredths: int)

  /** The three loops of `_find_differences`, in the order they run. */
  datatype Pass = OnlySource | OnlyDestination | Changed

  /** Position of a record's category in the output: the loop that emits it. */
  function Rank(d: Difference): nat {
    match d
    case MissingInDestination(_, _) => 0
    case MissingInSource(_, _) => 1
    case DifferentData(_, _, _, _, _) => 2
  }

  /** Row counts differ, or sizes differ by more than 0.01 MB. */
  predicate Differs(s: TableInfo, d: TableInfo) {
    s.rowCount != d.rowCount || s.sizeHundredths - d.sizeHundredths > 1 || d.sizeHundredths - s.sizeHundredths > 1
  }

  /** The body of one loop for one key: the record it appends, if any. */
  function PassRecord(pass: Pass, n: string, src: map<string, TableInfo>, dst: map<string, TableInfo>): Option<Difference>
    requires pass == OnlyDestination ==> n in dst
    requires pass != OnlyDestination ==> n in src
  {
    match pass
    case OnlySource =>
      if n !in dst then Some(MissingInDestination(n, src[n])) else None
    case OnlyDestination =>
      if n !in src then Some(MissingInSource(n, dst[n])) else None
    case Changed =>
      if n in dst && Differs(src[n], dst[n]) then
        Some(DifferentData(n, src[n], dst[n], src[n].rowCount - dst[n].rowCount,
                           src[n].sizeHundredths - dst[n].sizeHundredths))
      else None
  }

  function PassRank(pass: Pass): nat {
    match pass
    case OnlySource => 0
    case OnlyDestination => 1
    case Changed => 2
  }

  /** Number of records about the table `n`. */
  function CountFor(diffs: seq<Difference>, n: string): nat {
    if diffs == [] then 0
    else (if diffs[0].tableName == n then 1 else 0) + CountFor(diffs[1..], n)
  }

  lemma {:induction false} CountForAppend(a: seq<Difference>, b: seq<Difference>, n: string)
    ensures CountFor(a + b, n) == CountFor(a, n) + CountFor(b, n)
    decreases |a|
  {
    if a == [] {
      assert a + b == b;
    } else {
      assert (a + b)[1..] == a[1..] + b;
      CountForAppend(a[1..], b, n);
    }
  }

  /** A list with no record about any table is empty. */
  lemma NoCountsEmpty(diffs: seq<Difference>)
    requires forall n :: CountFor(diffs, n) == 0
    ensures diffs == []
  {
    if diffs != [] {
      assert CountFor(diffs, diffs[0].tableName) > 0;
    }
  }

  /** One loop of `_find_differences` over the keys of one dictionary. */
  function PassRecords(pass: Pass, keys: seq<string>, src: map<string, TableInfo>, dst: map<string, TableInfo>)
    : (r: seq<Difference>)
    requires pass == OnlyDestination ==> forall k :: k in keys ==> k in dst
    requires pass != OnlyDestination ==> forall k :: k in keys ==> k in src
    ensures forall x :: x in r ==> x.tableName in keys && PassRecord(pass, x.tableName, src, dst) == Some(x)
    ensures forall x :: x in r ==> Rank(x) == PassRank(pass)
  {
    if keys == [] then []
    else
      var rest := PassRecords(pass, keys[1..], src, dst);
      match PassRecord(pass, keys[0], src, dst)
      case Some(x) => [x] + rest
      case None => rest
  }

  /** Over distinct keys, each loop emits at most one record per key: exactly when its body appends one. */
  lemma {:induction false} PassRecordsCount(pass: Pass, keys: seq<string>, src: map<string, TableInfo>,
                                            dst: map<string, TableInfo>, n: string)
    requires pass == OnlyDestination ==> forall k :: k in keys ==> k in dst
    requires pass != OnlyDestination ==> forall k :: k in keys ==> k in src
    requires Distinct(keys)
    ensures CountFor(PassRecords(pass, keys, src, dst), n) ==
      if n in keys && PassRecord(pass, n, src, dst).Some? then 1 else 0
  {
    if keys != [] {
      var rest := PassRecords(pass, keys[1..], src, dst);
      assert keys[0] !in keys[1..];
      assert forall k :: k in keys[1..] ==> k in keys;
      PassRecordsCount(pass, keys[1..], src, dst, n);
      match PassRecord(pass, keys[0], src, dst)
      case Some(x) =>
        CountForAppend([x], rest, n);
        assert CountFor([x], n) == if x.tableName == n then 1 else 0;
      case None =>
    }
  }

  /** `_find_differences`: the three loops' records, one list after the other. */
  function FindDifferences(source: DatabaseSummary, destination: DatabaseSummary): (diffs: seq<Difference>)
    ensures forall i, j :: 0 <= i < j < |diffs| ==> Rank(diffs[i]) <= Rank(diffs[j])
  {
    var src := ByName(source.tables);
    var dst := ByName(destination.tables);
    var a := PassRecords(OnlySource, DictKeys(source.tables), src, dst);
    var b := PassRecords(OnlyDestination, DictKeys(destination.tables), src, dst);
    var c := PassRecords(Changed, DictKeys(source.tables), src, dst);
    RanksAscend(a, b, c);
    a + b + c
  }

  lemma RanksAscend(a: seq<Difference>, b: seq<Difference>, c: seq<Difference>)
    requires forall x :: x in a ==> Rank(x) == 0
    requires forall x :: x in b ==> Rank(x) == 1
    requires forall x :: x in c ==> Rank(x) == 2
    ensures var d := a + b + c; forall i, j :: 0 <= i < j < |d| ==> Rank(d[i]) <= Rank(d[j])
  {
    var d := a + b + c;
    forall i, j | 0 <= i < j < |d| ensures Rank(d[i]) <= Rank(d[j]) {
      assert d[i] in a || d[i] in b || d[i] in c;
      assert d[j] in a || d[j] in b || d[j] in c;
      if j < |a| {
        assert d[i] == a[i] && d[j] == a[j];
      } else if j < |a| + |b| {
        assert d[j] == b[j - |a|];
      } else {
        assert d[j] == c[j - |a| - |b|];
      }
    }
  }

  /**
   * The classification of one name, stated directly over the two summaries' entries
   * (the last entry of a name is the one that counts).
   */
  function Expected(source: DatabaseSummary, destination: DatabaseSummary, n: string): Option<Difference> {
    var src := ByName(source.tables);
    var dst := ByName(destination.tables);
    if n in src && n !in dst then Some(MissingInDestination(n, src[n]))
    else if n !in src && n in dst then Some(MissingInSource(n, dst[n]))
    else if n in src && n in dst && Differs(src[n], dst[n]) then
      Some(DifferentData(n, src[n], dst[n], src[n].rowCount - dst[n].rowCount,
                         src[n].sizeHundredths - dst[n].sizeHundredths))
    else None
  }

  /**
   * Every name gets exactly one record when it is classified and none otherwise, and
   * each record is that classification.
   */
  lemma FindDifferencesClassifies(source: DatabaseSummary, destination: DatabaseSummary, n: string)
    ensures var diffs := FindDifferences(source, destination);
      CountFor(diffs, n) == (if Expected(source, destination, n).Some? then 1 else 0)
  {
    var src := ByName(source.tables);
    var dst := ByName(destination.tables);
    var sk := DictKeys(source.tables);
    var dk := DictKeys(destination.tables);
    assert n in sk <==> n in src;
    assert n in dk <==> n in dst;
    var a := PassRecords(OnlySource, sk, src, dst);
    var b := PassRecords(OnlyDestination, dk, src, dst);
    var c := PassRecords(Changed, sk, src, dst);
    CountForAppend(a + b, c, n);
    CountForAppend(a, b, n);
    PassRecordsCount(OnlySource, sk, src, dst, n);
    PassRecordsCount(OnlyDestination, dk, src, dst, n);
    PassRecordsCount(Changed, sk, src, dst, n);
  }

  /** What one loop appends for a key is that key's classification. */
  lemma PassRecordExpected(source: DatabaseSummary, destination: DatabaseSummary, pass: Pass, n: string)
    requires pass == OnlyDestination ==> n in ByName(destination.tables)
    requires pass != OnlyDestination ==> n in ByName(source.tables)
    requires PassRecord(pass, n, ByName(source.tables), ByName(destination.tables)).Some?
    ensures Expected(source, destination, n) == PassRecord(pass, n, ByName(source.tables), ByName(destination.tables))
  {
  }

  /** Each record is the classification of its name. */
  lemma FindDifferencesRecords(source: DatabaseSummary, destination: DatabaseSummary)
    ensures forall x :: x in FindDifferences(source, destination) ==>
      Expected(source, destination, x.tableName) == Some(x)
  {
    var src := ByName(source.tables);
    var dst := ByName(destination.tables);
    var sk := DictKeys(source.tables);
    var dk := DictKeys(destination.tables);
    var a := PassRecords(OnlySource, sk, src, dst);
    var b := PassRecords(OnlyDestination, dk, src, dst);
    var c := PassRecords(Changed, sk, src, dst);
    assert FindDifferences(source, destination) == a + b + c;
    forall x: Difference | x in a + b + c ensures Expected(source, destination, x.tableName) == Some(x) {
      if x in a {
        PassRecordExpected(source, destination, OnlySource, x.tableName);
      } else if x in b {
        PassRecordExpected(source, destination, OnlyDestination, x.tableName);
      } else {
        PassRecordExpected(source, destination, Changed, x.tableName);
      }
    }
  }

  /** A classified name has exactly one record, and it is its classification. */
  lemma ClassifiedReported(source: DatabaseSummary, destination: DatabaseSummary, n: string)
    requires Expected(source, destination, n).Some?
    ensures var diffs := FindDifferences(source, destination);
      CountFor(diffs, n) == 1 && Expected(source, destination, n).value in diffs
  {
    FindDifferencesClassifies(source, destination, n);
    FindDifferencesRecords(source, destination);
    var diffs := FindDifferences(source, destination);
    var k :| 0 <= k < |diffs| && diffs[k].tableName == n by {
      if forall k :: 0 <= k < |diffs| ==> diffs[k].tableName != n {
        NoRecordFor(diffs, n);
      }
    }
    assert diffs[k] in diffs;
  }

  /** A table only in the source yields exactly one `missing_in_destination` record, holding its last entry. */
  lemma OnlyInSourceReported(source: DatabaseSummary, destination: DatabaseSummary, n: string)
    requires n in TableNames(source.tables) && n !in TableNames(destination.tables)
    ensures var diffs := FindDifferences(source, destination);
      CountFor(diffs, n) == 1 && MissingInDestination(n, ByName(source.tables)[n]) in diffs
  {
    assert n in ByName(source.tables) && n !in ByName(destination.tables);
    ClassifiedReported(source, destination, n);
  }

  /** A table only in the destination yields exactly one `missing_in_source` record. */
  lemma OnlyInDestinationReported(source: DatabaseSummary, destination: DatabaseSummary, n: string)
    requires n !in TableNames(source.tables) && n in TableNames(destination.tables)
    ensures var diffs := FindDifferences(source, destination);
      CountFor(diffs, n) == 1 && MissingInSource(n, ByName(destination.tables)[n]) in diffs
  {
    assert n !in ByName(source.tables) && n in ByName(destination.tables);
    ClassifiedReported(source, destination, n);
  }

  /** A table at both ends with unequal row counts yields one `different_data` record with `src - dst`. */
  lemma RowCountChangeReported(source: DatabaseSummary, destination: DatabaseSummary, n: string)
    requires n in TableNames(source.tables) && n in TableNames(destination.tables)
    requires ByName(source.tables)[n].rowCount != ByName(destination.tables)[n].rowCount
    ensures var diffs := FindDifferences(source, destination);
      && CountFor(diffs, n) == 1
      && exists x :: x in diffs && x.DifferentData? && x.tableName == n &&
           x.rowCountDiff == ByName(source.tables)[n].rowCount - ByName(destination.tables)[n].rowCount
  {
    var src := ByName(source.tables);
    var dst := ByName(destination.tables);
    assert n in src && n in dst;
    ClassifiedReported(source, destination, n);
    var x := Expected(source, destination, n).value;
    assert x.DifferentData? && x.tableName == n && x.rowCountDiff == src[n].rowCount - dst[n].rowCount;
  }

  /** A name no record mentions is counted zero times. */
  lemma {:induction false} NoRecordFor(diffs: seq<Difference>, n: string)
    requires forall k :: 0 <= k < |diffs| ==> diffs[k].tableName != n
    ensures CountFor(diffs, n) == 0
  {
    if diffs != [] {
      NoRecordFor(diffs[1..], n);
    }
  }

  /** Comparing a summary with itself reports nothing. */
  lemma IdenticalSummariesNoDifferences(summary: DatabaseSummary)
    ensures FindDifferences(summary, summary) == []
  {
    forall n ensures CountFor(FindDifferences(summary, summary), n) == 0 {
      FindDifferencesClassifies(summary, summary, n);
    }
    NoCountsEmpty(FindDifferences(summary, summary));
  }
}
