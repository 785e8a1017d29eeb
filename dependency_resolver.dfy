/**
 * The MySQL adapter's dependency resolver: it looks up, per table, the tables its
 * foreign keys reference, and orders the tables by a depth-first traversal so that
 * a referenced table comes before the tables that reference it.
 *
 * The information_schema query behind `_get_table_dependencies` is a parameter
 * `references`: for each table, the REFERENCED_TABLE_NAME column of its rows (NULL
 * as None; a failed query as no rows, because the source then returns an empty list).
 */
module DependencyResolver {
  import opened Common
  import opened Models

  /** A table name as Python's truth test accepts it: present and non-empty. */
  predicate IsName(r: Option<string>) {
    r.Some? && r.value != ""
  }

  /**
   * The dependency list `_get_table_dependencies` builds from the query rows:
   * each non-empty name once, where it first occurs.
   */
  function UniqueReferences(rows: seq<Option<string>>): (deps: seq<string>)
    ensures Distinct(deps)
    ensures forall d :: d in deps ==> d != ""
    ensures forall x :: x in deps <==> (Some(x) in rows && x != "")
    decreases |rows|
  {
    if rows == [] then []
    else
      var prev := UniqueReferences(rows[..|rows| - 1]);
      var last := rows[|rows| - 1];
      assert rows == rows[..|rows| - 1] + [last];
      if IsName(last) && last.value !in prev then prev + [last.value] else prev
  }

  /** Position of the first occurrence of `x`. */
  function FirstPosition<T(==)>(s: seq<T>, x: T): (k: nat)
    requires x in s
    ensures k < |s| && s[k] == x && x !in s[..k]
  {
    if s[0] == x then 0 else 1 + FirstPosition(s[1..], x)
  }

  lemma {:induction false} FirstPositionInPrefix<T>(s: seq<T>, n: nat, x: T)
    requires n <= |s| && x in s[..n]
    ensures FirstPosition(s, x) == FirstPosition(s[..n], x)
  {
    if s[0] != x {
      assert s[..n][1..] == s[1..][..n - 1];
      FirstPositionInPrefix(s[1..], n - 1, x);
    }
  }

  /** The dependency list keeps the order in which the names first occur in the rows. */
  lemma {:induction false} UniqueReferencesKeepsFirstOccurrenceOrder(rows: seq<Option<string>>, i: nat, j: nat)
    requires i < j < |UniqueReferences(rows)|
    ensures var deps := UniqueReferences(rows);
      FirstPosition(rows, Some(deps[i])) < FirstPosition(rows, Some(deps[j]))
    decreases |rows|
  {
    var deps := UniqueReferences(rows);
    var init := rows[..|rows| - 1];
    var prev := UniqueReferences(init);
    var last := rows[|rows| - 1];
    assert rows == init + [last];
    if j < |prev| {
      assert deps[i] == prev[i] && deps[j] == prev[j];
      UniqueReferencesKeepsFirstOccurrenceOrder(init, i, j);
      FirstPositionInPrefix(rows, |rows| - 1, Some(prev[i]));
      FirstPositionInPrefix(rows, |rows| - 1, Some(prev[j]));
      assert rows[..|rows| - 1] == init;
    } else {
      assert deps == prev + [last.value] && j == |prev|;
      assert Some(deps[j]) !in init;
      assert Some(deps[i]) in init;
      FirstPositionInPrefix(rows, |rows| - 1, Some(deps[i]));
      assert rows[..|rows| - 1] == init;
      assert FirstPosition(rows, Some(deps[j])) == |rows| - 1;
    }
  }

  /** `_get_table_dependencies`: the loop that collects the referenced names. */
  method TableDependencies(rows: seq<Option<string>>) returns (deps: seq<string>)
    ensures deps == UniqueReferences(rows)
  {
    deps := [];
    var i := 0;
    while i < |rows|
      invariant 0 <= i <= |rows|
      invariant deps == UniqueReferences(rows[..i])
    {
      assert rows[..i + 1][..i] == rows[..i];
      if IsName(rows[i]) && rows[i].value !in deps {
        deps := deps + [rows[i].value];
      }
      i := i + 1;
    }
    assert rows[..|rows|] == rows;
  }

  /** The `dependencies` dictionary: table name to the names it references. */
  type Graph = map<string, seq<string>>

  function DependencyGraph(names: seq<string>, references: string -> seq<Option<string>>): (g: Graph)
    ensures g.Keys == Elements(names)
    ensures forall n :: n in g ==> g[n] == UniqueReferences(references(n))
  {
    map n | n in names :: UniqueReferences(references(n))
  }

  /** The loop that fills `dependencies`, one lookup per table. */
  method BuildDependencyGraph(names: seq<string>, references: string -> seq<Option<string>>) returns (g: Graph)
    ensures g == DependencyGraph(names, references)
  {
    g := map[];
    for i := 0 to |names|
      invariant g.Keys == Elements(names[..i])
      invariant forall n :: n in g ==> g[n] == UniqueReferences(references(n))
    {
      assert Elements(names[..i + 1]) == Elements(names[..i]) + {names[i]} by {
        assert names[..i + 1] == names[..i] + [names[i]];
      }
      var deps := TableDependencies(references(names[i]));
      g := g[names[i] := deps];
    }
    assert names[..|names|] == names;
  }

  /** `dependencies.get(table_name, [])`. */
  function DependenciesOf(g: Graph, t: string): seq<string> {
    if t in g then g[t] else []
  }

  /** `a` references `b`, and `b` is one of the tables being ordered (others are ignored). */
  predicate Edge(g: Graph, names: seq<string>, a: string, b: string) {
    b in DependenciesOf(g, a) && b in names
  }

  /** A chain of references among the tables being ordered. */
  ghost predicate IsPath(g: Graph, names: seq<string>, p: seq<string>) {
    && |p| >= 1
    && (forall i :: 0 <= i < |p| ==> p[i] in names)
    && (forall i :: 0 <= i < |p| - 1 ==> Edge(g, names, p[i], p[i + 1]))
  }

  /** No table reaches itself by references among the tables being ordered. */
  ghost predicate Acyclic(g: Graph, names: seq<string>) {
    forall p :: IsPath(g, names, p) && |p| >= 2 ==> p[0] != p[|p| - 1]
  }

  /** No table references another table being ordered. */
  predicate NoInSetDependencies(g: Graph, names: seq<string>) {
    forall a :: a in names ==> forall d :: d in DependenciesOf(g, a) ==> d !in names
  }

  /** Every table comes after each table it references among those being ordered. */
  predicate DependenciesFirst(g: Graph, names: seq<string>, order: seq<string>) {
    forall i :: 0 <= i < |order| ==>
      forall d :: d in DependenciesOf(g, order[i]) && d in names ==> d in order[..i]
  }

  /** The traversal state: `sorted_tables` without repeats, and `visited` its elements. */
  ghost predicate Consistent(names: seq<string>, visited: set<string>, out: seq<string>) {
    && Distinct(out)
    && (forall x :: x in out <==> x in visited)
    && (forall x :: x in visited ==> x in names)
  }

  lemma PathExtend(g: Graph, names: seq<string>, p: seq<string>, b: string)
    requires IsPath(g, names, p) && Edge(g, names, p[|p| - 1], b)
    ensures IsPath(g, names, p + [b])
  {
  }

  lemma PathSuffix(g: Graph, names: seq<string>, p: seq<string>, j: nat)
    requires IsPath(g, names, p) && j < |p|
    ensures IsPath(g, names, p[j..])
  {
    forall i | 0 <= i < |p[j..]| - 1
      ensures Edge(g, names, p[j..][i], p[j..][i + 1])
    {
      assert p[j..][i] == p[j + i] && p[j..][i + 1] == p[j + i + 1];
    }
  }

  /** A reference from the table being visited back to one on the traversal stack closes a cycle. */
  lemma {:induction false} BackEdgeCloses(g: Graph, names: seq<string>, stack: seq<string>, t: string, d: string)
    requires IsPath(g, names, stack + [t])
    requires d == t || d in stack
    requires Edge(g, names, t, d)
    ensures !Acyclic(g, names)
  {
    var q := stack + [t];
    if d == t {
      var p := [t, t];
      assert q[|q| - 1] == t;
      assert IsPath(g, names, p);
    } else {
      var j :| 0 <= j < |stack| && stack[j] == d;
      PathSuffix(g, names, q, j);
      var r := q[j..];
      assert r[|r| - 1] == t;
      PathExtend(g, names, r, d);
      var p := r + [d];
      assert p[0] == d && p[|p| - 1] == d && |p| >= 2;
    }
  }

  /**
   * The nested `visit`: explore the in-set dependencies of `t` first, then append `t`.
   * `temp` (`temp_visited`) is restored by every call before it returns, so it is an
   * input here; `visited` and the output list are threaded through. A table already on
   * the stack is a back-edge: the source returns `sorted(table_names)` there, a value
   * every caller discards, so the edge is simply cut.
   */
  method Visit(g: Graph, names: seq<string>, t: string, visited: set<string>, temp: set<string>,
               out: seq<string>, ghost stack: seq<string>)
    returns (visited': set<string>, out': seq<string>)
    requires t in names
    requires Consistent(names, visited, out)
    requires visited !! temp
    requires Elements(stack) == temp
    requires IsPath(g, names, stack + [t])
    requires Acyclic(g, names) ==> DependenciesFirst(g, names, out)
    ensures Consistent(names, visited', out')
    ensures visited <= visited' && visited' !! temp
    ensures |out| <= |out'| && out'[..|out|] == out
    ensures t in visited' || t in temp
    ensures Acyclic(g, names) ==> DependenciesFirst(g, names, out')
    ensures NoInSetDependencies(g, names) ==>
      out' == if t in visited || t in temp then out else out + [t]
    decreases Elements(names) - visited - temp, 0
  {
    if t in temp {
      return visited, out;
    }
    if t in visited {
      return visited, out;
    }
    visited', out' := VisitDependencies(g, names, t, visited, temp, out, stack);
    if Acyclic(g, names) {
      DependenciesDone(g, names, stack, t, visited', temp);
      AppendAfterDependencies(g, names, out', t);
    }
    ghost var before := out';
    visited' := visited' + {t};
    out' := out' + [t];
    assert out'[..|before|] == before;
    assert out'[..|out|] == out;
  }

  /**
   * The loop of `visit` over `dependencies.get(table_name, [])`, with `t` on the stack:
   * each dependency among the tables being ordered is visited in turn.
   */
  method VisitDependencies(g: Graph, names: seq<string>, t: string, visited: set<string>, temp: set<string>,
                           out: seq<string>, ghost stack: seq<string>)
    returns (visited': set<string>, out': seq<string>)
    requires t in names && t !in visited && t !in temp
    requires Consistent(names, visited, out)
    requires visited !! temp
    requires Elements(stack) == temp
    requires IsPath(g, names, stack + [t])
    requires Acyclic(g, names) ==> DependenciesFirst(g, names, out)
    ensures Consistent(names, visited', out')
    ensures visited <= visited' && visited' !! temp + {t}
    ensures |out| <= |out'| && out'[..|out|] == out
    ensures forall k :: 0 <= k < |DependenciesOf(g, t)| && DependenciesOf(g, t)[k] in names ==>
      DependenciesOf(g, t)[k] in visited' || DependenciesOf(g, t)[k] in temp + {t}
    ensures Acyclic(g, names) ==> DependenciesFirst(g, names, out')
    ensures NoInSetDependencies(g, names) ==> out' == out
    decreases Elements(names) - visited - temp - {t}, 1
  {
    var deps := DependenciesOf(g, t);
    visited', out' := visited, out;
    var i := 0;
    while i < |deps|
      invariant 0 <= i <= |deps|
      invariant Consistent(names, visited', out')
      invariant visited <= visited' && visited' !! temp + {t}
      invariant |out| <= |out'| && out'[..|out|] == out
      invariant forall k :: 0 <= k < i && deps[k] in names ==> deps[k] in visited' || deps[k] in temp + {t}
      invariant Acyclic(g, names) ==> DependenciesFirst(g, names, out')
      invariant NoInSetDependencies(g, names) ==> out' == out
    {
      if deps[i] in names {
        PathExtend(g, names, stack + [t], deps[i]);
        assert stack + [t] + [deps[i]] == (stack + [t]) + [deps[i]];
        ghost var out0 := out';
        visited', out' := Visit(g, names, deps[i], visited', temp + {t}, out', stack + [t]);
        assert out'[..|out|] == out0[..|out|];
      }
      i := i + 1;
    }
  }

  /** Without a cycle, no dependency met during a visit was on the stack: all are finished. */
  lemma DependenciesDone(g: Graph, names: seq<string>, stack: seq<string>, t: string,
                         visited: set<string>, temp: set<string>)
    requires Acyclic(g, names)
    requires IsPath(g, names, stack + [t]) && Elements(stack) == temp
    requires forall k :: 0 <= k < |DependenciesOf(g, t)| && DependenciesOf(g, t)[k] in names ==>
      DependenciesOf(g, t)[k] in visited || DependenciesOf(g, t)[k] in temp + {t}
    ensures forall d :: d in DependenciesOf(g, t) && d in names ==> d in visited
  {
    var deps := DependenciesOf(g, t);
    forall d | d in deps && d in names
      ensures d in visited
    {
      var k :| 0 <= k < |deps| && deps[k] == d;
      if d in temp + {t} {
        BackEdgeCloses(g, names, stack, t, d);
      }
    }
  }

  /** Appending a table whose in-set dependencies are all listed keeps dependencies first. */
  lemma AppendAfterDependencies(g: Graph, names: seq<string>, out: seq<string>, t: string)
    requires DependenciesFirst(g, names, out)
    requires forall d :: d in DependenciesOf(g, t) && d in names ==> d in out
    ensures DependenciesFirst(g, names, out + [t])
  {
    var out' := out + [t];
    forall i, d | 0 <= i < |out'| && d in DependenciesOf(g, out'[i]) && d in names
      ensures d in out'[..i]
    {
      if i < |out| {
        assert out'[..i] == out[..i];
      } else {
        assert out'[..i] == out;
      }
    }
  }

  /**
   * The traversal of `_sort_tables_by_dependencies`: visit every table not yet visited,
   * in input order. The output holds every input name once, whatever the references;
   * without a cycle among the tables, every table follows the tables it references; and
   * when no table references another, the input order is kept.
   */
  method SortTableNames(g: Graph, names: seq<string>) returns (order: seq<string>)
    ensures Distinct(order)
    ensures forall x :: x in order <==> x in names
    ensures Acyclic(g, names) ==> DependenciesFirst(g, names, order)
    ensures NoInSetDependencies(g, names) && Distinct(names) ==> order == names
  {
    var visited: set<string> := {};
    order := [];
    for i := 0 to |names|
      invariant Consistent(names, visited, order)
      invariant forall k :: 0 <= k < i ==> names[k] in visited
      invariant Acyclic(g, names) ==> DependenciesFirst(g, names, order)
      invariant NoInSetDependencies(g, names) && Distinct(names) ==> order == names[..i]
    {
      ghost var prev := order;
      assert names[..i + 1] == names[..i] + [names[i]];
      DistinctNotInPrefix(names, i);
      visited, order := VisitUnvisited(g, names, names[i], visited, order);
    }
    assert names[..|names|] == names;
  }

  /** One turn of the outer loop: `if table_name not in visited: visit(table_name)`, with an empty stack. */
  method VisitUnvisited(g: Graph, names: seq<string>, t: string, visited: set<string>, order: seq<string>)
    returns (visited': set<string>, order': seq<string>)
    requires t in names && Consistent(names, visited, order)
    requires Acyclic(g, names) ==> DependenciesFirst(g, names, order)
    ensures Consistent(names, visited', order') && visited <= visited' && t in visited'
    ensures Acyclic(g, names) ==> DependenciesFirst(g, names, order')
    ensures NoInSetDependencies(g, names) ==> order' == if t in visited then order else order + [t]
  {
    visited', order' := visited, order;
    if t !in visited {
      assert [] + [t] == [t];
      visited', order' := Visit(g, names, t, visited, {}, order, []);
    }
  }

  lemma DistinctNotInPrefix<T>(s: seq<T>, i: nat)
    requires i < |s|
    ensures Distinct(s) ==> s[i] !in s[..i]
  {
  }

  /** In a sequence without repeats every element occurs once. */
  lemma {:induction false} DistinctMultiplicity<T>(a: seq<T>, x: T)
    requires Distinct(a)
    ensures multiset(a)[x] == if x in a then 1 else 0
  {
    if a != [] {
      assert a == [a[0]] + a[1..];
      assert a[0] !in a[1..];
      DistinctMultiplicity(a[1..], x);
    }
  }

  /** Two sequences without repeats and with the same elements are permutations of each other. */
  lemma DistinctSameElements<T>(a: seq<T>, b: seq<T>)
    requires Distinct(a) && Distinct(b)
    requires forall x :: x in a <==> x in b
    ensures multiset(a) == multiset(b)
  {
    forall x ensures multiset(a)[x] == multiset(b)[x] {
      DistinctMultiplicity(a, x);
      DistinctMultiplicity(b, x);
    }
  }

  /** `table_info` follows every entry whose name it references. */
  predicate ReferencedEntriesFirst(g: Graph, names: seq<string>, ordered: seq<TableInfo>) {
    forall i :: 0 <= i < |ordered| ==>
      forall d :: d in DependenciesOf(g, ordered[i].tableName) && d in names ==>
        exists j :: 0 <= j < i && ordered[j].tableName == d
  }

  /** Entries looked up along an order that puts references first keep that property. */
  lemma EntriesFollowOrder(g: Graph, names: seq<string>, sorted: seq<string>, ordered: seq<TableInfo>)
    requires DependenciesFirst(g, names, sorted)
    requires |ordered| == |sorted|
    requires forall k :: 0 <= k < |ordered| ==> ordered[k].tableName == sorted[k]
    ensures ReferencedEntriesFirst(g, names, ordered)
  {
    forall i, d | 0 <= i < |ordered| && d in DependenciesOf(g, ordered[i].tableName) && d in names
      ensures exists j :: 0 <= j < i && ordered[j].tableName == d
    {
      assert d in sorted[..i];
      var j :| 0 <= j < i && sorted[..i][j] == d;
      assert ordered[j].tableName == d;
    }
  }

  /** Looking up every name once, when names are distinct, yields a permutation of the entries. */
  lemma EntriesPermutation(tables: seq<TableInfo>, sorted: seq<string>, ordered: seq<TableInfo>)
    requires NamesDistinct(tables)
    requires Distinct(sorted) && forall x :: x in sorted <==> x in TableNames(tables)
    requires |ordered| == |sorted|
    requires forall k :: 0 <= k < |ordered| ==> ordered[k] == ByName(tables)[sorted[k]]
    ensures multiset(ordered) == multiset(tables)
  {
    var names := TableNames(tables);
    var byName := ByName(tables);
    forall x ensures x in ordered <==> x in tables {
      if x in tables {
        var k :| 0 <= k < |tables| && tables[k] == x;
        assert names[k] == x.tableName && names[k] in names;
        assert names[k] in sorted;
        var m :| 0 <= m < |sorted| && sorted[m] == names[k];
        ByNameOfDistinct(tables, k);
        assert ordered[m] == x;
      }
    }
    assert Distinct(ordered) by {
      forall p, q | 0 <= p < q < |ordered| ensures ordered[p] != ordered[q] {
        assert ordered[p].tableName == sorted[p] && ordered[q].tableName == sorted[q];
      }
    }
    assert Distinct(tables) by {
      forall p, q | 0 <= p < q < |tables| ensures tables[p] != tables[q] {
        assert names[p] != names[q];
      }
    }
    DistinctSameElements(ordered, tables);
  }

  /** Looking up the names in their own order, when names are distinct, gives back the entries. */
  lemma EntriesInOwnOrder(tables: seq<TableInfo>, ordered: seq<TableInfo>)
    requires NamesDistinct(tables)
    requires |ordered| == |tables|
    requires forall k :: 0 <= k < |tables| ==> ordered[k] == ByName(tables)[TableNames(tables)[k]]
    ensures ordered == tables
  {
    forall k | 0 <= k < |tables| ensures ordered[k] == tables[k] {
      ByNameOfDistinct(tables, k);
    }
  }

  /**
   * The tail of `_sort_tables_by_dependencies`: the entries of `table_dict` along the
   * traversal order, then every entry whose name the traversal missed. When the order
   * holds exactly the entries' names, nothing is missed.
   */
  method Reassemble(tables: seq<TableInfo>, sorted: seq<string>) returns (ordered: seq<TableInfo>)
    ensures forall x :: x in ordered ==> x in tables
    ensures (forall x :: x in sorted <==> x in TableNames(tables)) ==>
      |ordered| == |sorted| && forall k :: 0 <= k < |sorted| ==> ordered[k] == ByName(tables)[sorted[k]]
  {
    var byName := ByName(tables);
    ghost var covers := forall x :: x in sorted <==> x in TableNames(tables);
    ordered := [];
    for i := 0 to |sorted|
      invariant forall x :: x in ordered ==> x in tables
      invariant covers ==> |ordered| == i && forall k :: 0 <= k < i ==> ordered[k] == byName[sorted[k]]
    {
      if sorted[i] in byName {
        ordered := ordered + [byName[sorted[i]]];
      }
    }
    ghost var rebuilt := ordered;
    for i := 0 to |tables|
      invariant forall x :: x in ordered ==> x in tables
      invariant covers ==> ordered == rebuilt
    {
      assert tables[i].tableName == TableNames(tables)[i];
      if tables[i].tableName !in sorted {
        ordered := ordered + [tables[i]];
      }
    }
  }

  /**
   * `_sort_tables_by_dependencies`: order the names, then rebuild the entries through
   * `table_dict`.
   */
  method SortTablesByDependencies(tables: seq<TableInfo>, references: string -> seq<Option<string>>)
    returns (ordered: seq<TableInfo>)
    ensures forall x :: x in ordered ==> x in tables
    ensures NamesDistinct(tables) ==> multiset(ordered) == multiset(tables)
    ensures var names := TableNames(tables);
      Acyclic(DependencyGraph(names, references), names) ==>
        ReferencedEntriesFirst(DependencyGraph(names, references), names, ordered)
    ensures var names := TableNames(tables);
      NoInSetDependencies(DependencyGraph(names, references), names) && NamesDistinct(tables) ==>
        ordered == tables
  {
    var names := TableNames(tables);
    var g := BuildDependencyGraph(names, references);
    var sorted := SortTableNames(g, names);
    ordered := Reassemble(tables, sorted);
    OrderedEntries(tables, g, sorted, ordered);
  }

  /** What the traversal order and the rebuilt list together give. */
  lemma OrderedEntries(tables: seq<TableInfo>, g: Graph, sorted: seq<string>, ordered: seq<TableInfo>)
    requires Distinct(sorted)
    requires forall x :: x in sorted <==> x in TableNames(tables)
    requires Acyclic(g, TableNames(tables)) ==> DependenciesFirst(g, TableNames(tables), sorted)
    requires NoInSetDependencies(g, TableNames(tables)) && NamesDistinct(tables) ==> sorted == TableNames(tables)
    requires |ordered| == |sorted| && forall k :: 0 <= k < |sorted| ==> ordered[k] == ByName(tables)[sorted[k]]
    ensures NamesDistinct(tables) ==> multiset(ordered) == multiset(tables)
    ensures Acyclic(g, TableNames(tables)) ==> ReferencedEntriesFirst(g, TableNames(tables), ordered)
    ensures NoInSetDependencies(g, TableNames(tables)) && NamesDistinct(tables) ==> ordered == tables
  {
    var names := TableNames(tables);
    if Acyclic(g, names) {
      EntriesFollowOrder(g, names, sorted, ordered);
    }
    if NamesDistinct(tables) {
      EntriesPermutation(tables, sorted, ordered);
    }
    if NoInSetDependencies(g, names) && NamesDistinct(tables) {
      EntriesInOwnOrder(tables, ordered);
    }
  }
}
