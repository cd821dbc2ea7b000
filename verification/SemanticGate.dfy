/**
  The semantic deployment gate (scripts/xiaoyou_agenda_semantic_gate.py): snapshots of the tables of a database,
  independent of the physical order of their rows, and the comparison of two such snapshots. A digest stands for the
  text that it is taken of.
 */
module SemanticGate {
  import opened Options
  import opened JsonRow
  import Text

  // ----- Sorting -----

  /** Order by code points, shorter first. */
  predicate AtMost(a: string, b: string) {
    a == "" || (b != "" && (a[0] < b[0] || (a[0] == b[0] && AtMost(a[1..], b[1..]))))
  }

  lemma {:induction false} AtMostTotal(a: string, b: string)
    ensures AtMost(a, b) || AtMost(b, a)
    ensures AtMost(a, b) && AtMost(b, a) ==> a == b
  {
    if a != "" && b != "" && a[0] == b[0] {
      AtMostTotal(a[1..], b[1..]);
      assert a == [a[0]] + a[1..] && b == [b[0]] + b[1..];
    }
  }

  lemma {:induction false} AtMostTransitive(a: string, b: string, c: string)
    requires AtMost(a, b) && AtMost(b, c)
    ensures AtMost(a, c)
  {
    if a != "" && a[0] == b[0] == c[0] {
      AtMostTransitive(a[1..], b[1..], c[1..]);
    }
  }

  /** Every element is at most every later one. */
  ghost predicate Sorted(s: seq<string>) {
    forall i, j :: 0 <= i < j < |s| ==> AtMost(s[i], s[j])
  }

  function Insert(x: string, s: seq<string>): seq<string> {
    if s == [] || AtMost(x, s[0]) then [x] + s else [s[0]] + Insert(x, s[1..])
  }

  function Sort(s: seq<string>): seq<string> {
    if s == [] then [] else Insert(s[0], Sort(s[1..]))
  }

  lemma {:induction false} InsertAdds(x: string, s: seq<string>)
    ensures multiset(Insert(x, s)) == multiset(s) + multiset{x}
  {
    if s != [] && !AtMost(x, s[0]) {
      InsertAdds(x, s[1..]);
      assert s == [s[0]] + s[1..];
    }
  }

  ghost predicate Below(x: string, s: seq<string>) {
    forall i :: 0 <= i < |s| ==> AtMost(x, s[i])
  }

  lemma SortedCons(x: string, s: seq<string>)
    ensures Sorted([x] + s) <==> Below(x, s) && Sorted(s)
  {
    var l := [x] + s;
    assert l[0] == x && forall i :: 0 <= i < |s| ==> s[i] == l[i + 1];
    if Sorted(l) {
      forall i, j | 0 <= i < j < |s| ensures AtMost(s[i], s[j]) {
        assert AtMost(l[i + 1], l[j + 1]);
      }
    }
  }

  lemma {:induction false} InsertSorts(x: string, s: seq<string>)
    requires Sorted(s)
    ensures Sorted(Insert(x, s))
    ensures forall y :: AtMost(y, x) && Below(y, s) ==> Below(y, Insert(x, s))
  {
    if s != [] {
      var y, rest := s[0], s[1..];
      assert s == [y] + rest;
      SortedCons(y, rest);
      if AtMost(x, y) {
        forall i | 0 <= i < |s| ensures AtMost(x, s[i]) {
          if i > 0 {
            AtMostTransitive(x, y, s[i]);
          }
        }
        SortedCons(x, s);
      } else {
        AtMostTotal(x, y);
        InsertSorts(x, rest);
        SortedCons(y, Insert(x, rest));
      }
    } else {
      SortedCons(x, s);
    }
  }

  lemma {:induction false} SortSorts(s: seq<string>)
    ensures Sorted(Sort(s)) && multiset(Sort(s)) == multiset(s) && |Sort(s)| == |s|
  {
    if s != [] {
      SortSorts(s[1..]);
      InsertSorts(s[0], Sort(s[1..]));
      InsertAdds(s[0], Sort(s[1..]));
      assert s == [s[0]] + s[1..];
      assert |multiset(Sort(s))| == |multiset(s)|;
    }
  }

  /** A multiset has one sorted list, whatever algorithm sorts it. */
  lemma {:induction false} SortedIsCanonical(a: seq<string>, b: seq<string>)
    requires Sorted(a) && Sorted(b) && multiset(a) == multiset(b)
    ensures a == b
  {
    if a != [] {
      assert a[0] in multiset(b);
      var x, y := a[0], b[0];
      assert x in b && y in multiset(a);
      FirstIsLeast(a, y);
      FirstIsLeast(b, x);
      AtMostTotal(x, y);
      DropFirst(a);
      DropFirst(b);
      SortedCons(x, a[1..]);
      SortedCons(y, b[1..]);
      SortedIsCanonical(a[1..], b[1..]);
    } else {
      assert |multiset(a)| == 0 == |multiset(b)|;
    }
  }

  lemma DropFirst(s: seq<string>)
    requires s != []
    ensures s == [s[0]] + s[1..] && multiset(s[1..]) == multiset(s) - multiset{s[0]}
  {
    assert s == [s[0]] + s[1..];
  }

  lemma FirstIsLeast(s: seq<string>, x: string)
    requires Sorted(s) && x in s
    ensures AtMost(s[0], x)
  {
    AtMostTotal(x, x);
    var i :| 0 <= i < |s| && s[i] == x;
  }

  // ----- Snapshots -----

  /** The columns of a table in order, and its rows in some physical order. */
  datatype Table = Table(columns: seq<string>, rows: seq<Row>)

  /** A table without columns has no rows. */
  ghost predicate TableOk(t: Table) {
    && (t.columns == [] ==> t.rows == [])
    && forall i :: 0 <= i < |t.rows| ==> RowOk(t.columns, t.rows[i])
  }

  datatype Snapshot = Snapshot(rowCount: nat, digest: string, columns: seq<string>)

  ghost predicate RowsOk(keys: seq<string>, rows: seq<Row>) {
    forall i :: 0 <= i < |rows| ==> RowOk(keys, rows[i])
  }

  /** Every row as text, with the keys in sorted order. */
  ghost function Lines(keys: seq<string>, rows: seq<Row>): seq<string>
    requires RowsOk(keys, rows)
  {
    seq(|rows|, i requires 0 <= i < |rows| => EncodeRow(keys, rows[i]))
  }

  lemma SortedKeys(columns: seq<string>, row: Row)
    requires RowOk(columns, row)
    ensures RowOk(Sort(columns), row)
  {
    SortSorts(columns);
    assert forall key :: key in columns <==> key in multiset(columns);
    assert forall key :: key in Sort(columns) <==> key in multiset(Sort(columns));
  }

  lemma TableKeys(t: Table)
    requires TableOk(t)
    ensures RowsOk(Sort(t.columns), t.rows)
  {
    forall i | 0 <= i < |t.rows| ensures RowOk(Sort(t.columns), t.rows[i]) {
      SortedKeys(t.columns, t.rows[i]);
    }
  }

  ghost function SnapshotOf(t: Table): Snapshot
    requires TableOk(t)
  {
    if t.columns == [] then Snapshot(0, "[]", [])
    else
      TableKeys(t);
      Snapshot(|t.rows|, Text.Join(Sort(Lines(Sort(t.columns), t.rows)), '\n'), t.columns)
  }

  method TableSnapshot(t: Table) returns (snapshot: Snapshot)
    requires TableOk(t)
    ensures snapshot == SnapshotOf(t)
  {
    if t.columns == [] {
      return Snapshot(0, "[]", []);
    }
    TableKeys(t);
    var keys := Sort(t.columns);
    var canonical: seq<string> := [];
    for i := 0 to |t.rows|
      invariant |canonical| == i && forall j :: 0 <= j < i ==> canonical[j] == EncodeRow(keys, t.rows[j])
    {
      canonical := canonical + [EncodeRow(keys, t.rows[i])];
    }
    assert canonical == Lines(keys, t.rows);
    canonical := Sort(canonical);
    SortSorts(Lines(keys, t.rows));
    snapshot := Snapshot(|canonical|, Text.Join(canonical, '\n'), t.columns);
  }

  lemma LinesOneLine(keys: seq<string>, rows: seq<Row>)
    requires RowsOk(keys, rows)
    ensures forall line :: line in Lines(keys, rows) ==> '\n' !in line
  {
    forall i | 0 <= i < |rows| ensures '\n' !in EncodeRow(keys, rows[i]) {
      EncodeRowOneLine(keys, rows[i]);
    }
  }

  lemma CountLast<T>(s: seq<T>, x: T, y: T)
    ensures multiset(s + [x])[y] == multiset(s)[y] + if x == y then 1 else 0
  {
  }

  /** Lists that hold `x` and `y` at the same places hold them equally often. */
  lemma {:induction false} SamePlacesSameCount<A, B>(xs: seq<A>, ys: seq<B>, x: A, y: B)
    requires |xs| == |ys| && forall i :: 0 <= i < |xs| ==> (xs[i] == x <==> ys[i] == y)
    ensures multiset(xs)[x] == multiset(ys)[y]
  {
    if xs != [] {
      var n := |xs| - 1;
      SamePlacesSameCount(xs[..n], ys[..n], x, y);
      CountLast(xs[..n], xs[n], x);
      CountLast(ys[..n], ys[n], y);
      assert xs == xs[..n] + [xs[n]] && ys == ys[..n] + [ys[n]];
    }
  }

  /** A line occurs as often as its row. */
  lemma LineCount(keys: seq<string>, rows: seq<Row>, row: Row)
    requires RowsOk(keys, rows) && RowOk(keys, row)
    ensures multiset(Lines(keys, rows))[EncodeRow(keys, row)] == multiset(rows)[row]
  {
    var lines, line := Lines(keys, rows), EncodeRow(keys, row);
    forall i | 0 <= i < |rows| ensures rows[i] == row <==> lines[i] == line {
      EncodeRowInjective(keys, rows[i], row);
    }
    SamePlacesSameCount(rows, lines, row, line);
  }

  /** Two tables have the same lines, up to order, exactly when they have the same rows, up to order. */
  lemma SameLines(keys: seq<string>, a: seq<Row>, b: seq<Row>)
    requires RowsOk(keys, a) && RowsOk(keys, b)
    ensures multiset(Lines(keys, a)) == multiset(Lines(keys, b)) <==> multiset(a) == multiset(b)
  {
    if multiset(Lines(keys, a)) == multiset(Lines(keys, b)) {
      forall row ensures multiset(a)[row] == multiset(b)[row] {
        if row in a || row in b {
          LineCount(keys, a, row);
          LineCount(keys, b, row);
        }
      }
    }
    if multiset(a) == multiset(b) {
      forall line ensures multiset(Lines(keys, a))[line] == multiset(Lines(keys, b))[line] {
        if line in Lines(keys, a) {
          LineOfBoth(keys, a, b, line);
        } else if line in Lines(keys, b) {
          LineOfBoth(keys, b, a, line);
        }
      }
    }
  }

  lemma LineOfBoth(keys: seq<string>, a: seq<Row>, b: seq<Row>, line: string)
    requires RowsOk(keys, a) && RowsOk(keys, b) && multiset(a) == multiset(b) && line in Lines(keys, a)
    ensures multiset(Lines(keys, a))[line] == multiset(Lines(keys, b))[line]
  {
    var i :| 0 <= i < |a| && Lines(keys, a)[i] == line;
    LineCount(keys, a, a[i]);
    LineCount(keys, b, a[i]);
  }

  /** Same columns in the same order, same rows in any order, equal rows counted. */
  ghost predicate SameTable(a: Table, b: Table) {
    a.columns == b.columns && multiset(a.rows) == multiset(b.rows)
  }

  /** Snapshots are equal exactly when the tables hold the same. */
  lemma SnapshotDecides(a: Table, b: Table)
    requires TableOk(a) && TableOk(b)
    ensures SnapshotOf(a) == SnapshotOf(b) <==> SameTable(a, b)
  {
    if a.columns == b.columns && a.columns != [] {
      TableKeys(a);
      TableKeys(b);
      var keys := Sort(a.columns);
      SameLines(keys, a.rows, b.rows);
      assert |multiset(a.rows)| == |a.rows| && |multiset(b.rows)| == |b.rows|;
      DigestDecides(keys, a.rows, b.rows);
    }
  }

  lemma DigestDecides(keys: seq<string>, a: seq<Row>, b: seq<Row>)
    requires RowsOk(keys, a) && RowsOk(keys, b)
    ensures |a| == |b| && Text.Join(Sort(Lines(keys, a)), '\n') == Text.Join(Sort(Lines(keys, b)), '\n') <==>
            multiset(Lines(keys, a)) == multiset(Lines(keys, b))
  {
    var l, r := Lines(keys, a), Lines(keys, b);
    LinesOneLine(keys, a);
    LinesOneLine(keys, b);
    SortSorts(l);
    SortSorts(r);
    assert |l| == |multiset(l)| && |r| == |multiset(r)|;
    if |a| == |b| && Text.Join(Sort(l), '\n') == Text.Join(Sort(r), '\n') {
      forall line | line in Sort(l) ensures '\n' !in line {
        assert line in multiset(Sort(l));
      }
      forall line | line in Sort(r) ensures '\n' !in line {
        assert line in multiset(Sort(r));
      }
      Text.JoinInjective(Sort(l), Sort(r), '\n');
    }
    if multiset(l) == multiset(r) {
      SortedIsCanonical(Sort(l), Sort(r));
    }
  }

  // ----- The comparison -----

  type Snapshots = map<string, Snapshot>

  function Lookup<V>(m: map<string, V>, table: string): Option<V> {
    if table in m then Some(m[table]) else None
  }

  /** The tables that only record heartbeats and statistics. */
  const IGNORED_RUNTIME_TABLES: set<string> := {"agenda_runtime_status", "agenda_runtime_daily_status"}

  predicate OnlyHeartbeats(table: string) {
    table == "agenda_runtime_status" || table == "agenda_runtime_daily_status"
  }

  datatype Verdict = PassNoChanges | PassRuntimeOnly | Fail

  predicate Differs(before: Snapshots, after: Snapshots, table: string) {
    Lookup(before, table) != Lookup(after, table)
  }

  /** The tables of a given kind that differ. */
  function Changed(before: Snapshots, after: Snapshots, kind: string -> bool): set<string> {
    set table | table in before.Keys + after.Keys && kind(table) && Differs(before, after, table)
  }

  lemma PickStep(s: set<string>, rest: set<string>, x: string)
    requires x in rest
    ensures x in s ==> (s - rest) + {x} == s - (rest - {x})
    ensures x !in s ==> s - rest == s - (rest - {x})
  {
  }

  /** The comparison for any set of ignored tables. */
  method CompareSnapshots(before: Snapshots, after: Snapshots, ignored: set<string>)
    returns (semantic: set<string>, runtime: set<string>, verdict: Verdict)
    ensures semantic == Changed(before, after, table => table !in ignored)
    ensures runtime == Changed(before, after, table => table in ignored)
    ensures verdict == if semantic != {} then Fail else if runtime != {} then PassRuntimeOnly else PassNoChanges
  {
    ghost var s := Changed(before, after, table => table !in ignored);
    ghost var r := Changed(before, after, table => table in ignored);
    semantic, runtime := {}, {};
    var rest := before.Keys + after.Keys;
    while rest != {}
      invariant rest <= before.Keys + after.Keys
      invariant semantic == s - rest && runtime == r - rest
      decreases |rest|
    {
      var table :| table in rest;
      PickStep(s, rest, table);
      PickStep(r, rest, table);
      rest := rest - {table};
      if Differs(before, after, table) {
        if table in ignored {
          runtime := runtime + {table};
        } else {
          semantic := semantic + {table};
        }
      }
    }
    verdict := if semantic == {} && runtime != {} then PassRuntimeOnly else if semantic == {} then PassNoChanges else Fail;
  }

  lemma IgnoredTables()
    ensures forall table :: table in IGNORED_RUNTIME_TABLES <==> OnlyHeartbeats(table)
  {
  }

  type Database = map<string, Table>

  ghost predicate DatabaseOk(db: Database) {
    forall table :: table in db ==> TableOk(db[table])
  }

  ghost function SnapshotDatabase(db: Database): Snapshots
    requires DatabaseOk(db)
  {
    map table | table in db :: SnapshotOf(db[table])
  }

  ghost predicate Preserved(before: Database, after: Database, table: string) {
    (table in before <==> table in after) && (table in before && table in after ==> SameTable(before[table], after[table]))
  }

  lemma TableDecides(before: Database, after: Database, table: string)
    requires DatabaseOk(before) && DatabaseOk(after)
    ensures Lookup(SnapshotDatabase(before), table) == Lookup(SnapshotDatabase(after), table) <==>
            Preserved(before, after, table)
  {
    if table in before && table in after {
      SnapshotDecides(before[table], after[table]);
    }
  }

  lemma ChangedDecides(before: Database, after: Database, kind: string -> bool)
    requires DatabaseOk(before) && DatabaseOk(after)
    ensures Changed(SnapshotDatabase(before), SnapshotDatabase(after), kind) == {} <==>
            forall table | kind(table) :: Preserved(before, after, table)
  {
    var b, a := SnapshotDatabase(before), SnapshotDatabase(after);
    var changed := Changed(b, a, kind);
    forall table | kind(table) ensures table in changed <==> !Preserved(before, after, table) {
      TableDecides(before, after, table);
      assert table in b.Keys + a.Keys <==> table in before || table in after;
    }
    if changed != {} {
      var table :| table in changed;
    }
  }

  /**
    The gate accepts two databases exactly when every table that is not ignored is in both or in neither, with the
    same columns and the same multiset of rows; it reports no change at all exactly when this holds for all tables.
   */
  method Gate(ghost before: Database, ghost after: Database, b: Snapshots, a: Snapshots) returns (verdict: Verdict)
    requires DatabaseOk(before) && DatabaseOk(after)
    requires b == SnapshotDatabase(before) && a == SnapshotDatabase(after)
    ensures !verdict.Fail? <==>
              forall table | !OnlyHeartbeats(table) :: Preserved(before, after, table)
    ensures verdict.PassNoChanges? <==> forall table :: Preserved(before, after, table)
  {
    var semantic, runtime;
    semantic, runtime, verdict := CompareSnapshots(b, a, IGNORED_RUNTIME_TABLES);
    ChangedDecides(before, after, table => table !in IGNORED_RUNTIME_TABLES);
    assert forall table :: table in IGNORED_RUNTIME_TABLES <==> OnlyHeartbeats(table) by {
      IgnoredTables();
    }
    ChangedDecides(before, after, table => table in IGNORED_RUNTIME_TABLES);
  }

  /** A physical rewrite, which only reorders rows, is never noticed. */
  lemma ReorderIsAccepted(before: Database, after: Database)
    requires DatabaseOk(before) && DatabaseOk(after) && before.Keys == after.Keys
    requires forall table :: table in before ==>
      before[table].columns == after[table].columns && multiset(before[table].rows) == multiset(after[table].rows)
    ensures SnapshotDatabase(before) == SnapshotDatabase(after)
  {
    forall table | table in before ensures SnapshotOf(before[table]) == SnapshotOf(after[table]) {
      SnapshotDecides(before[table], after[table]);
    }
  }
}
