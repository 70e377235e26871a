/**
 * Month-keyed tables and the outer join on the `Month` column that combines the raw sources.
 * A table keeps its column names in order, the key column `Month` among them; each row carries its
 * month and a cell for every other column. Joining two tables keeps the left columns, appends the
 * right table's non-key columns, and emits one row per month of either table in ascending month
 * order, filling the cells of the side that lacks the month with the missing marker.
 */
module Merge {
  import opened Common
  import opened MonthLabel

  /** A cell of a raw table: missing, a number, or text (the raw `month` labels). */
  datatype Cell = Missing | Num(x: real) | Text(s: string)

  const KeyColumn: string := "Month"

  datatype Row = Row(month: Date, cells: map<string, Cell>)

  datatype Table = Table(columns: seq<string>, rows: seq<Row>)

  /** The columns other than the key, in order. */
  function DataColumns(t: Table): (r: seq<string>)
    ensures forall c :: c in r <==> c in t.columns && c != KeyColumn
  {
    Without(t.columns, KeyColumn)
  }

  function Months(rows: seq<Row>): (r: seq<Date>)
    ensures |r| == |rows|
    ensures forall i :: 0 <= i < |rows| ==> r[i] == rows[i].month
  {
    seq(|rows|, i requires 0 <= i < |rows| => rows[i].month)
  }

  predicate StrictlyAscending(ms: seq<Date>)
  {
    forall i, j :: 0 <= i < j < |ms| ==> Before(ms[i], ms[j])
  }

  /** Every month labels one row at most. */
  predicate UniqueMonths(rows: seq<Row>)
  {
    forall i, j :: 0 <= i < j < |rows| ==> rows[i].month != rows[j].month
  }

  /** The key column is present, names are distinct and every row has a cell for exactly the data columns. */
  ghost predicate Shaped(t: Table)
  {
    && KeyColumn in t.columns
    && Distinct(t.columns)
    && (forall r, c :: r in t.rows ==> (c in r.cells <==> c in DataColumns(t)))
  }

  /** The cells of a row of a shaped table are those of the non-key columns. */
  lemma ShapedCells(t: Table, i: int)
    requires Shaped(t) && 0 <= i < |t.rows|
    ensures forall c :: c in t.rows[i].cells <==> c in t.columns && c != KeyColumn
  {
    forall c ensures c in t.rows[i].cells <==> c in t.columns && c != KeyColumn {
      assert t.rows[i] in t.rows;
      assert c in DataColumns(t) <==> c in t.columns && c != KeyColumn;
    }
  }

  /** The same, for every row at once. */
  lemma ShapedRows(t: Table)
    requires Shaped(t)
    ensures forall r, c :: r in t.rows ==> (c in r.cells <==> c in t.columns && c != KeyColumn)
  {
    forall r, c | r in t.rows ensures c in r.cells <==> c in t.columns && c != KeyColumn {
      assert c in DataColumns(t) <==> c in t.columns && c != KeyColumn;
    }
  }

  /** A shaped table whose months are unique. */
  ghost predicate WellFormed(t: Table)
  {
    Shaped(t) && UniqueMonths(t.rows)
  }

  /** The row for month `m`, if any. */
  function Find(rows: seq<Row>, m: Date): (r: Option<Row>)
    ensures r.Some? ==> r.value in rows && r.value.month == m
    ensures r.None? ==> forall i :: 0 <= i < |rows| ==> rows[i].month != m
  {
    if |rows| == 0 then None
    else if rows[0].month == m then Some(rows[0])
    else
      var r := Find(rows[1..], m);
      assert forall i :: 1 <= i < |rows| ==> rows[i] == rows[1..][i - 1];
      r
  }

  /** With unique months, the row found for `rows[i].month` is `rows[i]`. */
  lemma FindUnique(rows: seq<Row>, i: int)
    requires UniqueMonths(rows) && 0 <= i < |rows|
    ensures Find(rows, rows[i].month) == Some(rows[i])
  {
    var r := Find(rows, rows[i].month);
    var k :| 0 <= k < |rows| && rows[k] == r.value;
  }

  /**
   * The cell at month `m` and column `c`: `None` when `m` is not a month of the table or `c` is not
   * one of its data columns.
   */
  function ValueAt(t: Table, m: Date, c: string): (r: Option<Cell>)
    ensures r.Some? ==> c in DataColumns(t) && m in Months(t.rows)
  {
    if c !in DataColumns(t) then None
    else
      match Find(t.rows, m)
      case None => None
      case Some(row) =>
        assert exists i :: 0 <= i < |t.rows| && t.rows[i] == row;
        Some(if c in row.cells then row.cells[c] else Missing)
  }

  /** A cell of one side of a join: the stored value, or missing when that side lacks the month. */
  function SideCell(t: Table, m: Date, c: string): Cell
  {
    match ValueAt(t, m, c)
    case None => Missing
    case Some(v) => v
  }

  /** Places month `m` into a strictly ascending sequence of months, once. */
  function InsertMonth(m: Date, ms: seq<Date>): (r: seq<Date>)
    requires StrictlyAscending(ms)
    ensures StrictlyAscending(r)
    ensures forall x :: x in r <==> x == m || x in ms
  {
    if |ms| == 0 then [m]
    else if m == ms[0] then ms
    else if Before(m, ms[0]) then
      assert forall j :: 0 < j < |ms| ==> Before(ms[0], ms[j]);
      [m] + ms
    else
      var rest := InsertMonth(m, ms[1..]);
      assert forall x :: x in ms <==> x == ms[0] || x in ms[1..];
      assert forall j :: 0 <= j < |rest| ==> Before(ms[0], rest[j]) by {
        forall j | 0 <= j < |rest| ensures Before(ms[0], rest[j]) {
          assert rest[j] in rest;
          if rest[j] != m {
            var k :| 0 <= k < |ms[1..]| && ms[1..][k] == rest[j];
            assert ms[k + 1] == rest[j];
          }
        }
      }
      [ms[0]] + rest
  }

  /** The distinct months of `ms` in ascending order: the key order of an outer merge. */
  function SortedMonths(ms: seq<Date>): (r: seq<Date>)
    ensures StrictlyAscending(r)
    ensures forall x :: x in r <==> x in ms
  {
    if |ms| == 0 then []
    else
      assert forall x :: x in ms <==> x == ms[0] || x in ms[1..];
      InsertMonth(ms[0], SortedMonths(ms[1..]))
  }

  /** The row of the joined table for month `m`. */
  function JoinRow(a: Table, b: Table, m: Date): (r: Row)
    ensures r.month == m
    ensures forall c :: c in r.cells <==> c in DataColumns(a) || c in DataColumns(b)
  {
    var columns := DataColumns(a) + DataColumns(b);
    Row(m, map c | c in columns :: if c in DataColumns(a) then SideCell(a, m, c) else SideCell(b, m, c))
  }

  /** `pd.merge(a, b, on="Month", how="outer")`. */
  function OuterJoin(a: Table, b: Table): (r: Table)
    ensures r.columns == a.columns + DataColumns(b)
    ensures |r.rows| == |SortedMonths(Months(a.rows) + Months(b.rows))|
  {
    var keys := SortedMonths(Months(a.rows) + Months(b.rows));
    Table(a.columns + DataColumns(b), seq(|keys|, i requires 0 <= i < |keys| => JoinRow(a, b, keys[i])))
  }

  /** Two tables share no column except the key. */
  predicate DisjointData(a: Table, b: Table)
  {
    forall c :: c in DataColumns(a) ==> c !in DataColumns(b)
  }

  /**
   * The join of two shaped tables is well formed, whatever their months: each month becomes one
   * row. Its data columns are those of both sides.
   */
  lemma OuterJoinWellFormed(a: Table, b: Table)
    requires Shaped(a) && Shaped(b) && DisjointData(a, b)
    ensures WellFormed(OuterJoin(a, b))
    ensures forall c :: c in DataColumns(OuterJoin(a, b)) <==> c in DataColumns(a) || c in DataColumns(b)
  {
    var j := OuterJoin(a, b);
    var db := DataColumns(b);
    WithoutDistinct(b.columns, KeyColumn);
    assert Distinct(j.columns) by {
      forall p, q | 0 <= p < q < |j.columns| ensures j.columns[p] != j.columns[q] {
        if q >= |a.columns| && p < |a.columns| {
          assert j.columns[q] in db;
          if j.columns[p] == KeyColumn {
          } else {
            assert j.columns[p] in DataColumns(a);
          }
        } else if p >= |a.columns| {
          assert j.columns[p] == db[p - |a.columns|] && j.columns[q] == db[q - |a.columns|];
        }
      }
    }
    var keys := SortedMonths(Months(a.rows) + Months(b.rows));
    assert UniqueMonths(j.rows) by {
      forall p, q | 0 <= p < q < |j.rows| ensures j.rows[p].month != j.rows[q].month {
        assert j.rows[p].month == keys[p] && j.rows[q].month == keys[q];
      }
    }
  }

  /** A month is a key of the join exactly when it is a key of either side; keys ascend. */
  lemma OuterJoinKeys(a: Table, b: Table)
    ensures forall m :: m in Months(OuterJoin(a, b).rows) <==> m in Months(a.rows) || m in Months(b.rows)
    ensures StrictlyAscending(Months(OuterJoin(a, b).rows))
  {
    var keys := SortedMonths(Months(a.rows) + Months(b.rows));
    assert Months(OuterJoin(a, b).rows) == keys;
  }

  /**
   * The values of the join: a column of either side keeps that side's value at each of its
   * months and is missing at the months only the other side has; nothing exists outside the
   * joined months and columns.
   */
  lemma OuterJoinValues(a: Table, b: Table, m: Date, c: string)
    requires Shaped(a) && Shaped(b) && DisjointData(a, b)
    ensures c in DataColumns(a) ==>
      ValueAt(OuterJoin(a, b), m, c) ==
        (if m in Months(a.rows) then ValueAt(a, m, c) else if m in Months(b.rows) then Some(Missing) else None)
    ensures c in DataColumns(b) ==>
      ValueAt(OuterJoin(a, b), m, c) ==
        (if m in Months(b.rows) then ValueAt(b, m, c) else if m in Months(a.rows) then Some(Missing) else None)
    ensures c !in DataColumns(a) && c !in DataColumns(b) ==> ValueAt(OuterJoin(a, b), m, c) == None
  {
    var j := OuterJoin(a, b);
    OuterJoinWellFormed(a, b);
    OuterJoinKeys(a, b);
    if m in Months(j.rows) {
      var i :| 0 <= i < |j.rows| && Months(j.rows)[i] == m;
      FindUnique(j.rows, i);
      assert j.rows[i] == JoinRow(a, b, m);
    }
  }

  /** Sources that can be merged: each well formed, no data column shared by two of them. */
  ghost predicate Mergeable(ds: seq<Table>)
  {
    && (forall i :: 0 <= i < |ds| ==> WellFormed(ds[i]))
    && (forall i, j :: 0 <= i < j < |ds| ==> DisjointData(ds[i], ds[j]))
  }

  /** The left fold of outer joins over the sources, first source first. */
  function Merged(ds: seq<Table>): (r: Table)
    requires |ds| >= 1
    ensures |ds| == 1 ==> r == ds[0]
  {
    if |ds| == 1 then ds[0] else OuterJoin(Merged(ds[..|ds| - 1]), ds[|ds| - 1])
  }

  /**
   * The merged table of several sources: well formed; its data columns are those of all sources;
   * its months are exactly the months of the sources, ascending once two or more are merged; each
   * source's value at each of its months is kept, and a month a source lacks is missing in that
   * source's columns.
   */
  lemma {:induction false} MergedSpec(ds: seq<Table>)
    requires |ds| >= 1 && Mergeable(ds)
    ensures WellFormed(Merged(ds))
    ensures forall c :: c in DataColumns(Merged(ds)) <==> exists i :: 0 <= i < |ds| && c in DataColumns(ds[i])
    ensures forall m :: m in Months(Merged(ds).rows) <==> exists i :: 0 <= i < |ds| && m in Months(ds[i].rows)
    ensures |ds| >= 2 ==> StrictlyAscending(Months(Merged(ds).rows))
    ensures forall i, m, c :: 0 <= i < |ds| && c in DataColumns(ds[i]) && m in Months(Merged(ds).rows) ==>
      ValueAt(Merged(ds), m, c) == (if m in Months(ds[i].rows) then ValueAt(ds[i], m, c) else Some(Missing))
  {
    if |ds| > 1 {
      var front := ds[..|ds| - 1];
      var last := ds[|ds| - 1];
      assert Mergeable(front);
      MergedSpec(front);
      var left := Merged(front);
      assert DisjointData(left, last) by {
        forall c | c in DataColumns(left) ensures c !in DataColumns(last) {
          var i :| 0 <= i < |front| && c in DataColumns(front[i]);
          assert DisjointData(ds[i], last);
        }
      }
      OuterJoinWellFormed(left, last);
      OuterJoinKeys(left, last);
      var j := Merged(ds);
      assert j == OuterJoin(left, last);
      forall c ensures c in DataColumns(j) <==> exists i :: 0 <= i < |ds| && c in DataColumns(ds[i]) {
        if c in DataColumns(j) && c !in DataColumns(last) {
          var i :| 0 <= i < |front| && c in DataColumns(front[i]);
          assert ds[i] == front[i];
        }
        if exists i :: 0 <= i < |ds| && c in DataColumns(ds[i]) {
          var i :| 0 <= i < |ds| && c in DataColumns(ds[i]);
          if i < |front| {
            assert ds[i] == front[i];
          }
        }
      }
      forall m ensures m in Months(j.rows) <==> exists i :: 0 <= i < |ds| && m in Months(ds[i].rows) {
        if m in Months(j.rows) && m !in Months(last.rows) {
          var i :| 0 <= i < |front| && m in Months(front[i].rows);
          assert ds[i] == front[i];
        }
        if exists i :: 0 <= i < |ds| && m in Months(ds[i].rows) {
          var i :| 0 <= i < |ds| && m in Months(ds[i].rows);
          if i < |front| {
            assert ds[i] == front[i];
          }
        }
      }
      forall i, m, c | 0 <= i < |ds| && c in DataColumns(ds[i]) && m in Months(j.rows)
        ensures ValueAt(j, m, c) == (if m in Months(ds[i].rows) then ValueAt(ds[i], m, c) else Some(Missing))
      {
        OuterJoinValues(left, last, m, c);
        if i < |front| {
          assert ds[i] == front[i];
          assert c in DataColumns(left);
          if m !in Months(left.rows) {
            assert m in Months(last.rows);
            forall k | 0 <= k < |front| ensures m !in Months(front[k].rows) {
            }
          }
        } else {
          assert ds[i] == last;
        }
      }
    }
  }

  /**
   * The merge loop: start from the first source and outer-join each further source in list
   * order. An empty list has no first source and raises `IndexError`.
   */
  method MergeAll(datasets: seq<Table>) returns (r: Result<Table>)
    ensures r.Err? <==> |datasets| == 0
    ensures r.Err? ==> r.error == IndexError
    ensures r.Ok? ==> r.value == Merged(datasets)
  {
    if |datasets| == 0 {
      return Err(IndexError);
    }
    var merged := datasets[0];
    var i := 1;
    while i < |datasets|
      invariant 1 <= i <= |datasets|
      invariant merged == Merged(datasets[..i])
    {
      assert datasets[..i + 1][..i] == datasets[..i];
      merged := OuterJoin(merged, datasets[i]);
      i := i + 1;
    }
    assert datasets[..i] == datasets;
    return Ok(merged);
  }
}
