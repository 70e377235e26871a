/**
 * The processing script that builds the monthly table of arrivals and search interest: derive the
 * `Month` key from the raw `month` labels, outer-join the two sources on it, rename the search
 * column, drop the raw label column and make `Month` the index. The frame the last three steps
 * change in place is a class; each step is specified by a function on its contents.
 */
module ProcessData {
  import opened Common
  import opened MonthLabel
  import opened Merge

  const LabelColumn: string := "month"
  const VisaHeader: string := "New Zealand work visa: (India)"
  const VisaColumn: string := "India_visa_search"

  /** A table as read from a file: column names and, per row, one cell per column. */
  datatype RawTable = RawTable(columns: seq<string>, rows: seq<map<string, Cell>>)

  ghost predicate RawShaped(t: RawTable)
  {
    Distinct(t.columns) && forall r, c :: r in t.rows ==> (c in r <==> c in t.columns)
  }

  function LabelCell(row: map<string, Cell>): Cell
  {
    if LabelColumn in row then row[LabelColumn] else Missing
  }

  /** The first day of the month a row's label names. */
  function LabelDate(row: map<string, Cell>): (r: Result<Date>)
    ensures r.Ok? <==> LabelCell(row).Text? && ParseMonthLabel(LabelCell(row).s).Ok?
    ensures r.Ok? ==> r == ParseMonthLabel(LabelCell(row).s)
  {
    match LabelCell(row)
    case Text(s) => ParseMonthLabel(s)
    case Missing => Err(FormatError(""))
    case Num(_) => Err(TypeError(LabelColumn))
  }

  /** Converts every label in row order; the first label that does not convert raises. */
  function ParseLabels(rows: seq<map<string, Cell>>): (r: Result<seq<Date>>)
    ensures r.Ok? ==> |r.value| == |rows| && forall i :: 0 <= i < |rows| ==> LabelDate(rows[i]) == Ok(r.value[i])
    ensures r.Ok? <==> forall i :: 0 <= i < |rows| ==> LabelDate(rows[i]).Ok?
  {
    if |rows| == 0 then Ok([])
    else
      match LabelDate(rows[0])
      case Err(e) => Err(e)
      case Ok(d) =>
        match ParseLabels(rows[1..])
        case Err(e) =>
          assert exists i :: 1 <= i < |rows| && LabelDate(rows[i]).Err? by {
            var k :| 0 <= k < |rows[1..]| && LabelDate(rows[1..][k]).Err?;
            assert rows[1..][k] == rows[k + 1];
          }
          Err(e)
        case Ok(ds) =>
          assert forall i :: 1 <= i < |rows| ==> rows[i] == rows[1..][i - 1];
          Ok([d] + ds)
  }

  predicate HasNumericLabel(rows: seq<map<string, Cell>>)
  {
    exists i :: 0 <= i < |rows| && LabelCell(rows[i]).Num?
  }

  /** The column list after assigning the `Month` column: appended, or kept in place if present. */
  function KeyedColumns(columns: seq<string>): (r: seq<string>)
    ensures KeyColumn in r
    ensures forall c :: c in r <==> c in columns || c == KeyColumn
  {
    if KeyColumn in columns then columns else columns + [KeyColumn]
  }

  /**
   * `df['Month'] = pd.to_datetime(df['month'] + '01', format='%YM%m%d')`: `KeyError` without a
   * `month` column, `TypeError` when a label is a number, the first conversion error otherwise;
   * on success every row is keyed by the month its label names.
   */
  function WithMonthKey(raw: RawTable): (r: Result<Table>)
    ensures LabelColumn !in raw.columns ==> r == Err(KeyError(LabelColumn))
    ensures LabelColumn in raw.columns && HasNumericLabel(raw.rows) ==> r == Err(TypeError(LabelColumn))
    ensures r.Ok? <==> LabelColumn in raw.columns && forall i :: 0 <= i < |raw.rows| ==> LabelDate(raw.rows[i]).Ok?
    ensures r.Ok? ==> r.value.columns == KeyedColumns(raw.columns) && |r.value.rows| == |raw.rows|
    ensures r.Ok? ==> forall i :: 0 <= i < |raw.rows| ==>
      Ok(r.value.rows[i].month) == LabelDate(raw.rows[i]) && r.value.rows[i].cells == raw.rows[i] - {KeyColumn}
  {
    if LabelColumn !in raw.columns then Err(KeyError(LabelColumn))
    else if HasNumericLabel(raw.rows) then Err(TypeError(LabelColumn))
    else
      match ParseLabels(raw.rows)
      case Err(e) => Err(e)
      case Ok(dates) =>
        Ok(Table(KeyedColumns(raw.columns),
                 seq(|dates|, i requires 0 <= i < |dates| => Row(dates[i], raw.rows[i] - {KeyColumn}))))
  }

  lemma KeyedColumnsDistinct(columns: seq<string>)
    requires Distinct(columns)
    ensures Distinct(KeyedColumns(columns))
  {
    if KeyColumn !in columns {
      var r := KeyedColumns(columns);
      forall p, q | 0 <= p < q < |r| ensures r[p] != r[q] {
        if q == |columns| {
          assert r[p] in columns;
        }
      }
    }
  }

  /** The keyed table has the shape the merge needs: every row has exactly the non-key columns. */
  lemma WithMonthKeyShaped(raw: RawTable)
    requires RawShaped(raw) && WithMonthKey(raw).Ok?
    ensures Shaped(WithMonthKey(raw).value)
    ensures LabelColumn in DataColumns(WithMonthKey(raw).value)
    ensures forall c :: c in DataColumns(WithMonthKey(raw).value) <==> c in raw.columns && c != KeyColumn
  {
    var t := WithMonthKey(raw).value;
    KeyedColumnsDistinct(raw.columns);
    forall r, c | r in t.rows ensures c in r.cells <==> c in DataColumns(t) {
      var i :| 0 <= i < |t.rows| && t.rows[i] == r;
      assert raw.rows[i] in raw.rows;
    }
  }

  // ---------------------------------------------------------------------------------------------
  // The steps that change the merged frame in place, as functions on its contents

  function RenameHeader(c: string, from: string, to: string): string
  {
    if c == from then to else c
  }

  function RenameCells(cells: map<string, Cell>, from: string, to: string): map<string, Cell>
  {
    if from in cells then (cells - {from})[to := cells[from]] else cells
  }

  /** `rename(columns={from: to})`: a header equal to `from` becomes `to`; an absent `from` is ignored. */
  function RenameColumn(t: Table, from: string, to: string): (r: Table)
    ensures |r.columns| == |t.columns| && |r.rows| == |t.rows|
    ensures forall i :: 0 <= i < |t.rows| ==> r.rows[i].month == t.rows[i].month
    ensures from != to ==> from !in r.columns
  {
    Table(seq(|t.columns|, i requires 0 <= i < |t.columns| => RenameHeader(t.columns[i], from, to)),
          seq(|t.rows|, i requires 0 <= i < |t.rows| => Row(t.rows[i].month, RenameCells(t.rows[i].cells, from, to))))
  }

  /** `drop([name], axis=1)` once `name` is known to be a column. */
  function DropColumn(t: Table, name: string): (r: Table)
    ensures |r.rows| == |t.rows|
    ensures forall i :: 0 <= i < |t.rows| ==> r.rows[i].month == t.rows[i].month
    ensures forall c :: c in r.columns <==> c in t.columns && c != name
  {
    Table(Without(t.columns, name), seq(|t.rows|, i requires 0 <= i < |t.rows| => Row(t.rows[i].month, t.rows[i].cells - {name})))
  }

  /** `set_index('Month')`: the key leaves the columns and the months become the index. */
  function SetMonthIndex(t: Table): (r: Table)
    ensures forall c :: c in r.columns <==> c in t.columns && c != KeyColumn
    ensures r.rows == t.rows
  {
    Table(Without(t.columns, KeyColumn), t.rows)
  }

  /**
   * Two row sequences with the same months position by position: looking a month up finds the
   * rows at the same position in both, or in neither.
   */
  lemma {:induction false} FindSameMonths(rows: seq<Row>, other: seq<Row>, m: Date) returns (i: int)
    requires |rows| == |other| && forall k :: 0 <= k < |rows| ==> rows[k].month == other[k].month
    ensures (Find(rows, m).None? && Find(other, m).None?) ||
      (0 <= i < |rows| && Find(rows, m) == Some(rows[i]) && Find(other, m) == Some(other[i]))
  {
    if |rows| == 0 || rows[0].month == m {
      i := 0;
    } else {
      var j := FindSameMonths(rows[1..], other[1..], m);
      i := j + 1;
    }
  }

  /** The headers after renaming: `from` is replaced by `to`, every other header stays. */
  lemma RenamedHeaders(t: Table, from: string, to: string)
    ensures forall c :: c in RenameColumn(t, from, to).columns <==>
      (c in t.columns && c != from) || (c == to && from in t.columns)
  {
    var r := RenameColumn(t, from, to);
    forall c ensures c in r.columns <==> (c in t.columns && c != from) || (c == to && from in t.columns) {
      if c in r.columns {
        var i :| 0 <= i < |r.columns| && r.columns[i] == c;
        assert t.columns[i] in t.columns;
      }
      if c in t.columns && c != from {
        var i :| 0 <= i < |t.columns| && t.columns[i] == c;
        assert r.columns[i] == c;
      }
      if c == to && from in t.columns {
        var i :| 0 <= i < |t.columns| && t.columns[i] == from;
        assert r.columns[i] == to;
      }
    }
  }

  /** The cells after renaming: the cell under `from` moves to `to`, every other cell stays. */
  lemma RenameCellsSpec(cells: map<string, Cell>, from: string, to: string)
    requires from == to || to !in cells
    ensures forall c :: c in RenameCells(cells, from, to) <==> (c in cells && c != from) || (c == to && from in cells)
    ensures forall c :: c in cells ==>
      RenameHeader(c, from, to) in RenameCells(cells, from, to) && RenameCells(cells, from, to)[RenameHeader(c, from, to)] == cells[c]
  {
  }

  /** Renaming to a fresh header keeps the table shaped. */
  lemma RenameColumnShaped(t: Table, from: string, to: string)
    requires Shaped(t) && from != KeyColumn && to != KeyColumn && (from == to || to !in t.columns)
    ensures Shaped(RenameColumn(t, from, to))
  {
    var r := RenameColumn(t, from, to);
    RenamedHeaders(t, from, to);
    assert Distinct(r.columns) by {
      forall p, q | 0 <= p < q < |r.columns| ensures r.columns[p] != r.columns[q] {
        assert t.columns[p] in t.columns && t.columns[q] in t.columns;
      }
    }
    forall i | 0 <= i < |r.rows| ensures forall c :: c in r.rows[i].cells <==> c in DataColumns(r) {
      ShapedCells(t, i);
      RenameCellsSpec(t.rows[i].cells, from, to);
    }
  }

  /**
   * Renaming changes one header and nothing else: other headers, the months and every value stay
   * as they were, now under the new name; absent `from`, the table is unchanged.
   */
  lemma RenameColumnSpec(t: Table, from: string, to: string, m: Date, c: string)
    requires Shaped(t) && from != KeyColumn && to != KeyColumn && (from == to || to !in t.columns)
    ensures forall i :: 0 <= i < |t.columns| ==> RenameColumn(t, from, to).columns[i] == RenameHeader(t.columns[i], from, to)
    ensures Months(RenameColumn(t, from, to).rows) == Months(t.rows)
    ensures Shaped(RenameColumn(t, from, to))
    ensures c in t.columns ==> ValueAt(RenameColumn(t, from, to), m, RenameHeader(c, from, to)) == ValueAt(t, m, c)
    ensures from != to ==> from !in RenameColumn(t, from, to).columns
    ensures from !in t.columns ==> RenameColumn(t, from, to) == t
  {
    var r := RenameColumn(t, from, to);
    assert Months(r.rows) == Months(t.rows);
    RenamedHeaders(t, from, to);
    RenameColumnShaped(t, from, to);
    if c in t.columns {
      var i := FindSameMonths(t.rows, r.rows, m);
      if Find(t.rows, m).Some? && c != KeyColumn {
        ShapedCells(t, i);
        RenameCellsSpec(t.rows[i].cells, from, to);
      }
    }
    if from !in t.columns {
      assert r.columns == t.columns;
      forall k | 0 <= k < |t.rows| ensures r.rows[k] == t.rows[k] {
        ShapedCells(t, k);
      }
    }
  }

  /** Dropping a column other than the key keeps the table shaped. */
  lemma DropColumnShaped(t: Table, name: string)
    requires Shaped(t) && name != KeyColumn
    ensures Shaped(DropColumn(t, name))
  {
    var r := DropColumn(t, name);
    WithoutDistinct(t.columns, name);
    forall i | 0 <= i < |r.rows| ensures forall c :: c in r.rows[i].cells <==> c in DataColumns(r) {
      ShapedCells(t, i);
    }
  }

  /**
   * Dropping removes exactly that column: the headers become `Without(columns, name)` (whose order
   * `WithoutKeepsOrder` states) and every other value stays.
   */
  lemma DropColumnSpec(t: Table, name: string, m: Date, c: string)
    requires Shaped(t) && name != KeyColumn
    ensures DropColumn(t, name).columns == Without(t.columns, name)
    ensures name !in DropColumn(t, name).columns
    ensures Months(DropColumn(t, name).rows) == Months(t.rows)
    ensures Shaped(DropColumn(t, name))
    ensures c != name ==> ValueAt(DropColumn(t, name), m, c) == ValueAt(t, m, c)
    ensures ValueAt(DropColumn(t, name), m, name) == None
  {
    var r := DropColumn(t, name);
    assert Months(r.rows) == Months(t.rows);
    DropColumnShaped(t, name);
    var i := FindSameMonths(t.rows, r.rows, m);
  }

  /**
   * After `set_index`, `Month` is no longer a column, every remaining column has one cell per
   * index month, and every value stays.
   */
  lemma SetMonthIndexSpec(t: Table, m: Date, c: string)
    requires Shaped(t)
    ensures KeyColumn !in SetMonthIndex(t).columns
    ensures SetMonthIndex(t).columns == DataColumns(t)
    ensures SetMonthIndex(t).rows == t.rows
    ensures forall r, c' :: r in SetMonthIndex(t).rows ==> (c' in r.cells <==> c' in SetMonthIndex(t).columns)
    ensures ValueAt(SetMonthIndex(t), m, c) == ValueAt(t, m, c)
  {
    assert DataColumns(SetMonthIndex(t)) == DataColumns(t) by {
      WithoutTwice(t.columns, KeyColumn);
    }
  }

  lemma {:induction false} WithoutTwice(s: seq<string>, x: string)
    ensures Without(Without(s, x), x) == Without(s, x)
  {
    if |s| > 0 {
      WithoutTwice(s[1..], x);
    }
  }

  // ---------------------------------------------------------------------------------------------
  // The frame mutated by the script

  class Frame {
    var columns: seq<string>
    var rows: seq<Row>
    var indexName: Option<string>

    /** Distinct headers, one cell per row for each column other than the key, and the key is either a column or the index. */
    ghost predicate Valid()
      reads this
    {
      && Distinct(columns)
      && (forall r, c :: r in rows ==> (c in r.cells <==> c in columns && c != KeyColumn))
      && (indexName == None <==> KeyColumn in columns)
      && (indexName == None || indexName == Some(KeyColumn))
    }

    function Contents(): Table
      reads this
    {
      Table(columns, rows)
    }

    constructor (t: Table)
      requires Shaped(t)
      ensures Contents() == t && indexName == None
      ensures Valid()
    {
      columns := t.columns;
      rows := t.rows;
      indexName := None;
      ShapedRows(t);
    }

    /** `rename(columns={from: to}, inplace=True)`. */
    method Rename(from: string, to: string)
      requires Valid() && indexName == None
      requires from != KeyColumn && to != KeyColumn && (from == to || to !in columns)
      modifies this
      ensures Contents() == RenameColumn(old(Contents()), from, to)
      ensures indexName == old(indexName)
      ensures Valid()
    {
      ghost var before := Contents();
      var renamed := RenameColumn(Contents(), from, to);
      columns := renamed.columns;
      rows := renamed.rows;
      RenameColumnShaped(before, from, to);
      ShapedRows(renamed);
    }

    /** `drop([name], axis=1, inplace=True)`: `KeyError` and no change when `name` is not a column. */
    method Drop(name: string) returns (err: Option<Error>)
      requires Valid() && indexName == None && name != KeyColumn
      modifies this
      ensures err.Some? <==> name !in old(columns)
      ensures err.Some? ==> err.value == KeyError(name) && Contents() == old(Contents())
      ensures err.None? ==> Contents() == DropColumn(old(Contents()), name)
      ensures indexName == old(indexName)
      ensures Valid()
    {
      if name !in columns {
        return Some(KeyError(name));
      }
      ghost var before := Contents();
      var dropped := DropColumn(Contents(), name);
      columns := dropped.columns;
      rows := dropped.rows;
      DropColumnShaped(before, name);
      ShapedRows(dropped);
      err := None;
    }

    /** `set_index('Month', inplace=True)`: `KeyError` and no change when `Month` is not a column. */
    method SetIndex() returns (err: Option<Error>)
      requires Valid()
      modifies this
      ensures err.Some? <==> KeyColumn !in old(columns)
      ensures err.Some? ==> err.value == KeyError(KeyColumn) && Contents() == old(Contents()) && indexName == old(indexName)
      ensures err.None? ==> Contents() == SetMonthIndex(old(Contents())) && indexName == Some(KeyColumn)
      ensures Valid()
    {
      if KeyColumn !in columns {
        return Some(KeyError(KeyColumn));
      }
      var indexed := SetMonthIndex(Contents());
      WithoutDistinct(columns, KeyColumn);
      columns := indexed.columns;
      indexName := Some(KeyColumn);
      err := None;
    }
  }

  // ---------------------------------------------------------------------------------------------
  // The whole script

  /** What the script needs of its two sources for the merge not to rename columns. */
  ghost predicate ScriptInputs(statsnz: RawTable, trends: Table)
  {
    && RawShaped(statsnz)
    && Shaped(trends)
    && (forall c :: c in statsnz.columns && c != KeyColumn ==> c !in DataColumns(trends))
    && VisaColumn !in statsnz.columns && VisaColumn !in trends.columns
  }

  /** The table the script pickles: its columns, and its rows keyed by the index months. */
  function Processed(statsnz: RawTable, trends: Table): (r: Result<Table>)
    ensures r.Err? <==> WithMonthKey(statsnz).Err?
    ensures r.Err? ==> r.error == WithMonthKey(statsnz).error
    ensures r.Ok? ==> KeyColumn !in r.value.columns && LabelColumn !in r.value.columns && VisaHeader !in r.value.columns
  {
    match WithMonthKey(statsnz)
    case Err(e) => Err(e)
    case Ok(prepared) =>
      Ok(SetMonthIndex(DropColumn(RenameColumn(Merged([prepared, trends]), VisaHeader, VisaColumn), LabelColumn)))
  }

  /**
   * The script, lines 32 to 56: key the arrivals table by month, merge the sources, rename the
   * search column, drop the label column, index by month.
   */
  method ProcessScript(statsnz: RawTable, trends: Table) returns (r: Result<Frame>)
    requires ScriptInputs(statsnz, trends)
    ensures r.Err? <==> WithMonthKey(statsnz).Err?
    ensures r.Err? ==> r.error == WithMonthKey(statsnz).error
    ensures r.Ok? ==> fresh(r.value) && r.value.Valid() && r.value.indexName == Some(KeyColumn)
    ensures r.Ok? ==> Processed(statsnz, trends) == Ok(r.value.Contents())
  {
    var prepared := WithMonthKey(statsnz);
    if prepared.Err? {
      return Err(prepared.error);
    }
    var merged := MergeAll([prepared.value, trends]);
    WithMonthKeyShaped(statsnz);
    assert Merged([prepared.value, trends]) == OuterJoin(prepared.value, trends) by {
      assert [prepared.value, trends][..1] == [prepared.value];
    }
    OuterJoinWellFormed(prepared.value, trends);
    var frame := new Frame(merged.value);
    frame.Rename(VisaHeader, VisaColumn);
    assert LabelColumn in frame.columns by {
      RenamedHeaders(merged.value, VisaHeader, VisaColumn);
    }
    var dropped := frame.Drop(LabelColumn);
    assert KeyColumn in frame.columns;
    var indexed := frame.SetIndex();
    return Ok(frame);
  }

  /**
   * The pickled table: indexed by the union of the months of both sources in ascending order,
   * with neither `Month` nor the raw labels nor the old search header among its columns, one cell
   * per column and month, each value taken from the source that has the month under its new name
   * and missing where that source lacks the month.
   */
  lemma ProcessedSpec(statsnz: RawTable, trends: Table, m: Date, c: string)
    requires ScriptInputs(statsnz, trends) && Processed(statsnz, trends).Ok?
    ensures var t := Processed(statsnz, trends).value;
      KeyColumn !in t.columns && LabelColumn !in t.columns && VisaHeader !in t.columns
    ensures var t := Processed(statsnz, trends).value;
      StrictlyAscending(Months(t.rows)) &&
      forall m' :: m' in Months(t.rows) <==> m' in Months(WithMonthKey(statsnz).value.rows) || m' in Months(trends.rows)
    ensures var t := Processed(statsnz, trends).value;
      forall r, c' :: r in t.rows ==> (c' in r.cells <==> c' in t.columns)
    ensures var t := Processed(statsnz, trends).value;
      c in DataColumns(trends) && m in Months(t.rows) ==>
        ValueAt(t, m, RenameHeader(c, VisaHeader, VisaColumn)) ==
          (if m in Months(trends.rows) then ValueAt(trends, m, c) else Some(Missing))
    ensures var t := Processed(statsnz, trends).value; var p := WithMonthKey(statsnz).value;
      c in DataColumns(p) && c != LabelColumn && m in Months(t.rows) ==>
        ValueAt(t, m, RenameHeader(c, VisaHeader, VisaColumn)) ==
          (if m in Months(p.rows) then ValueAt(p, m, c) else Some(Missing))
  {
    var p := WithMonthKey(statsnz).value;
    WithMonthKeyShaped(statsnz);
    var merged := Merged([p, trends]);
    assert merged == OuterJoin(p, trends) by {
      assert [p, trends][..1] == [p];
    }
    OuterJoinWellFormed(p, trends);
    OuterJoinKeys(p, trends);
    OuterJoinValues(p, trends, m, c);
    var renamed := RenameColumn(merged, VisaHeader, VisaColumn);
    RenameColumnSpec(merged, VisaHeader, VisaColumn, m, c);
    var dropped := DropColumn(renamed, LabelColumn);
    DropColumnSpec(renamed, LabelColumn, m, RenameHeader(c, VisaHeader, VisaColumn));
    var t := SetMonthIndex(dropped);
    SetMonthIndexSpec(dropped, m, RenameHeader(c, VisaHeader, VisaColumn));
    assert VisaHeader !in renamed.columns;
  }
}
