/**
 * The exploratory-analysis toolkit over a month-indexed frame: the index-name guard of the
 * per-column plot, the traces of the dual-axis plot, the missing-value report, the choice of
 * scatter pairs and the lead-lag cross-correlation scan. Rendering is not modelled; each plotting
 * operation is reduced to the data it would hand to the plotting library.
 */
module Toolkit {
  import opened Common
  import opened Series
  import opened Correlation

  /**
   * A data frame: the name of its index, its number of rows, its column names in order and one
   * series per column.
   */
  datatype DataFrame = DataFrame(indexName: Option<string>, length: nat, columns: seq<string>, data: map<string, Series>)

  predicate Rectangular(f: DataFrame)
  {
    && Distinct(f.columns)
    && (forall c :: c in f.columns ==> c in f.data)
    && (forall c :: c in f.data ==> c in f.columns)
    && (forall c :: c in f.data ==> |f.data[c]| == f.length)
  }

  const ColumnsMissingMessage: string := "Specified columns are not in the DataFrame"

  // ---------------------------------------------------------------------------------------------
  // Index-name guard of the per-column time-series plot

  /**
   * The columns drawn by the per-column time-series plot: none at all (the plot only prints a
   * hint and returns) unless the index is named "Month", and then every column in order.
   */
  function IndividualPlotColumns(f: DataFrame): (r: Option<seq<string>>)
    ensures r.Some? <==> f.indexName == Some("Month")
    ensures r.Some? ==> r.value == f.columns
  {
    if f.indexName != Some("Month") then None else Some(f.columns)
  }

  // ---------------------------------------------------------------------------------------------
  // Dual-axis plot

  /**
   * The two traces of the dual-axis plot: `column1` as it is and `column2` shifted by
   * `shiftPeriods`. Looking up an absent column raises `KeyError`, `column1` first.
   */
  function DualAxisTraces(f: DataFrame, column1: string, column2: string, shiftPeriods: int): (r: Result<(Series, Series)>)
    requires Rectangular(f)
    ensures column1 !in f.columns ==> r == Err(KeyError(column1))
    ensures column1 in f.columns && column2 !in f.columns ==> r == Err(KeyError(column2))
    ensures r.Ok? <==> column1 in f.columns && column2 in f.columns
    ensures r.Ok? ==> |r.value.0| == |r.value.1| == f.length
  {
    if column1 !in f.data then Err(KeyError(column1))
    else if column2 !in f.data then Err(KeyError(column2))
    else Ok((f.data[column1], Shift(f.data[column2], shiftPeriods)))
  }

  /**
   * The second trace is `column2` moved by `shiftPeriods`: entry `i` is the value `shiftPeriods`
   * rows earlier (later, for a lead), missing where that row does not exist; with the default of
   * no shift both traces are the stored columns, missing values included.
   */
  lemma DualAxisShifted(f: DataFrame, column1: string, column2: string, shiftPeriods: int)
    requires Rectangular(f) && column1 in f.columns && column2 in f.columns
    ensures var r := DualAxisTraces(f, column1, column2, shiftPeriods);
      r.Ok? && r.value.0 == f.data[column1] &&
      forall i :: 0 <= i < f.length ==>
        r.value.1[i] == (if 0 <= i - shiftPeriods < f.length then f.data[column2][i - shiftPeriods] else None)
    ensures shiftPeriods == 0 ==> DualAxisTraces(f, column1, column2, 0) == Ok((f.data[column1], f.data[column2]))
  {
    ShiftIdentity(f.data[column2]);
  }

  // ---------------------------------------------------------------------------------------------
  // Missing-value report

  /** Number of missing entries in a series. */
  function CountMissing(s: Series): (r: nat)
    ensures r <= |s|
  {
    if |s| == 0 then 0 else (if s[0].None? then 1 else 0) + CountMissing(s[1..])
  }

  /** The count is the multiplicity of the missing marker. */
  lemma {:induction false} CountMissingIsMultiplicity(s: Series)
    ensures CountMissing(s) == multiset(s)[None]
  {
    if |s| > 0 {
      CountMissingIsMultiplicity(s[1..]);
      assert s == [s[0]] + s[1..];
      assert multiset(s) == multiset([s[0]]) + multiset(s[1..]);
    }
  }

  datatype MissingRow = MissingRow(column: string, count: nat, percentage: real)

  /** Share of missing entries in percent; `0/0` does not arise in a reported row. */
  function Percentage(count: nat, rows: nat): real
  {
    if rows == 0 then 0.0 else (count as real) / (rows as real) * 100.0
  }

  /** One row per column, in column order, before filtering and sorting. */
  function MissingCounts(f: DataFrame): (r: seq<MissingRow>)
    requires Rectangular(f)
    ensures |r| == |f.columns|
    ensures forall i :: 0 <= i < |r| ==> r[i].column == f.columns[i]
    ensures forall i :: 0 <= i < |r| ==> r[i].count == CountMissing(f.data[f.columns[i]]) <= f.length
    ensures forall i :: 0 <= i < |r| ==> r[i].percentage == Percentage(r[i].count, f.length)
  {
    seq(|f.columns|, i requires 0 <= i < |f.columns| =>
      var c := CountMissing(f.data[f.columns[i]]);
      MissingRow(f.columns[i], c, Percentage(c, f.length)))
  }

  /** The rows whose count is above zero, order kept. */
  function KeepMissing(rows: seq<MissingRow>): (r: seq<MissingRow>)
    ensures forall x :: x in r <==> x in rows && x.count > 0
    ensures multiset(r) <= multiset(rows)
  {
    if |rows| == 0 then []
    else
      assert rows == [rows[0]] + rows[1..];
      if rows[0].count > 0 then [rows[0]] + KeepMissing(rows[1..])
      else KeepMissing(rows[1..])
  }

  predicate CountsDescending(rows: seq<MissingRow>)
  {
    forall i, j :: 0 <= i < j < |rows| ==> rows[i].count >= rows[j].count
  }

  /** A head that bounds both the rest of a sorted report and the new row bounds their merge. */
  lemma HeadBoundsInsert(row: MissingRow, sorted: seq<MissingRow>, rest: seq<MissingRow>)
    requires CountsDescending(sorted) && |sorted| > 0 && sorted[0].count >= row.count
    requires multiset(rest) == multiset(sorted[1..]) + multiset{row}
    ensures forall k :: 0 <= k < |rest| ==> sorted[0].count >= rest[k].count
  {
    forall k | 0 <= k < |rest| ensures sorted[0].count >= rest[k].count {
      assert rest[k] in multiset(rest);
      if rest[k] != row {
        assert rest[k] in sorted[1..];
        var m :| 0 <= m < |sorted[1..]| && sorted[1..][m] == rest[k];
        assert sorted[m + 1] == rest[k];
      }
    }
  }

  /** Places `row` into a report already sorted by descending count. */
  function InsertByCount(row: MissingRow, sorted: seq<MissingRow>): (r: seq<MissingRow>)
    requires CountsDescending(sorted)
    ensures CountsDescending(r)
    ensures multiset(r) == multiset(sorted) + multiset{row}
  {
    if |sorted| == 0 then [row]
    else if sorted[0].count >= row.count then
      var rest := InsertByCount(row, sorted[1..]);
      HeadBoundsInsert(row, sorted, rest);
      assert sorted == [sorted[0]] + sorted[1..];
      [sorted[0]] + rest
    else
      [row] + sorted
  }

  /** `sort_values(ascending=False)` on the count column. */
  function SortByCount(rows: seq<MissingRow>): (r: seq<MissingRow>)
    ensures CountsDescending(r)
    ensures multiset(r) == multiset(rows)
  {
    if |rows| == 0 then []
    else
      assert rows == [rows[0]] + rows[1..];
      InsertByCount(rows[0], SortByCount(rows[1..]))
  }

  /** `check_missing_values`: the columns with missing entries, most missing first. */
  function MissingReport(f: DataFrame): (r: seq<MissingRow>)
    requires Rectangular(f)
    ensures CountsDescending(r)
    ensures multiset(r) <= multiset(MissingCounts(f))
  {
    SortByCount(KeepMissing(MissingCounts(f)))
  }

  /** A row of the count table is a column of the frame with its own count and share. */
  lemma MissingCountsMembers(f: DataFrame)
    requires Rectangular(f)
    ensures forall r :: r in MissingCounts(f) <==>
      r.column in f.columns && r.count == CountMissing(f.data[r.column]) && r.percentage == Percentage(r.count, f.length)
  {
    var counts := MissingCounts(f);
    forall r: MissingRow | r.column in f.columns && r.count == CountMissing(f.data[r.column]) &&
      r.percentage == Percentage(r.count, f.length)
      ensures r in counts
    {
      var i :| 0 <= i < |f.columns| && f.columns[i] == r.column;
      assert counts[i] == r;
    }
  }

  /**
   * The report lists exactly the columns that have a missing entry, each with its count (never
   * more than the number of rows) and its share in percent, ordered by non-increasing count; it
   * is a reordering of those rows.
   */
  lemma MissingReportSpec(f: DataFrame)
    requires Rectangular(f)
    ensures CountsDescending(MissingReport(f))
    ensures multiset(MissingReport(f)) == multiset(KeepMissing(MissingCounts(f)))
    ensures forall r :: r in MissingReport(f) <==>
      r.column in f.columns && r.count == CountMissing(f.data[r.column]) && r.count > 0 &&
      r.percentage == Percentage(r.count, f.length)
    ensures forall r :: r in MissingReport(f) ==>
      0 < r.count <= f.length && r.percentage == (r.count as real) / (f.length as real) * 100.0
  {
    var kept := KeepMissing(MissingCounts(f));
    var report := MissingReport(f);
    MissingCountsMembers(f);
    forall r: MissingRow ensures r in report <==> r in kept {
      assert r in report <==> r in multiset(report);
      assert r in kept <==> r in multiset(kept);
    }
  }

  /** Each column appears at most once in the report. */
  lemma MissingReportColumnsDistinct(f: DataFrame)
    requires Rectangular(f)
    ensures forall i, j :: 0 <= i < j < |MissingReport(f)| ==> MissingReport(f)[i].column != MissingReport(f)[j].column
  {
    var counts := MissingCounts(f);
    var kept := KeepMissing(counts);
    var report := MissingReport(f);
    KeptDistinctColumns(f);
    forall i, j | 0 <= i < j < |report| ensures report[i].column != report[j].column {
      if report[i].column == report[j].column {
        assert report[i] in multiset(report) && report[j] in multiset(report);
        assert report[i] in kept && report[j] in kept;
        SameColumnSameRow(f, report[i], report[j]);
        MultisetDuplicate(report, i, j);
      }
    }
  }

  /** Two rows of the count table naming the same column are the same row. */
  lemma SameColumnSameRow(f: DataFrame, a: MissingRow, b: MissingRow)
    requires Rectangular(f)
    requires a in MissingCounts(f) && b in MissingCounts(f) && a.column == b.column
    ensures a == b
  {
  }

  /** No row is repeated in the count table, hence in the filtered rows. */
  lemma KeptDistinctColumns(f: DataFrame)
    requires Rectangular(f)
    ensures forall r :: multiset(MissingCounts(f))[r] <= 1
  {
    var counts := MissingCounts(f);
    assert Distinct(counts) by {
      forall i, j | 0 <= i < j < |counts| ensures counts[i] != counts[j] {
        assert counts[i].column == f.columns[i] && counts[j].column == f.columns[j];
      }
    }
    forall r ensures multiset(counts)[r] <= 1 {
      DistinctMultiplicity(counts, r);
    }
  }

  lemma {:induction false} DistinctMultiplicity(s: seq<MissingRow>, r: MissingRow)
    requires Distinct(s)
    ensures multiset(s)[r] <= 1
  {
    if |s| > 0 {
      assert Distinct(s[1..]) by {
        forall i, j | 0 <= i < j < |s[1..]| ensures s[1..][i] != s[1..][j] {
          assert s[1..][i] == s[i + 1] && s[1..][j] == s[j + 1];
        }
      }
      DistinctMultiplicity(s[1..], r);
      assert s == [s[0]] + s[1..];
      assert multiset(s) == multiset([s[0]]) + multiset(s[1..]);
      if s[0] == r {
        assert r !in s[1..];
      }
    }
  }

  /** A row found at two positions of a sequence occurs twice in its multiset. */
  lemma MultisetDuplicate(s: seq<MissingRow>, i: int, j: int)
    requires 0 <= i < j < |s| && s[i] == s[j]
    ensures multiset(s)[s[i]] >= 2
  {
    var x := s[i];
    assert s == s[..j] + [s[j]] + s[j + 1..];
    assert s[..j] == s[..i] + [s[i]] + s[i + 1..j];
    assert multiset(s[..j])[x] >= 1;
    assert multiset(s) == multiset(s[..j]) + multiset([s[j]]) + multiset(s[j + 1..]);
  }

  // ---------------------------------------------------------------------------------------------
  // Scatter pair selection

  /** `(c, rest[0]), (c, rest[1]), …` */
  function PairsWith(c: string, rest: seq<string>): (r: seq<(string, string)>)
    ensures |r| == |rest|
    ensures forall k :: 0 <= k < |r| ==> r[k] == (c, rest[k])
  {
    seq(|rest|, k requires 0 <= k < |rest| => (c, rest[k]))
  }

  /**
   * `itertools.combinations(columns, 2)`: every pair of positions `i < j`, in lexicographic order;
   * `n` columns give `n·(n-1)/2` pairs.
   */
  function Combinations(cols: seq<string>): (r: seq<(string, string)>)
    ensures 2 * |r| == |cols| * (|cols| - 1)
  {
    if |cols| == 0 then [] else PairsWith(cols[0], cols[1..]) + Combinations(cols[1..])
  }

  /** A pair is produced exactly when it is `(cols[i], cols[j])` for positions `i < j`. */
  lemma {:induction false} CombinationsMembers(cols: seq<string>, p: (string, string))
    ensures p in Combinations(cols) <==> exists i, j :: 0 <= i < j < |cols| && p == (cols[i], cols[j])
  {
    if |cols| > 0 {
      CombinationsMembers(cols[1..], p);
      var tail := cols[1..];
      if p in Combinations(cols) {
        if p in PairsWith(cols[0], tail) {
          var k :| 0 <= k < |tail| && PairsWith(cols[0], tail)[k] == p;
          assert p == (cols[0], cols[k + 1]);
        } else {
          assert p in Combinations(tail);
          var i, j :| 0 <= i < j < |tail| && p == (tail[i], tail[j]);
          assert p == (cols[i + 1], cols[j + 1]);
        }
      }
      if exists i, j :: 0 <= i < j < |cols| && p == (cols[i], cols[j]) {
        var i, j :| 0 <= i < j < |cols| && p == (cols[i], cols[j]);
        if i == 0 {
          assert PairsWith(cols[0], tail)[j - 1] == p;
        } else {
          assert p == (tail[i - 1], tail[j - 1]);
        }
      }
    }
  }

  /** Over distinct column names no pair repeats and no column is paired with itself. */
  lemma {:induction false} CombinationsDistinct(cols: seq<string>)
    requires Distinct(cols)
    ensures Distinct(Combinations(cols))
    ensures forall p :: p in Combinations(cols) ==> p.0 != p.1
  {
    if |cols| > 0 {
      var tail := cols[1..];
      assert Distinct(tail) by {
        forall i, j | 0 <= i < j < |tail| ensures tail[i] != tail[j] {
          assert tail[i] == cols[i + 1] && tail[j] == cols[j + 1];
        }
      }
      CombinationsDistinct(tail);
      var head := PairsWith(cols[0], tail);
      var rest := Combinations(tail);
      forall p | p in rest ensures p.0 != cols[0] && p.0 in tail {
        CombinationsMembers(tail, p);
        var i, j :| 0 <= i < j < |tail| && p == (tail[i], tail[j]);
        assert tail[i] == cols[i + 1];
      }
      forall p | p in head ensures p.0 != p.1 {
        var k :| 0 <= k < |head| && head[k] == p;
        assert tail[k] == cols[k + 1];
      }
      forall i, j | 0 <= i < j < |head + rest| ensures (head + rest)[i] != (head + rest)[j] {
        if j < |head| {
          assert tail[i] == cols[i + 1] && tail[j] == cols[j + 1];
        } else if i < |head| {
          assert (head + rest)[j] in rest;
        } else {
          assert (head + rest)[i] == rest[i - |head|] && (head + rest)[j] == rest[j - |head|];
        }
      }
    }
  }

  /**
   * The pairs to scatter: the one requested pair when both names are given, after checking that
   * both are columns (`ValueError` otherwise); every pair of columns when either name is missing.
   */
  function ScatterPairs(f: DataFrame, col1: Option<string>, col2: Option<string>): (r: Result<seq<(string, string)>>)
    ensures col1.Some? && col2.Some? ==>
      (r.Err? <==> col1.value !in f.columns || col2.value !in f.columns)
    ensures col1.Some? && col2.Some? && r.Ok? ==> r.value == [(col1.value, col2.value)]
    ensures r.Err? ==> r.error == ValueError(ColumnsMissingMessage)
    ensures !(col1.Some? && col2.Some?) ==> r == Ok(Combinations(f.columns))
  {
    if col1.Some? && col2.Some? then
      if col1.value !in f.columns || col2.value !in f.columns then Err(ValueError(ColumnsMissingMessage))
      else Ok([(col1.value, col2.value)])
    else
      Ok(Combinations(f.columns))
  }

  // ---------------------------------------------------------------------------------------------
  // Lead-lag scan

  /** `np.arange(-maxLag, maxLag + 1)`: the lags in ascending order, empty for a negative bound. */
  function LagRange(maxLag: int): (r: seq<int>)
    ensures |r| == if maxLag < 0 then 0 else 2 * maxLag + 1
    ensures forall j :: 0 <= j < |r| ==> r[j] == -maxLag + j
    ensures forall j, k :: 0 <= j < k < |r| ==> r[j] < r[k]
  {
    if maxLag < 0 then [] else seq(2 * maxLag + 1, j => -maxLag + j)
  }

  /** `x.corr(y.shift(lag))`: the correlation over the positions where both are present. */
  function CorrAtLag(x: Series, y: Series, lag: int): (r: Correlation)
    requires |x| == |y|
    ensures r.Pearson? ==> 2 <= |CompletePairs(x, Shift(y, lag))| <= |x| - (if lag < 0 then -lag else lag)
    ensures r.Pearson? ==> r.varX > 0.0 && r.varY > 0.0 && r.cov * r.cov <= r.varX * r.varY
  {
    ShiftedOverlapBound(x, y, lag);
    Corr(CompletePairs(x, Shift(y, lag)))
  }

  /** The correlations the scan collects, one per lag of `LagRange(maxLag)`. */
  function CrossCorrelations(x: Series, y: Series, maxLag: int): (r: seq<Correlation>)
    requires |x| == |y|
    ensures |r| == |LagRange(maxLag)|
    ensures forall j :: 0 <= j < |r| && r[j].Pearson? ==>
      r[j].varX > 0.0 && r[j].varY > 0.0 && r[j].cov * r[j].cov <= r[j].varX * r[j].varY
  {
    var lags := LagRange(maxLag);
    seq(|lags|, j requires 0 <= j < |lags| => CorrAtLag(x, y, lags[j]))
  }

  datatype CrossCorrelation = CrossCorrelation(lags: seq<int>, correlations: seq<Correlation>)

  /**
   * At lag `k`, position `i` is paired exactly when `x[i]` and `y[i-k]` are both present, and the
   * pairs are those values in index order.
   */
  lemma LagPairing(x: Series, y: Series, lag: int)
    requires |x| == |y|
    ensures forall i :: Complete(x, Shift(y, lag), i) <==>
      0 <= i < |x| && 0 <= i - lag < |y| && x[i].Some? && y[i - lag].Some?
    ensures |CompletePairs(x, Shift(y, lag))| == |CompletePositions(x, Shift(y, lag))|
    ensures forall j :: 0 <= j < |CompletePairs(x, Shift(y, lag))| ==>
      var p := CompletePositions(x, Shift(y, lag))[j];
      0 <= p < |x| && 0 <= p - lag < |y| && x[p].Some? && y[p - lag].Some? &&
      CompletePairs(x, Shift(y, lag))[j] == (x[p].value, y[p - lag].value)
  {
    CompletePairsSpec(x, Shift(y, lag));
  }

  /** The lag-0 entry, in the middle of the list, is the correlation of the unshifted columns. */
  lemma LagZeroEntry(x: Series, y: Series, maxLag: int)
    requires |x| == |y| && maxLag >= 0
    ensures |CrossCorrelations(x, y, maxLag)| == 2 * maxLag + 1
    ensures LagRange(maxLag)[maxLag] == 0
    ensures CrossCorrelations(x, y, maxLag)[maxLag] == Corr(CompletePairs(x, y))
  {
    ShiftIdentity(y);
  }

  /**
   * An entry is a number exactly when at least two positions are paired at its lag and neither
   * side is constant over them, and NaN (not an error) otherwise; a lag of at least `n - 1` in
   * either direction leaves at most one position and is always NaN.
   */
  lemma LagDefinedness(x: Series, y: Series, lag: int)
    requires |x| == |y|
    ensures var pairs := CompletePairs(x, Shift(y, lag));
      CorrAtLag(x, y, lag).Pearson? <==> |pairs| >= 2 && !Constant(Firsts(pairs)) && !Constant(Seconds(pairs))
    ensures (lag >= |x| - 1 || -lag >= |x| - 1) ==> CorrAtLag(x, y, lag) == Undefined
  {
    CorrDefinedness(CompletePairs(x, Shift(y, lag)));
  }

  /** The toolkit object: it keeps the frame it was built with and never changes it. */
  class ExploratoryDataAnalysis {
    const df: DataFrame

    ghost predicate Valid()
    {
      Rectangular(df)
    }

    constructor (df: DataFrame)
      requires Rectangular(df)
      ensures this.df == df
      ensures Valid()
    {
      this.df := df;
    }

    /**
     * `find_lead_lag_relationship`: `ValueError` when either column is absent, otherwise the
     * correlation of `col1` with `col2` shifted by each lag from `-maxLag` to `maxLag`, in that
     * order, next to the list of lags.
     */
    method FindLeadLagRelationship(col1: string, col2: string, maxLag: int) returns (r: Result<CrossCorrelation>)
      requires Valid()
      ensures r.Err? <==> col1 !in df.columns || col2 !in df.columns
      ensures r.Err? ==> r.error == ValueError(ColumnsMissingMessage)
      ensures r.Ok? ==> r.value.lags == LagRange(maxLag)
      ensures r.Ok? ==> |r.value.correlations| == |r.value.lags|
      ensures r.Ok? ==> r.value.correlations == CrossCorrelations(df.data[col1], df.data[col2], maxLag)
    {
      if col1 !in df.columns || col2 !in df.columns {
        return Err(ValueError(ColumnsMissingMessage));
      }
      var x := df.data[col1];
      var y := df.data[col2];
      var correlations: seq<Correlation> := [];
      var lag := -maxLag;
      while lag < maxLag + 1
        invariant -maxLag <= lag
        invariant maxLag >= 0 ==> lag <= maxLag + 1
        invariant |correlations| == lag + maxLag
        invariant maxLag < 0 ==> correlations == []
        invariant forall j :: 0 <= j < |correlations| ==> correlations[j] == CorrAtLag(x, y, -maxLag + j)
        decreases maxLag + 1 - lag
      {
        var shifted := Shift(y, lag);
        var correlation := Corr(CompletePairs(x, shifted));
        correlations := correlations + [correlation];
        lag := lag + 1;
      }
      var lags := LagRange(maxLag);
      assert |correlations| == |lags|;
      return Ok(CrossCorrelation(lags, correlations));
    }
  }
}
