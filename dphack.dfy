/** dphack.py: differencing a frame in place, the (window, shift) grid
    search over two of its columns, the alignment of the two downloaded
    series, and the way main chains them. */
module Dphack {
  import opened Wrappers
  import opened Datasets
  import opened RollingScreen
  import opened GridSearch

  /** .diff(): the change from the previous row, missing on the first row
      and wherever one of the two values is missing */
  function Diff(v: Column): (d: Column)
    ensures |d| == |v|
    ensures forall i :: 0 <= i < |v| ==>
              d[i] == if i >= 1 && v[i].Some? && v[i - 1].Some? then Some(v[i].value - v[i - 1].value) else None
  {
    seq(|v|, i requires 0 <= i < |v| =>
      if i >= 1 && v[i].Some? && v[i - 1].Some? then Some(v[i].value - v[i - 1].value) else None)
  }

  /** The positions dropna(subset=[..]) keeps: those where xs is present,
      in increasing order */
  function Present(xs: Column): (ks: seq<int>)
    ensures forall j :: 0 <= j < |ks| ==> 0 <= ks[j] < |xs| && xs[ks[j]].Some?
    ensures forall a, b :: 0 <= a < b < |ks| ==> ks[a] < ks[b]
    ensures forall i :: 0 <= i < |xs| && xs[i].Some? ==> i in ks
  {
    if xs == [] then []
    else
      var n := |xs| - 1;
      var pre := Present(xs[..n]);
      assert forall j :: 0 <= j < |pre| ==> xs[..n][pre[j]] == xs[pre[j]];
      pre + if xs[n].Some? then [n] else []
  }

  /** The rows of s at positions ks, in that order */
  function Pick<T>(s: seq<T>, ks: seq<int>): (r: seq<T>)
    requires forall j :: 0 <= j < |ks| ==> 0 <= ks[j] < |s|
    ensures |r| == |ks| && forall j :: 0 <= j < |ks| ==> r[j] == s[ks[j]]
  {
    seq(|ks|, j requires 0 <= j < |ks| => s[ks[j]])
  }

  /** The rows calculate_changes keeps of a column v: never the first, and
      at most n - 1 of n; each has a change equal to its value minus the
      previous one */
  lemma {:induction false} ChangesKept(v: Column)
    ensures var ks := Present(Diff(v));
            && (|v| >= 1 ==> |ks| <= |v| - 1)
            && (forall j :: 0 <= j < |ks| ==>
                  && 1 <= ks[j] < |v| && v[ks[j]].Some? && v[ks[j] - 1].Some?
                  && Pick(Diff(v), ks)[j] == Some(v[ks[j]].value - v[ks[j] - 1].value))
  {
    var ks := Present(Diff(v));
    if |v| >= 1 {
      PositionsBound(ks, 1, |v|);
    }
  }

  /** Strictly increasing positions in [lo, hi) number at most hi - lo */
  lemma {:induction false} PositionsBound(ks: seq<int>, lo: int, hi: int)
    requires forall j :: 0 <= j < |ks| ==> lo <= ks[j] < hi
    requires forall a, b :: 0 <= a < b < |ks| ==> ks[a] < ks[b]
    ensures |ks| <= if hi >= lo then hi - lo else 0
  {
    if ks != [] {
      PositionsBound(ks[1..], ks[0] + 1, hi);
    }
  }

  /** The positions 1, ..., n - 1 */
  function FromOne(n: int): (r: seq<int>)
    ensures |r| == if n >= 1 then n - 1 else 0
    ensures forall i :: 0 <= i < |r| ==> r[i] == i + 1
  {
    if n <= 1 then [] else FromOne(n - 1) + [n - 1]
  }

  /** A column missing only its first value is present at 1, ..., n - 1 */
  lemma {:induction false} PresentFromOne(xs: Column)
    requires forall i :: 0 <= i < |xs| ==> (xs[i].Some? <==> i >= 1)
    ensures Present(xs) == FromOne(|xs|)
  {
    if xs != [] {
      var n := |xs| - 1;
      PresentFromOne(xs[..n]);
    }
  }

  /** Without gaps, differencing drops exactly the first row */
  lemma {:induction false} ChangesGapFree(v: Column)
    requires AllSome(v)
    ensures Present(Diff(v)) == FromOne(|v|)
  {
    var d := Diff(v);
    forall i | 0 <= i < |d| ensures d[i].Some? <==> i >= 1 {
    }
    PresentFromOne(d);
  }

  /** Keeping the rows 1, ..., n - 1 of a column of n drops its first */
  lemma {:induction false} PickFromOne<T>(s: seq<T>)
    ensures Pick(s, FromOne(|s|)) == DropFirst(s)
  {
    if s != [] {
      var ks := FromOne(|s|);
      var p := Pick(s, ks);
      forall i | 0 <= i < |p| ensures p[i] == s[1..][i] {
        assert ks[i] == i + 1;
      }
      assert p == s[1..];
    }
  }

  /** A pandas frame: a date index and named columns of equal length */
  class Frame {
    var index: seq<Date>
    var columns: map<string, Column>

    predicate Valid()
      reads this
    {
      forall c :: c in columns ==> |columns[c]| == |index|
    }

    constructor(index: seq<Date>, columns: map<string, Column>)
      requires forall c :: c in columns ==> |columns[c]| == |index|
      ensures Valid() && this.index == index && this.columns == columns
    {
      this.index := index;
      this.columns := columns;
    }
  }

  const ChangeColumn: string := "Change"

  /** Every column of a frame of n rows cut to the rows at positions ks */
  function PickColumns(cols: map<string, Column>, ks: seq<int>, n: int): (r: map<string, Column>)
    requires forall c :: c in cols ==> |cols[c]| == n
    requires forall j :: 0 <= j < |ks| ==> 0 <= ks[j] < n
    ensures r.Keys == cols.Keys
    ensures forall c :: c in cols ==> r[c] == Pick(cols[c], ks)
  {
    map c | c in cols :: Pick(cols[c], ks)
  }

  /** calculate_changes(data, value_column), in place: add the Change
      column, then drop the rows where it is missing */
  method CalculateChanges(data: Frame, valueColumn: string) returns (o: Outcome<Error>)
    requires data.Valid()
    modifies data
    ensures data.Valid()
    ensures valueColumn !in old(data.columns) ==>
              o == Fail(KeyError) && data.index == old(data.index) && data.columns == old(data.columns)
    ensures valueColumn in old(data.columns) ==>
              var change := Diff(old(data.columns)[valueColumn]);
              var ks := Present(change);
              && o == Pass
              && data.index == Pick(old(data.index), ks)
              && data.columns.Keys == old(data.columns).Keys + {ChangeColumn}
              && data.columns[ChangeColumn] == Pick(change, ks)
              && forall c :: c in old(data.columns) && c != ChangeColumn ==>
                   data.columns[c] == Pick(old(data.columns)[c], ks)
  {
    if valueColumn !in data.columns {
      return Fail(KeyError);
    }
    var change := Diff(data.columns[valueColumn]);
    var withChange := data.columns[ChangeColumn := change];
    var ks := Present(change);
    data.columns := PickColumns(withChange, ks, |data.index|);
    data.index := Pick(data.index, ks);
    o := Pass;
  }

  /** The window sizes find_correlations uses when none are given */
  const DefaultWindows: seq<int> := [12, 24, 36, 48, 60]

  /** find_correlations(data, value_col1, value_col2, window_sizes): for
      each window and each shift in -12..12, the cell of the grid; KeyError
      for a column the frame does not have, which the loops only raise once
      they look a column up, so never for an empty list of windows */
  method FindCorrelations(data: Frame, col1: string, col2: string, pearsonr: PearsonR,
                          windows: seq<int> := DefaultWindows)
    returns (r: Result<seq<CorrRow>, Error>)
    requires data.Valid() && Windows(windows)
    ensures windows == [] ==> r == Success([])
    ensures windows != [] && (col1 !in data.columns || col2 !in data.columns) ==> r == Failure(KeyError)
    ensures col1 in data.columns && col2 in data.columns ==>
              r == Success(Table(data.columns[col1], data.columns[col2], col1 == col2, windows, pearsonr))
  {
    if windows == [] {
      assert Grid(windows) == [];
      return Success([]);
    }
    if col1 !in data.columns || col2 !in data.columns {
      return Failure(KeyError);
    }
    var v1 := data.columns[col1];
    var v2 := data.columns[col2];
    var rows := SearchGrid(v1, v2, col1 == col2, windows, pearsonr);
    r := Success(rows);
  }

  /** The two loops of find_correlations over the column values: window
      sizes outermost, shifts -12..12 innermost, one row per cell that
      yields one */
  method SearchGrid(v1: Column, v2: Column, same: bool, windows: seq<int>, pearsonr: PearsonR)
    returns (correlations: seq<CorrRow>)
    requires |v1| == |v2| && Windows(windows)
    ensures correlations == Table(v1, v2, same, windows, pearsonr)
  {
    ghost var g := Grid(windows);
    ghost var k := 0;
    correlations := [];
    var wi := 0;
    while wi < |windows|
      invariant 0 <= wi <= |windows| && k == 25 * wi
      invariant correlations == Rows(v1, v2, same, g[..k], pearsonr)
    {
      var window := windows[wi];
      var shift := -12;
      while shift <= 12
        invariant -12 <= shift <= 13 && k == 25 * wi + shift + 12
        invariant correlations == Rows(v1, v2, same, g[..k], pearsonr)
      {
        var cell := CorrelateCell(v1, v2, same, window, shift, pearsonr);
        GridAt(windows, wi, shift + 12);
        RowsStep(v1, v2, same, g, k, pearsonr);
        if cell.Some? {
          correlations := correlations + [cell.value];
        }
        shift := shift + 1;
        k := k + 1;
      }
      wi := wi + 1;
    }
    WholeGrid(v1, v2, same, windows, pearsonr);
  }

  /** The body of the two loops of find_correlations for one (window,
      shift): the shifted and the rolled column, their joined rows, and a
      row when more than window of them remain and pearsonr succeeds */
  method CorrelateCell(v1: Column, v2: Column, same: bool, window: int, shift: int, pearsonr: PearsonR)
    returns (cell: Option<CorrRow>)
    requires |v1| == |v2|
    ensures cell == Cell(v1, v2, same, window, shift, pearsonr)
  {
    var col1Data := Shifted(v1, shift);
    var col2Data := RollingMean(v2, window);
    var validData := if same then BothPresent(col2Data, col2Data) else BothPresent(col1Data, col2Data);
    assert validData == Sample(v1, v2, same, window, shift);
    cell := None;
    if |validData| > window {
      var rp := pearsonr(Firsts(validData), Seconds(validData));
      if rp.Some? {
        cell := Some(CorrRow(window, shift, rp.value.0, rp.value.1));
      }
    }
  }

  /** The rows of every grid entry make up the table */
  lemma {:induction false} WholeGrid(v1: Column, v2: Column, same: bool, windows: seq<int>, pearsonr: PearsonR)
    requires |v1| == |v2| && Windows(windows)
    ensures Rows(v1, v2, same, Grid(windows)[..25 * |windows|], pearsonr) == Table(v1, v2, same, windows, pearsonr)
  {
    var g := Grid(windows);
    assert g[..25 * |windows|] == g;
  }

  /** One more grid entry adds its cell's row, if any */
  lemma {:induction false} RowsStep(v1: Column, v2: Column, same: bool, g: seq<(int, int)>, k: int, pearsonr: PearsonR)
    requires |v1| == |v2|
    requires 0 <= k < |g|
    ensures var c := Cell(v1, v2, same, g[k].0, g[k].1, pearsonr);
            Rows(v1, v2, same, g[..k + 1], pearsonr) ==
            Rows(v1, v2, same, g[..k], pearsonr) + (if c.Some? then [c.value] else [])
  {
    var cs := Cells(v1, v2, same, g[..k + 1], pearsonr);
    var pre := Cells(v1, v2, same, g[..k], pearsonr);
    forall j | 0 <= j < k ensures cs[j] == pre[j] {
      assert g[..k + 1][j] == g[..k][j];
    }
    assert cs[..k] == pre;
    assert cs[k] == Cell(v1, v2, same, g[k].0, g[k].1, pearsonr);
  }

  function MinDate(s: Series): (d: Date)
    requires |s| > 0
    ensures (exists i :: 0 <= i < |s| && s[i].0 == d) && forall i :: 0 <= i < |s| ==> d <= s[i].0
  {
    if |s| == 1 then s[0].0
    else
      var m := MinDate(s[1..]);
      assert forall i :: 1 <= i < |s| ==> s[i] == s[1..][i - 1];
      if s[0].0 <= m then s[0].0 else m
  }

  function MaxDate(s: Series): (d: Date)
    requires |s| > 0
    ensures (exists i :: 0 <= i < |s| && s[i].0 == d) && forall i :: 0 <= i < |s| ==> s[i].0 <= d
  {
    if |s| == 1 then s[0].0
    else
      var m := MaxDate(s[1..]);
      assert forall i :: 1 <= i < |s| ==> s[i] == s[1..][i - 1];
      if s[0].0 >= m then s[0].0 else m
  }

  /** The rows of a join dated within [lo, hi] with both values present */
  function InRange(rows: seq<Row>, lo: Date, hi: Date): (r: seq<Row>)
    ensures forall row :: row in r <==> row in rows && lo <= row.date <= hi && row.x.Some? && row.y.Some?
  {
    if rows == [] then []
    else
      var keep := lo <= rows[0].date <= hi && rows[0].x.Some? && rows[0].y.Some?;
      (if keep then [rows[0]] else []) + InRange(rows[1..], lo, hi)
  }

  /** A row is in the join exactly when the first series has its date and
      first value and the second series' first entry for that date has its
      second value */
  lemma {:induction false} JoinRow(s1: Series, s2: Series, row: Row)
    ensures row in InnerJoin(s1, s2) <==> (row.date, row.x) in s1 && Find(s2, row.date) == Some(row.y)
  {
    if s1 != [] {
      JoinRow(s1[1..], s2, row);
      assert s1 == [s1[0]] + s1[1..];
    }
  }

  predicate DateSorted(rows: seq<Row>) {
    forall i, j :: 0 <= i < j < |rows| ==> rows[i].date <= rows[j].date
  }

  /** row placed into date-sorted rows before the first later-dated one */
  function InsertByDate(row: Row, rows: seq<Row>): (r: seq<Row>)
    requires DateSorted(rows)
    ensures DateSorted(r)
    ensures multiset(r) == multiset(rows) + multiset{row}
    ensures |r| == |rows| + 1 && (r[0] == row || (rows != [] && r[0] == rows[0]))
  {
    if rows == [] || row.date <= rows[0].date then [row] + rows
    else
      var t := InsertByDate(row, rows[1..]);
      assert rows == [rows[0]] + rows[1..];
      assert rows[0].date <= t[0].date;
      [rows[0]] + t
  }

  /** The rows ordered by date, as the frame built from two series with
      different indexes orders the union of their dates */
  function SortByDate(rows: seq<Row>): (r: seq<Row>)
    ensures DateSorted(r)
    ensures multiset(r) == multiset(rows)
  {
    if rows == [] then []
    else
      assert rows == [rows[0]] + rows[1..];
      InsertByDate(rows[0], SortByDate(rows[1..]))
  }

  /** align_and_prepare_data(sst_data, climate_data): both series cut to
      the common date range, joined on date in date order, rows with a
      missing value dropped */
  function AlignAndPrepare(sst: Series, climate: Series): (rows: seq<Row>)
    requires |sst| > 0 && |climate| > 0
    ensures forall k :: 0 <= k < |rows| ==> rows[k].x.Some? && rows[k].y.Some?
    ensures DateSorted(rows)
  {
    var lo := if MinDate(sst) >= MinDate(climate) then MinDate(sst) else MinDate(climate);
    var hi := if MaxDate(sst) <= MaxDate(climate) then MaxDate(sst) else MaxDate(climate);
    var kept := InRange(InnerJoin(sst, climate), lo, hi);
    var rows := SortByDate(kept);
    SortedMembers(kept);
    rows
  }

  /** Sorting keeps exactly the rows it is given */
  lemma {:induction false} SortedMembers(rows: seq<Row>)
    ensures forall row :: row in SortByDate(rows) <==> row in rows
  {
    var r := SortByDate(rows);
    forall row ensures row in r <==> row in rows {
      assert row in r <==> row in multiset(r);
      assert row in rows <==> row in multiset(rows);
    }
  }

  /** Every aligned row is dated within both ranges, and carries values
      both series have for that date; every such date and value pair is
      aligned */
  lemma {:induction false} AlignedRows(sst: Series, climate: Series, d: Date, x: real, y: real)
    requires |sst| > 0 && |climate| > 0
    ensures Row(d, Some(x), Some(y)) in AlignAndPrepare(sst, climate) <==>
              && MinDate(sst) <= d <= MaxDate(sst) && MinDate(climate) <= d <= MaxDate(climate)
              && (d, Some(x)) in sst && Find(climate, d) == Some(Some(y))
  {
    var row := Row(d, Some(x), Some(y));
    JoinRow(sst, climate, row);
    var lo := if MinDate(sst) >= MinDate(climate) then MinDate(sst) else MinDate(climate);
    var hi := if MaxDate(sst) <= MaxDate(climate) then MaxDate(sst) else MaxDate(climate);
    SortedMembers(InRange(InnerJoin(sst, climate), lo, hi));
  }

  function XColumn(rows: seq<Row>): (c: Column)
    ensures |c| == |rows| && forall k :: 0 <= k < |rows| ==> c[k] == rows[k].x
  {
    seq(|rows|, k requires 0 <= k < |rows| => rows[k].x)
  }

  function YColumn(rows: seq<Row>): (c: Column)
    ensures |c| == |rows| && forall k :: 0 <= k < |rows| ==> c[k] == rows[k].y
  {
    seq(|rows|, k requires 0 <= k < |rows| => rows[k].y)
  }

  function Dates(rows: seq<Row>): (ds: seq<Date>)
    ensures |ds| == |rows|
  {
    seq(|rows|, k requires 0 <= k < |rows| => rows[k].date)
  }

  function DropFirst<T>(s: seq<T>): seq<T> {
    if s == [] then [] else s[1..]
  }

  /** Differencing the aligned 'SST' column keeps every row but the first */
  lemma {:induction false} AlignedChanges(rows: seq<Row>)
    requires forall k :: 0 <= k < |rows| ==> rows[k].x.Some? && rows[k].y.Some?
    ensures var ks := Present(Diff(XColumn(rows)));
            && (forall j :: 0 <= j < |ks| ==> 0 <= ks[j] < |rows|)
            && Pick(XColumn(rows), ks) == DropFirst(XColumn(rows))
            && Pick(YColumn(rows), ks) == DropFirst(YColumn(rows))
  {
    var xs := XColumn(rows);
    assert AllSome(xs);
    ChangesGapFree(xs);
    PickFromOne(xs);
    PickFromOne(YColumn(rows));
  }

  /** The analysis of main: align, difference 'SST' in place, then search
      the grid over 'SST' and 'Temperature'.  The search reads the 'SST'
      values themselves, not their changes, so differencing only drops the
      first aligned row. */
  method SearchSstTemperature(sst: Series, climate: Series, pearsonr: PearsonR, windows: seq<int> := DefaultWindows)
    returns (r: Result<seq<CorrRow>, Error>)
    requires |sst| > 0 && |climate| > 0 && Windows(windows)
    ensures var rows := AlignAndPrepare(sst, climate);
            r == Success(Table(DropFirst(XColumn(rows)), DropFirst(YColumn(rows)), false, windows, pearsonr))
  {
    var rows := AlignAndPrepare(sst, climate);
    var data := new Frame(Dates(rows), map["SST" := XColumn(rows), "Temperature" := YColumn(rows)]);
    AlignedChanges(rows);
    var o := CalculateChanges(data, "SST");
    assert "SST" != ChangeColumn && "Temperature" != ChangeColumn;
    r := FindCorrelations(data, "SST", "Temperature", pearsonr, windows);
  }
}
