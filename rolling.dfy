/** The rolling-window screen shared by phackt.py, phack.py and
    CorrelationAnalysis.process: the two series are inner-joined on their
    date index; fewer joined rows than the window means "insufficient
    data"; otherwise the rolling correlation frame is computed, every
    second row of its first column from row w-1 on is selected, and the
    score is the largest of those entries (NaN when none is defined).

    The Pearson coefficient of two windows is a parameter (None: NaN, for
    example a window with zero variance). */
module RollingScreen {
  import opened Wrappers
  import opened Datasets

  /** A rolling window length */
  type Window = w: int | 1 <= w witness 30

  /** The Pearson coefficient of two equally long samples, None for NaN */
  type Pearson = (seq<real>, seq<real>) -> Option<real>

  /** One row of the aligned frame: the date and the two value columns */
  datatype Row = Row(date: Date, x: Option<real>, y: Option<real>)

  /** The value of the first entry of s with date d */
  function Find(s: Series, d: Date): (r: Option<Option<real>>)
    ensures r.Some? <==> exists i :: 0 <= i < |s| && s[i].0 == d
    ensures r.Some? ==> exists i :: 0 <= i < |s| && s[i] == (d, r.value)
  {
    if s == [] then None
    else if s[0].0 == d then Some(s[0].1)
    else
      var r := Find(s[1..], d);
      assert forall i :: 1 <= i < |s| ==> s[i] == s[1..][i - 1];
      r
  }

  /** pd.concat([s1, s2], axis=1, join='inner'): the rows of s1 whose date
      s2 also has, in the order of s1 */
  function InnerJoin(s1: Series, s2: Series): (rows: seq<Row>)
    ensures |rows| <= |s1|
    ensures s2 == [] ==> rows == []
  {
    if s1 == [] then []
    else
      var head := match Find(s2, s1[0].0)
                  case None => []
                  case Some(v) => [Row(s1[0].0, s1[0].1, v)];
      head + InnerJoin(s1[1..], s2)
  }

  /** A date is a row of the join exactly when both series have it */
  lemma {:induction false} JoinMembership(s1: Series, s2: Series, d: Date)
    ensures (exists k :: 0 <= k < |InnerJoin(s1, s2)| && InnerJoin(s1, s2)[k].date == d) <==>
            (exists i :: 0 <= i < |s1| && s1[i].0 == d) && (exists j :: 0 <= j < |s2| && s2[j].0 == d)
  {
    if s1 != [] {
      var head := match Find(s2, s1[0].0)
                  case None => []
                  case Some(v) => [Row(s1[0].0, s1[0].1, v)];
      var tail := InnerJoin(s1[1..], s2);
      assert InnerJoin(s1, s2) == head + tail;
      JoinMembership(s1[1..], s2, d);
      if exists k :: 0 <= k < |InnerJoin(s1, s2)| && InnerJoin(s1, s2)[k].date == d {
        var k :| 0 <= k < |InnerJoin(s1, s2)| && InnerJoin(s1, s2)[k].date == d;
        if k >= |head| {
          assert tail[k - |head|].date == d;
          var i :| 0 <= i < |s1[1..]| && s1[1..][i].0 == d;
          assert s1[i + 1].0 == d;
        }
      }
      if (exists i :: 0 <= i < |s1| && s1[i].0 == d) && (exists j :: 0 <= j < |s2| && s2[j].0 == d) {
        var i :| 0 <= i < |s1| && s1[i].0 == d;
        if s1[0].0 == d {
          assert InnerJoin(s1, s2)[0].date == d;
        } else {
          assert s1[1..][i - 1].0 == d;
          var k :| 0 <= k < |tail| && tail[k].date == d;
          assert InnerJoin(s1, s2)[|head| + k].date == d;
        }
      }
    }
  }

  /** Column 0 (x) or column 1 (y) of the aligned frame */
  function Column(rows: seq<Row>, c: nat): (col: seq<Option<real>>)
    ensures |col| == |rows|
  {
    seq(|rows|, i requires 0 <= i < |rows| => if c == 0 then rows[i].x else rows[i].y)
  }

  predicate AllDefined(vs: seq<Option<real>>) {
    forall i :: 0 <= i < |vs| ==> vs[i].Some?
  }

  function Values(vs: seq<Option<real>>): (r: seq<real>)
    requires AllDefined(vs)
    ensures |r| == |vs|
  {
    seq(|vs|, i requires 0 <= i < |vs| && AllDefined(vs) => vs[i].value)
  }

  /** The w values of column c that end at row i */
  function WindowAt(rows: seq<Row>, c: nat, i: nat, w: Window): seq<Option<real>>
    requires w - 1 <= i < |rows|
  {
    Column(rows, c)[i - w + 1 .. i + 1]
  }

  /** The correlation of column c with column 0 over the window ending at
      row i; None before the window is full (min_periods = w) or when a
      value in it is missing */
  function WindowCorrelation(rows: seq<Row>, w: Window, pearson: Pearson, c: nat, i: nat): Option<real>
    requires i < |rows|
  {
    if i < w - 1 then None
    else
      var own := WindowAt(rows, 0, i, w);
      var other := WindowAt(rows, c, i, w);
      if AllDefined(own) && AllDefined(other) then pearson(Values(other), Values(own)) else None
  }

  /** Entry p of the first column of rolling(...).corr(): that frame has
      two rows per date, row 2i pairing column 0 and row 2i+1 pairing
      column 1 with column 0 */
  function RollingEntry(rows: seq<Row>, w: Window, pearson: Pearson, p: nat): Option<real>
    requires p < 2 * |rows|
  {
    WindowCorrelation(rows, w, pearson, p % 2, p / 2)
  }

  /** The correlation of column 0 with itself over a window */
  function SelfCorrelation(rows: seq<Row>, w: Window, pearson: Pearson, i: nat): Option<real>
    requires i < |rows|
  {
    if i < w - 1 then None
    else
      var own := WindowAt(rows, 0, i, w);
      if AllDefined(own) then pearson(Values(own), Values(own)) else None
  }

  /** The correlation of column 1 with column 0 over a window */
  function CrossCorrelation(rows: seq<Row>, w: Window, pearson: Pearson, i: nat): Option<real>
    requires i < |rows|
  {
    if i < w - 1 then None
    else
      var own := WindowAt(rows, 0, i, w);
      var other := WindowAt(rows, 1, i, w);
      if AllDefined(own) && AllDefined(other) then pearson(Values(other), Values(own)) else None
  }

  /** How many positions w-1, w+1, w+3, ... lie below 2n */
  function SelectedCount(n: nat, w: Window): (c: nat)
    ensures forall k :: 0 <= k < c ==> w - 1 + 2 * k < 2 * n
    // and no further position is: the next one lies at or past 2n
    ensures 2 * n <= w - 1 + 2 * c
  {
    if 2 * n < w then 0 else (2 * n - w + 2) / 2
  }

  /** .iloc[w-1::2] of the first column */
  function Selected(rows: seq<Row>, w: Window, pearson: Pearson): (sel: seq<Option<real>>)
    ensures |sel| == SelectedCount(|rows|, w)
  {
    seq(SelectedCount(|rows|, w),
        k requires 0 <= k < SelectedCount(|rows|, w) => RollingEntry(rows, w, pearson, w - 1 + 2 * k))
  }

  /** Series.max(): the largest defined entry, NaN (None) when there is none */
  function MaxDefined(xs: seq<Option<real>>): (r: Option<real>)
    ensures r.None? <==> forall i :: 0 <= i < |xs| ==> xs[i].None?
    ensures r.Some? ==> exists i :: 0 <= i < |xs| && xs[i] == r
    ensures r.Some? ==> forall i :: 0 <= i < |xs| && xs[i].Some? ==> xs[i].value <= r.value
  {
    if xs == [] then None
    else
      var rest := MaxDefined(xs[1..]);
      assert forall i :: 1 <= i < |xs| ==> xs[i] == xs[1..][i - 1];
      match xs[0]
      case None => rest
      case Some(v) => if rest.Some? && rest.value > v then rest else Some(v)
  }

  /** The outcome of compute_correlation: None for too few aligned rows,
      otherwise max_corr, which is NaN (None) when no selected entry is
      defined */
  datatype CorrOutcome = InsufficientData | Score(max: Option<real>)

  /** The screen on two loaded series: "insufficient data" exactly when the
      join has fewer than w rows; otherwise the SIGNED maximum of the
      selected rolling entries, attained at one of them */
  function Screen(s1: Series, s2: Series, w: Window, pearson: Pearson): (r: CorrOutcome)
    ensures r.InsufficientData? <==> |InnerJoin(s1, s2)| < w
    ensures r.Score? ==>
              (r.max.None? <==> forall k :: 0 <= k < |Selected(InnerJoin(s1, s2), w, pearson)| ==>
                                          Selected(InnerJoin(s1, s2), w, pearson)[k].None?)
    ensures r.Score? && r.max.Some? ==>
              && (exists k :: 0 <= k < |Selected(InnerJoin(s1, s2), w, pearson)| &&
                              Selected(InnerJoin(s1, s2), w, pearson)[k] == r.max)
              && (forall k :: 0 <= k < |Selected(InnerJoin(s1, s2), w, pearson)| &&
                              Selected(InnerJoin(s1, s2), w, pearson)[k].Some? ==>
                              Selected(InnerJoin(s1, s2), w, pearson)[k].value <= r.max.value)
  {
    var rows := InnerJoin(s1, s2);
    if |rows| < w then InsufficientData else Score(MaxDefined(Selected(rows, w, pearson)))
  }

  /** Every selected entry pairs the same column with column 0, the one of
      parity (w-1) mod 2: for an odd window each is a self-correlation of
      the first series, for an even window a cross-correlation; entries
      whose window is not yet full are NaN */
  lemma {:induction false} SelectedEntries(rows: seq<Row>, w: Window, pearson: Pearson, k: nat)
    requires k < SelectedCount(|rows|, w)
    ensures (w - 1) / 2 + k < |rows|
    ensures w % 2 == 1 ==> Selected(rows, w, pearson)[k] == SelfCorrelation(rows, w, pearson, (w - 1) / 2 + k)
    ensures w % 2 == 0 ==> Selected(rows, w, pearson)[k] == CrossCorrelation(rows, w, pearson, (w - 1) / 2 + k)
    ensures (w - 1) / 2 + k < w - 1 ==> Selected(rows, w, pearson)[k].None?
  {
    var p := w - 1 + 2 * k;
    assert p / 2 == (w - 1) / 2 + k;
    assert p % 2 == (w - 1) % 2;
  }

  /** An example only, illustrating what Screen's contract states in
      general: the score is not the largest absolute value, so a strongly
      negative window loses to a weakly positive one */
  lemma {:induction false} SignedMaximum()
    ensures MaxDefined([Some(-0.9), Some(0.1)]) == Some(0.1)
  {
  }
}
