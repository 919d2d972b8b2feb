/** The index arithmetic of dphack.py's grid search: a shifted column, a
    trailing rolling mean, the rows where both are present, and the
    (window, shift) grid the search walks. */
module GridSearch {
  import opened Wrappers

  type Column = seq<Option<real>>

  /** scipy.stats.pearsonr on two equally long samples: (r, p), or None
      where it raises ValueError */
  type PearsonR = (seq<real>, seq<real>) -> Option<(real, real)>

  /** One row of the result table */
  datatype CorrRow = CorrRow(window: int, shift: int, r: real, p: real)

  // The shifts are range(-12, 13): 25 of them, from -12 to 12; the grid
  // arithmetic below writes these constants out so that division by 25
  // stays linear for the solver.

  /** series.shift(s): the value s places earlier, missing where that falls
      outside the column */
  function Shifted(v: Column, s: int): (r: Column)
    ensures |r| == |v|
    ensures forall i :: 0 <= i < |v| ==> r[i] == if 0 <= i - s < |v| then v[i - s] else None
  {
    seq(|v|, i requires 0 <= i < |v| => if 0 <= i - s < |v| then v[i - s] else None)
  }

  predicate AllSome(xs: Column) {
    forall i :: 0 <= i < |xs| ==> xs[i].Some?
  }

  function Unwrap(xs: Column): (r: seq<real>)
    requires AllSome(xs)
    ensures |r| == |xs| && forall i :: 0 <= i < |xs| ==> r[i] == xs[i].value
  {
    seq(|xs|, i requires 0 <= i < |xs| => xs[i].value)
  }

  function Sum(xs: seq<real>): real {
    if xs == [] then 0.0 else Sum(xs[..|xs| - 1]) + xs[|xs| - 1]
  }

  /** rolling(window=w).mean() at i: the mean of the w values ending at i,
      missing until w values exist and wherever one of them is missing */
  function MeanAt(v: Column, w: int, i: int): Option<real>
    requires 0 <= i < |v|
  {
    if w < 1 || i < w - 1 then None
    else if AllSome(v[i - w + 1..i + 1]) then Some(Sum(Unwrap(v[i - w + 1..i + 1])) / w as real)
    else None
  }

  function RollingMean(v: Column, w: int): (r: Column)
    ensures |r| == |v|
    ensures forall i :: 0 <= i < |v| ==> r[i] == MeanAt(v, w, i)
  {
    seq(|v|, i requires 0 <= i < |v| => MeanAt(v, w, i))
  }

  /** On a column without gaps the rolling mean is present exactly from
      index w - 1 on */
  lemma {:induction false} RollingMeanPresent(v: Column, w: int, i: int)
    requires 1 <= w && AllSome(v) && 0 <= i < |v|
    ensures RollingMean(v, w)[i].Some? <==> i >= w - 1
  {
    if i >= w - 1 {
      var win := v[i - w + 1..i + 1];
      assert AllSome(win) by {
        forall j | 0 <= j < |win| ensures win[j].Some? {
          assert win[j] == v[i - w + 1 + j];
        }
      }
    }
  }

  /** The rows of DataFrame({..}).dropna(): the positions where both
      columns are present, in order */
  function BothPresent(xs: Column, ys: Column): (r: seq<(real, real)>)
    requires |xs| == |ys|
    ensures |r| <= |xs|
  {
    if xs == [] then []
    else
      var n := |xs| - 1;
      BothPresent(xs[..n], ys[..n]) + (if xs[n].Some? && ys[n].Some? then [(xs[n].value, ys[n].value)] else [])
  }

  function Firsts(ps: seq<(real, real)>): (r: seq<real>)
    ensures |r| == |ps| && forall i :: 0 <= i < |ps| ==> r[i] == ps[i].0
  {
    seq(|ps|, i requires 0 <= i < |ps| => ps[i].0)
  }

  function Seconds(ps: seq<(real, real)>): (r: seq<real>)
    ensures |r| == |ps| && forall i :: 0 <= i < |ps| ==> r[i] == ps[i].1
  {
    seq(|ps|, i requires 0 <= i < |ps| => ps[i].1)
  }

  /** The joined sample of one (window, shift) cell.  With the same name
      for both columns the dict literal keeps only the rolling mean, so the
      sample pairs that column with itself. */
  function Sample(v1: Column, v2: Column, same: bool, w: int, s: int): seq<(real, real)>
    requires |v1| == |v2|
  {
    var means := RollingMean(v2, w);
    if same then BothPresent(means, means) else BothPresent(Shifted(v1, s), means)
  }

  /** One cell of the search: a row exactly when more than w joined rows
      remain and pearsonr does not raise */
  function Cell(v1: Column, v2: Column, same: bool, w: int, s: int, pearsonr: PearsonR): (r: Option<CorrRow>)
    requires |v1| == |v2|
    ensures r.Some? <==>
              |Sample(v1, v2, same, w, s)| > w &&
              pearsonr(Firsts(Sample(v1, v2, same, w, s)), Seconds(Sample(v1, v2, same, w, s))).Some?
    ensures r.Some? ==> r.value.window == w && r.value.shift == s
    // the row reports the coefficient and p-value pearsonr gives on the sample
    ensures r.Some? ==>
              (r.value.r, r.value.p) == pearsonr(Firsts(Sample(v1, v2, same, w, s)), Seconds(Sample(v1, v2, same, w, s))).value
  {
    var sample := Sample(v1, v2, same, w, s);
    if |sample| > w then
      match pearsonr(Firsts(sample), Seconds(sample))
      case None => None
      case Some((rr, p)) => Some(CorrRow(w, s, rr, p))
    else None
  }

  /** The (window, shift) pairs in the order of the two loops */
  function Grid(windows: seq<int>): (g: seq<(int, int)>)
    ensures |g| == 25 * |windows|
  {
    seq(25 * |windows|, k requires 0 <= k < 25 * |windows| =>
      (windows[k / 25], k % 25 - 12))
  }

  /** Entry k of the grid is window k / 25 at shift k % 25 - 12: window
      major, shift ascending */
  lemma {:induction false} GridAt(windows: seq<int>, wi: int, j: int)
    requires 0 <= wi < |windows| && 0 <= j < 25
    ensures 25 * wi + j < |Grid(windows)|
    ensures Grid(windows)[25 * wi + j] == (windows[wi], j - 12)
  {
    var k := 25 * wi + j;
    assert k / 25 == wi && k % 25 == j;
  }

  predicate Windows(windows: seq<int>) {
    forall i :: 0 <= i < |windows| ==> windows[i] >= 1
  }

  /** The cells of the grid entries g, in order */
  function Cells(v1: Column, v2: Column, same: bool, g: seq<(int, int)>, pearsonr: PearsonR): (cs: seq<Option<CorrRow>>)
    requires |v1| == |v2|
    ensures |cs| == |g|
  {
    seq(|g|, k requires 0 <= k < |g| => Cell(v1, v2, same, g[k].0, g[k].1, pearsonr))
  }

  /** The rows of the cells that yield one, in order */
  function Found(cs: seq<Option<CorrRow>>): (r: seq<CorrRow>)
    ensures |r| <= |cs|
  {
    if cs == [] then []
    else
      var n := |cs| - 1;
      Found(cs[..n]) + (if cs[n].Some? then [cs[n].value] else [])
  }

  /** The rows the search appends for the grid entries g */
  function Rows(v1: Column, v2: Column, same: bool, g: seq<(int, int)>, pearsonr: PearsonR): (r: seq<CorrRow>)
    requires |v1| == |v2|
  {
    Found(Cells(v1, v2, same, g, pearsonr))
  }

  /** The table find_correlations returns */
  function Table(v1: Column, v2: Column, same: bool, windows: seq<int>, pearsonr: PearsonR): seq<CorrRow>
    requires |v1| == |v2| && Windows(windows)
  {
    Rows(v1, v2, same, Grid(windows), pearsonr)
  }

  /** Each found row is the value of one cell, and the rows keep the order
      of their cells: idx lists, strictly increasing, the cell of each row */
  lemma {:induction false} FoundInOrder(cs: seq<Option<CorrRow>>) returns (idx: seq<int>)
    ensures |idx| == |Found(cs)|
    ensures forall a, b :: 0 <= a < b < |idx| ==> idx[a] < idx[b]
    ensures forall a :: 0 <= a < |idx| ==> 0 <= idx[a] < |cs| && cs[idx[a]] == Some(Found(cs)[a])
  {
    if cs == [] {
      idx := [];
    } else {
      var n := |cs| - 1;
      var pre := cs[..n];
      var before := FoundInOrder(pre);
      idx := before + (if cs[n].Some? then [n] else []);
      forall a | 0 <= a < |before|
        ensures 0 <= idx[a] < |cs| && cs[idx[a]] == Some(Found(cs)[a])
      {
        assert idx[a] == before[a] && cs[before[a]] == pre[before[a]] && Found(cs)[a] == Found(pre)[a];
      }
    }
  }

  /** Every row is the cell of a grid entry, and the rows come in grid
      order: idx lists, strictly increasing, the grid entry of each row */
  lemma {:induction false} RowsInGridOrder(v1: Column, v2: Column, same: bool, g: seq<(int, int)>, pearsonr: PearsonR)
    returns (idx: seq<int>)
    requires |v1| == |v2|
    ensures |idx| == |Rows(v1, v2, same, g, pearsonr)|
    ensures forall a, b :: 0 <= a < b < |idx| ==> idx[a] < idx[b]
    ensures forall a :: 0 <= a < |idx| ==>
              && 0 <= idx[a] < |g|
              && Cell(v1, v2, same, g[idx[a]].0, g[idx[a]].1, pearsonr) == Some(Rows(v1, v2, same, g, pearsonr)[a])
  {
    var cs := Cells(v1, v2, same, g, pearsonr);
    idx := FoundInOrder(cs);
    forall a | 0 <= a < |idx|
      ensures Cell(v1, v2, same, g[idx[a]].0, g[idx[a]].1, pearsonr) == Some(Rows(v1, v2, same, g, pearsonr)[a])
    {
      assert cs[idx[a]] == Cell(v1, v2, same, g[idx[a]].0, g[idx[a]].1, pearsonr);
    }
  }

  /** The rows of find_correlations: at most 25 per window, each for a
      window of the list and a shift in [-12, 12], in loop order */
  lemma {:induction false} TableShape(v1: Column, v2: Column, same: bool, windows: seq<int>, pearsonr: PearsonR)
    returns (idx: seq<int>)
    requires |v1| == |v2| && Windows(windows)
    ensures var t := Table(v1, v2, same, windows, pearsonr);
            && |t| <= 25 * |windows|
            && |idx| == |t|
            && (forall a, b :: 0 <= a < b < |idx| ==> idx[a] < idx[b])
            && (forall a :: 0 <= a < |t| ==>
                  && 0 <= idx[a] < 25 * |windows|
                  && t[a].window == windows[idx[a] / 25]
                  && t[a].shift == idx[a] % 25 - 12
                  && t[a].window in windows
                  && -12 <= t[a].shift <= 12)
  {
    var g := Grid(windows);
    idx := RowsInGridOrder(v1, v2, same, g, pearsonr);
    var t := Rows(v1, v2, same, g, pearsonr);
    forall a | 0 <= a < |t|
      ensures && t[a].window == windows[idx[a] / 25]
              && t[a].shift == idx[a] % 25 - 12
              && t[a].window in windows
              && -12 <= t[a].shift <= 12
    {
      var k := idx[a];
      GridIndex(k, |windows|);
      assert g[k] == (windows[k / 25], k % 25 - 12);
    }
  }

  lemma {:induction false} GridIndex(k: int, n: int)
    requires 0 <= k < 25 * n
    ensures 0 <= k / 25 < n && 0 <= k % 25 < 25
  {
  }

  /** The joined count over two columns whose rows are both present exactly
      on [lo, hi) */
  lemma {:induction false} IntervalCount(xs: Column, ys: Column, lo: int, hi: int)
    requires |xs| == |ys|
    requires forall i :: 0 <= i < |xs| ==> (xs[i].Some? && ys[i].Some? <==> lo <= i < hi)
    ensures |BothPresent(xs, ys)| == if lo < 0 then Clamp(Min(hi, |xs|)) else Clamp(Min(hi, |xs|) - lo)
  {
    if xs != [] {
      var n := |xs| - 1;
      assert forall i :: 0 <= i < n ==> xs[..n][i] == xs[i] && ys[..n][i] == ys[i];
      IntervalCount(xs[..n], ys[..n], lo, hi);
    }
  }

  function Min(a: int, b: int): int { if a <= b then a else b }
  function Max(a: int, b: int): int { if a >= b then a else b }
  function Clamp(a: int): nat { if a < 0 then 0 else a }

  /** For two gap-free columns of length n the cell (w, s) joins
      max(0, min(n, n + s) - max(0, s, w - 1)) rows */
  lemma {:induction false} GapFreeCount(v1: Column, v2: Column, w: int, s: int)
    requires 1 <= w && |v1| == |v2| && AllSome(v1) && AllSome(v2)
    ensures |Sample(v1, v2, false, w, s)| == Clamp(Min(|v1|, |v1| + s) - Max(Max(0, s), w - 1))
  {
    var n := |v1|;
    var xs := Shifted(v1, s);
    var ys := RollingMean(v2, w);
    forall i | 0 <= i < n ensures xs[i].Some? && ys[i].Some? <==> Max(s, w - 1) <= i < Min(n, n + s) {
      RollingMeanPresent(v2, w, i);
    }
    IntervalCount(xs, ys, Max(s, w - 1), Min(n, n + s));
  }
}
