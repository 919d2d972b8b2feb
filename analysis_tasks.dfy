/** dphackt's analysis_tasks.py: CorrelationAnalysis screens one pair of
    registered datasets, loading both through the manager's frame cache. */
module AnalysisTasks {
  import opened Wrappers
  import opened ContentHash
  import opened OrderedMaps
  import opened Datasets
  import opened RollingScreen
  import opened PairCache
  import opened DatasetRegistry

  /** What process returns, with the frame cache it leaves behind (the
      loads that succeeded before an exception stay cached) */
  datatype Analysis = Analysis(result: Result<Option<Record>, Error>, cache: map<Digest, Series>)

  /** The threshold gate of process: a record, named after the two registry
      entries, exactly for a score whose maximum passes; abs of NaN passes
      no threshold */
  function Gate(datasets: OrderedMap<Digest, Dataset>, pair: (Digest, Digest), o: CorrOutcome, threshold: real)
    : (r: Result<Option<Record>, Error>)
    ensures !Qualifies(o, threshold) <==> r == Success(None)
    ensures Qualifies(o, threshold) && (pair.0 !in datasets.items || pair.1 !in datasets.items) <==> r == Failure(KeyError)
    ensures r.Success? && r.value.Some? ==>
              && o.Score? && o.max.Some? && r.value.value.correlation == o.max.value
              && Abs(r.value.value.correlation) >= threshold
              && r.value.value.dataset1 == datasets.items[pair.0].name
              && r.value.value.dataset2 == datasets.items[pair.1].name
  {
    if !Qualifies(o, threshold) then Success(None)
    else if pair.0 !in datasets.items || pair.1 !in datasets.items then Failure(KeyError)
    else Success(Some(Record(datasets.items[pair.0].name, datasets.items[pair.1].name, o.max.value)))
  }

  /** process(dataset_manager, (hash1, hash2)): load both frames through
      the cache, screen them, apply the gate */
  function Analyse(datasets: OrderedMap<Digest, Dataset>, cache: map<Digest, Series>, pair: (Digest, Digest),
                   w: Window, threshold: real, load: Loader, pearson: Pearson): Analysis
  {
    var f1 := Fetch(datasets, cache, pair.0, load);
    if f1.Failure? then Analysis(Failure(f1.error), cache)
    else
      var f2 := Fetch(datasets, f1.value.1, pair.1, load);
      if f2.Failure? then Analysis(Failure(f2.error), f1.value.1)
      else Analysis(Gate(datasets, pair, Screen(f1.value.0, f2.value.0, w, pearson), threshold), f2.value.1)
  }

  /** c2 keeps every frame of c and holds at most the frames of extra
      besides */
  predicate Grows(c: map<Digest, Series>, c2: map<Digest, Series>, extra: set<Digest>) {
    && (forall k :: k in c ==> k in c2 && c2[k] == c[k])
    && c2.Keys <= c.Keys + extra
  }

  /** A load through the cache stores at most its own frame */
  lemma {:induction false} FetchGrows(datasets: OrderedMap<Digest, Dataset>, cache: map<Digest, Series>, h: Digest, load: Loader)
    ensures var f := Fetch(datasets, cache, h, load);
            f.Success? ==> Grows(cache, f.value.1, {h})
  {
    var f := Fetch(datasets, cache, h, load);
    if f.Success? {
      var (s, c2) := f.value;
      assert c2 == cache[h := s] && (h in cache ==> cache[h] == s);
      StoreGrows(cache, h, s);
    }
  }

  /** Storing a frame under h, or storing again the frame h has */
  lemma {:induction false} StoreGrows(cache: map<Digest, Series>, h: Digest, s: Series)
    requires h in cache ==> cache[h] == s
    ensures Grows(cache, cache[h := s], {h})
  {
  }

  lemma {:induction false} GrowsTwice(c1: map<Digest, Series>, c2: map<Digest, Series>, c3: map<Digest, Series>,
                                      e1: set<Digest>, e2: set<Digest>)
    requires Grows(c1, c2, e1) && Grows(c2, c3, e2)
    ensures Grows(c1, c3, e1 + e2)
  {
  }

  lemma {:induction false} GrowsWithin(c1: map<Digest, Series>, c2: map<Digest, Series>, e: set<Digest>, e': set<Digest>)
    requires Grows(c1, c2, e) && e <= e'
    ensures Grows(c1, c2, e')
  {
  }

  /** process only adds to the frame cache, and only the two frames */
  lemma {:induction false} AnalyseCache(datasets: OrderedMap<Digest, Dataset>, cache: map<Digest, Series>, pair: (Digest, Digest),
                     w: Window, threshold: real, load: Loader, pearson: Pearson)
    ensures Grows(cache, Analyse(datasets, cache, pair, w, threshold, load, pearson).cache, {pair.0, pair.1})
  {
    var a := Analyse(datasets, cache, pair, w, threshold, load, pearson);
    var f1 := Fetch(datasets, cache, pair.0, load);
    FetchGrows(datasets, cache, pair.0, load);
    if f1.Success? {
      var c1 := f1.value.1;
      var f2 := Fetch(datasets, c1, pair.1, load);
      FetchGrows(datasets, c1, pair.1, load);
      if f2.Success? {
        assert a.cache == f2.value.1;
        GrowsTwice(cache, c1, a.cache, {pair.0}, {pair.1});
        GrowsWithin(cache, a.cache, {pair.0} + {pair.1}, {pair.0, pair.1});
      } else {
        assert a.cache == c1;
        GrowsWithin(cache, a.cache, {pair.0}, {pair.0, pair.1});
      }
    } else {
      assert a.cache == cache;
      GrowsWithin(cache, a.cache, {}, {pair.0, pair.1});
    }
  }

  /** process answers with the gate on the screen of the two frames exactly
      when both loads succeed, which is when both end up cached; otherwise
      it raises, and when the first load raises nothing is cached */
  lemma {:induction false} AnalyseResult(datasets: OrderedMap<Digest, Dataset>, cache: map<Digest, Series>, pair: (Digest, Digest),
                      w: Window, threshold: real, load: Loader, pearson: Pearson)
    ensures var a := Analyse(datasets, cache, pair, w, threshold, load, pearson);
            && (Fetch(datasets, cache, pair.0, load).Failure? ==>
                  a == Analysis(Failure(Fetch(datasets, cache, pair.0, load).error), cache))
            && (pair.0 in a.cache && pair.1 in a.cache ==>
                  a.result == Gate(datasets, pair, Screen(a.cache[pair.0], a.cache[pair.1], w, pearson), threshold))
            && (!(pair.0 in a.cache && pair.1 in a.cache) ==> a.result.Failure?)
  {
    var f1 := Fetch(datasets, cache, pair.0, load);
    if f1.Success? {
      var c1 := f1.value.1;
      var f2 := Fetch(datasets, c1, pair.1, load);
      if f2.Success? {
        var c2 := f2.value.1;
        assert c2[pair.1] == f2.value.0;
        assert c2[pair.0] == f1.value.0;
      } else {
        assert pair.1 !in c1;
      }
    } else {
      assert pair.0 !in cache;
    }
  }

  /** Fewer aligned dates than the window gives None */
  lemma {:induction false} ShortJoinIsNone(datasets: OrderedMap<Digest, Dataset>, cache: map<Digest, Series>, pair: (Digest, Digest),
                        w: Window, threshold: real, load: Loader, pearson: Pearson)
    requires Fetch(datasets, cache, pair.0, load).Success?
    requires Fetch(datasets, Fetch(datasets, cache, pair.0, load).value.1, pair.1, load).Success?
    requires |InnerJoin(Fetch(datasets, cache, pair.0, load).value.0,
                        Fetch(datasets, Fetch(datasets, cache, pair.0, load).value.1, pair.1, load).value.0)| < w
    ensures Analyse(datasets, cache, pair, w, threshold, load, pearson).result == Success(None)
  {
  }

  /** Screening a pair again on the cache the first screen left gives the
      same answer and loads nothing */
  lemma {:induction false} AnalyseMemoised(datasets: OrderedMap<Digest, Dataset>, cache: map<Digest, Series>, pair: (Digest, Digest),
                        w: Window, threshold: real, load: Loader, pearson: Pearson)
    requires Analyse(datasets, cache, pair, w, threshold, load, pearson).result.Success?
    ensures var a := Analyse(datasets, cache, pair, w, threshold, load, pearson);
            Analyse(datasets, a.cache, pair, w, threshold, load, pearson) == a
  {
    var a := Analyse(datasets, cache, pair, w, threshold, load, pearson);
    var f1 := Fetch(datasets, cache, pair.0, load);
    var f2 := Fetch(datasets, f1.value.1, pair.1, load);
    assert a.cache == f2.value.1;
    FetchMemoised(datasets, datasets, f1.value.1, pair.1, load, load);
    assert f2.value.1 == f1.value.1[pair.1 := f2.value.0];
    assert pair.0 in a.cache && a.cache[pair.0] == (if pair.0 == pair.1 then f2.value.0 else f1.value.0);
    var g1 := Fetch(datasets, a.cache, pair.0, load);
    assert g1 == Success((a.cache[pair.0], a.cache));
  }

  class CorrelationAnalysis {
    const windowSize: Window
    const threshold: real

    /** __init__(window_size=30, threshold=0.7) */
    constructor(windowSize: Window := 30, threshold: real := 0.7)
      ensures this.windowSize == windowSize && this.threshold == threshold
    {
      this.windowSize := windowSize;
      this.threshold := threshold;
    }

    /** process(dataset_manager, dataset_pair) */
    method Process(manager: DatasetManager, pair: (Digest, Digest), load: Loader, pearson: Pearson)
      returns (r: Result<Option<Record>, Error>)
      modifies manager`datasetCache
      ensures var a := Analyse(manager.datasets, old(manager.datasetCache), pair, windowSize, threshold, load, pearson);
              r == a.result && manager.datasetCache == a.cache
    {
      var (h1, h2) := pair;
      var df1 := manager.LoadDataset(h1, load);
      if df1.Failure? {
        return Failure(df1.error);
      }
      var df2 := manager.LoadDataset(h2, load);
      if df2.Failure? {
        return Failure(df2.error);
      }
      var aligned := InnerJoin(df1.value, df2.value);
      if |aligned| < windowSize {
        return Success(None);
      }
      var maxCorr := Screen(df1.value, df2.value, windowSize, pearson).max;
      if maxCorr.Some? && Abs(maxCorr.value) >= threshold {
        if h1 !in manager.datasets.items || h2 !in manager.datasets.items {
          return Failure(KeyError);
        }
        return Success(Some(Record(manager.datasets.items[h1].name, manager.datasets.items[h2].name, maxCorr.value)));
      }
      return Success(None);
    }
  }
}
