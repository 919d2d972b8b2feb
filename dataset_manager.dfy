/** dphackt's dataset_manager.py: DatasetManager keeps one entry per file
    digest and memoises loaded frames by digest. */
module DatasetRegistry {
  import opened Wrappers
  import opened ContentHash
  import opened Paths
  import opened OrderedMaps
  import opened Pairs
  import opened Datasets

  /** datasets[h] */
  datatype Dataset = Dataset(name: string, path: string, columns: Columns, timestamp: Timestamp)

  /** The loaders table, keyed by the lower-cased extension */
  function LoaderFor(ext: string): (f: Option<Format>)
    ensures f.Some? <==> ext in {".csv", ".json", ".parquet"}
    ensures f == Some(Csv) <==> ext == ".csv"
    ensures f == Some(Json) <==> ext == ".json"
    ensures f == Some(Parquet) <==> ext == ".parquet"
  {
    if ext == ".csv" then Some(Csv)
    else if ext == ".json" then Some(Json)
    else if ext == ".parquet" then Some(Parquet)
    else None
  }

  /** The loader load_dataset picks for a path: by the extension splitext
      reports, lower-cased */
  function FormatOf(path: string): Option<Format> {
    LoaderFor(Lower(Extension(path)))
  }

  /** load_dataset(dataset_hash) on the registry and the frame cache: a
      cached frame is returned as it is, without looking at the registry; a
      miss raises KeyError for an unknown digest and ValueError for an
      extension without loader, lets a raising loader raise, and otherwise
      stores the loaded frame */
  function Fetch(datasets: OrderedMap<Digest, Dataset>, cache: map<Digest, Series>, h: Digest, load: Loader)
    : (r: Result<(Series, map<Digest, Series>), Error>)
    ensures h in cache ==> r == Success((cache[h], cache))
    ensures h !in cache && h !in datasets.items ==> r == Failure(KeyError)
    ensures h !in cache && h in datasets.items && FormatOf(datasets.items[h].path).None? ==>
              r == Failure(UnsupportedFormat)
    ensures r.Success? ==> h in r.value.1 && r.value.1[h] == r.value.0 && r.value.1 == cache[h := r.value.0]
    ensures r.Success? && h !in cache ==>
              var d := datasets.items[h];
              FormatOf(d.path).Some? && load(FormatOf(d.path).value, d.path, d.columns) == Some(r.value.0)
    ensures r.Failure? <==>
              h !in cache &&
              (h !in datasets.items || FormatOf(datasets.items[h].path).None? ||
               load(FormatOf(datasets.items[h].path).value, datasets.items[h].path, datasets.items[h].columns).None?)
  {
    if h in cache then Success((cache[h], cache))
    else if h !in datasets.items then Failure(KeyError)
    else
      var d := datasets.items[h];
      match FormatOf(d.path)
      case None => Failure(UnsupportedFormat)
      case Some(f) =>
        match load(f, d.path, d.columns)
        case None => Failure(LoadFailed)
        case Some(s) => Success((s, cache[h := s]))
  }

  /** Once a frame is loaded, loading it again gives the same frame and
      changes nothing, whatever the registry or the files now say */
  lemma {:induction false} FetchMemoised(datasets: OrderedMap<Digest, Dataset>, datasets': OrderedMap<Digest, Dataset>,
                      cache: map<Digest, Series>, h: Digest, load: Loader, load': Loader)
    requires Fetch(datasets, cache, h, load).Success?
    ensures var (s, cache1) := Fetch(datasets, cache, h, load).value;
            Fetch(datasets', cache1, h, load') == Success((s, cache1))
  {
  }

  /** The frame cache without the digests no longer registered */
  function Restrict(cache: map<Digest, Series>, live: set<Digest>): (c: map<Digest, Series>)
    ensures c.Keys == cache.Keys * live
    ensures forall h :: h in c ==> c[h] == cache[h]
  {
    map h | h in cache && h in live :: cache[h]
  }

  /** A map with the right keys and the old values is the restriction */
  lemma {:induction false} RestrictByParts(cache: map<Digest, Series>, live: set<Digest>, c: map<Digest, Series>)
    requires c.Keys == cache.Keys * live
    requires forall h :: h in c ==> c[h] == cache[h]
    ensures c == Restrict(cache, live)
  {
  }

  /** Dropping unregistered frames changes no load of a registered digest */
  lemma {:induction false} CleanKeepsLoads(datasets: OrderedMap<Digest, Dataset>, cache: map<Digest, Series>, h: Digest, load: Loader)
    requires h in datasets.items
    ensures var before := Fetch(datasets, cache, h, load);
            var after := Fetch(datasets, Restrict(cache, datasets.items.Keys), h, load);
            (before.Success? <==> after.Success?) && (before.Success? ==> before.value.0 == after.value.0)
  {
  }

  /** Cleaning twice is cleaning once */
  lemma {:induction false} CleanIdempotent(cache: map<Digest, Series>, live: set<Digest>)
    ensures Restrict(Restrict(cache, live), live) == Restrict(cache, live)
  {
  }

  class DatasetManager {
    const dataDir: string
    const cacheDir: string
    var datasets: OrderedMap<Digest, Dataset>
    var datasetCache: map<Digest, Series>

    predicate Valid()
      reads this`datasets
    {
      datasets.Valid()
    }

    /** __init__: empty registry and cache (the loaders table is LoaderFor) */
    constructor(dataDir: string, cacheDir: string)
      ensures Valid()
      ensures this.dataDir == dataDir && this.cacheDir == cacheDir
      ensures datasets == Empty() && datasetCache == map[]
    {
      this.dataDir := dataDir;
      this.cacheDir := cacheDir;
      datasets := Empty();
      datasetCache := map[];
    }

    /** add_dataset: a missing file raises; otherwise the entry for the
      file's digest is written, named by the path's last component, stamped
      with its modification time; the frame cache is not touched */
    method AddDataset(fs: FileSystem, filePath: string, dateColumn: string, valueColumn: string)
      returns (o: Outcome<Error>)
      requires Valid()
      modifies this`datasets
      ensures Valid()
      ensures filePath !in fs ==> o == Fail(FileNotFound) && datasets == old(datasets)
      ensures filePath in fs ==>
                && o == Pass
                && datasets == old(datasets).Put(Hash(fs[filePath].content),
                     Dataset(Basename(filePath), filePath, Columns(dateColumn, valueColumn), fs[filePath].mtime))
    {
      if filePath !in fs {
        return Fail(FileNotFound);
      }
      var h := Hash(fs[filePath].content);
      var stamp := fs[filePath].mtime;
      datasets := datasets.Put(h, Dataset(Basename(filePath), filePath, Columns(dateColumn, valueColumn), stamp));
      o := Pass;
    }

    /** load_dataset */
    method LoadDataset(h: Digest, load: Loader) returns (r: Result<Series, Error>)
      modifies this`datasetCache
      ensures var f := Fetch(datasets, old(datasetCache), h, load);
              && (f.Failure? ==> r == Failure(f.error) && datasetCache == old(datasetCache))
              && (f.Success? ==> r == Success(f.value.0) && datasetCache == f.value.1)
    {
      if h !in datasetCache {
        if h !in datasets.items {
          return Failure(KeyError);
        }
        var d := datasets.items[h];
        var ext := Lower(Extension(d.path));
        var loader := LoaderFor(ext);
        if loader.None? {
          return Failure(UnsupportedFormat);
        }
        var frame := load(loader.value, d.path, d.columns);
        if frame.None? {
          return Failure(LoadFailed);
        }
        datasetCache := datasetCache[h := frame.value];
      }
      return Success(datasetCache[h]);
    }

    /** clean_cache: drop, one by one, every cached digest that is no longer
      registered */
    method CleanCache()
      modifies this`datasetCache
      ensures datasetCache == Restrict(old(datasetCache), datasets.items.Keys)
    {
      var live := datasets.items.Keys;
      var stale := datasetCache.Keys - live;
      while stale != {}
        invariant stale <= datasetCache.Keys && stale !! live
        invariant forall k :: k in datasetCache <==> k in old(datasetCache) && (k in live || k in stale)
        invariant forall k :: k in datasetCache ==> datasetCache[k] == old(datasetCache)[k]
        decreases |stale|
      {
        var h :| h in stale;
        datasetCache := datasetCache - {h};
        stale := stale - {h};
      }
      RestrictByParts(old(datasetCache), live, datasetCache);
    }

    /** get_dataset_pairs: every unordered pair of registered digests once,
      in combinations order */
    function DatasetPairs(): (r: seq<(Digest, Digest)>)
      requires Valid()
      reads this`datasets
      ensures 2 * |r| == |datasets.keys| * (|datasets.keys| - 1)
      ensures Distinct(r)
      ensures forall i :: 0 <= i < |r| ==>
                r[i].0 in datasets.items && r[i].1 in datasets.items && r[i].0 != r[i].1
    {
      var r := Combinations(datasets.keys);
      CombinationsCount(datasets.keys);
      CombinationsDistinct(datasets.keys);
      PairsRegistered(datasets.keys, r);
      r
    }
  }

  /** Every pair drawn from distinct keys joins two different keys */
  lemma {:induction false} PairsRegistered(keys: seq<Digest>, r: seq<(Digest, Digest)>)
    requires Distinct(keys) && r == Combinations(keys)
    ensures forall i :: 0 <= i < |r| ==> r[i].0 in keys && r[i].1 in keys && r[i].0 != r[i].1
  {
    forall i | 0 <= i < |r| ensures r[i].0 in keys && r[i].1 in keys && r[i].0 != r[i].1 {
      CombinationsMembership(keys, r[i].0, r[i].1);
      CombinationsUnordered(keys, r[i].0, r[i].1);
    }
  }

  /** A pair is in get_dataset_pairs exactly when its first digest was
      registered before its second */
  lemma {:induction false} DatasetPairsMembership(m: DatasetManager, x: Digest, y: Digest)
    requires m.Valid()
    ensures (x, y) in m.DatasetPairs() <==>
              exists i, j :: 0 <= i < j < |m.datasets.keys| && m.datasets.keys[i] == x && m.datasets.keys[j] == y
  {
    CombinationsMembership(m.datasets.keys, x, y);
  }
}
