/** phackt.py: FlexibleDatasetManager with timestamps, the module-level
    process_pair, and the pair search of main. */
module Phackt {
  import opened Wrappers
  import opened ContentHash
  import opened Paths
  import opened OrderedMaps
  import opened Pairs
  import opened Datasets
  import opened Scan
  import opened RollingScreen
  import opened PairCache

  /** dataset_metadata[h]: name, path and timestamp from the scan; the
      columns once add_dataset has run */
  datatype Metadata = Metadata(name: string, path: string, timestamp: Timestamp, columns: Option<Columns>)

  /** dataset_configs[h] */
  datatype Config = Config(path: string, columns: Columns, timestamp: Timestamp)

  /** The two dicts of the manager */
  datatype Registry = Registry(metadata: OrderedMap<Digest, Metadata>, configs: OrderedMap<Digest, Config>) {
    predicate Valid() {
      metadata.Valid() && configs.Valid()
    }
  }

  /** The entry load_metadata writes for a listed file */
  function Describe(e: DirEntry, path: string): Metadata {
    Metadata(e.name, path, e.mtime, None)
  }

  /** add_dataset(path, date_column, value_column).  The write to
      dataset_configs happens before the lookup of dataset_metadata[h] that
      raises KeyError, so a failing call still leaves that write behind. */
  function Register(reg: Registry, fs: FileSystem, path: string, cols: Columns): (r: (Outcome<Error>, Registry))
    ensures reg.Valid() ==> r.1.Valid()
    ensures r.1.metadata.keys == reg.metadata.keys
  {
    if path !in fs then (Fail(FileNotFound), reg)
    else
      var f := fs[path];
      var h := Hash(f.content);
      var configs := reg.configs.Put(h, Config(path, cols, f.mtime));
      if h !in reg.metadata.items then (Fail(KeyError), Registry(reg.metadata, configs))
      else
        var md := reg.metadata.items[h];
        (Pass, Registry(reg.metadata.Put(h, md.(timestamp := f.mtime, columns := Some(cols))), configs))
  }

  /** What add_dataset does: a missing file raises before anything changes;
      otherwise the config under the file's digest is written, and the
      metadata entry takes the columns and the file's time if it exists,
      KeyError if it does not; every other digest is left alone */
  lemma {:induction false} RegisterEffect(reg: Registry, fs: FileSystem, path: string, cols: Columns)
    ensures var r := Register(reg, fs, path, cols);
            && (path !in fs ==> r == (Fail(FileNotFound), reg))
            && (path in fs ==>
                  var h := Hash(fs[path].content);
                  && (r.0 == Pass <==> h in reg.metadata.items)
                  && (r.0.Fail? ==> r.0 == Fail(KeyError) && r.1.metadata == reg.metadata)
                  && h in r.1.configs.items
                  && r.1.configs.items[h] == Config(path, cols, fs[path].mtime)
                  && (r.0 == Pass ==>
                        var md := reg.metadata.items[h];
                        h in r.1.metadata.items &&
                        r.1.metadata.items[h] == Metadata(md.name, md.path, fs[path].mtime, Some(cols)))
                  && (forall k :: k != h ==> Untouched(reg, r.1, k)))
  {
  }

  /** date_column_map.get(name, (None, None)), kept only when both names
      are non-empty (truthy) */
  function ColumnsFor(columnMap: map<string, (string, string)>, name: string): Option<Columns> {
    if name in columnMap && columnMap[name].0 != "" && columnMap[name].1 != "" then
      Some(Columns(columnMap[name].0, columnMap[name].1))
    else None
  }

  /** The entry has no config yet, or one with another timestamp */
  predicate Stale(reg: Registry, h: Digest)
    requires h in reg.metadata.items
  {
    h !in reg.configs.items || reg.configs.items[h].timestamp != reg.metadata.items[h].timestamp
  }

  /** update_datasets from the i-th metadata key on: add_dataset for every
      stale entry whose name has both columns; the first exception ends it */
  function Refresh(reg: Registry, fs: FileSystem, columnMap: map<string, (string, string)>, i: nat)
    : (r: (Outcome<Error>, Registry))
    requires reg.Valid()
    ensures r.1.Valid() && r.1.metadata.keys == reg.metadata.keys
    decreases |reg.metadata.keys| - i
  {
    if i >= |reg.metadata.keys| then (Pass, reg)
    else
      var h := reg.metadata.keys[i];
      var md := reg.metadata.items[h];
      var cols := ColumnsFor(columnMap, md.name);
      if Stale(reg, h) && cols.Some? then
        var (o, next) := Register(reg, fs, md.path, cols.value);
        if o.Fail? then (o, next) else Refresh(next, fs, columnMap, i + 1)
      else Refresh(reg, fs, columnMap, i + 1)
  }

  /** update_datasets passes over an entry that is current or not mapped
      to both columns */
  lemma {:induction false} RefreshSkip(reg: Registry, fs: FileSystem, columnMap: map<string, (string, string)>, i: nat)
    requires reg.Valid() && i < |reg.metadata.keys|
    requires var h := reg.metadata.keys[i];
             !(Stale(reg, h) && ColumnsFor(columnMap, reg.metadata.items[h].name).Some?)
    ensures Refresh(reg, fs, columnMap, i) == Refresh(reg, fs, columnMap, i + 1)
  {
  }

  /** update_datasets calls add_dataset on a stale entry mapped to both
      columns and goes on from its result unless it raises */
  lemma {:induction false} RefreshCall(reg: Registry, fs: FileSystem, columnMap: map<string, (string, string)>, i: nat)
    requires reg.Valid() && i < |reg.metadata.keys|
    requires var h := reg.metadata.keys[i];
             Stale(reg, h) && ColumnsFor(columnMap, reg.metadata.items[h].name).Some?
    ensures var h := reg.metadata.keys[i];
            var md := reg.metadata.items[h];
            var (o, next) := Register(reg, fs, md.path, ColumnsFor(columnMap, md.name).value);
            Refresh(reg, fs, columnMap, i) == if o.Fail? then (o, next) else Refresh(next, fs, columnMap, i + 1)
  {
  }

  /** The files still are what the scan saw: every entry's path holds bytes
      with that digest and the recorded modification time */
  predicate Consistent(reg: Registry, fs: FileSystem) {
    forall h :: h in reg.metadata.items ==>
      var md := reg.metadata.items[h];
      md.path in fs && Hash(fs[md.path].content) == h && fs[md.path].mtime == md.timestamp
  }

  /** Nothing is left for update_datasets to do */
  predicate Settled(reg: Registry, columnMap: map<string, (string, string)>) {
    forall h :: h in reg.metadata.items ==> !(Stale(reg, h) && ColumnsFor(columnMap, reg.metadata.items[h].name).Some?)
  }

  /** Key h is the same in both registries */
  predicate Untouched(reg: Registry, out: Registry, h: Digest) {
    && (h in out.metadata.items <==> h in reg.metadata.items)
    && (h in out.configs.items <==> h in reg.configs.items)
    && (h in reg.metadata.items ==> out.metadata.items[h] == reg.metadata.items[h])
    && (h in reg.configs.items ==> out.configs.items[h] == reg.configs.items[h])
  }

  /** What update_datasets does to entry h: refreshed, with the config
      taking the entry's own timestamp, if it was stale and mapped to both
      columns; untouched otherwise */
  predicate Processed(reg: Registry, out: Registry, columnMap: map<string, (string, string)>, h: Digest)
    requires h in reg.metadata.items
  {
    var md := reg.metadata.items[h];
    var cols := ColumnsFor(columnMap, md.name);
    if Stale(reg, h) && cols.Some? then
      && h in out.metadata.items && out.metadata.items[h] == md.(columns := cols)
      && h in out.configs.items && out.configs.items[h] == Config(md.path, cols.value, md.timestamp)
    else Untouched(reg, out, h)
  }

  /** One add_dataset call of update_datasets on an entry whose file
      matches the scan succeeds and keeps the registry consistent */
  lemma {:induction false} RegisterKeeps(reg: Registry, fs: FileSystem, h: Digest, cols: Columns)
    requires reg.Valid() && Consistent(reg, fs) && h in reg.metadata.items
    ensures var (o, next) := Register(reg, fs, reg.metadata.items[h].path, cols);
            o == Pass && next.Valid() && Consistent(next, fs)
  {
    var path := reg.metadata.items[h].path;
    RegisterEffect(reg, fs, path, cols);
    var next := Register(reg, fs, path, cols).1;
    forall k | k in next.metadata.items
      ensures var md := next.metadata.items[k];
              md.path in fs && Hash(fs[md.path].content) == k && fs[md.path].mtime == md.timestamp
    {
      assert k in reg.metadata.items;
    }
  }

  /** One add_dataset call of update_datasets on an entry whose file
      matches the scan refreshes entry h and no other */
  lemma {:induction false} RegisterStep(reg: Registry, fs: FileSystem, h: Digest, cols: Columns)
    requires reg.Valid() && Consistent(reg, fs) && h in reg.metadata.items
    ensures var (o, next) := Register(reg, fs, reg.metadata.items[h].path, cols);
            var md := reg.metadata.items[h];
            && o == Pass && next.Valid() && Consistent(next, fs)
            && next.metadata.keys == reg.metadata.keys
            && h in next.metadata.items && next.metadata.items[h] == md.(columns := Some(cols))
            && h in next.configs.items && next.configs.items[h] == Config(md.path, cols, md.timestamp)
            && (forall k :: k != h ==> Untouched(reg, next, k))
  {
    RegisterKeeps(reg, fs, h, cols);
    RegisterEffect(reg, fs, reg.metadata.items[h].path, cols);
  }

  /** An entry another call left alone is processed from the result as it
      is from the start */
  lemma {:induction false} ProcessedThrough(reg: Registry, next: Registry, out: Registry, columnMap: map<string, (string, string)>, k: Digest)
    requires k in reg.metadata.items && Untouched(reg, next, k) && Processed(next, out, columnMap, k)
    ensures Processed(reg, out, columnMap, k)
  {
  }

  /** Two calls that both leave entry k alone leave it alone together */
  lemma {:induction false} UntouchedThrough(reg: Registry, next: Registry, out: Registry, k: Digest)
    requires Untouched(reg, next, k) && Untouched(next, out, k)
    ensures Untouched(reg, out, k)
  {
  }

  /** On files that match the scan, update_datasets raises nothing and
      leaves the registry consistent with them */
  lemma {:induction false} RefreshPass(reg: Registry, fs: FileSystem, columnMap: map<string, (string, string)>, i: nat)
    requires reg.Valid() && Consistent(reg, fs)
    ensures Refresh(reg, fs, columnMap, i).0 == Pass
    ensures Consistent(Refresh(reg, fs, columnMap, i).1, fs)
    decreases |reg.metadata.keys| - i
  {
    if i < |reg.metadata.keys| {
      var h := reg.metadata.keys[i];
      var md := reg.metadata.items[h];
      var cols := ColumnsFor(columnMap, md.name);
      if Stale(reg, h) && cols.Some? {
        RegisterKeeps(reg, fs, h, cols.value);
        var next := Register(reg, fs, md.path, cols.value).1;
        RefreshPass(next, fs, columnMap, i + 1);
        RefreshCall(reg, fs, columnMap, i);
      } else {
        RefreshSkip(reg, fs, columnMap, i);
        RefreshPass(reg, fs, columnMap, i + 1);
      }
    }
  }

  /** What update_datasets from index i does to entry k: processed if k is
      at index i or later, untouched if it comes before */
  lemma {:induction false} RefreshKey(reg: Registry, fs: FileSystem, columnMap: map<string, (string, string)>, i: nat, k: Digest)
    requires reg.Valid() && Consistent(reg, fs) && k in reg.metadata.items && i <= |reg.metadata.keys|
    ensures k in reg.metadata.keys[i..] ==> Processed(reg, Refresh(reg, fs, columnMap, i).1, columnMap, k)
    ensures k !in reg.metadata.keys[i..] ==> Untouched(reg, Refresh(reg, fs, columnMap, i).1, k)
    decreases |reg.metadata.keys| - i
  {
    var keys := reg.metadata.keys;
    if i < |keys| {
      var h := keys[i];
      var md := reg.metadata.items[h];
      var cols := ColumnsFor(columnMap, md.name);
      DistinctTail(keys[i..]);
      assert keys[i..] == [h] + keys[i + 1..];
      if Stale(reg, h) && cols.Some? {
        RefreshKeyStale(reg, fs, columnMap, i, k);
      } else {
        RefreshSkip(reg, fs, columnMap, i);
        RefreshKey(reg, fs, columnMap, i + 1, k);
      }
    }
  }

  /** The step of RefreshKey where the entry at index i is refreshed */
  lemma {:induction false} RefreshKeyStale(reg: Registry, fs: FileSystem, columnMap: map<string, (string, string)>, i: nat, k: Digest)
    requires reg.Valid() && Consistent(reg, fs) && k in reg.metadata.items && i < |reg.metadata.keys|
    requires var h := reg.metadata.keys[i];
             Stale(reg, h) && ColumnsFor(columnMap, reg.metadata.items[h].name).Some?
    ensures k in reg.metadata.keys[i..] ==> Processed(reg, Refresh(reg, fs, columnMap, i).1, columnMap, k)
    ensures k !in reg.metadata.keys[i..] ==> Untouched(reg, Refresh(reg, fs, columnMap, i).1, k)
    decreases |reg.metadata.keys| - i, 0
  {
    var keys := reg.metadata.keys;
    var h := keys[i];
    var md := reg.metadata.items[h];
    var cols := ColumnsFor(columnMap, md.name).value;
    DistinctTail(keys[i..]);
    assert keys[i..] == [h] + keys[i + 1..];
    RegisterStep(reg, fs, h, cols);
    var next := Register(reg, fs, md.path, cols).1;
    RefreshCall(reg, fs, columnMap, i);
    var out := Refresh(next, fs, columnMap, i + 1).1;
    RefreshKey(next, fs, columnMap, i + 1, k);
    if k != h {
      assert Untouched(reg, next, k);
      assert (k in keys[i..]) == (k in keys[i + 1..]);
      if k in keys[i + 1..] {
        ProcessedThrough(reg, next, out, columnMap, k);
      } else {
        UntouchedThrough(reg, next, out, k);
      }
    } else {
      assert Untouched(next, out, h);
    }
  }

  /** update_datasets as a whole: on files that match the scan it succeeds,
      refreshes exactly the stale entries that have both columns mapped and
      leaves every other entry alone */
  lemma {:induction false} RefreshEffect(reg: Registry, fs: FileSystem, columnMap: map<string, (string, string)>)
    requires reg.Valid() && Consistent(reg, fs)
    ensures Refresh(reg, fs, columnMap, 0).0 == Pass
    ensures Consistent(Refresh(reg, fs, columnMap, 0).1, fs)
    ensures forall k :: k in reg.metadata.items ==> Processed(reg, Refresh(reg, fs, columnMap, 0).1, columnMap, k)
  {
    RefreshPass(reg, fs, columnMap, 0);
    forall k | k in reg.metadata.items ensures Processed(reg, Refresh(reg, fs, columnMap, 0).1, columnMap, k) {
      assert reg.metadata.keys[0..] == reg.metadata.keys;
      RefreshKey(reg, fs, columnMap, 0, k);
    }
  }

  /** With nothing left to do, update_datasets changes nothing */
  lemma {:induction false} RefreshSettled(reg: Registry, fs: FileSystem, columnMap: map<string, (string, string)>, i: nat)
    requires reg.Valid() && Settled(reg, columnMap)
    ensures Refresh(reg, fs, columnMap, i) == (Pass, reg)
    decreases |reg.metadata.keys| - i
  {
    if i < |reg.metadata.keys| {
      RefreshSettled(reg, fs, columnMap, i + 1);
    }
  }

  /** A second update_datasets over unchanged files with the same map
      changes nothing */
  lemma {:induction false} RefreshIdempotent(reg: Registry, fs: FileSystem, columnMap: map<string, (string, string)>)
    requires reg.Valid() && Consistent(reg, fs)
    ensures Refresh(reg, fs, columnMap, 0).0 == Pass
    ensures Refresh(Refresh(reg, fs, columnMap, 0).1, fs, columnMap, 0) == (Pass, Refresh(reg, fs, columnMap, 0).1)
  {
    var out := Refresh(reg, fs, columnMap, 0).1;
    RefreshEffect(reg, fs, columnMap);
    forall h | h in out.metadata.items
      ensures !(Stale(out, h) && ColumnsFor(columnMap, out.metadata.items[h].name).Some?)
    {
      assert Processed(reg, out, columnMap, h);
    }
    RefreshSettled(out, fs, columnMap, 0);
  }

  /** load_dataset: never raises; an unsupported suffix or a reader that
      raises gives an empty frame */
  function LoadOrEmpty(path: string, cols: Columns, load: Loader): (s: Series)
    ensures SuffixFormat(path).None? ==> s == []
    ensures SuffixFormat(path).Some? && load(SuffixFormat(path).value, path, cols).None? ==> s == []
    ensures SuffixFormat(path).Some? && load(SuffixFormat(path).value, path, cols).Some? ==>
              s == load(SuffixFormat(path).value, path, cols).value
  {
    match SuffixFormat(path)
    case None => []
    case Some(f) => match load(f, path, cols) case None => [] case Some(s) => s
  }

  /** compute_correlation(h1, h2, window_size): KeyError for a hash without
      config, otherwise the rolling screen on the two loaded frames */
  function ComputeCorrelation(reg: Registry, h1: Digest, h2: Digest, w: Window, load: Loader, pearson: Pearson)
    : (r: Result<CorrOutcome, Error>)
    ensures r.Failure? <==> h1 !in reg.configs.items || h2 !in reg.configs.items
    ensures r.Failure? ==> r.error == KeyError
    ensures r.Success? ==>
              r.value == Screen(LoadOrEmpty(reg.configs.items[h1].path, reg.configs.items[h1].columns, load),
                                LoadOrEmpty(reg.configs.items[h2].path, reg.configs.items[h2].columns, load),
                                w, pearson)
  {
    if h1 !in reg.configs.items || h2 !in reg.configs.items then Failure(KeyError)
    else
      var c1 := reg.configs.items[h1];
      var c2 := reg.configs.items[h2];
      Success(Screen(LoadOrEmpty(c1.path, c1.columns, load), LoadOrEmpty(c2.path, c2.columns, load), w, pearson))
  }

  /** A dataset that fails to load makes its pairs "insufficient data" */
  lemma {:induction false} FailedLoadIsInsufficient(reg: Registry, h1: Digest, h2: Digest, w: Window, load: Loader, pearson: Pearson)
    requires h1 in reg.configs.items && h2 in reg.configs.items
    requires LoadOrEmpty(reg.configs.items[h1].path, reg.configs.items[h1].columns, load) == [] ||
             LoadOrEmpty(reg.configs.items[h2].path, reg.configs.items[h2].columns, load) == []
    ensures ComputeCorrelation(reg, h1, h2, w, load, pearson) == Success(InsufficientData)
  {
  }

  /** The miss path of process_pair: the score of the pair, None when it
      does not pass the threshold, the record with both names when it does */
  function PairResult(reg: Registry, threshold: real, w: Window, load: Loader, pearson: Pearson, h1: Digest, h2: Digest)
    : (r: Result<Option<Record>, Error>)
    ensures var c := ComputeCorrelation(reg, h1, h2, w, load, pearson);
            && (c.Failure? ==> r == Failure(c.error))
            && (c.Success? && !Qualifies(c.value, threshold) ==> r == Success(None))
            && (c.Success? && Qualifies(c.value, threshold) ==>
                  if h1 in reg.metadata.items && h2 in reg.metadata.items then
                    r == Success(Some(Record(reg.metadata.items[h1].name, reg.metadata.items[h2].name, c.value.max.value)))
                  else r == Failure(KeyError))
    ensures r.Success? && r.value.Some? ==> Abs(r.value.value.correlation) >= threshold
  {
    var c := ComputeCorrelation(reg, h1, h2, w, load, pearson);
    match c
    case Failure(e) => Failure(e)
    case Success(corr) =>
      if !Qualifies(corr, threshold) then Success(None)
      else if h1 !in reg.metadata.items || h2 !in reg.metadata.items then Failure(KeyError)
      else Success(Some(Record(reg.metadata.items[h1].name, reg.metadata.items[h2].name, corr.max.value)))
  }

  function MissOf(reg: Registry, threshold: real, w: Window, load: Loader, pearson: Pearson): Miss {
    (h1: Digest, h2: Digest) => PairResult(reg, threshold, w, load, pearson, h1, h2)
  }

  /** The pool in main hands every worker a pickled copy of the manager, so
      each pair is looked up in the cache as loaded; with distinct keys this
      reports what one process running the pairs in turn would report */
  lemma {:induction false} PoolMatchesSequential(reg: Registry, cache: Cache, threshold: real, w: Window, load: Loader, pearson: Pearson)
    requires reg.Valid()
    ensures var pairs := Combinations(reg.configs.keys);
            var miss := MissOf(reg, threshold, w, load, pearson);
            && (RunSnapshot(cache, pairs, miss).Success? <==> RunSequential(cache, pairs, miss).Success?)
            && (RunSnapshot(cache, pairs, miss).Success? ==>
                  RunSnapshot(cache, pairs, miss).value == RunSequential(cache, pairs, miss).value.results)
  {
    CombinationKeysDistinct(reg.configs.keys);
    SnapshotMatchesSequential(cache, cache, Combinations(reg.configs.keys), MissOf(reg, threshold, w, load, pearson));
  }

  class FlexibleDatasetManager {
    const dataDir: string
    const cacheDir: string
    const outputDir: string
    var metadata: OrderedMap<Digest, Metadata>
    var configs: OrderedMap<Digest, Config>
    var correlationCache: Cache
    /** The content of correlation_cache.json, None while there is no file */
    var cacheFile: Option<Cache>

    function State(): Registry
      reads this`metadata, this`configs
    {
      Registry(metadata, configs)
    }

    predicate Valid()
      reads this`metadata, this`configs
    {
      State().Valid()
    }

    /** __init__: scan the directory, then read the cache file if present */
    constructor(dataDir: string, cacheDir: string, outputDir: string, listing: seq<DirEntry>, cacheFile: Option<Cache>)
      ensures Valid()
      ensures this.dataDir == dataDir && this.cacheDir == cacheDir && this.outputDir == outputDir
      ensures metadata == Scanned(Empty(), dataDir, listing, Describe)
      ensures configs == Empty()
      ensures correlationCache == (if cacheFile.Some? then cacheFile.value else map[])
      ensures this.cacheFile == cacheFile
    {
      this.dataDir := dataDir;
      this.cacheDir := cacheDir;
      this.outputDir := outputDir;
      metadata := Empty();
      configs := Empty();
      correlationCache := map[];
      this.cacheFile := cacheFile;
      new;
      LoadMetadata(listing);
      LoadCache();
    }

    /** load_metadata */
    method LoadMetadata(listing: seq<DirEntry>)
      requires Valid()
      modifies this`metadata
      ensures Valid()
      ensures metadata == Scanned(old(metadata), dataDir, listing, Describe)
    {
      var i := 0;
      while i < |listing|
        invariant 0 <= i <= |listing|
        invariant metadata == Scanned(old(metadata), dataDir, listing[..i], Describe)
      {
        var e := listing[i];
        assert listing[..i + 1][..i] == listing[..i];
        if HasDatasetSuffix(e.name) {
          var path := Join(dataDir, e.name);
          metadata := metadata.Put(Hash(e.content), Metadata(e.name, path, e.mtime, None));
        }
        i := i + 1;
      }
      assert listing[..i] == listing;
      ScannedValid(old(metadata), dataDir, listing, Describe);
    }

    /** load_cache */
    method LoadCache()
      modifies this`correlationCache
      ensures correlationCache == if cacheFile.Some? then cacheFile.value else old(correlationCache)
    {
      if cacheFile.Some? {
        correlationCache := cacheFile.value;
      }
    }

    /** save_cache: the file is replaced by the in-memory cache */
    method SaveCache()
      modifies this`cacheFile
      ensures cacheFile == Some(correlationCache)
    {
      cacheFile := Some(correlationCache);
    }

    /** add_dataset */
    method AddDataset(fs: FileSystem, filePath: string, dateColumn: string, valueColumn: string)
      returns (o: Outcome<Error>)
      requires Valid()
      modifies this`metadata, this`configs
      ensures Valid()
      ensures (o, State()) == Register(old(State()), fs, filePath, Columns(dateColumn, valueColumn))
    {
      if filePath !in fs {
        return Fail(FileNotFound);
      }
      var h := Hash(fs[filePath].content);
      var stamp := fs[filePath].mtime;
      configs := configs.Put(h, Config(filePath, Columns(dateColumn, valueColumn), stamp));
      if h !in metadata.items {
        return Fail(KeyError);
      }
      var md := metadata.items[h];
      metadata := metadata.Put(h, md.(timestamp := stamp, columns := Some(Columns(dateColumn, valueColumn))));
      o := Pass;
    }

    /** update_datasets(date_column_map) */
    method UpdateDatasets(fs: FileSystem, columnMap: map<string, (string, string)>) returns (o: Outcome<Error>)
      requires Valid()
      modifies this`metadata, this`configs
      ensures Valid()
      ensures (o, State()) == Refresh(old(State()), fs, columnMap, 0)
    {
      var i := 0;
      while i < |metadata.keys|
        invariant Valid()
        invariant metadata.keys == old(metadata.keys)
        invariant 0 <= i <= |metadata.keys|
        invariant Refresh(old(State()), fs, columnMap, 0) == Refresh(State(), fs, columnMap, i)
        decreases |metadata.keys| - i
      {
        var h := metadata.keys[i];
        var md := metadata.items[h];
        var cols := ColumnsFor(columnMap, md.name);
        if (h !in configs.items || configs.items[h].timestamp != md.timestamp) && cols.Some? {
          o := AddDataset(fs, md.path, cols.value.date, cols.value.value);
          if o.Fail? {
            return;
          }
        }
        i := i + 1;
      }
      o := Pass;
    }
  }

  /** process_pair(pair, manager, threshold, window_size, plot) */
  method ProcessPair(pair: Pair, manager: FlexibleDatasetManager, threshold: real, windowSize: Window,
                     load: Loader, pearson: Pearson)
    returns (r: Result<Option<Record>, Error>)
    modifies manager`correlationCache
    ensures var step := StepOf(old(manager.correlationCache), pair, MissOf(manager.State(), threshold, windowSize, load, pearson));
            && (step.Failure? ==> r == Failure(step.error) && manager.correlationCache == old(manager.correlationCache))
            && (step.Success? ==> r == Success(step.value.result) && manager.correlationCache == step.value.cache)
  {
    var (h1, h2) := pair;
    var key := CacheKey(h1, h2);
    if key in manager.correlationCache {
      return Success(Some(manager.correlationCache[key]));
    }
    var corr := ComputeCorrelation(manager.State(), h1, h2, windowSize, load, pearson);
    if corr.Failure? {
      return Failure(corr.error);
    }
    if Qualifies(corr.value, threshold) {
      if h1 !in manager.metadata.items || h2 !in manager.metadata.items {
        return Failure(KeyError);
      }
      var result := Record(manager.metadata.items[h1].name, manager.metadata.items[h2].name, corr.value.max.value);
      manager.correlationCache := manager.correlationCache[key := result];
      return Success(Some(result));
    }
    return Success(None);
  }

  /** The records found so far, followed by what the rest of the run gives */
  function After(found: seq<Record>, rest: Result<seq<Record>, Error>): Result<seq<Record>, Error> {
    match rest
    case Failure(e) => Failure(e)
    case Success(rs) => Success(found + rs)
  }

  /** One pair of the snapshot run moved from the rest onto the found part */
  lemma {:induction false} AfterStep(found: seq<Record>, cache: Cache, pairs: seq<Pair>, miss: Miss)
    requires pairs != [] && StepOf(cache, pairs[0], miss).Success?
    ensures After(found, RunSnapshot(cache, pairs, miss)) ==
            After(found + Keep(StepOf(cache, pairs[0], miss).value.result), RunSnapshot(cache, pairs[1..], miss))
  {
    var rest := RunSnapshot(cache, pairs[1..], miss);
    if rest.Success? {
      var k := Keep(StepOf(cache, pairs[0], miss).value.result);
      assert found + (k + rest.value) == found + k + rest.value;
    }
  }

  /** The search of main: update_datasets, every pair of configured
      datasets through the pool (each worker on a copy of the manager; the
      parent's cache is not written), the records kept, save_cache */
  method Mine(manager: FlexibleDatasetManager, fs: FileSystem, columnMap: map<string, (string, string)>,
              threshold: real, windowSize: Window, load: Loader, pearson: Pearson)
    returns (r: Result<seq<Record>, Error>)
    requires manager.Valid()
    modifies manager`metadata, manager`configs, manager`cacheFile
    ensures manager.Valid()
    ensures var (o, reg) := Refresh(old(manager.State()), fs, columnMap, 0);
            && manager.State() == reg
            && (o.Fail? ==> r == Failure(o.error))
            && (o == Pass ==> r == RunSnapshot(manager.correlationCache, Combinations(reg.configs.keys),
                                               MissOf(reg, threshold, windowSize, load, pearson)))
    ensures manager.cacheFile == if r.Success? then Some(manager.correlationCache) else old(manager.cacheFile)
  {
    var o := manager.UpdateDatasets(fs, columnMap);
    if o.Fail? {
      return Failure(o.error);
    }
    var pairs := Combinations(manager.configs.keys);
    var miss := MissOf(manager.State(), threshold, windowSize, load, pearson);
    var snapshot := manager.correlationCache;
    var found: seq<Record> := [];
    var i := 0;
    assert pairs[0..] == pairs;
    match RunSnapshot(snapshot, pairs, miss) {
      case Success(rs) => assert [] + rs == rs;
      case Failure(_) =>
    }
    while i < |pairs|
      invariant 0 <= i <= |pairs|
      invariant RunSnapshot(snapshot, pairs, miss) == After(found, RunSnapshot(snapshot, pairs[i..], miss))
      modifies {}
    {
      assert pairs[i..][1..] == pairs[i + 1..];
      var step := StepOf(snapshot, pairs[i], miss);
      if step.Failure? {
        return Failure(step.error);
      }
      AfterStep(found, snapshot, pairs[i..], miss);
      found := found + Keep(step.value.result);
      i := i + 1;
    }
    assert found + [] == found;
    manager.SaveCache();
    return Success(found);
  }
}
