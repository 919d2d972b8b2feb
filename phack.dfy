/** phack.py: FlexibleDatasetManager without timestamps, whose
    find_correlations runs a nested process_pair against the manager's own
    cache. */
module Phack {
  import opened Wrappers
  import opened ContentHash
  import opened Paths
  import opened OrderedMaps
  import opened Pairs
  import opened Datasets
  import opened Scan
  import opened RollingScreen
  import opened PairCache

  /** The window compute_correlation uses when none is given */
  const DefaultWindow: Window := 30

  /** The threshold find_correlations uses when none is given */
  const DefaultThreshold: real := 0.7

  /** dataset_metadata[h]: name and path from the scan; the columns once
      add_dataset has run */
  datatype Metadata = Metadata(name: string, path: string, columns: Option<Columns>)

  /** dataset_configs[h] */
  datatype Config = Config(path: string, columns: Columns)

  datatype Registry = Registry(metadata: OrderedMap<Digest, Metadata>, configs: OrderedMap<Digest, Config>) {
    predicate Valid() {
      metadata.Valid() && configs.Valid()
    }
  }

  /** The entry load_metadata writes for a listed file */
  function Describe(e: DirEntry, path: string): Metadata {
    Metadata(e.name, path, None)
  }

  /** add_dataset(file_path, date_column, value_column): reading the file
      fails for a missing path; the config is written before the metadata
      lookup that raises KeyError */
  function Register(reg: Registry, fs: FileSystem, path: string, cols: Columns): (r: (Outcome<Error>, Registry))
    ensures reg.Valid() ==> r.1.Valid()
    ensures path !in fs ==> r == (Fail(FileNotFound), reg)
    ensures path in fs ==>
              var h := Hash(fs[path].content);
              && (r.0 == Pass <==> h in reg.metadata.items)
              && (r.0.Fail? ==> r.0 == Fail(KeyError) && r.1.metadata == reg.metadata)
              && r.1.configs == reg.configs.Put(h, Config(path, cols))
              && (r.0 == Pass ==> r.1.metadata == reg.metadata.Put(h, reg.metadata.items[h].(columns := Some(cols))))
    ensures r.1.metadata.keys == reg.metadata.keys
  {
    if path !in fs then (Fail(FileNotFound), reg)
    else
      var h := Hash(fs[path].content);
      var configs := reg.configs.Put(h, Config(path, cols));
      if h !in reg.metadata.items then (Fail(KeyError), Registry(reg.metadata, configs))
      else (Pass, Registry(reg.metadata.Put(h, reg.metadata.items[h].(columns := Some(cols))), configs))
  }

  /** load_dataset: ValueError for a suffix it has no reader for; a reader
      that raises (missing file, missing column) raises through */
  function LoadStrict(path: string, cols: Columns, load: Loader): (r: Result<Series, Error>)
    ensures SuffixFormat(path).None? <==> r == Failure(UnsupportedFormat)
    ensures r.Success? <==> SuffixFormat(path).Some? && load(SuffixFormat(path).value, path, cols).Some?
    ensures r.Success? ==> r.value == load(SuffixFormat(path).value, path, cols).value
  {
    match SuffixFormat(path)
    case None => Failure(UnsupportedFormat)
    case Some(f) => match load(f, path, cols) case None => Failure(LoadFailed) case Some(s) => Success(s)
  }

  /** compute_correlation(hash1, hash2, window_size=30): KeyError for a hash
      without config, the loaders' errors, then the rolling screen */
  function ComputeCorrelation(reg: Registry, h1: Digest, h2: Digest, load: Loader, pearson: Pearson,
                              w: Window := DefaultWindow)
    : (r: Result<CorrOutcome, Error>)
    ensures h1 !in reg.configs.items || h2 !in reg.configs.items ==> r == Failure(KeyError)
    ensures r.Success? <==>
              && h1 in reg.configs.items && h2 in reg.configs.items
              && LoadStrict(reg.configs.items[h1].path, reg.configs.items[h1].columns, load).Success?
              && LoadStrict(reg.configs.items[h2].path, reg.configs.items[h2].columns, load).Success?
    ensures r.Success? ==>
              r.value == Screen(LoadStrict(reg.configs.items[h1].path, reg.configs.items[h1].columns, load).value,
                                LoadStrict(reg.configs.items[h2].path, reg.configs.items[h2].columns, load).value,
                                w, pearson)
    // the first load's error wins; the second frame is only read after the first
    ensures h1 in reg.configs.items && h2 in reg.configs.items ==>
              var l1 := LoadStrict(reg.configs.items[h1].path, reg.configs.items[h1].columns, load);
              var l2 := LoadStrict(reg.configs.items[h2].path, reg.configs.items[h2].columns, load);
              && (l1.Failure? ==> r == Failure(l1.error))
              && (l1.Success? && l2.Failure? ==> r == Failure(l2.error))
  {
    if h1 !in reg.configs.items || h2 !in reg.configs.items then Failure(KeyError)
    else
      var c1 := reg.configs.items[h1];
      var c2 := reg.configs.items[h2];
      match LoadStrict(c1.path, c1.columns, load)
      case Failure(e) => Failure(e)
      case Success(s1) =>
        match LoadStrict(c2.path, c2.columns, load)
        case Failure(e) => Failure(e)
        case Success(s2) => Success(Screen(s1, s2, w, pearson))
  }

  /** The miss path of the nested process_pair */
  function PairResult(reg: Registry, threshold: real, load: Loader, pearson: Pearson, h1: Digest, h2: Digest)
    : (r: Result<Option<Record>, Error>)
    ensures var c := ComputeCorrelation(reg, h1, h2, load, pearson);
            && (c.Failure? ==> r == Failure(c.error))
            && (c.Success? && !Qualifies(c.value, threshold) ==> r == Success(None))
            && (c.Success? && Qualifies(c.value, threshold) ==>
                  if h1 in reg.metadata.items && h2 in reg.metadata.items then
                    r == Success(Some(Record(reg.metadata.items[h1].name, reg.metadata.items[h2].name, c.value.max.value)))
                  else r == Failure(KeyError))
    ensures r.Success? && r.value.Some? ==> Abs(r.value.value.correlation) >= threshold
  {
    var c := ComputeCorrelation(reg, h1, h2, load, pearson);
    match c
    case Failure(e) => Failure(e)
    case Success(corr) =>
      if !Qualifies(corr, threshold) then Success(None)
      else if h1 !in reg.metadata.items || h2 !in reg.metadata.items then Failure(KeyError)
      else Success(Some(Record(reg.metadata.items[h1].name, reg.metadata.items[h2].name, corr.max.value)))
  }

  function MissOf(reg: Registry, threshold: real, load: Loader, pearson: Pearson): Miss {
    (h1: Digest, h2: Digest) => PairResult(reg, threshold, load, pearson, h1, h2)
  }

  /** The records found so far, followed by what the rest of the run gives */
  function AfterRun(found: seq<Record>, rest: Result<Run, Error>): Result<Run, Error> {
    match rest
    case Failure(e) => Failure(e)
    case Success(run) => Success(Run(found + run.results, run.cache))
  }

  /** One pair moved from the rest of the sequential run onto the found part */
  lemma {:induction false} AfterRunStep(found: seq<Record>, cache: Cache, pairs: seq<Pair>, miss: Miss)
    requires pairs != [] && StepOf(cache, pairs[0], miss).Success?
    ensures AfterRun(found, RunSequential(cache, pairs, miss)) ==
            AfterRun(found + Keep(StepOf(cache, pairs[0], miss).value.result),
                     RunSequential(StepOf(cache, pairs[0], miss).value.cache, pairs[1..], miss))
  {
    var step := StepOf(cache, pairs[0], miss).value;
    var rest := RunSequential(step.cache, pairs[1..], miss);
    if rest.Success? {
      assert found + (Keep(step.result) + rest.value.results) == found + Keep(step.result) + rest.value.results;
    }
  }

  /** A second find_correlations over the cache the first one left reports
      the same records and leaves that cache as it is */
  lemma {:induction false} FindTwice(reg: Registry, cache: Cache, threshold: real, load: Loader, pearson: Pearson)
    requires reg.Valid()
    requires RunSequential(cache, Combinations(reg.configs.keys), MissOf(reg, threshold, load, pearson)).Success?
    ensures var pairs := Combinations(reg.configs.keys);
            var miss := MissOf(reg, threshold, load, pearson);
            var first := RunSequential(cache, pairs, miss).value;
            RunSequential(first.cache, pairs, miss) == Success(first)
  {
    CombinationKeysDistinct(reg.configs.keys);
    RerunUnchanged(cache, Combinations(reg.configs.keys), MissOf(reg, threshold, load, pearson));
  }

  class FlexibleDatasetManager {
    const dataDir: string
    const cacheDir: string
    var metadata: OrderedMap<Digest, Metadata>
    var configs: OrderedMap<Digest, Config>
    var correlationCache: Cache
    /** The content of correlation_cache.json, None while there is no file */
    var cacheFile: Option<Cache>

    function State(): Registry
      reads this`metadata, this`configs
    {
      Registry(metadata, configs)
    }

    predicate Valid()
      reads this`metadata, this`configs
    {
      State().Valid()
    }

    /** __init__(data_dir, cache_dir) */
    constructor(dataDir: string, cacheDir: string, listing: seq<DirEntry>, cacheFile: Option<Cache>)
      ensures Valid()
      ensures this.dataDir == dataDir && this.cacheDir == cacheDir
      ensures metadata == Scanned(Empty(), dataDir, listing, Describe)
      ensures configs == Empty()
      ensures correlationCache == (if cacheFile.Some? then cacheFile.value else map[])
      ensures this.cacheFile == cacheFile
    {
      this.dataDir := dataDir;
      this.cacheDir := cacheDir;
      metadata := Empty();
      configs := Empty();
      correlationCache := map[];
      this.cacheFile := cacheFile;
      new;
      LoadMetadata(listing);
      LoadCache();
    }

    /** load_metadata */
    method LoadMetadata(listing: seq<DirEntry>)
      requires Valid()
      modifies this`metadata
      ensures Valid()
      ensures metadata == Scanned(old(metadata), dataDir, listing, Describe)
    {
      var i := 0;
      while i < |listing|
        invariant 0 <= i <= |listing|
        invariant metadata == Scanned(old(metadata), dataDir, listing[..i], Describe)
      {
        var e := listing[i];
        assert listing[..i + 1][..i] == listing[..i];
        if HasDatasetSuffix(e.name) {
          metadata := metadata.Put(Hash(e.content), Metadata(e.name, Join(dataDir, e.name), None));
        }
        i := i + 1;
      }
      assert listing[..i] == listing;
      ScannedValid(old(metadata), dataDir, listing, Describe);
    }

    /** load_cache */
    method LoadCache()
      modifies this`correlationCache
      ensures correlationCache == if cacheFile.Some? then cacheFile.value else old(correlationCache)
    {
      if cacheFile.Some? {
        correlationCache := cacheFile.value;
      }
    }

    /** save_cache */
    method SaveCache()
      modifies this`cacheFile
      ensures cacheFile == Some(correlationCache)
    {
      cacheFile := Some(correlationCache);
    }

    /** add_dataset */
    method AddDataset(fs: FileSystem, filePath: string, dateColumn: string, valueColumn: string)
      returns (o: Outcome<Error>)
      requires Valid()
      modifies this`metadata, this`configs
      ensures Valid()
      ensures (o, State()) == Register(old(State()), fs, filePath, Columns(dateColumn, valueColumn))
    {
      if filePath !in fs {
        return Fail(FileNotFound);
      }
      var h := Hash(fs[filePath].content);
      configs := configs.Put(h, Config(filePath, Columns(dateColumn, valueColumn)));
      if h !in metadata.items {
        return Fail(KeyError);
      }
      metadata := metadata.Put(h, metadata.items[h].(columns := Some(Columns(dateColumn, valueColumn))));
      o := Pass;
    }

    /** find_correlations(threshold=0.7): every pair of configured datasets
      in combinations order through process_pair, each seeing the cache as
      the pairs before it left it; the records kept; save_cache on success.
      After an exception the cache holds what the pairs before it stored. */
    method FindCorrelations(load: Loader, pearson: Pearson, threshold: real := DefaultThreshold)
      returns (r: Result<seq<Record>, Error>)
      requires Valid()
      modifies this`correlationCache, this`cacheFile
      ensures var run := RunSequential(old(correlationCache), Combinations(old(configs).keys),
                                       MissOf(old(State()), threshold, load, pearson));
              && (run.Failure? ==> r == Failure(run.error) && cacheFile == old(cacheFile))
              && (run.Success? ==> r == Success(run.value.results) && correlationCache == run.value.cache
                                   && cacheFile == Some(correlationCache))
      ensures Extends(old(correlationCache), correlationCache)
    {
      r := RunPairs(Combinations(configs.keys), MissOf(State(), threshold, load, pearson));
      if r.Success? {
        SaveCache();
      }
    }

    /** The loop of find_correlations: the pairs in turn through
      process_pair with the miss path miss, each seeing the cache as the
      pairs before it left it; the first exception ends the loop */
    method RunPairs(pairs: seq<Pair>, miss: Miss) returns (r: Result<seq<Record>, Error>)
      modifies this`correlationCache
      ensures var run := RunSequential(old(correlationCache), pairs, miss);
              && (run.Failure? ==> r == Failure(run.error))
              && (run.Success? ==> r == Success(run.value.results) && correlationCache == run.value.cache)
      ensures Extends(old(correlationCache), correlationCache)
    {
      var found: seq<Record> := [];
      var i := 0;
      assert pairs[0..] == pairs;
      match RunSequential(correlationCache, pairs, miss) {
        case Success(run) => assert [] + run.results == run.results;
        case Failure(_) =>
      }
      while i < |pairs|
        invariant 0 <= i <= |pairs|
        invariant Extends(old(correlationCache), correlationCache)
        invariant RunSequential(old(correlationCache), pairs, miss) ==
                  AfterRun(found, RunSequential(correlationCache, pairs[i..], miss))
      {
        assert pairs[i..][1..] == pairs[i + 1..];
        var step := StepOf(correlationCache, pairs[i], miss);
        if step.Failure? {
          return Failure(step.error);
        }
        AfterRunStep(found, correlationCache, pairs[i..], miss);
        ExtendsTrans(old(correlationCache), correlationCache, step.value.cache);
        found := found + Keep(step.value.result);
        correlationCache := step.value.cache;
        i := i + 1;
      }
      assert found + [] == found;
      return Success(found);
    }
  }
}
