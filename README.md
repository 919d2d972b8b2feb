# d-phacktorator bookkeeping, modelled in Dafny

d-phacktorator mines spurious correlations. It scans a directory of dataset
files, keys each one by the MD5 digest of its bytes, enumerates every unordered
pair of datasets, screens each pair with a rolling-window Pearson correlation,
and caches the screened pairs that pass a threshold. `dphack.py` also runs a
(window, shift) grid search on one sea-surface-temperature / temperature pair.

This project models the bookkeeping around that mining. The statistics
themselves are not modelled. The model covers:

- **Dataset registries.**
  - `FlexibleDatasetManager` of `phackt.py` is modelled in module `Phackt`. It
    keeps timestamps and has `update_datasets`.
  - `FlexibleDatasetManager` of `phack.py` is modelled in module `Phack`.
  - `DatasetManager` of the two identical `dataset_manager.py` copies
    (`dphackt/build/lib/src/dphackt/` and `dphackt/build/lib/build/lib/src/dphackt/`)
    is modelled once, in module `DatasetRegistry`. Its rows below cite one
    copy or the other; the same lines hold in both.

  Each is a `class` whose dict fields are Dafny fields. Python's
  insertion-ordered dicts become `OrderedMap` values (a map plus the key
  order), because `combinations` depends on that order. The directory scan
  (`Scan`) is shared by both scripts.
- **Pair-result cache and threshold gate.** `process_pair` of both scripts and
  `CorrelationAnalysis.process` are modelled in modules `PairCache` and
  `AnalysisTasks`. This covers the string key, the hit and miss paths, and
  the "insufficient data" check. The screen itself (module `RollingScreen`)
  covers the inner join, the `iloc[w-1::2]` row selection and the signed
  maximum.
- **Index logic of `dphack.py`.** Modules `Dphack` and `GridSearch` cover
  differencing in place, the nested (window, shift) loops with their shift,
  trailing-mean and `dropna` arithmetic, the common-range alignment, and the
  analysis `main` runs.

How the world outside the core is modelled:

- The world is passed in as values:
  - the directory listing and file system as `DirEntry` and `FileSystem` values;
  - the JSON cache file as `cacheFile: Option<Cache>`;
  - pandas readers as a `Loader` function;
  - Pearson coefficients as `Pearson` / `PearsonR` function parameters.
- MD5 is replaced by an injective stand-in, the lower-case hex spelling of the
  bytes (module `ContentHash`). The model relies only on a digest being a hex
  string and on equal digests meaning equal bytes.

Where the specification and the code differ, the model follows the code:

- The rolling screen's score is the **signed** maximum of the selected entries,
  not the maximum absolute value (`RollingScreen.SignedMaximum`).
- The pair cache key is the two digests in enumeration order, so it is
  order-dependent (`PairCache.CacheKeyOrdered`).
- `phackt.py`'s `load_dataset` catches every exception and returns an empty
  frame, so a failing file screens as "insufficient data"
  (`Phackt.FailedLoadIsInsufficient`).
- In `phack.py` and in `DatasetManager`, a load failure or a key error raises
  and ends the whole run. Per-pair failures are not isolated.
- Both `add_dataset`s write `dataset_configs[h]` before the
  `dataset_metadata[h]` lookup that raises `KeyError` for an unscanned
  digest. A failing call therefore leaves a config behind (`Phackt.RegisterEffect`).
- In `phackt.py` the pool workers receive pickled copies of the manager. Their
  cache writes never reach the parent, whose `save_cache` writes back the
  cache it loaded (`Phackt.Mine`). Workers do not commit results to the
  cache.
- Results are collected in pair-enumeration order, because `executor.map`
  returns them in input order, not in completion order.

## Model

| member | source | states |
|---|---|---|
| Datasets.SuffixFormat | phackt.py:56-63 | a reader is chosen exactly when the path ends in `.csv`, `.json` or `.parquet` (case-sensitive), and each suffix selects its own reader: `.csv` the CSV reader, `.json` the JSON reader, `.parquet` the Parquet reader |
| Paths.Basename | dphackt/build/lib/src/dphackt/dataset_manager.py:22 | the name is a suffix of the path, contains no `/` and is everything after the path's last `/` |
| Paths.BasenameMaximal | dphackt/build/lib/src/dphackt/dataset_manager.py:22 | the name is the whole path or is preceded by a `/`, so no longer `/`-free suffix exists |
| Paths.Extension | dphackt/build/lib/src/dphackt/dataset_manager.py:36 | the extension is empty or a dot-led suffix of the path without `/` |
| Paths.SplitExtLastDot | dphackt/build/lib/src/dphackt/dataset_manager.py:36 | a non-empty extension starts at the last dot and leaves a stem that is not all dots; it is empty exactly when there is no dot or only dots precede the last one |
| Paths.ExtensionUpperCase | dphackt/build/lib/src/dphackt/dataset_manager.py:36 | `data/x.CSV` has extension `.CSV`, so only the lower-casing after it makes it `.csv` |
| Paths.ExtensionLastOnly | dphackt/build/lib/src/dphackt/dataset_manager.py:36 | a base name not led by a dot has as extension the text from its last dot, so `a.tar.gz` has `.gz` |
| Paths.ExtensionHidden | dphackt/build/lib/src/dphackt/dataset_manager.py:36 | a base name whose only dot leads it, such as `.bashrc`, has no extension, in any directory |
| Paths.ExtensionDirectoryDot | dphackt/build/lib/src/dphackt/dataset_manager.py:36 | a base name without a dot has no extension, whatever dots the directories have: `dir.d/README` has none |
| Paths.Lower | dphackt/build/lib/src/dphackt/dataset_manager.py:36 | lower-casing keeps the length and maps every character through the ASCII lower-case map |
| ContentHash.HashInjective | phackt.py:39-41 | two files share a digest exactly when their bytes are equal |
| ContentHash.NoUnderscore | phackt.py:41 | a hexdigest never contains `_` |
| OrderedMaps.OrderedMap.Put | phackt.py:33-37 | a dict assignment sets the value, keeps an existing key in its place and appends a new key at the end |
| Pairs.CombinationsCount | dphackt/build/lib/src/dphackt/dataset_manager.py:53 | `combinations(keys, 2)` has n(n-1)/2 pairs |
| Pairs.CombinationsMembership | phack.py:85 | (x, y) is a pair exactly when x comes strictly before y in the key order |
| Pairs.CombinationsUnordered | phackt.py:165 | with distinct keys a pair has no self-pair and never appears reversed |
| Pairs.CombinationsDistinct | phackt.py:165 | with distinct keys no pair is listed twice |
| Scan.ScannedValid | phackt.py:27-37 | the scan keeps the registry well formed and only adds keys |
| Scan.ScannedKeys | phackt.py:27-37 | after the scan a digest is a key exactly when it was one already or is the digest of a listed file with a dataset suffix |
| Scan.ScannedUntouched | phack.py:20-28 | an entry whose digest no accepted file has keeps its value |
| Scan.ScannedLastWins | phack.py:20-28 | among files with identical bytes the last one listed supplies the entry |
| RollingScreen.InnerJoin | phackt.py:91 | the join has at most as many rows as the first series and is empty when the second one is |
| RollingScreen.JoinMembership | phackt.py:91 | a date is in the join exactly when both series have it |
| RollingScreen.MaxDefined | phackt.py:96 | the maximum is NaN exactly when every entry is NaN; otherwise it is an entry and bounds every defined one |
| RollingScreen.Selected | phackt.py:95 | the selection has one entry per position w-1, w+1, ... below twice the row count |
| RollingScreen.SelectedCount | phackt.py:95 | the count covers every position w-1, w+1, ... below twice the row count and not the next one |
| RollingScreen.Screen | phackt.py:91-96 | "insufficient data" exactly when the join has fewer than w rows; otherwise the signed maximum of the selected entries, attained at one of them |
| RollingScreen.SelectedEntries | phackt.py:95 | every selected entry correlates one column with column 0: itself for odd w, the other series for even w; entries before the window fills are NaN |
| RollingScreen.SignedMaximum | phackt.py:96 | an example of what `Screen` states in general: a strongly negative window loses to a weakly positive one |
| PairCache.CacheKeyInjective | phackt.py:130 | two ordered pairs of digests have the same key exactly when they are equal |
| PairCache.CacheKeyOrdered | phack.py:89 | (a, b) and (b, a) have different keys when a differs from b |
| PairCache.CombinationKeysDistinct | phackt.py:165 | the pairs of distinct keys have pairwise distinct cache keys |
| PairCache.PairStep | phackt.py:130-145 | a hit returns the stored record with the cache unchanged; a miss returns what was computed, stores a record under its key and stores nothing for None; an exception propagates; no entry is ever changed or removed |
| PairCache.RunSequentialGrows | phack.py:104-107 | a sequential run keeps every cached entry and adds keys only for its own pairs |
| PairCache.SnapshotMatchesSequential | phackt.py:170-171 | with distinct keys, running every pair against one snapshot reports what the sequential run reports, and fails exactly when it fails |
| PairCache.RerunUnchanged | phack.py:87-102 | re-running the same pairs over the cache a run left behind gives the same results and cache |
| Phackt.Register | phackt.py:70-84 | `add_dataset` keeps the registry well formed and never changes the metadata keys |
| Phackt.RegisterEffect | phackt.py:70-84 | a missing file raises before anything changes; otherwise the config of h is written with the file's timestamp, the call fails with KeyError exactly when h was never scanned, a success adds the columns and new timestamp to the metadata and keeps its name and path, and no other key changes |
| Phackt.Refresh | phackt.py:120-126 | `update_datasets` keeps the registry well formed and its metadata keys |
| Phackt.RefreshSkip | phackt.py:122-125 | an entry that is current or not mapped to both columns is passed over |
| Phackt.RefreshCall | phackt.py:122-126 | a stale entry mapped to both columns triggers `add_dataset` on its path, and a failure ends the loop |
| Phackt.RegisterKeeps | phackt.py:70-84 | `add_dataset` on a scanned entry whose file is unchanged succeeds and keeps the files matching the registry |
| Phackt.RegisterStep | phackt.py:70-84 | that call sets the columns, gives the config the entry's own timestamp and leaves every other key alone |
| Phackt.RefreshPass | phackt.py:120-126 | on files matching the scan, `update_datasets` raises nothing and keeps the files matching the registry |
| Phackt.RefreshKey | phackt.py:121-126 | every entry from index i on is refreshed if stale and mapped, otherwise untouched; earlier entries are untouched |
| Phackt.RefreshKeyStale | phackt.py:122-126 | the same when the entry at index i is refreshed |
| Phackt.RefreshEffect | phackt.py:120-126 | `update_datasets` succeeds and every entry is refreshed, with config and metadata taking the entry's timestamp, exactly when it was stale and mapped to both columns |
| Phackt.RefreshSettled | phackt.py:120-126 | with nothing stale and mapped, `update_datasets` changes nothing |
| Phackt.RefreshIdempotent | phackt.py:120-126 | a second `update_datasets` over unchanged files with the same map changes nothing |
| Phackt.LoadOrEmpty | phackt.py:54-68 | `load_dataset` never raises: an unsupported suffix or a failing reader gives the empty frame, otherwise the reader's frame |
| Phackt.ComputeCorrelation | phackt.py:86-97 | KeyError exactly when a digest has no config; otherwise the screen of the two frames `load_dataset` gives, empty ones included |
| Phackt.FailedLoadIsInsufficient | phackt.py:86-93 | a dataset that fails to load makes its pairs "insufficient data" |
| Phackt.PairResult | phackt.py:134-141 | the miss path yields a record named after both metadata entries exactly when the score is defined and its absolute value reaches the threshold; a KeyError propagates |
| Phackt.PoolMatchesSequential | phackt.py:165-173 | the pool's per-worker snapshots report what one process running the pairs in turn would report |
| Phackt.FlexibleDatasetManager.constructor | phackt.py:17-25 | scans the listing into empty dicts, then loads the cache file if there is one |
| Phackt.FlexibleDatasetManager.LoadMetadata | phackt.py:27-37 | the metadata becomes the scan of the listing over the old metadata |
| Phackt.FlexibleDatasetManager.LoadCache | phackt.py:43-47 | the cache becomes the file's content when the file exists and is unchanged otherwise |
| Phackt.FlexibleDatasetManager.SaveCache | phackt.py:49-52 | the file holds the in-memory cache |
| Phackt.FlexibleDatasetManager.AddDataset | phackt.py:70-84 | the outcome and new dicts are those of `Register` |
| Phackt.FlexibleDatasetManager.UpdateDatasets | phackt.py:120-126 | the loop over the metadata keys gives the outcome and dicts of `Refresh` |
| Phackt.ProcessPair | phackt.py:128-145 | the result and new cache are those of one `PairStep` on the manager's cache; an exception leaves the cache unchanged |
| Phackt.Mine | phackt.py:162-175 | runs `update_datasets`, then every configured pair against the loaded cache, keeps the records in pair order, and saves the unchanged cache when no pair raised |
| Phack.Register | phack.py:57-68 | a missing file raises before anything changes; otherwise the config is written, KeyError exactly when the digest was never scanned, and a success adds the columns to the metadata |
| Phack.LoadStrict | phack.py:44-55 | ValueError exactly for an unsupported suffix; success exactly when the reader succeeds, with its frame |
| Phack.ComputeCorrelation | phack.py:70-81 | KeyError for a digest without config; success exactly when both loads succeed, with the screen of the two frames; a failing first load returns its error, and a failing second load after a good first one returns the second's error |
| Phack.PairResult | phack.py:93-102 | a record named after both metadata entries exactly when the score qualifies; errors propagate |
| Phack.FindTwice | phack.py:83-110 | a second search over the cache the first one left gives the same results and cache |
| Phack.FlexibleDatasetManager.constructor | phack.py:11-18 | scans the listing into empty dicts, then loads the cache file if there is one |
| Phack.FlexibleDatasetManager.LoadMetadata | phack.py:20-28 | the metadata becomes the scan of the listing over the old metadata |
| Phack.FlexibleDatasetManager.LoadCache | phack.py:33-37 | the cache becomes the file's content when the file exists |
| Phack.FlexibleDatasetManager.SaveCache | phack.py:39-42 | the file holds the in-memory cache |
| Phack.FlexibleDatasetManager.AddDataset | phack.py:57-68 | the outcome and new dicts are those of `Register` |
| Phack.FlexibleDatasetManager.FindCorrelations | phack.py:83-110 | results and cache are those of the sequential run over every configured pair, saved once at the end; a raising pair returns its error without saving; the cache only grows |
| Phack.FlexibleDatasetManager.RunPairs | phack.py:104-107 | the loop over the pairs gives the records and cache of the sequential run, or its first exception, and the cache only grows |
| DatasetRegistry.LoaderFor | dphackt/build/lib/src/dphackt/dataset_manager.py:12-16 | a loader exists exactly for `.csv`, `.json` and `.parquet`, and each of them selects its own reader |
| DatasetRegistry.Fetch | dphackt/build/lib/src/dphackt/dataset_manager.py:33-44 | a cached frame is returned without consulting the registry; a miss raises KeyError for an unknown digest, ValueError for an unsupported lower-cased extension and a loader failure as it comes, and otherwise stores and returns the loader's frame; a failure changes nothing |
| DatasetRegistry.FetchMemoised | dphackt/build/lib/build/lib/src/dphackt/dataset_manager.py:33-34 | once loaded, a frame is returned again whatever the registry and loaders are |
| DatasetRegistry.Restrict | dphackt/build/lib/src/dphackt/dataset_manager.py:46-50 | the cleaned cache holds exactly the cached registered digests, with their frames |
| DatasetRegistry.CleanKeepsLoads | dphackt/build/lib/build/lib/src/dphackt/dataset_manager.py:46-50 | cleaning changes no load of a registered digest |
| DatasetRegistry.CleanIdempotent | dphackt/build/lib/build/lib/src/dphackt/dataset_manager.py:46-50 | cleaning twice is cleaning once |
| DatasetRegistry.DatasetManager.constructor | dphackt/build/lib/src/dphackt/dataset_manager.py:7-16 | an empty registry and cache |
| DatasetRegistry.DatasetManager.AddDataset | dphackt/build/lib/src/dphackt/dataset_manager.py:18-27 | a missing file raises with nothing changed; otherwise the entry under the digest is set to basename, path, columns and timestamp, overwriting in place, and no other entry changes |
| DatasetRegistry.DatasetManager.LoadDataset | dphackt/build/lib/src/dphackt/dataset_manager.py:33-44 | the result and new cache are those of `Fetch` |
| DatasetRegistry.DatasetManager.CleanCache | dphackt/build/lib/src/dphackt/dataset_manager.py:46-50 | the delete loop leaves the cache restricted to the registered digests |
| DatasetRegistry.DatasetManager.DatasetPairs | dphackt/build/lib/src/dphackt/dataset_manager.py:52-53 | n(n-1)/2 distinct pairs of two different registered digests |
| DatasetRegistry.PairsRegistered | dphackt/build/lib/build/lib/src/dphackt/dataset_manager.py:53 | every pair of distinct keys joins two different keys of the registry |
| DatasetRegistry.DatasetPairsMembership | dphackt/build/lib/src/dphackt/dataset_manager.py:53 | (x, y) is a pair exactly when x was registered before y |
| AnalysisTasks.Gate | dphackt/build/lib/build/lib/src/dphackt/analysis_tasks.py:26-32 | None exactly when the score does not qualify; otherwise a record with the two registry names in pair order and the signed score, or KeyError for an unregistered digest |
| AnalysisTasks.AnalyseCache | dphackt/build/lib/build/lib/src/dphackt/analysis_tasks.py:15-17 | `process` keeps every cached frame and adds at most the two frames of its pair |
| AnalysisTasks.AnalyseResult | dphackt/build/lib/build/lib/src/dphackt/analysis_tasks.py:14-32 | a failed first load is returned with the cache unchanged; with both frames loaded the answer is the gate on their screen; otherwise a failure |
| AnalysisTasks.ShortJoinIsNone | dphackt/build/lib/build/lib/src/dphackt/analysis_tasks.py:15-21 | when both loads succeed and their frames join in fewer rows than the window, the answer is None |
| AnalysisTasks.AnalyseMemoised | dphackt/build/lib/build/lib/src/dphackt/analysis_tasks.py:16-17 | screening a pair again on the cache the first screen left gives the same answer and cache |
| AnalysisTasks.CorrelationAnalysis.constructor | dphackt/build/lib/build/lib/src/dphackt/analysis_tasks.py:10-12 | stores window 30 and threshold 0.7 unless given |
| AnalysisTasks.CorrelationAnalysis.Process | dphackt/build/lib/build/lib/src/dphackt/analysis_tasks.py:14-32 | the answer and the manager's new frame cache are those of `Analyse` |
| GridSearch.Shifted | dphack.py:73 | the shifted value at i is v[i - s], missing when out of range |
| GridSearch.RollingMean | dphack.py:74 | the trailing mean at i is missing until w values exist and wherever one of them is missing |
| GridSearch.RollingMeanPresent | dphack.py:74 | on a gap-free column the trailing mean is present exactly from i = w - 1 on |
| GridSearch.Cell | dphack.py:76-82 | a (window, shift) cell yields a row exactly when more than w joined rows remain and `pearsonr` does not raise, and the row carries that window and shift and the coefficient and p-value `pearsonr` gives on the sample |
| GridSearch.Grid | dphack.py:71-72 | the loops visit 25 shifts per window |
| GridSearch.GridAt | dphack.py:71-72 | visit 25·wi + j is window wi at shift j - 12 |
| GridSearch.RowsInGridOrder | dphack.py:70-82 | every row is the cell of one grid entry, and rows come in grid order |
| GridSearch.TableShape | dphack.py:71-84 | at most 25·\|windows\| rows, window-major with shift ascending, each window drawn from `window_sizes` and each shift in [-12, 12] |
| GridSearch.IntervalCount | dphack.py:76 | when both columns are present exactly on [lo, hi), `dropna` keeps that interval, clamped to the frame |
| GridSearch.GapFreeCount | dphack.py:73-77 | for gap-free columns of length n the cell (w, s) keeps max(0, min(n, n + s) - max(0, s, w - 1)) rows |
| Dphack.Diff | dphack.py:60 | the change at i is v[i] - v[i - 1], missing on the first row and next to a gap |
| Dphack.Present | dphack.py:64 | `dropna` keeps exactly the positions where the column is present, in order |
| Dphack.ChangesKept | dphack.py:60-64 | the kept rows never include the first, number at most n - 1 and carry v[i] - v[i - 1] |
| Dphack.ChangesGapFree | dphack.py:60-64 | without gaps, differencing drops exactly the first row |
| Dphack.CalculateChanges | dphack.py:58-66 | KeyError with the frame unchanged for a missing column; otherwise `Change` is added and every column and the index are cut to the rows whose change is present |
| Dphack.FindCorrelations | dphack.py:68-84 | no windows gives no rows and reads no column; otherwise KeyError for a missing column; with both columns present the table of the grid search over them |
| Dphack.SearchGrid | dphack.py:70-83 | the two nested loops append exactly the table's rows |
| Dphack.CorrelateCell | dphack.py:73-82 | one loop body computes the cell of its (window, shift) |
| Dphack.MinDate | dphack.py:88 | the earliest date of the index |
| Dphack.MaxDate | dphack.py:89 | the latest date of the index |
| Dphack.InRange | dphack.py:91-95 | a row is kept exactly when it is dated within the range and both values are present |
| Dphack.JoinRow | dphack.py:91-94 | a row is in the joined frame exactly when the first series has it and the second has its date with that value |
| Dphack.InsertByDate | dphack.py:91-94 | placing a row into date-ordered rows keeps them date-ordered and adds exactly that row |
| Dphack.SortByDate | dphack.py:91-94 | the rows come out in date order and are a permutation of the input |
| Dphack.SortedMembers | dphack.py:91-94 | sorting keeps exactly the rows it is given |
| Dphack.AlignAndPrepare | dphack.py:86-96 | every aligned row has both values, and the rows are in date order as in the frame built from the two series |
| Dphack.AlignedRows | dphack.py:86-96 | a row is aligned exactly when its date lies within both series' ranges and both series have values there |
| Dphack.AlignedChanges | dphack.py:139 | differencing the aligned `SST` column keeps every row but the first |
| Dphack.SearchSstTemperature | dphack.py:138-141 | `main`'s analysis is the grid search on the `SST` and `Temperature` columns minus their first aligned row, not on `Change` |

## Left out

- Downloading and parsing the SST and climate data (`load_sst_data`, `load_climate_data`): network I/O. The aligned series are inputs of `Dphack.SearchSstTemperature`.
- Plotting (`plot_correlation`, `plot_data`), argparse, printing and the hard-coded paths of the three `main`s: UI and driver code. `Phackt.Mine` stands for the search of `phackt.py`'s `main` without those parts.
- File I/O (`os.listdir`, `os.path.getmtime`, `open`, `os.path.exists`, JSON encoding): the listing, file system and cache file are values. The JSON round trip of the cache is the library's.
- MD5: replaced by an injective stand-in with the same hex alphabet. Collisions are not modelled; the source ignores them too.
- Numerics: rolling Pearson, rolling-mean values, `pearsonr` and its p-value are function parameters. Floating-point NaN is `None`. The ±inf replacement of `calculate_changes` is not modelled, because a difference of two reals is finite.
- pandas index semantics beyond what is modelled: series are date/value lists whose first entry for a date is the one found. Sorted-index slicing by `.loc`, duplicate dates and non-numeric columns are not modelled.
- Window sizes below 1: pandas accepts a window of 0 and gives an all-NaN rolling result; the model excludes it. The rolling screen takes a `Window`, a subset type of positive integers, and the grid search requires its windows to satisfy the `Windows` predicate (every size at least 1).
- The process pools: concurrency. `phackt.py`'s pool is modelled as every pair run against one snapshot of the cache (`Phackt.Mine`). `phack.py`'s nested `process_pair` cannot be pickled, so its pool cannot actually dispatch work; it is modelled as the sequential map that its code describes.
- The abstract `AnalysisTask` and `DataLoader` base classes, the loader wrappers of `data_loaders.py`, `setup.py` and the `__init__.py` files: interface declarations, thin `pd.read_*` wrappers and packaging.
- Phack.FlexibleDatasetManager.FindCorrelations: when a pair raises, the cache left behind is stated only as an extension of the old one, not as the exact writes of the pairs before the failing one.
- Dphack.AlignAndPrepare: requires both series to be non-empty, because the minimum and maximum of an empty index are NaN in pandas and that path is not modelled. The `.loc` cut is modelled as a filter on dates, which is what it does on a sorted index; label slicing of an unsorted index is positional and is not modelled. When both cut series have identical indexes pandas keeps that order instead of sorting; the model always sorts. The order of rows with the same date is not modelled.
- Paths.Lower: lower-cases ASCII letters only; Python's Unicode case mapping is not modelled.
