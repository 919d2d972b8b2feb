/** What the dataset code observes of the outside world, and the shapes of
    its data.  The file system, directory listings and the pandas readers
    are inputs: a listing is what os.listdir plus one read and one
    os.path.getmtime per file see; a loader is what pd.read_csv /
    read_json / read_parquet followed by set_index and column selection
    return for a path, or None when pandas raises. */
module Datasets {
  import opened Wrappers
  import opened ContentHash
  import opened Paths

  /** A date of the time index, as an ordinal */
  type Date = int

  /** A modification time as os.path.getmtime reports it */
  type Timestamp = real

  /** A date-indexed single value column; None is a missing value (NaN) */
  type Series = seq<(Date, Option<real>)>

  /** The (date column, value column) pair a dataset is loaded with */
  datatype Columns = Columns(date: string, value: string)

  datatype FileStat = FileStat(content: seq<byte>, mtime: Timestamp)

  /** The readable files, by path */
  type FileSystem = map<string, FileStat>

  /** One name returned by os.listdir, with what reading it gives */
  datatype DirEntry = DirEntry(name: string, content: seq<byte>, mtime: Timestamp)

  datatype Format = Csv | Json | Parquet

  /** A pandas reader: the loaded series, or None when it raises
      (unparsable file, missing column, unparsable date) */
  type Loader = (Format, string, Columns) -> Option<Series>

  /** The exceptions the modelled code lets escape */
  datatype Error =
    | FileNotFound        // open() / os.path.getmtime on a missing path
    | KeyError            // a dict lookup of a missing key
    | UnsupportedFormat   // the ValueError "Unsupported file format"
    | LoadFailed          // an exception raised by a pandas reader

  /** filename.endswith(('.csv', '.json', '.parquet')), case-sensitive */
  predicate HasDatasetSuffix(name: string) {
    EndsWith(name, ".csv") || EndsWith(name, ".json") || EndsWith(name, ".parquet")
  }

  /** The endswith chain of the two scripts' load_dataset */
  function SuffixFormat(path: string): (f: Option<Format>)
    ensures f.Some? <==> HasDatasetSuffix(path)
    ensures EndsWith(path, ".csv") ==> f == Some(Csv)
    ensures EndsWith(path, ".json") ==> f == Some(Json)
    ensures EndsWith(path, ".parquet") ==> f == Some(Parquet)
  {
    // the three suffixes end in different letters, so at most one matches
    assert EndsWith(path, ".csv") ==> path[|path| - 1] == ".csv"[3];
    assert EndsWith(path, ".json") ==> path[|path| - 1] == ".json"[4];
    assert EndsWith(path, ".parquet") ==> path[|path| - 1] == ".parquet"[7];
    if EndsWith(path, ".csv") then Some(Csv)
    else if EndsWith(path, ".json") then Some(Json)
    else if EndsWith(path, ".parquet") then Some(Parquet)
    else None
  }
}
