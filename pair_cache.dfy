/** The pair-result cache of both scripts' process_pair: the key of a pair
    is the two digests joined by an underscore; a key already in the cache
    returns the stored record; otherwise the score is computed and, when it
    is defined and its absolute value reaches the threshold, a record is
    stored under the key and returned, else nothing is returned.

    Two ways a list of pairs is run through it are modelled: sequentially,
    each pair seeing the cache writes of the ones before (phack.py), or
    each pair against the same snapshot of the cache, as the pickled copies
    in phackt.py's worker processes see it. */
module PairCache {
  import opened Wrappers
  import opened ContentHash
  import opened OrderedMaps
  import opened Pairs
  import opened Datasets
  import opened RollingScreen

  /** {'dataset1': name1, 'dataset2': name2, 'correlation': corr} */
  datatype Record = Record(dataset1: string, dataset2: string, correlation: real)

  /** correlation_cache, keyed by the pair key string */
  type Cache = map<string, Record>

  type Pair = (Digest, Digest)

  /** What a cache miss computes for a pair: a record to store, None for no
      qualifying result, or the exception it raises */
  type Miss = (Digest, Digest) -> Result<Option<Record>, Error>

  /** The key of an ordered pair: the two digests joined by "_" */
  function CacheKey(h1: Digest, h2: Digest): string {
    h1 + "_" + h2
  }

  /** Digests have no '_', so a key determines its ordered pair */
  lemma {:induction false} CacheKeyInjective(a: Digest, b: Digest, c: Digest, d: Digest)
    ensures CacheKey(a, b) == CacheKey(c, d) <==> a == c && b == d
  {
    if CacheKey(a, b) == CacheKey(c, d) {
      var k := CacheKey(a, b);
      NoUnderscore(a);
      NoUnderscore(c);
      assert k[|a|] == '_' && k[|c|] == '_';
      assert a == k[..|a|] && c == k[..|c|];
      assert b == k[|a| + 1..] && d == k[|c| + 1..];
    }
  }

  /** The key depends on the order of the pair */
  lemma {:induction false} CacheKeyOrdered(a: Digest, b: Digest)
    requires a != b
    ensures CacheKey(a, b) != CacheKey(b, a)
  {
    CacheKeyInjective(a, b, b, a);
  }

  function Abs(x: real): (r: real)
    ensures 0.0 <= r && (r == x || r == -x)
  {
    if x < 0.0 then -x else x
  }

  /** The gate: a defined score whose absolute value reaches the threshold
      (a NaN score fails the comparison) */
  predicate Qualifies(o: CorrOutcome, threshold: real) {
    o.Score? && o.max.Some? && Abs(o.max.value) >= threshold
  }

  /** Every entry of c is in c' with the same value */
  predicate Extends(c: Cache, c': Cache) {
    forall k :: k in c ==> k in c' && c'[k] == c[k]
  }

  lemma {:induction false} ExtendsTrans(c1: Cache, c2: Cache, c3: Cache)
    requires Extends(c1, c2) && Extends(c2, c3)
    ensures Extends(c1, c3)
  {
  }

  datatype Step = Step(result: Option<Record>, cache: Cache)

  /** One call of process_pair, given what its miss path computes */
  function PairStep(cache: Cache, key: string, miss: Result<Option<Record>, Error>): (r: Result<Step, Error>)
    // a hit returns the stored record and leaves the cache alone
    ensures key in cache ==> r == Success(Step(Some(cache[key]), cache))
    // a miss returns what was computed, or raises what it raised
    ensures key !in cache && miss.Failure? ==> r == Failure(miss.error)
    ensures key !in cache && miss.Success? ==> r.Success? && r.value.result == miss.value
    // a returned record is what the cache now holds under the key
    ensures r.Success? && r.value.result.Some? ==> key in r.value.cache && r.value.cache[key] == r.value.result.value
    // None leaves the cache unchanged; nothing stored is ever overwritten
    ensures r.Success? && r.value.result.None? ==> r.value.cache == cache
    ensures r.Success? ==> Extends(cache, r.value.cache) && r.value.cache.Keys <= cache.Keys + {key}
  {
    if key in cache then Success(Step(Some(cache[key]), cache))
    else match miss
      case Failure(e) => Failure(e)
      case Success(None) => Success(Step(None, cache))
      case Success(Some(rec)) => Success(Step(Some(rec), cache[key := rec]))
  }

  /** The result filter keeps the records and drops the Nones */
  function Keep(o: Option<Record>): seq<Record> {
    if o.Some? then [o.value] else []
  }

  function StepOf(cache: Cache, p: Pair, miss: Miss): Result<Step, Error> {
    PairStep(cache, CacheKey(p.0, p.1), miss(p.0, p.1))
  }

  datatype Run = Run(results: seq<Record>, cache: Cache)

  /** The pairs in order, each seeing the cache as the previous ones left it;
      the first exception ends the run */
  function RunSequential(cache: Cache, pairs: seq<Pair>, miss: Miss): Result<Run, Error>
    decreases |pairs|
  {
    if pairs == [] then Success(Run([], cache))
    else match StepOf(cache, pairs[0], miss)
      case Failure(e) => Failure(e)
      case Success(step) =>
        match RunSequential(step.cache, pairs[1..], miss)
        case Failure(e) => Failure(e)
        case Success(run) => Success(Run(Keep(step.result) + run.results, run.cache))
  }

  /** The pairs in order, each against the same cache; the first exception
      ends the run */
  function RunSnapshot(cache: Cache, pairs: seq<Pair>, miss: Miss): Result<seq<Record>, Error>
    decreases |pairs|
  {
    if pairs == [] then Success([])
    else match StepOf(cache, pairs[0], miss)
      case Failure(e) => Failure(e)
      case Success(step) =>
        match RunSnapshot(cache, pairs[1..], miss)
        case Failure(e) => Failure(e)
        case Success(rs) => Success(Keep(step.result) + rs)
  }

  function Keys(pairs: seq<Pair>): (ks: seq<string>)
    ensures |ks| == |pairs|
  {
    seq(|pairs|, i requires 0 <= i < |pairs| => CacheKey(pairs[i].0, pairs[i].1))
  }

  lemma {:induction false} KeysTail(pairs: seq<Pair>)
    requires pairs != []
    ensures Keys(pairs) == [CacheKey(pairs[0].0, pairs[0].1)] + Keys(pairs[1..])
  {
  }

  /** Distinct ordered pairs of digests have distinct keys; in particular
      the pair list of distinct registry keys does */
  lemma {:induction false} CombinationKeysDistinct(ks: seq<Digest>)
    requires Distinct(ks)
    ensures Distinct(Keys(Combinations(ks)))
  {
    var ps := Combinations(ks);
    CombinationsDistinct(ks);
    forall i, j | 0 <= i < j < |ps| ensures Keys(ps)[i] != Keys(ps)[j] {
      CacheKeyInjective(ps[i].0, ps[i].1, ps[j].0, ps[j].1);
    }
  }

  /** A sequential run only adds entries, and only under its pairs' keys */
  lemma {:induction false} RunSequentialGrows(cache: Cache, pairs: seq<Pair>, miss: Miss)
    requires RunSequential(cache, pairs, miss).Success?
    ensures Extends(cache, RunSequential(cache, pairs, miss).value.cache)
    ensures forall k :: k in RunSequential(cache, pairs, miss).value.cache ==> k in cache || k in Keys(pairs)
    decreases |pairs|
  {
    if pairs != [] {
      var step := StepOf(cache, pairs[0], miss).value;
      RunSequentialGrows(step.cache, pairs[1..], miss);
      KeysTail(pairs);
    }
  }

  /** With distinct keys no pair sees another pair's write, so the worker
      copies of the snapshot run return what the sequential run returns */
  lemma {:induction false} SnapshotMatchesSequential(cache: Cache, snapshot: Cache, pairs: seq<Pair>, miss: Miss)
    requires Distinct(Keys(pairs))
    requires forall k :: k in Keys(pairs) ==> (k in cache <==> k in snapshot) && (k in cache ==> cache[k] == snapshot[k])
    ensures RunSequential(cache, pairs, miss).Success? <==> RunSnapshot(snapshot, pairs, miss).Success?
    ensures RunSequential(cache, pairs, miss).Success? ==>
              RunSequential(cache, pairs, miss).value.results == RunSnapshot(snapshot, pairs, miss).value
    decreases |pairs|
  {
    if pairs != [] {
      KeysTail(pairs);
      DistinctTail(Keys(pairs));
      var k0 := CacheKey(pairs[0].0, pairs[0].1);
      assert k0 in Keys(pairs);
      var s := StepOf(cache, pairs[0], miss);
      var t := StepOf(snapshot, pairs[0], miss);
      assert s.Success? <==> t.Success?;
      if s.Success? {
        assert s.value.result == t.value.result;
        forall k | k in Keys(pairs[1..])
          ensures (k in s.value.cache <==> k in snapshot) && (k in s.value.cache ==> s.value.cache[k] == snapshot[k])
        {
          var i :| 0 <= i < |pairs[1..]| && Keys(pairs[1..])[i] == k;
          assert Keys(pairs)[i + 1] == k && Keys(pairs)[0] == k0;
          assert k in Keys(pairs);
        }
        SnapshotMatchesSequential(s.value.cache, snapshot, pairs[1..], miss);
      }
    }
  }

  /** Run again over the cache a run left behind, the same pairs give the
      same results and leave the cache as it is: every stored pair is a
      hit, every other pair is computed again */
  lemma {:induction false} RerunUnchanged(cache: Cache, pairs: seq<Pair>, miss: Miss)
    requires Distinct(Keys(pairs))
    requires RunSequential(cache, pairs, miss).Success?
    ensures RunSequential(RunSequential(cache, pairs, miss).value.cache, pairs, miss)
            == RunSequential(cache, pairs, miss)
    decreases |pairs|
  {
    if pairs != [] {
      KeysTail(pairs);
      DistinctTail(Keys(pairs));
      var final := RunSequential(cache, pairs, miss).value.cache;
      var k0 := CacheKey(pairs[0].0, pairs[0].1);
      var step := StepOf(cache, pairs[0], miss).value;
      RerunUnchanged(step.cache, pairs[1..], miss);
      RunSequentialGrows(step.cache, pairs[1..], miss);
      assert RunSequential(step.cache, pairs[1..], miss).value.cache == final;
      if step.result.Some? {
        assert StepOf(final, pairs[0], miss) == Success(Step(step.result, final));
      } else {
        assert k0 !in Keys(pairs[1..]);
        assert k0 !in final;
        assert StepOf(final, pairs[0], miss) == Success(Step(None, final));
      }
    }
  }
}
