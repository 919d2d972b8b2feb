/** itertools.combinations(keys, 2): every pair of positions i < j, in
    lexicographic order of positions. */
module Pairs {
  import opened OrderedMaps

  function Combinations<T>(s: seq<T>): (r: seq<(T, T)>)
    decreases |s|
  {
    if |s| == 0 then []
    else seq(|s| - 1, j requires 0 <= j < |s| - 1 => (s[0], s[j + 1])) + Combinations(s[1..])
  }

  /** n keys give n(n-1)/2 pairs */
  lemma {:induction false} CombinationsCount<T>(s: seq<T>)
    ensures 2 * |Combinations(s)| == |s| * (|s| - 1)
    ensures |Combinations(s)| == |s| * (|s| - 1) / 2
  {
    if |s| > 0 {
      CombinationsCount(s[1..]);
      var n := |s|;
      assert 2 * |Combinations(s)| == 2 * (n - 1) + (n - 1) * (n - 2);
      assert 2 * (n - 1) + (n - 1) * (n - 2) == (n - 1) * n;
    }
  }

  /** A pair is listed exactly when its first component occurs at an
      earlier position than its second */
  lemma {:induction false} CombinationsMembership<T>(s: seq<T>, x: T, y: T)
    ensures (x, y) in Combinations(s) <==>
            exists i, j :: 0 <= i < j < |s| && s[i] == x && s[j] == y
  {
    if |s| > 0 {
      var head := seq(|s| - 1, j requires 0 <= j < |s| - 1 => (s[0], s[j + 1]));
      var tail := s[1..];
      CombinationsMembership(tail, x, y);
      assert Combinations(s) == head + Combinations(tail);
      if (x, y) in Combinations(s) {
        if (x, y) in head {
          var j :| 0 <= j < |head| && head[j] == (x, y);
          assert s[0] == x && s[j + 1] == y;
        } else {
          var i, j :| 0 <= i < j < |tail| && tail[i] == x && tail[j] == y;
          assert s[i + 1] == x && s[j + 1] == y;
        }
      }
      if exists i, j :: 0 <= i < j < |s| && s[i] == x && s[j] == y {
        var i, j :| 0 <= i < j < |s| && s[i] == x && s[j] == y;
        if i == 0 {
          assert head[j - 1] == (x, y);
        } else {
          assert tail[i - 1] == x && tail[j - 1] == y;
        }
      }
    }
  }

  /** Over distinct keys: no self-pairs, and no unordered pair twice
      (neither repeated nor in the other order) */
  lemma {:induction false} CombinationsUnordered<T>(s: seq<T>, x: T, y: T)
    requires Distinct(s)
    requires (x, y) in Combinations(s)
    ensures x != y
    ensures (y, x) !in Combinations(s)
  {
    CombinationsMembership(s, x, y);
    CombinationsMembership(s, y, x);
  }

  /** Over distinct keys no pair is listed twice */
  lemma {:induction false} CombinationsDistinct<T>(s: seq<T>)
    requires Distinct(s)
    ensures Distinct(Combinations(s))
  {
    if |s| > 0 {
      var head := seq(|s| - 1, j requires 0 <= j < |s| - 1 => (s[0], s[j + 1]));
      var tail := s[1..];
      var rest := Combinations(tail);
      CombinationsDistinct(tail);
      var r := head + rest;
      assert Combinations(s) == r;
      forall p, q | 0 <= p < q < |r| ensures r[p] != r[q] {
        if q < |head| {
          assert r[p].1 == s[p + 1] && r[q].1 == s[q + 1];
        } else if p >= |head| {
          assert r[p] == rest[p - |head|] && r[q] == rest[q - |head|];
        } else {
          var a, b := rest[q - |head|].0, rest[q - |head|].1;
          assert r[q] == (a, b) && (a, b) in rest;
          CombinationsMembership(tail, a, b);
          var i, j :| 0 <= i < j < |tail| && tail[i] == a && tail[j] == b;
          assert a == s[i + 1] && s[0] == r[p].0;
        }
      }
    }
  }
}
