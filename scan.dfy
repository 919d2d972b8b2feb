/** The directory scan shared by both scripts' load_metadata: for every
    listed name with a dataset suffix, in listing order, the entry of the
    file's digest is (re)assigned with a fresh description of that file. */
module Scan {
  import opened ContentHash
  import opened Paths
  import opened OrderedMaps
  import opened Datasets

  predicate Accepted(e: DirEntry) {
    HasDatasetSuffix(e.name)
  }

  /** The metadata dict after the loop has seen `listing` */
  function Scanned<V>(m: OrderedMap<Digest, V>, dataDir: string, listing: seq<DirEntry>,
                      describe: (DirEntry, string) -> V): OrderedMap<Digest, V>
    decreases |listing|
  {
    if listing == [] then m
    else
      var e := listing[|listing| - 1];
      var prev := Scanned(m, dataDir, listing[..|listing| - 1], describe);
      if Accepted(e) then prev.Put(Hash(e.content), describe(e, Join(dataDir, e.name))) else prev
  }

  /** The scan keeps the dict well formed and never reorders keys that were
      already there */
  lemma {:induction false} ScannedValid<V>(m: OrderedMap<Digest, V>, dataDir: string,
                                         listing: seq<DirEntry>, describe: (DirEntry, string) -> V)
    requires m.Valid()
    ensures Scanned(m, dataDir, listing, describe).Valid()
    ensures m.keys <= Scanned(m, dataDir, listing, describe).keys
  {
    if listing != [] {
      ScannedValid(m, dataDir, listing[..|listing| - 1], describe);
    }
  }

  /** The keys after the scan: the old ones and the digests of the accepted
      names, nothing else */
  lemma {:induction false} ScannedKeys<V>(m: OrderedMap<Digest, V>, dataDir: string,
                                        listing: seq<DirEntry>, describe: (DirEntry, string) -> V, h: Digest)
    ensures h in Scanned(m, dataDir, listing, describe).items <==>
            h in m.items || exists i :: 0 <= i < |listing| && Accepted(listing[i]) && Hash(listing[i].content) == h
  {
    if listing != [] {
      var init := listing[..|listing| - 1];
      ScannedKeys(m, dataDir, init, describe, h);
      if exists i :: 0 <= i < |listing| && Accepted(listing[i]) && Hash(listing[i].content) == h {
        var i :| 0 <= i < |listing| && Accepted(listing[i]) && Hash(listing[i].content) == h;
        if i < |init| {
          assert init[i] == listing[i];
        }
      }
    }
  }

  /** A key no accepted name hashes to keeps its old value */
  lemma {:induction false} ScannedUntouched<V>(m: OrderedMap<Digest, V>, dataDir: string,
                                             listing: seq<DirEntry>, describe: (DirEntry, string) -> V, h: Digest)
    requires h in m.items
    requires forall i :: 0 <= i < |listing| && Accepted(listing[i]) ==> Hash(listing[i].content) != h
    ensures h in Scanned(m, dataDir, listing, describe).items
    ensures Scanned(m, dataDir, listing, describe).items[h] == m.items[h]
  {
    if listing != [] {
      var init := listing[..|listing| - 1];
      assert forall i :: 0 <= i < |init| ==> init[i] == listing[i];
      ScannedUntouched(m, dataDir, init, describe, h);
    }
  }

  /** Files with identical bytes share one entry, and it describes the last
      of them in listing order */
  lemma {:induction false} ScannedLastWins<V>(m: OrderedMap<Digest, V>, dataDir: string,
                                            listing: seq<DirEntry>, describe: (DirEntry, string) -> V, i: nat)
    requires i < |listing| && Accepted(listing[i])
    requires forall j :: i < j < |listing| && Accepted(listing[j]) ==> Hash(listing[j].content) != Hash(listing[i].content)
    ensures Hash(listing[i].content) in Scanned(m, dataDir, listing, describe).items
    ensures Scanned(m, dataDir, listing, describe).items[Hash(listing[i].content)]
            == describe(listing[i], Join(dataDir, listing[i].name))
  {
    var init := listing[..|listing| - 1];
    if i < |init| {
      assert forall j :: i < j < |init| ==> init[j] == listing[j];
      ScannedLastWins(m, dataDir, init, describe, i);
    }
  }
}
