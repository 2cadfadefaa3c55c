/**
 * The bookkeeping of image-processor.py's `main` around `process_files`:
 * the run-level deduplication of the scanned files (previous failures
 * first, then the directory scan), and the pruning of
 * `cache['processed_files']` after the run (the 1000-entry cap, then the
 * filter that keeps only what this run committed).
 */
module SyncRun {
  import opened Wrappers
  import opened Text
  import opened UploadCache

  // ---------------------------------------------------------------------
  // Deduplication
  // ---------------------------------------------------------------------

  /** A file takes part in the run when it could be hashed and its hash has
      no committed (non-'pending') entry from an earlier run. */
  predicate Eligible(h: Option<Hash>, processed: map<Hash, Entry>) {
    h.Some? && !(h.value in processed && processed[h.value] != Pending)
  }

  /** What the dedup loop has built: `file_hashes` (hash to the name first
      seen with it), `unique_files`, `duplicate_count`, and the entries it
      wrote into `cache['file_hashes']`. */
  datatype Dedup = Dedup(seen: map<Hash, string>, unique: seq<string>, duplicates: nat, names: map<string, Hash>)

  /** One turn of the dedup loop. */
  function DedupStep(d: Dedup, path: string, processed: map<Hash, Entry>, hashOf: string -> Option<Hash>): Dedup {
    var h := hashOf(path);
    if !Eligible(h, processed) then d
    else if h.value in d.seen then d.(duplicates := d.duplicates + 1)
    else
      var name := Basename(path);
      Dedup(d.seen[h.value := name], d.unique + [path], d.duplicates, d.names[name := h.value])
  }

  /** The dedup loop over `paths`, turn by turn. */
  function DedupOf(paths: seq<string>, processed: map<Hash, Entry>, hashOf: string -> Option<Hash>): Dedup
    decreases |paths|
  {
    if paths == [] then Dedup(map[], [], 0, map[])
    else
      var n := |paths| - 1;
      DedupStep(DedupOf(paths[..n], processed, hashOf), paths[n], processed, hashOf)
  }

  /** The `for file_path in all_image_files` loop of `main`, with
      `all_image_files = failed_files + image_files`. The failure ledger
      holds base names, which are hashed as if they were paths. */
  method DedupFiles(cache: Cache, failedFiles: seq<string>, imageFiles: seq<string>, hashOf: string -> Option<Hash>)
    returns (uniqueFiles: seq<string>, duplicateCount: nat)
    modifies cache`fileHashes
    ensures var d := DedupOf(failedFiles + imageFiles, cache.processed, hashOf);
            uniqueFiles == d.unique && duplicateCount == d.duplicates
            && cache.fileHashes == old(cache.fileHashes) + d.names
  {
    var all := failedFiles + imageFiles;
    var acc := Dedup(map[], [], 0, map[]);
    var i := 0;
    while i < |all|
      invariant 0 <= i <= |all|
      invariant acc == DedupOf(all[..i], cache.processed, hashOf)
      invariant cache.fileHashes == old(cache.fileHashes) + acc.names
    {
      DedupOfNext(all, i, cache.processed, hashOf);
      acc := Visit(cache, acc, all[i], hashOf, old(cache.fileHashes));
      i := i + 1;
    }
    assert all[..i] == all;
    uniqueFiles, duplicateCount := acc.unique, acc.duplicates;
  }

  lemma DedupOfNext(paths: seq<string>, i: nat, processed: map<Hash, Entry>, hashOf: string -> Option<Hash>)
    requires i < |paths|
    ensures DedupOf(paths[..i + 1], processed, hashOf) == DedupStep(DedupOf(paths[..i], processed, hashOf), paths[i], processed, hashOf)
  {
    assert paths[..i + 1][..i] == paths[..i];
  }

  /** One turn of the loop: skip an unhashable or committed file, count a
      repeat, or keep the file and record its name and hash. */
  method Visit(cache: Cache, d: Dedup, path: string, hashOf: string -> Option<Hash>, ghost base: map<string, Hash>)
    returns (d': Dedup)
    requires cache.fileHashes == base + d.names
    modifies cache`fileHashes
    ensures d' == DedupStep(d, path, cache.processed, hashOf)
    ensures cache.fileHashes == base + d'.names
  {
    d' := d;
    var h := hashOf(path);
    if h.Some? && !(h.value in cache.processed && cache.processed[h.value] != Pending) {
      if h.value in d.seen {
        d' := d.(duplicates := d.duplicates + 1);
      } else {
        var name := Basename(path);
        cache.fileHashes := cache.fileHashes[name := h.value];
        UpdateAfterMerge(base, d.names, name, h.value);
        d' := Dedup(d.seen[h.value := name], d.unique + [path], d.duplicates, d.names[name := h.value]);
      }
    }
  }

  lemma UpdateAfterMerge<K, V>(base: map<K, V>, m: map<K, V>, k: K, v: V)
    ensures (base + m)[k := v] == base + m[k := v]
  {
  }

  /** A hash is seen exactly when some eligible file carries it. */
  lemma {:induction false} SeenExactly(paths: seq<string>, processed: map<Hash, Entry>, hashOf: string -> Option<Hash>, h: Hash)
    ensures h in DedupOf(paths, processed, hashOf).seen <==>
            exists j | 0 <= j < |paths| :: Eligible(hashOf(paths[j]), processed) && hashOf(paths[j]).value == h
    decreases |paths|
  {
    if paths != [] {
      var n := |paths| - 1;
      SeenExactly(paths[..n], processed, hashOf, h);
      if exists j | 0 <= j < n :: Eligible(hashOf(paths[..n][j]), processed) && hashOf(paths[..n][j]).value == h {
        var j :| 0 <= j < n && Eligible(hashOf(paths[..n][j]), processed) && hashOf(paths[..n][j]).value == h;
        assert paths[..n][j] == paths[j];
      }
      if exists j | 0 <= j < |paths| :: Eligible(hashOf(paths[j]), processed) && hashOf(paths[j]).value == h {
        var j :| 0 <= j < |paths| && Eligible(hashOf(paths[j]), processed) && hashOf(paths[j]).value == h;
        if j < n {
          assert paths[..n][j] == paths[j];
        }
      }
    }
  }

  /** Every file kept is one of the inputs, could be hashed, and had no
      committed entry; and its hash is among those seen. */
  lemma {:induction false} UniqueEligible(paths: seq<string>, processed: map<Hash, Entry>, hashOf: string -> Option<Hash>, k: nat)
    requires k < |DedupOf(paths, processed, hashOf).unique|
    ensures var u := DedupOf(paths, processed, hashOf).unique[k];
            && u in paths && Eligible(hashOf(u), processed)
            && hashOf(u).value in DedupOf(paths, processed, hashOf).seen
    decreases |paths|
  {
    var n := |paths| - 1;
    var d := DedupOf(paths[..n], processed, hashOf);
    DedupStepGrows(d, paths[n], processed, hashOf);
    if k < |d.unique| {
      UniqueEligible(paths[..n], processed, hashOf, k);
      assert d.unique[k] in paths[..n];
      assert paths[..n] <= paths;
    }
  }

  /** One turn only appends the file it visits, and only when that file is
      eligible and its hash becomes seen; no hash is forgotten. */
  lemma DedupStepGrows(d: Dedup, path: string, processed: map<Hash, Entry>, hashOf: string -> Option<Hash>)
    ensures var d' := DedupStep(d, path, processed, hashOf);
            && d.seen.Keys <= d'.seen.Keys
            && (d'.unique == d.unique
                || (d'.unique == d.unique + [path] && Eligible(hashOf(path), processed) && hashOf(path).value in d'.seen))
  {
  }

  /** No two files kept share a hash: no content is uploaded twice in one
      run. */
  lemma {:induction false} UniqueDistinct(paths: seq<string>, processed: map<Hash, Entry>, hashOf: string -> Option<Hash>, j: nat, k: nat)
    requires j < k < |DedupOf(paths, processed, hashOf).unique|
    ensures var us := DedupOf(paths, processed, hashOf).unique;
            hashOf(us[j]) != hashOf(us[k])
    decreases |paths|
  {
    var n := |paths| - 1;
    var d := DedupOf(paths[..n], processed, hashOf);
    if k < |d.unique| {
      UniqueDistinct(paths[..n], processed, hashOf, j, k);
    } else {
      UniqueEligible(paths[..n], processed, hashOf, j);
    }
  }

  /** The file at `i` repeats the content of an earlier eligible file. */
  predicate Repeat(paths: seq<string>, processed: map<Hash, Entry>, hashOf: string -> Option<Hash>, i: nat)
    requires i < |paths|
  {
    Eligible(hashOf(paths[i]), processed) && exists j | 0 <= j < i :: hashOf(paths[j]) == hashOf(paths[i])
  }

  /** How many files repeat an earlier file's content. */
  function RepeatCount(paths: seq<string>, processed: map<Hash, Entry>, hashOf: string -> Option<Hash>): nat
    decreases |paths|
  {
    if paths == [] then 0
    else
      var n := |paths| - 1;
      RepeatCount(paths[..n], processed, hashOf) + (if Repeat(paths, processed, hashOf, n) then 1 else 0)
  }

  /** `duplicate_count` counts exactly the within-run repeats: neither an
      unhashable file nor one committed by an earlier run is counted. */
  lemma {:induction false} DuplicatesAreRepeats(paths: seq<string>, processed: map<Hash, Entry>, hashOf: string -> Option<Hash>)
    ensures DedupOf(paths, processed, hashOf).duplicates == RepeatCount(paths, processed, hashOf)
    decreases |paths|
  {
    if paths != [] {
      var n := |paths| - 1;
      DuplicatesAreRepeats(paths[..n], processed, hashOf);
      var h := hashOf(paths[n]);
      if Eligible(h, processed) {
        SeenExactly(paths[..n], processed, hashOf, h.value);
        if exists j | 0 <= j < n :: hashOf(paths[j]) == h {
          var j :| 0 <= j < n && hashOf(paths[j]) == h;
          assert paths[..n][j] == paths[j];
        }
        if exists j | 0 <= j < n :: Eligible(hashOf(paths[..n][j]), processed) && hashOf(paths[..n][j]).value == h.value {
          var j :| 0 <= j < n && Eligible(hashOf(paths[..n][j]), processed) && hashOf(paths[..n][j]).value == h.value;
          assert paths[..n][j] == paths[j];
        }
      }
    }
  }

  /** Every eligible file is represented: its content is among those kept. */
  lemma EligibleRepresented(paths: seq<string>, processed: map<Hash, Entry>, hashOf: string -> Option<Hash>, i: nat)
    requires i < |paths| && Eligible(hashOf(paths[i]), processed)
    ensures exists k | 0 <= k < |DedupOf(paths, processed, hashOf).unique| ::
              hashOf(DedupOf(paths, processed, hashOf).unique[k]) == hashOf(paths[i])
  {
    SeenExactly(paths, processed, hashOf, hashOf(paths[i]).value);
    SeenRepresented(paths, processed, hashOf, hashOf(paths[i]).value);
  }

  lemma {:induction false} SeenRepresented(paths: seq<string>, processed: map<Hash, Entry>, hashOf: string -> Option<Hash>, h: Hash)
    requires h in DedupOf(paths, processed, hashOf).seen
    ensures exists k | 0 <= k < |DedupOf(paths, processed, hashOf).unique| ::
              hashOf(DedupOf(paths, processed, hashOf).unique[k]) == Some(h)
    decreases |paths|
  {
    var n := |paths| - 1;
    var d := DedupOf(paths[..n], processed, hashOf);
    var e := DedupOf(paths, processed, hashOf);
    if h in d.seen {
      SeenRepresented(paths[..n], processed, hashOf, h);
      var k :| 0 <= k < |d.unique| && hashOf(d.unique[k]) == Some(h);
      assert e.unique[k] == d.unique[k];
    } else {
      assert e.unique[|e.unique| - 1] == paths[n];
    }
  }

  // ---------------------------------------------------------------------
  // Pruning `processed_files`
  // ---------------------------------------------------------------------

  const CacheLimit: nat := 1000

  /** The hashes whose entry is a completion stamp. */
  function DoneKeys(m: map<Hash, Entry>): set<Hash> {
    set k | k in m && m[k].Done?
  }

  /** What the 1000-entry cap may leave: a sub-map that keeps every
      'pending' entry and the `CacheLimit` most recent completions (all of
      them when there are fewer), never dropping a completion more recent
      than one it keeps. */
  ghost predicate Capped(before: map<Hash, Entry>, after: map<Hash, Entry>) {
    && (forall k | k in after :: k in before && after[k] == before[k])
    && (forall k | k in before && before[k] == Pending :: k in after)
    && |DoneKeys(after)| == (if |DoneKeys(before)| < CacheLimit then |DoneKeys(before)| else CacheLimit)
    && (forall k, d | k in after && after[k].Done? && d in before && before[d].Done? && d !in after ::
          before[d].stamp <= after[k].stamp)
  }

  lemma {:induction false} SubsetSize<T>(a: set<T>, b: set<T>)
    requires a <= b
    ensures |a| <= |b|
    decreases |b|
  {
    if a != {} {
      var x :| x in a;
      SubsetSize(a - {x}, b - {x});
    }
  }

  /** Some key of `keys` with the largest stamp. */
  lemma {:induction false} MaxExists(stamps: map<Hash, int>, keys: set<Hash>)
    requires keys != {} && keys <= stamps.Keys
    ensures exists k | k in keys :: forall d | d in keys :: stamps[d] <= stamps[k]
    decreases keys
  {
    var k0 :| k0 in keys;
    var others := keys - {k0};
    if others == {} {
      assert keys == {k0};
    } else {
      MaxExists(stamps, others);
      var k1 :| k1 in others && forall d | d in others :: stamps[d] <= stamps[k1];
      var k := if stamps[k0] <= stamps[k1] then k1 else k0;
      assert forall d | d in keys :: stamps[d] <= stamps[k];
    }
  }

  /** `sorted(..., key=stamp)[-CacheLimit:]` over the completions: the
      `CacheLimit` most recent ones, or all of them when there are fewer,
      and none left out that is more recent than one taken. Which of
      several equal stamps is taken is not modelled. */
  method MostRecent(stamps: map<Hash, int>) returns (top: set<Hash>)
    ensures top <= stamps.Keys
    ensures |top| == if |stamps| < CacheLimit then |stamps| else CacheLimit
    ensures forall k, d | k in top && d in stamps && d !in top :: stamps[d] <= stamps[k]
  {
    var rest := stamps.Keys;
    top := {};
    while |top| < CacheLimit && rest != {}
      invariant Partition(stamps, top, rest) && |top| <= CacheLimit
      decreases rest
    {
      MaxExists(stamps, rest);
      var k :| k in rest && forall d | d in rest :: stamps[d] <= stamps[k];
      MoveMax(stamps, top, rest, k);
      top, rest := top + {k}, rest - {k};
    }
    assert |stamps| == |top + rest| == |top| + |rest|;
  }

  /** The loop state of `MostRecent`: the keys split into those taken and
      the rest, every one taken at least as recent as every one left. */
  ghost predicate Partition(stamps: map<Hash, int>, top: set<Hash>, rest: set<Hash>) {
    && top !! rest && top + rest == stamps.Keys
    && (forall k, d | k in top && d in rest :: stamps[d] <= stamps[k])
  }

  /** Moving a most recent remaining key across keeps the split. */
  lemma MoveMax(stamps: map<Hash, int>, top: set<Hash>, rest: set<Hash>, k: Hash)
    requires Partition(stamps, top, rest)
    requires k in rest && forall d | d in rest :: stamps[d] <= stamps[k]
    ensures Partition(stamps, top + {k}, rest - {k})
    ensures |top + {k}| == |top| + 1
  {
  }

  /** The cap of `main`: above `CacheLimit` entries, only the most recent
      completions are kept, and every 'pending' entry stays. */
  method CapProcessed(cache: Cache)
    modifies cache`processed
    ensures |old(cache.processed)| <= CacheLimit ==> cache.processed == old(cache.processed)
    ensures Capped(old(cache.processed), cache.processed)
  {
    var before := cache.processed;
    if |before| <= CacheLimit {
      SubsetSize(DoneKeys(before), before.Keys);
      return;
    }
    var recent := MostRecent(Stamps(before));
    CapWithCapped(before, recent);
    cache.processed := CapWith(before, recent);
  }

  /** The completion stamps of the cache. */
  function Stamps(m: map<Hash, Entry>): (r: map<Hash, int>)
    ensures r.Keys == DoneKeys(m) && forall k | k in r :: m[k] == Done(r[k])
  {
    map k | k in m && m[k].Done? :: m[k].stamp
  }

  /** The map rebuilt from the kept completions and every 'pending' entry. */
  function CapWith(m: map<Hash, Entry>, recent: set<Hash>): map<Hash, Entry>
    requires recent <= m.Keys
  {
    (map k | k in m && m[k] == Pending :: Pending) + (map k | k in recent :: m[k])
  }

  lemma CapWithCapped(m: map<Hash, Entry>, recent: set<Hash>)
    requires recent <= Stamps(m).Keys
    requires |recent| == if |Stamps(m)| < CacheLimit then |Stamps(m)| else CacheLimit
    requires forall k, d | k in recent && d in Stamps(m) && d !in recent :: Stamps(m)[d] <= Stamps(m)[k]
    ensures Capped(m, CapWith(m, recent))
  {
    assert DoneKeys(CapWith(m, recent)) == recent;
  }

  /** The rewrite at the end of `main`: only entries this run committed
      survive, and no 'pending' entry. */
  function KeepCommitted(m: map<Hash, Entry>, committed: set<Hash>): (r: map<Hash, Entry>)
    ensures forall k | k in r :: k in committed && r[k] != Pending && k in m && r[k] == m[k]
    ensures forall k | k in m && k in committed && m[k] != Pending :: k in r
  {
    map k | k in m && k in committed && m[k] != Pending :: m[k]
  }

  /** The pruning of `main`: the cap, then the filter by this run's
      committed set `processedFiles`; the time stamp, then `save_cache`. */
  method PruneProcessed(cache: Cache, processedFiles: set<Hash>, now: string)
    modifies cache`processed, cache`lastProcessed, cache`events
    ensures exists capped :: Capped(old(cache.processed), capped) && cache.processed == KeepCommitted(capped, processedFiles)
    ensures |old(cache.processed)| <= CacheLimit ==> cache.processed == KeepCommitted(old(cache.processed), processedFiles)
    ensures cache.lastProcessed == Some(now)
    ensures cache.events == old(cache.events) + [Saved(cache.processed, cache.urls)]
  {
    CapProcessed(cache);
    ghost var capped := cache.processed;
    cache.processed := KeepCommitted(cache.processed, processedFiles);
    cache.lastProcessed := Some(now);
    cache.Save();
  }
}
