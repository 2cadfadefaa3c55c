/**
 * `group_files_by_sequence` of image-processor.py: files are bucketed by the
 * base name of their parsed metadata (buckets in first-seen order), each
 * bucket is sorted stably by the integer value of its sequence token (0 when
 * there is none), and the buckets are concatenated.
 */
module Grouping {
  import opened Wrappers
  import opened Text
  import opened FilenameParser

  /** One entry of the organised list: `{'path', 'name', 'metadata'}`. */
  datatype FileInfo = FileInfo(path: string, name: string, metadata: Metadata)

  function Info(path: string): FileInfo {
    FileInfo(path, Basename(path), ParseFilename(path))
  }

  /** The entries built for `paths`, with `info` standing for the record
      construction (`Info` in the program). */
  function Infos(paths: seq<string>, info: string -> FileInfo): (r: seq<FileInfo>)
    ensures |r| == |paths| && forall i | 0 <= i < |r| :: r[i] == info(paths[i])
  {
    seq(|paths|, i requires 0 <= i < |paths| => info(paths[i]))
  }

  function BaseOf(f: FileInfo): string { f.metadata.baseName }

  /** `int(sequence or 0)`. A parsed sequence is two ASCII digits, possibly
      followed by a newline that `int()` ignores. */
  function Key(f: FileInfo): nat {
    match f.metadata.sequence
    case None => 0
    case Some(s) =>
      if |s| >= 2 && IsDigit(s[0]) && IsDigit(s[1]) then 10 * DigitValue(s[0]) + DigitValue(s[1]) else 0
  }

  lemma KeyBound(f: FileInfo)
    ensures Key(f) <= 99
  {
  }

  // ---------------------------------------------------------------------
  // Specification: buckets, stable sort, concatenation
  // ---------------------------------------------------------------------

  /** The distinct base names of `xs`, in order of first appearance
      (the key order of the `groups` dict). */
  function Bases(xs: seq<FileInfo>): seq<string> {
    if xs == [] then []
    else
      var prev := Bases(xs[..|xs| - 1]);
      var b := BaseOf(xs[|xs| - 1]);
      if b in prev then prev else prev + [b]
  }

  predicate Distinct(bs: seq<string>) {
    forall i, j | 0 <= i < j < |bs| :: bs[i] != bs[j]
  }

  lemma {:induction false} BasesDistinct(xs: seq<FileInfo>)
    ensures Distinct(Bases(xs))
  {
    if xs != [] {
      BasesDistinct(xs[..|xs| - 1]);
    }
  }

  /** The bucket of base name `b`: the files with that base, in input order. */
  function Bucket(xs: seq<FileInfo>, b: string): seq<FileInfo> {
    if xs == [] then []
    else Bucket(xs[..|xs| - 1], b) + (if BaseOf(xs[|xs| - 1]) == b then [xs[|xs| - 1]] else [])
  }

  /** The files with sequence value `k`, in order. */
  function WithKey(xs: seq<FileInfo>, k: nat): seq<FileInfo> {
    if xs == [] then []
    else (if Key(xs[0]) == k then [xs[0]] else []) + WithKey(xs[1..], k)
  }

  predicate SortedByKey(xs: seq<FileInfo>) {
    forall i, j | 0 <= i < j < |xs| :: Key(xs[i]) <= Key(xs[j])
  }

  /** Places `x` after every element whose key is not larger than its own. */
  function Insert(ys: seq<FileInfo>, x: FileInfo): seq<FileInfo> {
    if ys == [] then [x]
    else if Key(x) < Key(ys[0]) then [x] + ys
    else [ys[0]] + Insert(ys[1..], x)
  }

  /** `files.sort(key=lambda x: int(x['metadata']['sequence'] or 0))`:
      Python's sort is stable, which insertion from the left reproduces. */
  function StableSort(xs: seq<FileInfo>): seq<FileInfo> {
    if xs == [] then [] else Insert(StableSort(xs[..|xs| - 1]), xs[|xs| - 1])
  }

  /** The sorted buckets of the bases `bs`, one after the other. */
  function Concat(bs: seq<string>, xs: seq<FileInfo>): seq<FileInfo> {
    if bs == [] then []
    else Concat(bs[..|bs| - 1], xs) + StableSort(Bucket(xs, bs[|bs| - 1]))
  }

  /** The result of `group_files_by_sequence` on already parsed files. */
  function Organize(xs: seq<FileInfo>): seq<FileInfo> {
    Concat(Bases(xs), xs)
  }

  // ---------------------------------------------------------------------
  // The imperative procedure
  // ---------------------------------------------------------------------

  /** `group_files_by_sequence(image_files)`, with `info` building each
      entry (`Info`: path, basename and `parse_filename`). */
  method GroupFilesBySequence(paths: seq<string>, info: string -> FileInfo) returns (result: seq<FileInfo>)
    ensures result == Organize(Infos(paths, info))
  {
    var groups, order := CollectGroups(paths, info);
    BasesDistinct(Infos(paths, info));
    groups := SortGroups(groups, order, Infos(paths, info));
    result := Flatten(groups, order, Infos(paths, info));
  }

  /** The first loop: the `groups` dict, its keys in insertion order. */
  method CollectGroups(paths: seq<string>, info: string -> FileInfo)
    returns (groups: map<string, seq<FileInfo>>, order: seq<string>)
    ensures order == Bases(Infos(paths, info))
    ensures forall b | b in order :: b in groups && groups[b] == Bucket(Infos(paths, info), b)
  {
    ghost var xs := Infos(paths, info);
    groups := map[];
    order := [];
    var i := 0;
    while i < |paths|
      invariant 0 <= i <= |paths|
      invariant order == Bases(xs[..i])
      invariant forall b | b in order :: b in groups
      invariant forall b | b in groups :: groups[b] == Bucket(xs[..i], b)
    {
      var entry := info(paths[i]);
      var b := entry.metadata.baseName;
      var bucket := if b in groups then groups[b] else [];
      assert bucket == Bucket(xs[..i], b) by {
        if b !in groups { BucketAbsent(xs[..i], b); }
      }
      ghost var before := groups;
      groups := groups[b := bucket + [entry]];
      order := if b in order then order else order + [b];
      assert xs[..i + 1] == xs[..i] + [entry];
      forall c | c in groups
        ensures groups[c] == Bucket(xs[..i + 1], c)
      {
        BucketSnoc(xs[..i], entry, c);
        if c != b {
          assert c in before && groups[c] == before[c];
        }
      }
      BasesSnoc(xs[..i], entry);
      assert forall c | c in groups :: groups[c] == Bucket(xs[..i + 1], c);
      i := i + 1;
      assert forall c | c in groups :: groups[c] == Bucket(xs[..i], c);
    }
    assert xs[..i] == xs;
  }

  /** The second loop: every bucket sorted in place. */
  method SortGroups(groups: map<string, seq<FileInfo>>, order: seq<string>, ghost xs: seq<FileInfo>)
    returns (sorted: map<string, seq<FileInfo>>)
    requires Distinct(order)
    requires forall b | b in order :: b in groups && groups[b] == Bucket(xs, b)
    ensures forall b | b in order :: b in sorted && sorted[b] == StableSort(Bucket(xs, b))
  {
    sorted := groups;
    var j := 0;
    while j < |order|
      invariant 0 <= j <= |order|
      invariant forall b | b in order :: b in sorted
      invariant forall k | 0 <= k < |order| ::
        sorted[order[k]] == if k < j then StableSort(Bucket(xs, order[k])) else Bucket(xs, order[k])
    {
      sorted := sorted[order[j] := StableSort(sorted[order[j]])];
      j := j + 1;
    }
    forall b | b in order
      ensures sorted[b] == StableSort(Bucket(xs, b))
    {
      var k :| 0 <= k < |order| && order[k] == b;
    }
  }

  /** The third loop: the buckets concatenated in key order. */
  method Flatten(groups: map<string, seq<FileInfo>>, order: seq<string>, ghost xs: seq<FileInfo>)
    returns (result: seq<FileInfo>)
    requires forall b | b in order :: b in groups && groups[b] == StableSort(Bucket(xs, b))
    ensures result == Concat(order, xs)
  {
    result := [];
    var j := 0;
    while j < |order|
      invariant 0 <= j <= |order|
      invariant result == Concat(order[..j], xs)
    {
      assert order[..j + 1][..j] == order[..j];
      result := result + groups[order[j]];
      j := j + 1;
    }
    assert order[..j] == order;
  }

  lemma BucketSnoc(xs: seq<FileInfo>, x: FileInfo, b: string)
    ensures Bucket(xs + [x], b) == Bucket(xs, b) + (if BaseOf(x) == b then [x] else [])
  {
    assert (xs + [x])[..|xs|] == xs;
  }

  lemma BasesSnoc(xs: seq<FileInfo>, x: FileInfo)
    ensures Bases(xs + [x]) == if BaseOf(x) in Bases(xs) then Bases(xs) else Bases(xs) + [BaseOf(x)]
  {
    assert (xs + [x])[..|xs|] == xs;
  }

  /** A base name not yet seen has an empty bucket. */
  lemma {:induction false} BucketAbsent(xs: seq<FileInfo>, b: string)
    requires b !in Bases(xs)
    ensures Bucket(xs, b) == []
  {
    if xs != [] {
      BucketAbsent(xs[..|xs| - 1], b);
    }
  }

  // ---------------------------------------------------------------------
  // The stable sort
  // ---------------------------------------------------------------------

  lemma {:induction false} InsertMultiset(ys: seq<FileInfo>, x: FileInfo)
    ensures multiset(Insert(ys, x)) == multiset(ys) + multiset{x}
  {
    if ys != [] && Key(x) >= Key(ys[0]) {
      InsertMultiset(ys[1..], x);
      assert ys == [ys[0]] + ys[1..];
    }
  }

  /** Every key of a sorted sequence is at least its first key. */
  lemma KeysFromFirst(ys: seq<FileInfo>)
    requires SortedByKey(ys) && ys != []
    ensures forall y | y in ys :: Key(ys[0]) <= Key(y)
  {
  }

  lemma {:induction false} InsertSorted(ys: seq<FileInfo>, x: FileInfo)
    requires SortedByKey(ys)
    ensures SortedByKey(Insert(ys, x))
  {
    if ys != [] && Key(x) >= Key(ys[0]) {
      var rest := Insert(ys[1..], x);
      InsertSorted(ys[1..], x);
      InsertMultiset(ys[1..], x);
      forall y | y in rest
        ensures Key(ys[0]) <= Key(y)
      {
        assert y in multiset(rest);
        if y != x {
          assert y in ys[1..];
        }
      }
      assert Insert(ys, x) == [ys[0]] + rest;
    }
  }

  /** A sorted sequence whose keys all exceed `k` has no element with key `k`. */
  lemma {:induction false} WithKeyAbove(ys: seq<FileInfo>, k: nat)
    requires SortedByKey(ys) && ys != [] && k < Key(ys[0])
    ensures WithKey(ys, k) == []
  {
    if |ys| > 1 {
      WithKeyAbove(ys[1..], k);
    }
  }

  lemma {:induction false} WithKeyAppend(a: seq<FileInfo>, b: seq<FileInfo>, k: nat)
    ensures WithKey(a + b, k) == WithKey(a, k) + WithKey(b, k)
  {
    if a != [] {
      WithKeyAppend(a[1..], b, k);
      assert (a + b)[1..] == a[1..] + b;
    } else {
      assert a + b == b;
    }
  }

  /** Insertion puts `x` behind every element with the same key. */
  lemma {:induction false} InsertWithKey(ys: seq<FileInfo>, x: FileInfo, k: nat)
    requires SortedByKey(ys)
    ensures WithKey(Insert(ys, x), k) == WithKey(ys, k) + (if Key(x) == k then [x] else [])
  {
    if ys == [] {
    } else if Key(x) < Key(ys[0]) {
      if Key(x) == k {
        WithKeyAbove(ys, k);
      }
      assert ([x] + ys)[1..] == ys;
    } else {
      InsertWithKey(ys[1..], x, k);
      assert ([ys[0]] + Insert(ys[1..], x))[1..] == Insert(ys[1..], x);
    }
  }

  /** `StableSort` returns its input sorted by key, as a permutation, and
      elements with equal keys keep their input order. */
  lemma StableSortCorrect(xs: seq<FileInfo>)
    ensures SortedByKey(StableSort(xs))
    ensures multiset(StableSort(xs)) == multiset(xs)
    ensures forall k: nat :: WithKey(StableSort(xs), k) == WithKey(xs, k)
  {
    StableSortSorted(xs);
    StableSortPermutes(xs);
    forall k: nat
      ensures WithKey(StableSort(xs), k) == WithKey(xs, k)
    {
      StableSortStable(xs, k);
    }
  }

  lemma {:induction false} StableSortSorted(xs: seq<FileInfo>)
    ensures SortedByKey(StableSort(xs))
  {
    if xs != [] {
      StableSortSorted(xs[..|xs| - 1]);
      InsertSorted(StableSort(xs[..|xs| - 1]), xs[|xs| - 1]);
    }
  }

  lemma {:induction false} StableSortPermutes(xs: seq<FileInfo>)
    ensures multiset(StableSort(xs)) == multiset(xs)
  {
    if xs != [] {
      var init := xs[..|xs| - 1];
      StableSortPermutes(init);
      InsertMultiset(StableSort(init), xs[|xs| - 1]);
      assert xs == init + [xs[|xs| - 1]];
    }
  }

  lemma {:induction false} StableSortStable(xs: seq<FileInfo>, k: nat)
    ensures WithKey(StableSort(xs), k) == WithKey(xs, k)
  {
    if xs != [] {
      var init := xs[..|xs| - 1];
      var x := xs[|xs| - 1];
      StableSortStable(init, k);
      StableSortSorted(init);
      InsertWithKey(StableSort(init), x, k);
      WithKeyAppend(init, [x], k);
      assert xs == init + [x];
    }
  }

  // ---------------------------------------------------------------------
  // Properties of the grouping
  // ---------------------------------------------------------------------

  lemma {:induction false} BucketAppend(a: seq<FileInfo>, c: seq<FileInfo>, b: string)
    ensures Bucket(a + c, b) == Bucket(a, b) + Bucket(c, b)
  {
    if c == [] {
      assert a + c == a;
    } else {
      var c' := c[..|c| - 1];
      BucketAppend(a, c', b);
      assert (a + c)[..|a + c| - 1] == a + c';
    }
  }

  /** A bucket holds only files of its base name. */
  lemma {:induction false} BucketMembers(xs: seq<FileInfo>, b: string)
    ensures forall y | y in Bucket(xs, b) :: BaseOf(y) == b
  {
    if xs != [] {
      BucketMembers(xs[..|xs| - 1], b);
    }
  }

  /** A sequence whose files all have base `d` is its own bucket of `d`. */
  lemma {:induction false} BucketOfBlock(block: seq<FileInfo>, d: string, b: string)
    requires forall y | y in block :: BaseOf(y) == d
    ensures Bucket(block, b) == if b == d then block else []
  {
    if block != [] {
      var init := block[..|block| - 1];
      assert forall y | y in init :: y in block;
      BucketOfBlock(init, d, b);
      assert init + [block[|block| - 1]] == block;
    }
  }

  /** The sorted bucket of `d` holds only files of base `d`. */
  lemma SortedBucketMembers(xs: seq<FileInfo>, d: string)
    ensures forall y | y in StableSort(Bucket(xs, d)) :: BaseOf(y) == d
  {
    StableSortCorrect(Bucket(xs, d));
    BucketMembers(xs, d);
    forall y | y in StableSort(Bucket(xs, d))
      ensures BaseOf(y) == d
    {
      assert y in multiset(StableSort(Bucket(xs, d)));
      assert y in Bucket(xs, d);
    }
  }

  lemma {:induction false} BucketOfConcat(bs: seq<string>, xs: seq<FileInfo>, b: string)
    requires Distinct(bs)
    ensures Bucket(Concat(bs, xs), b) == if b in bs then StableSort(Bucket(xs, b)) else []
  {
    if bs != [] {
      var init := bs[..|bs| - 1];
      var d := bs[|bs| - 1];
      BucketOfConcat(init, xs, b);
      BucketAppend(Concat(init, xs), StableSort(Bucket(xs, d)), b);
      SortedBucketMembers(xs, d);
      BucketOfBlock(StableSort(Bucket(xs, d)), d, b);
      assert b in bs <==> b in init || b == d;
      if b == d {
        assert b !in init;
      }
    }
  }

  /** Each base name's files appear in the result exactly as its bucket,
      stably sorted by sequence value. */
  lemma GroupContents(xs: seq<FileInfo>, b: string)
    ensures Bucket(Organize(xs), b) == StableSort(Bucket(xs, b))
  {
    BasesDistinct(xs);
    BucketOfConcat(Bases(xs), xs, b);
    if b !in Bases(xs) {
      BucketAbsent(xs, b);
    }
  }

  /** The count of a file in a sequence is its count in its own bucket. */
  lemma {:induction false} CountInBucket(xs: seq<FileInfo>, y: FileInfo)
    ensures multiset(xs)[y] == multiset(Bucket(xs, BaseOf(y)))[y]
  {
    if xs != [] {
      var init := xs[..|xs| - 1];
      CountInBucket(init, y);
      assert xs == init + [xs[|xs| - 1]];
    }
  }

  /** `group_files_by_sequence` returns a permutation of its input. */
  lemma OrganizePermutation(xs: seq<FileInfo>)
    ensures multiset(Organize(xs)) == multiset(xs)
  {
    forall y
      ensures multiset(Organize(xs))[y] == multiset(xs)[y]
    {
      CountInBucket(Organize(xs), y);
      CountInBucket(xs, y);
      GroupContents(xs, BaseOf(y));
      StableSortCorrect(Bucket(xs, BaseOf(y)));
    }
  }

  /** Every file of the concatenation has one of the listed base names. */
  lemma {:induction false} ConcatBases(bs: seq<string>, xs: seq<FileInfo>)
    ensures forall y | y in Concat(bs, xs) :: BaseOf(y) in bs
  {
    if bs != [] {
      var init := bs[..|bs| - 1];
      ConcatBases(init, xs);
      SortedBucketMembers(xs, bs[|bs| - 1]);
    }
  }

  predicate Contiguous(ys: seq<FileInfo>) {
    forall i, j, k | 0 <= i < j < k < |ys| && BaseOf(ys[i]) == BaseOf(ys[k]) :: BaseOf(ys[j]) == BaseOf(ys[i])
  }

  lemma {:induction false} ConcatContiguous(bs: seq<string>, xs: seq<FileInfo>)
    requires Distinct(bs)
    ensures Contiguous(Concat(bs, xs))
  {
    if bs != [] {
      var init := bs[..|bs| - 1];
      var d := bs[|bs| - 1];
      var front := Concat(init, xs);
      var block := StableSort(Bucket(xs, d));
      var r := front + block;
      ConcatContiguous(init, xs);
      ConcatBases(init, xs);
      SortedBucketMembers(xs, d);
      forall i, j, k | 0 <= i < j < k < |r| && BaseOf(r[i]) == BaseOf(r[k])
        ensures BaseOf(r[j]) == BaseOf(r[i])
      {
        if k < |front| {
          assert r[i] == front[i] && r[j] == front[j] && r[k] == front[k];
        } else if i >= |front| {
          assert r[i] == block[i - |front|] && r[j] == block[j - |front|] && r[k] == block[k - |front|];
        } else {
          assert false;
        }
      }
    }
  }

  /** Each base name's files form one contiguous run of the result. */
  lemma OrganizeContiguous(xs: seq<FileInfo>)
    ensures Contiguous(Organize(xs))
  {
    BasesDistinct(xs);
    ConcatContiguous(Bases(xs), xs);
  }

  /** A base name in `Bases(s)` is the base of some file of `s`. */
  lemma {:induction false} BasesWitness(s: seq<FileInfo>, b: string) returns (i: nat)
    requires b in Bases(s)
    ensures i < |s| && BaseOf(s[i]) == b
  {
    var init := s[..|s| - 1];
    if b in Bases(init) {
      i := BasesWitness(init, b);
      assert s[i] == init[i];
    } else {
      i := |s| - 1;
    }
  }

  /** Every file's base name is among `Bases`. */
  lemma {:induction false} BasesComplete(s: seq<FileInfo>, i: nat)
    requires i < |s|
    ensures BaseOf(s[i]) in Bases(s)
  {
    var init := s[..|s| - 1];
    if i < |s| - 1 {
      BasesComplete(init, i);
      assert init[i] == s[i];
    }
  }

  /** Appending a run of files of one new base name adds that name once. */
  lemma {:induction false} BasesAppendBlock(a: seq<FileInfo>, block: seq<FileInfo>, d: string)
    requires block != [] && forall y | y in block :: BaseOf(y) == d
    requires d !in Bases(a)
    ensures Bases(a + block) == Bases(a) + [d]
  {
    var init := block[..|block| - 1];
    var last := block[|block| - 1];
    assert (a + block)[..|a + block| - 1] == a + init;
    if init == [] {
      assert a + init == a;
    } else {
      assert forall y | y in init :: y in block;
      BasesAppendBlock(a, init, d);
    }
  }

  lemma BucketNonEmpty(xs: seq<FileInfo>, b: string)
    requires b in Bases(xs)
    ensures StableSort(Bucket(xs, b)) != []
  {
    var i := BasesWitness(xs, b);
    CountInBucket(xs, xs[i]);
    assert xs[i] in multiset(xs);
    StableSortCorrect(Bucket(xs, b));
  }

  lemma {:induction false} BasesOfConcat(bs: seq<string>, xs: seq<FileInfo>)
    requires Distinct(bs) && forall b | b in bs :: b in Bases(xs)
    ensures Bases(Concat(bs, xs)) == bs
  {
    if bs != [] {
      var init := bs[..|bs| - 1];
      var d := bs[|bs| - 1];
      var front := Concat(init, xs);
      BasesOfConcat(init, xs);
      SortedBucketMembers(xs, d);
      BucketNonEmpty(xs, d);
      assert d !in init;
      BasesAppendBlock(front, StableSort(Bucket(xs, d)), d);
      assert init + [d] == bs;
    }
  }

  /** The groups appear in the order in which their base names were first
      seen in the input. */
  lemma OrganizeKeepsFirstSeenOrder(xs: seq<FileInfo>)
    ensures Bases(Organize(xs)) == Bases(xs)
  {
    BasesDistinct(xs);
    BasesOfConcat(Bases(xs), xs);
  }

  /** Within one group the sequence values never decrease, and files with
      equal values keep their input order. */
  lemma GroupSortedAndStable(xs: seq<FileInfo>, b: string)
    ensures SortedByKey(Bucket(Organize(xs), b))
    ensures forall k: nat :: WithKey(Bucket(Organize(xs), b), k) == WithKey(Bucket(xs, b), k)
  {
    GroupContents(xs, b);
    StableSortCorrect(Bucket(xs, b));
  }
}
