/**
 * The spreadsheet writes of image-processor.py: the bounded retry helpers
 * `safe_update_cells` and `safe_append_rows`, the batching of
 * `update_spreadsheet`, the `=IMAGE(...)` formulas of
 * `update_thumbnail_formula`, and the clearing of "New" statuses in
 * batches of 1000 from `main`.
 *
 * The worksheet is a class. Its write calls (`update_cells`,
 * `append_rows`, `append_row`) are answered by an oracle: the n-th write
 * call succeeds or fails with an `APIError` or another exception. The
 * reads (`row_values`, `get_all_values`) come from separate inputs. What the successful calls wrote is kept as the
 * cells written and the rows appended, in order.
 */
module BatchWriter {
  import opened Wrappers
  import opened Text
  import opened SheetSnapshot

  /** How one worksheet call ends. */
  datatype CallOutcome = Ok | ApiError | OtherError

  /** A spreadsheet row as `append_rows` receives it. */
  type Row = seq<Option<string>>

  const Retries: nat := 3

  /** How a retry loop over the calls numbered `start`, `start + 1`, ...
      ends: success after `calls` calls, giving up after three failures, or
      an exception it does not catch escaping after `calls` calls. */
  datatype RetryEnd = Success(calls: nat) | GaveUp | Escaped(calls: nat)

  /** The retry loop from attempt `k` on. `catchAll` says whether any
      exception is retried (`safe_update_cells`) or only an `APIError`
      (`safe_append_rows`). The loop makes between one and three calls. */
  function RetryFrom(outcomeOf: nat -> CallOutcome, start: nat, k: nat, catchAll: bool): (e: RetryEnd)
    requires k <= Retries
    ensures k < Retries ==> k < CallsOf(e) <= Retries
    decreases Retries - k
  {
    if k == Retries then GaveUp
    else match outcomeOf(start + k)
      case Ok => Success(k + 1)
      case ApiError => RetryFrom(outcomeOf, start, k + 1, catchAll)
      case OtherError => if catchAll then RetryFrom(outcomeOf, start, k + 1, catchAll) else Escaped(k + 1)
  }

  /** Calls a retry loop makes. */
  function CallsOf(e: RetryEnd): nat {
    match e
    case Success(n) => n
    case GaveUp => Retries
    case Escaped(n) => n
  }

  /** Whether the retry loop goes on after a call ending with `o`. */
  predicate Retried(o: CallOutcome, catchAll: bool) {
    o == ApiError || (catchAll && o == OtherError)
  }

  /** A success ends on a call that succeeded, and only a loop that does
      not catch everything lets an exception escape, on the call that
      raised it. */
  lemma {:induction false} RetryLastCall(outcomeOf: nat -> CallOutcome, start: nat, k: nat, catchAll: bool)
    requires k <= Retries
    ensures var e := RetryFrom(outcomeOf, start, k, catchAll);
            && (e.Success? ==> k < e.calls && outcomeOf(start + e.calls - 1) == Ok)
            && (e.Escaped? ==> k < e.calls && !catchAll && outcomeOf(start + e.calls - 1) == OtherError)
    decreases Retries - k
  {
    if k < Retries {
      RetryLastCall(outcomeOf, start, k + 1, catchAll);
    }
  }

  /** Some call in `[lo, hi)` succeeds and every call before it failed in
      a way the loop retries. */
  predicate SomeCallSucceeds(outcomeOf: nat -> CallOutcome, catchAll: bool, lo: nat, hi: nat) {
    exists c | lo <= c < hi :: outcomeOf(c) == Ok && forall d | lo <= d < c :: Retried(outcomeOf(d), catchAll)
  }

  lemma SomeCallSucceedsStep(outcomeOf: nat -> CallOutcome, catchAll: bool, lo: nat, hi: nat)
    requires lo < hi
    ensures SomeCallSucceeds(outcomeOf, catchAll, lo, hi)
        <==> outcomeOf(lo) == Ok || (Retried(outcomeOf(lo), catchAll) && SomeCallSucceeds(outcomeOf, catchAll, lo + 1, hi))
  {
    if outcomeOf(lo) == Ok {
      assert outcomeOf(lo) == Ok && forall d: nat | lo <= d < lo :: Retried(outcomeOf(d), catchAll);
    } else if Retried(outcomeOf(lo), catchAll) {
      if SomeCallSucceeds(outcomeOf, catchAll, lo + 1, hi) {
        var c :| lo + 1 <= c < hi && outcomeOf(c) == Ok && forall d | lo + 1 <= d < c :: Retried(outcomeOf(d), catchAll);
        assert forall d | lo <= d < c :: Retried(outcomeOf(d), catchAll);
      }
      if SomeCallSucceeds(outcomeOf, catchAll, lo, hi) {
        var c :| lo <= c < hi && outcomeOf(c) == Ok && forall d | lo <= d < c :: Retried(outcomeOf(d), catchAll);
        assert c != lo;
      }
    } else {
      forall c | lo <= c < hi && outcomeOf(c) == Ok
        ensures !forall d | lo <= d < c :: Retried(outcomeOf(d), catchAll)
      {
        assert c != lo;
      }
    }
  }

  /** The retry loop succeeds exactly when some call among the three
      succeeds and every call before it failed in a way the loop retries. */
  lemma {:induction false} RetryFacts(outcomeOf: nat -> CallOutcome, start: nat, k: nat, catchAll: bool)
    requires k <= Retries
    ensures RetryFrom(outcomeOf, start, k, catchAll).Success? <==> SomeCallSucceeds(outcomeOf, catchAll, start + k, start + Retries)
    decreases Retries - k
  {
    if k < Retries {
      RetryFacts(outcomeOf, start, k + 1, catchAll);
      var lo := start + k;
      SomeCallSucceedsStep(outcomeOf, catchAll, lo, start + Retries);
      assert start + (k + 1) == lo + 1;
      var e := RetryFrom(outcomeOf, start, k, catchAll);
      var o := outcomeOf(lo);
      if o == Ok {
        assert e.Success?;
      } else if Retried(o, catchAll) {
        assert e == RetryFrom(outcomeOf, start, k + 1, catchAll);
      } else {
        assert !e.Success?;
      }
    }
  }

  // ---------------------------------------------------------------------
  // Batches
  // ---------------------------------------------------------------------

  /** `[xs[i:i+n] for i in range(0, len(xs), n)]` */
  function Chunks<T>(xs: seq<T>, n: nat): seq<seq<T>>
    requires n > 0
    decreases |xs|
  {
    if xs == [] then []
    else if |xs| <= n then [xs]
    else [xs[..n]] + Chunks(xs[n..], n)
  }

  function Flatten<T>(bs: seq<seq<T>>): seq<T>
    decreases |bs|
  {
    if bs == [] then [] else bs[0] + Flatten(bs[1..])
  }

  /** Cutting the first batch off. */
  lemma ChunksStep<T>(xs: seq<T>, i: nat, end: nat, n: nat)
    requires n > 0 && i < |xs| && end == (if i + n < |xs| then i + n else |xs|)
    ensures Chunks(xs[i..], n) == [xs[i..end]] + Chunks(xs[end..], n)
  {
    if |xs[i..]| > n {
      assert xs[i..][..n] == xs[i..end] && xs[i..][n..] == xs[end..];
    } else {
      assert xs[i..] == xs[i..end] && xs[end..] == [];
    }
  }

  /** The batches put back together give the input. */
  lemma {:induction false} ChunksRoundTrip<T>(xs: seq<T>, n: nat)
    requires n > 0
    ensures Flatten(Chunks(xs, n)) == xs
    decreases |xs|
  {
    if |xs| > n {
      ChunksRoundTrip(xs[n..], n);
      assert Chunks(xs, n) == [xs[..n]] + Chunks(xs[n..], n);
      assert xs[..n] + xs[n..] == xs;
    } else if xs != [] {
      assert Chunks(xs, n) == [xs];
      assert Flatten([xs]) == xs + Flatten<T>([]);
    }
  }

  /** Every batch is non-empty and at most `n` long, and only the last
      may be short. */
  lemma {:induction false} ChunksSizes<T>(xs: seq<T>, n: nat)
    requires n > 0
    ensures forall i | 0 <= i < |Chunks(xs, n)| :: 1 <= |Chunks(xs, n)[i]| <= n
    ensures forall i | 0 <= i < |Chunks(xs, n)| - 1 :: |Chunks(xs, n)[i]| == n
    decreases |xs|
  {
    if |xs| > n {
      ChunksSizes(xs[n..], n);
      var cs := Chunks(xs, n);
      assert cs == [xs[..n]] + Chunks(xs[n..], n);
      forall i | 1 <= i < |cs| ensures cs[i] == Chunks(xs[n..], n)[i - 1] { }
    } else if xs != [] {
      assert Chunks(xs, n) == [xs];
    }
  }

  /** The concatenation of the batches whose flag is set. */
  function Kept<T>(bs: seq<seq<T>>, oks: seq<bool>): seq<T>
    requires |oks| == |bs|
    decreases |bs|
  {
    if bs == [] then []
    else
      var n := |bs| - 1;
      Kept(bs[..n], oks[..n]) + (if oks[n] then bs[n] else [])
  }

  /** When every batch succeeds, everything is written, in order. */
  lemma {:induction false} KeptAll<T>(bs: seq<seq<T>>, oks: seq<bool>)
    requires |oks| == |bs| && forall i | 0 <= i < |oks| :: oks[i]
    ensures Kept(bs, oks) == Flatten(bs)
    decreases |bs|
  {
    if bs != [] {
      var n := |bs| - 1;
      assert forall i | 0 <= i < n :: oks[..n][i] == oks[i];
      KeptAll(bs[..n], oks[..n]);
      FlattenSnoc(bs[..n], bs[n]);
      assert bs[..n] + [bs[n]] == bs;
    }
  }

  lemma {:induction false} FlattenSnoc<T>(bs: seq<seq<T>>, b: seq<T>)
    ensures Flatten(bs + [b]) == Flatten(bs) + b
    decreases |bs|
  {
    if bs == [] {
      assert [b][1..] == [];
    } else {
      FlattenSnoc(bs[1..], b);
      assert (bs + [b])[1..] == bs[1..] + [b];
    }
  }

  lemma ConcatAssoc<T>(a: seq<T>, b: seq<T>, c: seq<T>)
    ensures a + (b + c) == (a + b) + c
  {
  }

  /** The elements of `xs` whose flag is set, in order. */
  function Select<T>(xs: seq<T>, keep: seq<bool>): seq<T>
    requires |keep| == |xs|
    decreases |xs|
  {
    if xs == [] then []
    else
      var n := |xs| - 1;
      Select(xs[..n], keep[..n]) + (if keep[n] then [xs[n]] else [])
  }

  /** The positions of the set flags, in increasing order. */
  function SelectedIndices(keep: seq<bool>): seq<nat>
    decreases |keep|
  {
    if keep == [] then []
    else
      var n := |keep| - 1;
      SelectedIndices(keep[..n]) + (if keep[n] then [n] else [])
  }

  /** The rows appended are the flagged rows, each once and in input
      order: entry j is the row at the j-th flagged position. */
  lemma {:induction false} SelectOrder<T>(xs: seq<T>, keep: seq<bool>)
    requires |keep| == |xs|
    ensures var idx := SelectedIndices(keep);
            && |idx| == |Select(xs, keep)|
            && (forall j | 0 <= j < |idx| :: idx[j] < |xs| && keep[idx[j]] && Select(xs, keep)[j] == xs[idx[j]])
            && (forall j, k | 0 <= j < k < |idx| :: idx[j] < idx[k])
            && (forall i | 0 <= i < |xs| && keep[i] :: i in idx)
    decreases |xs|
  {
    if xs != [] {
      var n := |xs| - 1;
      SelectOrder(xs[..n], keep[..n]);
      var idx0 := SelectedIndices(keep[..n]);
      var sel0 := Select(xs[..n], keep[..n]);
      var idx := SelectedIndices(keep);
      var sel := Select(xs, keep);
      assert idx == idx0 + (if keep[n] then [n] else []);
      assert sel == sel0 + (if keep[n] then [xs[n]] else []);
      forall j | 0 <= j < |idx0|
        ensures idx[j] == idx0[j] && idx0[j] < n && keep[idx[j]] && sel[j] == xs[idx[j]]
      {
        assert keep[..n][idx0[j]] == keep[idx0[j]];
        assert xs[..n][idx0[j]] == xs[idx0[j]];
      }
      forall i | 0 <= i < n && keep[i] ensures i in idx {
        assert keep[..n][i] == keep[i];
        assert i in idx0;
      }
    }
  }

  /** What is appended is a selection of the rows: no longer than them,
      made only of them, and everything when every flag is set. The order
      is kept: see `SelectOrder`. */
  lemma {:induction false} SelectFacts<T>(xs: seq<T>, keep: seq<bool>)
    requires |keep| == |xs|
    ensures |Select(xs, keep)| <= |xs|
    ensures (forall i | 0 <= i < |keep| :: keep[i]) ==> Select(xs, keep) == xs
    ensures forall y | y in Select(xs, keep) :: y in xs
    decreases |xs|
  {
    if xs != [] {
      var n := |xs| - 1;
      SelectFacts(xs[..n], keep[..n]);
      assert xs[..n] + [xs[n]] == xs;
    }
  }

  /** The batches done so far and the rest, after one more batch. */
  lemma ChunksAdvance<T>(xs: seq<T>, n: nat, done: seq<seq<T>>, i: nat, end: nat)
    requires n > 0 && i < |xs| && end == (if i + n < |xs| then i + n else |xs|)
    requires Chunks(xs, n) == done + Chunks(xs[i..], n)
    ensures Chunks(xs, n) == (done + [xs[i..end]]) + Chunks(xs[end..], n)
  {
    ChunksStep(xs, i, end, n);
  }

  /** Once the loop has reached the end, the batches done are all of them. */
  lemma ChunksEnd<T>(xs: seq<T>, n: nat, done: seq<seq<T>>, i: nat)
    requires n > 0 && i == |xs| && Chunks(xs, n) == done + Chunks(xs[i..], n)
    ensures done == Chunks(xs, n)
  {
    assert xs[i..] == [];
    assert done + [] == done;
  }

  lemma KeptSnoc<T>(bs: seq<seq<T>>, oks: seq<bool>, b: seq<T>, ok: bool)
    requires |oks| == |bs|
    ensures Kept(bs + [b], oks + [ok]) == Kept(bs, oks) + (if ok then b else [])
  {
    assert (bs + [b])[..|bs|] == bs;
    assert (oks + [ok])[..|oks|] == oks;
  }

  /** Selecting from two pieces is selecting from each in turn. */
  lemma {:induction false} SelectAppend<T>(xs: seq<T>, ks: seq<bool>, ys: seq<T>, ls: seq<bool>)
    requires |ks| == |xs| && |ls| == |ys|
    ensures Select(xs + ys, ks + ls) == Select(xs, ks) + Select(ys, ls)
    decreases |ys|
  {
    if ys == [] {
      assert xs + ys == xs && ks + ls == ks;
    } else {
      var n := |ys| - 1;
      SelectAppend(xs, ks, ys[..n], ls[..n]);
      var zs, ms := xs + ys, ks + ls;
      assert |zs| - 1 == |xs| + n && zs[|zs| - 1] == ys[n] && ms[|ms| - 1] == ls[n];
      assert zs[..|zs| - 1] == xs + ys[..n];
      assert ms[..|ms| - 1] == ks + ls[..n];
    }
  }

  /** The rows selected so far, after one more batch. */
  lemma SelectAdvance<T>(xs: seq<T>, i: nat, end: nat, keep: seq<bool>, ks: seq<bool>)
    requires i <= end <= |xs| && |keep| == i && |ks| == end - i
    ensures Select(xs[..end], keep + ks) == Select(xs[..i], keep) + Select(xs[i..end], ks)
  {
    SelectAppend(xs[..i], keep, xs[i..end], ks);
    assert xs[..i] + xs[i..end] == xs[..end];
  }

  lemma SelectSnoc<T>(xs: seq<T>, keep: seq<bool>, x: T, k: bool)
    requires |keep| == |xs|
    ensures Select(xs + [x], keep + [k]) == Select(xs, keep) + (if k then [x] else [])
  {
    assert (xs + [x])[..|xs|] == xs;
    assert (keep + [k])[..|keep|] == keep;
  }

  /** `SelectSnoc` for the prefixes of `xs`. */
  lemma SelectPrefix<T>(xs: seq<T>, j: nat, keep: seq<bool>, k: bool)
    requires j < |xs| && |keep| == j
    ensures Select(xs[..j + 1], keep + [k]) == Select(xs[..j], keep) + (if k then [xs[j]] else [])
  {
    assert xs[..j + 1] == xs[..j] + [xs[j]];
    SelectSnoc(xs[..j], keep, xs[j], k);
  }

  // ---------------------------------------------------------------------
  // What a run of batches does, call by call
  // ---------------------------------------------------------------------

  /** Which batches went through and how many calls were made. */
  datatype UpdatesDone = UpdatesDone(oks: seq<bool>, calls: nat)

  /** `safe_update_cells` as a function of the number of its first call. */
  function SafeUpdateFrom(outcomeOf: nat -> CallOutcome): nat -> RetryEnd {
    (s: nat) => RetryFrom(outcomeOf, s, 0, true)
  }

  /** `n` batches written one after the other, the first call numbered
      `start`: each batch runs `retry` on the calls that follow those of
      the batches before it. */
  function UpdateRun(retry: nat -> RetryEnd, start: nat, n: nat): UpdatesDone
    decreases n
  {
    if n == 0 then UpdatesDone([], 0)
    else
      var prev := UpdateRun(retry, start, n - 1);
      var e := retry(start + prev.calls);
      UpdatesDone(prev.oks + [e.Success?], prev.calls + CallsOf(e))
  }

  /** No cells: no batch, no call, nothing written. */
  lemma NothingWritten<T>(xs: seq<T>, n: nat)
    requires n > 0 && xs == []
    ensures Chunks(xs, n) == [] && forall retry: nat -> RetryEnd, start: nat :: UpdateRun(retry, start, |Chunks(xs, n)|) == UpdatesDone([], 0)
  {
  }

  /** One more batch, its first call numbered `at`. */
  lemma UpdateRunNext(outcomeOf: nat -> CallOutcome, start: nat, n: nat, oks: seq<bool>, at: nat)
    requires at >= start && UpdateRun(SafeUpdateFrom(outcomeOf), start, n) == UpdatesDone(oks, at - start)
    ensures var e := RetryFrom(outcomeOf, at, 0, true);
            UpdateRun(SafeUpdateFrom(outcomeOf), start, n + 1) == UpdatesDone(oks + [e.Success?], at - start + CallsOf(e))
  {
    UpdateRunSnoc(SafeUpdateFrom(outcomeOf), start, n, oks, at);
    assert SafeUpdateFrom(outcomeOf)(at) == RetryFrom(outcomeOf, at, 0, true);
  }

  lemma UpdateRunSnoc(retry: nat -> RetryEnd, start: nat, n: nat, oks: seq<bool>, at: nat)
    requires at >= start && UpdateRun(retry, start, n) == UpdatesDone(oks, at - start)
    ensures UpdateRun(retry, start, n + 1) == UpdatesDone(oks + [retry(at).Success?], at - start + CallsOf(retry(at)))
  {
    assert start + (at - start) == at;
  }

  lemma {:induction false} UpdateRunBounds(retry: nat -> RetryEnd, start: nat, n: nat)
    requires forall s :: 1 <= CallsOf(retry(s)) <= 3
    ensures |UpdateRun(retry, start, n).oks| == n
    ensures n <= UpdateRun(retry, start, n).calls <= 3 * n
    ensures (forall s | start <= s < start + n :: retry(s) == Success(1)) ==>
              UpdateRun(retry, start, n).calls == n && forall i | 0 <= i < n :: UpdateRun(retry, start, n).oks[i]
    decreases n
  {
    if n > 0 {
      UpdateRunBounds(retry, start, n - 1);
      var prev := UpdateRun(retry, start, n - 1);
      var e := retry(start + prev.calls);
      var run := UpdatesDone(prev.oks + [e.Success?], prev.calls + CallsOf(e));
      assert UpdateRun(retry, start, n) == run;
      if forall s | start <= s < start + n :: retry(s) == Success(1) {
        assert e == Success(1);
        forall i | 0 <= i < n ensures run.oks[i] {
          if i < n - 1 {
            assert run.oks[i] == prev.oks[i];
          }
        }
      }
    }
  }

  /** One flag per batch; every batch makes one to three calls; when every
      call answers `Ok`, every batch goes through on its first call. */
  lemma UpdateRunFacts(outcomeOf: nat -> CallOutcome, start: nat, n: nat)
    ensures var run := UpdateRun(SafeUpdateFrom(outcomeOf), start, n);
            && |run.oks| == n && n <= run.calls <= 3 * n
            && ((forall c | start <= c < start + n :: outcomeOf(c) == Ok) ==>
                  run.calls == n && forall i | 0 <= i < n :: run.oks[i])
  {
    var retry := SafeUpdateFrom(outcomeOf);
    assert forall s: nat :: retry(s) == RetryFrom(outcomeOf, s, 0, true);
    if forall c | start <= c < start + n :: outcomeOf(c) == Ok {
      forall s | start <= s < start + n ensures retry(s) == Success(1) {
        assert outcomeOf(s) == Ok;
      }
    }
    UpdateRunBounds(retry, start, n);
  }

  /** All flags set. */
  function AllSet(n: nat): (r: seq<bool>)
    ensures |r| == n && forall i | 0 <= i < n :: r[i]
  {
    seq(n, _ => true)
  }

  /** The per-row fallback over `n` rows, first call numbered `start`:
      one flag per row, set iff that row's call answers `Ok`. */
  function EachOk(outcomeOf: nat -> CallOutcome, start: nat, n: nat): seq<bool>
    decreases n
  {
    if n == 0 then [] else EachOk(outcomeOf, start, n - 1) + [outcomeOf(start + n - 1) == Ok]
  }

  /** One more row, its call numbered `at`. */
  lemma EachOkNext(outcomeOf: nat -> CallOutcome, start: nat, n: nat, at: nat)
    requires at == start + n
    ensures EachOk(outcomeOf, start, n + 1) == EachOk(outcomeOf, start, n) + [outcomeOf(at) == Ok]
  {
  }

  /** Row `j` of the fallback is appended iff call `start + j` answers `Ok`. */
  lemma {:induction false} EachOkFacts(outcomeOf: nat -> CallOutcome, start: nat, n: nat)
    ensures |EachOk(outcomeOf, start, n)| == n
    ensures forall j | 0 <= j < n :: EachOk(outcomeOf, start, n)[j] == (outcomeOf(start + j) == Ok)
    decreases n
  {
    if n > 0 {
      EachOkFacts(outcomeOf, start, n - 1);
    }
  }

  /** How one batch of appended rows ends: which rows were appended and
      how many calls were made, or an exception escaping after `calls`
      calls. */
  datatype AppendEnd = Appended(keep: seq<bool>, calls: nat) | Raised(calls: nat)

  /** One batch of `n` rows, first call numbered `start`: `safe_append_rows`,
      then `append_row` row by row when it gives up. */
  function AppendOne(outcomeOf: nat -> CallOutcome, start: nat, n: nat): AppendEnd {
    match RetryFrom(outcomeOf, start, 0, false)
    case Success(c) => Appended(AllSet(n), c)
    case GaveUp => Appended(EachOk(outcomeOf, start + Retries, n), Retries + n)
    case Escaped(c) => Raised(c)
  }

  /** A batch that does not raise flags each of its rows; one that raises
      does so on its last call, with something other than an `APIError`;
      a batch whose first call answers `Ok` is appended whole in one call. */
  lemma AppendOneFacts(outcomeOf: nat -> CallOutcome, start: nat, n: nat)
    ensures var r := AppendOne(outcomeOf, start, n);
            && (r.Appended? ==> |r.keep| == n)
            && (r.Raised? ==> 1 <= r.calls && outcomeOf(start + r.calls - 1) == OtherError)
            && (outcomeOf(start) == Ok ==> r == Appended(AllSet(n), 1))
  {
    RetryFacts(outcomeOf, start, 0, false);
    RetryLastCall(outcomeOf, start, 0, false);
    EachOkFacts(outcomeOf, start + Retries, n);
  }

  /** `AppendOne` as a function of the first call's number and the batch
      length. */
  function AppendBatchFrom(outcomeOf: nat -> CallOutcome): (nat, nat) -> AppendEnd {
    (s: nat, n: nat) => AppendOne(outcomeOf, s, n)
  }

  /** Rows flagged over the batches reached, calls made, and whether an
      exception escaped. */
  datatype AppendsDone = AppendsDone(keep: seq<bool>, calls: nat, raised: bool)

  /** The batches `bs` appended one after the other, each by `one`, stopping
      at the first batch an exception escapes from. */
  function AppendRun<T>(one: (nat, nat) -> AppendEnd, start: nat, bs: seq<seq<T>>): AppendsDone
    decreases |bs|
  {
    if bs == [] then AppendsDone([], 0, false)
    else AppendNext(AppendRun(one, start, bs[..|bs| - 1]), one(start + AppendRun(one, start, bs[..|bs| - 1]).calls, |bs[|bs| - 1]|))
  }

  /** The run so far, `prev`, followed by a batch that ended with `r`
      (which is ignored once an exception has escaped). */
  function AppendNext(prev: AppendsDone, r: AppendEnd): AppendsDone {
    if prev.raised then prev
    else match r
      case Appended(ks, c) => AppendsDone(prev.keep + ks, prev.calls + c, false)
      case Raised(c) => AppendsDone(prev.keep, prev.calls + c, true)
  }

  /** No rows: no batch, no call, nothing appended. */
  lemma NothingAppended<T>(xs: seq<T>, n: nat)
    requires n > 0 && xs == []
    ensures Chunks(xs, n) == [] && forall one: (nat, nat) -> AppendEnd, start: nat :: AppendRun(one, start, Chunks(xs, n)) == AppendsDone([], 0, false)
  {
  }

  /** One more batch, its first call numbered `at`, after batches that
      raised nothing. */
  lemma AppendRunNext<T>(outcomeOf: nat -> CallOutcome, start: nat, done: seq<seq<T>>, b: seq<T>, keep: seq<bool>, at: nat)
    requires at >= start && AppendRun(AppendBatchFrom(outcomeOf), start, done) == AppendsDone(keep, at - start, false)
    ensures var r := AppendOne(outcomeOf, at, |b|);
            AppendRun(AppendBatchFrom(outcomeOf), start, done + [b])
              == if r.Raised? then AppendsDone(keep, at - start + r.calls, true)
                 else AppendsDone(keep + r.keep, at - start + r.calls, false)
  {
    AppendRunSnoc(AppendBatchFrom(outcomeOf), start, done, b, keep, at);
    assert AppendBatchFrom(outcomeOf)(at, |b|) == AppendOne(outcomeOf, at, |b|);
  }

  lemma AppendRunSnoc<T>(one: (nat, nat) -> AppendEnd, start: nat, done: seq<seq<T>>, b: seq<T>, keep: seq<bool>, at: nat)
    requires at >= start && AppendRun(one, start, done) == AppendsDone(keep, at - start, false)
    ensures var r := one(at, |b|);
            AppendRun(one, start, done + [b])
              == if r.Raised? then AppendsDone(keep, at - start + r.calls, true)
                 else AppendsDone(keep + r.keep, at - start + r.calls, false)
  {
    var bs := done + [b];
    assert bs[..|bs| - 1] == done;
    assert bs[|bs| - 1] == b;
    assert start + (at - start) == at;
  }

  /** Once an exception has escaped, later batches change nothing. */
  lemma {:induction false} AppendRunStops<T>(one: (nat, nat) -> AppendEnd, start: nat, bs: seq<seq<T>>, rest: seq<seq<T>>)
    requires AppendRun(one, start, bs).raised
    ensures AppendRun(one, start, bs + rest) == AppendRun(one, start, bs)
    decreases |rest|
  {
    if rest != [] {
      var n := |rest| - 1;
      AppendRunStops(one, start, bs, rest[..n]);
      var all := bs + rest;
      assert all[..|all| - 1] == bs + rest[..n];
      assert AppendRun(one, start, all[..|all| - 1]).raised;
    } else {
      assert bs + rest == bs;
    }
  }

  lemma {:induction false} AppendRunLength<T>(one: (nat, nat) -> AppendEnd, start: nat, bs: seq<seq<T>>)
    requires forall s: nat, m: nat :: one(s, m).Appended? ==> |one(s, m).keep| == m
    ensures !AppendRun(one, start, bs).raised ==> |AppendRun(one, start, bs).keep| == |Flatten(bs)|
    decreases |bs|
  {
    if bs != [] {
      var n := |bs| - 1;
      AppendRunLength(one, start, bs[..n]);
      FlattenSnoc(bs[..n], bs[n]);
      assert bs[..n] + [bs[n]] == bs;
      var prev := AppendRun(one, start, bs[..n]);
      if !prev.raised {
        var r := one(start + prev.calls, |bs[n]|);
        if r.Appended? {
          assert AppendRun(one, start, bs) == AppendsDone(prev.keep + r.keep, prev.calls + r.calls, false);
        }
      }
    }
  }

  lemma {:induction false} AppendRunEscape<T>(outcomeOf: nat -> CallOutcome, one: (nat, nat) -> AppendEnd, start: nat, bs: seq<seq<T>>)
    requires forall s: nat, m: nat :: one(s, m).Raised? ==> 1 <= one(s, m).calls && outcomeOf(s + one(s, m).calls - 1) == OtherError
    ensures var run := AppendRun(one, start, bs);
            run.raised ==> 1 <= run.calls && outcomeOf(start + run.calls - 1) == OtherError
    decreases |bs|
  {
    if bs != [] {
      var n := |bs| - 1;
      AppendRunEscape(outcomeOf, one, start, bs[..n]);
      var prev := AppendRun(one, start, bs[..n]);
      var run := AppendRun(one, start, bs);
      if prev.raised {
        assert run == prev;
      } else {
        var s0 := start + prev.calls;
        var r := one(s0, |bs[n]|);
        assert run == AppendNext(prev, r);
        if r.Raised? {
          assert run.calls == prev.calls + r.calls;
          assert outcomeOf(s0 + r.calls - 1) == OtherError;
          assert start + run.calls - 1 == s0 + r.calls - 1;
        } else {
          assert !run.raised;
        }
      }
    }
  }

  lemma {:induction false} AppendRunAllOk<T>(outcomeOf: nat -> CallOutcome, one: (nat, nat) -> AppendEnd, start: nat, bs: seq<seq<T>>)
    requires forall s: nat, m: nat :: outcomeOf(s) == Ok ==> one(s, m) == Appended(AllSet(m), 1)
    requires forall c | start <= c < start + |bs| :: outcomeOf(c) == Ok
    ensures var run := AppendRun(one, start, bs);
            !run.raised && run.calls == |bs| && forall i | 0 <= i < |run.keep| :: run.keep[i]
    decreases |bs|
  {
    if bs != [] {
      var n := |bs| - 1;
      AppendRunAllOk(outcomeOf, one, start, bs[..n]);
      var prev := AppendRun(one, start, bs[..n]);
      var s0 := start + prev.calls;
      assert outcomeOf(s0) == Ok;
      var run := AppendsDone(prev.keep + AllSet(|bs[n]|), prev.calls + 1, false);
      assert AppendRun(one, start, bs) == run;
      forall i | 0 <= i < |run.keep| ensures run.keep[i] {
        if i >= |prev.keep| {
          assert run.keep[i] == AllSet(|bs[n]|)[i - |prev.keep|];
        }
      }
    }
  }

  /** Without an escape every row of every batch gets a flag; with one,
      the last call made raised something other than an `APIError`. When
      every call answers `Ok`, every row is appended and each batch takes
      one call. */
  lemma AppendRunFacts<T>(outcomeOf: nat -> CallOutcome, start: nat, bs: seq<seq<T>>)
    ensures var run := AppendRun(AppendBatchFrom(outcomeOf), start, bs);
            && (!run.raised ==> |run.keep| == |Flatten(bs)|)
            && (run.raised ==> 1 <= run.calls && outcomeOf(start + run.calls - 1) == OtherError)
            && ((forall c | start <= c < start + |bs| :: outcomeOf(c) == Ok) ==>
                  !run.raised && run.calls == |bs| && forall i | 0 <= i < |run.keep| :: run.keep[i])
  {
    AppendRunLengthOf(outcomeOf, start, bs);
    AppendRunEscapeOf(outcomeOf, start, bs);
    if forall c | start <= c < start + |bs| :: outcomeOf(c) == Ok {
      AppendRunAllOkOf(outcomeOf, start, bs);
    }
  }

  lemma AppendRunLengthOf<T>(outcomeOf: nat -> CallOutcome, start: nat, bs: seq<seq<T>>)
    ensures var run := AppendRun(AppendBatchFrom(outcomeOf), start, bs);
            !run.raised ==> |run.keep| == |Flatten(bs)|
  {
    var one := AppendBatchFrom(outcomeOf);
    forall s: nat, m: nat ensures one(s, m).Appended? ==> |one(s, m).keep| == m {
      AppendOneFacts(outcomeOf, s, m);
    }
    AppendRunLength(one, start, bs);
  }

  lemma AppendRunEscapeOf<T>(outcomeOf: nat -> CallOutcome, start: nat, bs: seq<seq<T>>)
    ensures var run := AppendRun(AppendBatchFrom(outcomeOf), start, bs);
            run.raised ==> 1 <= run.calls && outcomeOf(start + run.calls - 1) == OtherError
  {
    var one := AppendBatchFrom(outcomeOf);
    forall s: nat, m: nat
      ensures one(s, m).Raised? ==> 1 <= one(s, m).calls && outcomeOf(s + one(s, m).calls - 1) == OtherError
    {
      AppendOneFacts(outcomeOf, s, m);
    }
    AppendRunEscape(outcomeOf, one, start, bs);
  }

  lemma AppendRunAllOkOf<T>(outcomeOf: nat -> CallOutcome, start: nat, bs: seq<seq<T>>)
    requires forall c | start <= c < start + |bs| :: outcomeOf(c) == Ok
    ensures var run := AppendRun(AppendBatchFrom(outcomeOf), start, bs);
            !run.raised && run.calls == |bs| && forall i | 0 <= i < |run.keep| :: run.keep[i]
  {
    var one := AppendBatchFrom(outcomeOf);
    forall s: nat, m: nat ensures outcomeOf(s) == Ok ==> one(s, m) == Appended(AllSet(m), 1) {
      AppendOneFacts(outcomeOf, s, m);
    }
    AppendRunAllOk(outcomeOf, one, start, bs);
  }

  // ---------------------------------------------------------------------
  // The worksheet
  // ---------------------------------------------------------------------

  class Worksheet {
    /** The answer to the n-th write call. */
    const outcomeOf: nat -> CallOutcome
    /** Number of write calls made so far. */
    var calls: nat
    /** Cells written by successful `update_cells` calls, in order. */
    var written: seq<Cell>
    /** Rows appended by successful `append_rows` / `append_row` calls, in order. */
    var appended: seq<Row>

    constructor (outcomeOf: nat -> CallOutcome)
      ensures this.outcomeOf == outcomeOf && calls == 0 && written == [] && appended == []
    {
      this.outcomeOf := outcomeOf;
      calls := 0;
      written := [];
      appended := [];
    }

    /** One API call: its outcome is the oracle's answer for its number. */
    method Call() returns (out: CallOutcome)
      modifies this`calls
      ensures out == outcomeOf(old(calls)) && calls == old(calls) + 1
    {
      out := outcomeOf(calls);
      calls := calls + 1;
    }

    /** `safe_update_cells(worksheet, cells)`: up to three `update_cells`
        calls, every exception retried. */
    method SafeUpdateCells(cells: seq<Cell>) returns (ok: bool)
      modifies this`calls, this`written
      ensures var e := RetryFrom(outcomeOf, old(calls), 0, true);
              && ok == e.Success? && calls == old(calls) + CallsOf(e)
              && written == old(written) + (if ok then cells else [])
    {
      var attempt := 0;
      while attempt < Retries
        invariant 0 <= attempt <= Retries
        invariant calls == old(calls) + attempt && written == old(written)
        invariant RetryFrom(outcomeOf, old(calls), attempt, true) == RetryFrom(outcomeOf, old(calls), 0, true)
      {
        var out := Call();
        if out == Ok {
          written := written + cells;
          return true;
        }
        attempt := attempt + 1;
      }
      return false;
    }

    /** `safe_append_rows(worksheet, rows)`: up to three `append_rows`
        calls; only an `APIError` is retried, any other exception escapes
        (`Escaped` below, reported as `raised`). */
    method SafeAppendRows(rows: seq<Row>) returns (ok: bool, raised: bool)
      modifies this`calls, this`appended
      ensures var e := RetryFrom(outcomeOf, old(calls), 0, false);
              && ok == e.Success? && raised == e.Escaped? && calls == old(calls) + CallsOf(e)
              && appended == old(appended) + (if ok then rows else [])
    {
      var attempt := 0;
      while attempt < Retries
        invariant 0 <= attempt <= Retries
        invariant calls == old(calls) + attempt && appended == old(appended)
        invariant RetryFrom(outcomeOf, old(calls), attempt, false) == RetryFrom(outcomeOf, old(calls), 0, false)
      {
        var out := Call();
        if out == Ok {
          appended := appended + rows;
          return true, false;
        }
        if out == OtherError {
          return false, true;
        }
        attempt := attempt + 1;
      }
      return false, false;
    }

    /** Cells written in batches of `size`, each through `safe_update_cells`;
        `oks` records which batches went through. A failed batch is only
        logged. Used with 500 (`update_spreadsheet`), 10 (thumbnail
        formulas) and 1000 (clearing "New"). */
    method UpdateInBatches(cells: seq<Cell>, size: nat) returns (ghost oks: seq<bool>)
      requires size > 0
      modifies this`calls, this`written
      ensures var run := UpdateRun(SafeUpdateFrom(outcomeOf), old(calls), |Chunks(cells, size)|);
              oks == run.oks && calls == old(calls) + run.calls
      ensures |oks| == |Chunks(cells, size)|
      ensures written == old(written) + Kept(Chunks(cells, size), oks)
    {
      oks := [];
      ghost var done: seq<seq<Cell>> := [];
      var i := 0;
      while i < |cells|
        invariant 0 <= i <= |cells| && |oks| == |done|
        invariant Chunks(cells, size) == done + Chunks(cells[i..], size)
        invariant written == old(written) + Kept(done, oks)
        invariant calls >= old(calls)
        invariant UpdateRun(SafeUpdateFrom(outcomeOf), old(calls), |done|) == UpdatesDone(oks, calls - old(calls))
        decreases |cells| - i
      {
        var end := if i + size < |cells| then i + size else |cells|;
        var batch := cells[i..end];
        ChunksAdvance(cells, size, done, i, end);
        var ok := UpdateBatch(batch, old(written), old(calls), done, oks);
        done, oks := done + [batch], oks + [ok];
        i := end;
      }
      ChunksEnd(cells, size, done, i);
    }

    /** One batch of the loop above, after the batches `done` whose
        flags are `oks`, the loop having started with `w0` written and
        `c0` calls made. */
    method UpdateBatch(batch: seq<Cell>, ghost w0: seq<Cell>, ghost c0: nat, ghost done: seq<seq<Cell>>, ghost oks: seq<bool>)
      returns (ok: bool)
      requires |oks| == |done| && calls >= c0 && written == w0 + Kept(done, oks)
      requires UpdateRun(SafeUpdateFrom(outcomeOf), c0, |done|) == UpdatesDone(oks, calls - c0)
      modifies this`calls, this`written
      ensures calls >= c0 && written == w0 + Kept(done + [batch], oks + [ok])
      ensures UpdateRun(SafeUpdateFrom(outcomeOf), c0, |done| + 1) == UpdatesDone(oks + [ok], calls - c0)
    {
      UpdateRunNext(outcomeOf, c0, |done|, oks, calls);
      ok := SafeUpdateCells(batch);
      KeptSnoc(done, oks, batch, ok);
      ConcatAssoc(w0, Kept(done, oks), if ok then batch else []);
    }

    /** Rows appended in batches of 25 through `safe_append_rows`; a batch
        that gives up is retried row by row with `append_row`, whose errors
        are only logged. An exception escaping `safe_append_rows` ends the
        whole update (`raised`). `keep` flags, row by row, what was
        appended, over the rows reached. */
    method AppendInBatches(rows: seq<Row>) returns (raised: bool, ghost keep: seq<bool>)
      modifies this`calls, this`appended
      ensures var run := AppendRun(AppendBatchFrom(outcomeOf), old(calls), Chunks(rows, 25));
              raised == run.raised && keep == run.keep && calls == old(calls) + run.calls
      ensures |keep| <= |rows| && (!raised ==> |keep| == |rows|)
      ensures appended == old(appended) + Select(rows[..|keep|], keep)
    {
      keep := [];
      raised := false;
      ghost var done: seq<seq<Row>> := [];
      var i := 0;
      while i < |rows|
        invariant 0 <= i <= |rows| && |keep| == i
        invariant Chunks(rows, 25) == done + Chunks(rows[i..], 25)
        invariant appended == old(appended) + Select(rows[..i], keep)
        invariant calls >= old(calls)
        invariant AppendRun(AppendBatchFrom(outcomeOf), old(calls), done) == AppendsDone(keep, calls - old(calls), false)
        decreases |rows| - i
      {
        var end := if i + 25 < |rows| then i + 25 else |rows|;
        var batch := rows[i..end];
        ChunksAdvance(rows, 25, done, i, end);
        AppendRunNext(outcomeOf, old(calls), done, batch, keep, calls);
        var escaped, ks := AppendBatch(batch);
        if escaped {
          AppendRunStops(AppendBatchFrom(outcomeOf), old(calls), done + [batch], Chunks(rows[end..], 25));
          return true, keep;
        }
        SelectAdvance(rows, i, end, keep, ks);
        ConcatAssoc(old(appended), Select(rows[..i], keep), Select(rows[i..end], ks));
        done, keep := done + [batch], keep + ks;
        i := end;
      }
      ChunksEnd(rows, 25, done, i);
      assert rows[..i] == rows;
    }

    /** One batch: `safe_append_rows`, and row by row when that gives up.
        `ks` flags the rows of the batch that were appended. */
    method AppendBatch(batch: seq<Row>) returns (raised: bool, ghost ks: seq<bool>)
      modifies this`calls, this`appended
      ensures var r := AppendOne(outcomeOf, old(calls), |batch|);
              && raised == r.Raised? && calls == old(calls) + r.calls
              && (!raised ==> ks == r.keep)
      ensures !raised ==> |ks| == |batch| && appended == old(appended) + Select(batch, ks)
      ensures raised ==> appended == old(appended)
    {
      var ok;
      ok, raised := SafeAppendRows(batch);
      if raised {
        ks := [];
        return;
      }
      if ok {
        ks := AllSet(|batch|);
        SelectFacts(batch, ks);
      } else {
        ks := AppendEach(batch);
      }
    }

    /** The fallback for a batch that gave up: `append_row` row by row,
        every error only logged. */
    method AppendEach(batch: seq<Row>) returns (ghost keep: seq<bool>)
      modifies this`calls, this`appended
      ensures keep == EachOk(outcomeOf, old(calls), |batch|) && calls == old(calls) + |batch|
      ensures |keep| == |batch| && appended == old(appended) + Select(batch, keep)
    {
      keep := [];
      var j := 0;
      while j < |batch|
        invariant 0 <= j <= |batch| && |keep| == j && calls == old(calls) + j
        invariant keep == EachOk(outcomeOf, old(calls), j)
        invariant appended == old(appended) + Select(batch[..j], keep)
      {
        EachOkNext(outcomeOf, old(calls), j, calls);
        var ok := AppendRow(batch[j]);
        SelectPrefix(batch, j, keep, ok);
        ConcatAssoc(old(appended), Select(batch[..j], keep), if ok then [batch[j]] else []);
        keep := keep + [ok];
        j := j + 1;
      }
      assert batch[..j] == batch;
    }

    /** One `append_row` call inside `try`: the row is appended iff the
        call succeeds; an error is only logged. */
    method AppendRow(row: Row) returns (ok: bool)
      modifies this`calls, this`appended
      ensures ok == (outcomeOf(old(calls)) == Ok) && calls == old(calls) + 1
      ensures appended == old(appended) + (if ok then [row] else [])
    {
      var out := Call();
      ok := out == Ok;
      if ok {
        appended := appended + [row];
      }
    }

    /** `update_spreadsheet(worksheet, cells_to_update, rows_to_add)`.
        `rowsFrom` is the number of the first call made for the rows: the
        one after the cells' last call. */
    method UpdateSpreadsheet(cellsToUpdate: seq<Cell>, rowsToAdd: seq<Row>)
      returns (raised: bool, ghost oks: seq<bool>, ghost keep: seq<bool>, ghost rowsFrom: nat)
      modifies this`calls, this`written, this`appended
      ensures var cellRun := UpdateRun(SafeUpdateFrom(outcomeOf), old(calls), |Chunks(cellsToUpdate, 500)|);
              oks == cellRun.oks && rowsFrom == old(calls) + cellRun.calls
      ensures var rowRun := AppendRun(AppendBatchFrom(outcomeOf), rowsFrom, Chunks(rowsToAdd, 25));
              raised == rowRun.raised && keep == rowRun.keep && calls == rowsFrom + rowRun.calls
      ensures |oks| == |Chunks(cellsToUpdate, 500)|
      ensures written == old(written) + Kept(Chunks(cellsToUpdate, 500), oks)
      ensures |keep| <= |rowsToAdd| && (!raised ==> |keep| == |rowsToAdd|)
      ensures appended == old(appended) + Select(rowsToAdd[..|keep|], keep)
    {
      oks := UpdateCellsIfAny(cellsToUpdate);
      rowsFrom := calls;
      raised, keep := AppendRowsIfAny(rowsToAdd);
    }

    /** `if cells_to_update:` then the cell batches of 500. */
    method UpdateCellsIfAny(cells: seq<Cell>) returns (ghost oks: seq<bool>)
      modifies this`calls, this`written
      ensures var run := UpdateRun(SafeUpdateFrom(outcomeOf), old(calls), |Chunks(cells, 500)|);
              oks == run.oks && calls == old(calls) + run.calls
      ensures |oks| == |Chunks(cells, 500)|
      ensures written == old(written) + Kept(Chunks(cells, 500), oks)
    {
      oks := [];
      if cells != [] {
        oks := UpdateInBatches(cells, 500);
      } else {
        NothingWritten(cells, 500);
      }
    }

    /** `if rows_to_add:` then the row batches of 25. */
    method AppendRowsIfAny(rows: seq<Row>) returns (raised: bool, ghost keep: seq<bool>)
      modifies this`calls, this`appended
      ensures var run := AppendRun(AppendBatchFrom(outcomeOf), old(calls), Chunks(rows, 25));
              raised == run.raised && keep == run.keep && calls == old(calls) + run.calls
      ensures |keep| <= |rows| && (!raised ==> |keep| == |rows|)
      ensures appended == old(appended) + Select(rows[..|keep|], keep)
    {
      raised, keep := false, [];
      if rows != [] {
        raised, keep := AppendInBatches(rows);
      } else {
        NothingAppended(rows, 25);
      }
    }

    /** `main`'s clearing of the collected "New" statuses, 1000 cells per
        batch; a failed batch is only logged. */
    method ClearNewStatuses(newCells: seq<Cell>) returns (ghost oks: seq<bool>)
      modifies this`calls, this`written
      ensures var run := UpdateRun(SafeUpdateFrom(outcomeOf), old(calls), |Chunks(newCells, 1000)|);
              oks == run.oks && calls == old(calls) + run.calls
      ensures |oks| == |Chunks(newCells, 1000)|
      ensures written == old(written) + Kept(Chunks(newCells, 1000), oks)
    {
      oks := [];
      if newCells != [] {
        oks := UpdateInBatches(newCells, 1000);
      } else {
        NothingWritten(newCells, 1000);
      }
    }

    /** `update_thumbnail_formula(worksheet, rows_count)`, with `headers`
        the header row read (`None` when the read raised). A missing
        'Preview URL' or 'Thumbnail' header raises `ValueError`, which is
        caught: nothing is written. */
    method UpdateThumbnailFormula(headers: Option<seq<string>>, rowsCount: int) returns (ghost oks: seq<bool>)
      modifies this`calls, this`written
      ensures var fs := ThumbnailCells(headers, rowsCount);
              var run := UpdateRun(SafeUpdateFrom(outcomeOf), old(calls), |Chunks(fs, 10)|);
              && oks == run.oks && calls == old(calls) + run.calls
              && |oks| == |Chunks(fs, 10)| && written == old(written) + Kept(Chunks(fs, 10), oks)
    {
      oks := [];
      if headers.None? {
        NothingWritten(ThumbnailCells(headers, rowsCount), 10);
        return;
      }
      var preview := FirstIndex(headers.value, "Preview URL");
      var thumb := FirstIndex(headers.value, "Thumbnail");
      if preview.None? || thumb.None? {
        NothingWritten(ThumbnailCells(headers, rowsCount), 10);
        return;
      }
      var cells := BuildFormulaCells(ColumnLetter(preview.value + 1), thumb.value + 1, rowsCount);
      assert cells == ThumbnailCells(headers, rowsCount);
      oks := UpdateInBatches(cells, 10);
    }
  }

  // ---------------------------------------------------------------------
  // Thumbnail formulas
  // ---------------------------------------------------------------------

  /** `headers.index(h)`: the FIRST position of `h`, or `None` where
      Python raises `ValueError`. */
  function FirstIndex(headers: seq<string>, h: string): (r: Option<nat>)
    ensures r.Some? ==> r.value < |headers| && headers[r.value] == h && forall j | 0 <= j < r.value :: headers[j] != h
    ensures r.None? ==> h !in headers
    decreases |headers|
  {
    if headers == [] then None
    else if headers[0] == h then Some(0)
    else match FirstIndex(headers[1..], h)
      case None => None
      case Some(i) => Some(i + 1)
  }

  /** `chr(64 + idx)`: 'A' for column 1 up to 'Z' for column 26; later
      columns get the characters that follow 'Z' in the character table,
      not spreadsheet column names. */
  function ColumnLetter(idx: nat): char {
    if 64 + idx < 0xD800 then (64 + idx) as char else '?'
  }

  /** `=IMAGE(<column><row>)` */
  function Formula(column: char, row: nat): string {
    "=IMAGE(" + [column] + NatToString(row) + ")"
  }

  /** One formula cell per data row 2 .. `rowsCount` + 1 in the Thumbnail
      column, each pointing at the Preview URL of its own row. */
  function FormulaCells(column: char, thumbCol: int, rowsCount: int): seq<Cell> {
    var n := if rowsCount > 0 then rowsCount else 0;
    seq(n, i requires 0 <= i < n => Cell(i + 2, thumbCol, Some(Formula(column, i + 2))))
  }

  function ThumbnailCells(headers: Option<seq<string>>, rowsCount: int): seq<Cell> {
    if headers.None? then []
    else match (FirstIndex(headers.value, "Preview URL"), FirstIndex(headers.value, "Thumbnail"))
      case (Some(p), Some(t)) => FormulaCells(ColumnLetter(p + 1), t + 1, rowsCount)
      case _ => []
  }

  /** The loop building the formula cells. */
  method BuildFormulaCells(column: char, thumbCol: int, rowsCount: int) returns (cells: seq<Cell>)
    ensures cells == FormulaCells(column, thumbCol, rowsCount)
  {
    cells := [];
    var row := 2;
    while row < rowsCount + 2
      invariant 2 <= row && (rowsCount >= 0 ==> row <= rowsCount + 2) && (rowsCount < 0 ==> row == 2)
      invariant |cells| == row - 2
      invariant forall i | 0 <= i < |cells| :: cells[i] == Cell(i + 2, thumbCol, Some(Formula(column, i + 2)))
      decreases rowsCount + 2 - row
    {
      cells := cells + [Cell(row, thumbCol, Some(Formula(column, row)))];
      row := row + 1;
    }
    assert |cells| == |FormulaCells(column, thumbCol, rowsCount)|;
  }

  /** There is one formula per data row; the k-th sits on row k + 2 in the
      Thumbnail column and refers to the same row of the Preview URL
      column, whose number can be read back from the formula. */
  lemma FormulaCellsFacts(column: char, thumbCol: int, rowsCount: int, k: nat)
    requires k < |FormulaCells(column, thumbCol, rowsCount)|
    ensures |FormulaCells(column, thumbCol, rowsCount)| == if rowsCount > 0 then rowsCount else 0
    ensures var c := FormulaCells(column, thumbCol, rowsCount)[k];
            var f := Formula(column, k + 2);
            && c.row == k + 2 && c.col == thumbCol && c.value == Some(f)
            && |f| >= 10 && f[..7] == "=IMAGE(" && f[7] == column && f[|f| - 1] == ')'
            && (forall i | 8 <= i < |f| - 1 :: IsDigit(f[i]))
            && DigitsValue(f[8..|f| - 1]) == k + 2
  {
    var f := Formula(column, k + 2);
    NatToStringRoundTrip(k + 2);
    assert f[8..|f| - 1] == NatToString(k + 2);
  }
}
