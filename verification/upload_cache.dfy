/**
 * The upload cache of image-processor.py (`cache.json`) and `upload_to_gcs`.
 *
 * The cache maps content hashes to a processing state (`processed_files`)
 * and to public URLs (`gcs_urls`), and file names to hashes (`file_hashes`).
 * Every `save_cache` call is recorded in the ghost `events` log together with
 * the upload attempts, so the order of "saved" and "attempted" can be stated.
 * The storage service is an oracle: what re-checking a cached blob yields,
 * and what the n-th upload attempt yields.
 */
module UploadCache {
  import opened Wrappers
  import opened Text

  /** An MD5 hex digest. */
  type Hash = string

  /** A `processed_files` value: the string 'pending', or the `time.time()`
      stamp of a completed upload. */
  datatype Entry = Pending | Done(stamp: int)

  /** What the ghost log records: a `save_cache` with the two maps as saved,
      or one upload attempt. */
  datatype Event = Saved(processed: map<Hash, Entry>, urls: map<Hash, string>) | Attempted

  /** Re-checking a cached blob (`blob.exists()`, `make_public`, `public_url`). */
  datatype Refresh = BlobMissing | BlobPublic(publicUrl: string) | RefreshRaised

  /** One pass of the retry loop: the blob made public with its URL; an
      exception once the blob handle exists; or an exception while creating
      the client or bucket, before `blob_name` is bound. */
  datatype Attempt = AttemptOk(publicUrl: string) | AttemptRaised | ClientRaised

  /** What `upload_to_gcs` gives its caller: a URL, an exception, or the
      `None` of falling off the end of the retry loop. */
  datatype UploadResult = Url(url: string) | Raised | ReturnedNone

  /** How the retry loop ends, read off the attempt oracle from attempt `k`. */
  datatype Trial = Succeeded(attempts: nat, publicUrl: string) | Escaped | Exhausted

  const Retries: nat := 3

  /** The retry loop from attempt `k` on. A `ClientRaised` on the first
      attempt escapes: the handler's log line names `blob_name`, which is not
      bound yet, so the handler itself raises and no retry follows. */
  function TrialFrom(attempt: nat -> Attempt, k: nat): (t: Trial)
    requires k <= Retries
    ensures t.Succeeded? ==> k < t.attempts <= Retries && attempt(t.attempts - 1) == AttemptOk(t.publicUrl)
    ensures t.Escaped? ==> k == 0 && attempt(0) == ClientRaised
    decreases Retries - k
  {
    if k == Retries then Exhausted
    else match attempt(k)
      case AttemptOk(u) => Succeeded(k + 1, u)
      case ClientRaised => if k == 0 then Escaped else TrialFrom(attempt, k + 1)
      case AttemptRaised => TrialFrom(attempt, k + 1)
  }

  function Trials(attempt: nat -> Attempt): Trial {
    TrialFrom(attempt, 0)
  }

  function AttemptLog(n: nat): (r: seq<Event>)
    ensures |r| == n && forall i | 0 <= i < n :: r[i] == Attempted
  {
    seq(n, i => Attempted)
  }

  lemma AttemptLogSnoc(k: nat)
    ensures AttemptLog(k) + [Attempted] == AttemptLog(k + 1)
  {
    assert AttemptLog(k) + [Attempted] == AttemptLog(k + 1);
  }

  /** Number of attempts the loop makes before it ends. */
  function AttemptCount(t: Trial): nat {
    match t
    case Succeeded(n, _) => n
    case Escaped => 1
    case Exhausted => Retries
  }

  /** The retry loop makes at least one and at most three attempts, and a
      success is the first successful attempt, all earlier ones failed. */
  lemma {:induction false} TrialBounds(attempt: nat -> Attempt, k: nat)
    requires k <= Retries
    ensures 1 <= AttemptCount(TrialFrom(attempt, k)) <= Retries || TrialFrom(attempt, k) == Exhausted
    ensures TrialFrom(attempt, k).Succeeded? ==>
              forall j | k <= j < TrialFrom(attempt, k).attempts - 1 :: !attempt(j).AttemptOk?
    ensures TrialFrom(attempt, k) == Exhausted <==> forall j | k <= j < Retries :: !attempt(j).AttemptOk? && !(j == 0 && attempt(j) == ClientRaised)
    decreases Retries - k
  {
    if k < Retries {
      TrialBounds(attempt, k + 1);
    }
  }

  /** What `upload_to_gcs` does to the cache (`p0`, `u0`, and the log `e0`
      before; `p1`, `u1`, `e1` after) and what it returns (`r`). */
  ghost predicate UploadEffect(p0: map<Hash, Entry>, u0: map<Hash, string>, e0: seq<Event>,
                               hash: Option<Hash>, refresh: Refresh, attempt: nat -> Attempt, now: int,
                               r: UploadResult, p1: map<Hash, Entry>, u1: map<Hash, string>, e1: seq<Event>)
  {
    if hash.Some? && hash.value in u0 then
      // Cache hit: the cached or refreshed URL, and never 'pending'.
      && p1 == p0
      && match refresh
         case RefreshRaised => r == Raised && u1 == u0 && e1 == e0
         case BlobMissing => r == Url(u0[hash.value]) && u1 == u0 && e1 == e0
         case BlobPublic(p) =>
           && r == Url(Strip(p)) && u1 == u0[hash.value := Strip(p)]
           && e1 == e0 + (if Strip(p) == u0[hash.value] then [] else [Saved(p1, u1)])
    else
      // No cached URL: 'pending' is saved before the first attempt.
      var pending := if hash.Some? then p0[hash.value := Pending] else p0;
      var head := e0 + (if hash.Some? then [Saved(pending, u0)] else []);
      match Trials(attempt)
      case Succeeded(n, u) =>
        && r == Url(Strip(u))
        && (hash.Some? ==> p1 == p0[hash.value := Done(now)] && u1 == u0[hash.value := Strip(u)]
                           && e1 == head + AttemptLog(n) + [Saved(p1, u1)])
        && (hash.None? ==> p1 == p0 && u1 == u0 && e1 == head + AttemptLog(n))
      case Escaped =>
        r == Raised && p1 == pending && u1 == u0 && e1 == head + AttemptLog(1)
      case Exhausted =>
        && u1 == u0
        && (hash.Some? ==> r == Raised && p1 == p0 - {hash.value}
                           && e1 == head + AttemptLog(Retries) + [Saved(p1, u1)])
        && (hash.None? ==> r == ReturnedNone && p1 == p0 && e1 == head + AttemptLog(Retries))
  }

  class Cache {
    var processed: map<Hash, Entry>   // processed_files
    var urls: map<Hash, string>       // gcs_urls
    var fileHashes: map<string, Hash> // file_hashes
    var lastProcessed: Option<string> // last_processed
    ghost var events: seq<Event>

    /** `load_cache()` when there is no cache file. */
    constructor ()
      ensures processed == map[] && urls == map[] && fileHashes == map[] && lastProcessed == None
      ensures events == []
    {
      processed := map[];
      urls := map[];
      fileHashes := map[];
      lastProcessed := None;
      events := [];
    }

    /** `save_cache(cache)`: the log records the maps as written. */
    method Save()
      modifies this`events
      ensures events == old(events) + [Saved(processed, urls)]
    {
      events := events + [Saved(processed, urls)];
    }

    /** `upload_to_gcs(local_path, bucket, cache)` for a file whose
        `get_file_hash` is `hash`, with `refresh` the outcome of re-checking
        a cached blob, `attempt(k)` the outcome of the k-th upload attempt
        and `now` the clock reading on success. */
    method Upload(hash: Option<Hash>, refresh: Refresh, attempt: nat -> Attempt, now: int)
      returns (r: UploadResult)
      modifies this`processed, this`urls, this`events
      ensures UploadEffect(old(processed), old(urls), old(events), hash, refresh, attempt, now,
                           r, processed, urls, events)
    {
      if hash.Some? && hash.value in urls {
        r := Refetch(hash.value, refresh);
      } else {
        r := UploadFresh(hash, attempt, now);
      }
    }

    /** The cache-hit branch of `upload_to_gcs`. */
    method Refetch(h: Hash, refresh: Refresh) returns (r: UploadResult)
      requires h in urls
      modifies this`urls, this`events
      ensures match refresh
        case RefreshRaised => r == Raised && urls == old(urls) && events == old(events)
        case BlobMissing => r == Url(old(urls)[h]) && urls == old(urls) && events == old(events)
        case BlobPublic(p) =>
          && r == Url(Strip(p)) && urls == old(urls)[h := Strip(p)]
          && events == old(events) + (if Strip(p) == old(urls)[h] then [] else [Saved(processed, urls)])
    {
      match refresh {
        case RefreshRaised =>
          return Raised;
        case BlobMissing =>
        case BlobPublic(p) =>
          var updated := Strip(p);
          if urls[h] != updated {
            urls := urls[h := updated];
            Save();
          }
      }
      return Url(urls[h]);
    }

    /** The branch of `upload_to_gcs` without a cached URL: mark 'pending',
        save, then up to three attempts. */
    method UploadFresh(hash: Option<Hash>, attempt: nat -> Attempt, now: int) returns (r: UploadResult)
      modifies this`processed, this`urls, this`events
      ensures
        var pending := if hash.Some? then old(processed)[hash.value := Pending] else old(processed);
        var head := old(events) + (if hash.Some? then [Saved(pending, old(urls))] else []);
        match Trials(attempt)
        case Succeeded(n, u) =>
          && r == Url(Strip(u))
          && (hash.Some? ==> processed == old(processed)[hash.value := Done(now)] && urls == old(urls)[hash.value := Strip(u)]
                             && events == head + AttemptLog(n) + [Saved(processed, urls)])
          && (hash.None? ==> processed == old(processed) && urls == old(urls) && events == head + AttemptLog(n))
        case Escaped =>
          r == Raised && processed == pending && urls == old(urls) && events == head + AttemptLog(1)
        case Exhausted =>
          && urls == old(urls)
          && (hash.Some? ==> r == Raised && processed == old(processed) - {hash.value}
                             && events == head + AttemptLog(Retries) + [Saved(processed, urls)])
          && (hash.None? ==> r == ReturnedNone && processed == old(processed) && events == head + AttemptLog(Retries))
    {
      if hash.Some? {
        r := FreshHashed(hash.value, attempt, now);
      } else {
        r := FreshUnhashed(attempt);
      }
    }

    /** `upload_to_gcs` without a cached URL for a file whose hash is known. */
    method FreshHashed(h: Hash, attempt: nat -> Attempt, now: int) returns (r: UploadResult)
      modifies this`processed, this`urls, this`events
      ensures
        var head := old(events) + [Saved(old(processed)[h := Pending], old(urls))];
        match Trials(attempt)
        case Succeeded(n, u) =>
          && r == Url(Strip(u))
          && processed == old(processed)[h := Done(now)] && urls == old(urls)[h := Strip(u)]
          && events == head + AttemptLog(n) + [Saved(processed, urls)]
        case Escaped =>
          r == Raised && processed == old(processed)[h := Pending] && urls == old(urls) && events == head + AttemptLog(1)
        case Exhausted =>
          && r == Raised && processed == old(processed) - {h} && urls == old(urls)
          && events == head + AttemptLog(Retries) + [Saved(processed, urls)]
    {
      processed := processed[h := Pending];
      Save();
      ghost var head := events;
      var k := 0;
      while k < Retries
        invariant 0 <= k < Retries
        invariant TrialFrom(attempt, k) == Trials(attempt)
        invariant events == head + AttemptLog(k)
        invariant processed == old(processed)[h := Pending]
        invariant urls == old(urls)
        decreases Retries - k
      {
        var stop;
        stop, r := AttemptOnce(h, attempt, now, k, old(processed), head);
        if stop {
          return;
        }
        k := k + 1;
      }
    }

    /** Attempt `k` of the retry loop for a file whose hash is known, after
        `head` was logged; `stop` when the loop ends with this attempt. */
    method AttemptOnce(h: Hash, attempt: nat -> Attempt, now: int, k: nat, ghost p0: map<Hash, Entry>, ghost head: seq<Event>)
      returns (stop: bool, r: UploadResult)
      requires k < Retries && TrialFrom(attempt, k) == Trials(attempt)
      requires events == head + AttemptLog(k) && processed == p0[h := Pending]
      modifies this`processed, this`urls, this`events
      ensures !stop ==> && k + 1 < Retries && TrialFrom(attempt, k + 1) == Trials(attempt)
                        && events == head + AttemptLog(k + 1) && processed == p0[h := Pending] && urls == old(urls)
      ensures stop ==>
        match Trials(attempt)
        case Succeeded(n, u) =>
          && r == Url(Strip(u))
          && processed == p0[h := Done(now)] && urls == old(urls)[h := Strip(u)]
          && events == head + AttemptLog(n) + [Saved(processed, urls)]
        case Escaped =>
          r == Raised && processed == p0[h := Pending] && urls == old(urls) && events == head + AttemptLog(1)
        case Exhausted =>
          && r == Raised && processed == p0 - {h} && urls == old(urls)
          && events == head + AttemptLog(Retries) + [Saved(processed, urls)]
    {
      LogAttempt();
      AttemptLogSnoc(k);
      match attempt(k) {
        case AttemptOk(u) =>
          assert Trials(attempt) == Succeeded(k + 1, u);
          var url := Strip(u);
          Complete(h, url, now);
          assert processed == p0[h := Done(now)];
          return true, Url(url);
        case ClientRaised =>
          if k == 0 {
            assert Trials(attempt) == Escaped;
            return true, Raised;
          }
        case AttemptRaised =>
      }
      if k == Retries - 1 && h in processed {
        assert Trials(attempt) == Exhausted;
        Forget(h);
        assert processed == p0 - {h};
        return true, Raised;
      }
      return false, Raised;
    }

    /** `upload_to_gcs` for a file whose hash could not be computed: nothing
        is cached, and three failures fall off the end of the loop. */
    method FreshUnhashed(attempt: nat -> Attempt) returns (r: UploadResult)
      modifies this`events
      ensures
        match Trials(attempt)
        case Succeeded(n, u) => r == Url(Strip(u)) && events == old(events) + AttemptLog(n)
        case Escaped => r == Raised && events == old(events) + AttemptLog(1)
        case Exhausted => r == ReturnedNone && events == old(events) + AttemptLog(Retries)
    {
      var k := 0;
      while k < Retries
        invariant 0 <= k <= Retries
        invariant TrialFrom(attempt, k) == Trials(attempt)
        invariant events == old(events) + AttemptLog(k)
        decreases Retries - k
      {
        LogAttempt();
        AttemptLogSnoc(k);
        match attempt(k) {
          case AttemptOk(u) =>
            return Url(Strip(u));
          case ClientRaised =>
            if k == 0 {
              return Raised;
            }
          case AttemptRaised =>
        }
        k := k + 1;
      }
      return ReturnedNone;
    }

    /** One pass of the retry loop, as recorded in the log. */
    ghost method LogAttempt()
      modifies this`events
      ensures events == old(events) + [Attempted]
    {
      events := events + [Attempted];
    }

    /** A successful upload: the URL is cached, the hash stamped and the cache saved. */
    method Complete(h: Hash, url: string, now: int)
      modifies this`processed, this`urls, this`events
      ensures processed == old(processed)[h := Done(now)] && urls == old(urls)[h := url]
      ensures events == old(events) + [Saved(processed, urls)]
    {
      urls := urls[h := url];
      processed := processed[h := Done(now)];
      Save();
    }

    /** After the last failed attempt: the 'pending' mark is dropped and the cache saved. */
    method Forget(h: Hash)
      modifies this`processed, this`events
      ensures processed == old(processed) - {h}
      ensures events == old(events) + [Saved(processed, urls)]
    {
      processed := processed - {h};
      Save();
    }
  }
}
