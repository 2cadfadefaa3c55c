/**
 * `process_files` of image-processor.py: the diff of the organised local
 * files against the sheet snapshot. Each file either fails (no hash, or the
 * upload failed), is kept because its row is marked "Edited", becomes nine
 * cell patches on its existing row, or becomes a new ten-column row.
 *
 * The per-file decision is the pure `Decide`; `PlanAll` folds it over the
 * files, given the hash of each file and the result of its upload.
 */
module SyncPlanner {
  import opened Wrappers
  import opened Text
  import opened FilenameParser
  import Grouping
  import opened SheetSnapshot
  import opened UploadCache

  /** `gcs_url.strip().replace('\n', '').replace('\r', '')` */
  function Clean(u: string): (r: string)
    ensures '\n' !in r && '\r' !in r
  {
    var s := Remove(Strip(u), '\n');
    Remove(s, '\r')
  }

  /** `', '.join(metadata.get('tags', []))` */
  function TagText(m: Metadata): string { Join(m.tags, ", ") }

  function Detail(m: Metadata): string {
    DetailText(m.year, m.client, m.title, m.subtitle, m.sequence)
  }

  /** The nine patches of an existing row: columns 1-7, the file name in
      column 9 and a blank Status in column 10; column 8 (Thumbnail) is left
      alone. */
  function UpdateCells(rowNum: int, m: Metadata, url: string, name: string): seq<Cell> {
    [Cell(rowNum, 1, m.year), Cell(rowNum, 2, m.client), Cell(rowNum, 3, m.title),
     Cell(rowNum, 4, m.subtitle), Cell(rowNum, 5, Some(Detail(m))), Cell(rowNum, 6, Some(TagText(m))),
     Cell(rowNum, 7, Some(url)), Cell(rowNum, 9, Some(name)), Cell(rowNum, 10, Some(""))]
  }

  /** The row appended for a file the sheet does not know yet. */
  function NewRow(m: Metadata, url: string, name: string): seq<Option<string>> {
    [m.year, m.client, m.title, m.subtitle, Some(Detail(m)), Some(TagText(m)), Some(url), Some(""), Some(name), Some("")]
  }

  /** The column numbers `UpdateCells` writes, in order. */
  const UpdateColumns: seq<int> := [1, 2, 3, 4, 5, 6, 7, 9, 10]

  /** `row_data.get('Status', '') == 'Edited'` for a file the snapshot knows. */
  predicate IsEdited(fileMap: map<string, RowData>, name: string) {
    name in fileMap && (if "Status" in fileMap[name].fields then fileMap[name].fields["Status"] else "") == "Edited"
  }

  /** What one file of the loop comes to. */
  datatype Outcome =
    | HashFailed
    | KeptEdited(hash: Hash)
    | UploadFailed
    | Updated(hash: Hash, rowNum: int, url: string)
    | Added(hash: Hash, url: string)

  /** One turn of the loop for file `f` with hash `hash`; `r` is what
      `upload_to_gcs` gave, consulted only when the file is uploaded. Any
      result but a URL fails, `None` included since `.strip()` on it raises.
      A file without a hash, or whose upload gave no URL, is reported and
      contributes nothing else; an "Edited" row is never uploaded, patched
      nor re-added; an uploaded file patches its own row when the sheet
      knows it and is added otherwise, with the cleaned URL. */
  function Decide(f: Grouping.FileInfo, fileMap: map<string, RowData>, hash: Option<Hash>, r: UploadResult): (o: Outcome)
    ensures o.HashFailed? <==> hash.None?
    ensures o.KeptEdited? <==> hash.Some? && IsEdited(fileMap, f.name)
    ensures o.UploadFailed? <==> hash.Some? && !IsEdited(fileMap, f.name) && !r.Url?
    ensures o.Updated? <==> hash.Some? && !IsEdited(fileMap, f.name) && r.Url? && f.name in fileMap
    ensures o.Added? <==> hash.Some? && f.name !in fileMap && r.Url?
    ensures (o.KeptEdited? || o.Updated? || o.Added?) ==> o.hash == hash.value
    ensures o.Updated? ==> o.rowNum == fileMap[f.name].rowNum
    ensures (o.Updated? || o.Added?) ==> o.url == Clean(r.url)
  {
    if hash.None? then HashFailed
    else if IsEdited(fileMap, f.name) then KeptEdited(hash.value)
    else if !r.Url? then UploadFailed
    else if f.name in fileMap then Updated(hash.value, fileMap[f.name].rowNum, Clean(r.url))
    else Added(hash.value, Clean(r.url))
  }

  /** `rows_to_add`, `cells_to_update`, the names appended to `failed_files`
      and the `processed_files` set. */
  datatype Plan = Plan(rows: seq<seq<Option<string>>>, cells: seq<Cell>, failed: seq<string>, processed: set<Hash>)

  function Apply(p: Plan, f: Grouping.FileInfo, o: Outcome): Plan {
    match o
    case HashFailed => p.(failed := p.failed + [f.name])
    case UploadFailed => p.(failed := p.failed + [f.name])
    case KeptEdited(h) => p.(processed := p.processed + {h})
    case Updated(h, rowNum, url) =>
      p.(cells := p.cells + UpdateCells(rowNum, f.metadata, url, f.name), processed := p.processed + {h})
    case Added(h, url) => p.(rows := p.rows + [NewRow(f.metadata, url, f.name)], processed := p.processed + {h})
  }

  /** The loop over the files, with `outcomes[i]` what `files[i]` came to. */
  function PlanOf(files: seq<Grouping.FileInfo>, outcomes: seq<Outcome>): Plan
    requires |outcomes| == |files|
    decreases |files|
  {
    if files == [] then Plan([], [], [], {})
    else
      var n := |files| - 1;
      Apply(PlanOf(files[..n], outcomes[..n]), files[n], outcomes[n])
  }

  /** The decision for each file, given `hashes[i]`, the hash of `files[i]`,
      and `results[i]`, the result of its upload. */
  function Outcomes(files: seq<Grouping.FileInfo>, fileMap: map<string, RowData>, hashes: seq<Option<Hash>>, results: seq<UploadResult>): seq<Outcome>
    requires |hashes| == |files| && |results| == |files|
  {
    seq(|files|, i requires 0 <= i < |files| => Decide(files[i], fileMap, hashes[i], results[i]))
  }

  /** The hash of each file, `get_file_hash(file_path)`. */
  function Hashes(files: seq<Grouping.FileInfo>, hashOf: string -> Option<Hash>): (r: seq<Option<Hash>>)
    ensures |r| == |files| && forall i | 0 <= i < |files| :: r[i] == hashOf(files[i].path)
  {
    seq(|files|, i requires 0 <= i < |files| => hashOf(files[i].path))
  }

  /** `process_files(worksheet, organized_files, file_map, cache, failed_files)`.
      `hashOf` is `get_file_hash`; `refresh`, `attempt` and `clock` give,
      per path, what the storage service and the clock answer during its
      upload. `results` records what each upload gave. The names of failed
      files are appended to `failedIn`, the caller's list. */
  method ProcessFiles(cache: Cache, files: seq<Grouping.FileInfo>, fileMap: map<string, RowData>, failedIn: seq<string>,
                      hashOf: string -> Option<Hash>, refresh: string -> Refresh,
                      attempt: string -> nat -> Attempt, clock: string -> int)
    returns (rows: seq<seq<Option<string>>>, cells: seq<Cell>, failed: seq<string>, processed: set<Hash>,
             ghost results: seq<UploadResult>)
    modifies cache`processed, cache`urls, cache`events
    ensures |results| == |files|
    ensures var p := PlanOf(files, Outcomes(files, fileMap, Hashes(files, hashOf), results));
            rows == p.rows && cells == p.cells && failed == failedIn + p.failed && processed == p.processed
    // The intermediate save runs once, after the loop.
    ensures |processed| % 50 == 0 && processed != {} ==>
              |cache.events| > 0 && cache.events[|cache.events| - 1] == Saved(cache.processed, cache.urls)
  {
    ghost var hashes := Hashes(files, hashOf);
    var acc := Plan([], [], [], {});
    results := [];
    ghost var outcomes: seq<Outcome> := [];
    var i := 0;
    while i < |files|
      invariant 0 <= i <= |files| && |results| == i
      invariant outcomes == Outcomes(files[..i], fileMap, hashes[..i], results)
      invariant acc == PlanOf(files[..i], outcomes)
    {
      var f := files[i];
      ghost var r;
      var o;
      o, r := Visit(cache, f, fileMap, hashOf, refresh, attempt, clock);
      OutcomesSnoc(files, fileMap, hashes, results, i, r);
      PlanOfSnoc(files, outcomes, i, o);
      acc := ApplyStep(acc, f, o);
      results := results + [r];
      outcomes := outcomes + [o];
      i := i + 1;
    }
    assert files[..i] == files && hashes[..i] == hashes;
    rows, cells, failed, processed := acc.rows, acc.cells, failedIn + acc.failed, acc.processed;
    if |processed| % 50 == 0 && processed != {} {
      cache.Save();
    }
  }

  /** One turn of the loop: hash the file, upload it unless it is marked
      "Edited", and decide what it comes to. `r` is what the upload gave
      (`ReturnedNone` when there was none). */
  method Visit(cache: Cache, f: Grouping.FileInfo, fileMap: map<string, RowData>, hashOf: string -> Option<Hash>,
               refresh: string -> Refresh, attempt: string -> nat -> Attempt, clock: string -> int)
    returns (o: Outcome, ghost r: UploadResult)
    modifies cache`processed, cache`urls, cache`events
    ensures o == Decide(f, fileMap, hashOf(f.path), r)
    ensures hashOf(f.path).None? || IsEdited(fileMap, f.name) ==>
              r == ReturnedNone && unchanged(cache`processed, cache`urls, cache`events)
    ensures hashOf(f.path).Some? && !IsEdited(fileMap, f.name) ==>
              UploadEffect(old(cache.processed), old(cache.urls), old(cache.events), hashOf(f.path),
                           refresh(f.path), attempt(f.path), clock(f.path), r, cache.processed, cache.urls, cache.events)
  {
    var hash := hashOf(f.path);
    var res := ReturnedNone;
    if hash.Some? && !IsEdited(fileMap, f.name) {
      res := cache.Upload(hash, refresh(f.path), attempt(f.path), clock(f.path));
    }
    r := res;
    o := Step(f, fileMap, hash, res);
  }

  lemma OutcomesSnoc(files: seq<Grouping.FileInfo>, fileMap: map<string, RowData>, hashes: seq<Option<Hash>>,
                     results: seq<UploadResult>, i: nat, r: UploadResult)
    requires i < |files| == |hashes| && |results| == i
    ensures Outcomes(files[..i + 1], fileMap, hashes[..i + 1], results + [r])
         == Outcomes(files[..i], fileMap, hashes[..i], results) + [Decide(files[i], fileMap, hashes[i], r)]
  {
    var a := Outcomes(files[..i + 1], fileMap, hashes[..i + 1], results + [r]);
    var b := Outcomes(files[..i], fileMap, hashes[..i], results);
    assert |a| == |b| + 1;
    forall j | 0 <= j < i ensures a[j] == b[j] {
      assert files[..i + 1][j] == files[..i][j] && hashes[..i + 1][j] == hashes[..i][j] && (results + [r])[j] == results[j];
    }
  }

  lemma PlanOfSnoc(files: seq<Grouping.FileInfo>, outcomes: seq<Outcome>, i: nat, o: Outcome)
    requires i < |files| && |outcomes| == i
    ensures PlanOf(files[..i + 1], outcomes + [o]) == Apply(PlanOf(files[..i], outcomes), files[i], o)
  {
    assert files[..i + 1][..i] == files[..i];
    assert (outcomes + [o])[..i] == outcomes;
  }

  /** The decision of one loop turn, computed as the loop body does. */
  method Step(f: Grouping.FileInfo, fileMap: map<string, RowData>, hash: Option<Hash>, r: UploadResult) returns (o: Outcome)
    ensures o == Decide(f, fileMap, hash, r)
  {
    if hash.None? {
      return HashFailed;
    }
    if f.name in fileMap {
      var row := fileMap[f.name];
      var status := if "Status" in row.fields then row.fields["Status"] else "";
      if status == "Edited" {
        return KeptEdited(hash.value);
      }
      if !r.Url? {
        return UploadFailed;
      }
      return Updated(hash.value, row.rowNum, Clean(r.url));
    }
    if !r.Url? {
      return UploadFailed;
    }
    return Added(hash.value, Clean(r.url));
  }

  /** The appends and the set insertion of one loop turn. */
  method ApplyStep(acc: Plan, f: Grouping.FileInfo, o: Outcome) returns (acc': Plan)
    ensures acc' == Apply(acc, f, o)
  {
    acc' := acc;
    match o {
      case HashFailed => acc' := acc'.(failed := acc.failed + [f.name]);
      case UploadFailed => acc' := acc'.(failed := acc.failed + [f.name]);
      case KeptEdited(h) => acc' := acc'.(processed := acc.processed + {h});
      case Updated(h, rowNum, url) =>
        acc' := acc'.(cells := acc.cells + UpdateCells(rowNum, f.metadata, url, f.name));
        acc' := acc'.(processed := acc.processed + {h});
      case Added(h, url) =>
        acc' := acc'.(rows := acc.rows + [NewRow(f.metadata, url, f.name)]);
        acc' := acc'.(processed := acc.processed + {h});
    }
  }

  // ---------------------------------------------------------------------
  // Properties of the plan
  // ---------------------------------------------------------------------

  /** An existing row gets exactly nine patches, all on its own row, for
      columns 1-7, 9 and 10: the URL in column 7, the file name in column
      9 and a blank Status in column 10. */
  lemma UpdateCellsShape(rowNum: int, m: Metadata, url: string, name: string)
    ensures var cs := UpdateCells(rowNum, m, url, name);
            && |cs| == 9
            && (forall k | 0 <= k < 9 :: cs[k].row == rowNum && cs[k].col == UpdateColumns[k])
            && cs[6].value == Some(url) && cs[7].value == Some(name) && cs[8].value == Some("")
  {
  }

  /** A new file gets one ten-column row with the URL at index 6, a blank
      Thumbnail at index 7 and the file name at index 8. */
  lemma NewRowShape(m: Metadata, url: string, name: string)
    ensures var row := NewRow(m, url, name);
            |row| == 10 && row[6] == Some(url) && row[7] == Some("") && row[8] == Some(name) && row[9] == Some("")
  {
  }

  /** The number of files kept because their row is "Edited". */
  function EditedCount(outcomes: seq<Outcome>): nat
    decreases |outcomes|
  {
    if outcomes == [] then 0
    else
      var n := |outcomes| - 1;
      EditedCount(outcomes[..n]) + (if outcomes[n].KeptEdited? then 1 else 0)
  }

  /** Every file is accounted for exactly once: reported as failed, kept as
      edited, patched with nine cells or added as one row. */
  lemma {:induction false} PlanAccountsForEveryFile(files: seq<Grouping.FileInfo>, outcomes: seq<Outcome>)
    requires |outcomes| == |files|
    ensures var p := PlanOf(files, outcomes);
            |p.cells| % 9 == 0 && |p.failed| + EditedCount(outcomes) + |p.cells| / 9 + |p.rows| == |files|
    decreases |files|
  {
    if files != [] {
      var n := |files| - 1;
      PlanAccountsForEveryFile(files[..n], outcomes[..n]);
      assert outcomes[..n] == outcomes[..|outcomes| - 1];
    }
  }

  /** No patch ever touches column 8 (Thumbnail), every patch lies in
      columns 1-10, and every added row has ten columns with a blank
      Thumbnail. */
  lemma {:induction false} PlanShape(files: seq<Grouping.FileInfo>, outcomes: seq<Outcome>)
    requires |outcomes| == |files|
    ensures var p := PlanOf(files, outcomes);
            && (forall c | c in p.cells :: 1 <= c.col <= 10 && c.col != 8)
            && (forall row | row in p.rows :: |row| == 10 && row[7] == Some(""))
    decreases |files|
  {
    if files != [] {
      var n := |files| - 1;
      PlanShape(files[..n], outcomes[..n]);
      match outcomes[n] {
        case Updated(h, rowNum, url) =>
          var cs := UpdateCells(rowNum, files[n].metadata, url, files[n].name);
          UpdateCellsShape(rowNum, files[n].metadata, url, files[n].name);
          UpdateColumnsRange();
          forall c | c in cs ensures 1 <= c.col <= 10 && c.col != 8 {
            var k :| 0 <= k < 9 && cs[k] == c;
            assert c.col == UpdateColumns[k];
          }
        case Added(h, url) =>
          NewRowShape(files[n].metadata, url, files[n].name);
        case _ =>
      }
    }
  }

  /** The patched columns skip column 8, the Thumbnail formula's. */
  lemma UpdateColumnsRange()
    ensures forall k | 0 <= k < |UpdateColumns| :: 1 <= UpdateColumns[k] <= 10 && UpdateColumns[k] != 8
  {
    assert UpdateColumns == [1, 2, 3, 4, 5, 6, 7, 9, 10];
  }

  /** The hash an outcome puts in `processed_files`, if any. */
  predicate Commits(o: Outcome, h: Hash) {
    (o.KeptEdited? || o.Updated? || o.Added?) && o.hash == h
  }

  /** A hash is in `processed_files` exactly when some file with that hash
      was kept as edited or uploaded. */
  lemma {:induction false} ProcessedExact(files: seq<Grouping.FileInfo>, outcomes: seq<Outcome>, h: Hash)
    requires |outcomes| == |files|
    ensures h in PlanOf(files, outcomes).processed <==> exists i | 0 <= i < |outcomes| :: Commits(outcomes[i], h)
    decreases |files|
  {
    if files != [] {
      var n := |files| - 1;
      ProcessedExact(files[..n], outcomes[..n], h);
      var prev := PlanOf(files[..n], outcomes[..n]);
      ApplyProcessed(prev, files[n], outcomes[n], h);
      if h in prev.processed {
        var i :| 0 <= i < n && Commits(outcomes[..n][i], h);
        assert outcomes[..n][i] == outcomes[i];
      } else if !Commits(outcomes[n], h) {
        forall i | 0 <= i < |outcomes| ensures !Commits(outcomes[i], h) {
          if i < n {
            assert outcomes[..n][i] == outcomes[i];
          }
        }
      }
    }
  }

  lemma ApplyProcessed(p: Plan, f: Grouping.FileInfo, o: Outcome, h: Hash)
    ensures h in Apply(p, f, o).processed <==> h in p.processed || Commits(o, h)
  {
  }

  /** Every reported name is the name of a file that had no hash or whose
      upload failed. */
  lemma {:induction false} FailedSound(files: seq<Grouping.FileInfo>, outcomes: seq<Outcome>, k: nat)
    requires |outcomes| == |files|
    requires k < |PlanOf(files, outcomes).failed|
    ensures exists i | 0 <= i < |files| ::
              files[i].name == PlanOf(files, outcomes).failed[k] && (outcomes[i].HashFailed? || outcomes[i].UploadFailed?)
    decreases |files|
  {
    var n := |files| - 1;
    var prev := PlanOf(files[..n], outcomes[..n]);
    if k < |prev.failed| {
      FailedSound(files[..n], outcomes[..n], k);
      var i :| 0 <= i < n && files[..n][i].name == prev.failed[k] && (outcomes[..n][i].HashFailed? || outcomes[..n][i].UploadFailed?);
      assert files[..n][i] == files[i] && outcomes[..n][i] == outcomes[i];
    } else {
      assert files[n].name == PlanOf(files, outcomes).failed[k];
    }
  }
}
