# Image catalogue sync, modelled in Dafny

The repository keeps a folder of portfolio images in step with a Google
spreadsheet and exports that spreadsheet to a gallery JSON file. Each
image's file name carries its metadata. For example, `2024_AcmeCo_Launch_t-web_01.jpg`
has four parts:

- a year, a client and a title;
- optional subtitle and `t-` tag parts;
- a two-digit sequence number.

This project models the logic between the directory scan and the network
calls, with each Google service treated as an oracle that either succeeds
with a value or fails.

- **`image-processor.py`**, the sync:
  - `FilenameParser`: `parse_filename` and `generate_detail_text`.
  - `Grouping`: `group_files_by_sequence`.
  - `UploadCache`: the upload cache and `upload_to_gcs`.
    - A class holds `processed_files`, `gcs_urls`, `file_hashes` and `last_processed`.
    - A ghost event log records every `save_cache` and every upload attempt.
  - `SheetSnapshot`: `get_existing_data`.
  - `SyncPlanner`: `process_files`.
  - `BatchWriter`:
    - `safe_update_cells` and `safe_append_rows`, over an oracle of call outcomes;
    - the batching of `update_spreadsheet`, `update_thumbnail_formula` and the `New`-status clearing in `main`.
  - `SyncRun`: the run-level deduplication and the cache pruning in `main`.
- **`check_image_names.py`**, the file-name linter:
  - `NameLinter`: `load_tag_categories`, `analyze_filename`, `find_non_matching_files` and the extension normalisation of its `main`.
- **`spreadsheet-to-json.py`**, the gallery export. `scripts/spreadsheet-to-json.py` is a byte-identical copy. Both files are modelled once, and some rows below cite the copy.
  - `GalleryExport`: `process_tags`, `load_category_mapping` and the row-to-item loop of `main`.
- **Shared modules:**
  - `Wrappers`: `Option`.
  - `Text`: Python string operations on `seq<char>`: `split`, `join`, `strip`, `replace`, an ASCII `lower`, `os.path` helpers and decimal digits.
  - `JsonValue`: a parsed JSON document. Object members keep file order, and the last duplicate key wins.
  - `Gathering`: a concatenating fold that fails as soon as one element fails. It models a Python loop aborted by an exception.

Python regular expressions become ASCII character-class predicates. They
keep the quirk that `$` also matches just before a final newline.

Where code that loops or updates state has a method, it is proved equal
to a specification function, and the properties are lemmas about that
function. For example:

- `NameLinter.CheckMiddle` is proved equal to `NameLinter.MiddleOf`;
- `GalleryExport.LoadCategoryMapping` is proved equal to `GalleryExport.CategoryMapping`;
- `Grouping.GroupFilesBySequence` is proved equal to `Grouping.Organize`.

Some behaviours of the code are easy to misread; the model follows the code:

- A `t-web-branding` token becomes the single tag `t web branding` in
  `parse_filename`. Only the linter splits it into sub-tags.
- The ledger of failed files is appended to, never replaced: the list
  `process_files` returns is the ledger it was given followed by this
  run's failures.
- The names in the ledger are basenames, which `main` then hashes as if
  they were paths. Hashing is an oracle here, so this shows only as the
  name being passed to it.
- The cache is capped at 1000 completed entries. Line 667 then keeps only
  the entries whose hash was committed in this run.
- The "every 50 files" cache save runs once, after the loop.

One inconsistency between the two programs is kept as written. The export
reads the column `PreviewURL`, while the sync writes a column headed
`Preview URL`. The model keeps the exporter's key.

## Model

| member | source | states |
|---|---|---|
| FilenameParser.SequenceAndBaseName | image-processor.py:117-123 | a trailing two-digit part becomes `sequence` and `base_name` is the stem without it (stem == base + "_" + seq); otherwise `sequence` is None and `base_name` is the whole stem |
| FilenameParser.BaseNameIgnoresSequence | image-processor.py:117-123 | two names that differ only in their sequence token have the same `base_name` |
| FilenameParser.NumberTokenShape | image-processor.py:115-118 | a sequence token is made of digits (and at most a final newline) and never contains `_` |
| FilenameParser.ParseStem | image-processor.py:106-128 | a year is only ever the first `_` part of the stem and matches the four-digit pattern; a sequence is only ever the last part and matches the two-digit pattern |
| FilenameParser.ParseFilename | image-processor.py:90-123 | the extension and directory are dropped; without a sequence `base_name` is the whole stem, with one the stem is `base_name + '_' + sequence` (or the sequence alone, with an empty `base_name`) |
| FilenameParser.TakeHeadWellFormed | image-processor.py:125-138 | when the first three parts match the year, client and title patterns, they are taken in that order and the rest is left over |
| FilenameParser.WellFormedRecovery | image-processor.py:117-169 | for a well-formed name, year, client, title and sequence are read back from their parts; client and title are de-hyphenated exactly when some leftover part matches no pattern |
| FilenameParser.FirstSubtitle | image-processor.py:147-151 | the index of the first leftover part that may be a subtitle: no earlier part may |
| FilenameParser.ClassifyCharacterised | image-processor.py:140-169 | the first subtitle-pattern part becomes the subtitle and every other leftover becomes a tag in order, de-hyphenated; no part is dropped; the unmatched flag is set iff some part matches no pattern |
| FilenameParser.TagTokenGivesOneTag | image-processor.py:142-146 | a `t-` token yields one tag equal to the token with every `-` turned into a space |
| FilenameParser.ParseStemLeftovers | image-processor.py:125-169 | the whole record: year, client and title from the greedy head (display names de-hyphenated iff an unmatched leftover exists), subtitle and tags from the leftovers as above, tags + subtitle count == leftovers |
| FilenameParser.DetailText | image-processor.py:278-300 | the detail text is empty iff year, client and title are all empty (a subtitle or sequence alone gives nothing) |
| FilenameParser.DetailTextShape | image-processor.py:278-300 | the detail text starts with the title when there is one, ends with " (year)" when a year is present, and is just the title when nothing else is |
| FilenameParser.DetailTextExample | image-processor.py:278-300 | `Launch (01) for AcmeCo (2024)` for the documented example |
| Grouping.GroupFilesBySequence | image-processor.py:352-378 | the method's result is `Organize` of the parsed files |
| Grouping.CollectGroups | image-processor.py:354-367 | the dict of lists: first-seen order of base names, and each group is the input files with that base name in input order |
| Grouping.SortGroups | image-processor.py:369-371 | each group is replaced by its stable sort on `int(sequence or 0)` |
| Grouping.Flatten | image-processor.py:373-378 | the groups are concatenated in first-seen order |
| Grouping.KeyBound | image-processor.py:371 | the sort key is at most 99 |
| Grouping.BasesDistinct | image-processor.py:360-361 | every base name is one dict key |
| Grouping.StableSortCorrect | image-processor.py:371 | the sort is ordered by key, a permutation, and keeps input order among equal keys |
| Grouping.OrganizePermutation | image-processor.py:352-378 | the result is a permutation of the input |
| Grouping.OrganizeContiguous | image-processor.py:373-378 | each base-name group is contiguous in the result |
| Grouping.OrganizeKeepsFirstSeenOrder | image-processor.py:354-376 | groups appear in the order their base name is first seen |
| Grouping.GroupContents | image-processor.py:352-378 | the files of one base name in the result are exactly that group's input files, stably sorted |
| Grouping.GroupSortedAndStable | image-processor.py:369-371 | within a group keys are non-decreasing and ties keep input order |
| UploadCache.TrialFrom | image-processor.py:250-276 | from attempt k: a success is reported on an attempt after k, at most the third, that answered with that URL; an escape only happens on the very first attempt, when creating the client raised |
| UploadCache.TrialBounds | image-processor.py:250-276 | the retry loop makes 1 to 3 attempts; success is the first successful attempt, every earlier one having failed; exhaustion iff every attempt fails |
| UploadCache.Cache.constructor | image-processor.py:181-186 | a fresh cache has empty maps and no last run |
| UploadCache.Cache.Save | image-processor.py:188-194 | a save records both maps as they are |
| UploadCache.Cache.Upload | image-processor.py:228-276 | the old and new `processed_files`, `gcs_urls` and save log and the result are related by `UploadEffect`. Cache hit: the cached or refreshed URL, never 'pending'; otherwise 'pending' is saved before the first attempt; success stores the URL and a completion stamp and saves; three failures delete the entry, save and raise; without a hash the loop can return None |
| UploadCache.Cache.Refetch | image-processor.py:230-244 | a cache hit re-checks the blob, replaces the URL and saves only when it changed |
| UploadCache.Cache.UploadFresh | image-processor.py:246-276 | the no-cached-URL path, with and without a hash |
| UploadCache.Cache.FreshHashed | image-processor.py:246-276 | with a hash: pending saved first, then the attempt log, then the completion or the deletion |
| UploadCache.Cache.FreshUnhashed | image-processor.py:250-269 | without a hash the cache is untouched and a full failure returns None |
| UploadCache.Cache.Complete | image-processor.py:264-267 | success stores URL and stamp and saves |
| UploadCache.Cache.Forget | image-processor.py:273-275 | the final failure removes the hash and saves |
| SheetSnapshot.HeaderIndex | image-processor.py:322 | the index found holds the header, and no later index does (last duplicate wins) |
| SheetSnapshot.LastIndexIsHeaderIndex | image-processor.py:322 | a header's last position is its index |
| SheetSnapshot.GetExistingData | image-processor.py:302-350 | the method computes `ExistingData`; with no data rows it returns `({}, [])` |
| SheetSnapshot.ScanRows | image-processor.py:330-344 | the row loop computes `Scan` |
| SheetSnapshot.NoDataNoSnapshot | image-processor.py:315-317 | a failed read or a sheet with only the header row gives the empty snapshot |
| SheetSnapshot.NewCellsSound | image-processor.py:337-339 | every status cell to clear is `(row, statusIdx+1, '')` on a data row (numbered from 2) whose Status is exactly `New` |
| SheetSnapshot.NewCellsComplete | image-processor.py:337-339 | every data row whose Status is `New` yields its cell |
| SheetSnapshot.FileMapKeys | image-processor.py:341-344 | every key is a non-empty File ID of some row |
| SheetSnapshot.FileMapLastWins | image-processor.py:341-344 | a File ID maps to the last row carrying it, with that row's number |
| SheetSnapshot.RowFieldsValue | image-processor.py:342 | a row's field under a header is its cell, or "" past the row's end |
| SyncPlanner.Clean | image-processor.py:465 | the cleaned URL has no newline or carriage return |
| SyncPlanner.ProcessFiles | image-processor.py:438-533 | rows, cells, the failure list (appended to the loaded one) and the processed set are the plan of the per-file outcomes; the intermediate save runs once, after the loop |
| SyncPlanner.Visit | image-processor.py:444-503 | the outcome is `Decide` of the file's hash and upload result; without a hash or with Status `Edited` nothing is uploaded and the cache is untouched; otherwise the upload result and the new cache state are exactly those `Upload` promises (`UploadEffect`) for the file's oracles |
| SyncPlanner.Step | image-processor.py:449-503 | one file's outcome from its hash and upload result |
| SyncPlanner.ApplyStep | image-processor.py:449-526 | one outcome applied to the accumulated plan |
| SyncPlanner.Decide | image-processor.py:449-503 | no hash: failed; Status exactly `Edited`: kept without upload; failed upload: failed; else updated (known name, its row number) or added (new name), with the cleaned URL |
| SyncPlanner.UpdateCellsShape | image-processor.py:480-492 | an update is exactly 9 cells on the row, columns 1-7, 9 and 10, URL in 7, name in 9, blank Status |
| SyncPlanner.NewRowShape | image-processor.py:513-525 | a new row has 10 values: URL, blank Thumbnail, the name at index 8, blank Status |
| SyncPlanner.PlanAccountsForEveryFile | image-processor.py:444-526 | failed + kept + updated + added == number of files |
| SyncPlanner.PlanShape | image-processor.py:481-525 | no cell touches column 8 and every row has 10 values with a blank Thumbnail |
| SyncPlanner.ProcessedExact | image-processor.py:458-499 | a hash is in the processed set iff some file was kept as Edited or uploaded with it |
| SyncPlanner.FailedSound | image-processor.py:450-503 | every new failure entry names a file whose hash or upload failed |
| BatchWriter.RetryFrom | image-processor.py:380-405 | from attempt k < 3 the loop makes at least one more call and at most 3 in all |
| BatchWriter.RetryFacts | image-processor.py:380-405 | success iff some call within the three succeeds and every call before it failed in a way the loop retries |
| BatchWriter.RetryLastCall | image-processor.py:380-405 | a success ends on a call that answered `Ok`; an escape ends on a call that raised a non-API error, and only in `safe_append_rows` |
| BatchWriter.UpdateRunFacts | image-processor.py:537-545 | one flag per batch, one to three calls per batch; when every call answers `Ok`, every batch is written on its first call |
| BatchWriter.AppendRunFacts | image-processor.py:547-562 | without an escape one flag per row of the input; an escape ends on a call that raised a non-API error; when every call answers `Ok`, every row is appended, one call per batch |
| BatchWriter.ChunksRoundTrip | image-processor.py:539-540 | the batches concatenate back to the input |
| BatchWriter.ChunksSizes | image-processor.py:539-540 | every batch has 1..n elements and all but the last exactly n |
| BatchWriter.KeptAll | image-processor.py:537-545 | when every batch succeeds, everything is written in order |
| BatchWriter.SelectFacts | image-processor.py:547-561 | the rows appended are no more than the input and drawn from it, all of it when every append succeeds |
| BatchWriter.SelectOrder | image-processor.py:547-561 | the rows appended are exactly the flagged rows, each once and in input order: entry j is the row at the j-th flagged position |
| BatchWriter.Worksheet.SafeUpdateCells | image-processor.py:380-393 | the result, the calls made and the cells written are those of `RetryFrom` over the worksheet's call outcomes, every exception retried: the cells are written iff it succeeds |
| BatchWriter.Worksheet.SafeAppendRows | image-processor.py:395-405 | the same with only API errors retried: the rows are appended iff it succeeds, and `raised` iff a non-API error escaped |
| BatchWriter.Worksheet.UpdateInBatches | image-processor.py:537-545 | the per-batch flags and calls are `UpdateRun` of the call outcomes; exactly the batches flagged are written, in order |
| BatchWriter.Worksheet.AppendInBatches | image-processor.py:547-562 | batches of 25 with a per-row fallback; the escape, the row flags and the calls are `AppendRun` of the call outcomes; what is appended is the rows reached in order, minus those flagged failed |
| BatchWriter.Worksheet.AppendBatch | image-processor.py:549-561 | one batch as `AppendOne` of the call outcomes: all rows, or the fallback's survivors, or nothing when an error escapes |
| BatchWriter.Worksheet.AppendEach | image-processor.py:555-561 | the per-row fallback makes one call per row and appends, in order, exactly the rows whose call answered `Ok` |
| BatchWriter.Worksheet.UpdateSpreadsheet | image-processor.py:535-562 | cells in batches of 500, then rows in batches of 25 whose first call (`rowsFrom`) is the one after the cells' last, with the guarantees above |
| BatchWriter.Worksheet.ClearNewStatuses | image-processor.py:604-615 | the `New` cells are cleared in batches of 1000, exactly the batches `UpdateRun` flags |
| BatchWriter.Worksheet.UpdateThumbnailFormula | image-processor.py:407-436 | the formula cells are written in batches of 10, exactly the batches `UpdateRun` flags; nothing when a header is missing |
| BatchWriter.FirstIndex | image-processor.py:411-412 | `list.index`: the first position of the header, None when absent |
| BatchWriter.BuildFormulaCells | image-processor.py:417-421 | the loop builds `FormulaCells` |
| BatchWriter.FormulaCellsFacts | image-processor.py:414-420 | one cell per data row 2..n+1, in the Thumbnail column, `=IMAGE(<col><row>)` whose digits spell the row number |
| SyncRun.DedupFiles | image-processor.py:626-650 | the loop over failed + scanned files computes `DedupOf`, and `file_hashes` gains the names recorded |
| SyncRun.Visit | image-processor.py:632-650 | one turn of the dedup loop |
| SyncRun.SeenExactly | image-processor.py:639-649 | a hash is recorded iff some file has it and it had no completed cache entry |
| SyncRun.UniqueEligible | image-processor.py:639-650 | every kept file is an input file whose hash had no completed entry |
| SyncRun.UniqueDistinct | image-processor.py:643-650 | kept files have pairwise distinct hashes |
| SyncRun.DuplicatesAreRepeats | image-processor.py:643-646 | the duplicate count is the number of within-run repeats of eligible hashes |
| SyncRun.EligibleRepresented | image-processor.py:632-650 | every eligible file's hash is carried by some kept file |
| SyncRun.SeenRepresented | image-processor.py:643-650 | every recorded hash has a kept file |
| SyncRun.MostRecent | image-processor.py:661-665 | picks min(n, 1000) keys whose stamps are at least those of every key left out |
| SyncRun.CapProcessed | image-processor.py:659-665 | at most 1000 completed entries: unchanged when the cache holds at most 1000 entries in all, else the most recent completed entries plus every pending one, each with its old value |
| SyncRun.CapWithCapped | image-processor.py:665 | rebuilding from the most recent keys satisfies the cap |
| SyncRun.PruneProcessed | image-processor.py:659-669 | cap then keep-committed, stamp the run and save |
| NameLinter.LoadTagCategories | check_image_names.py:7-30 | the loop computes `ValidTagsOf`: [] on any load error |
| NameLinter.TagsOfCategory | check_image_names.py:22-25 | one category's tags, or the error that aborts the load |
| NameLinter.TagsOfSubcategories | check_image_names.py:24-25 | the `tag` of each subcategory in order |
| NameLinter.AllTagsInFileOrder | check_image_names.py:21-27 | tags of a list of categories are the tags of its halves concatenated, in file order |
| NameLinter.TagOfEachExact | check_image_names.py:24-25 | succeeds iff every subcategory is an object with `tag`, and then yields exactly their tags in order |
| NameLinter.SkipsCategoryWithoutSubcategories | check_image_names.py:23 | a category without `subcategories` contributes nothing |
| NameLinter.UnknownTags | check_image_names.py:108-109 | only unknown-tag errors |
| NameLinter.UnknownTagsExact | check_image_names.py:105-109 | an unknown-tag error for t iff t is among the tags and not valid |
| NameLinter.Analyze | check_image_names.py:43-74 | parts are the `_` split of the stem; with fewer than 4 parts the errors are exactly the part-count error and `number` is None |
| NameLinter.AnalyzeFilename | check_image_names.py:32-126 | the method computes `Analyze` |
| NameLinter.CheckMiddle | check_image_names.py:93-120 | the middle-part loop computes `MiddleOf` |
| NameLinter.CheckSubTags | check_image_names.py:104-109 | the non-empty sub-tags, and an error per unknown one |
| NameLinter.CheckPart | check_image_names.py:94-120 | one middle part's contribution is added to what came before |
| NameLinter.CombineAssociative | check_image_names.py:93-120 | collecting over consecutive stretches composes |
| NameLinter.CollectAppend | check_image_names.py:94 | collecting over a + b is combining the two |
| NameLinter.PartEffectShape | check_image_names.py:95-120 | a `t-` part sets the tag part and gives its sub-tags; any other part is a subtitle |
| NameLinter.PartEffectErrors | check_image_names.py:99-120 | malformed tag, unknown sub-tag, malformed subtitle and tag used as subtitle, each exactly when its condition holds |
| NameLinter.MiddleErrorKinds | check_image_names.py:93-120 | middle parts give only tag and subtitle errors |
| NameLinter.TagPartIsLast | check_image_names.py:95-97 | the tag part is set iff some middle part starts with `t-`, and it is the last such part |
| NameLinter.MiddleCollects | check_image_names.py:104-112 | subtitles are exactly the non-`t-` middle parts; tags exactly the sub-tags of `t-` parts |
| NameLinter.MiddleErrors | check_image_names.py:99-120 | each middle error kind occurs exactly for the parts it describes |
| NameLinter.PositionalCounts | check_image_names.py:76-90 | each positional check contributes exactly one error iff its part fails its pattern |
| NameLinter.PartsChecks | check_image_names.py:61-90 | year, client, title and number are read positionally and each failing one is reported exactly once |
| NameLinter.PositionalChecks | check_image_names.py:61-90 | the same, for a file name with at least four parts |
| NameLinter.NotFromMiddle | check_image_names.py:93-120 | positional and missing-tag errors never come from the middle loop |
| NameLinter.PartsMissingTag | check_image_names.py:122-124 | missing-tag error iff more than 4 parts and no middle part starts with `t-` |
| NameLinter.MissingTagRule | check_image_names.py:122-124 | the same for a file name: a 4-part name never gets it |
| NameLinter.FindNonMatchingFiles | check_image_names.py:128-162 | the walk loop computes `NonMatching`, with the default extension list when none is given |
| NameLinter.ReportsExact | check_image_names.py:147-160 | a (path, analysis) pair is reported iff some walked file passes the filter with that joined path and analysis |
| NameLinter.NonMatchingExact | check_image_names.py:147-160 | a file is reported iff its lower-cased extension is listed and its analysis has errors |
| NameLinter.NormalizeExtensions | check_image_names.py:206 | one entry per comma-separated piece |
| NameLinter.NormalizedShape | check_image_names.py:206 | every entry starts with `.`, is stripped and has no comma |
| NameLinter.NormalizeNormalized | check_image_names.py:206 | an already normalised entry is unchanged |
| NameLinter.NormalizeExtensionsIdempotent | check_image_names.py:206 | every result starts with `.`, and normalising the re-joined result gives it back |
| GalleryExport.ProcessTags | spreadsheet-to-json.py:32-41 | no tag is empty, and there are no more tags than comma pieces |
| GalleryExport.StripEachPieces | spreadsheet-to-json.py:38 | entry i of the list is piece i with exactly its leading and trailing whitespace removed (`IsStripOf`) |
| GalleryExport.ProcessTagsIsSplitTags | spreadsheet-to-json.py:32-41 | the empty-input guard agrees with splitting the empty string |
| GalleryExport.ProcessTagsClean | scripts/spreadsheet-to-json.py:34-41 | [] for an empty input; otherwise no empty, untrimmed or comma-holding element |
| GalleryExport.ProcessTagsMember | spreadsheet-to-json.py:38-41 | x is a tag iff x is non-empty and the strip of some comma piece |
| GalleryExport.ProcessTagsConcat | spreadsheet-to-json.py:38-41 | comma order is kept: tags of `a,b` are tags of a then tags of b |
| GalleryExport.SplitTagsJoin | spreadsheet-to-json.py:38-41 | clean tags survive a `', '.join` round trip |
| GalleryExport.ProcessTagsRejoin | spreadsheet-to-json.py:38-41 | `process_tags(', '.join(process_tags(s))) == process_tags(s)` |
| GalleryExport.LoadCategoryMapping | spreadsheet-to-json.py:43-65 | the nested loop computes `CategoryMapping`: {} on any load error |
| GalleryExport.StoreCategory | spreadsheet-to-json.py:52-60 | one category's stores, or the error that aborts the load |
| GalleryExport.StoreSubcategories | spreadsheet-to-json.py:58-60 | each subcategory's tag is stored with the parent id, in order |
| GalleryExport.MapOfKeys | spreadsheet-to-json.py:50-60 | a key is in the mapping iff some store wrote it |
| GalleryExport.MapOfLastWins | scripts/spreadsheet-to-json.py:50-60 | a key's value is that of its last store |
| GalleryExport.CategoryAssignmentsExact | spreadsheet-to-json.py:54-60 | a category first maps its id to itself; every other store maps to that id |
| GalleryExport.CategorySubcategoryStores | spreadsheet-to-json.py:57-60 | with a non-empty subcategory list, one store per subcategory tag → parent id, in order |
| GalleryExport.CategoryOnlyId | spreadsheet-to-json.py:54-57 | without truthy subcategories only the id is stored |
| GalleryExport.StoresCategoryId | spreadsheet-to-json.py:54-60 | every value a category stores is its own id |
| GalleryExport.MappingFromCategories | spreadsheet-to-json.py:50-62 | every key of the mapping was stored by some category, and maps to that category's id |
| GalleryExport.MappingCoversCategories | spreadsheet-to-json.py:50-62 | every id and subcategory tag stored is a key of the mapping |
| GalleryExport.FindMainCategory | scripts/spreadsheet-to-json.py:95-99 | the break-on-first-match loop computes `FirstMapped` |
| GalleryExport.FirstMappedIsFirst | spreadsheet-to-json.py:95-99 | a main category exists iff some tag is mapped, and it is the mapping of the first mapped tag |
| GalleryExport.ParseInt | spreadsheet-to-json.py:116-120 | `int()` succeeds only on a non-empty stripped string whose characters after the first are digits; a negative result needs a leading `-` |
| GalleryExport.ParseIntRoundTrip | spreadsheet-to-json.py:116-120 | `int()` reads back the decimal rendering of any integer, also after a space |
| GalleryExport.ExportRows | spreadsheet-to-json.py:84-122 | the row loop computes `Export` |
| GalleryExport.ConvertRow | spreadsheet-to-json.py:86-122 | one row's item, no item, or the error that aborts the export |
| GalleryExport.ExportFails | spreadsheet-to-json.py:86-122 | the export fails iff some kept row has a truthy non-string Tags value |
| GalleryExport.ExportInOrder | scripts/spreadsheet-to-json.py:86-122 | items of a + b are items of a then items of b: surviving rows keep their order |
| GalleryExport.ExportedItems | spreadsheet-to-json.py:86-122 | every item comes from a row with truthy Title and PreviewURL whose processed Tags are its tags; subtitle, year, client, detail and File ID are that row's values ("" when absent); thumbnail falls back to PreviewURL; order from Order; main category is the first mapped tag's |
| JsonValue.Lookup | check_image_names.py:23-25 | `key in obj` and `obj[key]` agree |
| JsonValue.LookupIsLast | check_image_names.py:19 | a duplicated key takes its last value |
| Text.SplitJoin | image-processor.py:107-123 | joining the `_` split gives the stem back |
| Text.StripShape | spreadsheet-to-json.py:38 | the result of `strip` is a slice of the input, no longer than it, that neither starts nor ends with whitespace |
| Text.StripExact | spreadsheet-to-json.py:38 | t is `s.strip()` iff t is a slice of s that neither starts nor ends with whitespace and has only whitespace on either side of it |
| Text.NatToStringRoundTrip | image-processor.py:419 | a row number's decimal digits read back as the number |

## Left out

- Google authentication, gspread and Cloud Storage calls are oracles:
  - outcome functions per attempt or per call number;
  - the header row and value matrix for `get_existing_data`;
  - the rows of `get_all_records`.
- MD5 hashing and file reads (`get_file_hash`) are an abstract `path → Option<hash>` function. Because of this, a ledger name being hashed as if it were a path shows only as the name passed to the oracle.
- File loads and saves:
  - the categories file arrives as a parsed `Option<Json>` (`None` when reading or parsing fails);
  - the cache and the failed-files ledger arrive already loaded, as a `Cache` object and a list of names; `load_cache`'s default is the `Cache` constructor;
  - `save_cache` is a `Saved` event in the cache's ghost log;
  - `save_failed_files` (image-processor.py:670) is not part of this model: the ledger `process_files` returns is not shown being written;
  - the configuration file (`load_config`) is not part of this model;
  - `datetime.now()` and `time.time()` are parameters.
- `time.sleep` backoff and pauses, logging, `collect_statistics`, prints, and the command-line parsing of `check_image_names.py` (apart from the extension normalisation).
- `glob` and `os.walk`: the file list and the walk (directory, file name pairs) are inputs.
- `test_connection.py` is not part of this model; it only connects.
- The commented-out thread-pool variant of `process_files`.
- Python `\d`, `str.strip` and `str.lower` on non-ASCII characters: only ASCII digits, ASCII whitespace and ASCII upper-case letters are modelled.
- `int()` on strings with underscores or non-ASCII digits, and float cells from the sheet, are not modelled.
- JSON numbers are integers only (`JNum`): a float in `categories.json` or in the cache file is not modelled. The `time.time()` completion stamps in `processed_files` are floats in the source and integers here; only their order is used.
- A save in the ghost log (`Saved`) records `processed_files` and `gcs_urls` only. `save_cache` writes the whole cache, so the `file_hashes` entries recorded during deduplication and `last_processed` are also saved; the model keeps them as fields of the cache but not in the log.
- Python's `True == 1` collision between a boolean and an integer dictionary key is not modelled: keys compare as JSON values.
- SyncRun.CapProcessed: ties between equal completion stamps are resolved arbitrarily rather than by the sort's order.
- SyncRun.MostRecent: among keys with equal completion stamps at the cut-off, which ones are kept is not pinned down; the source's ascending sort is stable, so taking its last 1000 keeps those inserted into the dict last.
- SyncRun.PruneProcessed: inherits that tie gap through the capped map it states to exist.
- SyncPlanner.ProcessFiles: each file's upload result is a ghost out-parameter, and the contract does not repeat the cache's `Upload` contract file by file.
- A column letter is `chr(64 + index)`. A column index that would reach the surrogate range of the character table, where Python's `chr` still succeeds, is rendered as `?`.
- GalleryExport.ExportedItems: a main category that is the JSON `null` is not distinguished from "no main category" in the JSON written.
