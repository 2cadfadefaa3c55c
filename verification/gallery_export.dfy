/**
 * spreadsheet-to-json.py (and its identical copy scripts/spreadsheet-to-json.py):
 * the tag normalisation `process_tags`, the tag → main-category mapping
 * read from the category configuration, and the loop of `main` that turns
 * the rows of the Gallery worksheet into gallery items.
 */
module GalleryExport {
  import opened Wrappers
  import opened Text
  import opened JsonValue
  import opened Gathering

  // ---------------------------------------------------------------------
  // process_tags
  // ---------------------------------------------------------------------

  /** `[tag.strip() for tag in pieces]`. */
  function StripEach(xs: seq<string>): (r: seq<string>)
    ensures |r| == |xs|
  {
    seq(|xs|, i requires 0 <= i < |xs| => Strip(xs[i]))
  }

  /** Each entry is its piece with exactly the surrounding whitespace
      removed. */
  lemma StripEachPieces(xs: seq<string>)
    ensures forall i | 0 <= i < |xs| :: IsStripOf(xs[i], StripEach(xs)[i])
  {
    forall i | 0 <= i < |xs| ensures IsStripOf(xs[i], StripEach(xs)[i]) {
      StripIsStripOf(xs[i]);
    }
  }

  /** The comma-separated pieces of `s`, stripped, the empty ones dropped. */
  function SplitTags(s: string): seq<string> {
    NonEmpty(StripEach(Split(s, ',')))
  }

  /** `process_tags(tags_str)` for a string. */
  function ProcessTags(s: string): (r: seq<string>)
    ensures "" !in r && |r| <= |Split(s, ',')|
  {
    if s == "" then [] else SplitTags(s)
  }

  /** The guard for the empty string agrees with the general case. */
  lemma ProcessTagsIsSplitTags(s: string)
    ensures ProcessTags(s) == SplitTags(s)
  {
    if s == "" {
      SplitTagsEmpty();
    }
  }

  /** Every tag is non-empty, has no surrounding whitespace and no comma
      (the empty string gives no tags at all). */
  lemma ProcessTagsClean(s: string)
    ensures s == "" ==> ProcessTags(s) == []
    ensures var r := ProcessTags(s);
            forall i | 0 <= i < |r| :: r[i] != "" && Stripped(r[i]) && ',' !in r[i]
  {
    ProcessTagsIsSplitTags(s);
    var r := ProcessTags(s);
    forall i | 0 <= i < |r| ensures r[i] != "" && Stripped(r[i]) && ',' !in r[i] {
      TagShape(s, r[i]);
    }
  }

  /** The tags are exactly the non-empty stripped comma-separated pieces. */
  lemma ProcessTagsMember(s: string, x: string)
    ensures x in ProcessTags(s) <==> x != "" && exists i | 0 <= i < |Split(s, ',')| :: x == Strip(Split(s, ',')[i])
  {
    ProcessTagsIsSplitTags(s);
    var pieces := Split(s, ',');
    var stripped := StripEach(pieces);
    NonEmptyMember(stripped, x);
    assert x in ProcessTags(s) <==> x != "" && x in stripped;
    if x in stripped {
      var k :| 0 <= k < |stripped| && stripped[k] == x;
      assert x == Strip(pieces[k]);
    }
    if exists i | 0 <= i < |pieces| :: x == Strip(pieces[i]) {
      var i :| 0 <= i < |pieces| && x == Strip(pieces[i]);
      assert stripped[i] == x;
    }
    assert x in stripped <==> exists i | 0 <= i < |pieces| :: x == Strip(pieces[i]);
  }

  lemma TagShape(s: string, t: string)
    requires t in SplitTags(s)
    ensures t != "" && Stripped(t) && ',' !in t
  {
    var pieces := Split(s, ',');
    var stripped := StripEach(pieces);
    NonEmptyMember(stripped, t);
    var j :| 0 <= j < |stripped| && stripped[j] == t;
    SplitPiecesFree(s, ',');
    StripShape(pieces[j]);
    StripKeepsOut(pieces[j], ',');
  }

  lemma StripEachAppend(a: seq<string>, b: seq<string>)
    ensures StripEach(a + b) == StripEach(a) + StripEach(b)
  {
  }

  /** Tags on either side of a comma: the tags of the joined string are
      those of the left side, then those of the right. */
  lemma SplitTagsConcat(a: string, b: string)
    ensures SplitTags(a + "," + b) == SplitTags(a) + SplitTags(b)
  {
    SplitConcat(a, b, ',');
    StripEachAppend(Split(a, ','), Split(b, ','));
    NonEmptyAppend(StripEach(Split(a, ',')), StripEach(Split(b, ',')));
  }

  /** `process_tags` keeps comma order: the tags of `a + "," + b` are those
      of `a` followed by those of `b`. */
  lemma ProcessTagsConcat(a: string, b: string)
    ensures ProcessTags(a + "," + b) == ProcessTags(a) + ProcessTags(b)
  {
    ProcessTagsIsSplitTags(a + "," + b);
    ProcessTagsIsSplitTags(a);
    ProcessTagsIsSplitTags(b);
    SplitTagsConcat(a, b);
  }

  lemma SplitTagsSpace(t: string)
    ensures SplitTags(" " + t) == SplitTags(t)
  {
    var pieces := Split(t, ',');
    SplitCons(' ', t, ',');
    StripSpacePrefix(pieces[0]);
    assert StripEach(Split(" " + t, ',')) == StripEach(pieces);
  }

  lemma SplitTagsEmpty()
    ensures SplitTags("") == []
  {
    assert StripEach(Split("", ',')) == [""];
    assert NonEmpty([""]) == NonEmpty([""][..0]) + [];
  }

  /** A clean tag on its own is its only tag. */
  lemma SplitTagsSingle(t: string)
    requires t != "" && Stripped(t) && ',' !in t
    ensures SplitTags(t) == [t]
  {
    SplitWithoutSep(t, ',');
    StripStripped(t);
    assert StripEach([t]) == [t];
    assert NonEmpty([t]) == NonEmpty([t][..0]) + [t];
  }

  /** A tag list joined with ", " splits back into itself. */
  lemma {:induction false} SplitTagsJoin(r: seq<string>)
    requires forall i | 0 <= i < |r| :: r[i] != "" && Stripped(r[i]) && ',' !in r[i]
    ensures SplitTags(Join(r, ", ")) == r
    decreases |r|
  {
    if r == [] {
      SplitTagsEmpty();
    } else if |r| == 1 {
      SplitTagsSingle(r[0]);
    } else {
      var rest := Join(r[1..], ", ");
      assert Join(r, ", ") == r[0] + "," + (" " + rest);
      SplitTagsConcat(r[0], " " + rest);
      SplitTagsSingle(r[0]);
      SplitTagsSpace(rest);
      SplitTagsJoin(r[1..]);
      assert [r[0]] + r[1..] == r;
    }
  }

  /** `process_tags(', '.join(process_tags(s))) == process_tags(s)`. */
  lemma ProcessTagsRejoin(s: string)
    ensures ProcessTags(Join(ProcessTags(s), ", ")) == ProcessTags(s)
  {
    ProcessTagsClean(s);
    SplitTagsJoin(ProcessTags(s));
    ProcessTagsIsSplitTags(Join(ProcessTags(s), ", "));
  }

  // ---------------------------------------------------------------------
  // load_category_mapping
  // ---------------------------------------------------------------------

  /** One dictionary store `tag_to_category[key] = value`. */
  type Assignment = (Json, Json)

  /** `tag_to_category[subcategory['tag']] = category['id']` for one
      subcategory: it must be an object with a 'tag' whose value can be a
      dictionary key. */
  function SubcategoryAssignment(subcategory: Json, id: Json): Option<seq<Assignment>> {
    if subcategory.JObj? && HasKey(subcategory.members, "tag") && Hashable(Lookup(subcategory.members, "tag").value)
    then Some([(Lookup(subcategory.members, "tag").value, id)])
    else None
  }

  function SubcategoryAssignmentOf(id: Json): Json -> Option<seq<Assignment>> {
    subcategory => SubcategoryAssignment(subcategory, id)
  }

  /** The stores one category makes, in order, or `None` where Python
      raises: the category must be an object whose 'id' can be a key; a
      truthy 'subcategories' must be a list (iterating a non-empty object
      or string yields strings, which cannot be indexed by 'tag'). */
  function CategoryAssignments(category: Json): Option<seq<Assignment>> {
    if !(category.JObj? && HasKey(category.members, "id")) then None
    else
      var id := Lookup(category.members, "id").value;
      if !Hashable(id) then None
      else if !(HasKey(category.members, "subcategories") && Truthy(Lookup(category.members, "subcategories").value)) then
        Some([(id, id)])
      else
        var subcategories := Lookup(category.members, "subcategories").value;
        if !subcategories.JArr? then None
        else
          match Gather(subcategories.items, SubcategoryAssignmentOf(id))
          case Some(more) => Some([(id, id)] + more)
          case None => None
  }

  /** The dictionary after the stores, in order: a later store to a key
      replaces an earlier one. */
  function MapOf(assignments: seq<Assignment>): map<Json, Json>
    decreases |assignments|
  {
    if assignments == [] then map[]
    else
      var n := |assignments| - 1;
      MapOf(assignments[..n])[assignments[n].0 := assignments[n].1]
  }

  /** What `load_category_mapping` returns for the parsed file (`None`
      when the file cannot be opened or parsed): `{}` whenever anything
      raises, and for a document that is not a list (iterating an object
      or a string yields strings, which cannot be indexed by 'id'). */
  function CategoryMapping(parsed: Option<Json>): map<Json, Json> {
    match parsed
    case Some(JArr(categories)) =>
      (match Gather(categories, CategoryAssignments)
       case Some(assignments) => MapOf(assignments)
       case None => map[])
    case _ => map[]
  }

  /** `load_category_mapping()`: the nested loops filling `tag_to_category`. */
  method LoadCategoryMapping(parsed: Option<Json>) returns (tagToCategory: map<Json, Json>)
    ensures tagToCategory == CategoryMapping(parsed)
  {
    if !(parsed.Some? && parsed.value.JArr?) {
      return map[];
    }
    var categories := parsed.value.items;
    tagToCategory := map[];
    ghost var done: seq<Assignment> := [];
    var i := 0;
    while i < |categories|
      invariant 0 <= i <= |categories|
      invariant Gather(categories[..i], CategoryAssignments) == Some(done)
      invariant tagToCategory == MapOf(done)
    {
      assert categories[..i + 1][..i] == categories[..i];
      var ok;
      ghost var more;
      ok, tagToCategory, more := StoreCategory(tagToCategory, categories[i], done);
      if !ok {
        GatherNoneSticks(categories, CategoryAssignments, i + 1);
        return map[];
      }
      done := done + more;
      i := i + 1;
    }
    assert categories[..i] == categories;
  }

  /** The body of the outer loop: the category's own store, then the
      inner loop over its subcategories. */
  method StoreCategory(m: map<Json, Json>, category: Json, ghost done: seq<Assignment>)
    returns (ok: bool, m': map<Json, Json>, ghost more: seq<Assignment>)
    requires m == MapOf(done)
    ensures ok <==> CategoryAssignments(category).Some?
    ensures ok ==> more == CategoryAssignments(category).value && m' == MapOf(done + more)
  {
    m', more := m, [];
    if !(category.JObj? && HasKey(category.members, "id")) {
      return false, m', more;
    }
    var id := Lookup(category.members, "id").value;
    if !Hashable(id) {
      return false, m', more;
    }
    m' := m'[id := id];
    more := [(id, id)];
    assert (done + more)[..|done|] == done;
    if !(HasKey(category.members, "subcategories") && Truthy(Lookup(category.members, "subcategories").value)) {
      return true, m', more;
    }
    var subcategories := Lookup(category.members, "subcategories").value;
    if !subcategories.JArr? {
      return false, m', more;
    }
    var subsOk, m'', subs := StoreSubcategories(m', subcategories.items, id, done + more);
    if !subsOk {
      return false, m', more;
    }
    assert done + more + subs == done + ([(id, id)] + subs);
    return true, m'', [(id, id)] + subs;
  }

  /** The inner loop: each subcategory's tag stored under the category id. */
  method StoreSubcategories(m: map<Json, Json>, items: seq<Json>, id: Json, ghost done: seq<Assignment>)
    returns (ok: bool, m': map<Json, Json>, ghost subs: seq<Assignment>)
    requires m == MapOf(done)
    ensures ok <==> Gather(items, SubcategoryAssignmentOf(id)).Some?
    ensures ok ==> subs == Gather(items, SubcategoryAssignmentOf(id)).value && m' == MapOf(done + subs)
  {
    m', subs := m, [];
    assert done + subs == done;
    ghost var part := SubcategoryAssignmentOf(id);
    var j := 0;
    while j < |items|
      invariant 0 <= j <= |items|
      invariant Gather(items[..j], part) == Some(subs)
      invariant m' == MapOf(done + subs)
    {
      var stored, m'' := StoreSubcategory(m', items[j], id, done + subs);
      assert part(items[j]) == SubcategoryAssignment(items[j], id);
      if !stored {
        GatherFailsAt(items, part, j);
        return false, m', subs;
      }
      ghost var more := SubcategoryAssignment(items[j], id).value;
      GatherNext(items, part, j, subs, more);
      SeqAssoc(done, subs, more);
      m', subs := m'', subs + more;
      j := j + 1;
    }
    assert items[..j] == items;
    return true, m', subs;
  }

  /** One subcategory's tag stored under the category id. */
  method StoreSubcategory(m: map<Json, Json>, item: Json, id: Json, ghost prior: seq<Assignment>)
    returns (ok: bool, m': map<Json, Json>)
    requires m == MapOf(prior)
    ensures ok <==> SubcategoryAssignment(item, id).Some?
    ensures ok ==> m' == MapOf(prior + SubcategoryAssignment(item, id).value)
  {
    if !(item.JObj? && HasKey(item.members, "tag") && Hashable(Lookup(item.members, "tag").value)) {
      return false, m;
    }
    var tag := Lookup(item.members, "tag").value;
    MapOfSnoc(prior, (tag, id));
    return true, m[tag := id];
  }

  lemma SeqAssoc<T>(a: seq<T>, b: seq<T>, c: seq<T>)
    ensures a + b + c == a + (b + c)
  {
  }

  lemma MapOfSnoc(assignments: seq<Assignment>, a: Assignment)
    ensures MapOf(assignments + [a]) == MapOf(assignments)[a.0 := a.1]
  {
    assert (assignments + [a])[..|assignments|] == assignments;
  }

  /** A key is in the dictionary exactly when some store wrote it. */
  lemma {:induction false} MapOfKeys(assignments: seq<Assignment>, key: Json)
    ensures key in MapOf(assignments) <==> exists i | 0 <= i < |assignments| :: assignments[i].0 == key
    decreases |assignments|
  {
    if assignments != [] {
      var n := |assignments| - 1;
      MapOfKeys(assignments[..n], key);
      assert forall i | 0 <= i < n :: assignments[..n][i] == assignments[i];
    }
  }

  /** Last write wins: a key holds the value of the last store to it. */
  lemma {:induction false} MapOfLastWins(assignments: seq<Assignment>, key: Json)
    requires key in MapOf(assignments)
    ensures exists i | 0 <= i < |assignments| :: assignments[i] == (key, MapOf(assignments)[key])
                                                && forall j | i < j < |assignments| :: assignments[j].0 != key
    decreases |assignments|
  {
    var n := |assignments| - 1;
    var m := MapOf(assignments);
    if assignments[n].0 != key {
      var prefix := assignments[..n];
      assert m == MapOf(prefix)[assignments[n].0 := assignments[n].1];
      MapOfLastWins(prefix, key);
      var i :| 0 <= i < n && prefix[i] == (key, MapOf(prefix)[key]) && forall j | i < j < n :: prefix[j].0 != key;
      assert assignments[i] == prefix[i];
      forall j | i < j < |assignments| ensures assignments[j].0 != key {
        if j < n {
          assert assignments[j] == prefix[j];
        }
      }
    }
  }

  /** One category's stores: its id to itself first, then only stores
      of the id. */
  lemma CategoryAssignmentsExact(category: Json)
    requires CategoryAssignments(category).Some?
    ensures category.JObj? && HasKey(category.members, "id")
    ensures var id, a := Lookup(category.members, "id").value, CategoryAssignments(category).value;
            |a| >= 1 && a[0] == (id, id) && forall k | 1 <= k < |a| :: a[k].1 == id
  {
    var id := Lookup(category.members, "id").value;
    var subs := Lookup(category.members, "subcategories");
    if subs.Some? && Truthy(subs.value) {
      SubcategoryStores(subs.value.items, id);
    }
  }

  /** With a non-empty subcategory list, after the id comes one store per
      subcategory, of its tag, in list order. */
  lemma CategorySubcategoryStores(category: Json, id: Json, items: seq<Json>)
    requires category.JObj? && Lookup(category.members, "id") == Some(id)
    requires Lookup(category.members, "subcategories") == Some(JArr(items)) && items != []
    requires CategoryAssignments(category).Some?
    ensures var a := CategoryAssignments(category).value;
            && |a| == 1 + |items|
            && forall k | 0 <= k < |items| ::
                 items[k].JObj? && HasKey(items[k].members, "tag") && a[k + 1] == (Lookup(items[k].members, "tag").value, id)
  {
    CategoryWithList(category, id, items);
    var g := Gather(items, SubcategoryAssignmentOf(id)).value;
    SubcategoryStores(items, id);
    var a := CategoryAssignments(category).value;
    forall k | 0 <= k < |items| ensures a[k + 1] == g[k] {
    }
  }

  lemma CategoryWithList(category: Json, id: Json, items: seq<Json>)
    requires category.JObj? && Lookup(category.members, "id") == Some(id)
    requires Lookup(category.members, "subcategories") == Some(JArr(items)) && items != []
    requires CategoryAssignments(category).Some?
    ensures Gather(items, SubcategoryAssignmentOf(id)).Some?
    ensures CategoryAssignments(category).value == [(id, id)] + Gather(items, SubcategoryAssignmentOf(id)).value
  {
  }

  /** Without a truthy subcategory list, the id is the only store. */
  lemma CategoryOnlyId(category: Json)
    requires CategoryAssignments(category).Some?
    requires category.JObj?
    requires !(HasKey(category.members, "subcategories") && Truthy(Lookup(category.members, "subcategories").value))
    ensures |CategoryAssignments(category).value| == 1
  {
  }

  lemma {:induction false} SubcategoryStores(items: seq<Json>, id: Json)
    requires Gather(items, SubcategoryAssignmentOf(id)).Some?
    ensures var a := Gather(items, SubcategoryAssignmentOf(id)).value;
            && |a| == |items|
            && forall k | 0 <= k < |items| ::
                 items[k].JObj? && HasKey(items[k].members, "tag") && a[k] == (Lookup(items[k].members, "tag").value, id)
    decreases |items|
  {
    if items != [] {
      var n := |items| - 1;
      SubcategoryStores(items[..n], id);
      assert forall k | 0 <= k < n :: items[..n][k] == items[k];
    }
  }

  lemma StoresCategoryId(category: Json, a: Assignment)
    requires CategoryAssignments(category).Some? && a in CategoryAssignments(category).value
    ensures category.JObj? && HasKey(category.members, "id") && a.1 == Lookup(category.members, "id").value
  {
    CategoryAssignmentsExact(category);
  }

  /** When the configuration loads, every entry of the mapping is a store
      of some category, and its value is that category's id. */
  lemma MappingFromCategories(categories: seq<Json>, key: Json)
    requires Gather(categories, CategoryAssignments).Some?
    ensures var m := CategoryMapping(Some(JArr(categories)));
            key in m ==> exists j | 0 <= j < |categories| ::
                           && CategoryAssignments(categories[j]).Some?
                           && (key, m[key]) in CategoryAssignments(categories[j]).value
                           && categories[j].JObj? && HasKey(categories[j].members, "id")
                           && m[key] == Lookup(categories[j].members, "id").value
  {
    var assignments := Gather(categories, CategoryAssignments).value;
    var m := MapOf(assignments);
    if key in m {
      MapOfLastWins(assignments, key);
      var i :| 0 <= i < |assignments| && assignments[i] == (key, m[key]);
      GatherExact(categories, CategoryAssignments, assignments[i]);
      var j :| 0 <= j < |categories| && assignments[i] in CategoryAssignments(categories[j]).value;
      StoresCategoryId(categories[j], assignments[i]);
    }
  }

  /** When the configuration loads, every store of every category (its id,
      and the tags of a truthy subcategory list) is a key of the mapping. */
  lemma MappingCoversCategories(categories: seq<Json>, j: nat, a: Assignment)
    requires Gather(categories, CategoryAssignments).Some?
    requires j < |categories| && CategoryAssignments(categories[j]).Some? && a in CategoryAssignments(categories[j]).value
    ensures a.0 in CategoryMapping(Some(JArr(categories)))
  {
    var assignments := Gather(categories, CategoryAssignments).value;
    assert CategoryMapping(Some(JArr(categories))) == MapOf(assignments);
    GatherExact(categories, CategoryAssignments, a);
    assert a in assignments;
    var i :| 0 <= i < |assignments| && assignments[i] == a;
    MapOfKeys(assignments, a.0);
  }

  // ---------------------------------------------------------------------
  // The row loop of main
  // ---------------------------------------------------------------------

  /** A cell as `get_all_records` hands it over: text, or an integer when
      the cell reads as one. */
  datatype Value = Text(s: string) | Number(n: int)

  predicate TruthyValue(v: Value) {
    match v
    case Text(s) => s != ""
    case Number(n) => n != 0
  }

  /** One record: column header to cell. */
  type Row = map<string, Value>

  /** `row.get(key, default)` */
  function Get(row: Row, key: string, default: Value): Value {
    if key in row then row[key] else default
  }

  /** One gallery item; `mainCategory` and `order` are `None` where the
      item has `None` or no 'order' key. */
  datatype Item = Item(title: Value, subtitle: Value, year: Value, client: Value, detail: Value,
                       tags: seq<string>, previewURL: Value, thumbnail: Value, fileId: Value,
                       mainCategory: Option<Json>, order: Option<int>)

  /** Both required fields are present and truthy. */
  predicate Required(row: Row) {
    "Title" in row && TruthyValue(row["Title"]) && "PreviewURL" in row && TruthyValue(row["PreviewURL"])
  }

  /** `process_tags(row.get('Tags', ''))`: a falsy cell gives no tags;
      a non-zero number has no `split` and raises (`None`). */
  function TagsOf(row: Row): Option<seq<string>> {
    match Get(row, "Tags", Text(""))
    case Text(s) => Some(ProcessTags(s))
    case Number(n) => if n == 0 then Some([]) else None
  }

  /** The category of the first tag, in tag order, that is a key of the
      mapping. */
  function FirstMapped(tags: seq<string>, mapping: map<Json, Json>): Option<Json> {
    if tags == [] then None
    else if JStr(tags[0]) in mapping then Some(mapping[JStr(tags[0])])
    else FirstMapped(tags[1..], mapping)
  }

  /** The search loop with its `break`. */
  method FindMainCategory(tags: seq<string>, mapping: map<Json, Json>) returns (mainCategory: Option<Json>)
    ensures mainCategory == FirstMapped(tags, mapping)
  {
    mainCategory := None;
    var i := 0;
    while i < |tags|
      invariant 0 <= i <= |tags|
      invariant FirstMapped(tags, mapping) == FirstMapped(tags[i..], mapping)
    {
      assert tags[i..][1..] == tags[i + 1..];
      if JStr(tags[i]) in mapping {
        mainCategory := Some(mapping[JStr(tags[i])]);
        break;
      }
      i := i + 1;
    }
  }

  /** The first mapped tag: there is a category exactly when some tag is a
      key, and it is the mapping of the first such tag. */
  lemma {:induction false} FirstMappedIsFirst(tags: seq<string>, mapping: map<Json, Json>)
    ensures FirstMapped(tags, mapping).Some? <==> exists i | 0 <= i < |tags| :: JStr(tags[i]) in mapping
    ensures FirstMapped(tags, mapping).Some? ==>
              exists i | 0 <= i < |tags| :: JStr(tags[i]) in mapping && FirstMapped(tags, mapping).value == mapping[JStr(tags[i])]
                                          && forall j | 0 <= j < i :: JStr(tags[j]) !in mapping
    decreases |tags|
  {
    if tags != [] && JStr(tags[0]) !in mapping {
      FirstMappedIsFirst(tags[1..], mapping);
      assert forall i | 1 <= i < |tags| :: tags[1..][i - 1] == tags[i];
      if FirstMapped(tags, mapping).Some? {
        var i :| 0 <= i < |tags[1..]| && JStr(tags[1..][i]) in mapping
                 && FirstMapped(tags, mapping).value == mapping[JStr(tags[1..][i])]
                 && forall j | 0 <= j < i :: JStr(tags[1..][j]) !in mapping;
        assert tags[i + 1] == tags[1..][i];
        forall j | 0 <= j < i + 1 ensures JStr(tags[j]) !in mapping {
          if j > 0 {
            assert tags[j] == tags[1..][j - 1];
          }
        }
      }
    }
  }

  /** `int(s)` for a string: surrounding whitespace, an optional sign, then
      one or more decimal digits; anything else raises `ValueError`
      (`None`). */
  function ParseInt(s: string): (r: Option<int>)
    ensures r.Some? ==> Strip(s) != [] && (r.value < 0 ==> Strip(s)[0] == '-')
    ensures r.Some? ==> forall i | 1 <= i < |Strip(s)| :: IsDigit(Strip(s)[i])
  {
    var t := Strip(s);
    var signed := |t| >= 1 && (t[0] == '-' || t[0] == '+');
    var digits := if signed then t[1..] else t;
    if digits != [] && AllDigits(digits) then
      var v: int := DigitsValue(digits);
      Some(if signed && t[0] == '-' then -v else v)
    else None
  }

  /** `str(n)` */
  function IntToString(n: int): string {
    if n < 0 then "-" + NatToString(-n) else NatToString(n)
  }

  /** `int(str(n)) == n`, also with surrounding whitespace. */
  lemma ParseIntRoundTrip(n: int)
    ensures ParseInt(IntToString(n)) == Some(n)
    ensures ParseInt(" " + IntToString(n)) == Some(n)
  {
    var m := if n < 0 then -n else n;
    NatToStringRoundTrip(m);
    var d := NatToString(m);
    var s := IntToString(n);
    assert !IsSpace(s[0]) && !IsSpace(s[|s| - 1]);
    StripStripped(s);
    StripSpacePrefix(s);
    if n < 0 {
      assert s[1..] == d;
    }
  }

  /** `int(row['Order'])`: an integer cell is itself; a text cell is parsed. */
  function IntOf(v: Value): Option<int> {
    match v
    case Number(n) => Some(n)
    case Text(s) => ParseInt(s)
  }

  /** The item's 'order': set only for a truthy 'Order' cell that `int`
      accepts. */
  function OrderOf(row: Row): Option<int> {
    if "Order" in row && TruthyValue(row["Order"]) then IntOf(row["Order"]) else None
  }

  /** The item built from a row with its tags. */
  function ItemOf(row: Row, tags: seq<string>, mapping: map<Json, Json>): Item {
    var thumbnail := Get(row, "Thumbnail", Text(""));
    Item(Get(row, "Title", Text("")), Get(row, "Subtitle", Text("")), Get(row, "Year", Text("")),
         Get(row, "Client", Text("")), Get(row, "Detail", Text("")), tags, Get(row, "PreviewURL", Text("")),
         if TruthyValue(thumbnail) then thumbnail else Get(row, "PreviewURL", Text("")),
         Get(row, "File ID", Text("")), FirstMapped(tags, mapping), OrderOf(row))
  }

  /** What one row adds to `gallery_data`: nothing when a required field
      is falsy, one item otherwise, and `None` when `process_tags` raises. */
  function RowItems(row: Row, mapping: map<Json, Json>): Option<seq<Item>> {
    if !Required(row) then Some([])
    else
      match TagsOf(row)
      case None => None
      case Some(tags) => Some([ItemOf(row, tags, mapping)])
  }

  function RowItemsOf(mapping: map<Json, Json>): Row -> Option<seq<Item>> {
    row => RowItems(row, mapping)
  }

  /** `gallery_data` after the loop, or `None` when a row raised (the
      `try` of `main` then reports the error and writes no file). */
  function Export(rows: seq<Row>, mapping: map<Json, Json>): Option<seq<Item>> {
    Gather(rows, RowItemsOf(mapping))
  }

  /** The loop of `main` over `get_all_records()`. */
  method ExportRows(rows: seq<Row>, mapping: map<Json, Json>) returns (galleryData: Option<seq<Item>>)
    ensures galleryData == Export(rows, mapping)
  {
    var items: seq<Item> := [];
    var i := 0;
    while i < |rows|
      invariant 0 <= i <= |rows|
      invariant Gather(rows[..i], RowItemsOf(mapping)) == Some(items)
    {
      assert rows[..i + 1][..i] == rows[..i];
      var row := rows[i];
      var outcome := ConvertRow(row, mapping);
      if outcome.None? {
        GatherNoneSticks(rows, RowItemsOf(mapping), i + 1);
        return None;
      }
      items := items + outcome.value;
      i := i + 1;
    }
    assert rows[..i] == rows;
    return Some(items);
  }

  /** The body of the row loop. */
  method ConvertRow(row: Row, mapping: map<Json, Json>) returns (r: Option<seq<Item>>)
    ensures r == RowItems(row, mapping)
  {
    if !("Title" in row && TruthyValue(row["Title"])) || !("PreviewURL" in row && TruthyValue(row["PreviewURL"])) {
      return Some([]);
    }
    var tagsCell := Get(row, "Tags", Text(""));
    var tags: seq<string>;
    if tagsCell.Text? {
      tags := ProcessTags(tagsCell.s);
    } else if tagsCell.n == 0 {
      tags := [];
    } else {
      return None;
    }
    var mainCategory := FindMainCategory(tags, mapping);
    var thumbnail := Get(row, "Thumbnail", Text(""));
    var item := Item(Get(row, "Title", Text("")), Get(row, "Subtitle", Text("")), Get(row, "Year", Text("")),
                     Get(row, "Client", Text("")), Get(row, "Detail", Text("")), tags, Get(row, "PreviewURL", Text("")),
                     if TruthyValue(thumbnail) then thumbnail else Get(row, "PreviewURL", Text("")),
                     Get(row, "File ID", Text("")), mainCategory, None);
    if "Order" in row && TruthyValue(row["Order"]) {
      var order := IntOf(row["Order"]);
      if order.Some? {
        item := item.(order := order);
      }
    }
    return Some([item]);
  }

  /** The export fails exactly when some row with both required fields
      has a non-zero number in its 'Tags' cell. */
  lemma ExportFails(rows: seq<Row>, mapping: map<Json, Json>)
    ensures Export(rows, mapping).None? <==>
            exists i | 0 <= i < |rows| :: Required(rows[i]) && TagsOf(rows[i]).None?
  {
    GatherExact(rows, RowItemsOf(mapping), Item(Text(""), Text(""), Text(""), Text(""), Text(""), [], Text(""), Text(""), Text(""), None, None));
  }

  /** Rows keep their order: the items of two runs of rows are those of the
      first run followed by those of the second. */
  lemma ExportInOrder(a: seq<Row>, b: seq<Row>, mapping: map<Json, Json>)
    ensures Export(a + b, mapping) ==
            match (Export(a, mapping), Export(b, mapping))
            case (Some(x), Some(y)) => Some(x + y)
            case _ => None
  {
    GatherAppend(a, b, RowItemsOf(mapping));
  }

  /** Every exported item comes from a row with both required fields, has
      a truthy title, preview URL and thumbnail, falls back to the preview
      URL for its thumbnail, takes its category from its first mapped tag,
      and has an order exactly when the 'Order' cell is truthy and parses. */
  lemma ExportedItems(rows: seq<Row>, mapping: map<Json, Json>, item: Item)
    requires Export(rows, mapping).Some? && item in Export(rows, mapping).value
    ensures exists i | 0 <= i < |rows| :: Required(rows[i]) && TagsOf(rows[i]) == Some(item.tags)
                                       && item.title == rows[i]["Title"] && item.previewURL == rows[i]["PreviewURL"]
                                       && item.thumbnail == (if TruthyValue(Get(rows[i], "Thumbnail", Text("")))
                                                             then rows[i]["Thumbnail"] else rows[i]["PreviewURL"])
                                       && item.order == OrderOf(rows[i])
                                       && item.subtitle == Get(rows[i], "Subtitle", Text("")) && item.year == Get(rows[i], "Year", Text(""))
                                       && item.client == Get(rows[i], "Client", Text("")) && item.detail == Get(rows[i], "Detail", Text(""))
                                       && item.fileId == Get(rows[i], "File ID", Text(""))
    ensures TruthyValue(item.title) && TruthyValue(item.previewURL) && TruthyValue(item.thumbnail)
    ensures item.mainCategory == FirstMapped(item.tags, mapping)
  {
    GatherExact(rows, RowItemsOf(mapping), item);
    var i :| 0 <= i < |rows| && item in RowItemsOf(mapping)(rows[i]).value;
  }
}
