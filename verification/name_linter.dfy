/**
 * check_image_names.py: the positional validator `analyze_filename`, the
 * valid-tag list read from the category configuration, the scan that
 * reports the image files whose names break the rules, and the
 * normalisation of the `--extensions` argument.
 */
module NameLinter {
  import opened Wrappers
  import opened Text
  import opened JsonValue
  import opened FilenameParser
  import opened Gathering

  // ---------------------------------------------------------------------
  // load_tag_categories
  // ---------------------------------------------------------------------

  /** The tags one element of the category list contributes, or `None`
      where Python raises (and `load_tag_categories` returns `[]`):
      `'subcategories' in category` is a key test on an object, a member
      test on a list and a substring test on a string, and indexing
      anything but an object with a string raises. */
  function CategoryTags(category: Json): Option<seq<Json>> {
    match category
    case JObj(members) =>
      if HasKey(members, "subcategories") then SubcategoryTags(Lookup(members, "subcategories").value)
      else Some([])
    case JArr(items) => if JStr("subcategories") in items then None else Some([])
    case JStr(s) => if Contains(s, "subcategories") then None else Some([])
    case _ => None
  }

  /** `for subcategory in category['subcategories']: valid_tags.append(subcategory['tag'])`:
      iterating an object or a string yields strings, which cannot be
      indexed by 'tag'; a number, a Boolean or `null` cannot be iterated. */
  function SubcategoryTags(subcategories: Json): Option<seq<Json>> {
    match subcategories
    case JArr(items) => TagOfEach(items)
    case JObj(members) => if members == [] then Some([]) else None
    case JStr(s) => if s == "" then Some([]) else None
    case _ => None
  }

  /** `subcategory['tag']`, for one element of the subcategory list. */
  function TagOf(item: Json): Option<seq<Json>> {
    if item.JObj? && HasKey(item.members, "tag") then Some([Lookup(item.members, "tag").value]) else None
  }

  function TagOfEach(items: seq<Json>): Option<seq<Json>> {
    Gather(items, TagOf)
  }

  /** The tags of a list of categories, in file order; `None` once an
      element raises. */
  function AllTags(categories: seq<Json>): Option<seq<Json>> {
    Gather(categories, CategoryTags)
  }

  /** What `load_tag_categories` returns for the parsed file (`None` when
      the file cannot be opened or parsed). A document that is not a list
      gives `[]`: iterating an object or a string never reaches a tag. */
  function ValidTagsOf(parsed: Option<Json>): seq<Json> {
    match parsed
    case Some(JArr(categories)) => AllTags(categories).GetOr([])
    case _ => []
  }

  /** `load_tag_categories(config_path)`: the nested loops. */
  method LoadTagCategories(parsed: Option<Json>) returns (validTags: seq<Json>)
    ensures validTags == ValidTagsOf(parsed)
  {
    if !(parsed.Some? && parsed.value.JArr?) {
      return [];
    }
    var categories := parsed.value.items;
    validTags := [];
    var i := 0;
    while i < |categories|
      invariant 0 <= i <= |categories|
      invariant AllTags(categories[..i]) == Some(validTags)
    {
      assert categories[..i + 1][..i] == categories[..i];
      var more := TagsOfCategory(categories[i]);
      if more.None? {
        GatherNoneSticks(categories, CategoryTags, i + 1);
        return [];
      }
      validTags := validTags + more.value;
      i := i + 1;
    }
    assert categories[..i] == categories;
  }

  /** The body of the outer loop, with its inner loop over the subcategories. */
  method TagsOfCategory(category: Json) returns (r: Option<seq<Json>>)
    ensures r == CategoryTags(category)
  {
    match category {
      case JObj(members) =>
        if !HasKey(members, "subcategories") {
          return Some([]);
        }
        var subcategories := Lookup(members, "subcategories").value;
        if !subcategories.JArr? {
          return SubcategoryTags(subcategories);
        }
        r := TagsOfSubcategories(subcategories.items);
      case _ =>
        return CategoryTags(category);
    }
  }

  /** The inner loop: the 'tag' of each subcategory, in order. */
  method TagsOfSubcategories(items: seq<Json>) returns (r: Option<seq<Json>>)
    ensures r == TagOfEach(items)
  {
    var tags: seq<Json> := [];
    var j := 0;
    while j < |items|
      invariant 0 <= j <= |items|
      invariant TagOfEach(items[..j]) == Some(tags)
    {
      assert items[..j + 1][..j] == items[..j];
      if !(items[j].JObj? && HasKey(items[j].members, "tag")) {
        GatherNoneSticks(items, TagOf, j + 1);
        return None;
      }
      tags := tags + [Lookup(items[j].members, "tag").value];
      j := j + 1;
    }
    assert items[..j] == items;
    return Some(tags);
  }

  /** The tags come in file order: those of a list of categories followed
      by another are the tags of the first list, then those of the second;
      an error anywhere empties the result. */
  lemma AllTagsInFileOrder(a: seq<Json>, b: seq<Json>)
    ensures AllTags(a + b) ==
            match (AllTags(a), AllTags(b))
            case (Some(x), Some(y)) => Some(x + y)
            case _ => None
  {
    GatherAppend(a, b, CategoryTags);
  }

  /** A subcategory list yields the 'tag' value of each element in order,
      and fails exactly when some element is not an object with a 'tag'. */
  lemma {:induction false} TagOfEachExact(items: seq<Json>)
    ensures TagOfEach(items).Some? <==> forall i | 0 <= i < |items| :: items[i].JObj? && HasKey(items[i].members, "tag")
    ensures TagOfEach(items).Some? ==>
              var tags := TagOfEach(items).value;
              |tags| == |items| && forall i | 0 <= i < |items| :: tags[i] == Lookup(items[i].members, "tag").value
    decreases |items|
  {
    if items != [] {
      var n := |items| - 1;
      TagOfEachExact(items[..n]);
      assert forall i | 0 <= i < n :: items[..n][i] == items[i];
    }
  }

  /** A category object without a "subcategories" key is skipped. */
  lemma SkipsCategoryWithoutSubcategories(categories: seq<Json>, members: seq<(string, Json)>)
    requires !HasKey(members, "subcategories")
    ensures AllTags(categories + [JObj(members)]) == AllTags(categories)
  {
    assert (categories + [JObj(members)])[..|categories|] == categories;
    assert CategoryTags(JObj(members)) == Some([]);
    if AllTags(categories).Some? {
      assert AllTags(categories).value + [] == AllTags(categories).value;
    }
  }

  // ---------------------------------------------------------------------
  // analyze_filename
  // ---------------------------------------------------------------------

  datatype LintError =
    | TooFewParts(count: nat)      // fewer than four '_' parts
    | BadYear(year: string)
    | BadClient(client: string)
    | BadTitle(title: string)
    | BadNumber(number: string)
    | BadTag(tagPart: string)      // a 't-' part that is not `t-[A-Za-z0-9-]+`
    | UnknownTag(tag: string)      // a sub-tag not in the valid tags
    | BadSubtitle(subtitle: string)
    | TagAsSubtitle(subtitle: string)
    | MissingTag

  /** The result dictionary: `errors` and the `parsed` fields. */
  datatype Analysis = Analysis(
    filename: string,
    parts: seq<string>,
    errors: seq<LintError>,
    year: Option<string>,
    client: Option<string>,
    title: Option<string>,
    subtitles: seq<string>,
    tags: seq<string>,
    tagPart: Option<string>,
    number: Option<string>)

  /** `tag in valid_tags`: a string equals only a JSON string. */
  predicate IsValidTag(tag: string, validTags: seq<Json>) {
    JStr(tag) in validTags
  }

  predicate TagPrefixed(p: string) { StartsWith(p, "t-") }

  /** The non-empty pieces of `p[2:].split('-')`. */
  function SubTags(p: string): seq<string>
    requires TagPrefixed(p)
  {
    NonEmpty(Split(p[2..], '-'))
  }

  /** One error per sub-tag outside the valid tags, in order. */
  function UnknownTags(tags: seq<string>, validTags: seq<Json>): (r: seq<LintError>)
    ensures forall e | e in r :: e.UnknownTag?
    decreases |tags|
  {
    if tags == [] then []
    else
      var n := |tags| - 1;
      UnknownTags(tags[..n], validTags) + (if IsValidTag(tags[n], validTags) then [] else [UnknownTag(tags[n])])
  }

  /** What the loop over the middle parts collects: the errors, the
      subtitles, the sub-tags, and the last 't-' part (`has_tag_part` is
      `tagPart.Some?`). One part contributes such a record too. */
  datatype Middle = Middle(errors: seq<LintError>, subtitles: seq<string>, tags: seq<string>, tagPart: Option<string>)

  const NoParts := Middle([], [], [], None)

  /** What is collected over one stretch of parts, then over the next:
      the lists are appended and a later tag part replaces an earlier one. */
  function Combine(ma: Middle, mb: Middle): Middle {
    Middle(ma.errors + mb.errors, ma.subtitles + mb.subtitles, ma.tags + mb.tags,
           if mb.tagPart.Some? then mb.tagPart else ma.tagPart)
  }

  /** One middle part: a 't-' part is checked and its sub-tags collected;
      any other part is a subtitle, checked against the pattern and
      against the valid tags. */
  function PartEffect(p: string, validTags: seq<Json>): Middle {
    if TagPrefixed(p) then
      var subTags := SubTags(p);
      Middle((if TagToken(p) then [] else [BadTag(p)]) + UnknownTags(subTags, validTags), [], subTags, Some(p))
    else
      Middle((if IdentToken(p) then [] else [BadSubtitle(p)]) + (if IsValidTag(p, validTags) then [TagAsSubtitle(p)] else []),
             [p], [], None)
  }

  function EffectOf(validTags: seq<Json>): string -> Middle {
    p => PartEffect(p, validTags)
  }

  /** The loop over the parts `ps`, each contributing `effect` of itself. */
  function Collect(ps: seq<string>, effect: string -> Middle): Middle
    decreases |ps|
  {
    if ps == [] then NoParts
    else
      var n := |ps| - 1;
      Combine(Collect(ps[..n], effect), effect(ps[n]))
  }

  function MiddleOf(ps: seq<string>, validTags: seq<Json>): Middle {
    Collect(ps, EffectOf(validTags))
  }

  /** The checks on year, client, title and number, in that order. */
  function PositionalErrors(parts: seq<string>): seq<LintError>
    requires |parts| >= 4
  {
    (if YearToken(parts[0]) then [] else [BadYear(parts[0])])
    + (if IdentToken(parts[1]) then [] else [BadClient(parts[1])])
    + (if IdentToken(parts[2]) then [] else [BadTitle(parts[2])])
    + (if NumberToken(parts[|parts| - 1]) then [] else [BadNumber(parts[|parts| - 1])])
  }

  function PartsOf(filename: string): seq<string> {
    Split(SplitExt(filename).0, '_')
  }

  /** `analyze_filename(filename, valid_tags)`. */
  function Analyze(filename: string, validTags: seq<Json>): (a: Analysis)
    ensures a.parts == PartsOf(filename)
    ensures |a.parts| < 4 ==> a.errors == [TooFewParts(|a.parts|)] && a.number == None
  {
    AnalyzeParts(filename, PartsOf(filename), validTags)
  }

  /** The analysis once the name has been split into `parts`. */
  function AnalyzeParts(filename: string, parts: seq<string>, validTags: seq<Json>): Analysis
    requires parts != []
  {
    var base := Analysis(filename, parts, [], Some(parts[0]),
                         if |parts| > 1 then Some(parts[1]) else None,
                         if |parts| > 2 then Some(parts[2]) else None,
                         [], [], None,
                         if |parts| > 3 then Some(parts[|parts| - 1]) else None);
    if |parts| < 4 then base.(errors := [TooFewParts(|parts|)])
    else
      var m := MiddleOf(parts[3..|parts| - 1], validTags);
      base.(errors := PositionalErrors(parts) + m.errors + (if m.tagPart.None? && |parts| > 4 then [MissingTag] else []),
            subtitles := m.subtitles, tags := m.tags, tagPart := m.tagPart)
  }

  /** `analyze_filename`, as the loop over `parts[3:-1]` runs. */
  method AnalyzeFilename(filename: string, validTags: seq<Json>) returns (a: Analysis)
    ensures a == Analyze(filename, validTags)
  {
    var parts := Split(SplitExt(filename).0, '_');
    a := Analysis(filename, parts, [], Some(parts[0]),
                  if |parts| > 1 then Some(parts[1]) else None,
                  if |parts| > 2 then Some(parts[2]) else None,
                  [], [], None,
                  if |parts| > 3 then Some(parts[|parts| - 1]) else None);
    if |parts| < 4 {
      a := a.(errors := [TooFewParts(|parts|)]);
      return;
    }
    var m := CheckMiddle(parts[3..|parts| - 1], validTags);
    var missing := if m.tagPart.None? && |parts| > 4 then [MissingTag] else [];
    a := a.(errors := PositionalErrors(parts) + m.errors + missing,
            subtitles := m.subtitles, tags := m.tags, tagPart := m.tagPart);
  }

  /** The loop over the middle parts. */
  method CheckMiddle(middle: seq<string>, validTags: seq<Json>) returns (m: Middle)
    ensures m == MiddleOf(middle, validTags)
  {
    m := NoParts;
    var i := 0;
    while i < |middle|
      invariant 0 <= i <= |middle|
      invariant m == Collect(middle[..i], EffectOf(validTags))
    {
      assert middle[..i + 1][..i] == middle[..i];
      m := CheckPart(m, middle[i], validTags);
      i := i + 1;
    }
    assert middle[..i] == middle;
  }

  /** The inner loop over the pieces of a 't-' part: the empty pieces
      are skipped, and each other piece outside the valid tags is an
      unknown tag. */
  method CheckSubTags(pieces: seq<string>, validTags: seq<Json>) returns (tags: seq<string>, unknown: seq<LintError>)
    ensures tags == NonEmpty(pieces) && unknown == UnknownTags(tags, validTags)
  {
    tags, unknown := [], [];
    var j := 0;
    while j < |pieces|
      invariant 0 <= j <= |pieces|
      invariant tags == NonEmpty(pieces[..j]) && unknown == UnknownTags(tags, validTags)
    {
      NonEmptyStep(pieces, j);
      var tag := pieces[j];
      if tag != "" {
        UnknownTagsSnoc(tags, tag, validTags);
        tags := tags + [tag];
        if !IsValidTag(tag, validTags) {
          unknown := unknown + [UnknownTag(tag)];
        }
      }
      j := j + 1;
    }
    assert pieces[..j] == pieces;
  }

  lemma NonEmptyStep(xs: seq<string>, j: nat)
    requires j < |xs|
    ensures NonEmpty(xs[..j + 1]) == NonEmpty(xs[..j]) + (if xs[j] != "" then [xs[j]] else [])
  {
    assert xs[..j + 1][..j] == xs[..j];
  }

  lemma UnknownTagsSnoc(tags: seq<string>, tag: string, validTags: seq<Json>)
    ensures UnknownTags(tags + [tag], validTags) == UnknownTags(tags, validTags) + (if IsValidTag(tag, validTags) then [] else [UnknownTag(tag)])
  {
    assert (tags + [tag])[..|tags|] == tags;
  }

  /** The body of the loop over the middle parts. */
  method CheckPart(m: Middle, p: string, validTags: seq<Json>) returns (m': Middle)
    ensures m' == Combine(m, PartEffect(p, validTags))
  {
    if TagPrefixed(p) {
      var tags, unknown := CheckSubTags(Split(p[2..], '-'), validTags);
      var errors := (if TagToken(p) then [] else [BadTag(p)]) + unknown;
      m' := Middle(m.errors + errors, m.subtitles, m.tags + tags, Some(p));
    } else {
      var errors := [];
      if !IdentToken(p) {
        errors := errors + [BadSubtitle(p)];
      }
      if IsValidTag(p, validTags) {
        errors := errors + [TagAsSubtitle(p)];
      }
      m' := Middle(m.errors + errors, m.subtitles + [p], m.tags, m.tagPart);
    }
  }

  // ---------------------------------------------------------------------
  // Properties of analyze_filename
  // ---------------------------------------------------------------------

  /** One error per sub-tag outside the valid tags, and no other. */
  lemma {:induction false} UnknownTagsExact(tags: seq<string>, validTags: seq<Json>, t: string)
    ensures UnknownTag(t) in UnknownTags(tags, validTags) <==> t in tags && !IsValidTag(t, validTags)
    decreases |tags|
  {
    if tags != [] {
      var n := |tags| - 1;
      UnknownTagsExact(tags[..n], validTags, t);
      assert tags == tags[..n] + [tags[n]];
    }
  }

  lemma CombineAssociative(a: Middle, b: Middle, c: Middle)
    ensures Combine(Combine(a, b), c) == Combine(a, Combine(b, c))
  {
    assert a.errors + b.errors + c.errors == a.errors + (b.errors + c.errors);
    assert a.subtitles + b.subtitles + c.subtitles == a.subtitles + (b.subtitles + c.subtitles);
    assert a.tags + b.tags + c.tags == a.tags + (b.tags + c.tags);
  }

  /** The loop over a concatenation of parts: what is collected over the
      second stretch follows what is collected over the first, and the tag
      part of the second, when it has one, wins. */
  lemma {:induction false} CollectAppend(a: seq<string>, b: seq<string>, effect: string -> Middle)
    ensures Collect(a + b, effect) == Combine(Collect(a, effect), Collect(b, effect))
    decreases |b|
  {
    if b == [] {
      assert a + b == a;
      var m := Collect(a, effect);
      assert m.errors + [] == m.errors && m.tags + [] == m.tags && m.subtitles + [] == m.subtitles;
    } else {
      var n := |b| - 1;
      CollectAppend(a, b[..n], effect);
      assert (a + b)[..|a| + n] == a + b[..n];
      assert (a + b)[|a| + n] == b[n];
      CombineAssociative(Collect(a, effect), Collect(b[..n], effect), effect(b[n]));
    }
  }

  /** Everything collected comes from some part, and everything any part
      contributes is collected. */
  lemma {:induction false} CollectMember(ps: seq<string>, effect: string -> Middle, x: string, e: LintError)
    ensures var m := Collect(ps, effect);
            && (x in m.subtitles <==> exists i | 0 <= i < |ps| :: x in effect(ps[i]).subtitles)
            && (x in m.tags <==> exists i | 0 <= i < |ps| :: x in effect(ps[i]).tags)
            && (e in m.errors <==> exists i | 0 <= i < |ps| :: e in effect(ps[i]).errors)
    decreases |ps|
  {
    if ps != [] {
      var n := |ps| - 1;
      CollectMember(ps[..n], effect, x, e);
      assert forall i | 0 <= i < n :: ps[..n][i] == ps[i];
    }
  }

  /** The tag part collected is that of the last part that has one. */
  lemma {:induction false} CollectTagPart(ps: seq<string>, effect: string -> Middle)
    ensures var m := Collect(ps, effect);
            && (m.tagPart.Some? <==> exists i | 0 <= i < |ps| :: effect(ps[i]).tagPart.Some?)
            && (m.tagPart.Some? ==>
                  exists i | 0 <= i < |ps| :: effect(ps[i]).tagPart == m.tagPart
                                            && forall j | i < j < |ps| :: effect(ps[j]).tagPart.None?)
    decreases |ps|
  {
    if ps != [] {
      var n := |ps| - 1;
      CollectTagPart(ps[..n], effect);
      assert forall i | 0 <= i < n :: ps[..n][i] == ps[i];
    }
  }

  /** What one part contributes: a 't-' part is the tag part and gives
      its sub-tags; any other part is a subtitle; only tag and subtitle
      errors arise. */
  lemma PartEffectShape(p: string, validTags: seq<Json>, x: string)
    ensures var e := PartEffect(p, validTags);
            && (e.tagPart.Some? <==> TagPrefixed(p)) && (e.tagPart.Some? ==> e.tagPart.value == p)
            && (x in e.subtitles <==> x == p && !TagPrefixed(p))
            && (x in e.tags <==> TagPrefixed(p) && x in SubTags(p))
            && (forall err | err in e.errors :: err.BadTag? || err.UnknownTag? || err.BadSubtitle? || err.TagAsSubtitle?)
  {
  }

  /** The errors one part raises. */
  lemma PartEffectErrors(p: string, validTags: seq<Json>, x: string)
    ensures var e := PartEffect(p, validTags);
            && (BadTag(x) in e.errors <==> x == p && TagPrefixed(p) && !TagToken(p))
            && (UnknownTag(x) in e.errors <==> TagPrefixed(p) && x in SubTags(p) && !IsValidTag(x, validTags))
            && (BadSubtitle(x) in e.errors <==> x == p && !TagPrefixed(p) && !IdentToken(p))
            && (TagAsSubtitle(x) in e.errors <==> x == p && !TagPrefixed(p) && IsValidTag(x, validTags))
  {
    if TagPrefixed(p) {
      UnknownTagsExact(SubTags(p), validTags, x);
    }
  }

  /** The middle parts raise only tag and subtitle errors. */
  lemma MiddleErrorKinds(ps: seq<string>, validTags: seq<Json>, e: LintError)
    requires e in MiddleOf(ps, validTags).errors
    ensures e.BadTag? || e.UnknownTag? || e.BadSubtitle? || e.TagAsSubtitle?
  {
    CollectMember(ps, EffectOf(validTags), "", e);
    var i :| 0 <= i < |ps| && e in EffectOf(validTags)(ps[i]).errors;
    PartEffectShape(ps[i], validTags, "");
  }

  /** `tag_part` is the last middle part starting with 't-', and there is
      one exactly when some middle part starts with 't-'. */
  lemma TagPartIsLast(ps: seq<string>, validTags: seq<Json>)
    ensures var m := MiddleOf(ps, validTags);
            && (m.tagPart.Some? <==> exists i | 0 <= i < |ps| :: TagPrefixed(ps[i]))
            && (m.tagPart.Some? ==>
                  exists i | 0 <= i < |ps| :: ps[i] == m.tagPart.value && TagPrefixed(ps[i])
                                            && forall j | i < j < |ps| :: !TagPrefixed(ps[j]))
  {
    var effect := EffectOf(validTags);
    CollectTagPart(ps, effect);
    forall i | 0 <= i < |ps| ensures effect(ps[i]).tagPart.Some? <==> TagPrefixed(ps[i]) {
      PartEffectShape(ps[i], validTags, "");
    }
    var m := MiddleOf(ps, validTags);
    if m.tagPart.Some? {
      var i :| 0 <= i < |ps| && effect(ps[i]).tagPart == m.tagPart && forall j | i < j < |ps| :: effect(ps[j]).tagPart.None?;
      PartEffectShape(ps[i], validTags, "");
    }
  }

  /** Every part not starting with 't-' is a subtitle, and nothing else
      is; the tags are the sub-tags of the 't-' parts. */
  lemma MiddleCollects(ps: seq<string>, validTags: seq<Json>, x: string)
    ensures var m := MiddleOf(ps, validTags);
            && (x in m.subtitles <==> x in ps && !TagPrefixed(x))
            && (x in m.tags <==> exists i | 0 <= i < |ps| :: TagPrefixed(ps[i]) && x in SubTags(ps[i]))
  {
    var effect := EffectOf(validTags);
    CollectMember(ps, effect, x, MissingTag);
    forall i | 0 <= i < |ps|
      ensures (x in effect(ps[i]).subtitles <==> x == ps[i] && !TagPrefixed(ps[i]))
      ensures (x in effect(ps[i]).tags <==> TagPrefixed(ps[i]) && x in SubTags(ps[i]))
    {
      PartEffectShape(ps[i], validTags, x);
    }
  }

  /** Which errors the middle parts raise: a malformed 't-' part, each
      sub-tag outside the valid tags (the sub-tags of a malformed part
      are still checked), each subtitle off the pattern, and each subtitle
      that is itself a valid tag. */
  lemma MiddleErrors(ps: seq<string>, validTags: seq<Json>, x: string)
    ensures var m := MiddleOf(ps, validTags);
            && (BadTag(x) in m.errors <==> x in ps && TagPrefixed(x) && !TagToken(x))
            && (UnknownTag(x) in m.errors <==> x in m.tags && !IsValidTag(x, validTags))
            && (BadSubtitle(x) in m.errors <==> x in m.subtitles && !IdentToken(x))
            && (TagAsSubtitle(x) in m.errors <==> x in m.subtitles && IsValidTag(x, validTags))
  {
    var effect := EffectOf(validTags);
    MiddleCollects(ps, validTags, x);
    CollectMember(ps, effect, x, BadTag(x));
    CollectMember(ps, effect, x, UnknownTag(x));
    CollectMember(ps, effect, x, BadSubtitle(x));
    CollectMember(ps, effect, x, TagAsSubtitle(x));
    forall i | 0 <= i < |ps|
      ensures (BadTag(x) in effect(ps[i]).errors <==> x == ps[i] && TagPrefixed(ps[i]) && !TagToken(ps[i]))
      ensures (UnknownTag(x) in effect(ps[i]).errors <==> TagPrefixed(ps[i]) && x in SubTags(ps[i]) && !IsValidTag(x, validTags))
      ensures (BadSubtitle(x) in effect(ps[i]).errors <==> x == ps[i] && !TagPrefixed(ps[i]) && !IdentToken(ps[i]))
      ensures (TagAsSubtitle(x) in effect(ps[i]).errors <==> x == ps[i] && !TagPrefixed(ps[i]) && IsValidTag(x, validTags))
    {
      PartEffectErrors(ps[i], validTags, x);
    }
  }

  /** Each positional check adds its error once, when it fails. */
  lemma PositionalCounts(ps: seq<string>)
    requires |ps| >= 4
    ensures var ms := multiset(PositionalErrors(ps));
            && ms[BadYear(ps[0])] == (if YearToken(ps[0]) then 0 else 1)
            && ms[BadClient(ps[1])] == (if IdentToken(ps[1]) then 0 else 1)
            && ms[BadTitle(ps[2])] == (if IdentToken(ps[2]) then 0 else 1)
            && ms[BadNumber(ps[|ps| - 1])] == (if NumberToken(ps[|ps| - 1]) then 0 else 1)
  {
    var y := if YearToken(ps[0]) then [] else [BadYear(ps[0])];
    var c := if IdentToken(ps[1]) then [] else [BadClient(ps[1])];
    var t := if IdentToken(ps[2]) then [] else [BadTitle(ps[2])];
    var n := if NumberToken(ps[|ps| - 1]) then [] else [BadNumber(ps[|ps| - 1])];
    assert multiset(PositionalErrors(ps)) == multiset(y) + multiset(c) + multiset(t) + multiset(n);
  }

  lemma CountInFront(xs: seq<LintError>, ys: seq<LintError>, zs: seq<LintError>, e: LintError)
    requires e !in ys && e !in zs
    ensures multiset(xs + ys + zs)[e] == multiset(xs)[e]
  {
    assert multiset(xs + ys + zs) == multiset(xs) + multiset(ys) + multiset(zs);
  }

  lemma PartsChecks(filename: string, ps: seq<string>, validTags: seq<Json>)
    requires |ps| >= 4
    ensures var a := AnalyzeParts(filename, ps, validTags);
            && a.year == Some(ps[0]) && a.client == Some(ps[1]) && a.title == Some(ps[2])
            && a.number == Some(ps[|ps| - 1])
            && multiset(a.errors)[BadYear(ps[0])] == (if YearToken(ps[0]) then 0 else 1)
            && multiset(a.errors)[BadClient(ps[1])] == (if IdentToken(ps[1]) then 0 else 1)
            && multiset(a.errors)[BadTitle(ps[2])] == (if IdentToken(ps[2]) then 0 else 1)
            && multiset(a.errors)[BadNumber(ps[|ps| - 1])] == (if NumberToken(ps[|ps| - 1]) then 0 else 1)
  {
    PartsFields(filename, ps, validTags);
    PositionalCounts(ps);
    FrontCount(filename, ps, validTags, BadYear(ps[0]));
    FrontCount(filename, ps, validTags, BadClient(ps[1]));
    FrontCount(filename, ps, validTags, BadTitle(ps[2]));
    FrontCount(filename, ps, validTags, BadNumber(ps[|ps| - 1]));
  }

  lemma PartsFields(filename: string, ps: seq<string>, validTags: seq<Json>)
    requires |ps| >= 4
    ensures var a, m := AnalyzeParts(filename, ps, validTags), MiddleOf(ps[3..|ps| - 1], validTags);
            && a.year == Some(ps[0]) && a.client == Some(ps[1]) && a.title == Some(ps[2])
            && a.number == Some(ps[|ps| - 1])
            && a.errors == PositionalErrors(ps) + m.errors + (if m.tagPart.None? && |ps| > 4 then [MissingTag] else [])
  {
  }

  /** A positional error is counted only among the positional checks. */
  lemma FrontCount(filename: string, ps: seq<string>, validTags: seq<Json>, e: LintError)
    requires |ps| >= 4 && e != MissingTag
    requires !(e.BadTag? || e.UnknownTag? || e.BadSubtitle? || e.TagAsSubtitle?)
    ensures multiset(AnalyzeParts(filename, ps, validTags).errors)[e] == multiset(PositionalErrors(ps))[e]
  {
    var m := MiddleOf(ps[3..|ps| - 1], validTags);
    var missing := if m.tagPart.None? && |ps| > 4 then [MissingTag] else [];
    PartsFields(filename, ps, validTags);
    NotFromMiddle(ps[3..|ps| - 1], validTags, e);
    CountInFront(PositionalErrors(ps), m.errors, missing, e);
  }

  lemma NotFromMiddle(mid: seq<string>, validTags: seq<Json>, e: LintError)
    requires !(e.BadTag? || e.UnknownTag? || e.BadSubtitle? || e.TagAsSubtitle?)
    ensures e !in MiddleOf(mid, validTags).errors
  {
    if e in MiddleOf(mid, validTags).errors {
      MiddleErrorKinds(mid, validTags, e);
    }
  }

  /** With at least four parts, year, client, title and number are read
      from their positions, and each that fails its pattern adds exactly
      one error. */
  lemma PositionalChecks(filename: string, validTags: seq<Json>)
    requires |PartsOf(filename)| >= 4
    ensures var a, ps := Analyze(filename, validTags), PartsOf(filename);
            && a.year == Some(ps[0]) && a.client == Some(ps[1]) && a.title == Some(ps[2])
            && a.number == Some(ps[|ps| - 1])
            && multiset(a.errors)[BadYear(ps[0])] == (if YearToken(ps[0]) then 0 else 1)
            && multiset(a.errors)[BadClient(ps[1])] == (if IdentToken(ps[1]) then 0 else 1)
            && multiset(a.errors)[BadTitle(ps[2])] == (if IdentToken(ps[2]) then 0 else 1)
            && multiset(a.errors)[BadNumber(ps[|ps| - 1])] == (if NumberToken(ps[|ps| - 1]) then 0 else 1)
  {
    PartsChecks(filename, PartsOf(filename), validTags);
  }

  lemma PartsMissingTag(filename: string, ps: seq<string>, validTags: seq<Json>)
    requires ps != []
    ensures MissingTag in AnalyzeParts(filename, ps, validTags).errors <==>
            |ps| > 4 && forall i | 3 <= i < |ps| - 1 :: !TagPrefixed(ps[i])
  {
    if |ps| >= 4 {
      var mid := ps[3..|ps| - 1];
      var m := MiddleOf(mid, validTags);
      if MissingTag in m.errors {
        MiddleErrorKinds(mid, validTags, MissingTag);
      }
      assert MissingTag !in PositionalErrors(ps);
      TagPartIsLast(mid, validTags);
      assert forall i | 3 <= i < |ps| - 1 :: ps[i] == mid[i - 3];
      assert forall i | 0 <= i < |mid| :: mid[i] == ps[i + 3];
    }
  }

  /** The missing-tag error comes exactly when no middle part starts with
      't-' and there are more than four parts: a four-part name never gets
      it. */
  lemma MissingTagRule(filename: string, validTags: seq<Json>)
    ensures var a, ps := Analyze(filename, validTags), PartsOf(filename);
            MissingTag in a.errors <==> |ps| > 4 && forall i | 3 <= i < |ps| - 1 :: !TagPrefixed(ps[i])
  {
    PartsMissingTag(filename, PartsOf(filename), validTags);
  }

  // ---------------------------------------------------------------------
  // find_non_matching_files and the extension list
  // ---------------------------------------------------------------------

  const DefaultExtensions: seq<string> := [".jpg", ".jpeg", ".png", ".gif", ".bmp", ".tiff", ".webp"]

  /** A file is reported when its lower-cased extension is listed and its
      name has at least one error. */
  predicate Reported(file: string, validTags: seq<Json>, extensions: seq<string>) {
    Lower(SplitExt(file).1) in extensions && Analyze(file, validTags).errors != []
  }

  /** The reports over `walk` when `keep` selects the files to report and
      `analyze` gives each file's analysis. */
  function Reports(walk: seq<(string, string)>, keep: string -> bool, analyze: string -> Analysis): seq<(string, Analysis)>
    decreases |walk|
  {
    if walk == [] then []
    else
      var n := |walk| - 1;
      var (root, file) := walk[n];
      Reports(walk[..n], keep, analyze) + (if keep(file) then [(PathJoin(root, file), analyze(file))] else [])
  }

  function ReportedOf(validTags: seq<Json>, extensions: seq<string>): string -> bool {
    file => Reported(file, validTags, extensions)
  }

  function AnalyzerOf(validTags: seq<Json>): string -> Analysis {
    file => Analyze(file, validTags)
  }

  /** The reports for `os.walk` order: `walk` lists (directory, file name)
      pairs as visited. */
  function NonMatching(walk: seq<(string, string)>, validTags: seq<Json>, extensions: seq<string>): seq<(string, Analysis)> {
    Reports(walk, ReportedOf(validTags, extensions), AnalyzerOf(validTags))
  }

  /** `find_non_matching_files(folder_path, valid_tags, image_extensions)`. */
  method FindNonMatchingFiles(walk: seq<(string, string)>, validTags: seq<Json>, imageExtensions: Option<seq<string>>)
    returns (nonMatching: seq<(string, Analysis)>)
    ensures nonMatching == NonMatching(walk, validTags, imageExtensions.GetOr(DefaultExtensions))
  {
    var extensions := if imageExtensions.None? then DefaultExtensions else imageExtensions.value;
    nonMatching := [];
    var i := 0;
    while i < |walk|
      invariant 0 <= i <= |walk|
      invariant nonMatching == Reports(walk[..i], ReportedOf(validTags, extensions), AnalyzerOf(validTags))
    {
      assert walk[..i + 1][..i] == walk[..i];
      var (root, file) := walk[i];
      var ext := Lower(SplitExt(file).1);
      if ext in extensions {
        var analysis := AnalyzeFilename(file, validTags);
        if analysis.errors != [] {
          nonMatching := nonMatching + [(PathJoin(root, file), analysis)];
        }
      }
      i := i + 1;
    }
    assert walk[..i] == walk;
  }

  lemma {:induction false} ReportsExact(walk: seq<(string, string)>, keep: string -> bool, analyze: string -> Analysis,
                                        path: string, analysis: Analysis)
    ensures (path, analysis) in Reports(walk, keep, analyze) <==>
            exists i | 0 <= i < |walk| :: keep(walk[i].1) && path == PathJoin(walk[i].0, walk[i].1) && analysis == analyze(walk[i].1)
    decreases |walk|
  {
    if walk != [] {
      var n := |walk| - 1;
      ReportsExact(walk[..n], keep, analyze, path, analysis);
      assert forall i | 0 <= i < n :: walk[..n][i] == walk[i];
    }
  }

  /** A file is reported, with its own analysis, exactly when its
      extension is listed and its name has an error. */
  lemma NonMatchingExact(walk: seq<(string, string)>, validTags: seq<Json>, extensions: seq<string>,
                         path: string, analysis: Analysis)
    ensures (path, analysis) in NonMatching(walk, validTags, extensions) <==>
            exists i | 0 <= i < |walk| :: Reported(walk[i].1, validTags, extensions)
                                        && path == PathJoin(walk[i].0, walk[i].1) && analysis == Analyze(walk[i].1, validTags)
  {
    ReportsExact(walk, ReportedOf(validTags, extensions), AnalyzerOf(validTags), path, analysis);
  }

  /** One entry of `--extensions`: stripped, with a leading '.' added
      when it has none. */
  function NormalizeExtension(e: string): string {
    var t := Strip(e);
    if StartsWith(t, ".") then t else "." + t
  }

  /** The `extensions` comprehension of `main` over `args.extensions.split(',')`. */
  function NormalizeExtensions(arg: string): (r: seq<string>)
    ensures |r| == |Split(arg, ',')|
  {
    var pieces := Split(arg, ',');
    seq(|pieces|, i requires 0 <= i < |pieces| => NormalizeExtension(pieces[i]))
  }

  /** Every normalised entry starts with '.', has no surrounding
      whitespace and no comma. */
  lemma NormalizedShape(e: string)
    requires ',' !in e
    ensures var r := NormalizeExtension(e);
            |r| >= 1 && r[0] == '.' && Stripped(r) && ',' !in r
  {
    StripShape(e);
    StripKeepsOut(e, ',');
  }

  lemma NormalizeNormalized(e: string)
    requires |e| >= 1 && e[0] == '.' && Stripped(e)
    ensures NormalizeExtension(e) == e
  {
    StripStripped(e);
  }

  /** Every entry of the normalised list starts with '.', and the list
      is a fixed point: normalising its comma-join gives it back. */
  lemma NormalizeExtensionsIdempotent(arg: string)
    ensures var r := NormalizeExtensions(arg);
            && (forall i | 0 <= i < |r| :: |r[i]| >= 1 && r[i][0] == '.')
            && NormalizeExtensions(Join(r, [','])) == r
  {
    var pieces := Split(arg, ',');
    var r := NormalizeExtensions(arg);
    SplitPiecesFree(arg, ',');
    forall i | 0 <= i < |r| ensures |r[i]| >= 1 && r[i][0] == '.' && Stripped(r[i]) && ',' !in r[i] {
      NormalizedShape(pieces[i]);
    }
    SplitJoin(r, ',');
    forall i | 0 <= i < |r| ensures NormalizeExtension(r[i]) == r[i] {
      NormalizeNormalized(r[i]);
    }
  }
}
