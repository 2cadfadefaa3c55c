/**
 * The filename grammar of image-processor.py: `parse_filename` turns a name
 * such as `2024_AcmeCo_Launch_t-web_01.jpg` into metadata, and
 * `generate_detail_text` composes the "Detail" column from that metadata.
 */
module FilenameParser {
  import opened Wrappers
  import opened Text

  // ---------------------------------------------------------------------
  // The regular expressions, as predicates over ASCII strings
  // ---------------------------------------------------------------------

  /** Python's `$` also matches just before one final newline, so every
      anchored pattern is tried on the token and on the token without it. */
  function DropFinalNewline(s: string): string
  {
    if |s| > 0 && s[|s| - 1] == '\n' then s[..|s| - 1] else s
  }

  /** `\d{4}` */
  predicate IsYear(s: string) {
    |s| == 4 && IsDigit(s[0]) && IsDigit(s[1]) && IsDigit(s[2]) && IsDigit(s[3])
  }

  /** `[A-Za-z0-9][A-Za-z0-9\-]*` (client, title and subtitle share it) */
  predicate IsIdent(s: string) {
    |s| >= 1 && IsAlnum(s[0]) && AllIdentChars(s)
  }

  /** `t-[A-Za-z0-9\-]+` */
  predicate IsTag(s: string) {
    |s| >= 3 && s[0] == 't' && s[1] == '-' && AllIdentChars(s[2..])
  }

  predicate AllIdentChars(s: string) {
    s == [] || (IsIdentChar(s[0]) && AllIdentChars(s[1..]))
  }

  /** `\d{2}` */
  predicate IsNumber(s: string) { |s| == 2 && IsDigit(s[0]) && IsDigit(s[1]) }

  /** `re.match(r'^\d{4}$', s)` */
  predicate YearToken(s: string) { IsYear(s) || IsYear(DropFinalNewline(s)) }

  /** `re.match(r'^[A-Za-z0-9][A-Za-z0-9\-]*$', s)` */
  predicate IdentToken(s: string) { IsIdent(s) || IsIdent(DropFinalNewline(s)) }

  /** `re.match(r'^t-[A-Za-z0-9\-]+$', s)` */
  predicate TagToken(s: string) { IsTag(s) || IsTag(DropFinalNewline(s)) }

  /** `re.match(r'^\d{2}$', s)` */
  predicate NumberToken(s: string) { IsNumber(s) || IsNumber(DropFinalNewline(s)) }

  /** Hyphens rendered as spaces. */
  function Dehyphen(s: string): string {
    Replace(s, '-', ' ')
  }

  function DehyphenAll(ps: seq<string>): seq<string> {
    seq(|ps|, i requires 0 <= i < |ps| => Dehyphen(ps[i]))
  }

  // ---------------------------------------------------------------------
  // parse_filename
  // ---------------------------------------------------------------------

  datatype Metadata = Metadata(
    year: Option<string>,
    client: Option<string>,
    title: Option<string>,
    subtitle: Option<string>,
    tags: seq<string>,
    sequence: Option<string>,
    baseName: string)   // the stem without its sequence token: the grouping key

  /** The file name without directory and extension. */
  function Stem(filename: string): string {
    SplitExt(Basename(filename)).0
  }

  /** The `_`-separated tokens of the stem with a final two-digit sequence
      token removed, and that token. */
  function Body(stem: string): (seq<string>, Option<string>) {
    var parts := Split(stem, '_');
    var last := parts[|parts| - 1];
    if NumberToken(last) then (parts[..|parts| - 1], Some(last)) else (parts, None)
  }

  /** Year, client and title consumed greedily from the front of the body,
      each only when the next token matches its pattern; the remaining tokens. */
  datatype Head = Head(year: Option<string>, client: Option<string>, title: Option<string>, rest: seq<string>)

  function TakeHead(body: seq<string>): Head
  {
    var (year, r1) := if |body| > 0 && YearToken(body[0]) then (Some(body[0]), body[1..]) else (None, body);
    var (client, r2) := if |r1| > 0 && IdentToken(r1[0]) then (Some(r1[0]), r1[1..]) else (None, r1);
    var (title, r3) := if |r2| > 0 && IdentToken(r2[0]) then (Some(r2[0]), r2[1..]) else (None, r2);
    Head(year, client, title, r3)
  }

  /** A leftover token that becomes a tag by the `t-` rule. */
  predicate IsTagPart(p: string) { StartsWith(p, "t-") && TagToken(p) }

  /** A leftover token that may become the subtitle. */
  predicate IsSubtitlePart(p: string) { !IsTagPart(p) && IdentToken(p) }

  /** A leftover token that matches no pattern at all. */
  predicate Unmatched(p: string) { !IsTagPart(p) && !IdentToken(p) }

  datatype Leftovers = Leftovers(subtitle: Option<string>, tags: seq<string>, unmatched: bool)

  /** The rule a leftover token falls under, in the order the rules are tried. */
  datatype Kind = TagKind | SubtitleKind | OtherKind

  function KindOf(p: string): Kind {
    if IsTagPart(p) then TagKind else if IdentToken(p) then SubtitleKind else OtherKind
  }

  /** One turn of the classification loop: `p` falls under rule `k`. */
  function Step(acc: Leftovers, p: string, k: Kind): Leftovers {
    match k
    case TagKind => acc.(tags := acc.tags + [Dehyphen(p)])
    case SubtitleKind =>
      if acc.subtitle.None? then acc.(subtitle := Some(Dehyphen(p)))
      else acc.(tags := acc.tags + [Dehyphen(p)])
    case OtherKind => acc.(tags := acc.tags + [Dehyphen(p)], unmatched := true)
  }

  /** The classification loop over the leftover tokens, in order, with
      `kind` deciding which rule each token falls under (`KindOf` in the
      parser; the loop's properties hold for any rule assignment). */
  function Classify(parts: seq<string>, acc: Leftovers, kind: string -> Kind): Leftovers
    decreases |parts|
  {
    if parts == [] then acc else Classify(parts[1..], Step(acc, parts[0], kind(parts[0])), kind)
  }

  /** Client and title have their hyphens rendered as spaces only when an
      unmatched token was met; otherwise they are kept verbatim. */
  function DisplayName(name: Option<string>, unmatched: bool): Option<string> {
    if unmatched && name.Some? then Some(Dehyphen(name.value)) else name
  }

  /** The tokens left once sequence, year, client and title are taken. */
  function Leftover(stem: string): seq<string> {
    TakeHead(Body(stem).0).rest
  }

  /** The parse of a stem. A year is only ever the first `_` token and
      only a four-digit one; a sequence is only ever the last token and
      only a two-digit one. */
  function ParseStem(stem: string): (m: Metadata)
    ensures m.year.Some? ==> m.year.value == Split(stem, '_')[0] && YearToken(m.year.value)
    ensures m.sequence.Some? ==> m.sequence.value == Split(stem, '_')[|Split(stem, '_')| - 1] && NumberToken(m.sequence.value)
  {
    var (body, sequence) := Body(stem);
    var head := TakeHead(body);
    var lo := Classify(Leftover(stem), Leftovers(None, [], false), KindOf);
    Metadata(head.year, DisplayName(head.client, lo.unmatched), DisplayName(head.title, lo.unmatched),
             lo.subtitle, lo.tags, sequence, Join(body, "_"))
  }

  /** `parse_filename(filename)`: total on every string. The stem is the
      base name followed by the sequence token, if any. */
  function ParseFilename(filename: string): (m: Metadata)
    ensures m.sequence.None? ==> m.baseName == Stem(filename)
    ensures m.sequence.Some? ==> Stem(filename) == m.baseName + "_" + m.sequence.value
                                 || (m.baseName == "" && Stem(filename) == m.sequence.value)
  {
    SequenceAndBaseName(Stem(filename));
    ParseStem(Stem(filename))
  }

  // ---------------------------------------------------------------------
  // Properties of parse_filename
  // ---------------------------------------------------------------------

  /** A final two-digit token is the sequence and the base name is the stem
      without it; otherwise there is no sequence and the base name is the
      whole stem. */
  lemma SequenceAndBaseName(stem: string)
    ensures var parts := Split(stem, '_');
            var last := parts[|parts| - 1];
            var m := ParseStem(stem);
            && (NumberToken(last) ==> m.sequence == Some(last) && m.baseName == Join(parts[..|parts| - 1], "_"))
            && (NumberToken(last) && |parts| >= 2 ==> stem == m.baseName + "_" + last)
            && (NumberToken(last) && |parts| == 1 ==> m.baseName == "" && stem == last)
            && (!NumberToken(last) ==> m.sequence == None && m.baseName == stem)
  {
    var parts := Split(stem, '_');
    JoinSplit(stem, '_');
    BodyOfParts(stem, parts);
    RejoinParts(stem, parts);
  }

  lemma RejoinParts(stem: string, parts: seq<string>)
    requires |parts| >= 1 && Join(parts, ['_']) == stem
    ensures |parts| >= 2 ==> stem == Join(parts[..|parts| - 1], "_") + "_" + parts[|parts| - 1]
    ensures |parts| == 1 ==> Join(parts[..0], "_") == "" && Join(parts, "_") == stem
    ensures Join(parts, "_") == stem
  {
    assert "_" == ['_'];
    if |parts| >= 2 {
      JoinPrefixes(parts, "_");
    }
  }

  lemma {:induction false} SplitSnoc(a: string, c: string, sep: char)
    requires sep !in c
    ensures Split(a + [sep] + c, sep) == Split(a, sep) + [c]
  {
    if a == [] {
      assert a + [sep] + c == [sep] + c;
      assert ([sep] + c)[1..] == c;
      SplitWithoutSep(c, sep);
    } else {
      SplitSnoc(a[1..], c, sep);
      var s := a + [sep] + c;
      assert s[0] == a[0] && s[1..] == a[1..] + [sep] + c;
    }
  }

  /** A sequence token is two digits, possibly followed by one newline. */
  lemma NumberTokenShape(s: string)
    requires NumberToken(s)
    ensures forall i | 0 <= i < |s| :: IsDigit(s[i]) || s[i] == '\n'
    ensures '_' !in s
  {
    if !IsNumber(s) {
      assert s == DropFinalNewline(s) + "\n";
    }
  }

  /** The base name does not depend on the sequence token: two stems that
      differ only in it group together. */
  lemma BaseNameIgnoresSequence(base: string, s1: string, s2: string)
    requires NumberToken(s1) && NumberToken(s2)
    ensures ParseStem(base + "_" + s1).baseName == base == ParseStem(base + "_" + s2).baseName
    ensures ParseStem(base + "_" + s1).sequence == Some(s1)
  {
    forall s | NumberToken(s)
      ensures ParseStem(base + "_" + s).baseName == base && ParseStem(base + "_" + s).sequence == Some(s)
    {
      NumberTokenShape(s);
      SplitSnoc(base, s, '_');
      var parts := Split(base + "_" + s, '_');
      assert parts[..|parts| - 1] == Split(base, '_');
      JoinSplit(base, '_');
    }
  }

  lemma TakeHeadWellFormed(body: seq<string>)
    requires |body| >= 3 && YearToken(body[0]) && IdentToken(body[1]) && IdentToken(body[2])
    ensures TakeHead(body) == Head(Some(body[0]), Some(body[1]), Some(body[2]), body[3..])
  {
    assert body[1..][1..] == body[2..] && body[2..][1..] == body[3..];
  }

  /** Body of a stem assembled from separator-free tokens ending in a sequence. */
  lemma BodyOfJoin(parts: seq<string>)
    requires |parts| >= 1 && forall i | 0 <= i < |parts| :: '_' !in parts[i]
    requires NumberToken(parts[|parts| - 1])
    ensures Body(Join(parts, "_")) == (parts[..|parts| - 1], Some(parts[|parts| - 1]))
  {
    assert "_" == ['_'];
    SplitJoin(parts, '_');
    BodyOfParts(Join(parts, "_"), parts);
  }

  lemma BodyOfParts(stem: string, parts: seq<string>)
    requires Split(stem, '_') == parts
    ensures var last := parts[|parts| - 1];
            Body(stem) == if NumberToken(last) then (parts[..|parts| - 1], Some(last)) else (parts, None)
  {
  }

  /** For a name whose first three tokens are a year, a client and a title
      and whose last token is a sequence number, all four are recovered
      from those positions (client and title with hyphens as spaces exactly
      when some leftover token matches no pattern). */
  lemma WellFormedRecovery(parts: seq<string>)
    requires |parts| >= 4 && forall i | 0 <= i < |parts| :: '_' !in parts[i]
    requires YearToken(parts[0]) && IdentToken(parts[1]) && IdentToken(parts[2])
    requires NumberToken(parts[|parts| - 1])
    ensures var m := ParseStem(Join(parts, "_"));
            var odd := AnyUnmatched(parts[3..|parts| - 1], KindOf);
            && m.year == Some(parts[0])
            && m.client == Some(if odd then Dehyphen(parts[1]) else parts[1])
            && m.title == Some(if odd then Dehyphen(parts[2]) else parts[2])
            && m.sequence == Some(parts[|parts| - 1])
  {
    var stem := Join(parts, "_");
    BodyOfJoin(parts);
    var body := parts[..|parts| - 1];
    TakeHeadWellFormed(body);
    assert Leftover(stem) == body[3..] == parts[3..|parts| - 1];
    ParseStemLeftovers(stem);
  }

  /** Index of the first token that falls under the subtitle rule, or the
      number of tokens when there is none. */
  function FirstSubtitle(ps: seq<string>, kind: string -> Kind): (j: nat)
    ensures j <= |ps|
    ensures j < |ps| ==> kind(ps[j]) == SubtitleKind
    ensures forall i | 0 <= i < j :: kind(ps[i]) != SubtitleKind
  {
    if ps == [] then 0
    else if kind(ps[0]) == SubtitleKind then 0
    else 1 + FirstSubtitle(ps[1..], kind)
  }

  predicate AnyUnmatched(ps: seq<string>, kind: string -> Kind) {
    exists i | 0 <= i < |ps| :: kind(ps[i]) == OtherKind
  }

  lemma AnyUnmatchedCons(ps: seq<string>, kind: string -> Kind)
    requires ps != []
    ensures AnyUnmatched(ps, kind) <==> kind(ps[0]) == OtherKind || AnyUnmatched(ps[1..], kind)
  {
    if AnyUnmatched(ps[1..], kind) {
      var i :| 0 <= i < |ps[1..]| && kind(ps[1..][i]) == OtherKind;
      assert ps[i + 1] == ps[1..][i];
    }
  }

  /** The classification loop, once a subtitle is known, turns every later
      token into a tag. */
  lemma {:induction false} ClassifyAfterSubtitle(ps: seq<string>, acc: Leftovers, kind: string -> Kind)
    requires acc.subtitle.Some?
    ensures Classify(ps, acc, kind) ==
            Leftovers(acc.subtitle, acc.tags + DehyphenAll(ps), acc.unmatched || AnyUnmatched(ps, kind))
  {
    if ps != [] {
      var next := Step(acc, ps[0], kind(ps[0]));
      assert next == acc.(tags := acc.tags + [Dehyphen(ps[0])], unmatched := acc.unmatched || kind(ps[0]) == OtherKind);
      ClassifyAfterSubtitle(ps[1..], next, kind);
      assert acc.tags + [Dehyphen(ps[0])] + DehyphenAll(ps[1..]) == acc.tags + DehyphenAll(ps);
      AnyUnmatchedCons(ps, kind);
    }
  }

  /** What the classification loop yields from a state without subtitle. */
  function BeforeSubtitle(ps: seq<string>, acc: Leftovers, kind: string -> Kind): Leftovers {
    var j := FirstSubtitle(ps, kind);
    var unmatched := acc.unmatched || AnyUnmatched(ps, kind);
    if j < |ps| then
      Leftovers(Some(Dehyphen(ps[j])), acc.tags + DehyphenAll(ps[..j]) + DehyphenAll(ps[j + 1..]), unmatched)
    else
      Leftovers(None, acc.tags + DehyphenAll(ps), unmatched)
  }

  lemma DehyphenAllCons(ps: seq<string>, k: nat)
    requires 1 <= k <= |ps|
    ensures [Dehyphen(ps[0])] + DehyphenAll(ps[1..k]) == DehyphenAll(ps[..k])
  {
  }

  lemma BeforeSubtitleCons(ps: seq<string>, acc: Leftovers, kind: string -> Kind)
    requires ps != [] && kind(ps[0]) != SubtitleKind
    ensures BeforeSubtitle(ps, acc, kind) ==
            BeforeSubtitle(ps[1..], acc.(tags := acc.tags + [Dehyphen(ps[0])], unmatched := acc.unmatched || kind(ps[0]) == OtherKind), kind)
  {
    AnyUnmatchedCons(ps, kind);
    var rest := ps[1..];
    var j := FirstSubtitle(rest, kind);
    assert FirstSubtitle(ps, kind) == j + 1;
    var tags' := acc.tags + [Dehyphen(ps[0])];
    if j < |rest| {
      assert rest[j] == ps[j + 1];
      assert rest[..j] == ps[1..j + 1];
      assert rest[j + 1..] == ps[j + 2..];
      DehyphenAllCons(ps, j + 1);
      assert tags' + DehyphenAll(rest[..j]) == acc.tags + DehyphenAll(ps[..j + 1]);
    } else {
      DehyphenAllCons(ps, |ps|);
      assert ps[..|ps|] == ps && rest == ps[1..|ps|];
      assert tags' + DehyphenAll(rest) == acc.tags + DehyphenAll(ps);
    }
  }

  lemma {:induction false} ClassifyBeforeSubtitle(ps: seq<string>, acc: Leftovers, kind: string -> Kind)
    requires acc.subtitle.None?
    ensures Classify(ps, acc, kind) == BeforeSubtitle(ps, acc, kind)
  {
    if ps != [] {
      var p := ps[0];
      var next := Step(acc, p, kind(p));
      if kind(p) == SubtitleKind {
        assert next == acc.(subtitle := Some(Dehyphen(p)));
        ClassifyAfterSubtitle(ps[1..], next, kind);
        AnyUnmatchedCons(ps, kind);
        assert FirstSubtitle(ps, kind) == 0;
        assert ps[..0] == [] && ps[1..] == ps[0 + 1..];
      } else {
        assert next == acc.(tags := acc.tags + [Dehyphen(p)], unmatched := acc.unmatched || kind(p) == OtherKind);
        ClassifyBeforeSubtitle(ps[1..], next, kind);
        BeforeSubtitleCons(ps, acc, kind);
      }
    }
  }

  /** Leftover tokens: the first one that fits the subtitle pattern (and is
      not a `t-` tag) becomes the subtitle; every other token, tag-shaped,
      subtitle-shaped or matching nothing, becomes a tag in order, so no
      token is dropped; hyphens become spaces in all of them. */
  lemma ClassifyCharacterised(ps: seq<string>, kind: string -> Kind)
    ensures var lo := Classify(ps, Leftovers(None, [], false), kind);
            var j := FirstSubtitle(ps, kind);
            && (j < |ps| ==> lo.subtitle == Some(Dehyphen(ps[j])) && lo.tags == DehyphenAll(ps[..j]) + DehyphenAll(ps[j + 1..]))
            && (j == |ps| ==> lo.subtitle == None && lo.tags == DehyphenAll(ps))
            && (lo.unmatched <==> AnyUnmatched(ps, kind))
            && |lo.tags| + (if lo.subtitle.Some? then 1 else 0) == |ps|
  {
    ClassifyBeforeSubtitle(ps, Leftovers(None, [], false), kind);
  }

  /** A `t-` token yields exactly one tag: the token itself with every hyphen
      turned into a space (so `t-web-branding` gives `t web branding`). */
  lemma TagTokenGivesOneTag(ps: seq<string>, i: nat)
    requires i < |ps| && IsTagPart(ps[i])
    ensures Dehyphen(ps[i]) in Classify(ps, Leftovers(None, [], false), KindOf).tags
  {
    ClassifyCharacterised(ps, KindOf);
    assert KindOf(ps[i]) == TagKind;
    DehyphenedMember(ps, i, FirstSubtitle(ps, KindOf));
  }

  /** Removing the token at `j` keeps the rendering of every other token. */
  lemma DehyphenedMember(ps: seq<string>, i: nat, j: nat)
    requires i < |ps| && j <= |ps| && i != j
    ensures j < |ps| ==> Dehyphen(ps[i]) in DehyphenAll(ps[..j]) + DehyphenAll(ps[j + 1..])
    ensures j == |ps| ==> Dehyphen(ps[i]) in DehyphenAll(ps)
  {
    if j < |ps| {
      if i < j { assert DehyphenAll(ps[..j])[i] == Dehyphen(ps[i]); }
      else { assert DehyphenAll(ps[j + 1..])[i - j - 1] == Dehyphen(ps[i]); }
    } else {
      assert DehyphenAll(ps)[i] == Dehyphen(ps[i]);
    }
  }

  /** The leftover characterisation lifted to the parsed record: subtitle,
      tags, and whether client and title are rendered with spaces. */
  lemma ParseStemLeftovers(stem: string)
    ensures var m := ParseStem(stem);
            var ps := Leftover(stem);
            var head := TakeHead(Body(stem).0);
            var j := FirstSubtitle(ps, KindOf);
            var odd := AnyUnmatched(ps, KindOf);
            && m.year == head.year
            && m.client == DisplayName(head.client, odd)
            && m.title == DisplayName(head.title, odd)
            && (j < |ps| ==> m.subtitle == Some(Dehyphen(ps[j])) && m.tags == DehyphenAll(ps[..j]) + DehyphenAll(ps[j + 1..]))
            && (j == |ps| ==> m.subtitle == None && m.tags == DehyphenAll(ps))
            && |m.tags| + (if m.subtitle.Some? then 1 else 0) == |ps|
  {
    ClassifyCharacterised(Leftover(stem), KindOf);
  }

  // ---------------------------------------------------------------------
  // generate_detail_text
  // ---------------------------------------------------------------------

  /** Python truthiness of an optional string: neither None nor "". */
  predicate Present(v: Option<string>) { v.Some? && v.value != "" }

  /** `generate_detail_text(year, client, title, subtitle, sequence)` */
  function DetailText(year: Option<string>, client: Option<string>, title: Option<string>,
                      subtitle: Option<string>, sequence: Option<string>): (d: string)
    ensures d == "" <==> !Present(year) && !Present(client) && !Present(title)
  {
    if !Present(year) && !Present(client) && !Present(title) then ""
    else
      var t := title.GetOr("");
      var sub := subtitle.GetOr("");
      var sq := sequence.GetOr("");
      var c := client.GetOr("");
      var y := year.GetOr("");
      t + (if sub != "" then " - " + sub else "")
        + (if sq != "" then " (" + sq + ")" else "")
        + (if c != "" then " for " + c else "")
        + (if y != "" then " (" + y + ")" else "")
  }

  /** The detail text starts with the title and ends with the
      parenthesised year when there is one, and is just the title when
      nothing else is given. */
  lemma DetailTextShape(year: Option<string>, client: Option<string>, title: Option<string>,
                        subtitle: Option<string>, sequence: Option<string>)
    ensures var d := DetailText(year, client, title, subtitle, sequence);
            && (Present(title) ==> StartsWith(d, title.value))
            && (Present(year) ==> |d| >= |year.value| + 3 && d[|d| - |year.value| - 3..] == " (" + year.value + ")")
            && (!Present(subtitle) && !Present(sequence) && !Present(client) && !Present(year) ==> d == title.GetOr(""))
  {
    var d := DetailText(year, client, title, subtitle, sequence);
    if Present(title) {
      assert d[..|title.value|] == title.value;
    }
  }

  /** The worked example of the naming convention. */
  lemma DetailTextExample()
    ensures DetailText(Some("2024"), Some("AcmeCo"), Some("Launch"), None, Some("01")) == "Launch (01) for AcmeCo (2024)"
  {
  }
}
