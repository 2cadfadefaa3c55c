/**
 * String primitives the Python scripts rely on, restricted to ASCII:
 * character classes of the regular expressions, `str.split`, `str.join`,
 * `str.strip`, `str.replace` of one character, `str.lower`, and the POSIX
 * `os.path.basename` / `os.path.splitext` / `os.path.join`.
 */
module Text {

  // ---------------------------------------------------------------------
  // Character classes
  // ---------------------------------------------------------------------

  /** `[0-9]`: the ASCII digits (Python's `\d` restricted to ASCII). */
  predicate IsDigit(c: char) { '0' <= c <= '9' }

  predicate IsLetter(c: char) { 'A' <= c <= 'Z' || 'a' <= c <= 'z' }

  /** `[A-Za-z0-9]` */
  predicate IsAlnum(c: char) { IsDigit(c) || IsLetter(c) }

  /** `[A-Za-z0-9\-]` */
  predicate IsIdentChar(c: char) { IsAlnum(c) || c == '-' }

  /** The ASCII characters for which Python's `str.isspace()` holds:
      tab through carriage return, the separators 0x1C-0x1F, and space. */
  predicate IsSpace(c: char) {
    c == ' ' || ('\t' <= c <= '\r') || ((28 as char) <= c <= (31 as char))
  }

  predicate AllDigits(s: string) { forall i | 0 <= i < |s| :: IsDigit(s[i]) }

  function DigitValue(c: char): nat requires IsDigit(c) { (c as int) - ('0' as int) }

  // ---------------------------------------------------------------------
  // Prefixes and single-character rewriting
  // ---------------------------------------------------------------------

  predicate StartsWith(s: string, prefix: string) {
    |prefix| <= |s| && s[..|prefix|] == prefix
  }

  /** `s.replace(a, b)` for single characters. */
  function Replace(s: string, a: char, b: char): (r: string)
    ensures |r| == |s|
    ensures forall i | 0 <= i < |s| :: r[i] == (if s[i] == a then b else s[i])
  {
    seq(|s|, i requires 0 <= i < |s| => if s[i] == a then b else s[i])
  }

  /** `s.replace(c, '')` for one character. */
  function Remove(s: string, c: char): (r: string)
    ensures c !in r
    ensures forall x | x in r :: x in s
  {
    if s == [] then [] else (if s[0] == c then [] else [s[0]]) + Remove(s[1..], c)
  }

  /** `s.lower()` on ASCII letters. */
  function Lower(s: string): (r: string)
    ensures |r| == |s|
  {
    seq(|s|, i requires 0 <= i < |s| => if 'A' <= s[i] <= 'Z' then (s[i] as int + 32) as char else s[i])
  }

  // ---------------------------------------------------------------------
  // split / join
  // ---------------------------------------------------------------------

  /** `s.split(sep)` with an explicit one-character separator: always at
      least one piece. */
  function Split(s: string, sep: char): (parts: seq<string>)
    ensures |parts| >= 1
  {
    if s == [] then [""]
    else
      var rest := Split(s[1..], sep);
      if s[0] == sep then [""] + rest
      else [[s[0]] + rest[0]] + rest[1..]
  }

  /** No piece of a split contains the separator. */
  lemma {:induction false} SplitPiecesFree(s: string, sep: char)
    ensures forall i | 0 <= i < |Split(s, sep)| :: sep !in Split(s, sep)[i]
  {
    if s != [] {
      SplitPiecesFree(s[1..], sep);
    }
  }

  /** `sep.join(parts)` */
  function Join(parts: seq<string>, sep: string): string
  {
    if |parts| == 0 then ""
    else if |parts| == 1 then parts[0]
    else parts[0] + sep + Join(parts[1..], sep)
  }

  /** Joining the pieces of a split with the same separator gives the string back. */
  lemma {:induction false} JoinSplit(s: string, sep: char)
    ensures Join(Split(s, sep), [sep]) == s
  {
    if s != [] {
      var rest := Split(s[1..], sep);
      JoinSplit(s[1..], sep);
      if s[0] == sep {
        assert Split(s, sep) == [""] + rest;
        assert Join([""] + rest, [sep]) == "" + [sep] + Join(rest, [sep]);
      } else {
        var first := [s[0]] + rest[0];
        assert Split(s, sep) == [first] + rest[1..];
        if |rest| == 1 {
          assert Join(rest, [sep]) == rest[0];
        } else {
          assert Join(rest, [sep]) == rest[0] + [sep] + Join(rest[1..], [sep]);
          assert Join([first] + rest[1..], [sep]) == first + [sep] + Join(rest[1..], [sep]);
        }
      }
    }
  }

  lemma {:induction false} SplitWithoutSep(a: string, sep: char)
    requires sep !in a
    ensures Split(a, sep) == [a]
  {
    if a != [] {
      SplitWithoutSep(a[1..], sep);
      assert [a[0]] + a[1..] == a;
    }
  }

  /** Splitting at the first separator. */
  lemma {:induction false} SplitAtFirst(a: string, b: string, sep: char)
    requires sep !in a
    ensures Split(a + [sep] + b, sep) == [a] + Split(b, sep)
  {
    if a == [] {
      assert a + [sep] + b == [sep] + b;
      assert ([sep] + b)[1..] == b;
    } else {
      SplitAtFirst(a[1..], b, sep);
      var s := a + [sep] + b;
      assert s[0] == a[0] && s[1..] == a[1..] + [sep] + b;
      assert [a[0]] + a[1..] == a;
    }
  }

  /** Splitting a join of separator-free pieces gives the pieces back. */
  lemma {:induction false} SplitJoin(parts: seq<string>, sep: char)
    requires |parts| >= 1 && forall i | 0 <= i < |parts| :: sep !in parts[i]
    ensures Split(Join(parts, [sep]), sep) == parts
  {
    if |parts| == 1 {
      SplitWithoutSep(parts[0], sep);
    } else {
      assert forall i | 0 <= i < |parts| - 1 :: parts[1..][i] == parts[i + 1];
      SplitJoin(parts[1..], sep);
      SplitAtFirst(parts[0], Join(parts[1..], [sep]), sep);
      assert [parts[0]] + parts[1..] == parts;
    }
  }

  lemma SplitCons(c: char, rest: string, sep: char)
    ensures c == sep ==> Split([c] + rest, sep) == [""] + Split(rest, sep)
    ensures c != sep ==> Split([c] + rest, sep) == [[c] + Split(rest, sep)[0]] + Split(rest, sep)[1..]
  {
    assert ([c] + rest)[1..] == rest;
  }

  /** Splitting around one separator splits each side. */
  lemma {:induction false} SplitConcat(a: string, b: string, sep: char)
    ensures Split(a + [sep] + b, sep) == Split(a, sep) + Split(b, sep)
    decreases |a|
  {
    if a == [] {
      assert a + [sep] + b == [sep] + b;
      SplitCons(sep, b, sep);
    } else {
      SplitConcat(a[1..], b, sep);
      SplitConsAppend(a[0], a[1..] + [sep] + b, a[1..], Split(a[1..], sep), Split(b, sep), sep);
      assert [a[0]] + a[1..] == a;
      assert [a[0]] + (a[1..] + [sep] + b) == a + [sep] + b;
    }
  }

  lemma SplitConsAppend(c: char, t: string, u: string, ra: seq<string>, rb: seq<string>, sep: char)
    requires Split(t, sep) == ra + rb && Split(u, sep) == ra
    ensures Split([c] + t, sep) == Split([c] + u, sep) + rb
  {
    SplitCons(c, t, sep);
    SplitCons(c, u, sep);
    if c != sep {
      ConsAppend([c], ra, rb);
    } else {
      assert [""] + (ra + rb) == ([""] + ra) + rb;
    }
  }

  lemma ConsAppend(h: string, ra: seq<string>, rb: seq<string>)
    requires |ra| >= 1
    ensures [h + (ra + rb)[0]] + (ra + rb)[1..] == ([h + ra[0]] + ra[1..]) + rb
  {
    assert (ra + rb)[0] == ra[0] && (ra + rb)[1..] == ra[1..] + rb;
  }

  /** The non-empty strings of `xs`, in order. */
  function NonEmpty(xs: seq<string>): (r: seq<string>)
    ensures "" !in r && |r| <= |xs|
    decreases |xs|
  {
    if xs == [] then []
    else
      var n := |xs| - 1;
      NonEmpty(xs[..n]) + (if xs[n] != "" then [xs[n]] else [])
  }

  lemma {:induction false} NonEmptyMember(xs: seq<string>, x: string)
    ensures x in NonEmpty(xs) <==> x != "" && x in xs
    decreases |xs|
  {
    if xs != [] {
      var n := |xs| - 1;
      NonEmptyMember(xs[..n], x);
      assert xs == xs[..n] + [xs[n]];
    }
  }

  lemma {:induction false} NonEmptyAppend(a: seq<string>, b: seq<string>)
    ensures NonEmpty(a + b) == NonEmpty(a) + NonEmpty(b)
    decreases |b|
  {
    if b != [] {
      var n := |b| - 1;
      NonEmptyAppend(a, b[..n]);
      assert (a + b)[..|a| + n] == a + b[..n];
    } else {
      assert a + b == a;
    }
  }

  lemma {:induction false} NonEmptyAll(xs: seq<string>)
    requires "" !in xs
    ensures NonEmpty(xs) == xs
    decreases |xs|
  {
    if xs != [] {
      var n := |xs| - 1;
      NonEmptyAll(xs[..n]);
      assert xs[..n] + [xs[n]] == xs;
    }
  }

  /** `sub in s` for two strings. */
  predicate Contains(s: string, sub: string)
    decreases |s|
  {
    StartsWith(s, sub) || (s != [] && Contains(s[1..], sub))
  }

  /** Appending one more piece to a join. */
  lemma {:induction false} JoinSnoc(parts: seq<string>, last: string, sep: string)
    requires |parts| >= 1
    ensures Join(parts + [last], sep) == Join(parts, sep) + sep + last
  {
    if |parts| == 1 {
      assert parts + [last] == [parts[0], last];
    } else {
      JoinSnoc(parts[1..], last, sep);
      assert (parts + [last])[1..] == parts[1..] + [last];
    }
  }

  lemma {:induction false} JoinPrefixes(parts: seq<string>, sep: string)
    requires |parts| >= 2
    ensures Join(parts, sep) == Join(parts[..|parts| - 1], sep) + sep + parts[|parts| - 1]
  {
    JoinSnoc(parts[..|parts| - 1], parts[|parts| - 1], sep);
    assert parts[..|parts| - 1] + [parts[|parts| - 1]] == parts;
  }

  // ---------------------------------------------------------------------
  // strip
  // ---------------------------------------------------------------------

  /** Neither first nor last character is whitespace. */
  predicate Stripped(s: string) {
    s == [] || (!IsSpace(s[0]) && !IsSpace(s[|s| - 1]))
  }

  function TrimLeft(s: string): string
  {
    if s != [] && IsSpace(s[0]) then TrimLeft(s[1..]) else s
  }

  function TrimRight(s: string): string
  {
    if s != [] && IsSpace(s[|s| - 1]) then TrimRight(s[..|s| - 1]) else s
  }

  /** `s.strip()` */
  function Strip(s: string): string
  {
    TrimRight(TrimLeft(s))
  }

  /** Trimming on the left keeps a suffix that does not start with whitespace. */
  lemma {:induction false} TrimLeftSuffix(s: string)
    ensures |TrimLeft(s)| <= |s| && TrimLeft(s) == s[|s| - |TrimLeft(s)|..]
    ensures TrimLeft(s) == [] || !IsSpace(TrimLeft(s)[0])
  {
    if s != [] && IsSpace(s[0]) {
      TrimLeftSuffix(s[1..]);
    }
  }

  /** Trimming on the right keeps a prefix that does not end with whitespace. */
  lemma {:induction false} TrimRightPrefix(s: string)
    ensures |TrimRight(s)| <= |s| && TrimRight(s) == s[..|TrimRight(s)|]
    ensures TrimRight(s) == [] || !IsSpace(TrimRight(s)[|TrimRight(s)| - 1])
  {
    if s != [] && IsSpace(s[|s| - 1]) {
      TrimRightPrefix(s[..|s| - 1]);
    }
  }

  /** The result of `strip` is a slice of the input without surrounding whitespace. */
  lemma StripShape(s: string)
    ensures Stripped(Strip(s)) && |Strip(s)| <= |s|
    ensures exists i, j | 0 <= i <= j <= |s| :: Strip(s) == s[i..j]
  {
    var t := TrimLeft(s);
    TrimLeftSuffix(s);
    TrimRightPrefix(t);
    var u := TrimRight(t);
    assert u == s[|s| - |t|..][..|u|] == s[|s| - |t|..|s| - |t| + |u|];
    if u != [] {
      assert u[0] == t[0];
    }
  }

  /** Every character of `s` is whitespace. */
  predicate AllSpace(s: string) {
    forall k | 0 <= k < |s| :: IsSpace(s[k])
  }

  /** `t` is `s` without its leading and trailing whitespace: a slice of
      `s` that neither starts nor ends with whitespace, with only
      whitespace on either side of it. */
  predicate IsStripOf(s: string, t: string) {
    Stripped(t) && exists a: nat, b: nat | a <= b <= |s| :: FramedBy(s, t, a, b)
  }

  /** `t` is `s[a..b]`, with only whitespace before `a` and from `b` on. */
  predicate FramedBy(s: string, t: string, a: nat, b: nat) {
    a <= b <= |s| && t == s[a..b] && AllSpace(s[..a]) && AllSpace(s[b..])
  }

  /** What trimming on the left drops is whitespace. */
  lemma {:induction false} TrimLeftDrops(s: string)
    ensures |TrimLeft(s)| <= |s| && AllSpace(s[..|s| - |TrimLeft(s)|])
  {
    if s != [] && IsSpace(s[0]) {
      TrimLeftDrops(s[1..]);
      assert s[..|s| - |TrimLeft(s)|] == [s[0]] + s[1..][..|s| - 1 - |TrimLeft(s[1..])|];
    }
  }

  /** What trimming on the right drops is whitespace. */
  lemma {:induction false} TrimRightDrops(s: string)
    ensures |TrimRight(s)| <= |s| && AllSpace(s[|TrimRight(s)|..])
  {
    if s != [] && IsSpace(s[|s| - 1]) {
      var p := s[..|s| - 1];
      TrimRightDrops(p);
      assert s[|TrimRight(s)|..] == p[|TrimRight(p)|..] + [s[|s| - 1]];
    }
  }

  /** `strip` meets its characterisation. */
  lemma StripIsStripOf(s: string)
    ensures IsStripOf(s, Strip(s))
  {
    var t := TrimLeft(s);
    var u := Strip(s);
    TrimLeftSuffix(s);
    TrimLeftDrops(s);
    TrimRightPrefix(t);
    TrimRightDrops(t);
    StripShape(s);
    var a := |s| - |t|;
    var b := a + |u|;
    assert u == s[a..b];
    assert s[b..] == t[|u|..];
    assert FramedBy(s, u, a, b);
  }

  /** At most one string is the strip of `s`. */
  lemma StripOfUnique(s: string, t: string, u: string)
    requires IsStripOf(s, t) && IsStripOf(s, u)
    ensures t == u
  {
    var a: nat, b: nat :| FramedBy(s, t, a, b);
    var c: nat, d: nat :| FramedBy(s, u, c, d);
    FramedUnique(s, t, u, a, b, c, d);
  }

  lemma FramedUnique(s: string, t: string, u: string, a: nat, b: nat, c: nat, d: nat)
    requires Stripped(t) && Stripped(u) && FramedBy(s, t, a, b) && FramedBy(s, u, c, d)
    ensures t == u
  {
    if t == [] {
      NoneLeft(s, a, c, d, u);
    } else if u == [] {
      NoneLeft(s, c, a, b, t);
    } else {
      SliceEnds(s, a, b, t);
      SliceEnds(s, c, d, u);
      SameStart(s, a, c);
      SameEnd(s, b, d);
    }
  }

  lemma SliceEnds(s: string, a: nat, b: nat, t: string)
    requires a <= b <= |s| && t == s[a..b] && t != [] && Stripped(t)
    ensures a < b && !IsSpace(s[a]) && !IsSpace(s[b - 1])
  {
    assert s[a] == t[0] && s[b - 1] == t[|t| - 1];
  }

  /** Two whitespace prefixes each followed by a non-space character have
      the same length. */
  lemma SameStart(s: string, a: nat, c: nat)
    requires a < |s| && c < |s| && !IsSpace(s[a]) && !IsSpace(s[c])
    requires AllSpace(s[..a]) && AllSpace(s[..c])
    ensures a == c
  {
  }

  /** Two whitespace suffixes each preceded by a non-space character have
      the same length. */
  lemma SameEnd(s: string, b: nat, d: nat)
    requires 0 < b <= |s| && 0 < d <= |s| && !IsSpace(s[b - 1]) && !IsSpace(s[d - 1])
    requires AllSpace(s[b..]) && AllSpace(s[d..])
    ensures b == d
  {
  }

  /** When an empty slice sits between whitespace-only ends, no stripped
      slice of `s` framed by whitespace can be non-empty. */
  lemma NoneLeft(s: string, a: nat, c: nat, d: nat, u: string)
    requires a <= |s| && AllSpace(s[..a]) && AllSpace(s[a..])
    requires c <= d <= |s| && u == s[c..d] && Stripped(u)
    ensures u == []
  {
  }

  /** `strip` is exactly the removal of leading and trailing whitespace. */
  lemma StripExact(s: string, t: string)
    ensures t == Strip(s) <==> IsStripOf(s, t)
  {
    StripIsStripOf(s);
    if IsStripOf(s, t) {
      StripOfUnique(s, t, Strip(s));
    }
  }

  /** Stripping never introduces a character. */
  lemma StripKeepsOut(s: string, c: char)
    requires c !in s
    ensures c !in Strip(s)
  {
    StripShape(s);
  }

  /** Stripping a string that has no surrounding whitespace changes nothing. */
  lemma StripStripped(s: string)
    requires Stripped(s)
    ensures Strip(s) == s
  {
  }

  /** A leading space makes no difference to `strip`. */
  lemma StripSpacePrefix(s: string)
    ensures Strip(" " + s) == Strip(s)
  {
    var t := " " + s;
    assert IsSpace(t[0]) && t[1..] == s;
    assert TrimLeft(t) == TrimLeft(s);
  }

  // ---------------------------------------------------------------------
  // Decimal numbers
  // ---------------------------------------------------------------------

  function DigitChar(d: nat): char requires d < 10 { ('0' as int + d) as char }

  /** `str(n)` for a natural number: its decimal digits, no leading zero. */
  function NatToString(n: nat): string
    decreases n
  {
    if n < 10 then [DigitChar(n)] else NatToString(n / 10) + [DigitChar(n % 10)]
  }

  /** The value of a string of decimal digits. */
  function DigitsValue(s: string): nat
    requires forall i | 0 <= i < |s| :: IsDigit(s[i])
    decreases |s|
  {
    if s == [] then 0 else 10 * DigitsValue(s[..|s| - 1]) + DigitValue(s[|s| - 1])
  }

  /** `str(n)` is a non-empty string of digits, without a leading zero
      unless it is "0", and reading it back gives `n`. */
  lemma {:induction false} NatToStringRoundTrip(n: nat)
    ensures |NatToString(n)| >= 1
    ensures forall i | 0 <= i < |NatToString(n)| :: IsDigit(NatToString(n)[i])
    ensures DigitsValue(NatToString(n)) == n
    ensures NatToString(n)[0] == '0' ==> n == 0
    decreases n
  {
    if n >= 10 {
      NatToStringRoundTrip(n / 10);
      var s := NatToString(n);
      assert s[..|s| - 1] == NatToString(n / 10);
    }
  }

  // ---------------------------------------------------------------------
  // Searching
  // ---------------------------------------------------------------------

  /** `s.rfind(c)`: the last index holding `c`, or -1. */
  function LastIndexOf(s: string, c: char): (r: int)
    ensures -1 <= r < |s|
    ensures r >= 0 ==> s[r] == c
    ensures forall j | r < j < |s| :: s[j] != c
  {
    if s == [] then -1
    else if s[|s| - 1] == c then |s| - 1
    else LastIndexOf(s[..|s| - 1], c)
  }

  // ---------------------------------------------------------------------
  // POSIX paths
  // ---------------------------------------------------------------------

  /** `os.path.basename(p)`: everything after the last '/'. */
  function Basename(p: string): (r: string)
    ensures '/' !in r
    ensures |r| <= |p| && r == p[|p| - |r|..]
  {
    p[LastIndexOf(p, '/') + 1..]
  }

  /** True when some character strictly between `from` and `to` is not a dot. */
  predicate HasNonDot(p: string, from: int, to: int)
    requires -1 <= from && to <= |p|
  {
    exists j | from < j < to :: p[j] != '.'
  }

  /** `os.path.splitext(p)`: the extension starts at the last dot when that
      dot lies in the final path component and is not part of the leading
      dots of that component. */
  function SplitExt(p: string): (r: (string, string))
    ensures r.0 + r.1 == p
    ensures r.1 == [] || r.1[0] == '.'
  {
    var slash := LastIndexOf(p, '/');
    var dot := LastIndexOf(p, '.');
    if dot > slash && HasNonDot(p, slash, dot) then
      assert p[..dot] + p[dot..] == p;
      (p[..dot], p[dot..])
    else (p, "")
  }

  /** `os.path.join(root, name)` for two components. */
  function PathJoin(root: string, name: string): string {
    if StartsWith(name, "/") then name
    else if root == [] || root[|root| - 1] == '/' then root + name
    else root + "/" + name
  }
}
