/**
 * The Python string operations the two scripts rely on, each with Python's
 * semantics: `in`, `find`, `split`, `join`, `replace`, `strip`, `endswith`,
 * `str(int)` and `os.path.splitext`.
 */
module Text {
  import opened Wrappers

  /** `p` occurs in `s` starting at index `i`. */
  predicate OccursAt(s: string, p: string, i: nat) {
    i + |p| <= |s| && s[i..i + |p|] == p
  }

  /** Python's `p in s` for strings. */
  predicate Contains(s: string, p: string) {
    exists i: nat :: i <= |s| && OccursAt(s, p, i)
  }

  /** Occurrences in `s[1..]` are the occurrences in `s` shifted by one. */
  lemma ShiftOccurrences(s: string, p: string)
    requires |s| >= 1
    ensures forall j: nat :: OccursAt(s[1..], p, j) ==> OccursAt(s, p, j + 1)
    ensures forall j: nat :: j >= 1 && OccursAt(s, p, j) ==> OccursAt(s[1..], p, j - 1)
  {
    forall j: nat | OccursAt(s[1..], p, j) ensures OccursAt(s, p, j + 1) {
      assert s[1..][j..j + |p|] == s[j + 1..j + 1 + |p|];
    }
    forall j: nat | j >= 1 && OccursAt(s, p, j) ensures OccursAt(s[1..], p, j - 1) {
      assert s[1..][j - 1..j - 1 + |p|] == s[j..j + |p|];
    }
  }

  /** Python's `s.find(p)`: the first index at which `p` occurs (None for -1). */
  function Find(s: string, p: string): (r: Option<nat>)
    requires p != []
    ensures r.Some? ==> OccursAt(s, p, r.value)
    ensures r.Some? ==> forall j: nat :: j < r.value ==> !OccursAt(s, p, j)
    ensures r.None? <==> !Contains(s, p)
    decreases |s|
  {
    if |s| < |p| then None
    else if s[..|p|] == p then assert OccursAt(s, p, 0); Some(0)
    else
      ShiftOccurrences(s, p);
      match Find(s[1..], p)
      case None => None
      case Some(k) => Some(k + 1)
  }

  /** The text before the first occurrence of `p` contains no `p`. */
  lemma PrefixBeforeFirstIsFree(s: string, p: string, i: nat)
    requires p != [] && i <= |s|
    requires forall j: nat :: j < i ==> !OccursAt(s, p, j)
    ensures !Contains(s[..i], p)
  {
    forall j: nat ensures !OccursAt(s[..i], p, j) {
      if j + |p| <= i {
        assert s[..i][j..j + |p|] == s[j..j + |p|];
        assert !OccursAt(s, p, j);
      }
    }
  }

  /** Python's `s.split(sep)` for a non-empty separator. */
  function Split(s: string, sep: string): (r: seq<string>)
    requires sep != []
    ensures |r| >= 1
    ensures forall k :: 0 <= k < |r| ==> !Contains(r[k], sep)
    decreases |s|
  {
    match Find(s, sep)
    case None => [s]
    case Some(i) =>
      PrefixBeforeFirstIsFree(s, sep, i);
      [s[..i]] + Split(s[i + |sep|..], sep)
  }

  /** Python's `sep.join(fields)`. */
  function Join(fields: seq<string>, sep: string): string
    decreases |fields|
  {
    if |fields| == 0 then ""
    else if |fields| == 1 then fields[0]
    else fields[0] + sep + Join(fields[1..], sep)
  }

  /** Joining a field in front of at least one other puts the separator between them. */
  lemma JoinCons(field: string, fields: seq<string>, sep: string)
    requires |fields| >= 1
    ensures Join([field] + fields, sep) == field + sep + Join(fields, sep)
  {
    assert ([field] + fields)[1..] == fields;
  }

  /** A string is the text before an occurrence of `p`, then `p`, then the text after it. */
  lemma AroundOccurrence(s: string, p: string, i: nat)
    requires OccursAt(s, p, i)
    ensures s == s[..i] + p + s[i + |p|..]
  {
    assert s == s[..i] + s[i..i + |p|] + s[i + |p|..];
  }

  /** Joining the fields of a split with the same separator gives back the string. */
  lemma {:induction false} JoinSplit(s: string, sep: string)
    requires sep != []
    ensures Join(Split(s, sep), sep) == s
    decreases |s|
  {
    match Find(s, sep)
    case None =>
    case Some(i) =>
      var rest := s[i + |sep|..];
      var fields := Split(rest, sep);
      assert Split(s, sep) == [s[..i]] + fields;
      JoinSplit(rest, sep);
      JoinCons(s[..i], fields, sep);
      AroundOccurrence(s, sep, i);
  }

  /** No proper prefix of `p` is also a suffix of `p` (true of ", "). */
  predicate Borderless(p: string) {
    forall k :: 0 < k < |p| ==> p[..k] != p[|p| - k..]
  }

  /** Behind a field free of a borderless separator, the first occurrence is the separator itself. */
  lemma FindAfterFreeField(a: string, sep: string, b: string)
    requires sep != [] && Borderless(sep) && !Contains(a, sep)
    ensures Find(a + sep + b, sep) == Some(|a|)
  {
    var t := a + sep + b;
    assert t[|a|..|a| + |sep|] == sep;
    assert OccursAt(t, sep, |a|);
    forall j: nat | j < |a| ensures !OccursAt(t, sep, j) {
      if j + |sep| <= |a| {
        assert t[j..j + |sep|] == a[j..j + |sep|];
        assert !OccursAt(a, sep, j);
      } else {
        var k := |sep| - (|a| - j);
        assert 0 < k < |sep|;
        assert sep[..k] != sep[|sep| - k..];
      }
    }
  }

  /**
   * Splitting a join gives back the fields, when no field contains the separator
   * and the separator cannot overlap itself.
   */
  lemma {:induction false} SplitJoin(fields: seq<string>, sep: string)
    requires sep != [] && Borderless(sep) && |fields| >= 1
    requires forall k :: 0 <= k < |fields| ==> !Contains(fields[k], sep)
    ensures Split(Join(fields, sep), sep) == fields
    decreases |fields|
  {
    if |fields| > 1 {
      var rest := Join(fields[1..], sep);
      FindAfterFreeField(fields[0], sep, rest);
      var t := fields[0] + sep + rest;
      assert Join(fields, sep) == t;
      assert t[|fields[0]| + |sep|..] == rest && t[..|fields[0]|] == fields[0];
      assert Split(t, sep) == [fields[0]] + Split(rest, sep);
      SplitJoin(fields[1..], sep);
      assert fields == [fields[0]] + fields[1..];
    }
  }

  /** Python's `s.replace(target, replacement)` for a non-empty `target`: `replacement.join(s.split(target))`. */
  function ReplaceAll(s: string, target: string, replacement: string): string
    requires target != []
  {
    Join(Split(s, target), replacement)
  }

  /** Replacing a string that does not occur changes nothing. */
  lemma ReplaceAbsent(s: string, target: string, replacement: string)
    requires target != [] && !Contains(s, target)
    ensures ReplaceAll(s, target, replacement) == s
  {
  }

  /** A code fence. */
  const Fence: string := "```"

  /** The opening of a fenced Markdown block. */
  const MarkdownFence: string := "```markdown"

  /**
   * The cleaning that the summary note receives: every "```markdown" removed,
   * then every "```" removed.
   */
  function StripFences(s: string): string {
    ReplaceAll(ReplaceAll(s, MarkdownFence, ""), Fence, "")
  }

  /** Gluing two fence-free strings leaves none when the first does not end in a backtick. */
  lemma GlueFenceFree(a: string, b: string)
    requires !Contains(a, Fence) && !Contains(b, Fence)
    requires a == [] || a[|a| - 1] != '`'
    ensures !Contains(a + b, Fence)
  {
    var t := a + b;
    forall j: nat ensures !OccursAt(t, Fence, j) {
      if j + 3 <= |t| {
        if j + 3 <= |a| {
          assert t[j..j + 3] == a[j..j + 3];
          assert !OccursAt(a, Fence, j);
        } else if j >= |a| {
          assert t[j..j + 3] == b[j - |a|..j - |a| + 3];
          assert !OccursAt(b, Fence, j - |a|);
        } else {
          assert t[j..j + 3][|a| - 1 - j] == a[|a| - 1] != Fence[|a| - 1 - j];
        }
      }
    }
  }

  /** Removing every "```" leaves no "```" behind, even where removals bring backticks together. */
  lemma {:induction false} RemovingFencesLeavesNone(s: string)
    ensures !Contains(ReplaceAll(s, Fence, ""), Fence)
    decreases |s|
  {
    match Find(s, Fence)
    case None =>
    case Some(i) =>
      var rest := s[i + 3..];
      var done := ReplaceAll(rest, Fence, "");
      assert ReplaceAll(s, Fence, "") == s[..i] + done by {
        var fields := Split(rest, Fence);
        assert Split(s, Fence) == [s[..i]] + fields;
        JoinCons(s[..i], fields, "");
      }
      assert !Contains(done, Fence) by {
        RemovingFencesLeavesNone(rest);
      }
      assert !Contains(s[..i], Fence) by {
        PrefixBeforeFirstIsFree(s, Fence, i);
      }
      assert i == 0 || s[..i][i - 1] != '`' by {
        if i > 0 {
          BeforeFirstFence(s, i);
        }
      }
      GlueFenceFree(s[..i], done);
  }

  /** The character just before the first "```" is not a backtick. */
  lemma BeforeFirstFence(s: string, i: nat)
    requires 0 < i && OccursAt(s, Fence, i) && !OccursAt(s, Fence, i - 1)
    ensures s[i - 1] != '`'
  {
    assert |Fence| == 3 && s[i..i + 3] == Fence;
    assert s[i] == Fence[0] == '`' && s[i + 1] == Fence[1] == '`';
    assert s[i - 1..i + 2] == [s[i - 1], s[i], s[i + 1]];
  }

  /** A summary note never contains a code fence. */
  lemma StripFencesLeavesNoFence(s: string)
    ensures !Contains(StripFences(s), Fence)
  {
    RemovingFencesLeavesNone(ReplaceAll(s, MarkdownFence, ""));
  }

  /** A text without code fences passes the cleaning unchanged. */
  lemma StripFencesKeepsPlainText(s: string)
    ensures !Contains(s, Fence) ==> StripFences(s) == s
  {
    if !Contains(s, Fence) {
      assert |MarkdownFence| == 11 && MarkdownFence[..3] == Fence;
      forall j: nat ensures !OccursAt(s, MarkdownFence, j) {
        if j + 11 <= |s| {
          assert s[j..j + 3] == s[j..j + 11][..3];
          assert !OccursAt(s, Fence, j);
        }
      }
      ReplaceAbsent(s, MarkdownFence, "");
      ReplaceAbsent(s, Fence, "");
    }
  }

  /** Python's `str.isspace()` for one character. */
  predicate IsSpace(c: char) {
    ('\t' <= c <= '\r') || ('\U{1C}' <= c <= '\U{20}') || c == '\U{85}' || c == '\U{A0}'
    || c == '\U{1680}' || ('\U{2000}' <= c <= '\U{200A}') || c == '\U{2028}' || c == '\U{2029}'
    || c == '\U{202F}' || c == '\U{205F}' || c == '\U{3000}'
  }

  /** Python's `s.lstrip()`. */
  function StripLeading(s: string): (r: string)
    ensures |r| <= |s| && r == s[|s| - |r|..]
    ensures forall k :: 0 <= k < |s| - |r| ==> IsSpace(s[k])
    ensures r == [] || !IsSpace(r[0])
    decreases |s|
  {
    if s != [] && IsSpace(s[0]) then StripLeading(s[1..]) else s
  }

  /** Python's `s.rstrip()`. */
  function StripTrailing(s: string): (r: string)
    ensures |r| <= |s| && r == s[..|r|]
    ensures forall k :: |r| <= k < |s| ==> IsSpace(s[k])
    ensures r == [] || !IsSpace(r[|r| - 1])
    decreases |s|
  {
    if s != [] && IsSpace(s[|s| - 1]) then StripTrailing(s[..|s| - 1]) else s
  }

  /** `r` is `s[i..]` cut short, with only whitespace of `s` before and after it. */
  predicate StrippedAt(s: string, r: string, i: int) {
    0 <= i <= |s| - |r| && r == s[i..i + |r|]
    && (forall k :: 0 <= k < i ==> IsSpace(s[k]))
    && (forall k :: i + |r| <= k < |s| ==> IsSpace(s[k]))
  }

  /** Stripping the leading, then the trailing whitespace leaves an infix with only whitespace around it. */
  lemma StripBothEnds(s: string)
    ensures StrippedAt(s, StripTrailing(StripLeading(s)), |s| - |StripLeading(s)|)
  {
    var left := StripLeading(s);
    var r := StripTrailing(left);
    var i := |s| - |left|;
    assert r == s[i..i + |r|];
    assert forall k :: 0 <= k < i ==> IsSpace(s[k]);
    forall k | i + |r| <= k < |s|
      ensures IsSpace(s[k])
    {
      assert s[k] == left[k - i];
    }
    assert StrippedAt(s, r, i);
  }

  /** Python's `s.strip()`: the infix of `s` left after removing surrounding whitespace. */
  function Strip(s: string): (r: string)
    ensures r == [] || (!IsSpace(r[0]) && !IsSpace(r[|r| - 1]))
    ensures exists i :: StrippedAt(s, r, i)
    ensures (s == [] || (!IsSpace(s[0]) && !IsSpace(s[|s| - 1]))) ==> r == s
  {
    StripBothEnds(s);
    StripTrailing(StripLeading(s))
  }

  /** Python's `s.endswith(suffix)`. */
  predicate EndsWith(s: string, suffix: string) {
    |suffix| <= |s| && s[|s| - |suffix|..] == suffix
  }

  /** The decimal digit character for `d`. */
  function DigitChar(d: nat): (c: char)
    requires d < 10
    ensures '0' <= c <= '9' && (c as int) - ('0' as int) == d
  {
    ['0', '1', '2', '3', '4', '5', '6', '7', '8', '9'][d]
  }

  /** Python's `str(n)` for a natural number: its decimal digits without leading zeros. */
  function NatToString(n: nat): (r: string)
    ensures |r| >= 1
    ensures forall k :: 0 <= k < |r| ==> '0' <= r[k] <= '9'
    ensures |r| > 1 ==> r[0] != '0'
    decreases n
  {
    if n < 10 then [DigitChar(n)] else NatToString(n / 10) + [DigitChar(n % 10)]
  }

  /** The number a string of decimal digits denotes (Python's `int(s)` on digits). */
  function DigitsValue(s: string): nat
    requires forall k :: 0 <= k < |s| ==> '0' <= s[k] <= '9'
    decreases |s|
  {
    if s == [] then 0
    else DigitsValue(s[..|s| - 1]) * 10 + ((s[|s| - 1] as int) - ('0' as int))
  }

  /** Reading back the decimal text of a number gives the number. */
  lemma {:induction false} NatToStringRoundTrip(n: nat)
    ensures DigitsValue(NatToString(n)) == n
    decreases n
  {
    var r := NatToString(n);
    if n >= 10 {
      NatToStringRoundTrip(n / 10);
      assert r[..|r| - 1] == NatToString(n / 10);
    }
  }

  function Pow10(m: nat): (r: nat)
    ensures r >= 1
  {
    if m == 0 then 1 else 10 * Pow10(m - 1)
  }

  /** A number of at least `10^m` has more than `m` digits. */
  lemma {:induction false} LongNumeral(n: nat, m: nat)
    requires n >= Pow10(m)
    ensures |NatToString(n)| > m
    decreases m
  {
    if m > 0 {
      LongNumeral(n / 10, m - 1);
    }
  }

  /** Python's `s.rfind(c)` for one character: the last index holding `c`, or -1. */
  function RFind(s: string, c: char): (r: int)
    ensures -1 <= r < |s|
    ensures r >= 0 ==> s[r] == c
    ensures forall k :: r < k < |s| ==> s[k] != c
    decreases |s|
  {
    if s == [] then -1
    else if s[|s| - 1] == c then |s| - 1
    else RFind(s[..|s| - 1], c)
  }

  /**
   * Python's `os.path.splitext(p)` on POSIX: the extension starts at the last dot of
   * the last path component, provided that component has a non-dot character before it.
   */
  function SplitExt(p: string): (r: (string, string))
    ensures r.0 + r.1 == p
    ensures r.1 == [] || (r.1[0] == '.' && forall k :: 1 <= k < |r.1| ==> r.1[k] != '.' && r.1[k] != '/')
    ensures r.1 != [] ==> exists k :: 0 <= k < |r.0| && r.0[k] != '.' && r.0[k] != '/'
    ensures RFind(p, '.') == -1 ==> r == (p, "")
    ensures r.1 != [] <==> RFind(p, '/') < RFind(p, '.') && exists k :: RFind(p, '/') < k < RFind(p, '.') && p[k] != '.'
    ensures r.1 != [] ==> r == (p[..RFind(p, '.')], p[RFind(p, '.')..])
  {
    var sepIndex := RFind(p, '/');
    var dotIndex := RFind(p, '.');
    if dotIndex > sepIndex && exists k :: sepIndex < k < dotIndex && p[k] != '.'
    then (p[..dotIndex], p[dotIndex..])
    else (p, "")
  }
}
