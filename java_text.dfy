/** The parts of `java.lang.String` and `java.util.regex` that the pipeline
    relies on, stated over sequences of Unicode code points. */
module JavaText {

  /** `\s` in a `java.util.regex.Pattern` without UNICODE_CHARACTER_CLASS:
      space, tab, line feed, vertical tab, form feed and carriage return. */
  predicate IsRegexSpace(c: char) {
    c == ' ' || c == '\t' || c == '\n' || c == '\r' || c as int == 0x0B || c as int == 0x0C
  }

  /** The characters `String.trim()` removes: every code point up to U+0020. */
  predicate IsTrimmable(c: char) {
    c as int <= 0x20
  }

  /** `Character.isWhitespace`: the Unicode space, line and paragraph
      separators other than the no-break spaces, and the ASCII controls
      U+0009..U+000D and U+001C..U+001F. */
  predicate IsJavaWhitespace(c: char) {
    var n := c as int;
    (0x09 <= n <= 0x0D) || (0x1C <= n <= 0x20) || n == 0x1680
    || (0x2000 <= n <= 0x2006) || (0x2008 <= n <= 0x200A)
    || n == 0x2028 || n == 0x2029 || n == 0x205F || n == 0x3000
  }

  /** `String.isBlank()`: empty or only whitespace. */
  predicate IsBlank(s: string) {
    forall i :: 0 <= i < |s| ==> IsJavaWhitespace(s[i])
  }

  /** `String.length()`: the number of UTF-16 code units, so a character
      outside the Basic Multilingual Plane (an emoji) counts twice. */
  function Utf16Length(s: string): (n: nat)
    ensures |s| <= n <= 2 * |s|
  {
    if s == [] then 0
    else Utf16Length(s[..|s| - 1]) + (if s[|s| - 1] as int >= 0x10000 then 2 else 1)
  }

  lemma {:induction false} Utf16LengthAppend(a: string, b: string)
    ensures Utf16Length(a + b) == Utf16Length(a) + Utf16Length(b)
    decreases |b|
  {
    if b == [] {
      assert a + b == a;
    } else {
      var b' := b[..|b| - 1];
      assert (a + b)[..|a + b| - 1] == a + b';
      Utf16LengthAppend(a, b');
    }
  }

  /** `s` starts with `p`. */
  predicate StartsWith(s: string, p: string) {
    |p| <= |s| && s[..|p|] == p
  }

  /** `s` ends with `p`. */
  predicate EndsWith(s: string, p: string) {
    |p| <= |s| && s[|s| - |p|..] == p
  }

  /** `s` has an occurrence of `p` starting at index `i`. */
  predicate OccursAt(s: string, p: string, i: nat) {
    i + |p| <= |s| && s[i..i + |p|] == p
  }

  /** `String.indexOf(p)` from index `from`: the first index at or after
      `from` where `p` occurs, or -1. */
  function IndexOfFrom(s: string, p: string, from: nat): (r: int)
    ensures r == -1 || (from <= r && OccursAt(s, p, r))
    ensures r == -1 ==> forall i :: from <= i <= |s| ==> !OccursAt(s, p, i)
    ensures r != -1 ==> forall i :: from <= i < r ==> !OccursAt(s, p, i)
    decreases |s| - from
  {
    if from > |s| then -1
    else if OccursAt(s, p, from) then from
    else IndexOfFrom(s, p, from + 1)
  }

  /** `String.contains(p)`. */
  predicate Contains(s: string, p: string) {
    IndexOfFrom(s, p, 0) != -1
  }

  lemma ContainsIff(s: string, p: string)
    ensures Contains(s, p) <==> exists i :: 0 <= i <= |s| && OccursAt(s, p, i)
  {
  }

  /** `String.replace(target, replacement)`: every occurrence of `target`,
      taken left to right without overlap, is replaced. */
  function ReplaceAll(s: string, target: string, replacement: string): string
    requires |target| > 0
  {
    if |s| < |target| then s
    else if s[..|target|] == target then replacement + ReplaceAll(s[|target|..], target, replacement)
    else [s[0]] + ReplaceAll(s[1..], target, replacement)
  }

  /** A string with no occurrence of the target is left as it is. */
  lemma {:induction false} ReplaceAllAbsent(s: string, target: string, replacement: string)
    requires |target| > 0
    requires forall i :: 0 <= i <= |s| ==> !OccursAt(s, target, i)
    ensures ReplaceAll(s, target, replacement) == s
  {
    if |s| >= |target| {
      assert !OccursAt(s, target, 0);
      assert s[..|target|] != target;
      forall i | 0 <= i <= |s[1..]|
        ensures !OccursAt(s[1..], target, i)
      {
        assert !OccursAt(s, target, i + 1);
        if i + |target| <= |s[1..]| {
          assert s[1..][i..i + |target|] == s[i + 1..i + 1 + |target|];
        }
      }
      ReplaceAllAbsent(s[1..], target, replacement);
      assert [s[0]] + s[1..] == s;
    }
  }

  /** An occurrence that no earlier occurrence overlaps is replaced, and
      replacing continues after it. */
  lemma {:induction false} ReplaceAllFirst(x: string, target: string, replacement: string, y: string)
    requires |target| > 0
    requires forall i :: 0 <= i < |x| ==> !OccursAt(x + target + y, target, i)
    ensures ReplaceAll(x + target + y, target, replacement) == x + replacement + ReplaceAll(y, target, replacement)
  {
    var s := x + target + y;
    if x == [] {
      assert s == target + y;
      assert s[..|target|] == target;
      assert s[|target|..] == y;
    } else {
      assert !OccursAt(s, target, 0);
      assert s[..|target|] != target;
      assert s[1..] == x[1..] + target + y;
      forall i | 0 <= i < |x[1..]|
        ensures !OccursAt(x[1..] + target + y, target, i)
      {
        assert !OccursAt(s, target, i + 1);
        assert s[1..][i..i + |target|] == s[i + 1..i + 1 + |target|];
      }
      ReplaceAllFirst(x[1..], target, replacement, y);
      assert [s[0]] + (x[1..] + replacement + ReplaceAll(y, target, replacement))
          == x + replacement + ReplaceAll(y, target, replacement);
    }
  }

  /** The first index at or after `i` whose character `trim()` keeps, or `|s|`. */
  function TrimStartIndex(s: string, i: nat): (a: nat)
    requires i <= |s|
    ensures i <= a <= |s|
    ensures forall k :: i <= k < a ==> IsTrimmable(s[k])
    ensures a == |s| || !IsTrimmable(s[a])
    decreases |s| - i
  {
    if i < |s| && IsTrimmable(s[i]) then TrimStartIndex(s, i + 1) else i
  }

  /** The end of `s[lo..j]` once trailing characters up to U+0020 are dropped. */
  function TrimEndIndex(s: string, lo: nat, j: nat): (b: nat)
    requires lo <= j <= |s|
    ensures lo <= b <= j
    ensures forall k :: b <= k < j ==> IsTrimmable(s[k])
    ensures b == lo || !IsTrimmable(s[b - 1])
    decreases j - lo
  {
    if lo < j && IsTrimmable(s[j - 1]) then TrimEndIndex(s, lo, j - 1) else j
  }

  /** `s` neither starts nor ends with a character `trim()` removes. */
  predicate IsTrimmed(s: string) {
    s == [] || (!IsTrimmable(s[0]) && !IsTrimmable(s[|s| - 1]))
  }

  /** How many characters `trim()` removes at the front of `s`. */
  function TrimOffset(s: string): nat
    ensures TrimOffset(s) <= |s|
  {
    TrimStartIndex(s, 0)
  }

  /** `String.trim()`: the middle of `s` between the characters up to
      U+0020 at either end. */
  function Trim(s: string): (r: string)
    ensures IsTrimmed(r)
    ensures TrimOffset(s) + |r| <= |s| && r == s[TrimOffset(s)..TrimOffset(s) + |r|]
    ensures forall i :: 0 <= i < TrimOffset(s) ==> IsTrimmable(s[i])
    ensures forall i :: TrimOffset(s) + |r| <= i < |s| ==> IsTrimmable(s[i])
  {
    var a := TrimStartIndex(s, 0);
    var b := TrimEndIndex(s, a, |s|);
    s[a..b]
  }

  /** `r` is what is left of `s` after removing `TrimOffset(s)` characters
      at the front and some at the back. */
  predicate IsTrimMiddle(r: string, s: string) {
    TrimOffset(s) + |r| <= |s| && r == s[TrimOffset(s)..TrimOffset(s) + |r|]
  }

  lemma TrimIsMiddle(s: string)
    ensures IsTrimMiddle(Trim(s), s)
  { }

  lemma TrimOfTrimmed(s: string)
    requires IsTrimmed(s)
    ensures Trim(s) == s
  {
    if s != [] {
      assert TrimStartIndex(s, 0) == 0;
      assert TrimEndIndex(s, 0, |s|) == |s|;
    }
  }

  /** A string that ends with a character `trim()` keeps loses only its
      leading characters up to U+0020. */
  lemma TrimOfKeptEnd(s: string)
    requires s != [] && !IsTrimmable(s[|s| - 1])
    ensures Trim(s) == s[TrimOffset(s)..]
  {
  }

  /** A suffix made of characters `trim()` keeps survives trimming. */
  lemma TrimKeepsSuffix(s: string, suffix: string)
    requires suffix != [] && EndsWith(s, suffix)
    requires forall i :: 0 <= i < |suffix| ==> !IsTrimmable(suffix[i])
    ensures Trim(s) == s[TrimOffset(s)..] && EndsWith(Trim(s), suffix)
  {
    var e := |s| - |suffix|;
    assert s[e] == suffix[0] && s[|s| - 1] == suffix[|suffix| - 1];
    TrimOfKeptEnd(s);
    var o, r := TrimOffset(s), Trim(s);
    assert !IsTrimmable(s[e]);
    assert o <= e;
    assert r == s[o..];
    assert r[|r| - |suffix|..] == s[e..] by {
      assert |r| - |suffix| == e - o;
    }
  }

  /** ASCII letters compared without case; every other character exactly. */
  function AsciiLower(c: char): char {
    if 'A' <= c <= 'Z' then (c as int + 32) as char else c
  }

  /** `String.equalsIgnoreCase`, with case folding limited to ASCII letters. */
  predicate EqualsIgnoreCase(a: string, b: string) {
    |a| == |b| && forall i :: 0 <= i < |a| ==> AsciiLower(a[i]) == AsciiLower(b[i])
  }

  /** Against a word without ASCII letters, ignoring case is plain equality. */
  lemma EqualsIgnoreCaseCaseless(a: string, w: string)
    requires forall i :: 0 <= i < |w| ==> !('A' <= w[i] <= 'Z') && !('a' <= w[i] <= 'z')
    ensures EqualsIgnoreCase(a, w) <==> a == w
  {
    if EqualsIgnoreCase(a, w) {
      forall i | 0 <= i < |a|
        ensures a[i] == w[i]
      {
        assert AsciiLower(a[i]) == AsciiLower(w[i]);
      }
    }
  }
}
