/** The handful of JavaScript string operations the application relies on:
    `trim`, `toLowerCase`, `includes`, `split`, `join`, `padStart` and the
    decimal rendering of numbers (`toString`, template literals). */
module Strings {

  import opened Optional

  /** `needle` occurs in `hay` at position `k`. */
  predicate OccursAt(hay: string, needle: string, k: int)
  {
    0 <= k && k + |needle| <= |hay| && hay[k..k + |needle|] == needle
  }

  // ---------------------------------------------------------------------------
  // String.prototype.trim
  // ---------------------------------------------------------------------------

  /** ECMAScript WhiteSpace and LineTerminator code points, the set that
      `trim` removes from both ends of a string. */
  predicate IsWhitespace(c: char)
  {
    || ('\U{0009}' <= c <= '\U{000D}')
    || c == '\U{0020}' || c == '\U{00A0}' || c == '\U{1680}'
    || ('\U{2000}' <= c <= '\U{200A}')
    || c == '\U{2028}' || c == '\U{2029}' || c == '\U{202F}' || c == '\U{205F}'
    || c == '\U{3000}' || c == '\U{FEFF}'
  }

  /** The first position at or after `i` that is not whitespace, or `|s|`. */
  function SkipLeading(s: string, i: nat): (k: nat)
    requires i <= |s|
    ensures i <= k <= |s|
    ensures forall m :: i <= m < k ==> IsWhitespace(s[m])
    ensures k == |s| || !IsWhitespace(s[k])
    decreases |s| - i
  {
    if i == |s| || !IsWhitespace(s[i]) then i else SkipLeading(s, i + 1)
  }

  /** The end of `s[lo..j]` once its trailing whitespace is dropped. */
  function SkipTrailing(s: string, lo: nat, j: nat): (k: nat)
    requires lo <= j <= |s|
    ensures lo <= k <= j
    ensures forall m :: k <= m < j ==> IsWhitespace(s[m])
    ensures k == lo || !IsWhitespace(s[k - 1])
  {
    if j == lo || !IsWhitespace(s[j - 1]) then j else SkipTrailing(s, lo, j - 1)
  }

  /** `s[i..j]` is what is left of `s` once whitespace is removed from both
      ends: everything outside it is whitespace, and it neither starts nor
      ends with whitespace. */
  predicate TrimmedAt(s: string, i: int, j: int)
  {
    && 0 <= i <= j <= |s|
    && (forall k :: 0 <= k < i ==> IsWhitespace(s[k]))
    && (forall k :: j <= k < |s| ==> IsWhitespace(s[k]))
    && (i == j || (!IsWhitespace(s[i]) && !IsWhitespace(s[j - 1])))
  }

  /** `s.trim()`: the contiguous middle of `s` left after removing whitespace
      from both ends. */
  function Trim(s: string): (r: string)
    ensures exists i, j :: TrimmedAt(s, i, j) && r == s[i..j]
    ensures r == [] || (!IsWhitespace(r[0]) && !IsWhitespace(r[|r| - 1]))
  {
    var i := SkipLeading(s, 0);
    var j := SkipTrailing(s, i, |s|);
    assert TrimmedAt(s, i, j);
    s[i..j]
  }

  /** A string with no whitespace at either end is left alone by `trim`. */
  lemma TrimOfTrimmed(s: string)
    requires s == [] || (!IsWhitespace(s[0]) && !IsWhitespace(s[|s| - 1]))
    ensures Trim(s) == s
  {
    TrimUnique(s, 0, |s|);
  }

  /** Where `trim` cuts: the bounds of the slice it keeps. */
  lemma TrimSlice(s: string) returns (i: int, j: int)
    ensures TrimmedAt(s, i, j) && Trim(s) == s[i..j]
  {
    i := SkipLeading(s, 0);
    j := SkipTrailing(s, i, |s|);
  }

  /** Only one slice of a string is its trimmed middle. */
  lemma TrimmedAtUnique(s: string, i: int, j: int, i2: int, j2: int)
    requires TrimmedAt(s, i, j) && TrimmedAt(s, i2, j2)
    ensures s[i..j] == s[i2..j2]
  {
    if i == j {
      assert forall k :: 0 <= k < |s| ==> IsWhitespace(s[k]);
      assert i2 == j2;
    } else {
      assert i2 <= i && j <= j2;
      assert i2 != j2;
      assert i <= i2 && j2 <= j;
    }
  }

  /** The description in `Trim`'s contract fixes the result. */
  lemma TrimUnique(s: string, i: int, j: int)
    requires TrimmedAt(s, i, j)
    ensures Trim(s) == s[i..j]
  {
    var i2, j2 := TrimSlice(s);
    TrimmedAtUnique(s, i, j, i2, j2);
  }

  /** Padding a string with whitespace moves its trimmed middle along. */
  lemma PaddedTrimmedAt(pre: string, s: string, post: string, i: int, j: int)
    requires forall k :: 0 <= k < |pre| ==> IsWhitespace(pre[k])
    requires forall k :: 0 <= k < |post| ==> IsWhitespace(post[k])
    requires TrimmedAt(s, i, j)
    ensures TrimmedAt(pre + s + post, |pre| + i, |pre| + j)
    ensures (pre + s + post)[|pre| + i..|pre| + j] == s[i..j]
  {
    var t := pre + s + post;
    var n := |pre|;
    forall k | 0 <= k < n + i ensures IsWhitespace(t[k]) {
      if k < n { assert t[k] == pre[k]; } else { assert t[k] == s[k - n]; }
    }
    forall k | n + j <= k < |t| ensures IsWhitespace(t[k]) {
      if k < n + |s| { assert t[k] == s[k - n]; } else { assert t[k] == post[k - n - |s|]; }
    }
    if i != j {
      assert t[n + i] == s[i] && t[n + j - 1] == s[j - 1];
    }
    assert t[n + i..n + j] == s[i..j];
  }

  /** `trim` of a padded string is the trimmed middle of the original. */
  lemma PaddedTrim(pre: string, s: string, post: string, i: int, j: int)
    requires forall k :: 0 <= k < |pre| ==> IsWhitespace(pre[k])
    requires forall k :: 0 <= k < |post| ==> IsWhitespace(post[k])
    requires TrimmedAt(s, i, j)
    ensures Trim(pre + s + post) == s[i..j]
  {
    PaddedTrimmedAt(pre, s, post, i, j);
    TrimUnique(pre + s + post, |pre| + i, |pre| + j);
  }

  /** Whitespace added around a string disappears again under `trim`. */
  lemma TrimIgnoresPadding(pre: string, s: string, post: string)
    requires forall k :: 0 <= k < |pre| ==> IsWhitespace(pre[k])
    requires forall k :: 0 <= k < |post| ==> IsWhitespace(post[k])
    ensures Trim(pre + s + post) == Trim(s)
  {
    var i, j := TrimSlice(s);
    PaddedTrim(pre, s, post, i, j);
  }

  /** `trim` leaves nothing exactly when the string is all whitespace. */
  lemma TrimEmptyIffBlank(s: string)
    ensures Trim(s) == [] <==> forall k :: 0 <= k < |s| ==> IsWhitespace(s[k])
  {
    var i, j := TrimSlice(s);
    if Trim(s) == [] {
      assert i == j;
    } else {
      assert !IsWhitespace(s[i]);
    }
  }

  /** Trimming twice is trimming once. */
  lemma TrimIdempotent(s: string)
    ensures Trim(Trim(s)) == Trim(s)
  {
    TrimOfTrimmed(Trim(s));
  }

  // ---------------------------------------------------------------------------
  // String.prototype.toLowerCase (ASCII letters)
  // ---------------------------------------------------------------------------

  predicate IsUpper(c: char) { 'A' <= c <= 'Z' }

  function LowerChar(c: char): (d: char)
    ensures !IsUpper(d)
    ensures IsWhitespace(d) <==> IsWhitespace(c)
    ensures !IsUpper(c) ==> d == c
  {
    if IsUpper(c) then (c as int - 'A' as int + 'a' as int) as char else c
  }

  /** `s.toLowerCase()` restricted to the ASCII letters. */
  function ToLower(s: string): (r: string)
    ensures |r| == |s|
    ensures forall i :: 0 <= i < |s| ==> r[i] == LowerChar(s[i])
  {
    if s == [] then [] else [LowerChar(s[0])] + ToLower(s[1..])
  }

  /** Lower-casing keeps whitespace where it is, so it commutes with `trim`. */
  lemma LowerCommutesWithTrim(s: string)
    ensures Trim(ToLower(s)) == ToLower(Trim(s))
  {
    var i, j := TrimSlice(s);
    var l := ToLower(s);
    forall k | 0 <= k < |s| ensures IsWhitespace(l[k]) <==> IsWhitespace(s[k]) {
      assert l[k] == LowerChar(s[k]);
    }
    assert TrimmedAt(l, i, j);
    assert l[i..j] == ToLower(s[i..j]);
    TrimUnique(l, i, j);
  }

  /** Lower-casing twice is lower-casing once. */
  lemma ToLowerIdempotent(s: string)
    ensures ToLower(ToLower(s)) == ToLower(s)
  {
  }

  // ---------------------------------------------------------------------------
  // String.prototype.includes
  // ---------------------------------------------------------------------------

  /** `hay.includes(needle)`, computed by trying each start position. */
  function Includes(hay: string, needle: string): (b: bool)
    ensures b <==> exists k :: OccursAt(hay, needle, k)
    decreases |hay|
  {
    if |needle| > |hay| then
      assert forall k :: !OccursAt(hay, needle, k);
      false
    else if hay[..|needle|] == needle then
      assert OccursAt(hay, needle, 0);
      true
    else
      var rest := Includes(hay[1..], needle);
      if rest then
        var k :| OccursAt(hay[1..], needle, k);
        assert hay[1..][k..k + |needle|] == hay[k + 1..k + 1 + |needle|];
        assert OccursAt(hay, needle, k + 1);
        true
      else
        assert forall k :: OccursAt(hay, needle, k) ==> OccursAt(hay[1..], needle, k - 1) by {
          forall k | OccursAt(hay, needle, k) ensures OccursAt(hay[1..], needle, k - 1) {
            OccursLater(hay, needle, k);
          }
        }
        false
  }

  /** An occurrence that is not a prefix is an occurrence in the tail. */
  lemma OccursLater(hay: string, needle: string, k: int)
    requires OccursAt(hay, needle, k) && hay[..|needle|] != needle
    ensures OccursAt(hay[1..], needle, k - 1)
  {
    assert hay[1..][k - 1..k - 1 + |needle|] == hay[k..k + |needle|];
  }

  // ---------------------------------------------------------------------------
  // Decimal rendering and parsing of numbers
  // ---------------------------------------------------------------------------

  predicate IsDigit(c: char) { '0' <= c <= '9' }

  predicate AllDigits(s: string) { forall i :: 0 <= i < |s| ==> IsDigit(s[i]) }

  function DigitChar(d: nat): (c: char)
    requires d < 10
    ensures IsDigit(c)
  {
    ('0' as int + d) as char
  }

  function DigitValue(c: char): (d: nat)
    requires IsDigit(c)
    ensures d < 10 && DigitChar(d) == c
  {
    c as int - '0' as int
  }

  /** The value of a string of decimal digits (the empty string reads as 0). */
  function ParseDecimal(s: string): nat
    requires AllDigits(s)
  {
    if s == [] then 0 else ParseDecimal(s[..|s| - 1]) * 10 + DigitValue(s[|s| - 1])
  }

  /** `n.toString()` for a non-negative integer: the shortest decimal digit
      string, which reads back as `n`. */
  function NatToDecimal(n: nat): (s: string)
    ensures |s| >= 1 && AllDigits(s)
    ensures s[0] == '0' ==> n == 0 && s == "0"
    ensures ParseDecimal(s) == n
  {
    if n < 10 then [DigitChar(n)]
    else
      var p := NatToDecimal(n / 10);
      var s := p + [DigitChar(n % 10)];
      assert s[..|s| - 1] == p;
      s
  }

  /** Rendering is injective: distinct numbers give distinct strings. */
  lemma NatToDecimalInjective(m: nat, n: nat)
    requires NatToDecimal(m) == NatToDecimal(n)
    ensures m == n
  {
  }

  /** The number of decimal digits of `n` is fixed by its magnitude. */
  lemma {:induction false} DecimalLength(n: nat, k: nat)
    requires k >= 1
    ensures (Pow10(k - 1) <= n < Pow10(k)) ==> |NatToDecimal(n)| == k
  {
    if Pow10(k - 1) <= n < Pow10(k) && n >= 10 {
      assert k >= 2;
      DecimalLength(n / 10, k - 1);
    }
  }

  function Pow10(k: nat): (p: nat)
    ensures p >= 1
  {
    if k == 0 then 1 else 10 * Pow10(k - 1)
  }

  /** `String(i)` for any integer: a minus sign before the magnitude when
      negative. */
  function IntToDecimal(i: int): (s: string)
    ensures |s| >= 1
    ensures i < 0 <==> s[0] == '-'
    ensures i >= 0 ==> s == NatToDecimal(i)
    ensures i < 0 ==> s[1..] == NatToDecimal(-i)
  {
    if i < 0 then "-" + NatToDecimal(-i) else NatToDecimal(i)
  }

  /** `s.padStart(width, fill)`: `fill` repeated on the left up to `width`. */
  function PadStart(s: string, width: nat, fill: char): (r: string)
    ensures |s| >= width ==> r == s
    ensures |s| < width ==> |r| == width
    ensures r[|r| - |s|..] == s
    ensures forall i :: 0 <= i < |r| - |s| ==> r[i] == fill
  {
    if |s| >= width then s else seq(width - |s|, _ => fill) + s
  }

  // ---------------------------------------------------------------------------
  // Array.prototype.join('') and String.prototype.split(sep)
  // ---------------------------------------------------------------------------

  /** `parts.join('')`. */
  function Concat(parts: seq<string>): string
  {
    if parts == [] then [] else parts[0] + Concat(parts[1..])
  }

  /** Joining two runs of parts is joining each and concatenating. */
  lemma {:induction false} ConcatAppend(a: seq<string>, b: seq<string>)
    ensures Concat(a + b) == Concat(a) + Concat(b)
  {
    if a != [] {
      assert (a + b)[1..] == a[1..] + b;
      ConcatAppend(a[1..], b);
    } else {
      assert a + b == b;
    }
  }

  /** `parts.join(sep)`. */
  function JoinWith(parts: seq<string>, sep: char): string
  {
    if parts == [] then []
    else if |parts| == 1 then parts[0]
    else parts[0] + [sep] + JoinWith(parts[1..], sep)
  }

  /** `s.split(sep)` for a one-character separator: the pieces between the
      separators, empty pieces included, so there is always one piece more
      than there are separators. */
  function Split(s: string, sep: char): (parts: seq<string>)
    ensures |parts| >= 1
    ensures forall i, j :: 0 <= i < |parts| && 0 <= j < |parts[i]| ==> parts[i][j] != sep
    ensures JoinWith(parts, sep) == s
  {
    if s == [] then [[]]
    else
      var rest := Split(s[1..], sep);
      if s[0] == sep then
        assert [sep] + JoinWith(rest, sep) == s;
        [[]] + rest
      else
        var parts := [[s[0]] + rest[0]] + rest[1..];
        assert parts[1..] == rest[1..];
        assert JoinWith(parts, sep) == s by {
          if |rest| == 1 {
          } else {
            assert JoinWith(rest, sep) == rest[0] + [sep] + JoinWith(rest[1..], sep);
          }
        }
        parts
  }

  // ---------------------------------------------------------------------------
  // Searching for a character
  // ---------------------------------------------------------------------------

  /** The first position holding one of `cs`, as `indexOf` finds it. */
  function IndexOfAny(s: string, cs: set<char>): (k: Option<nat>)
    ensures k.Some? ==> k.value < |s| && s[k.value] in cs
    ensures k.Some? ==> forall j :: 0 <= j < k.value ==> s[j] !in cs
    ensures k.None? ==> forall j :: 0 <= j < |s| ==> s[j] !in cs
  {
    if s == [] then None
    else if s[0] in cs then Some(0)
    else
      match IndexOfAny(s[1..], cs)
      case None => None
      case Some(k) => Some(k + 1)
  }
}
