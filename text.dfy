/**
 * The string operations of the C++ standard library and of the Kotlin
 * standard library that the patcher relies on: substring search, the last
 * occurrence of a character, ASCII lower-casing, whitespace trimming and
 * decimal formatting of integers.
 */
module Text {
  import opened Wrappers

  /** `sub` occurs in `s` starting at index `i`. */
  predicate OccursAt(s: string, sub: string, i: nat) {
    i + |sub| <= |s| && s[i..i + |sub|] == sub
  }

  /** Kotlin `String.contains`. */
  predicate Contains(s: string, sub: string) {
    exists i: nat | i <= |s| :: OccursAt(s, sub, i)
  }

  /** `std::string::find(pat, from)`: the first occurrence of `pat` at or after `from`. */
  function Find(s: string, pat: string, from: nat): (r: Option<nat>)
    decreases |s| - from
    ensures r.Some? ==> from <= r.value && OccursAt(s, pat, r.value)
    ensures r.Some? ==> forall i: nat :: from <= i < r.value ==> !OccursAt(s, pat, i)
    ensures r.None? ==> forall i: nat :: from <= i ==> !OccursAt(s, pat, i)
  {
    if from + |pat| > |s| then None
    else if s[from..from + |pat|] == pat then Some(from)
    else Find(s, pat, from + 1)
  }

  /** Occurrences in a suffix are occurrences in the whole string, shifted. */
  lemma OccursInSuffix(s: string, sub: string, k: nat, i: nat)
    requires k <= |s|
    ensures OccursAt(s[k..], sub, i) == OccursAt(s, sub, k + i)
  {
    if k + i + |sub| <= |s| {
      assert s[k..][i..i + |sub|] == s[k + i..k + i + |sub|];
    }
  }

  /** A slice of a slice is a slice of the whole. */
  lemma SliceOfSlice<T>(s: seq<T>, a: nat, b: nat, c: nat, d: nat)
    requires a <= b <= |s| && c <= d <= b - a
    ensures s[a..b][c..d] == s[a + c..a + d]
  {
    forall k | 0 <= k < d - c
      ensures s[a..b][c..d][k] == s[a + c..a + d][k]
    {
      assert s[a..b][c..d][k] == s[a..b][c + k];
      assert s[a..b][c + k] == s[a + c + k];
    }
  }

  /** Overwriting one element changes that element and no other. */
  lemma OverwriteOne<T>(d: seq<T>, at: nat, x: T)
    requires at < |d|
    ensures var e := d[..at] + [x] + d[at + 1..];
      |e| == |d| && e[at] == x && forall i :: 0 <= i < |d| && i != at ==> e[i] == d[i]
  {
  }

  /** A string that contains `pre + sub + post` contains `sub`. */
  lemma ContainsInner(s: string, pre: string, sub: string, post: string)
    requires Contains(s, pre + sub + post)
    ensures Contains(s, sub)
  {
    var w := pre + sub + post;
    var i: nat :| i <= |s| && OccursAt(s, w, i);
    assert w[|pre|..|pre| + |sub|] == sub;
    SliceOfSlice(s, i, i + |w|, |pre|, |pre| + |sub|);
    var j: nat := i + |pre|;
    assert j <= |s| && OccursAt(s, sub, j);
  }

  /** Membership in a non-empty sequence: in all but its last element, or its last element. */
  lemma InInitOrLast<T>(s: seq<T>, x: T)
    requires |s| > 0
    ensures x in s <==> x in s[..|s| - 1] || x == s[|s| - 1]
  {
    assert s == s[..|s| - 1] + [s[|s| - 1]];
  }

  /** A suffix of a non-empty sequence that starts before its last element. */
  lemma SuffixOfInit<T>(s: seq<T>, k: nat)
    requires k < |s|
    ensures s[k..] == s[..|s| - 1][k..] + [s[|s| - 1]]
  {
  }

  /** Kotlin `String.lastIndexOf(Char)`: -1 when `c` does not occur. */
  function LastIndexOf(s: string, c: char): (r: int)
    ensures -1 <= r < |s|
    ensures r == -1 <==> c !in s
    ensures r >= 0 ==> s[r] == c && c !in s[r + 1..]
  {
    if |s| == 0 then -1
    else if s[|s| - 1] == c then |s| - 1
    else
      var r := LastIndexOf(s[..|s| - 1], c);
      InInitOrLast(s, c);
      if r >= 0 then SuffixOfInit(s, r + 1); InInitOrLast(s[r + 1..], c); r
      else r
  }

  /** The last occurrence of `c` in `stem + [c] + tail` is the one after `stem` when `tail` has none. */
  lemma LastIndexOfSplit(stem: string, c: char, tail: string)
    requires c !in tail
    ensures LastIndexOf(stem + [c] + tail, c) == |stem|
  {
    var s := stem + [c] + tail;
    assert s[|stem|] == c;
    assert s[|stem| + 1..] == tail;
  }

  /** Kotlin `String.substringBeforeLast(Char)`: the whole string when `c` does not occur. */
  function SubstringBeforeLast(s: string, c: char): (r: string)
    ensures c !in s ==> r == s
  {
    var i := LastIndexOf(s, c);
    if i == -1 then s else s[..i]
  }

  predicate IsUpper(c: char) {
    'A' <= c <= 'Z'
  }

  /** ASCII lower-casing of one character. */
  function LowerChar(c: char): char {
    if IsUpper(c) then (c as int + 32) as char else c
  }

  /**
   * Kotlin `String.lowercase()`, restricted to ASCII letters: no capital is
   * left, every other character stays as it is, and a capital becomes the
   * letter 32 code points above it.
   */
  function Lower(s: string): (r: string)
    ensures |r| == |s|
    ensures forall i :: 0 <= i < |r| ==> !IsUpper(r[i])
    ensures forall i :: 0 <= i < |s| && !IsUpper(s[i]) ==> r[i] == s[i]
    ensures forall i :: 0 <= i < |s| ==> r[i] == s[i] || r[i] as int == s[i] as int + 32
  {
    seq(|s|, i requires 0 <= i < |s| => LowerChar(s[i]))
  }

  /** Lower-casing twice is lower-casing once. */
  lemma LowerIdempotent(s: string)
    ensures Lower(Lower(s)) == Lower(s)
  {
    var r := Lower(s);
    assert forall i :: 0 <= i < |r| ==> Lower(r)[i] == r[i];
  }

  /** Kotlin `Char.isWhitespace` on the ASCII range: tab to carriage return, 0x1C to 0x1F, and space. */
  predicate IsWhitespace(c: char) {
    9 <= c as int <= 13 || 28 <= c as int <= 32
  }

  /** Kotlin `String.isBlank()`. */
  predicate IsBlank(s: string) {
    forall i :: 0 <= i < |s| ==> IsWhitespace(s[i])
  }

  /** The number of whitespace characters that start `s`. */
  function LeadingBlanks(s: string): (n: nat)
    ensures n <= |s|
    ensures forall i :: 0 <= i < n ==> IsWhitespace(s[i])
    ensures n < |s| ==> !IsWhitespace(s[n])
  {
    if |s| == 0 || !IsWhitespace(s[0]) then 0 else 1 + LeadingBlanks(s[1..])
  }

  /** The number of whitespace characters that end `s`. */
  function TrailingBlanks(s: string): (n: nat)
    ensures n <= |s|
    ensures forall i :: |s| - n <= i < |s| ==> IsWhitespace(s[i])
    ensures n < |s| ==> !IsWhitespace(s[|s| - n - 1])
  {
    if |s| == 0 || !IsWhitespace(s[|s| - 1]) then 0 else 1 + TrailingBlanks(s[..|s| - 1])
  }

  /** Kotlin `String.trim()`: drops leading and trailing whitespace. */
  function Trim(s: string): (r: string)
    ensures |r| <= |s|
    ensures |r| > 0 ==> !IsWhitespace(r[0]) && !IsWhitespace(r[|r| - 1])
  {
    var t := s[LeadingBlanks(s)..];
    t[..|t| - TrailingBlanks(t)]
  }

  /** A blank string trims to nothing, and only a blank string does. */
  lemma TrimEmptyIffBlank(s: string)
    ensures Trim(s) == "" <==> IsBlank(s)
  {
    var n := LeadingBlanks(s);
    var t := s[n..];
    var m := TrailingBlanks(t);
    if n < |s| {
      assert t[0] == s[n];
      assert t[..|t| - m][0] == s[n];
    }
  }

  function DigitChar(d: nat): (c: char)
    requires d < 10
    ensures '0' <= c <= '9'
  {
    ('0' as int + d) as char
  }

  predicate IsDigits(s: string) {
    forall i :: 0 <= i < |s| ==> '0' <= s[i] <= '9'
  }

  /** Decimal digits of `n`, most significant first, without leading zeros. */
  function NatToDecimal(n: nat): (r: string)
    ensures 1 <= |r| && IsDigits(r)
  {
    if n < 10 then [DigitChar(n)] else NatToDecimal(n / 10) + [DigitChar(n % 10)]
  }

  /** `std::to_string(int)` and Kotlin's `"$i"`: a minus sign, then the digits of the magnitude. */
  function IntToDecimal(i: int): (r: string)
    ensures 1 <= |r|
    ensures r[0] == '-' || '0' <= r[0] <= '9'
    ensures 2 <= |r| ==> r[1] == '-' || '0' <= r[1] <= '9'
  {
    if i < 0 then "-" + NatToDecimal(-i) else NatToDecimal(i)
  }

  /** The value of a string of decimal digits. */
  function DecimalValue(s: string): nat
    requires IsDigits(s)
  {
    if s == [] then 0 else DecimalValue(s[..|s| - 1]) * 10 + (s[|s| - 1] as int - '0' as int)
  }

  /** Reads an optionally negative decimal integer; None when `s` is not one. */
  function ParseInt(s: string): Option<int> {
    if 2 <= |s| && s[0] == '-' && IsDigits(s[1..]) then Some(0 - DecimalValue(s[1..]) as int)
    else if 1 <= |s| && IsDigits(s) then Some(DecimalValue(s))
    else None
  }

  lemma {:induction false} DecimalRoundTrip(n: nat)
    ensures DecimalValue(NatToDecimal(n)) == n
  {
    if n >= 10 {
      var s := NatToDecimal(n);
      assert s[..|s| - 1] == NatToDecimal(n / 10);
      DecimalRoundTrip(n / 10);
    }
  }

  /** The digits of a positive number behind a minus sign read as the negated number. */
  lemma ParseNegative(n: nat)
    requires n > 0
    ensures ParseInt("-" + NatToDecimal(n)) == Some(0 - n)
  {
    var d := NatToDecimal(n);
    var s := "-" + d;
    assert s[0] == '-' && s[1..] == d;
    DecimalRoundTrip(n);
  }

  /** The digits of a number read as the number. */
  lemma ParseNonNegative(n: nat)
    ensures ParseInt(NatToDecimal(n)) == Some(n)
  {
    var d := NatToDecimal(n);
    assert '0' <= d[0] <= '9';
    DecimalRoundTrip(n);
  }

  /** Formatting an integer and reading it back gives the integer. */
  lemma ParseIntRoundTrip(i: int)
    ensures ParseInt(IntToDecimal(i)) == Some(i)
  {
    if i < 0 {
      ParseNegative(-i);
    } else {
      ParseNonNegative(i);
    }
  }
}
