/**
 * The pieces of Python's string and regular-expression built-ins that the
 * conversation demo relies on: character classes, `str.strip`, `str.lower`,
 * `startswith` and `endswith`.
 *
 * `str.isspace` is modelled exactly. Case mapping and the `\w` class are
 * modelled exactly for code points up to U+00FF (ASCII and Latin-1, which
 * covers Spanish text); above that, characters are treated as caseless
 * non-word characters. `\d` is restricted to the ASCII digits.
 */
module Str {

  datatype Option<+T> = None | Some(value: T)

  predicate IsDigit(c: char) {
    '0' <= c <= '9'
  }

  predicate IsAsciiLetter(c: char) {
    'A' <= c <= 'Z' || 'a' <= c <= 'z'
  }

  /** Latin-1 code points that Unicode calls alphabetic or numeric. */
  predicate IsLatin1WordChar(c: char) {
    var n := c as int;
    n == 0xAA || n == 0xB2 || n == 0xB3 || n == 0xB5 || n == 0xB9 || n == 0xBA
    || 0xBC <= n <= 0xBE
    || (0xC0 <= n <= 0xFF && n != 0xD7 && n != 0xF7)
  }

  /** The regular-expression class `\w`, which decides where `\b` holds. */
  predicate IsWordChar(c: char) {
    IsAsciiLetter(c) || IsDigit(c) || c == '_' || IsLatin1WordChar(c)
  }

  /** `str.isspace()` for one character: the characters `str.strip()` removes. */
  predicate IsSpace(c: char) {
    var n := c as int;
    n == 0x20 || 0x09 <= n <= 0x0D || 0x1C <= n <= 0x1F || n == 0x85 || n == 0xA0
    || n == 0x1680 || 0x2000 <= n <= 0x200A || n == 0x2028 || n == 0x2029
    || n == 0x202F || n == 0x205F || n == 0x3000
  }

  /** `not s.strip()`: the string is empty or all whitespace. */
  predicate IsBlank(s: string) {
    forall i :: 0 <= i < |s| ==> IsSpace(s[i])
  }

  predicate NoDigits(s: string) {
    forall i :: 0 <= i < |s| ==> !IsDigit(s[i])
  }

  predicate StartsWith(s: string, prefix: string) {
    prefix <= s
  }

  predicate EndsWith(s: string, suffix: string) {
    |suffix| <= |s| && s[|s| - |suffix|..] == suffix
  }

  /** A string with no whitespace at either end. */
  predicate IsStripped(s: string) {
    s == [] || (!IsSpace(s[0]) && !IsSpace(s[|s| - 1]))
  }

  /** The first position at or after `i` that does not hold whitespace, or `|s|`. */
  function SkipSpaces(s: string, i: nat): (n: nat)
    requires i <= |s|
    ensures i <= n <= |s|
    ensures forall k :: i <= k < n ==> IsSpace(s[k])
    ensures n < |s| ==> !IsSpace(s[n])
    decreases |s| - i
  {
    if i < |s| && IsSpace(s[i]) then SkipSpaces(s, i + 1) else i
  }

  /** The end of `s[lo..j]` once its trailing whitespace is cut off. */
  function TrimEnd(s: string, lo: nat, j: nat): (e: nat)
    requires lo <= j <= |s|
    ensures lo <= e <= j
    ensures forall k :: e <= k < j ==> IsSpace(s[k])
    ensures lo < e ==> !IsSpace(s[e - 1])
    decreases j - lo
  {
    if lo < j && IsSpace(s[j - 1]) then TrimEnd(s, lo, j - 1) else j
  }

  /** `s.strip()` with no argument. */
  function Strip(s: string): (r: string)
    ensures IsStripped(r)
    ensures r == [] <==> IsBlank(s)
  {
    var n := SkipSpaces(s, 0);
    var e := TrimEnd(s, n, |s|);
    assert n < |s| ==> n < e;
    s[n..e]
  }

  /**
   * What `strip` keeps and drops: the result is the stretch of `s` that
   * starts after the leading whitespace, and everything cut off at either
   * end is whitespace.
   */
  lemma StripSlice(s: string)
    ensures var n := SkipSpaces(s, 0);
      n + |Strip(s)| <= |s| && Strip(s) == s[n..n + |Strip(s)|]
      && forall k :: 0 <= k < |s| && (k < n || n + |Strip(s)| <= k) ==> IsSpace(s[k])
  {
    var n := SkipSpaces(s, 0);
    assert Strip(s) == s[n..n + |Strip(s)|];
  }

  /**
   * The converse: cutting whitespace-only stretches from both ends, so that
   * what is left starts and ends with a non-whitespace character, is `strip`.
   */
  lemma StripBetween(s: string, i: nat, j: nat)
    requires i <= j <= |s|
    requires forall k :: 0 <= k < i || j <= k < |s| ==> IsSpace(s[k])
    requires i < j ==> !IsSpace(s[i]) && !IsSpace(s[j - 1])
    ensures Strip(s) == s[i..j]
  {
    var n := SkipSpaces(s, 0);
    if i < j {
      assert n == i;
      assert TrimEnd(s, n, |s|) == j;
    } else {
      assert n == |s|;
    }
  }

  /** `str.lower()` on one character. */
  function LowerChar(c: char): (r: char)
    ensures IsAsciiLetter(r) <==> IsAsciiLetter(c)
    ensures !('A' <= r <= 'Z')
    ensures !IsWordChar(c) ==> r == c
    ensures IsDigit(r) <==> IsDigit(c)
    ensures IsWordChar(r) <==> IsWordChar(c)
  {
    var n := c as int;
    if 'A' <= c <= 'Z' || (0xC0 <= n <= 0xDE && n != 0xD7) then (n + 0x20) as char else c
  }

  /** `str.lower()`: each character mapped on its own, so the length is kept. */
  function Lower(s: string): (r: string)
    ensures |r| == |s|
    ensures forall i :: 0 <= i < |s| ==> r[i] == LowerChar(s[i])
  {
    seq(|s|, i requires 0 <= i < |s| => LowerChar(s[i]))
  }

  lemma EndsWithAppend(a: string, b: string, suffix: string)
    requires EndsWith(b, suffix)
    ensures EndsWith(a + b, suffix)
  {
    assert (a + b)[|a + b| - |suffix|..] == b[|b| - |suffix|..];
  }
}
