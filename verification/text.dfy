/**
  Text primitives the report form and the solutions search rely on:
  JavaScript's `String.prototype.trim`, the `\d` character class,
  an ASCII stand-in for `toLowerCase`, and `String.prototype.includes`.
  Strings are sequences of code points.
 */
module Text {

  /** ECMAScript WhiteSpace and LineTerminator code points: what `trim` strips. */
  predicate IsWhitespace(c: char) {
    || c == '\t' || c == '\n' || c == '\U{000B}' || c == '\U{000C}' || c == '\r'
    || c == ' ' || c == '\U{00A0}' || c == '\U{1680}'
    || ('\U{2000}' <= c <= '\U{200A}')
    || c == '\U{2028}' || c == '\U{2029}' || c == '\U{202F}' || c == '\U{205F}'
    || c == '\U{3000}' || c == '\U{FEFF}'
  }

  /** Every character of `s` at a position in `[lo, hi)` is whitespace. */
  predicate WhitespaceBetween(s: string, lo: int, hi: int)
    requires 0 <= lo && hi <= |s|
  {
    forall k :: lo <= k < hi ==> IsWhitespace(s[k])
  }

  predicate AllWhitespace(s: string) {
    WhitespaceBetween(s, 0, |s|)
  }

  /** The position of the first non-whitespace character at or after `lo`, or `|s|` if there is none. */
  function SkipLeading(s: string, lo: nat): (i: nat)
    requires lo <= |s|
    ensures lo <= i <= |s| && WhitespaceBetween(s, lo, i)
    ensures i == |s| || !IsWhitespace(s[i])
    decreases |s| - lo
  {
    if lo == |s| || !IsWhitespace(s[lo]) then lo else SkipLeading(s, lo + 1)
  }

  /** The position just past the last non-whitespace character before `hi`, or `lo` if there is none. */
  function SkipTrailing(s: string, lo: nat, hi: nat): (j: nat)
    requires lo <= hi <= |s|
    ensures lo <= j <= hi && WhitespaceBetween(s, j, hi)
    ensures j == lo || !IsWhitespace(s[j - 1])
    decreases hi
  {
    if hi == lo || !IsWhitespace(s[hi - 1]) then hi else SkipTrailing(s, lo, hi - 1)
  }

  /** `s.trim()`: the infix of `s` left after stripping its whitespace prefix and suffix. */
  function Trim(s: string): (r: string)
    ensures exists i :: OccursAt(s, r, i) && WhitespaceBetween(s, 0, i) && WhitespaceBetween(s, i + |r|, |s|)
    ensures r == [] || (!IsWhitespace(r[0]) && !IsWhitespace(r[|r| - 1]))
  {
    var i := SkipLeading(s, 0);
    var j := SkipTrailing(s, i, |s|);
    assert OccursAt(s, s[i..j], i);
    s[i..j]
  }

  /** A string trims to the empty string exactly when every one of its characters is whitespace. */
  lemma TrimEmptyIffAllWhitespace(s: string)
    ensures Trim(s) == [] <==> AllWhitespace(s)
  {
    var r := Trim(s);
    var i :| OccursAt(s, r, i) && WhitespaceBetween(s, 0, i) && WhitespaceBetween(s, i + |r|, |s|);
    if r != [] {
      assert r[0] == s[i];
    }
  }

  /** Trimming changes nothing on a string that has no whitespace at either end. */
  lemma TrimNoOp(s: string)
    requires s == [] || (!IsWhitespace(s[0]) && !IsWhitespace(s[|s| - 1]))
    ensures Trim(s) == s
  {
  }

  /** The `\d` class of a regular expression without the `u` flag: ASCII digits only. */
  predicate IsAsciiDigit(c: char) {
    '0' <= c <= '9'
  }

  /** ASCII case mapping: 'A'..'Z' become 'a'..'z', every other character is kept. */
  function LowerChar(c: char): (d: char)
    ensures 'A' <= c <= 'Z' ==> 'a' <= d <= 'z' && d as int - c as int == 32
    ensures !('A' <= c <= 'Z') ==> d == c
  {
    if 'A' <= c <= 'Z' then (c as int + 32) as char else c
  }

  /** `s.toLowerCase()` restricted to the ASCII case mapping. */
  function Lower(s: string): (r: string)
    ensures |r| == |s|
    ensures forall i :: 0 <= i < |s| ==> r[i] == LowerChar(s[i])
  {
    if s == [] then [] else [LowerChar(s[0])] + Lower(s[1..])
  }

  /** `needle` occurs in `hay` starting at position `i`. */
  predicate OccursAt(hay: string, needle: string, i: int) {
    0 <= i && i + |needle| <= |hay| && hay[i..i + |needle|] == needle
  }

  /** The reference meaning of substring containment. */
  ghost predicate Contains(hay: string, needle: string) {
    exists i :: OccursAt(hay, needle, i)
  }

  /** `hay.startsWith(needle)`. */
  predicate StartsWith(hay: string, needle: string) {
    |needle| <= |hay| && hay[..|needle|] == needle
  }

  /** Past a failed first position, `needle` occurs in `hay` exactly when it occurs in `hay` without its first character. */
  lemma ContainsStep(hay: string, needle: string)
    requires hay != [] && !StartsWith(hay, needle)
    ensures Contains(hay, needle) <==> Contains(hay[1..], needle)
  {
    if |needle| <= |hay| {
      assert hay[..|needle|] == hay[0..|needle|];
    }
    if Contains(hay, needle) {
      var i :| OccursAt(hay, needle, i);
      assert i != 0;
      assert hay[1..][i - 1..i - 1 + |needle|] == hay[i..i + |needle|];
      assert OccursAt(hay[1..], needle, i - 1);
    }
    if Contains(hay[1..], needle) {
      var i :| OccursAt(hay[1..], needle, i);
      assert hay[1..][i..i + |needle|] == hay[i + 1..i + 1 + |needle|];
      assert OccursAt(hay, needle, i + 1);
    }
  }

  /** `hay.includes(needle)`: tries every start position from left to right. */
  function Includes(hay: string, needle: string): (b: bool)
    ensures b <==> Contains(hay, needle)
    decreases |hay|
  {
    if StartsWith(hay, needle) then
      assert OccursAt(hay, needle, 0);
      true
    else if hay == [] then
      false
    else
      ContainsStep(hay, needle);
      Includes(hay[1..], needle)
  }

  /** Every string contains the empty string, as `includes('')` is always true. */
  lemma ContainsEmpty(hay: string)
    ensures Contains(hay, [])
  {
    assert OccursAt(hay, [], 0);
  }
}
