/**
 * The PHP built-ins the two scripts rely on, stated on strings: truthiness,
 * loose string comparison (`in_array`), `addslashes`, `addcslashes` with the
 * character list `'\`, `implode`, `explode` and `trim`.
 */
module Php {

  /** PHP's truth value of a string: "" and "0" are false, every other string is true. */
  predicate Truthy(s: string) {
    s != "" && s != "0"
  }

  predicate IsDigit(c: char) {
    '0' <= c <= '9'
  }

  /** A non-empty string of decimal digits: the numeric strings this model recognises. */
  predicate IsDigitString(s: string) {
    |s| > 0 && forall i :: 0 <= i < |s| ==> IsDigit(s[i])
  }

  /** The number a string of decimal digits denotes (leading zeros allowed). */
  function DigitsValue(s: string): nat
    requires forall i :: 0 <= i < |s| ==> IsDigit(s[i])
  {
    if s == [] then 0
    else
      var last := s[|s| - 1];
      assert IsDigit(last);
      10 * DigitsValue(s[..|s| - 1]) + (last as int - '0' as int)
  }

  /**
   * PHP 8's `==` between two strings: two numeric strings are compared as
   * numbers, any other pair character by character.
   */
  predicate LooseEquals(a: string, b: string) {
    a == b || (IsDigitString(a) && IsDigitString(b) && DigitsValue(a) == DigitsValue(b))
  }

  /** `in_array($needle, $haystack)` with its default, non-strict comparison. */
  function InArray(needle: string, haystack: seq<string>): (r: bool)
    ensures r <==> exists i :: 0 <= i < |haystack| && LooseEquals(needle, haystack[i])
  {
    if haystack == [] then false
    else if LooseEquals(needle, haystack[0]) then true
    else
      var rest := InArray(needle, haystack[1..]);
      assert forall i :: 1 <= i < |haystack| ==> haystack[i] == haystack[1..][i - 1];
      rest
  }

  /** The characters `addslashes` prefixes with a backslash: `'`, `"`, `\` and NUL. */
  predicate SlashedByAddSlashes(c: char) {
    c == '\'' || c == '"' || c == '\\' || c == '\0'
  }

  /** `addslashes($s)`: NUL becomes `\0`, and `'`, `"` and `\` get a backslash in front. */
  function AddSlashes(s: string): string {
    if s == [] then ""
    else
      var head := if s[0] == '\0' then "\\0" else if SlashedByAddSlashes(s[0]) then ['\\', s[0]] else [s[0]];
      head + AddSlashes(s[1..])
  }

  /** `addcslashes($s, "'\\")`: only `'` and `\` get a backslash in front. */
  function AddCSlashesQuoteBackslash(s: string): string {
    if s == [] then ""
    else
      var head := if s[0] == '\'' || s[0] == '\\' then ['\\', s[0]] else [s[0]];
      head + AddCSlashesQuoteBackslash(s[1..])
  }

  lemma AppendAssoc(a: string, b: string, c: string)
    ensures a + (b + c) == (a + b) + c
  {
  }

  /** `implode($sep, $parts)`. */
  function Join(parts: seq<string>, sep: string): string {
    if parts == [] then ""
    else if |parts| == 1 then parts[0]
    else parts[0] + sep + Join(parts[1..], sep)
  }

  /** A join of two or more parts is the first part, the separator and the join of the rest. */
  lemma JoinCons(head: string, tail: seq<string>, sep: string)
    requires tail != []
    ensures Join([head] + tail, sep) == head + sep + Join(tail, sep)
  {
    assert ([head] + tail)[1..] == tail;
  }

  /** `explode($d, $s)` for a one-character delimiter; implode is its inverse. */
  function Split(s: string, d: char): (parts: seq<string>)
    ensures |parts| >= 1
    ensures forall k :: 0 <= k < |parts| ==> d !in parts[k]
    ensures Join(parts, [d]) == s
  {
    if s == [] then [""]
    else
      var rest := Split(s[1..], d);
      if s[0] == d then
        JoinCons("", rest, [d]);
        [""] + rest
      else
        var parts := [[s[0]] + rest[0]] + rest[1..];
        if |rest| == 1 then
          parts
        else
          JoinCons(rest[0], rest[1..], [d]);
          JoinCons([s[0]] + rest[0], rest[1..], [d]);
          assert rest == [rest[0]] + rest[1..];
          parts
  }

  /** The characters PHP's `trim` strips by default: space, tab, LF, CR, NUL and vertical tab. */
  predicate IsTrimmed(c: char) {
    c == ' ' || c == '\t' || c == '\n' || c == '\r' || c == '\0' || c == '\U{B}'
  }

  /** `ltrim($s)`: the suffix of `s` after its leading whitespace. */
  function TrimLeft(s: string): (r: string)
    ensures |r| <= |s| && r == s[|s| - |r|..]
    ensures forall i :: 0 <= i < |s| - |r| ==> IsTrimmed(s[i])
    ensures r == [] || !IsTrimmed(r[0])
  {
    if s != [] && IsTrimmed(s[0]) then TrimLeft(s[1..]) else s
  }

  /** `rtrim($s)`: the prefix of `s` before its trailing whitespace. */
  function TrimRight(s: string): (r: string)
    ensures |r| <= |s| && r == s[..|r|]
    ensures forall i :: |r| <= i < |s| ==> IsTrimmed(s[i])
    ensures r == [] || !IsTrimmed(r[|r| - 1])
  {
    if s != [] && IsTrimmed(s[|s| - 1]) then TrimRight(s[..|s| - 1]) else s
  }

  /**
   * `trim($s)`: the slice of `s` left once its leading and trailing
   * whitespace is dropped; it neither starts nor ends with whitespace.
   */
  function Trim(s: string): (r: string)
    ensures exists i, j :: TrimmedSlice(s, i, j) && r == s[i..j]
    ensures r == [] || (!IsTrimmed(r[0]) && !IsTrimmed(r[|r| - 1]))
  {
    var l := TrimLeft(s);
    var r := TrimRight(l);
    PrefixOfSuffix(s, l, r);
    assert TrimmedSlice(s, |s| - |l|, |s| - |l| + |r|);
    r
  }

  /** A prefix `r` of a suffix `l` of `s` is a slice of `s`; what follows `r` in `l` follows it in `s`. */
  lemma PrefixOfSuffix(s: string, l: string, r: string)
    requires |l| <= |s| && l == s[|s| - |l|..]
    requires |r| <= |l| && r == l[..|r|]
    requires forall k :: |r| <= k < |l| ==> IsTrimmed(l[k])
    ensures r == s[|s| - |l|..|s| - |l| + |r|]
    ensures forall k :: |s| - |l| + |r| <= k < |s| ==> IsTrimmed(s[k])
    ensures r != [] ==> r[0] == l[0]
  {
    var i := |s| - |l|;
    forall k | i + |r| <= k < |s|
      ensures IsTrimmed(s[k])
    {
      assert s[k] == l[k - i];
    }
  }

  /** `s[i..j]` is `s` with only whitespace dropped before `i` and from `j` on. */
  predicate TrimmedSlice(s: string, i: int, j: int) {
    0 <= i <= j <= |s|
    && (forall k :: 0 <= k < i ==> IsTrimmed(s[k]))
    && (forall k :: j <= k < |s| ==> IsTrimmed(s[k]))
  }
}
