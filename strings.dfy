/**
 The few string operations of JavaScript the popup script relies on:
 `indexOf`, `Array.prototype.join`, the ASCII case folding of a regular
 expression with the `i` flag, and the class `\s`.
 */
module Strings {

  /** `p` occurs in `s` starting at index `i`. */
  predicate IsPrefixAt(s: string, i: nat, p: string) {
    i + |p| <= |s| && s[i..i + |p|] == p
  }

  /** `s.indexOf(p)`: the first index at which `p` occurs in `s`, or -1 when it does not occur. */
  function IndexOf(s: string, p: string): (r: int)
    ensures r == -1 <==> forall i: nat :: !IsPrefixAt(s, i, p)
    ensures r >= 0 ==> IsPrefixAt(s, r, p) && forall i: nat :: i < r ==> !IsPrefixAt(s, i, p)
  {
    IndexFrom(s, p, 0)
  }

  /** The search behind `IndexOf`, resumed at `from`. */
  function IndexFrom(s: string, p: string, from: nat): (r: int)
    ensures r == -1 ==> forall i: nat :: from <= i ==> !IsPrefixAt(s, i, p)
    ensures r >= 0 ==> from <= r && IsPrefixAt(s, r, p)
    ensures r >= 0 ==> forall i: nat :: from <= i < r ==> !IsPrefixAt(s, i, p)
    ensures r >= -1
    decreases |s| - from
  {
    if from + |p| > |s| then -1
    else if s[from..from + |p|] == p then from
    else IndexFrom(s, p, from + 1)
  }

  /** The upper-case ASCII letters mapped to lower case; every other character unchanged. */
  function ToLowerAscii(c: char): char {
    if 'A' <= c <= 'Z' then (c as int + 32) as char else c
  }

  /**
   Equality under the `i` flag of a non-Unicode regular expression, for a
   pattern written in ASCII: canonicalisation never maps a non-ASCII
   character onto an ASCII one, so only ASCII letters fold.
   */
  predicate EqualsIgnoreAsciiCase(a: string, b: string) {
    |a| == |b| && forall k :: 0 <= k < |a| ==> ToLowerAscii(a[k]) == ToLowerAscii(b[k])
  }

  /** `p` occurs in `s` at index `i`, ignoring ASCII case. */
  predicate IsPrefixAtIgnoreCase(s: string, i: nat, p: string) {
    i + |p| <= |s| && EqualsIgnoreAsciiCase(s[i..i + |p|], p)
  }

  /** The characters of the regular-expression class `\s` (WhiteSpace and LineTerminator of ECMA-262). */
  predicate IsJsWhitespace(c: char) {
    c == '\t' || c == '\n' || c == '\U{000B}' || c == '\U{000C}' || c == '\r' || c == ' '
    || c == '\U{00A0}' || c == '\U{1680}' || ('\U{2000}' <= c <= '\U{200A}')
    || c == '\U{2028}' || c == '\U{2029}' || c == '\U{202F}' || c == '\U{205F}'
    || c == '\U{3000}' || c == '\U{FEFF}'
  }

  /** `parts.join(sep)`. */
  function Join(parts: seq<string>, sep: char): (r: string)
  {
    if |parts| == 0 then ""
    else if |parts| == 1 then parts[0]
    else parts[0] + [sep] + Join(parts[1..], sep)
  }

  /** `s.split(sep)`: the inverse of `Join` for parts that do not contain `sep`. */
  function Split(s: string, sep: char): (r: seq<string>)
    ensures |r| >= 1
  {
    if s == [] then [""]
    else
      var rest := Split(s[1..], sep);
      if s[0] == sep then [""] + rest else [[s[0]] + rest[0]] + rest[1..]
  }

  lemma {:induction false} SplitWithoutSeparator(a: string, sep: char)
    requires sep !in a
    ensures Split(a, sep) == [a]
  {
    if a != [] {
      SplitWithoutSeparator(a[1..], sep);
      assert [a[0]] + a[1..] == a;
    }
  }

  lemma {:induction false} SplitAfterPart(a: string, rest: string, sep: char)
    requires sep !in a
    ensures Split(a + [sep] + rest, sep) == [a] + Split(rest, sep)
  {
    if a == [] {
      assert a + [sep] + rest == [sep] + rest;
    } else {
      assert (a + [sep] + rest)[1..] == a[1..] + [sep] + rest;
      SplitAfterPart(a[1..], rest, sep);
      assert [a[0]] + a[1..] == a;
    }
  }

  /** Joining non-empty many parts that are free of the separator and splitting again gives the parts back. */
  lemma {:induction false} SplitJoin(parts: seq<string>, sep: char)
    requires |parts| >= 1
    requires forall k :: 0 <= k < |parts| ==> sep !in parts[k]
    ensures Split(Join(parts, sep), sep) == parts
  {
    if |parts| == 1 {
      SplitWithoutSeparator(parts[0], sep);
    } else {
      SplitJoin(parts[1..], sep);
      SplitAfterPart(parts[0], Join(parts[1..], sep), sep);
    }
  }
}
