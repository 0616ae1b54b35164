/**
 * Character-level helpers shared by the code converters, the template-name
 * parser, the lifecycle field-path parser and the QR option parser: ASCII
 * upper- and lower-casing (Python's `str.upper()` and JavaScript's
 * `toUpperCase()`/`toLowerCase()` restricted to ASCII) and Python's
 * `str.split(sep, 1)`.
 */
module Text {
  import opened Wrappers

  predicate IsAsciiUpper(c: char) { 'A' <= c <= 'Z' }

  predicate IsAsciiLower(c: char) { 'a' <= c <= 'z' }

  predicate IsAsciiLetter(c: char) { IsAsciiUpper(c) || IsAsciiLower(c) }

  predicate IsDigit(c: char) { '0' <= c <= '9' }

  /** Upper-cases one character: ASCII lower-case letters move to upper case, every other character stays. */
  function UpperChar(c: char): (u: char)
    ensures IsAsciiLower(c) ==> IsAsciiUpper(u) && u as int == c as int - 32
    ensures !IsAsciiLower(c) ==> u == c
    ensures IsAsciiLetter(c) <==> IsAsciiLetter(u)
    ensures !IsAsciiLower(u)
  {
    if IsAsciiLower(c) then (c as int - 32) as char else c
  }

  /** `s.upper()`, character by character. */
  function Upper(s: string): (r: string)
    ensures |r| == |s|
    ensures forall i :: 0 <= i < |s| ==> r[i] == UpperChar(s[i])
  {
    if s == [] then [] else [UpperChar(s[0])] + Upper(s[1..])
  }

  lemma {:induction false} UpperIdempotent(s: string)
    ensures Upper(Upper(s)) == Upper(s)
  {
    if s != [] {
      UpperIdempotent(s[1..]);
      assert Upper(s)[1..] == Upper(s[1..]);
    }
  }

  /** Upper-casing changes nothing exactly when no ASCII lower-case letter is present. */
  lemma UpperFixedIff(s: string)
    ensures Upper(s) == s <==> forall i :: 0 <= i < |s| ==> !IsAsciiLower(s[i])
  {
    if Upper(s) == s {
      forall i | 0 <= i < |s| ensures !IsAsciiLower(s[i]) {
        assert s[i] == Upper(s)[i] == UpperChar(s[i]);
      }
    } else {
      var k :| 0 <= k < |s| && Upper(s)[k] != s[k];
      assert IsAsciiLower(s[k]);
    }
  }

  /** Lower-cases one character: ASCII upper-case letters move to lower case, every other character stays. */
  function LowerChar(c: char): (l: char)
    ensures IsAsciiUpper(c) ==> IsAsciiLower(l) && l as int == c as int + 32
    ensures !IsAsciiUpper(c) ==> l == c
    ensures !IsAsciiUpper(l)
  {
    if IsAsciiUpper(c) then (c as int + 32) as char else c
  }

  /** `s.toLowerCase()`, character by character. */
  function Lower(s: string): (r: string)
    ensures |r| == |s|
    ensures forall i :: 0 <= i < |s| ==> r[i] == LowerChar(s[i])
  {
    if s == [] then [] else [LowerChar(s[0])] + Lower(s[1..])
  }

  /**
   * Python's `s.split(sep, 1)` when `sep` occurs in `s`: the text before the
   * FIRST occurrence and everything after it (which may contain `sep` again).
   * None when `sep` does not occur.
   */
  function SplitFirst(s: string, sep: char): (r: Option<(string, string)>)
    ensures r.None? <==> sep !in s
    ensures r.Some? ==> s == r.value.0 + [sep] + r.value.1 && sep !in r.value.0
  {
    if s == [] then None
    else if s[0] == sep then Some(([], s[1..]))
    else match SplitFirst(s[1..], sep)
      case None => None
      case Some((pre, post)) => Some(([s[0]] + pre, post))
  }

  /** The split is unique: any decomposition around a first occurrence is the one SplitFirst returns. */
  lemma {:induction false} SplitFirstUnique(s: string, sep: char, pre: string, post: string)
    requires s == pre + [sep] + post && sep !in pre
    ensures SplitFirst(s, sep) == Some((pre, post))
  {
    if pre != [] {
      assert s[1..] == pre[1..] + [sep] + post;
      assert s[0] == pre[0] && pre[0] != sep;
      SplitFirstUnique(s[1..], sep, pre[1..], post);
      assert [s[0]] + pre[1..] == pre;
    } else {
      assert s[0] == sep && s[1..] == post;
    }
  }
}
