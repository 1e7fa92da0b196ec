/**
 * The three string operations the pages rely on: `String.prototype.trim`,
 * `String.prototype.toLowerCase` (ASCII letters only) and `String.prototype.includes`.
 */
module Text {

  /**
   * The characters `trim` removes: the ECMAScript WhiteSpace set (tab, vertical tab,
   * form feed, the byte-order mark and every space separator) and the LineTerminator set.
   */
  predicate IsWhitespace(c: char) {
    || c == '\t' || c == '\U{000B}' || c == '\U{000C}' || c == ' ' || c == '\U{00A0}'
    || c == '\U{FEFF}' || c == '\U{1680}' || ('\U{2000}' <= c <= '\U{200A}')
    || c == '\U{202F}' || c == '\U{205F}' || c == '\U{3000}'
    || c == '\n' || c == '\r' || c == '\U{2028}' || c == '\U{2029}'
  }

  /** A string made only of whitespace (the empty string included). */
  predicate Blank(s: string) {
    forall i :: 0 <= i < |s| ==> IsWhitespace(s[i])
  }

  /** The index of the first non-whitespace character at or after `i`, or `|s|` when there is none. */
  function SkipBlanks(s: string, i: nat): (k: nat)
    requires i <= |s|
    ensures i <= k <= |s|
    ensures k < |s| ==> !IsWhitespace(s[k])
    ensures forall j :: i <= j < k ==> IsWhitespace(s[j])
    decreases |s| - i
  {
    if i < |s| && IsWhitespace(s[i]) then SkipBlanks(s, i + 1) else i
  }

  /** The end of `s[..j]` once its trailing whitespace is dropped. */
  function SkipBlanksBack(s: string, j: nat): (k: nat)
    requires j <= |s|
    ensures k <= j
    ensures 0 < k ==> !IsWhitespace(s[k - 1])
    ensures forall m :: k <= m < j ==> IsWhitespace(s[m])
  {
    if 0 < j && IsWhitespace(s[j - 1]) then SkipBlanksBack(s, j - 1) else j
  }

  /** Drops the leading whitespace: the result is a suffix of `s`, what goes is blank, and it starts with a non-blank. */
  function TrimStart(s: string): (r: string)
    ensures |r| <= |s| && r == s[|s| - |r|..]
    ensures Blank(s[..|s| - |r|])
    ensures r == [] || !IsWhitespace(r[0])
  {
    var k := SkipBlanks(s, 0);
    assert forall i :: 0 <= i < k ==> s[..k][i] == s[i];
    s[k..]
  }

  /** Drops the trailing whitespace: the result is a prefix of `s`, what goes is blank, and it ends with a non-blank. */
  function TrimEnd(s: string): (r: string)
    ensures |r| <= |s| && r == s[..|r|]
    ensures Blank(s[|r|..])
    ensures r == [] || !IsWhitespace(r[|r| - 1])
  {
    var k := SkipBlanksBack(s, |s|);
    assert forall i :: 0 <= i < |s| - k ==> s[k..][i] == s[k + i];
    s[..k]
  }

  /**
   * Removes whitespace from both ends: the result is the piece of `s` left between a
   * blank prefix and a blank suffix, has no whitespace at either end, and is empty
   * exactly when `s` is blank.
   */
  function Trim(s: string): (r: string)
    ensures var k := |s| - |TrimStart(s)|;
      && k + |r| <= |s| && r == s[k..k + |r|]
      && Blank(s[..k]) && Blank(s[k + |r|..])
    ensures r == [] <==> Blank(s)
    ensures r == [] || (!IsWhitespace(r[0]) && !IsWhitespace(r[|r| - 1]))
  {
    TrimIsPiece(s);
    TrimEmptyIffBlank(s);
    TrimEndsNonBlank(s);
    TrimEnd(TrimStart(s))
  }

  /** Taking `n` characters of the suffix from `k` is the slice from `k` to `k + n`. */
  lemma SliceOfSlice(s: string, k: nat, n: nat)
    requires k + n <= |s|
    ensures s[k..][..n] == s[k..k + n]
  {
  }

  /** The trimmed string sits in `s` between a blank prefix and a blank suffix. */
  lemma TrimIsPiece(s: string)
    ensures var front := TrimStart(s); var r := TrimEnd(front); var k := |s| - |front|;
      && k + |r| <= |s| && r == s[k..k + |r|]
      && Blank(s[..k]) && Blank(s[k + |r|..])
  {
    var front := TrimStart(s);
    var r := TrimEnd(front);
    var k := |s| - |front|;
    SliceOfSlice(s, k, |r|);
    assert s[k + |r|..] == front[|r|..];
  }

  /** Two blank strings make a blank string. */
  lemma BlankConcat(a: string, b: string)
    requires Blank(a) && Blank(b)
    ensures Blank(a + b)
  {
    forall i | 0 <= i < |a + b| ensures IsWhitespace((a + b)[i]) {
      if i >= |a| {
        assert (a + b)[i] == b[i - |a|];
      }
    }
  }

  /** Trimming leaves nothing exactly when the string is all whitespace. */
  lemma TrimEmptyIffBlank(s: string)
    ensures TrimEnd(TrimStart(s)) == [] <==> Blank(s)
  {
    var front := TrimStart(s);
    var r := TrimEnd(front);
    var k := |s| - |front|;
    TrimIsPiece(s);
    if r == [] {
      assert s == s[..k] + s[k..];
      BlankConcat(s[..k], s[k..]);
    } else {
      assert r[0] == s[k];
    }
  }

  /** A non-empty trimmed string starts and ends with a non-whitespace character. */
  lemma TrimEndsNonBlank(s: string)
    ensures var r := TrimEnd(TrimStart(s)); r == [] || (!IsWhitespace(r[0]) && !IsWhitespace(r[|r| - 1]))
  {
    var front := TrimStart(s);
    var r := TrimEnd(front);
    if r != [] {
      assert r[0] == front[0];
    }
  }

  /** An upper-case ASCII letter. */
  predicate IsUpper(c: char) {
    'A' <= c <= 'Z'
  }

  /** Lower-cases one character, ASCII only: 'A'..'Z' map to 'a'..'z', every other character is kept. */
  function LowerChar(c: char): char {
    if IsUpper(c) then (c as int + 32) as char else c
  }

  /**
   * Lower-cases a string: same length, each upper-case ASCII letter replaced by its
   * lower-case letter, every other character kept.
   */
  function Lower(s: string): (r: string)
    ensures |r| == |s|
    ensures forall i :: 0 <= i < |s| && IsUpper(s[i]) ==> r[i] == (s[i] as int + 32) as char
    ensures forall i :: 0 <= i < |s| && !IsUpper(s[i]) ==> r[i] == s[i]
    ensures forall i :: 0 <= i < |s| ==> !IsUpper(r[i])
  {
    if s == [] then [] else [LowerChar(s[0])] + Lower(s[1..])
  }

  /** Lower-casing twice is lower-casing once. */
  lemma LowerIdempotent(s: string)
    ensures Lower(Lower(s)) == Lower(s)
  {
    assert forall i :: 0 <= i < |s| ==> Lower(Lower(s))[i] == Lower(s)[i];
  }

  /** Two strings that differ only in letter case lower-case to the same string. */
  lemma {:induction false} LowerIgnoresCase(s: string, t: string)
    requires |s| == |t|
    requires forall i :: 0 <= i < |s| ==> LowerChar(s[i]) == LowerChar(t[i])
    ensures Lower(s) == Lower(t)
  {
    if s != [] {
      LowerIgnoresCase(s[1..], t[1..]);
    }
  }

  /** `needle` occurs in `hay` starting at position `i`. */
  predicate OccursAt(hay: string, needle: string, i: nat) {
    i + |needle| <= |hay| && hay[i..i + |needle|] == needle
  }

  /** `needle` occurs somewhere in `hay`. */
  ghost predicate Contains(hay: string, needle: string) {
    exists i: nat :: OccursAt(hay, needle, i)
  }

  /** Substring search, left to right: true iff `needle` occurs somewhere in `hay`. */
  function Includes(hay: string, needle: string): (r: bool)
    ensures r <==> Contains(hay, needle)
  {
    IncludesFrom(hay, needle, 0)
  }

  /** The search from position `k` on. */
  function IncludesFrom(hay: string, needle: string, k: nat): (r: bool)
    ensures r <==> exists i: nat :: k <= i && OccursAt(hay, needle, i)
    decreases |hay| - k
  {
    if k + |needle| > |hay| then
      assert forall i: nat :: k <= i ==> !OccursAt(hay, needle, i);
      false
    else if hay[k..k + |needle|] == needle then
      assert OccursAt(hay, needle, k);
      true
    else
      assert forall i: nat :: k <= i && OccursAt(hay, needle, i) ==> k + 1 <= i;
      IncludesFrom(hay, needle, k + 1)
  }

  /** The empty string is contained in every string. */
  lemma IncludesEmpty(hay: string)
    ensures Includes(hay, "")
  {
    assert OccursAt(hay, "", 0);
  }
}
