/** The optional values of the program: a Python `None` or a present value. */
module Options {

  datatype Option<T> = None | Some(value: T) {

    /** The present value, or `default` when there is none: Python's `d.get(k, default)`; also `x or default` when the default is the empty string. */
    function GetOr(default: T): (r: T)
      ensures Some? ==> r == value
      ensures None? ==> r == default
    {
      match this
      case Some(v) => v
      case None => default
    }
  }
}

/**
 * The string primitives the decision layer relies on: Python's `str.lower()`
 * restricted to ASCII, the substring test `needle in haystack`, and
 * `str.strip()` with no argument.
 */
module Text {

  /**
   * Python's `str.isspace()`: exactly the code points it accepts. ASCII
   * blank, tab and line breaks are whitespace; letters, digits and the
   * Devanagari block are not.
   */
  predicate IsSpace(c: char)
    ensures c == ' ' || c == '\t' || c == '\n' || c == '\r' ==> IsSpace(c)
    ensures 'a' <= c <= 'z' || 'A' <= c <= 'Z' || '0' <= c <= '9' ==> !IsSpace(c)
    ensures '\U{900}' <= c <= '\U{97F}' ==> !IsSpace(c)
  {
    || '\t' <= c <= '\r'
    || '\U{1C}' <= c <= ' '
    || c == '\U{85}' || c == '\U{A0}' || c == '\U{1680}'
    || '\U{2000}' <= c <= '\U{200A}'
    || c == '\U{2028}' || c == '\U{2029}' || c == '\U{202F}' || c == '\U{205F}' || c == '\U{3000}'
  }

  predicate AllSpace(s: string) {
    forall k :: 0 <= k < |s| ==> IsSpace(s[k])
  }

  /** A string with no whitespace in it. */
  predicate NoSpace(s: string) {
    forall k :: 0 <= k < |s| ==> !IsSpace(s[k])
  }

  /** A string that neither starts nor ends with whitespace. */
  predicate NoEdgeSpace(s: string) {
    s == [] || (!IsSpace(s[0]) && !IsSpace(s[|s| - 1]))
  }

  predicate IsUpper(c: char) {
    'A' <= c <= 'Z'
  }

  /** ASCII case folding of one character; every other character is its own lower case. */
  function ToLower(c: char): (d: char)
    ensures !IsUpper(d)
    ensures IsUpper(c) ==> d as int == c as int + 32
    ensures !IsUpper(c) ==> d == c
  {
    if IsUpper(c) then (c as int + 32) as char else c
  }

  /** `s.lower()`, for the ASCII letters: a character-by-character map. */
  function Lower(s: string): (r: string)
    ensures |r| == |s|
    ensures forall i :: 0 <= i < |s| ==> r[i] == ToLower(s[i])
  {
    seq(|s|, i requires 0 <= i < |s| => ToLower(s[i]))
  }

  /** Lower-casing commutes with taking a slice. */
  lemma LowerSlice(s: string, i: int, j: int)
    requires 0 <= i <= j <= |s|
    ensures Lower(s)[i..j] == Lower(s[i..j])
  {
  }

  /** `needle` sits in `haystack` starting at index `i`. */
  predicate OccursAt(haystack: string, needle: string, i: int) {
    0 <= i && i + |needle| <= |haystack| && haystack[i..i + |needle|] == needle
  }

  /**
   * Python's `needle in haystack` on strings: some occurrence exists. The
   * empty needle occurs in every string, every string occurs in itself, and
   * a needle longer than the haystack never occurs.
   */
  predicate Contains(haystack: string, needle: string)
    ensures needle == [] ==> Contains(haystack, needle)
    ensures needle == haystack ==> Contains(haystack, needle)
    ensures Contains(haystack, needle) ==> |needle| <= |haystack|
  {
    assert needle == [] ==> OccursAt(haystack, needle, 0);
    assert needle == haystack ==> OccursAt(haystack, needle, 0);
    exists i :: 0 <= i <= |haystack| && OccursAt(haystack, needle, i)
  }

  /** Every character of a needle that occurs is a character of the haystack. */
  lemma ContainsChars(haystack: string, needle: string, k: int)
    requires Contains(haystack, needle)
    requires 0 <= k < |needle|
    ensures needle[k] in haystack
  {
    var i :| 0 <= i <= |haystack| && OccursAt(haystack, needle, i);
    assert haystack[i + k] == haystack[i..i + |needle|][k];
  }

  /** A needle with a character the haystack lacks does not occur in it. */
  lemma MissingCharNotContained(haystack: string, needle: string, k: int)
    requires 0 <= k < |needle|
    requires needle[k] !in haystack
    ensures !Contains(haystack, needle)
  {
    if Contains(haystack, needle) {
      ContainsChars(haystack, needle, k);
    }
  }

  /** For a one-character needle, `c in s` is membership. */
  lemma ContainsChar(haystack: string, c: char)
    ensures Contains(haystack, [c]) <==> c in haystack
  {
    if c in haystack {
      var i :| 0 <= i < |haystack| && haystack[i] == c;
      assert OccursAt(haystack, [c], i);
    } else {
      MissingCharNotContained(haystack, [c], 0);
    }
  }

  /** Substring containment survives lower-casing both sides: `"EVICT" in s` gives `"evict" in s.lower()`. */
  lemma LowerKeepsContains(haystack: string, needle: string)
    requires Contains(haystack, needle)
    ensures Contains(Lower(haystack), Lower(needle))
  {
    var i :| 0 <= i <= |haystack| && OccursAt(haystack, needle, i);
    LowerSlice(haystack, i, i + |needle|);
    assert OccursAt(Lower(haystack), Lower(needle), i);
  }

  /** No character of `s` is one of `forbidden`. */
  predicate Avoids(s: string, forbidden: string) {
    forall i :: 0 <= i < |s| ==> s[i] !in forbidden
  }

  /** `c` is forbidden together with its upper-case twin when it is a lower-case ASCII letter. */
  predicate ForbiddenAnyCase(c: char, forbidden: string) {
    c in forbidden && ('a' <= c <= 'z' ==> (c as int - 32) as char in forbidden)
  }

  /** A lower-case character that `s` avoids in either case is absent from `s.lower()`. */
  lemma LowerLacks(s: string, forbidden: string, c: char)
    requires Avoids(s, forbidden)
    requires ForbiddenAnyCase(c, forbidden)
    requires !IsUpper(c)
    ensures c !in Lower(s)
  {
    forall i | 0 <= i < |s| ensures Lower(s)[i] != c {
      if IsUpper(s[i]) && 'a' <= c <= 'z' {
        assert s[i] != (c as int - 32) as char;
      }
    }
  }

  /** A needle with a character that `s` avoids in either case does not occur in `s.lower()`. */
  lemma LacksInLower(s: string, forbidden: string, needle: string, k: int)
    requires Avoids(s, forbidden)
    requires 0 <= k < |needle|
    requires ForbiddenAnyCase(needle[k], forbidden)
    requires !IsUpper(needle[k])
    ensures !Contains(Lower(s), needle)
  {
    LowerLacks(s, forbidden, needle[k]);
    MissingCharNotContained(Lower(s), needle, k);
  }

  /** A needle already in lower case that occurs at `i` in `s` occurs at `i` in `s.lower()`. */
  lemma LowerKeepsOccurrence(s: string, needle: string, i: int)
    requires OccursAt(s, needle, i)
    requires Lower(needle) == needle
    ensures Contains(Lower(s), needle)
  {
    LowerSlice(s, i, i + |needle|);
    assert OccursAt(Lower(s), needle, i);
  }

  /** The first index at or after `i` that does not hold whitespace. */
  function SkipSpaceForward(s: string, i: nat): (k: nat)
    requires i <= |s|
    ensures i <= k <= |s|
    ensures forall m :: i <= m < k ==> IsSpace(s[m])
    ensures k < |s| ==> !IsSpace(s[k])
    decreases |s| - i
  {
    if i < |s| && IsSpace(s[i]) then SkipSpaceForward(s, i + 1) else i
  }

  /** The smallest index `k` in `lo..j` such that `s[k..j]` is all whitespace. */
  function SkipSpaceBackward(s: string, j: nat, lo: nat): (k: nat)
    requires lo <= j <= |s|
    ensures lo <= k <= j
    ensures forall m :: k <= m < j ==> IsSpace(s[m])
    ensures lo < k ==> !IsSpace(s[k - 1])
    decreases j
  {
    if lo < j && IsSpace(s[j - 1]) then SkipSpaceBackward(s, j - 1, lo) else j
  }

  /** `t` is `s` with whitespace-only margins `s[..i]` and `s[j..]` cut off. */
  predicate Trims(s: string, t: string, i: int, j: int) {
    0 <= i <= j <= |s| && t == s[i..j] && AllSpace(s[..i]) && AllSpace(s[j..])
  }

  /** Python's `s.strip()`. */
  function Strip(s: string): (r: string)
    ensures NoEdgeSpace(r)
    ensures exists i, j :: Trims(s, r, i, j)
    ensures r == [] <==> AllSpace(s)
  {
    var i := SkipSpaceForward(s, 0);
    var j := SkipSpaceBackward(s, |s|, i);
    assert Trims(s, s[i..j], i, j);
    assert AllSpace(s) ==> i == |s|;
    assert i == j ==> AllSpace(s) by {
      if i == j {
        assert forall k :: 0 <= k < |s| ==> IsSpace(s[k]);
      }
    }
    s[i..j]
  }

  /** Lower-casing keeps whitespace margins: the lower case of a trimmed piece is a trimmed piece of the lower case. */
  lemma LowerKeepsTrims(s: string, t: string, i: int, j: int)
    requires Trims(s, t, i, j)
    ensures Trims(Lower(s), Lower(t), i, j)
  {
    LowerSlice(s, i, j);
    forall k | 0 <= k < i ensures IsSpace(Lower(s)[k]) {
      assert s[k] == s[..i][k];
    }
    forall k | j <= k < |s| ensures IsSpace(Lower(s)[k]) {
      assert s[k] == s[j..][k - j];
    }
    assert AllSpace(Lower(s)[..i]) && AllSpace(Lower(s)[j..]);
  }

  /** An occurrence in a trimmed piece is an occurrence in the whole string. */
  lemma ContainsInWhole(s: string, t: string, i: int, j: int, needle: string)
    requires Trims(s, t, i, j)
    requires Contains(t, needle)
    ensures Contains(s, needle)
  {
    var p :| 0 <= p <= |t| && OccursAt(t, needle, p);
    forall q | 0 <= q < |needle| ensures s[p + i..p + i + |needle|][q] == needle[q] {
      assert t[p..p + |needle|][q] == needle[q];
    }
    assert OccursAt(s, needle, p + i);
  }

  /**
   * An occurrence in the whole string of a non-empty needle without
   * whitespace lies inside the trimmed piece: it cannot touch the margins.
   */
  lemma ContainsInPiece(s: string, t: string, i: int, j: int, needle: string)
    requires Trims(s, t, i, j)
    requires needle != [] && NoSpace(needle)
    requires Contains(s, needle)
    ensures Contains(t, needle)
  {
    var p :| 0 <= p <= |s| && OccursAt(s, needle, p);
    forall k | 0 <= k < i ensures IsSpace(s[k]) {
      assert s[k] == s[..i][k];
    }
    forall k | j <= k < |s| ensures IsSpace(s[k]) {
      assert s[k] == s[j..][k - j];
    }
    assert s[p] == needle[0] && s[p + |needle| - 1] == needle[|needle| - 1];
    forall q | 0 <= q < |needle| ensures t[p - i..p - i + |needle|][q] == needle[q] {
      assert s[p..p + |needle|][q] == needle[q];
    }
    assert OccursAt(t, needle, p - i);
  }

  /**
   * A non-empty needle without whitespace occurs in a string exactly when it
   * occurs in the string with its whitespace margins cut off.
   */
  lemma ContainsInTrimmed(s: string, t: string, i: int, j: int, needle: string)
    requires Trims(s, t, i, j)
    requires needle != [] && NoSpace(needle)
    ensures Contains(t, needle) <==> Contains(s, needle)
  {
    if Contains(t, needle) {
      ContainsInWhole(s, t, i, j, needle);
    }
    if Contains(s, needle) {
      ContainsInPiece(s, t, i, j, needle);
    }
  }

  /**
   * The strip of `s` is unique: any piece of `s` with whitespace-only margins
   * and no whitespace at its own edges is `Strip(s)`.
   */
  lemma StripUnique(s: string, t: string, i: int, j: int)
    requires Trims(s, t, i, j)
    requires NoEdgeSpace(t)
    ensures t == Strip(s)
  {
    var i0 := SkipSpaceForward(s, 0);
    var j0 := SkipSpaceBackward(s, |s|, i0);
    if t == [] {
      forall k | 0 <= k < |s| ensures IsSpace(s[k]) {
        if k < i { assert s[k] == s[..i][k]; } else { assert s[k] == s[j..][k - j]; }
      }
    } else {
      assert s[i] == t[0] && s[j - 1] == t[|t| - 1];
      forall k | 0 <= k < i ensures IsSpace(s[k]) { assert s[k] == s[..i][k]; }
      forall k | j <= k < |s| ensures IsSpace(s[k]) { assert s[k] == s[j..][k - j]; }
      assert i0 == i;
      assert j0 == j;
    }
  }

  /** Stripping a stripped string changes nothing. */
  lemma StripIdempotent(s: string)
    ensures Strip(Strip(s)) == Strip(s)
  {
    var r := Strip(s);
    assert r[..0] == [] && r[|r|..] == [];
    StripUnique(r, r, 0, |r|);
  }
}
