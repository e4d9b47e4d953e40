/** Substring search with a skip of up to two positions (lib/memmem.c, lib/strstr.c). */
module MemMem {

  import opened Basics

  ghost predicate MatchAt<T>(y: seq<T>, x: seq<T>, j: int) {
    0 <= j && j + |x| <= |y| && y[j..j + |x|] == x
  }

  // The reference search: try every position in turn.
  function NaiveFind<T(==)>(y: seq<T>, x: seq<T>, j: nat): (r: Option<nat>)
    ensures r.Some? ==> j <= r.value && MatchAt(y, x, r.value)
    ensures forall i :: j <= i && (r.Some? ==> i < r.value) ==> !MatchAt(y, x, i)
    decreases |y| - j
  {
    if j + |x| > |y| then None
    else if y[j..j + |x|] == x then Some(j)
    else NaiveFind(y, x, j + 1)
  }

  lemma FirstMatch<T>(y: seq<T>, x: seq<T>, j: nat)
    requires MatchAt(y, x, j) && forall i :: 0 <= i < j ==> !MatchAt(y, x, i)
    ensures NaiveFind(y, x, 0) == Some(j)
  {
    var r := NaiveFind(y, x, 0);
    assert r.Some? && MatchAt(y, x, r.value);
  }

  // memcmp, reduced to its "equal" answer.
  method MemEqual<T(==)>(a: seq<T>, b: seq<T>) returns (equal: bool)
    requires |a| == |b|
    ensures equal <==> a == b
  {
    for i := 0 to |a|
      invariant a[..i] == b[..i]
    {
      if a[i] != b[i] {
        return false;
      }
    }
    return true;
  }

  // A match at j fixes its first two elements.
  lemma MatchStart<T>(y: seq<T>, x: seq<T>, j: int)
    requires |x| >= 2 && MatchAt(y, x, j)
    ensures y[j] == x[0] && y[j + 1] == x[1]
  {
    assert y[j..j + |x|][0] == y[j] && y[j..j + |x|][1] == y[j + 1];
  }

  // Positions the search may skip after looking at y[j + 1].
  lemma SkipSafe<T>(y: seq<T>, x: seq<T>, j: nat)
    requires |x| >= 2 && j + |x| <= |y|
    ensures x[1] != y[j + 1] ==> !MatchAt(y, x, j)
    ensures x[1] != y[j + 1] && x[0] == x[1] ==> !MatchAt(y, x, j + 1)
    ensures x[1] == y[j + 1] && x[0] != x[1] ==> !MatchAt(y, x, j + 1)
  {
    if MatchAt(y, x, j) { MatchStart(y, x, j); }
    if MatchAt(y, x, j + 1) { MatchStart(y, x, j + 1); }
  }

  lemma MatchSplit<T>(y: seq<T>, x: seq<T>, j: nat)
    requires |x| >= 2 && j + |x| <= |y|
    ensures MatchAt(y, x, j) <==> x[0] == y[j] && x[1] == y[j + 1] && x[2..] == y[j + 2..j + |x|]
  {
    var z := y[j..j + |x|];
    assert z == [y[j], y[j + 1]] + y[j + 2..j + |x|];
    assert x == [x[0], x[1]] + x[2..];
    if MatchAt(y, x, j) { MatchStart(y, x, j); }
  }

  /** memmem: position of the leftmost occurrence of needle x in haystack y. */
  method Find<T(==)>(y: seq<T>, x: seq<T>) returns (r: Option<nat>)
    ensures x == [] ==> r == None
    ensures x != [] ==> r == NaiveFind(y, x, 0)
  {
    var n, m := |y|, |x|;
    if m > n || m == 0 || n == 0 {
      return None;
    }
    if m != 1 {
      var k, l;
      if x[0] == x[1] {
        k, l := 2, 1;
      } else {
        k, l := 1, 2;
      }
      var j := 0;
      while j <= n - m
        invariant 0 <= j
        invariant forall i :: 0 <= i < j ==> !MatchAt(y, x, i)
        decreases n - j
      {
        SkipSafe(y, x, j);
        MatchSplit(y, x, j);
        if x[1] != y[j + 1] {
          j := j + k;
        } else {
          var tail := MemEqual(x[2..], y[j + 2..j + m]);
          if tail && x[0] == y[j] {
            FirstMatch(y, x, j);
            return Some(j);
          }
          j := j + l;
        }
      }
    } else {
      var i := 0;
      while i < n
        invariant 0 <= i <= n
        invariant forall a :: 0 <= a < i ==> !MatchAt(y, x, a)
      {
        assert y[i..i + 1] == [y[i]];
        if y[i] == x[0] {
          FirstMatch(y, x, i);
          return Some(i);
        }
        i := i + 1;
      }
    }
    return None;
  }

  // Length of a NUL-terminated string held in a buffer.
  function StrLen(s: seq<char>): (n: nat)
    requires '\0' in s
    ensures n < |s| && s[n] == '\0' && '\0' !in s[..n]
  {
    if s[0] == '\0' then 0
    else
      assert s == [s[0]] + s[1..];
      var n := 1 + StrLen(s[1..]);
      assert s[..n] == [s[0]] + s[1..][..n - 1];
      n
  }

  /** strstr through memmem: the leftmost occurrence, but no match for an empty needle, where
      section 7.24.5.7 of ISO/IEC 9899:2011 asks for the haystack itself. */
  method StrStr(haystack: seq<char>, needle: seq<char>) returns (r: Option<nat>)
    requires '\0' in haystack && '\0' in needle
    ensures StrLen(needle) == 0 ==> r == None
    ensures StrLen(needle) > 0 ==>
      r == NaiveFind(haystack[..StrLen(haystack)], needle[..StrLen(needle)], 0)
  {
    r := Find(haystack[..StrLen(haystack)], needle[..StrLen(needle)]);
  }
}
