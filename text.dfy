/** Option, for lookups that may find nothing and steps that may fail. */
module Wrappers {
  datatype Option<+T> = None | Some(value: T)
}

/**
 * The few Python string operations the bot relies on, over `seq<char>`:
 * `str.lower()`, the `in` substring test, and the first element of
 * `str.split()`.
 */
module Text {
  import opened Wrappers

  /** `c.lower()` for one character; only the ASCII letters are mapped. */
  function LowerChar(c: char): char
  {
    if 'A' <= c <= 'Z' then (c as int - 'A' as int + 'a' as int) as char else c
  }

  /** `s.lower()`: same length, every character lowered. */
  function Lower(s: string): string
  {
    seq(|s|, i requires 0 <= i < |s| => LowerChar(s[i]))
  }

  lemma LowerIdempotent(s: string)
    ensures Lower(Lower(s)) == Lower(s)
  {
  }

  /** `needle` occurs in `hay` starting at index `k`. */
  predicate OccursAt(hay: string, needle: string, k: int)
  {
    0 <= k && k + |needle| <= |hay| && hay[k..k + |needle|] == needle
  }

  /** Python's `needle in hay` on strings; the empty string is in every string. */
  predicate Contains(hay: string, needle: string)
  {
    exists k :: 0 <= k <= |hay| - |needle| && OccursAt(hay, needle, k)
  }

  predicate EndsWith(s: string, suffix: string)
  {
    |suffix| <= |s| && s[|s| - |suffix|..] == suffix
  }

  /**
   * A string ending in " (id)" with `id` already lower case still contains
   * `id` once the whole string is lowered: the label the bot writes on a
   * verified member keeps matching that member's computing id.
   */
  lemma LoweredSuffixContains(s: string, id: string)
    requires Lower(id) == id
    requires EndsWith(s, " (" + id + ")")
    ensures Contains(Lower(s), id)
  {
    var k := |s| - |id| - 1;
    var low := Lower(s);
    forall j | 0 <= j < |id|
      ensures low[k + j] == id[j]
    {
      assert s[k + j] == (" (" + id + ")")[j + 2] == id[j];
      assert Lower(id)[j] == LowerChar(id[j]);
    }
    assert low[k..k + |id|] == id;
    assert OccursAt(low, id, k);
  }

  /** A string ending in " (id)" contains `id` as written. */
  lemma SuffixContains(s: string, id: string)
    requires EndsWith(s, " (" + id + ")")
    ensures Contains(s, id)
  {
    var k := |s| - |id| - 1;
    forall j | 0 <= j < |id|
      ensures s[k + j] == id[j]
    {
      assert s[k + j] == (" (" + id + ")")[j + 2];
    }
    assert s[k..k + |id|] == id;
    assert OccursAt(s, id, k);
  }

  /** Python's `str.isspace()` for one character: the separators `str.split()` uses. */
  predicate IsSpace(c: char)
  {
    || '\t' <= c <= '\r'
    || '\U{1C}' <= c <= '\U{1F}'
    || c == ' ' || c == '\U{85}' || c == '\U{A0}' || c == '\U{1680}'
    || '\U{2000}' <= c <= '\U{200A}'
    || c == '\U{2028}' || c == '\U{2029}' || c == '\U{202F}' || c == '\U{205F}' || c == '\U{3000}'
  }

  predicate AllSpace(s: string)
  {
    forall i :: 0 <= i < |s| ==> IsSpace(s[i])
  }

  /** Number of leading whitespace characters of `s`. */
  function SpaceLength(s: string): (n: nat)
    ensures n <= |s|
    ensures AllSpace(s[..n])
    ensures n == |s| || !IsSpace(s[n])
  {
    if s == [] || !IsSpace(s[0]) then 0
    else
      var n := 1 + SpaceLength(s[1..]);
      assert s[..n] == [s[0]] + s[1..][..n - 1];
      n
  }

  /** Length of the longest prefix of `s` without whitespace. */
  function WordLength(s: string): (n: nat)
    ensures n <= |s|
    ensures forall i :: 0 <= i < n ==> !IsSpace(s[i])
    ensures n == |s| || IsSpace(s[n])
  {
    if s == [] || IsSpace(s[0]) then 0 else 1 + WordLength(s[1..])
  }

  /**
   * `w` stands at index `k` of `s` as a whole word after leading whitespace:
   * only whitespace precedes it, and whitespace or the end of `s` follows it.
   */
  predicate WordAt(s: string, w: string, k: int)
  {
    0 <= k && k + |w| <= |s| && AllSpace(s[..k]) && s[k..k + |w|] == w
    && (k + |w| == |s| || IsSpace(s[k + |w|]))
  }

  /** `w` is `s.split()[0]`: a non-empty run of non-space characters standing as a word after the leading whitespace. */
  ghost predicate IsFirstWord(s: string, w: string)
  {
    && w != []
    && (forall i :: 0 <= i < |w| ==> !IsSpace(w[i]))
    && exists k :: WordAt(s, w, k)
  }

  /** `s.split()[0]`, or None where Python raises IndexError because `s` has no word. */
  function FirstWord(s: string): (r: Option<string>)
    ensures r.None? <==> AllSpace(s)
    ensures r.Some? ==> IsFirstWord(s, r.value)
  {
    var k := SpaceLength(s);
    if k == |s| then
      assert s[..k] == s;
      None
    else
      var n := WordLength(s[k..]);
      var w := s[k..k + n];
      assert n > 0;
      assert !AllSpace(s) by { assert !IsSpace(s[k]); }
      assert forall i :: 0 <= i < |w| ==> !IsSpace(w[i]) by {
        forall i | 0 <= i < |w| ensures !IsSpace(w[i]) { assert w[i] == s[k..][i]; }
      }
      assert k + n == |s| || IsSpace(s[k + n]) by { if k + n < |s| { assert s[k..][n] == s[k + n]; } }
      assert WordAt(s, w, k);
      Some(w)
  }

  /** A string has at most one first word. */
  lemma FirstWordUnique(s: string, w1: string, w2: string)
    requires IsFirstWord(s, w1) && IsFirstWord(s, w2)
    ensures w1 == w2
  {
    var k1 :| WordAt(s, w1, k1);
    var k2 :| WordAt(s, w2, k2);
    if k1 < k2 {
      assert s[k1] == w1[0];
      SpacePrefixAt(s, k2, k1);
    } else if k2 < k1 {
      assert s[k2] == w2[0];
      SpacePrefixAt(s, k1, k2);
    } else if |w1| != |w2| {
      assert false;
    } else {
      assert w1 == s[k1..k1 + |w1|] == w2;
    }
  }

  lemma SpacePrefixAt(s: string, k: nat, j: nat)
    requires j < k <= |s| && AllSpace(s[..k])
    ensures IsSpace(s[j])
  {
    assert s[..k][j] == s[j];
  }
}
