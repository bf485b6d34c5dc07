/**
 * Python's ordering of `str` values (lexicographic by code point, a proper
 * prefix first) and the sort that `list.sort()` performs on a list of them.
 */
module Ordering {

  /** `a < b` on Python strings. */
  predicate Below(a: string, b: string)
    decreases |a|
  {
    b != [] && (a == [] || a[0] < b[0] || (a[0] == b[0] && Below(a[1..], b[1..])))
  }

  lemma {:induction false} BelowIrreflexive(a: string)
    ensures !Below(a, a)
  {
    if a != [] {
      BelowIrreflexive(a[1..]);
    }
  }

  lemma {:induction false} BelowTransitive(a: string, b: string, c: string)
    requires Below(a, b) && Below(b, c)
    ensures Below(a, c)
  {
    if a != [] && a[0] == b[0] && b[0] == c[0] {
      BelowTransitive(a[1..], b[1..], c[1..]);
    }
  }

  /** Any two different strings are ordered one way or the other. */
  lemma {:induction false} BelowTotal(a: string, b: string)
    requires a != b
    ensures Below(a, b) || Below(b, a)
  {
    if a != [] && b != [] && a[0] == b[0] {
      assert a == [a[0]] + a[1..] && b == [b[0]] + b[1..];
      BelowTotal(a[1..], b[1..]);
    }
  }

  lemma BelowAsymmetric(a: string, b: string)
    requires Below(a, b)
    ensures !Below(b, a)
  {
    if Below(b, a) {
      BelowTransitive(a, b, a);
      BelowIrreflexive(a);
    }
  }

  /** `a <= b` and `b <= c` give `a <= c`, with `x <= y` read as `!(y < x)`. */
  lemma NotBelowTransitive(a: string, b: string, c: string)
    requires !Below(b, a) && !Below(c, b)
    ensures !Below(c, a)
  {
    if Below(c, a) && a != b {
      BelowTotal(a, b);
      BelowTransitive(c, a, b);
    }
  }

  /** Non-decreasing, as `list.sort()` leaves a list. */
  predicate Sorted(s: seq<string>)
  {
    forall i, j :: 0 <= i < j < |s| ==> !Below(s[j], s[i])
  }

  /** Strictly increasing: sorted, with no element twice. */
  predicate StrictlySorted(s: seq<string>)
  {
    forall i, j :: 0 <= i < j < |s| ==> Below(s[i], s[j])
  }

  /** No element occurs more than once. */
  ghost predicate NoRepeats(s: seq<string>)
  {
    forall x :: multiset(s)[x] <= 1
  }

  lemma FrontStaysSorted(x: string, s: seq<string>)
    requires Sorted(s)
    requires s == [] || !Below(s[0], x)
    ensures Sorted([x] + s)
  {
    forall j | 0 <= j < |s|
      ensures !Below(s[j], x)
    {
      if j > 0 {
        NotBelowTransitive(x, s[0], s[j]);
      }
    }
  }

  lemma HeadStaysSorted(x: string, s: seq<string>, rest: seq<string>)
    requires Sorted(s) && s != [] && Below(s[0], x)
    requires Sorted(rest) && multiset(rest) == multiset(s[1..]) + multiset{x}
    ensures Sorted([s[0]] + rest)
  {
    forall j | 0 <= j < |rest|
      ensures !Below(rest[j], s[0])
    {
      assert rest[j] in multiset(rest);
      if rest[j] == x {
        BelowAsymmetric(s[0], x);
      } else {
        assert rest[j] in s[1..];
      }
    }
  }

  /** Insert `x` into the sorted `s` after every element below it. */
  function Insert(x: string, s: seq<string>): (r: seq<string>)
    requires Sorted(s)
    ensures Sorted(r)
    ensures multiset(r) == multiset(s) + multiset{x}
    decreases |s|
  {
    if s == [] || !Below(s[0], x) then
      FrontStaysSorted(x, s);
      [x] + s
    else
      var rest := Insert(x, s[1..]);
      HeadStaysSorted(x, s, rest);
      assert s == [s[0]] + s[1..];
      [s[0]] + rest
  }

  /** `ids.sort()`: the same elements, non-decreasing. */
  method Sort(ids: seq<string>) returns (sorted: seq<string>)
    ensures Sorted(sorted)
    ensures multiset(sorted) == multiset(ids)
  {
    sorted := [];
    for i := 0 to |ids|
      invariant Sorted(sorted)
      invariant multiset(sorted) == multiset(ids[..i])
    {
      assert ids[..i + 1] == ids[..i] + [ids[i]];
      sorted := Insert(ids[i], sorted);
    }
    assert ids[..|ids|] == ids;
  }

  /** The head of a sorted list is at most every element of it. */
  lemma SortedHeadLeast(s: seq<string>, x: string)
    requires Sorted(s) && x in s
    ensures !Below(x, s[0])
  {
    var i :| 0 <= i < |s| && s[i] == x;
    if i > 0 {
      assert !Below(s[i], s[0]);
    } else {
      BelowIrreflexive(x);
    }
  }

  /** Two sorted orderings of the same elements are the same list: the sort's result is determined. */
  lemma {:induction false} SortedUnique(a: seq<string>, b: seq<string>)
    requires Sorted(a) && Sorted(b) && multiset(a) == multiset(b)
    ensures a == b
    decreases |a|
  {
    if a != [] && b != [] {
      assert a[0] in multiset(b) && b[0] in multiset(a);
      SortedHeadLeast(b, a[0]);
      SortedHeadLeast(a, b[0]);
      if a[0] != b[0] {
        BelowTotal(a[0], b[0]);
      }
      assert a[0] == b[0];
      assert a == [a[0]] + a[1..] && b == [b[0]] + b[1..];
      assert multiset(a[1..]) == multiset(a) - multiset{a[0]};
      assert multiset(b[1..]) == multiset(b) - multiset{b[0]};
      SortedUnique(a[1..], b[1..]);
    } else {
      assert |multiset(a)| == |a| && |multiset(b)| == |b|;
    }
  }

  /** A sorted list without repeats is strictly increasing. */
  lemma SortedWithoutRepeats(s: seq<string>)
    requires Sorted(s) && NoRepeats(s)
    ensures StrictlySorted(s)
  {
    forall i, j | 0 <= i < j < |s|
      ensures Below(s[i], s[j])
    {
      if s[i] != s[j] {
        BelowTotal(s[i], s[j]);
      } else {
        RepeatCounted(s, i, j);
      }
    }
  }

  lemma RepeatCounted(s: seq<string>, i: nat, j: nat)
    requires i < j < |s| && s[i] == s[j]
    ensures multiset(s)[s[i]] >= 2
  {
    assert s == s[..j] + [s[j]] + s[j + 1..];
    assert s[i] in multiset(s[..j]) by { assert s[..j][i] == s[i]; }
  }
}
