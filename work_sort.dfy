/**
  What `Vec<String>::sort` does to one artist's list of works.

  The sort itself is a library routine; what the program relies on is its
  result: the list in non-decreasing `LexLe` order, holding the same titles.
  `Sort` computes that result by insertion, and `SortedPermutationUnique`
  shows that there is only one such result, so any correct sorting routine
  (Rust's is a stable sort) agrees with `Sort`.
 */
module WorkSort {
  import opened StringOrder

  predicate Sorted(s: seq<string>)
  {
    forall i, j :: 0 <= i < j < |s| ==> LexLe(s[i], s[j])
  }

  /** Places `x` into the sorted list `s`, before the first title it sorts no later than. */
  function InsertSorted(x: string, s: seq<string>): (r: seq<string>)
    requires Sorted(s)
    ensures Sorted(r)
    ensures multiset(r) == multiset(s) + multiset{x}
    ensures |r| == |s| + 1
  {
    if s == [] then [x]
    else if LexLe(x, s[0]) then
      InsertAtFront(x, s);
      [x] + s
    else
      var tail := InsertSorted(x, s[1..]);
      InsertBehindHead(x, s, tail);
      [s[0]] + tail
  }

  lemma InsertAtFront(x: string, s: seq<string>)
    requires Sorted(s) && s != [] && LexLe(x, s[0])
    ensures Sorted([x] + s)
  {
    forall j | 0 < j < |s| ensures LexLe(x, s[j]) {
      LexLeTransitive(x, s[0], s[j]);
    }
  }

  lemma InsertBehindHead(x: string, s: seq<string>, tail: seq<string>)
    requires Sorted(s) && s != [] && !LexLe(x, s[0])
    requires Sorted(tail) && multiset(tail) == multiset(s[1..]) + multiset{x}
    ensures Sorted([s[0]] + tail)
    ensures multiset([s[0]] + tail) == multiset(s) + multiset{x}
  {
    assert s == [s[0]] + s[1..];
    LexLeTotal(x, s[0]);
    forall j | 0 <= j < |tail| ensures LexLe(s[0], tail[j]) {
      assert tail[j] in multiset(tail);
      if tail[j] != x {
        assert tail[j] in s[1..];
      }
    }
  }

  function Sort(s: seq<string>): (r: seq<string>)
    ensures Sorted(r)
    ensures multiset(r) == multiset(s)
    ensures |r| == |s|
  {
    if s == [] then []
    else
      assert s == [s[0]] + s[1..];
      InsertSorted(s[0], Sort(s[1..]))
  }

  /** The first title of a sorted list sorts no later than any of its titles. */
  lemma HeadIsLeast(s: seq<string>, x: string)
    requires Sorted(s) && x in s
    ensures LexLe(s[0], x)
  {
    var j :| 0 <= j < |s| && s[j] == x;
    if j == 0 { LexLeReflexive(x); }
  }

  lemma MultisetOfTail(s: seq<string>)
    requires s != []
    ensures multiset(s[1..]) == multiset(s) - multiset{s[0]}
  {
    assert s == [s[0]] + s[1..];
  }

  /** A sorted list is determined by its multiset of titles. */
  lemma {:induction false} SortedPermutationUnique(s: seq<string>, t: seq<string>)
    requires Sorted(s) && Sorted(t)
    requires multiset(s) == multiset(t)
    ensures s == t
  {
    if s == [] {
      assert |t| == |multiset(t)| == 0;
    } else {
      assert |t| == |multiset(t)| == |s|;
      assert s[0] in multiset(t) && t[0] in multiset(s);
      HeadIsLeast(t, s[0]);
      HeadIsLeast(s, t[0]);
      LexLeAntisymmetric(s[0], t[0]);
      MultisetOfTail(s);
      MultisetOfTail(t);
      SortedPermutationUnique(s[1..], t[1..]);
      assert s == [s[0]] + s[1..] && t == [t[0]] + t[1..];
    }
  }

  /** Every sorted permutation of `s` is `Sort(s)`. */
  lemma SortIsUnique(s: seq<string>, t: seq<string>)
    requires Sorted(t) && multiset(t) == multiset(s)
    ensures t == Sort(s)
  {
    SortedPermutationUnique(t, Sort(s));
  }

  /** Sorting a list that is already sorted leaves it as it is. */
  lemma SortFixesSorted(s: seq<string>)
    requires Sorted(s)
    ensures Sort(s) == s
  {
    SortIsUnique(s, s);
  }

  lemma SortIdempotent(s: seq<string>)
    ensures Sort(Sort(s)) == Sort(s)
  {
    SortFixesSorted(Sort(s));
  }

  /** A two-title list is kept when its titles are in order and swapped otherwise. */
  lemma SortPair(a: string, b: string)
    ensures Sort([a, b]) == if LexLe(a, b) then [a, b] else [b, a]
  {
    assert [a, b][1..] == [b];
    assert Sort([b]) == [b];
  }
}
