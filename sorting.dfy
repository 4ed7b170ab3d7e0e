/** Collections.sort on a list of integers, as an insertion sort on sequences, and the fact
    that makes its exact algorithm irrelevant: a sorted permutation is unique.
    Sort and Insert promise only their length in their own contracts; what they compute is
    stated by the lemmas below, so that the solver does not unfold them wherever they occur. */
module Sorting {

  predicate Sorted(s: seq<int>)
  {
    forall i, j :: 0 <= i < j < |s| ==> s[i] <= s[j]
  }

  function Insert(x: int, s: seq<int>): (r: seq<int>)
    ensures |r| == |s| + 1
  {
    if s == [] then [x]
    else if x <= s[0] then [x] + s
    else [s[0]] + Insert(x, s[1..])
  }

  /** Sorts ascending. */
  function Sort(s: seq<int>): (r: seq<int>)
    ensures |r| == |s|
  {
    if s == [] then [] else Insert(s[0], Sort(s[1..]))
  }

  /** A head no larger than any element of a sorted tail gives a sorted sequence. */
  lemma ConsSorted(h: int, t: seq<int>)
    requires Sorted(t)
    requires forall v :: v in multiset(t) ==> h <= v
    ensures Sorted([h] + t)
  {
    forall i, j | 0 <= i < j < |t| + 1 ensures ([h] + t)[i] <= ([h] + t)[j] {
      if i == 0 {
        assert t[j - 1] in multiset(t);
      }
    }
  }

  /** Inserting adds exactly one occurrence of the value. */
  lemma {:induction false} InsertPermutes(x: int, s: seq<int>)
    ensures multiset(Insert(x, s)) == multiset(s) + multiset{x}
    decreases |s|
  {
    if s != [] && x > s[0] {
      assert s == [s[0]] + s[1..];
      InsertPermutes(x, s[1..]);
    }
  }

  /** The head of a sorted sequence is at most any of its elements. */
  lemma SortedHeadIsLeast(a: seq<int>, v: int)
    requires Sorted(a) && v in multiset(a)
    ensures |a| > 0 && a[0] <= v
  {
    var k :| 0 <= k < |a| && a[k] == v;
  }

  /** Inserting into a sorted sequence keeps it sorted. */
  lemma {:induction false} InsertSorted(x: int, s: seq<int>)
    requires Sorted(s)
    ensures Sorted(Insert(x, s))
    decreases |s|
  {
    if s == [] {
    } else if x <= s[0] {
      ConsSorted(x, s);
    } else {
      var t := s[1..];
      assert s == [s[0]] + t;
      InsertSorted(x, t);
      InsertPermutes(x, t);
      var r := Insert(x, t);
      assert Insert(x, s) == [s[0]] + r;
      forall v | v in multiset(r) ensures s[0] <= v {
        if v != x {
          SortedHeadIsLeast(s, v);
        }
      }
      ConsSorted(s[0], r);
    }
  }

  /** The result of Sort is sorted and a permutation of its input. */
  lemma {:induction false} SortCorrect(s: seq<int>)
    ensures Sorted(Sort(s))
    ensures multiset(Sort(s)) == multiset(s)
    decreases |s|
  {
    if s != [] {
      assert s == [s[0]] + s[1..];
      SortCorrect(s[1..]);
      InsertSorted(s[0], Sort(s[1..]));
      InsertPermutes(s[0], Sort(s[1..]));
    }
  }

  lemma SortSorted(s: seq<int>)
    ensures Sorted(Sort(s))
  {
    SortCorrect(s);
  }

  lemma SortPermutes(s: seq<int>)
    ensures multiset(Sort(s)) == multiset(s)
  {
    SortCorrect(s);
  }

  /** Inserting two values gives the same result in either order. */
  lemma {:induction false} InsertCommutes(x: int, y: int, t: seq<int>)
    ensures Insert(x, Insert(y, t)) == Insert(y, Insert(x, t))
    decreases |t|
  {
    if t != [] && x > t[0] && y > t[0] {
      InsertCommutes(x, y, t[1..]);
    }
  }

  /** Exchanging two neighbouring elements of the input does not change the sorted result. */
  lemma {:induction false} SortSwapNeighbours(p: seq<int>, x: int, y: int, r: seq<int>)
    ensures Sort(p + [x, y] + r) == Sort(p + [y, x] + r)
    decreases |p|
  {
    if p == [] {
      assert [x, y] + r == [x] + ([y] + r);
      assert [y, x] + r == [y] + ([x] + r);
      assert ([x] + ([y] + r))[1..] == [y] + r;
      assert ([y] + ([x] + r))[1..] == [x] + r;
      assert ([y] + r)[1..] == r;
      assert ([x] + r)[1..] == r;
      InsertCommutes(x, y, Sort(r));
    } else {
      assert (p + [x, y] + r)[1..] == p[1..] + [x, y] + r;
      assert (p + [y, x] + r)[1..] == p[1..] + [y, x] + r;
      SortSwapNeighbours(p[1..], x, y, r);
    }
  }

  /** Sorting an already sorted sequence leaves it as it is. */
  lemma {:induction false} SortOfSorted(e: seq<int>)
    requires Sorted(e)
    ensures Sort(e) == e
    decreases |e|
  {
    if e != [] {
      SortOfSorted(e[1..]);
      assert e == [e[0]] + e[1..];
    }
  }

  lemma SortedTail(a: seq<int>)
    requires Sorted(a) && a != []
    ensures Sorted(a[1..]) && multiset(a[1..]) == multiset(a) - multiset{a[0]}
  {
    assert a == [a[0]] + a[1..];
  }

  /** Two sorted sequences with the same elements start with the same element. */
  lemma SameHead(a: seq<int>, b: seq<int>)
    requires Sorted(a) && Sorted(b) && multiset(a) == multiset(b) && a != []
    ensures b != [] && a[0] == b[0]
  {
    assert a[0] in multiset(a);
    SortedHeadIsLeast(b, a[0]);
    SortedHeadIsLeast(a, b[0]);
  }

  /** Two sorted sequences with the same elements are equal. */
  lemma {:induction false} SortedUnique(a: seq<int>, b: seq<int>)
    requires Sorted(a) && Sorted(b)
    requires multiset(a) == multiset(b)
    ensures a == b
    decreases |a|
  {
    if a == [] {
      assert |multiset(b)| == 0;
    } else {
      SameHead(a, b);
      SortedTail(a);
      SortedTail(b);
      SortedUnique(a[1..], b[1..]);
      assert a == [a[0]] + a[1..];
      assert b == [b[0]] + b[1..];
    }
  }

  /** Sorting depends only on the multiset of the input: it is the one sorted permutation. */
  lemma SortIsSortedPermutation(s: seq<int>, e: seq<int>)
    requires Sorted(e) && multiset(e) == multiset(s)
    ensures Sort(s) == e
  {
    SortCorrect(s);
    SortedUnique(Sort(s), e);
  }
}
