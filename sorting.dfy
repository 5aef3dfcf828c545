/** Sorting of number lists, as Python's `sorted` and the browser's numeric
    `Array.prototype.sort((a, b) => a - b)` do it, and the shape of a lottery
    combination. */
module Sorting {

  const LowestNumber := 1
  const HighestNumber := 45
  const DrawSize := 6

  predicate IsSorted(s: seq<int>) {
    forall i, j :: 0 <= i < j < |s| ==> s[i] <= s[j]
  }

  predicate StrictlyIncreasing(s: seq<int>) {
    forall i, j :: 0 <= i < j < |s| ==> s[i] < s[j]
  }

  predicate Distinct<T(==)>(s: seq<T>) {
    forall i, j :: 0 <= i < j < |s| ==> s[i] != s[j]
  }

  predicate InRange(s: seq<int>) {
    forall i :: 0 <= i < |s| ==> LowestNumber <= s[i] <= HighestNumber
  }

  /** What `random.sample(range(1, 46), 6)` hands back: six distinct numbers of
      1..45, in any order. */
  predicate IsSample(s: seq<int>) {
    |s| == DrawSize && Distinct(s) && InRange(s)
  }

  /** A combination as the generators produce it: six numbers of 1..45 in
      strictly ascending order. */
  predicate IsCombination(c: seq<int>) {
    |c| == DrawSize && StrictlyIncreasing(c) && InRange(c)
  }

  /** A lower bound on the elements carries over to any rearrangement. */
  lemma BoundedBelow(r: seq<int>, m: seq<int>, lo: int)
    requires multiset(r) == multiset(m)
    requires forall j :: 0 <= j < |m| ==> lo <= m[j]
    ensures forall j :: 0 <= j < |r| ==> lo <= r[j]
  {
    forall j | 0 <= j < |r|
      ensures lo <= r[j]
    {
      assert r[j] in multiset(m);
    }
  }

  lemma ConsSorted(h: int, t: seq<int>)
    requires IsSorted(t)
    requires forall j :: 0 <= j < |t| ==> h <= t[j]
    ensures IsSorted([h] + t)
  {
  }

  /** x placed before the first element it does not exceed. */
  function Insert(x: int, s: seq<int>): seq<int> {
    if s == [] || x <= s[0] then [x] + s
    else [s[0]] + Insert(x, s[1..])
  }

  /** Inserting adds exactly x. */
  lemma {:induction false} InsertAdds(x: int, s: seq<int>)
    ensures multiset(Insert(x, s)) == multiset(s) + multiset{x}
  {
    if s != [] && x > s[0] {
      InsertAdds(x, s[1..]);
      assert s == [s[0]] + s[1..];
      assert Insert(x, s) == [s[0]] + Insert(x, s[1..]);
    }
  }

  /** Inserting into an ascending sequence keeps it ascending and adds x. */
  lemma {:induction false} InsertSpec(x: int, s: seq<int>)
    requires IsSorted(s)
    ensures IsSorted(Insert(x, s))
    ensures multiset(Insert(x, s)) == multiset(s) + multiset{x}
  {
    InsertAdds(x, s);
    if s == [] || x <= s[0] {
      forall j | 0 <= j < |s|
        ensures x <= s[j]
      {
        assert s[0] <= s[j];
      }
      ConsSorted(x, s);
    } else {
      var rest := Insert(x, s[1..]);
      assert Insert(x, s) == [s[0]] + rest;
      InsertSpec(x, s[1..]);
      assert s == [s[0]] + s[1..];
      PrependSmallest(s[0], s[1..], x, rest);
    }
  }

  /** The step of InsertSpec past a head smaller than x. */
  lemma PrependSmallest(h: int, tail: seq<int>, x: int, rest: seq<int>)
    requires IsSorted([h] + tail) && h < x
    requires IsSorted(rest) && multiset(rest) == multiset(tail) + multiset{x}
    ensures IsSorted([h] + rest)
  {
    assert multiset(rest) == multiset(tail + [x]);
    forall j | 0 <= j < |tail + [x]|
      ensures h <= (tail + [x])[j]
    {
      if j < |tail| {
        assert ([h] + tail)[0] <= ([h] + tail)[j + 1];
        assert (tail + [x])[j] == tail[j];
      } else {
        assert (tail + [x])[j] == x;
      }
    }
    BoundedBelow(rest, tail + [x], h);
    ConsSorted(h, rest);
  }

  /** The ascending rearrangement of s. */
  function Sort(s: seq<int>): (r: seq<int>)
    ensures IsSorted(r)
    ensures multiset(r) == multiset(s)
    ensures |r| == |s|
  {
    if s == [] then []
    else
      assert s == [s[0]] + s[1..];
      InsertSpec(s[0], Sort(s[1..]));
      Insert(s[0], Sort(s[1..]))
  }

  /** Two ascending sequences with the same elements are the same sequence. */
  lemma {:induction false} SortedUnique(a: seq<int>, b: seq<int>)
    requires IsSorted(a) && IsSorted(b)
    requires multiset(a) == multiset(b)
    ensures a == b
  {
    if a == [] {
      assert |multiset(b)| == 0;
    } else {
      assert |multiset(a)| == |a| && |multiset(b)| == |b|;
      assert |b| == |a|;
      assert a[0] in multiset(b);
      assert b[0] in multiset(a);
      assert a[0] == b[0];
      assert a == [a[0]] + a[1..];
      assert b == [b[0]] + b[1..];
      assert multiset(a) == multiset{a[0]} + multiset(a[1..]);
      assert multiset(b) == multiset{b[0]} + multiset(b[1..]);
      assert multiset(a[1..]) == multiset(a) - multiset{a[0]};
      assert multiset(b[1..]) == multiset(b) - multiset{b[0]};
      SortedUnique(a[1..], b[1..]);
    }
  }

  /** Comparing sorted tuples is comparing the numbers regardless of order. */
  lemma SortEqualIffPermutation(a: seq<int>, b: seq<int>)
    ensures Sort(a) == Sort(b) <==> multiset(a) == multiset(b)
  {
    if multiset(a) == multiset(b) {
      SortedUnique(Sort(a), Sort(b));
    }
  }

  lemma SortOfSorted(s: seq<int>)
    requires IsSorted(s)
    ensures Sort(s) == s
  {
    SortedUnique(Sort(s), s);
  }

  lemma SortIdempotent(s: seq<int>)
    ensures Sort(Sort(s)) == Sort(s)
  {
    SortedUnique(Sort(Sort(s)), Sort(s));
  }

  lemma {:induction false} DistinctHasMultiplicityOne<T>(s: seq<T>, x: T)
    requires Distinct(s)
    ensures multiset(s)[x] <= 1
  {
    if s != [] {
      assert s == [s[0]] + s[1..];
      DistinctHasMultiplicityOne(s[1..], x);
      if s[0] == x {
        assert x !in s[1..];
      }
    }
  }

  lemma {:induction false} RepeatHasMultiplicityTwo<T>(s: seq<T>, i: int, j: int)
    requires 0 <= i < j < |s| && s[i] == s[j]
    ensures multiset(s)[s[i]] >= 2
  {
    assert s == [s[0]] + s[1..];
    if i == 0 {
      assert s[1..][j - 1] == s[0];
      assert s[0] in multiset(s[1..]);
    } else {
      RepeatHasMultiplicityTwo(s[1..], i - 1, j - 1);
    }
  }

  /** Distinctness is a property of the multiset, so a permutation keeps it. */
  lemma DistinctPermutation<T>(a: seq<T>, b: seq<T>)
    requires multiset(a) == multiset(b)
    requires Distinct(a)
    ensures Distinct(b)
  {
    forall i, j | 0 <= i < j < |b| && b[i] == b[j]
      ensures false
    {
      RepeatHasMultiplicityTwo(b, i, j);
      DistinctHasMultiplicityOne(a, b[i]);
    }
  }

  /** Sorting a sample gives a combination: the generators' output shape. */
  lemma SortedSampleIsCombination(s: seq<int>)
    requires IsSample(s)
    ensures IsCombination(Sort(s))
  {
    var r := Sort(s);
    DistinctPermutation(s, r);
    forall i | 0 <= i < |r|
      ensures LowestNumber <= r[i] <= HighestNumber
    {
      assert r[i] in multiset(s);
    }
  }
}
