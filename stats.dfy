/** The quantities the pattern analyses count over a list of draws: every
    number drawn, even/odd and small/large classes, and pairs of consecutive
    numbers inside one draw. */
module Stats {
  import opened Sorting

  /** "Small" numbers are those at most 22; the rest are "large". */
  const SmallLimit := 22

  /** All numbers of all rows, row after row. */
  function AllNumbers(rows: seq<seq<int>>): seq<int> {
    if rows == [] then [] else AllNumbers(rows[..|rows| - 1]) + rows[|rows| - 1]
  }

  lemma {:induction false} AllNumbersLength(rows: seq<seq<int>>)
    requires forall i :: 0 <= i < |rows| ==> |rows[i]| == DrawSize
    ensures |AllNumbers(rows)| == DrawSize * |rows|
  {
    if rows != [] {
      AllNumbersLength(rows[..|rows| - 1]);
    }
  }

  lemma {:induction false} AllNumbersMembers(rows: seq<seq<int>>, x: int)
    ensures x in AllNumbers(rows) <==> exists i :: 0 <= i < |rows| && x in rows[i]
  {
    if rows != [] {
      var init, last := rows[..|rows| - 1], rows[|rows| - 1];
      AllNumbersMembers(init, x);
      assert x in AllNumbers(rows) <==> x in AllNumbers(init) || x in last;
      if x in AllNumbers(init) {
        var i :| 0 <= i < |init| && x in init[i];
        assert rows[i] == init[i];
      }
      if exists i :: 0 <= i < |rows| && x in rows[i] {
        var i :| 0 <= i < |rows| && x in rows[i];
        if i < |init| {
          assert rows[i] == init[i];
        }
      }
    }
  }

  /** The classes the analyses tally numbers into. */
  datatype Category = Even | Odd | Small | Large

  /** `num % 2 == 0` means the same for every integer in Python, in
      JavaScript and here; `num <= 22` is the small test. */
  predicate InCategory(x: int, c: Category) {
    match c
    case Even => x % 2 == 0
    case Odd => x % 2 != 0
    case Small => x <= SmallLimit
    case Large => x > SmallLimit
  }

  /** How many elements of s fall in category c. */
  function CountIn(s: seq<int>, c: Category): nat {
    if s == [] then 0
    else CountIn(s[..|s| - 1], c) + (if InCategory(s[|s| - 1], c) then 1 else 0)
  }

  lemma {:induction false} CountInAppend(a: seq<int>, b: seq<int>, c: Category)
    ensures CountIn(a + b, c) == CountIn(a, c) + CountIn(b, c)
  {
    if b == [] {
      assert a + b == a;
    } else {
      CountInAppend(a, b[..|b| - 1], c);
      var ab := a + b;
      assert ab[..|ab| - 1] == a + b[..|b| - 1];
      assert ab[|ab| - 1] == b[|b| - 1];
      assert CountIn(ab, c) == CountIn(ab[..|ab| - 1], c) + (if InCategory(ab[|ab| - 1], c) then 1 else 0);
    }
  }

  /** Counting one more element of s. */
  lemma CountInExtend(s: seq<int>, j: int, c: Category)
    requires 0 <= j < |s|
    ensures CountIn(s[..j + 1], c) == CountIn(s[..j], c) + (if InCategory(s[j], c) then 1 else 0)
  {
    assert s[..j + 1][..j] == s[..j];
  }

  /** Every number is even or odd, and small or large, but not both. */
  lemma {:induction false} CategoriesSplit(s: seq<int>)
    ensures CountIn(s, Even) + CountIn(s, Odd) == |s|
    ensures CountIn(s, Small) + CountIn(s, Large) == |s|
  {
    if s != [] {
      CategoriesSplit(s[..|s| - 1]);
    }
  }

  /** The pairs (a, a + 1) standing next to each other in s, left to right. */
  function AdjacentPairs(s: seq<int>): seq<(int, int)> {
    if |s| < 2 then []
    else
      var n := |s|;
      AdjacentPairs(s[..n - 1]) + (if s[n - 1] - s[n - 2] == 1 then [(s[n - 2], s[n - 1])] else [])
  }

  /** Looking at one more neighbour of s. */
  lemma AdjacentPairsExtend(s: seq<int>, i: int)
    requires 0 <= i && i + 1 < |s|
    ensures AdjacentPairs(s[..i + 2]) ==
      AdjacentPairs(s[..i + 1]) + (if s[i + 1] - s[i] == 1 then [(s[i], s[i + 1])] else [])
  {
    assert s[..i + 2][..i + 1] == s[..i + 1];
  }

  /** The consecutive pairs of every row, each row sorted first. */
  function ConsecutivePairs(rows: seq<seq<int>>): seq<(int, int)> {
    if rows == [] then []
    else ConsecutivePairs(rows[..|rows| - 1]) + AdjacentPairs(Sort(rows[|rows| - 1]))
  }

  /** Taking in one more row. */
  lemma RowsExtend(rows: seq<seq<int>>, k: int)
    requires 0 <= k < |rows|
    ensures AllNumbers(rows[..k + 1]) == AllNumbers(rows[..k]) + rows[k]
    ensures ConsecutivePairs(rows[..k + 1]) == ConsecutivePairs(rows[..k]) + AdjacentPairs(Sort(rows[k]))
  {
    assert rows[..k + 1][..k] == rows[..k];
  }

  /** One more row adds its own class counts and its own pairs. */
  lemma CountsExtend(rows: seq<seq<int>>, k: int)
    requires 0 <= k < |rows|
    ensures multiset(ConsecutivePairs(rows[..k + 1])) ==
      multiset(ConsecutivePairs(rows[..k])) + multiset(AdjacentPairs(Sort(rows[k])))
    ensures |ConsecutivePairs(rows[..k + 1])| == |ConsecutivePairs(rows[..k])| + |AdjacentPairs(Sort(rows[k]))|
    ensures CountIn(AllNumbers(rows[..k + 1]), Even) == CountIn(AllNumbers(rows[..k]), Even) + CountIn(rows[k], Even)
    ensures CountIn(AllNumbers(rows[..k + 1]), Odd) == CountIn(AllNumbers(rows[..k]), Odd) + CountIn(rows[k], Odd)
    ensures CountIn(AllNumbers(rows[..k + 1]), Small) == CountIn(AllNumbers(rows[..k]), Small) + CountIn(rows[k], Small)
    ensures CountIn(AllNumbers(rows[..k + 1]), Large) == CountIn(AllNumbers(rows[..k]), Large) + CountIn(rows[k], Large)
  {
    RowsExtend(rows, k);
    CountInAppend(AllNumbers(rows[..k]), rows[k], Even);
    CountInAppend(AllNumbers(rows[..k]), rows[k], Odd);
    CountInAppend(AllNumbers(rows[..k]), rows[k], Small);
    CountInAppend(AllNumbers(rows[..k]), rows[k], Large);
  }

  /** A row of n numbers holds at most n - 1 adjacent pairs. */
  lemma {:induction false} AdjacentPairsBound(s: seq<int>)
    ensures |AdjacentPairs(s)| <= if s == [] then 0 else |s| - 1
  {
    if |s| >= 2 {
      AdjacentPairsBound(s[..|s| - 1]);
    }
  }

  /** Six-number draws add at most five pairs each. */
  lemma {:induction false} ConsecutivePairsBound(rows: seq<seq<int>>)
    requires forall i :: 0 <= i < |rows| ==> |rows[i]| == DrawSize
    ensures |ConsecutivePairs(rows)| <= (DrawSize - 1) * |rows|
  {
    if rows != [] {
      ConsecutivePairsBound(rows[..|rows| - 1]);
      AdjacentPairsBound(Sort(rows[|rows| - 1]));
    }
  }

  lemma {:induction false} AdjacentPairsSound(s: seq<int>, p: (int, int))
    requires p in AdjacentPairs(s)
    ensures p.1 == p.0 + 1 && p.0 in s && p.1 in s
  {
    var n := |s|;
    if p !in AdjacentPairs(s[..n - 1]) {
      assert p == (s[n - 2], s[n - 1]);
    } else {
      AdjacentPairsSound(s[..n - 1], p);
    }
  }

  /** In an ascending row, a and a + 1 always stand next to each other. */
  lemma {:induction false} AdjacentPairsComplete(s: seq<int>, a: int)
    requires IsSorted(s)
    requires a in s && a + 1 in s
    ensures (a, a + 1) in AdjacentPairs(s)
  {
    var n := |s|;
    var init := s[..n - 1];
    if a in init && a + 1 in init {
      AdjacentPairsComplete(init, a);
    } else if a + 1 !in init {
      // a + 1 is the last element, and a sits right before it
      assert s == init + [s[n - 1]];
      assert s[n - 1] == a + 1;
      var i :| 0 <= i < n && s[i] == a;
      assert a <= s[n - 2] <= a + 1;
      assert s[n - 2] == a;
    } else {
      // a is the last element, yet a + 1 comes before it: impossible
      assert false;
    }
  }

  lemma {:induction false} ConsecutivePairsSound(rows: seq<seq<int>>, p: (int, int))
    requires p in ConsecutivePairs(rows)
    ensures p.1 == p.0 + 1
    ensures exists i :: 0 <= i < |rows| && p.0 in rows[i] && p.1 in rows[i]
  {
    var init, last := rows[..|rows| - 1], rows[|rows| - 1];
    if p in ConsecutivePairs(init) {
      ConsecutivePairsSound(init, p);
      var i :| 0 <= i < |init| && p.0 in init[i] && p.1 in init[i];
      assert rows[i] == init[i];
    } else {
      AdjacentPairsSound(Sort(last), p);
      assert p.0 in multiset(Sort(last)) && p.1 in multiset(Sort(last));
      assert p.0 in rows[|rows| - 1] && p.1 in rows[|rows| - 1];
    }
  }

  lemma {:induction false} ConsecutivePairsComplete(rows: seq<seq<int>>, i: int, a: int)
    requires 0 <= i < |rows| && a in rows[i] && a + 1 in rows[i]
    ensures (a, a + 1) in ConsecutivePairs(rows)
  {
    var init, last := rows[..|rows| - 1], rows[|rows| - 1];
    if i < |init| {
      assert a in init[i] && a + 1 in init[i];
      ConsecutivePairsComplete(init, i, a);
    } else {
      assert a in multiset(last) && a + 1 in multiset(last);
      assert a in Sort(last) && a + 1 in Sort(last);
      AdjacentPairsComplete(Sort(last), a);
    }
  }

  /** b is a + 1, and a and b are numbers of one and the same row. */
  ghost predicate SameRowSuccessors(rows: seq<seq<int>>, p: (int, int)) {
    p.1 == p.0 + 1 && exists i :: 0 <= i < |rows| && p.0 in rows[i] && p.1 in rows[i]
  }

  /** A pair is counted exactly when it is (a, a + 1) with a and a + 1 in the
      same row. */
  lemma ConsecutivePairsIff(rows: seq<seq<int>>, p: (int, int))
    ensures p in ConsecutivePairs(rows) <==> SameRowSuccessors(rows, p)
  {
    if p in ConsecutivePairs(rows) {
      ConsecutivePairsSound(rows, p);
    } else if SameRowSuccessors(rows, p) {
      var i :| 0 <= i < |rows| && p.0 in rows[i] && p.1 in rows[i];
      assert p == (p.0, p.0 + 1);
      ConsecutivePairsComplete(rows, i, p.0);
      assert false;
    }
  }

  // ---------------------------------------------------------------------
  // The inner loops of the Python `analyze_patterns`

  /** `for i in range(len(sorted_numbers) - 1)`: every neighbour pair that
      differs by one, added to a counter. */
  method CountAdjacentPairs(sorted: seq<int>) returns (pairs: multiset<(int, int)>)
    ensures pairs == multiset(AdjacentPairs(sorted))
  {
    pairs := multiset{};
    var i := 0;
    while i < |sorted| - 1
      invariant 0 <= i && (i < |sorted| || i == 0)
      invariant pairs == multiset(AdjacentPairs(sorted[..if i + 1 < |sorted| then i + 1 else |sorted|]))
    {
      AdjacentPairsExtend(sorted, i);
      if sorted[i + 1] - sorted[i] == 1 {
        var pair := (sorted[i], sorted[i + 1]);
        pairs := pairs + multiset{pair};
      }
      i := i + 1;
    }
    assert sorted[..if i + 1 < |sorted| then i + 1 else |sorted|] == sorted;
  }

  /** The even/odd loop over one draw. */
  method TallyParity(numberSet: seq<int>) returns (even: nat, odd: nat)
    ensures even == CountIn(numberSet, Even)
    ensures odd == CountIn(numberSet, Odd)
  {
    even, odd := 0, 0;
    var j := 0;
    while j < |numberSet|
      invariant 0 <= j <= |numberSet|
      invariant even == CountIn(numberSet[..j], Even)
      invariant odd == CountIn(numberSet[..j], Odd)
    {
      CountInExtend(numberSet, j, Even);
      CountInExtend(numberSet, j, Odd);
      if numberSet[j] % 2 == 0 {
        even := even + 1;
      } else {
        odd := odd + 1;
      }
      j := j + 1;
    }
    assert numberSet[..j] == numberSet;
  }

  /** The small/large loop over one draw. */
  method TallySize(numberSet: seq<int>) returns (small: nat, large: nat)
    ensures small == CountIn(numberSet, Small)
    ensures large == CountIn(numberSet, Large)
  {
    small, large := 0, 0;
    var j := 0;
    while j < |numberSet|
      invariant 0 <= j <= |numberSet|
      invariant small == CountIn(numberSet[..j], Small)
      invariant large == CountIn(numberSet[..j], Large)
    {
      CountInExtend(numberSet, j, Small);
      CountInExtend(numberSet, j, Large);
      if numberSet[j] <= SmallLimit {
        small := small + 1;
      } else {
        large := large + 1;
      }
      j := j + 1;
    }
    assert numberSet[..j] == numberSet;
  }
}
