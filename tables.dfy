/** Frequency tables: the association lists behind pandas' `value_counts`,
    the browser script's counting objects, and the "most common first"
    ranking both of them apply. */
module Tables {
  import opened Sorting

  /** One row of a frequency table: a key and how often it was seen. */
  datatype Freq<K> = Freq(key: K, count: nat)

  function KeysOf<K>(t: seq<Freq<K>>): (r: seq<K>)
    ensures |r| == |t|
    ensures forall i :: 0 <= i < |t| ==> r[i] == t[i].key
  {
    if t == [] then [] else [t[0].key] + KeysOf(t[1..])
  }

  /** The count stored under key k, or 0 when k is not a key. */
  function CountOf<K(==)>(t: seq<Freq<K>>, k: K): nat {
    if t == [] then 0
    else if t[0].key == k then t[0].count
    else CountOf(t[1..], k)
  }

  /** The sum of all counts. */
  function Total<K>(t: seq<Freq<K>>): nat {
    if t == [] then 0 else t[0].count + Total(t[1..])
  }

  predicate Positive<K>(t: seq<Freq<K>>) {
    forall i :: 0 <= i < |t| ==> t[i].count > 0
  }

  /** t is a frequency table of s: one row per distinct element of s, each
      with its number of occurrences, and nothing else. */
  ghost predicate Tabulates<K(!new)>(t: seq<Freq<K>>, s: seq<K>) {
    && Distinct(KeysOf(t))
    && Positive(t)
    && Total(t) == |s|
    && forall k :: CountOf(t, k) == multiset(s)[k]
  }

  lemma {:induction false} CountOfEntry<K>(t: seq<Freq<K>>, i: int)
    requires Distinct(KeysOf(t)) && 0 <= i < |t|
    ensures CountOf(t, t[i].key) == t[i].count
  {
    if i > 0 {
      assert KeysOf(t)[0] != KeysOf(t)[i];
      assert KeysOf(t[1..]) == KeysOf(t)[1..];
      CountOfEntry(t[1..], i - 1);
    }
  }

  lemma {:induction false} CountOfAbsent<K>(t: seq<Freq<K>>, k: K)
    requires k !in KeysOf(t)
    ensures CountOf(t, k) == 0
  {
    if t != [] {
      assert KeysOf(t)[0] == t[0].key;
      assert KeysOf(t[1..]) == KeysOf(t)[1..];
      CountOfAbsent(t[1..], k);
    }
  }

  // ---------------------------------------------------------------------
  // Tables with ascending integer keys

  predicate Ascending(t: seq<Freq<int>>) {
    forall i, j :: 0 <= i < j < |t| ==> t[i].key < t[j].key
  }

  /** Count one more x in a table whose keys are kept in ascending order. */
  function Bump(t: seq<Freq<int>>, x: int): seq<Freq<int>> {
    if t == [] then [Freq(x, 1)]
    else if x < t[0].key then [Freq(x, 1)] + t
    else if x == t[0].key then [Freq(x, t[0].count + 1)] + t[1..]
    else [t[0]] + Bump(t[1..], x)
  }

  lemma {:induction false} BumpCounts(t: seq<Freq<int>>, x: int)
    requires Ascending(t)
    ensures Total(Bump(t, x)) == Total(t) + 1
    ensures forall k :: CountOf(Bump(t, x), k) == CountOf(t, k) + (if k == x then 1 else 0)
  {
    if t == [] {
    } else if x < t[0].key {
      assert x !in KeysOf(t);
      CountOfAbsent(t, x);
      assert ([Freq(x, 1)] + t)[1..] == t;
    } else if x == t[0].key {
      assert ([Freq(x, t[0].count + 1)] + t[1..])[1..] == t[1..];
    } else {
      BumpCounts(t[1..], x);
      assert ([t[0]] + Bump(t[1..], x))[1..] == Bump(t[1..], x);
    }
  }

  lemma {:induction false} BumpKeys(t: seq<Freq<int>>, x: int, lo: int)
    requires forall i :: 0 <= i < |t| ==> lo < t[i].key
    requires lo < x
    ensures forall i :: 0 <= i < |Bump(t, x)| ==> lo < Bump(t, x)[i].key
  {
    if t != [] && x > t[0].key {
      BumpKeys(t[1..], x, lo);
    }
  }

  /** A key below every key of an ascending table can head it. */
  lemma AscendingCons(h: Freq<int>, rest: seq<Freq<int>>)
    requires Ascending(rest)
    requires forall i :: 0 <= i < |rest| ==> h.key < rest[i].key
    ensures Ascending([h] + rest)
  {
    var r := [h] + rest;
    forall i, j | 0 <= i < j < |r|
      ensures r[i].key < r[j].key
    {
      assert r[j] == rest[j - 1];
      if i > 0 {
        assert r[i] == rest[i - 1];
      }
    }
  }

  lemma {:induction false} BumpAscending(t: seq<Freq<int>>, x: int)
    requires Ascending(t)
    ensures Ascending(Bump(t, x))
  {
    if t == [] {
    } else if x < t[0].key {
      forall i | 0 <= i < |t|
        ensures x < t[i].key
      {
        if i > 0 {
          assert t[0].key < t[i].key;
        }
      }
      AscendingCons(Freq(x, 1), t);
    } else if x == t[0].key {
      assert Ascending(t[1..]);
      assert forall i :: 0 <= i < |t[1..]| ==> t[0].key < t[1..][i].key;
      AscendingCons(Freq(x, t[0].count + 1), t[1..]);
    } else {
      var rest := Bump(t[1..], x);
      assert Bump(t, x) == [t[0]] + rest;
      assert Ascending(t[1..]);
      BumpAscending(t[1..], x);
      assert forall i :: 0 <= i < |t[1..]| ==> t[0].key < t[1..][i].key;
      BumpKeys(t[1..], x, t[0].key);
      AscendingCons(t[0], rest);
    }
  }

  lemma {:induction false} BumpPositive(t: seq<Freq<int>>, x: int)
    requires Positive(t)
    ensures Positive(Bump(t, x))
  {
    if t != [] && x > t[0].key {
      BumpPositive(t[1..], x);
      assert Bump(t, x) == [t[0]] + Bump(t[1..], x);
    }
  }

  lemma BumpSpec(t: seq<Freq<int>>, x: int)
    requires Ascending(t) && Positive(t)
    ensures Ascending(Bump(t, x)) && Positive(Bump(t, x))
    ensures Total(Bump(t, x)) == Total(t) + 1
    ensures forall k :: CountOf(Bump(t, x), k) == CountOf(t, k) + (if k == x then 1 else 0)
  {
    BumpCounts(t, x);
    BumpAscending(t, x);
    BumpPositive(t, x);
  }

  lemma AscendingKeysDistinct(t: seq<Freq<int>>)
    requires Ascending(t)
    ensures Distinct(KeysOf(t))
  {
  }

  /** The occurrences of each distinct element of s, keys ascending: pandas'
      `value_counts().sort_index()`, and the browser's integer-keyed counting
      object read back with `Object.entries`. */
  function Frequencies(s: seq<int>): seq<Freq<int>> {
    if s == [] then [] else Bump(Frequencies(s[..|s| - 1]), s[|s| - 1])
  }

  lemma {:induction false} FrequenciesSpec(s: seq<int>)
    ensures Ascending(Frequencies(s)) && Tabulates(Frequencies(s), s)
  {
    if s != [] {
      var init, last := s[..|s| - 1], s[|s| - 1];
      FrequenciesSpec(init);
      BumpSpec(Frequencies(init), last);
      AscendingKeysDistinct(Frequencies(s));
      assert s == init + [last];
    }
  }

  // ---------------------------------------------------------------------
  // Tables whose keys stay in first-seen order

  /** Count one more k in a table that appends keys it has not seen yet. */
  function Tally<K(==)>(t: seq<Freq<K>>, k: K): seq<Freq<K>> {
    if t == [] then [Freq(k, 1)]
    else if t[0].key == k then [Freq(k, t[0].count + 1)] + t[1..]
    else [t[0]] + Tally(t[1..], k)
  }

  /** Tallying an existing key keeps the key list; a new key goes last. */
  lemma {:induction false} TallyKeysOf<K>(t: seq<Freq<K>>, k: K)
    ensures KeysOf(Tally(t, k)) == if k in KeysOf(t) then KeysOf(t) else KeysOf(t) + [k]
  {
    if t != [] {
      assert KeysOf(t) == [t[0].key] + KeysOf(t[1..]);
      if t[0].key != k {
        TallyKeysOf(t[1..], k);
        assert k in KeysOf(t) <==> k in KeysOf(t[1..]);
        assert KeysOf(Tally(t, k)) == [t[0].key] + KeysOf(Tally(t[1..], k));
      }
    }
  }

  /** Tallying k counts one more k and leaves every other count alone. */
  lemma {:induction false} TallyCounts<K>(t: seq<Freq<K>>, k: K)
    ensures Total(Tally(t, k)) == Total(t) + 1
    ensures forall j :: CountOf(Tally(t, k), j) == CountOf(t, j) + (if j == k then 1 else 0)
  {
    if t != [] && t[0].key != k {
      TallyCounts(t[1..], k);
      assert Tally(t, k) == [t[0]] + Tally(t[1..], k);
      assert Tally(t, k)[1..] == Tally(t[1..], k);
    }
  }

  lemma {:induction false} TallyPositive<K>(t: seq<Freq<K>>, k: K)
    requires Positive(t)
    ensures Positive(Tally(t, k))
  {
    if t != [] && t[0].key != k {
      TallyPositive(t[1..], k);
      assert Tally(t, k) == [t[0]] + Tally(t[1..], k);
    }
  }

  lemma TallySpec<K>(t: seq<Freq<K>>, k: K)
    requires Distinct(KeysOf(t)) && Positive(t)
    ensures Distinct(KeysOf(Tally(t, k))) && Positive(Tally(t, k))
    ensures KeysOf(Tally(t, k)) == if k in KeysOf(t) then KeysOf(t) else KeysOf(t) + [k]
    ensures Total(Tally(t, k)) == Total(t) + 1
    ensures forall j :: CountOf(Tally(t, k), j) == CountOf(t, j) + (if j == k then 1 else 0)
    ensures forall i :: 0 <= i < |Tally(t, k)| ==> Tally(t, k)[i].key == k || Tally(t, k)[i].key in KeysOf(t)
  {
    TallyKeysOf(t, k);
    TallyCounts(t, k);
    TallyPositive(t, k);
    var keys, before := KeysOf(Tally(t, k)), KeysOf(t);
    if k !in before {
      forall i, j | 0 <= i < j < |keys|
        ensures keys[i] != keys[j]
      {
        assert keys[i] == before[i];
        if j < |before| {
          assert keys[j] == before[j];
        }
      }
    }
    forall i | 0 <= i < |Tally(t, k)|
      ensures Tally(t, k)[i].key == k || Tally(t, k)[i].key in before
    {
      assert keys[i] == Tally(t, k)[i].key;
      if i < |before| {
        assert keys[i] == before[i];
      }
    }
  }

  /** The occurrences of each distinct element of s, keys in the order they
      were first seen: a JavaScript object with string keys. */
  function Tallies<K(==)>(s: seq<K>): seq<Freq<K>> {
    if s == [] then [] else Tally(Tallies(s[..|s| - 1]), s[|s| - 1])
  }

  lemma {:induction false} TalliesTabulate<K(!new)>(s: seq<K>)
    ensures Tabulates(Tallies(s), s)
  {
    if s != [] {
      var init, last := s[..|s| - 1], s[|s| - 1];
      TalliesTabulate(init);
      TallySpec(Tallies(init), last);
      assert s == init + [last];
    }
  }

  // ---------------------------------------------------------------------
  // Ranking by count, most frequent first

  predicate NonIncreasing<K>(r: seq<Freq<K>>) {
    forall i, j :: 0 <= i < j < |r| ==> r[i].count >= r[j].count
  }

  /** A bound on the counts of the rows carries over to any rearrangement. */
  lemma CountsBoundedBy<K>(r: seq<Freq<K>>, m: seq<Freq<K>>, c: int)
    requires multiset(r) == multiset(m)
    requires forall j :: 0 <= j < |m| ==> m[j].count <= c
    ensures forall j :: 0 <= j < |r| ==> r[j].count <= c
  {
    forall j | 0 <= j < |r|
      ensures r[j].count <= c
    {
      assert r[j] in multiset(m);
    }
  }

  /** Insert x before the first row whose count does not exceed x's: the
      step of a stable sort by descending count. */
  function InsertByCount<K(==)>(x: Freq<K>, s: seq<Freq<K>>): seq<Freq<K>> {
    if s == [] || s[0].count <= x.count then [x] + s
    else [s[0]] + InsertByCount(x, s[1..])
  }

  /** Inserting adds exactly the row x. */
  lemma {:induction false} InsertByCountAdds<K>(x: Freq<K>, s: seq<Freq<K>>)
    ensures multiset(InsertByCount(x, s)) == multiset(s) + multiset{x}
  {
    if s != [] && s[0].count > x.count {
      InsertByCountAdds(x, s[1..]);
      assert s == [s[0]] + s[1..];
      assert InsertByCount(x, s) == [s[0]] + InsertByCount(x, s[1..]);
    }
  }

  /** Inserting into a table ranked by descending count keeps it ranked. */
  lemma {:induction false} InsertByCountSpec<K>(x: Freq<K>, s: seq<Freq<K>>)
    requires NonIncreasing(s)
    ensures NonIncreasing(InsertByCount(x, s))
    ensures multiset(InsertByCount(x, s)) == multiset(s) + multiset{x}
  {
    InsertByCountAdds(x, s);
    if s == [] || s[0].count <= x.count {
      forall j | 0 <= j < |s|
        ensures s[j].count <= x.count
      {
        assert s[j].count <= s[0].count;
      }
    } else {
      var rest := InsertByCount(x, s[1..]);
      assert InsertByCount(x, s) == [s[0]] + rest;
      InsertByCountSpec(x, s[1..]);
      assert s == [s[0]] + s[1..];
      PrependMostFrequent(s[0], s[1..], x, rest);
    }
  }

  /** The step of InsertByCountSpec past a head counted more often than x. */
  lemma PrependMostFrequent<K>(h: Freq<K>, tail: seq<Freq<K>>, x: Freq<K>, rest: seq<Freq<K>>)
    requires NonIncreasing([h] + tail) && h.count > x.count
    requires NonIncreasing(rest) && multiset(rest) == multiset(tail) + multiset{x}
    ensures NonIncreasing([h] + rest)
  {
    assert multiset(rest) == multiset(tail + [x]);
    forall j | 0 <= j < |tail + [x]|
      ensures (tail + [x])[j].count <= h.count
    {
      if j < |tail| {
        assert ([h] + tail)[0].count >= ([h] + tail)[j + 1].count;
        assert (tail + [x])[j] == tail[j];
      } else {
        assert (tail + [x])[j] == x;
      }
    }
    CountsBoundedBy(rest, tail + [x], h.count);
    var r := [h] + rest;
    forall i, j | 0 <= i < j < |r|
      ensures r[i].count >= r[j].count
    {
      assert r[j] == rest[j - 1];
      if i > 0 {
        assert r[i] == rest[i - 1];
      }
    }
  }

  lemma {:induction false} InsertByCountKeys<K>(x: Freq<K>, s: seq<Freq<K>>)
    ensures multiset(KeysOf(InsertByCount(x, s))) == multiset(KeysOf(s)) + multiset{x.key}
  {
    if s == [] || s[0].count <= x.count {
      assert InsertByCount(x, s) == [x] + s;
      assert KeysOf([x] + s) == [x.key] + KeysOf(s);
    } else {
      var rest := InsertByCount(x, s[1..]);
      assert InsertByCount(x, s) == [s[0]] + rest;
      InsertByCountKeys(x, s[1..]);
      assert KeysOf(s) == [s[0].key] + KeysOf(s[1..]);
      assert KeysOf([s[0]] + rest) == [s[0].key] + KeysOf(rest);
      assert multiset(KeysOf(InsertByCount(x, s))) == multiset{s[0].key} + multiset(KeysOf(rest));
      assert multiset(KeysOf(s)) == multiset{s[0].key} + multiset(KeysOf(s[1..]));
    }
  }

  /** The rows of t, most frequent first; rows with equal counts keep their
      order in t (a stable sort by descending count). */
  function RankByCount<K(==)>(t: seq<Freq<K>>): (r: seq<Freq<K>>)
    ensures NonIncreasing(r)
    ensures multiset(r) == multiset(t)
    ensures |r| == |t|
  {
    if t == [] then []
    else
      assert t == [t[0]] + t[1..];
      InsertByCountSpec(t[0], RankByCount(t[1..]));
      var r := InsertByCount(t[0], RankByCount(t[1..]));
      assert |multiset(r)| == |r|;
      r
  }

  lemma {:induction false} RankByCountKeys<K>(t: seq<Freq<K>>)
    ensures multiset(KeysOf(RankByCount(t))) == multiset(KeysOf(t))
  {
    if t != [] {
      RankByCountKeys(t[1..]);
      InsertByCountKeys(t[0], RankByCount(t[1..]));
      assert KeysOf(t) == [t[0].key] + KeysOf(t[1..]);
    }
  }

  /** Ranked by descending count, ties by ascending key. */
  predicate RankedAscending(r: seq<Freq<int>>) {
    forall i, j :: 0 <= i < j < |r| ==>
      r[i].count > r[j].count || (r[i].count == r[j].count && r[i].key < r[j].key)
  }

  /** A row ahead of a ranked table that outranks each of its rows. */
  lemma RankedCons(h: Freq<int>, rest: seq<Freq<int>>)
    requires RankedAscending(rest)
    requires forall j :: 0 <= j < |rest| ==>
      h.count > rest[j].count || (h.count == rest[j].count && h.key < rest[j].key)
    ensures RankedAscending([h] + rest)
  {
    var r := [h] + rest;
    forall i, j | 0 <= i < j < |r|
      ensures r[i].count > r[j].count || (r[i].count == r[j].count && r[i].key < r[j].key)
    {
      assert r[j] == rest[j - 1];
      if i > 0 {
        assert r[i] == rest[i - 1];
      }
    }
  }

  lemma {:induction false} InsertKeepsTiesAscending(x: Freq<int>, s: seq<Freq<int>>)
    requires RankedAscending(s)
    requires forall i :: 0 <= i < |s| ==> x.key < s[i].key
    ensures RankedAscending(InsertByCount(x, s))
  {
    if s == [] || s[0].count <= x.count {
      forall j | 0 <= j < |s|
        ensures x.count > s[j].count || (x.count == s[j].count && x.key < s[j].key)
      {
        if j > 0 {
          assert s[0].count >= s[j].count;
        }
      }
      RankedCons(x, s);
    } else {
      var rest := InsertByCount(x, s[1..]);
      assert InsertByCount(x, s) == [s[0]] + rest;
      InsertKeepsTiesAscending(x, s[1..]);
      InsertByCountAdds(x, s[1..]);
      forall j | 0 <= j < |rest|
        ensures s[0].count > rest[j].count || (s[0].count == rest[j].count && s[0].key < rest[j].key)
      {
        assert rest[j] in multiset(rest);
        if rest[j] != x {
          assert rest[j] in multiset(s[1..]);
          var m :| 0 <= m < |s[1..]| && s[1..][m] == rest[j];
          assert s[m + 1] == rest[j];
        }
      }
      RankedCons(s[0], rest);
    }
  }

  /** The ranking of the rest of an ascending table has only keys above
      its first. */
  lemma RankedKeysAbove(t: seq<Freq<int>>)
    requires t != [] && Ascending(t)
    ensures forall i :: 0 <= i < |RankByCount(t[1..])| ==> t[0].key < RankByCount(t[1..])[i].key
  {
    var tail := t[1..];
    var rest := RankByCount(tail);
    RankByCountKeys(tail);
    forall i | 0 <= i < |rest|
      ensures t[0].key < rest[i].key
    {
      assert KeysOf(rest)[i] == rest[i].key;
      assert rest[i].key in multiset(KeysOf(tail));
      assert rest[i].key in KeysOf(tail);
      var m :| 0 <= m < |tail| && KeysOf(tail)[m] == rest[i].key;
      assert tail[m] == t[m + 1];
      assert t[0].key < t[m + 1].key;
    }
  }

  /** A table with ascending keys ranks ties in ascending key order: what a
      stable sort by count does to the browser's integer-keyed object. */
  lemma {:induction false} RankTiesAscending(t: seq<Freq<int>>)
    requires Ascending(t)
    ensures RankedAscending(RankByCount(t))
  {
    if t != [] {
      var rest := RankByCount(t[1..]);
      RankTiesAscending(t[1..]);
      RankedKeysAbove(t);
      InsertKeepsTiesAscending(t[0], rest);
    }
  }

  function Min(a: int, b: int): int {
    if a < b then a else b
  }

  /** The keys of the first n rows of the ranking. */
  function TopKeys<K(==)>(t: seq<Freq<K>>, n: nat): seq<K> {
    KeysOf(RankByCount(t))[..Min(n, |t|)]
  }

  /** top lists at most n distinct elements of s, most frequent first, and an
      element of s is left out only when the list is full and the element is
      no more frequent than the last one listed. */
  ghost predicate IsTopK<K(!new)>(s: seq<K>, top: seq<K>, n: nat) {
    && |top| <= n
    && Distinct(top)
    && (forall i :: 0 <= i < |top| ==> top[i] in s)
    && (forall i, j :: 0 <= i < j < |top| ==> multiset(s)[top[i]] >= multiset(s)[top[j]])
    && (forall x :: x in s && x !in top ==>
          |top| == n && (n == 0 || multiset(s)[x] <= multiset(s)[top[n - 1]]))
  }

  /** Every row of the ranking of a frequency table of s counts its key in s. */
  lemma RankedRowsCount<K(!new)>(s: seq<K>, t: seq<Freq<K>>)
    requires Tabulates(t, s)
    ensures forall i :: 0 <= i < |RankByCount(t)| ==>
      RankByCount(t)[i].count == multiset(s)[RankByCount(t)[i].key] > 0
  {
    var r := RankByCount(t);
    forall i | 0 <= i < |r|
      ensures r[i].count == multiset(s)[r[i].key] > 0
    {
      assert r[i] in multiset(t);
      var j :| 0 <= j < |t| && t[j] == r[i];
      CountOfEntry(t, j);
    }
  }

  /** An element of s outside the first n keys of the ranking is no more
      frequent than the n-th key. */
  lemma TopKeysOmitted<K(!new)>(s: seq<K>, t: seq<Freq<K>>, n: nat, x: K)
    requires Tabulates(t, s)
    requires x in s && x !in TopKeys(t, n)
    ensures |TopKeys(t, n)| == n
    ensures n == 0 || multiset(s)[x] <= multiset(s)[TopKeys(t, n)[n - 1]]
  {
    var r := RankByCount(t);
    var top := TopKeys(t, n);
    RankedRowsCount(s, t);
    RankByCountKeys(t);
    assert CountOf(t, x) > 0;
    if x !in KeysOf(t) {
      CountOfAbsent(t, x);
    }
    assert x in multiset(KeysOf(r));
    var j :| 0 <= j < |r| && KeysOf(r)[j] == x;
    assert r[j].key == x && r[j].count == multiset(s)[x];
    assert j >= Min(n, |t|);
    assert |top| == n;
    if n > 0 {
      assert n - 1 < j;
      assert r[n - 1].count >= r[j].count;
      assert top[n - 1] == r[n - 1].key;
      assert r[n - 1].count == multiset(s)[top[n - 1]];
    }
  }

  /** The listed keys are distinct elements of s, most frequent first. */
  lemma TopKeysListed<K(!new)>(s: seq<K>, t: seq<Freq<K>>, n: nat)
    requires Tabulates(t, s)
    ensures Distinct(TopKeys(t, n))
    ensures forall i :: 0 <= i < |TopKeys(t, n)| ==> TopKeys(t, n)[i] in s
    ensures forall i, j :: 0 <= i < j < |TopKeys(t, n)| ==>
      multiset(s)[TopKeys(t, n)[i]] >= multiset(s)[TopKeys(t, n)[j]]
  {
    var r := RankByCount(t);
    var top := TopKeys(t, n);
    RankedRowsCount(s, t);
    RankByCountKeys(t);
    DistinctPermutation(KeysOf(t), KeysOf(r));
    assert Distinct(top) by {
      assert top == KeysOf(r)[..Min(n, |t|)];
    }
    forall i | 0 <= i < |top|
      ensures top[i] in s
    {
      assert top[i] == r[i].key;
      assert multiset(s)[top[i]] > 0;
    }
    forall i, j | 0 <= i < j < |top|
      ensures multiset(s)[top[i]] >= multiset(s)[top[j]]
    {
      assert top[i] == r[i].key && top[j] == r[j].key;
    }
  }

  lemma TopKeysAreTopK<K(!new)>(s: seq<K>, t: seq<Freq<K>>, n: nat)
    requires Tabulates(t, s)
    ensures IsTopK(s, TopKeys(t, n), n)
  {
    var top := TopKeys(t, n);
    TopKeysListed(s, t, n);
    forall x | x in s && x !in top
      ensures |top| == n && (n == 0 || multiset(s)[x] <= multiset(s)[top[n - 1]])
    {
      TopKeysOmitted(s, t, n, x);
    }
  }
}
