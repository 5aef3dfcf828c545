/** What the three Python scripts (app.py, lotto.py, index.py) share: the draw
    table, the frequency count, the "top five of the last year" ranking, the
    set of past combinations and the rejection-sampling loop that avoids them. */
module History {
  import opened Sorting
  import opened Tables
  import opened Stats

  datatype Option<T> = None | Some(value: T)

  /** One row of the draw table: draw number, date (as a day number), the six
      main numbers as stored, and the bonus number. */
  datatype Draw = Draw(round: int, date: int, numbers: seq<int>, bonus: int)

  /** The ranking looks back this many days from now. */
  const WindowDays := 365
  /** How many numbers the ranking keeps. */
  const TopCount := 5

  /** The parsed number column, one row per draw. */
  function Rows(draws: seq<Draw>): (rows: seq<seq<int>>)
    ensures |rows| == |draws|
    ensures forall i :: 0 <= i < |draws| ==> rows[i] == draws[i].numbers
  {
    seq(|draws|, i requires 0 <= i < |draws| => draws[i].numbers)
  }

  // ---------------------------------------------------------------------
  // Frequency count

  /** Occurrences of every number that appears, ascending by number. */
  function NumberFrequencies(draws: seq<Draw>): (t: seq<Freq<int>>)
    ensures Ascending(t)
    ensures Tabulates(t, AllNumbers(Rows(draws)))
  {
    FrequenciesSpec(AllNumbers(Rows(draws)));
    Frequencies(AllNumbers(Rows(draws)))
  }

  /** With six numbers per draw the counts add up to six per draw. */
  lemma FrequenciesCoverAllSlots(draws: seq<Draw>)
    requires forall i :: 0 <= i < |draws| ==> |draws[i].numbers| == DrawSize
    ensures Total(NumberFrequencies(draws)) == DrawSize * |draws|
  {
    AllNumbersLength(Rows(draws));
  }

  // ---------------------------------------------------------------------
  // Top five of the last year

  /** A draw counts as recent when its date is strictly after now - 365 days. */
  predicate InWindow(d: Draw, now: int) {
    d.date > now - WindowDays
  }

  /** The numbers of the recent draws, in table order. */
  function WindowNumbers(draws: seq<Draw>, now: int): seq<int> {
    if draws == [] then []
    else
      var last := draws[|draws| - 1];
      WindowNumbers(draws[..|draws| - 1], now) + (if InWindow(last, now) then last.numbers else [])
  }

  lemma {:induction false} WindowNumbersFrom(draws: seq<Draw>, now: int, x: int)
    ensures x in WindowNumbers(draws, now) <==>
      exists i :: 0 <= i < |draws| && InWindow(draws[i], now) && x in draws[i].numbers
  {
    if draws != [] {
      var init := draws[..|draws| - 1];
      WindowNumbersFrom(init, now, x);
      if x in WindowNumbers(init, now) {
        var i :| 0 <= i < |init| && InWindow(init[i], now) && x in init[i].numbers;
        assert draws[i] == init[i];
      }
      if exists i :: 0 <= i < |draws| && InWindow(draws[i], now) && x in draws[i].numbers {
        var i :| 0 <= i < |draws| && InWindow(draws[i], now) && x in draws[i].numbers;
        if i < |init| {
          assert init[i] == draws[i];
        }
      }
    }
  }

  /** The five most frequent numbers of the draws of the last 365 days. */
  method TopNumbersLastYear(draws: seq<Draw>, now: int) returns (top: seq<int>)
    ensures IsTopK(WindowNumbers(draws, now), top, TopCount)
    ensures forall x :: x in top ==>
      exists i :: 0 <= i < |draws| && InWindow(draws[i], now) && x in draws[i].numbers
  {
    var oneYearAgo := now - WindowDays;
    var allNumbers: seq<int> := [];
    var i := 0;
    while i < |draws|
      invariant 0 <= i <= |draws|
      invariant allNumbers == WindowNumbers(draws[..i], now)
    {
      if draws[i].date > oneYearAgo {
        allNumbers := allNumbers + draws[i].numbers;
      }
      assert draws[..i + 1][..i] == draws[..i];
      i := i + 1;
    }
    assert draws[..i] == draws;
    var counts := Frequencies(allNumbers);
    FrequenciesSpec(allNumbers);
    top := TopKeys(counts, TopCount);
    TopKeysAreTopK(allNumbers, counts, TopCount);
    forall x | x in top
      ensures exists i :: 0 <= i < |draws| && InWindow(draws[i], now) && x in draws[i].numbers
    {
      WindowNumbersFrom(draws, now, x);
    }
  }

  // ---------------------------------------------------------------------
  // Rejection sampling

  /** The sorted main numbers of every past draw; the bonus takes no part. */
  function Exclusion(draws: seq<Draw>): set<seq<int>> {
    set i | 0 <= i < |draws| :: Sort(draws[i].numbers)
  }

  /** The two acceptance tests: "contains a top number and is new", and
      "is new". */
  datatype Rule = Seeded(top: seq<int>) | Unseeded

  predicate ContainsSome(c: seq<int>, top: seq<int>) {
    exists i :: 0 <= i < |top| && top[i] in c
  }

  predicate Accepts(rule: Rule, excluded: set<seq<int>>, c: seq<int>) {
    (rule.Seeded? ==> ContainsSome(c, rule.top)) && c !in excluded
  }

  /** Each sample as `sorted` returns it. */
  function SortEach(samples: seq<seq<int>>): (combos: seq<seq<int>>)
    ensures |combos| == |samples|
    ensures forall i :: 0 <= i < |samples| ==> combos[i] == Sort(samples[i])
  {
    seq(|samples|, i requires 0 <= i < |samples| => Sort(samples[i]))
  }

  lemma SortEachPrefix(samples: seq<seq<int>>, k: int)
    requires 0 <= k <= |samples|
    ensures SortEach(samples[..k]) == SortEach(samples)[..k]
  {
  }

  lemma SortEachAppend(a: seq<seq<int>>, b: seq<seq<int>>)
    ensures SortEach(a + b) == SortEach(a) + SortEach(b)
  {
  }

  /** The combinations the rule accepts, in the order they were drawn. */
  function Candidates(rule: Rule, excluded: set<seq<int>>, combos: seq<seq<int>>): seq<seq<int>> {
    if combos == [] then []
    else Candidates(rule, excluded, combos[..|combos| - 1]) + Kept(rule, excluded, combos[|combos| - 1])
  }

  function Kept(rule: Rule, excluded: set<seq<int>>, c: seq<int>): seq<seq<int>> {
    if Accepts(rule, excluded, c) then [c] else []
  }

  /** Looking at one more combination. */
  lemma CandidatesExtend(rule: Rule, excluded: set<seq<int>>, combos: seq<seq<int>>, i: int)
    requires 0 <= i < |combos|
    ensures Candidates(rule, excluded, combos[..i + 1]) ==
      Candidates(rule, excluded, combos[..i]) + Kept(rule, excluded, combos[i])
  {
    assert combos[..i + 1][..i] == combos[..i];
  }

  /** b and a + b with the last element of b split off. */
  lemma SplitLast<T>(a: seq<T>, b: seq<T>)
    requires b != []
    ensures b == b[..|b| - 1] + [b[|b| - 1]]
    ensures a + b == (a + b[..|b| - 1]) + [b[|b| - 1]]
  {
  }

  /** One more combination at the end. */
  lemma CandidatesSnoc(rule: Rule, excluded: set<seq<int>>, combos: seq<seq<int>>, c: seq<int>)
    ensures Candidates(rule, excluded, combos + [c]) == Candidates(rule, excluded, combos) + Kept(rule, excluded, c)
  {
    var s := combos + [c];
    assert s[..|s| - 1] == combos;
  }

  /** The candidates of two runs of samples, one after the other. */
  lemma {:induction false} CandidatesAppend(rule: Rule, excluded: set<seq<int>>, a: seq<seq<int>>, b: seq<seq<int>>)
    ensures Candidates(rule, excluded, a + b) == Candidates(rule, excluded, a) + Candidates(rule, excluded, b)
  {
    if b == [] {
      assert a + b == a;
    } else {
      var init, last := b[..|b| - 1], b[|b| - 1];
      SplitLast(a, b);
      CandidatesAppend(rule, excluded, a, init);
      CandidatesSnoc(rule, excluded, a + init, last);
      CandidatesSnoc(rule, excluded, init, last);
    }
  }

  /** A candidate is one of the combinations, and the rule accepts it. */
  lemma {:induction false} CandidatesSound(rule: Rule, excluded: set<seq<int>>, combos: seq<seq<int>>, c: seq<int>)
    requires c in Candidates(rule, excluded, combos)
    ensures c in combos && Accepts(rule, excluded, c)
  {
    var init := combos[..|combos| - 1];
    if c in Candidates(rule, excluded, init) {
      CandidatesSound(rule, excluded, init, c);
      assert c in combos;
    }
  }

  /** Every candidate drawn from samples is a fresh combination that passes
      the test. */
  lemma CandidatesValid(rule: Rule, excluded: set<seq<int>>, samples: seq<seq<int>>)
    requires forall i :: 0 <= i < |samples| ==> IsSample(samples[i])
    ensures forall c :: c in Candidates(rule, excluded, SortEach(samples)) ==>
      IsCombination(c) && Accepts(rule, excluded, c)
  {
    forall c | c in Candidates(rule, excluded, SortEach(samples))
      ensures IsCombination(c) && Accepts(rule, excluded, c)
    {
      CandidatesSound(rule, excluded, SortEach(samples), c);
      var i :| 0 <= i < |samples| && SortEach(samples)[i] == c;
      SortedSampleIsCombination(samples[i]);
    }
  }

  /** Drawing more samples only adds candidates at the end. */
  lemma CandidatesPrefix(rule: Rule, excluded: set<seq<int>>, combos: seq<seq<int>>, k: int)
    requires 0 <= k <= |combos|
    ensures |Candidates(rule, excluded, combos[..k])| <= |Candidates(rule, excluded, combos)|
    ensures Candidates(rule, excluded, combos[..k]) ==
      Candidates(rule, excluded, combos)[..|Candidates(rule, excluded, combos[..k])|]
  {
    assert combos == combos[..k] + combos[k..];
    CandidatesAppend(rule, excluded, combos[..k], combos[k..]);
  }

  /** The first accepted combination heads the candidates. */
  lemma FirstAccepted(rule: Rule, excluded: set<seq<int>>, combos: seq<seq<int>>, i: int)
    requires 0 <= i < |combos|
    requires Candidates(rule, excluded, combos[..i]) == []
    requires Accepts(rule, excluded, combos[i])
    ensures Candidates(rule, excluded, combos[..i + 1]) == [combos[i]]
    ensures Candidates(rule, excluded, combos) != [] && Candidates(rule, excluded, combos)[0] == combos[i]
  {
    CandidatesExtend(rule, excluded, combos, i);
    CandidatesPrefix(rule, excluded, combos, i + 1);
    var all := Candidates(rule, excluded, combos);
    assert all[..1] == [combos[i]];
    assert all[0] == all[..1][0];
  }

  /** What the generator knows when it stops at sample i. */
  lemma FirstAcceptedSample(draws: seq<Draw>, rule: Rule, samples: seq<seq<int>>, i: int)
    requires forall j :: 0 <= j < |samples| ==> IsSample(samples[j])
    requires 0 <= i < |samples|
    requires Candidates(rule, Exclusion(draws), SortEach(samples)[..i]) == []
    requires Accepts(rule, Exclusion(draws), Sort(samples[i]))
    ensures var c := Candidates(rule, Exclusion(draws), SortEach(samples));
      c != [] && c[0] == Sort(samples[i])
    ensures IsCombination(Sort(samples[i]))
    ensures Candidates(rule, Exclusion(draws), SortEach(samples[..i + 1])) == [Sort(samples[i])]
  {
    SortedSampleIsCombination(samples[i]);
    FirstAccepted(rule, Exclusion(draws), SortEach(samples), i);
    SortEachPrefix(samples, i + 1);
  }

  /** `random.sample` and the `while True` loop of lotto.py:71-76 and
      index.py:108-121: sort each sample and return the first one the rule
      accepts. The samples are supplied by the caller; when they run out
      before one is accepted, the source would still be looping and the
      model answers None. `used` is the number of samples consumed. */
  method GenerateFirst(draws: seq<Draw>, rule: Rule, samples: seq<seq<int>>)
    returns (r: Option<seq<int>>, used: nat)
    requires forall i :: 0 <= i < |samples| ==> IsSample(samples[i])
    ensures var c := Candidates(rule, Exclusion(draws), SortEach(samples));
      r == if c == [] then None else Some(c[0])
    ensures r.Some? ==> IsCombination(r.value) && Accepts(rule, Exclusion(draws), r.value)
    ensures r.Some? ==> 0 < used <= |samples| && r.value == Sort(samples[used - 1])
    ensures r.Some? ==> Candidates(rule, Exclusion(draws), SortEach(samples[..used])) == [r.value]
    ensures r.None? ==> used == |samples|
  {
    var excluded := Exclusion(draws);
    ghost var combos := SortEach(samples);
    used := 0;
    while used < |samples| && !Accepts(rule, excluded, Sort(samples[used]))
      invariant used <= |samples|
      invariant Candidates(rule, excluded, combos[..used]) == []
    {
      CandidatesExtend(rule, excluded, combos, used);
      used := used + 1;
    }
    if used == |samples| {
      assert combos[..used] == combos;
      r := None;
    } else {
      FirstAcceptedSample(draws, rule, samples, used);
      r, used := Some(Sort(samples[used])), used + 1;
    }
  }

  /** With no top numbers the seeded test never passes. */
  lemma {:induction false} EmptySeedNoCandidates(excluded: set<seq<int>>, combos: seq<seq<int>>)
    ensures Candidates(Seeded([]), excluded, combos) == []
  {
    if combos != [] {
      EmptySeedNoCandidates(excluded, combos[..|combos| - 1]);
      assert !ContainsSome(combos[|combos| - 1], []);
    }
  }

  /** Whatever the seeded test accepts, the unseeded test accepts too. */
  lemma SeededWithinUnseeded(top: seq<int>, excluded: set<seq<int>>, c: seq<int>)
    ensures Accepts(Seeded(top), excluded, c) ==> Accepts(Unseeded, excluded, c)
  {
  }

  /** The same numbers as a past draw, in any order, are rejected once
      sorted. */
  lemma PastDrawRejected(draws: seq<Draw>, rule: Rule, i: int, c: seq<int>)
    requires 0 <= i < |draws|
    requires multiset(c) == multiset(draws[i].numbers)
    ensures !Accepts(rule, Exclusion(draws), Sort(c))
  {
    SortEqualIffPermutation(c, draws[i].numbers);
    assert Sort(draws[i].numbers) in Exclusion(draws);
  }

  /** Only the main numbers decide the exclusion set. */
  lemma ExclusionIgnoresBonus(a: seq<Draw>, b: seq<Draw>)
    requires Rows(a) == Rows(b)
    ensures Exclusion(a) == Exclusion(b)
  {
    assert forall i :: 0 <= i < |a| ==> a[i].numbers == Rows(a)[i];
  }
}
