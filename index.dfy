/** The batch script index.py: the top-five ranking guarded by a check for
    the date column, the two generators (with and without top numbers), and
    the guard in `main` that only seeds the generator with a non-empty
    ranking. Fetching and storing the table are not part of this model. */
module Index {
  import opened Sorting
  import opened Tables
  import opened History

  /** `main` asks for this many seeded combinations. */
  const NewSetCount := 4

  /** `get_top_numbers_last_year`: no ranking without a date column. */
  method GetTopNumbersLastYear(draws: seq<Draw>, hasDateColumn: bool, now: int) returns (top: seq<int>)
    ensures !hasDateColumn ==> top == []
    ensures hasDateColumn ==> IsTopK(WindowNumbers(draws, now), top, TopCount)
    ensures forall x :: x in top ==>
      exists i :: 0 <= i < |draws| && InWindow(draws[i], now) && x in draws[i].numbers
  {
    if !hasDateColumn {
      return [];
    }
    top := TopNumbersLastYear(draws, now);
  }

  /** `generate_new_lotto_numbers`: the first sorted sample that holds a top
      number and is not a past draw; `used` samples are consumed. */
  method GenerateNewLottoNumbers(draws: seq<Draw>, top: seq<int>, samples: seq<seq<int>>)
    returns (r: Option<seq<int>>, used: nat)
    requires forall i :: 0 <= i < |samples| ==> IsSample(samples[i])
    ensures var c := Candidates(Seeded(top), Exclusion(draws), SortEach(samples));
      r == if c == [] then None else Some(c[0])
    ensures r.Some? ==> IsCombination(r.value) && ContainsSome(r.value, top) && r.value !in Exclusion(draws)
    ensures r.Some? ==> used <= |samples| && Candidates(Seeded(top), Exclusion(draws), SortEach(samples[..used])) == [r.value]
    ensures r.Some? ==> 0 < used && r.value == Sort(samples[used - 1])
    ensures r.None? ==> used == |samples|
  {
    r, used := GenerateFirst(draws, Seeded(top), samples);
  }

  /** `generate_recommended_lotto_numbers`: the first sorted sample that is
      not a past draw. */
  method GenerateRecommendedLottoNumbers(draws: seq<Draw>, samples: seq<seq<int>>)
    returns (r: Option<seq<int>>, used: nat)
    requires forall i :: 0 <= i < |samples| ==> IsSample(samples[i])
    ensures var c := Candidates(Unseeded, Exclusion(draws), SortEach(samples));
      r == if c == [] then None else Some(c[0])
    ensures r.Some? ==> IsCombination(r.value) && r.value !in Exclusion(draws)
  {
    r, used := GenerateFirst(draws, Unseeded, samples);
  }

  /** What `main` produces after the table is loaded: the ranking, the seeded
      combinations and the recommended one, with how many samples the seeded
      searches took from the shared random stream before the recommended
      search began. A generator that finds nothing among the supplied
      samples would still be looping in the source, so the run stops there. */
  datatype Run = Run(top: seq<int>, newSets: seq<seq<int>>, seededUsed: nat, recommended: Option<seq<int>>)

  /** After the k-th seeded combination, the sets found so far are the first
      candidates of the samples consumed. */
  lemma NextSet(top: seq<int>, excluded: set<seq<int>>, samples: seq<seq<int>>, u: nat, used: nat, next: nat, sets: seq<seq<int>>, c: seq<int>)
    requires next == u + used <= |samples|
    requires sets == Candidates(Seeded(top), excluded, SortEach(samples[..u]))
    requires Candidates(Seeded(top), excluded, SortEach(samples[u..][..used])) == [c]
    ensures sets + [c] == Candidates(Seeded(top), excluded, SortEach(samples[..next]))
  {
    var a, b := samples[..u], samples[u..][..used];
    assert samples[..next] == a + b by {
      assert |samples[..next]| == |a + b|;
      forall k | 0 <= k < next
        ensures samples[..next][k] == (a + b)[k]
      {
        if k >= u {
          assert b[k - u] == samples[k];
        }
      }
    }
    SortEachAppend(a, b);
    CandidatesAppend(Seeded(top), excluded, SortEach(a), SortEach(b));
  }

  /** The last set found came from the last sample consumed. */
  predicate StoppedAt(samples: seq<seq<int>>, consumed: nat, sets: seq<seq<int>>) {
    sets != [] ==> 0 < consumed <= |samples| && Sort(samples[consumed - 1]) == sets[|sets| - 1]
  }

  /** A search over the rest of the samples that stops at its used-th
      sample stops at sample u + used of all of them. */
  lemma LastConsumed(samples: seq<seq<int>>, u: nat, used: nat, next: nat, sets: seq<seq<int>>, c: seq<int>)
    requires next == u + used <= |samples| && 0 < used
    requires c == Sort(samples[u..][used - 1])
    ensures StoppedAt(samples, next, sets + [c])
  {
    assert samples[u..][used - 1] == samples[next - 1];
  }

  /** When a seeded search comes up empty, the sets found so far are all the
      candidates there are. */
  lemma NoMoreSets(top: seq<int>, excluded: set<seq<int>>, samples: seq<seq<int>>, u: nat, sets: seq<seq<int>>)
    requires u <= |samples|
    requires sets == Candidates(Seeded(top), excluded, SortEach(samples[..u]))
    requires Candidates(Seeded(top), excluded, SortEach(samples[u..])) == []
    ensures sets == Candidates(Seeded(top), excluded, SortEach(samples))
  {
    assert samples == samples[..u] + samples[u..];
    SortEachAppend(samples[..u], samples[u..]);
    CandidatesAppend(Seeded(top), excluded, SortEach(samples[..u]), SortEach(samples[u..]));
  }

  /** The sets found from a prefix of the samples head the candidates of all
      of them. */
  lemma SetsArePrefix(top: seq<int>, excluded: set<seq<int>>, samples: seq<seq<int>>, u: nat, sets: seq<seq<int>>)
    requires u <= |samples|
    requires sets == Candidates(Seeded(top), excluded, SortEach(samples[..u]))
    ensures |sets| <= |Candidates(Seeded(top), excluded, SortEach(samples))|
    ensures sets == Candidates(Seeded(top), excluded, SortEach(samples))[..|sets|]
  {
    SortEachPrefix(samples, u);
    CandidatesPrefix(Seeded(top), excluded, SortEach(samples), u);
  }

  /** One pass of the `for i in range(4)` loop: the seeded search over the
      samples not yet consumed, its result appended to the sets found. */
  method NextSeededSet(draws: seq<Draw>, top: seq<int>, samples: seq<seq<int>>, sets: seq<seq<int>>, consumed: nat)
    returns (found: bool, sets': seq<seq<int>>, consumed': nat)
    requires forall i :: 0 <= i < |samples| ==> IsSample(samples[i])
    requires consumed <= |samples|
    requires sets == Candidates(Seeded(top), Exclusion(draws), SortEach(samples[..consumed]))
    ensures consumed' <= |samples|
    ensures sets' == Candidates(Seeded(top), Exclusion(draws), SortEach(samples[..consumed']))
    ensures found ==> |sets'| == |sets| + 1 && StoppedAt(samples, consumed', sets')
    ensures !found ==> sets' == sets && sets == Candidates(Seeded(top), Exclusion(draws), SortEach(samples))
  {
    var c, used := GenerateNewLottoNumbers(draws, top, samples[consumed..]);
    if c.None? {
      NoMoreSets(top, Exclusion(draws), samples, consumed, sets);
      return false, sets, consumed;
    }
    var next := consumed + used;
    LastConsumed(samples, consumed, used, next, sets, c.value);
    NextSet(top, Exclusion(draws), samples, consumed, used, next, sets, c.value);
    found, sets', consumed' := true, sets + [c.value], next;
  }

  /** The `for i in range(4)` loop of `main`: four seeded combinations,
      each search starting where the previous one stopped. `stuck` tells
      that a search found nothing among the remaining samples (the source
      would still be looping there); `consumed` samples were used. */
  method GenerateNewSets(draws: seq<Draw>, top: seq<int>, samples: seq<seq<int>>)
    returns (sets: seq<seq<int>>, consumed: nat, stuck: bool)
    requires forall i :: 0 <= i < |samples| ==> IsSample(samples[i])
    ensures consumed <= |samples|
    ensures !stuck ==> sets == Candidates(Seeded(top), Exclusion(draws), SortEach(samples[..consumed]))
    ensures var c := Candidates(Seeded(top), Exclusion(draws), SortEach(samples));
      |sets| == Min(NewSetCount, |c|) && sets == c[..|sets|]
    ensures stuck <==> |sets| < NewSetCount
    ensures !stuck ==> 0 < consumed && Sort(samples[consumed - 1]) == sets[NewSetCount - 1]
  {
    sets, consumed, stuck := [], 0, false;
    var i := 0;
    while i < NewSetCount
      invariant 0 <= i <= NewSetCount && |sets| == i
      invariant consumed <= |samples|
      invariant sets == Candidates(Seeded(top), Exclusion(draws), SortEach(samples[..consumed]))
      invariant StoppedAt(samples, consumed, sets)
    {
      var found;
      found, sets, consumed := NextSeededSet(draws, top, samples, sets, consumed);
      if !found {
        SetsRunOut(draws, top, samples, sets);
        return sets, consumed, true;
      }
      i := i + 1;
    }
    AllSetsFound(draws, top, samples, consumed, sets);
  }

  /** The searches ran out of samples with fewer than four sets: those are
      all the candidates there are. */
  lemma SetsRunOut(draws: seq<Draw>, top: seq<int>, samples: seq<seq<int>>, sets: seq<seq<int>>)
    requires |sets| < NewSetCount
    requires sets == Candidates(Seeded(top), Exclusion(draws), SortEach(samples))
    ensures var c := Candidates(Seeded(top), Exclusion(draws), SortEach(samples));
      |sets| == Min(NewSetCount, |c|) && sets == c[..|sets|]
  {
    assert sets == sets[..|sets|];
  }

  /** Four sets found: they head the candidates of all the samples, and the
      last of them came from the last sample consumed. */
  lemma AllSetsFound(draws: seq<Draw>, top: seq<int>, samples: seq<seq<int>>, consumed: nat, sets: seq<seq<int>>)
    requires consumed <= |samples| && |sets| == NewSetCount
    requires sets == Candidates(Seeded(top), Exclusion(draws), SortEach(samples[..consumed]))
    requires StoppedAt(samples, consumed, sets)
    ensures var c := Candidates(Seeded(top), Exclusion(draws), SortEach(samples));
      |sets| == Min(NewSetCount, |c|) && sets == c[..|sets|]
    ensures 0 < consumed && Sort(samples[consumed - 1]) == sets[NewSetCount - 1]
  {
    SetsArePrefix(top, Exclusion(draws), samples, consumed, sets);
  }

  /** The seeded half of `main`: four seeded combinations, then the
      recommended one from the samples left over. */
  method SeededRun(draws: seq<Draw>, top: seq<int>, samples: seq<seq<int>>)
    returns (sets: seq<seq<int>>, consumed: nat, recommended: Option<seq<int>>)
    requires forall i :: 0 <= i < |samples| ==> IsSample(samples[i])
    ensures consumed <= |samples|
    ensures var c := Candidates(Seeded(top), Exclusion(draws), SortEach(samples));
      |sets| == Min(NewSetCount, |c|) && sets == c[..|sets|]
    ensures |sets| < NewSetCount ==> recommended.None?
    ensures recommended.Some? ==> IsCombination(recommended.value) && recommended.value !in Exclusion(draws)
    ensures |sets| == NewSetCount ==>
      sets == Candidates(Seeded(top), Exclusion(draws), SortEach(samples[..consumed]))
    ensures |sets| == NewSetCount ==> 0 < consumed && Sort(samples[consumed - 1]) == sets[NewSetCount - 1]
    ensures |sets| == NewSetCount ==>
      var c := Candidates(Unseeded, Exclusion(draws), SortEach(samples[consumed..]));
      recommended == if c == [] then None else Some(c[0])
  {
    var stuck;
    sets, consumed, stuck := GenerateNewSets(draws, top, samples);
    if stuck {
      return sets, consumed, None;
    }
    var unused;
    recommended, unused := GenerateRecommendedLottoNumbers(draws, samples[consumed..]);
  }

  /** `main` without the fetching and the printing: seeded combinations only
      when the ranking is non-empty, then the recommended one. */
  method RunMain(draws: seq<Draw>, hasDateColumn: bool, now: int, samples: seq<seq<int>>) returns (run: Run)
    requires forall i :: 0 <= i < |samples| ==> IsSample(samples[i])
    ensures !hasDateColumn ==> run.top == []
    ensures hasDateColumn ==> IsTopK(WindowNumbers(draws, now), run.top, TopCount)
    ensures run.top == [] ==> run.newSets == []
    ensures run.top == [] ==> var c := Candidates(Unseeded, Exclusion(draws), SortEach(samples));
      run.recommended == if c == [] then None else Some(c[0])
    ensures run.top != [] ==> var c := Candidates(Seeded(run.top), Exclusion(draws), SortEach(samples));
      |run.newSets| == Min(NewSetCount, |c|) && run.newSets == c[..|run.newSets|]
    ensures |run.newSets| < NewSetCount && run.top != [] ==> run.recommended.None?
    ensures run.recommended.Some? ==> IsCombination(run.recommended.value) && run.recommended.value !in Exclusion(draws)
    ensures run.seededUsed <= |samples|
    ensures run.top == [] ==> run.seededUsed == 0
    ensures run.top != [] && |run.newSets| == NewSetCount ==>
      run.newSets == Candidates(Seeded(run.top), Exclusion(draws), SortEach(samples[..run.seededUsed]))
    ensures run.top != [] && |run.newSets| == NewSetCount ==>
      0 < run.seededUsed && Sort(samples[run.seededUsed - 1]) == run.newSets[NewSetCount - 1]
    ensures run.top != [] && |run.newSets| == NewSetCount ==>
      var c := Candidates(Unseeded, Exclusion(draws), SortEach(samples[run.seededUsed..]));
      run.recommended == if c == [] then None else Some(c[0])
  {
    var top := GetTopNumbersLastYear(draws, hasDateColumn, now);
    if top == [] {
      var recommended, _ := GenerateRecommendedLottoNumbers(draws, samples);
      return Run(top, [], 0, recommended);
    }
    var sets, consumed, recommended := SeededRun(draws, top, samples);
    run := Run(top, sets, consumed, recommended);
  }
}
