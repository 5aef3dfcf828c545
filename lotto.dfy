/** The command-line script lotto.py: the same analyses as the web
    application, but the pattern analysis keeps raw counts and a single
    counter of consecutive pairs, and the generator returns one combination.
    Frequencies and the top-five ranking are the shared ones of module
    History. */
module Lotto {
  import opened Sorting
  import opened Stats
  import opened History
  import App

  /** The dictionary `analyze_patterns` returns: five plain counts. */
  datatype Patterns = Patterns(consecutive: nat, even: nat, odd: nat, small: nat, large: nat)

  /** What `analyze_patterns` computes. */
  function PatternsOf(draws: seq<Draw>): Patterns {
    var all := AllNumbers(Rows(draws));
    Patterns(|ConsecutivePairs(Rows(draws))|,
      CountIn(all, Even), CountIn(all, Odd), CountIn(all, Small), CountIn(all, Large))
  }

  /** The inner pair loop with a plain counter. */
  method CountAdjacent(sorted: seq<int>) returns (n: nat)
    ensures n == |AdjacentPairs(sorted)|
  {
    n := 0;
    var i := 0;
    while i < |sorted| - 1
      invariant 0 <= i && (i < |sorted| || i == 0)
      invariant n == |AdjacentPairs(sorted[..if i + 1 < |sorted| then i + 1 else |sorted|])|
    {
      AdjacentPairsExtend(sorted, i);
      if sorted[i + 1] - sorted[i] == 1 {
        n := n + 1;
      }
      i := i + 1;
    }
    assert sorted[..if i + 1 < |sorted| then i + 1 else |sorted|] == sorted;
  }

  /** `analyze_patterns`: one pass over the draws; nothing is divided, so an
      empty table gives five zeros. */
  method AnalyzePatterns(draws: seq<Draw>) returns (p: Patterns)
    ensures p == PatternsOf(draws)
    ensures |draws| == 0 ==> p == Patterns(0, 0, 0, 0, 0)
  {
    var rows := Rows(draws);
    var consecutive, even, odd, small, large := 0, 0, 0, 0, 0;
    var k := 0;
    while k < |rows|
      invariant 0 <= k <= |rows|
      invariant consecutive == |ConsecutivePairs(rows[..k])|
      invariant even == CountIn(AllNumbers(rows[..k]), Even)
      invariant odd == CountIn(AllNumbers(rows[..k]), Odd)
      invariant small == CountIn(AllNumbers(rows[..k]), Small)
      invariant large == CountIn(AllNumbers(rows[..k]), Large)
    {
      var numberSet := rows[k];
      CountsExtend(rows, k);
      var pairs := CountAdjacent(Sort(numberSet));
      consecutive := consecutive + pairs;
      var e, o := TallyParity(numberSet);
      even, odd := even + e, odd + o;
      var sm, lg := TallySize(numberSet);
      small, large := small + sm, large + lg;
      k := k + 1;
    }
    assert rows[..k] == rows;
    p := Patterns(consecutive, even, odd, small, large);
  }

  /** Even plus odd and small plus large both come to six per draw, and the
      pair counter is at most five per draw. */
  lemma CountsCoverAllSlots(draws: seq<Draw>)
    requires forall i :: 0 <= i < |draws| ==> |draws[i].numbers| == DrawSize
    ensures PatternsOf(draws).even + PatternsOf(draws).odd == DrawSize * |draws|
    ensures PatternsOf(draws).small + PatternsOf(draws).large == DrawSize * |draws|
    ensures PatternsOf(draws).consecutive <= (DrawSize - 1) * |draws|
  {
    AllNumbersLength(Rows(draws));
    CategoriesSplit(AllNumbers(Rows(draws)));
    ConsecutivePairsBound(Rows(draws));
  }

  /** The single counter is the total of the web application's per-pair
      counter, and the raw counts are the numerators of its percentages. */
  lemma AgreesWithApp(draws: seq<Draw>)
    requires |draws| > 0
    ensures PatternsOf(draws).consecutive == |App.PatternsOf(draws).consecutive|
    ensures App.PatternsOf(draws).even == App.Percent(PatternsOf(draws).even, DrawSize * |draws|)
    ensures App.PatternsOf(draws).odd == App.Percent(PatternsOf(draws).odd, DrawSize * |draws|)
    ensures App.PatternsOf(draws).small == App.Percent(PatternsOf(draws).small, DrawSize * |draws|)
    ensures App.PatternsOf(draws).large == App.Percent(PatternsOf(draws).large, DrawSize * |draws|)
  {
  }

  /** `generate_recommended_lotto_numbers`: the first sorted sample that holds
      a top number and is not a past draw (None while the supplied samples
      do not contain one). */
  method GenerateRecommendedLottoNumbers(draws: seq<Draw>, top: seq<int>, samples: seq<seq<int>>)
    returns (r: Option<seq<int>>)
    requires forall i :: 0 <= i < |samples| ==> IsSample(samples[i])
    ensures var c := Candidates(Seeded(top), Exclusion(draws), SortEach(samples));
      r == if c == [] then None else Some(c[0])
    ensures r.Some? ==> IsCombination(r.value) && ContainsSome(r.value, top) && r.value !in Exclusion(draws)
  {
    var used;
    r, used := GenerateFirst(draws, Seeded(top), samples);
  }
}
