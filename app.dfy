/** The Flask application of app.py: pattern analysis with percentages, a
    batch of recommended combinations, and the "has this combination ever
    won?" check. Frequencies and the top-five ranking are the shared ones of
    module History. */
module App {
  import opened Sorting
  import opened Tables
  import opened Stats
  import opened History

  // ---------------------------------------------------------------------
  // Pattern analysis

  /** The dictionary `analyze_patterns` returns: a counter of consecutive
      pairs and four percentages. */
  datatype PatternReport = PatternReport(consecutive: multiset<(int, int)>, even: real, odd: real, small: real, large: real)

  /** The percentage step divides by `len(numbers) * 6`, which raises
      ZeroDivisionError on an empty table. */
  datatype Outcome<T> = Ok(value: T) | ZeroDivisionError

  /** `(count / total) * 100`, in exact arithmetic. */
  function Percent(count: nat, total: nat): real
    requires total > 0
  {
    count as real / total as real * 100.0
  }

  /** What `analyze_patterns` computes for a non-empty table. The divisor is
      six slots per draw, whatever the rows actually hold. */
  function PatternsOf(draws: seq<Draw>): PatternReport
    requires |draws| > 0
  {
    var all := AllNumbers(Rows(draws));
    var total := DrawSize * |draws|;
    PatternReport(multiset(ConsecutivePairs(Rows(draws))),
      Percent(CountIn(all, Even), total), Percent(CountIn(all, Odd), total),
      Percent(CountIn(all, Small), total), Percent(CountIn(all, Large), total))
  }

  /** The counting phase of `analyze_patterns`: one pass over the draws,
      feeding the pair counter and the four class counters. */
  method CountPatterns(rows: seq<seq<int>>)
    returns (consecutive: multiset<(int, int)>, even: nat, odd: nat, small: nat, large: nat)
    ensures consecutive == multiset(ConsecutivePairs(rows))
    ensures even == CountIn(AllNumbers(rows), Even) && odd == CountIn(AllNumbers(rows), Odd)
    ensures small == CountIn(AllNumbers(rows), Small) && large == CountIn(AllNumbers(rows), Large)
  {
    consecutive := multiset{};
    even, odd, small, large := 0, 0, 0, 0;
    var k := 0;
    while k < |rows|
      invariant 0 <= k <= |rows|
      invariant consecutive == multiset(ConsecutivePairs(rows[..k]))
      invariant even == CountIn(AllNumbers(rows[..k]), Even)
      invariant odd == CountIn(AllNumbers(rows[..k]), Odd)
      invariant small == CountIn(AllNumbers(rows[..k]), Small)
      invariant large == CountIn(AllNumbers(rows[..k]), Large)
    {
      var numberSet := rows[k];
      CountsExtend(rows, k);
      var pairs := CountAdjacentPairs(Sort(numberSet));
      consecutive := consecutive + pairs;
      var e, o := TallyParity(numberSet);
      even, odd := even + e, odd + o;
      var sm, lg := TallySize(numberSet);
      small, large := small + sm, large + lg;
      k := k + 1;
    }
    assert rows[..k] == rows;
  }

  /** `analyze_patterns`: the counts, then each class count as a percentage
      of six slots per draw. */
  method AnalyzePatterns(draws: seq<Draw>) returns (r: Outcome<PatternReport>)
    ensures |draws| == 0 ==> r == ZeroDivisionError
    ensures |draws| > 0 ==> r == Ok(PatternsOf(draws))
  {
    var rows := Rows(draws);
    var totalNumbers := |rows| * DrawSize;
    var consecutive, even, odd, small, large := CountPatterns(rows);
    if totalNumbers == 0 {
      return ZeroDivisionError;
    }
    r := Ok(PatternReport(consecutive,
      Percent(even, totalNumbers), Percent(odd, totalNumbers),
      Percent(small, totalNumbers), Percent(large, totalNumbers)));
  }

  lemma PercentsOfSplit(a: nat, b: nat, total: nat)
    requires total > 0 && a + b == total
    ensures Percent(a, total) + Percent(b, total) == 100.0
  {
    var t := total as real;
    var x, y, z := a as real / t, b as real / t, (a + b) as real / t;
    assert x * t == a as real && y * t == b as real && z * t == (a + b) as real;
    assert (x + y) * t == z * t;
    assert x + y == z;
  }

  /** With six numbers in every row, even and odd make up 100 percent, and so
      do small and large. */
  lemma PercentagesSumToHundred(draws: seq<Draw>)
    requires |draws| > 0
    requires forall i :: 0 <= i < |draws| ==> |draws[i].numbers| == DrawSize
    ensures PatternsOf(draws).even + PatternsOf(draws).odd == 100.0
    ensures PatternsOf(draws).small + PatternsOf(draws).large == 100.0
  {
    var all := AllNumbers(Rows(draws));
    AllNumbersLength(Rows(draws));
    CategoriesSplit(all);
    PercentsOfSplit(CountIn(all, Even), CountIn(all, Odd), DrawSize * |draws|);
    PercentsOfSplit(CountIn(all, Small), CountIn(all, Large), DrawSize * |draws|);
  }

  /** The counter holds (a, b) exactly when b = a + 1 and both are in one
      draw, and holds at most five pairs per six-number draw. */
  lemma ConsecutiveCounter(draws: seq<Draw>, p: (int, int))
    requires |draws| > 0
    ensures p in PatternsOf(draws).consecutive <==> SameRowSuccessors(Rows(draws), p)
    ensures (forall i :: 0 <= i < |draws| ==> |draws[i].numbers| == DrawSize) ==>
      |PatternsOf(draws).consecutive| <= (DrawSize - 1) * |draws|
  {
    ConsecutivePairsIff(Rows(draws), p);
    if forall i :: 0 <= i < |draws| ==> |draws[i].numbers| == DrawSize {
      ConsecutivePairsBound(Rows(draws));
    }
  }

  // ---------------------------------------------------------------------
  // A batch of recommendations

  /** The `while len(recommendations) < num_recommendations` loop: keep every
      sorted sample that contains a top number and is not a past draw, until
      there are enough. If the supplied samples run out first, the source
      would still be looping and the model answers None. */
  method GenerateRecommendedLottoNumbers(draws: seq<Draw>, top: seq<int>, numRecommendations: int, samples: seq<seq<int>>)
    returns (r: Option<seq<seq<int>>>)
    ensures var c := Candidates(Seeded(top), Exclusion(draws), SortEach(samples));
      r == if numRecommendations <= 0 then Some([])
           else if |c| >= numRecommendations then Some(c[..numRecommendations])
           else None
    ensures r.Some? ==> |r.value| == if numRecommendations <= 0 then 0 else numRecommendations
  {
    var allDrawnNumbers := Exclusion(draws);
    ghost var combos := SortEach(samples);
    var recommendations: seq<seq<int>> := [];
    var i := 0;
    while |recommendations| < numRecommendations
      invariant 0 <= i <= |samples|
      invariant recommendations == Candidates(Seeded(top), allDrawnNumbers, combos[..i])
      invariant numRecommendations <= 0 ==> i == 0
      invariant numRecommendations > 0 ==> |recommendations| <= numRecommendations
      decreases |samples| - i
    {
      if i == |samples| {
        assert combos[..i] == combos;
        assert |Candidates(Seeded(top), allDrawnNumbers, combos)| < numRecommendations;
        return None;
      }
      var newNumbers := Sort(samples[i]);
      CandidatesExtend(Seeded(top), allDrawnNumbers, combos, i);
      if Accepts(Seeded(top), allDrawnNumbers, newNumbers) {
        recommendations := recommendations + [newNumbers];
      }
      i := i + 1;
    }
    if numRecommendations > 0 {
      CandidatesPrefix(Seeded(top), allDrawnNumbers, combos, i);
      assert recommendations == Candidates(Seeded(top), allDrawnNumbers, combos)[..numRecommendations];
    }
    r := Some(recommendations);
  }

  /** Every recommendation of a batch is a fresh combination holding a top
      number. */
  lemma RecommendationsValid(draws: seq<Draw>, top: seq<int>, n: nat, samples: seq<seq<int>>)
    requires forall i :: 0 <= i < |samples| ==> IsSample(samples[i])
    requires n <= |Candidates(Seeded(top), Exclusion(draws), SortEach(samples))|
    ensures forall c :: c in Candidates(Seeded(top), Exclusion(draws), SortEach(samples))[..n] ==>
      IsCombination(c) && ContainsSome(c, top) && c !in Exclusion(draws)
  {
    var all := Candidates(Seeded(top), Exclusion(draws), SortEach(samples));
    CandidatesValid(Seeded(top), Exclusion(draws), samples);
    assert forall c :: c in all[..n] ==> c in all;
  }

  /** Nothing keeps two recommendations of one batch apart: an acceptable
      combination drawn twice is kept twice. */
  lemma DuplicateRecommendationsAllowed(top: seq<int>, excluded: set<seq<int>>, c: seq<int>)
    requires IsCombination(c) && ContainsSome(c, top) && c !in excluded
    ensures Candidates(Seeded(top), excluded, SortEach([c, c])) == [c, c]
  {
    assert IsSorted(c);
    SortOfSorted(c);
    assert SortEach([c, c]) == [c, c];
    AcceptedTwice(Seeded(top), excluded, c);
  }

  lemma AcceptedTwice(rule: Rule, excluded: set<seq<int>>, c: seq<int>)
    requires Accepts(rule, excluded, c)
    ensures Candidates(rule, excluded, [c, c]) == [c, c]
  {
    assert Kept(rule, excluded, c) == [c];
    assert [c][..0] == [];
    assert Candidates(rule, excluded, [c]) == [c];
    assert [c, c][..1] == [c];
  }

  // ---------------------------------------------------------------------
  // The winning-number check

  /** `str.split(',')`: the pieces between commas, empty ones included. */
  function SplitOnComma(s: string): (parts: seq<string>)
    ensures |parts| >= 1
    ensures forall i :: 0 <= i < |parts| ==> ',' !in parts[i]
    ensures JoinWithComma(parts) == s
  {
    if s == [] then [""]
    else
      var rest := SplitOnComma(s[1..]);
      if s[0] == ',' then
        assert ([""] + rest)[1..] == rest;
        [""] + rest
      else
        var parts := [[s[0]] + rest[0]] + rest[1..];
        assert parts[1..] == rest[1..];
        assert s == [s[0]] + s[1..];
        parts
  }

  /** `','.join(parts)`. */
  function JoinWithComma(parts: seq<string>): string
    requires |parts| >= 1
  {
    if |parts| == 1 then parts[0] else parts[0] + "," + JoinWithComma(parts[1..])
  }

  lemma {:induction false} SplitOfCommaFree(p: string)
    requires ',' !in p
    ensures SplitOnComma(p) == [p]
  {
    if p != [] {
      SplitOfCommaFree(p[1..]);
    }
  }

  lemma {:induction false} SplitAfterPiece(p: string, x: string)
    requires ',' !in p
    ensures SplitOnComma(p + "," + x) == [p] + SplitOnComma(x)
  {
    if p == [] {
      assert p + "," + x == [','] + x;
      assert ([','] + x)[1..] == x;
    } else {
      assert (p + "," + x)[1..] == p[1..] + "," + x;
      SplitAfterPiece(p[1..], x);
      assert p == [p[0]] + p[1..];
    }
  }

  /** Splitting undoes joining comma-free pieces. */
  lemma {:induction false} SplitJoin(parts: seq<string>)
    requires |parts| >= 1
    requires forall i :: 0 <= i < |parts| ==> ',' !in parts[i]
    ensures SplitOnComma(JoinWithComma(parts)) == parts
  {
    if |parts| == 1 {
      SplitOfCommaFree(parts[0]);
    } else {
      SplitJoin(parts[1..]);
      SplitAfterPiece(parts[0], JoinWithComma(parts[1..]));
    }
  }

  /** The characters Python's `int()` strips around a number (the ASCII
      ones). */
  predicate IsSpace(c: char) {
    c == ' ' || c == '\t' || c == '\n' || c == '\r' || c as int == 11 || c as int == 12
  }

  predicate IsDigit(c: char) {
    '0' <= c <= '9'
  }

  predicate AllDigits(s: string) {
    forall i :: 0 <= i < |s| ==> IsDigit(s[i])
  }

  function StripLeft(s: string): string {
    if |s| > 0 && IsSpace(s[0]) then StripLeft(s[1..]) else s
  }

  function StripRight(s: string): string {
    if |s| > 0 && IsSpace(s[|s| - 1]) then StripRight(s[..|s| - 1]) else s
  }

  /** The value of a string of decimal digits, leading zeros allowed. */
  function DigitsValue(ds: string): nat
    requires AllDigits(ds)
  {
    if ds == [] then 0
    else DigitsValue(ds[..|ds| - 1]) * 10 + (ds[|ds| - 1] as int - '0' as int)
  }

  /** `int(token)`: optional surrounding whitespace, an optional sign, then
      at least one decimal digit; anything else is a ValueError (None). */
  function ParseInt(token: string): Option<int> {
    var t := StripRight(StripLeft(token));
    if |t| > 0 && (t[0] == '-' || t[0] == '+') then
      var ds := t[1..];
      if |ds| > 0 && AllDigits(ds) then
        var v: int := DigitsValue(ds);
        Some(if t[0] == '-' then -v else v)
      else None
    else if |t| > 0 && AllDigits(t) then Some(DigitsValue(t))
    else None
  }

  /** Decimal rendering of a natural number, without leading zeros. */
  function ShowNat(n: nat): (s: string)
    ensures |s| > 0 && AllDigits(s)
    ensures DigitsValue(s) == n
  {
    var d := ['0' + (n % 10) as char];
    if n < 10 then
      assert d[..0] == [];
      d
    else
      var s := ShowNat(n / 10) + d;
      assert s[..|s| - 1] == ShowNat(n / 10);
      s
  }

  /** Decimal rendering of an integer, as `str` writes it. */
  function ShowInt(n: int): string {
    if n < 0 then "-" + ShowNat(-n) else ShowNat(n)
  }

  /** `int` reads back what `str` wrote, also after the blank that usually
      follows a comma. */
  lemma ParseShowInt(n: int)
    ensures ParseInt(ShowInt(n)) == Some(n)
    ensures ParseInt(" " + ShowInt(n)) == Some(n)
  {
    var s := ShowInt(n);
    assert !IsSpace(s[0]) && !IsSpace(s[|s| - 1]);
    assert (" " + s)[1..] == s;
    if n < 0 {
      assert s[1..] == ShowNat(-n);
    }
  }

  /** `map(int, tokens)` forced by `sorted`: every token must parse. */
  function ParseAll(tokens: seq<string>): (r: Option<seq<int>>)
    ensures r.Some? ==> |r.value| == |tokens|
    ensures r.Some? ==> forall i :: 0 <= i < |tokens| ==> ParseInt(tokens[i]) == Some(r.value[i])
    ensures r.None? ==> exists i :: 0 <= i < |tokens| && ParseInt(tokens[i]).None?
  {
    if tokens == [] then Some([])
    else
      match ParseInt(tokens[0])
      case None => None
      case Some(x) =>
        match ParseAll(tokens[1..])
        case None =>
          var i :| 0 <= i < |tokens| - 1 && ParseInt(tokens[1..][i]).None?;
          assert ParseInt(tokens[i + 1]).None?;
          None
        case Some(xs) => Some([x] + xs)
  }

  /** The rendering of a list of numbers: `str` of each, then one comma and
      one blank between consecutive ones. */
  function ShowList(ns: seq<int>): (tokens: seq<string>)
    ensures |tokens| == |ns|
    ensures forall i :: 0 <= i < |ns| ==> tokens[i] == (if i == 0 then "" else " ") + ShowInt(ns[i])
  {
    seq(|ns|, i requires 0 <= i < |ns| => (if i == 0 then "" else " ") + ShowInt(ns[i]))
  }

  /** When every token reads as the matching number, the whole list does. */
  lemma {:induction false} ParseAllOf(tokens: seq<string>, ns: seq<int>)
    requires |tokens| == |ns|
    requires forall i :: 0 <= i < |tokens| ==> ParseInt(tokens[i]) == Some(ns[i])
    ensures ParseAll(tokens) == Some(ns)
  {
    if tokens != [] {
      ParseAllOf(tokens[1..], ns[1..]);
      assert ns == [ns[0]] + ns[1..];
    }
  }

  lemma ParseShowList(ns: seq<int>)
    ensures ParseAll(ShowList(ns)) == Some(ns)
  {
    forall i | 0 <= i < |ns|
      ensures ParseInt(ShowList(ns)[i]) == Some(ns[i])
    {
      ParseShowInt(ns[i]);
      if i == 0 {
        assert "" + ShowInt(ns[0]) == ShowInt(ns[0]);
      }
    }
    ParseAllOf(ShowList(ns), ns);
  }

  /** The reference meaning of "this has won before": some past draw has
      exactly these numbers, in any order and counting repeats. */
  ghost predicate HasWon(draws: seq<Draw>, numbers: seq<int>) {
    exists i :: 0 <= i < |draws| && multiset(draws[i].numbers) == multiset(numbers)
  }

  lemma WinIffPermutation(draws: seq<Draw>, numbers: seq<int>)
    ensures Sort(numbers) in Exclusion(draws) <==> HasWon(draws, numbers)
  {
    if Sort(numbers) in Exclusion(draws) {
      var i :| 0 <= i < |draws| && Sort(draws[i].numbers) == Sort(numbers);
      SortEqualIffPermutation(draws[i].numbers, numbers);
    }
    if HasWon(draws, numbers) {
      var i :| 0 <= i < |draws| && multiset(draws[i].numbers) == multiset(numbers);
      SortEqualIffPermutation(draws[i].numbers, numbers);
      assert Sort(draws[i].numbers) in Exclusion(draws);
    }
  }

  /** The three JSON answers of `check_lotto_number`. */
  datatype CheckResult = Failure | Won | NotWon

  /** `check_lotto_number` once the table is loaded: a missing form field or a
      token that is not an integer gives the failure answer; otherwise the
      sorted input is looked up among the sorted past draws. */
  function CheckLottoNumber(draws: seq<Draw>, input: Option<string>): (r: CheckResult)
    ensures r == Failure <==> input.None? || ParseAll(SplitOnComma(input.value)).None?
    ensures r == Won <==>
      (input.Some? && ParseAll(SplitOnComma(input.value)).Some? &&
       HasWon(draws, ParseAll(SplitOnComma(input.value)).value))
  {
    match input
    case None => Failure
    case Some(text) =>
      match ParseAll(SplitOnComma(text))
      case None => Failure
      case Some(numbers) =>
        WinIffPermutation(draws, numbers);
        if Sort(numbers) in Exclusion(draws) then Won else NotWon
  }

  /** Typing the numbers of a past draw in any order, separated by ", ",
      is answered Won; any other list of numbers is answered NotWon. */
  lemma CheckTypedNumbers(draws: seq<Draw>, ns: seq<int>)
    requires |ns| >= 1
    ensures CheckLottoNumber(draws, Some(JoinWithComma(ShowList(ns)))) ==
      if HasWon(draws, ns) then Won else NotWon
  {
    var tokens := ShowList(ns);
    forall i | 0 <= i < |tokens|
      ensures ',' !in tokens[i]
    {
      var d := ShowInt(ns[i]);
      assert forall j :: 0 <= j < |d| ==> d[j] == '-' || IsDigit(d[j]);
    }
    SplitJoin(tokens);
    ParseShowList(ns);
  }

  /** Lists of a length other than six never match a six-number draw. */
  lemma WrongLengthNeverWins(draws: seq<Draw>, numbers: seq<int>)
    requires forall i :: 0 <= i < |draws| ==> |draws[i].numbers| == DrawSize
    requires |numbers| != DrawSize
    ensures !HasWon(draws, numbers)
  {
    forall i | 0 <= i < |draws|
      ensures multiset(draws[i].numbers) != multiset(numbers)
    {
      assert |multiset(draws[i].numbers)| == DrawSize;
    }
  }
}
