/** The browser script script.js: the one-year window by calendar date, the
    most frequent numbers of the window, the "unpicked numbers" generator,
    the odd/even and high/low counts, and the ranking of consecutive pairs.
    Fetching the JSON file and filling the page are not part of this model. */
module Script {
  import opened Sorting
  import opened Tables
  import opened Stats
  import opened History

  // ---------------------------------------------------------------------
  // Calendar dates and the one-year window

  /** A calendar date of the proleptic Gregorian calendar. */
  datatype CalDate = CalDate(year: int, month: int, day: int)

  predicate IsLeap(y: int) {
    y % 4 == 0 && (y % 100 != 0 || y % 400 == 0)
  }

  function DaysInMonth(y: int, m: int): int {
    if m == 2 then (if IsLeap(y) then 29 else 28)
    else if m == 4 || m == 6 || m == 9 || m == 11 then 30
    else 31
  }

  predicate ValidDate(d: CalDate) {
    1 <= d.month <= 12 && 1 <= d.day <= DaysInMonth(d.year, d.month)
  }

  /** a is an earlier day than b. */
  predicate DateBefore(a: CalDate, b: CalDate) {
    a.year < b.year || (a.year == b.year && (a.month < b.month || (a.month == b.month && a.day < b.day)))
  }

  const MsPerDay := 86400000

  /** A moment: a date and the milliseconds since midnight of that date. */
  datatype Instant = Instant(date: CalDate, ms: int)

  /** a >= b on time values. */
  predicate NotBefore(a: Instant, b: Instant) {
    DateBefore(b.date, a.date) || (a.date == b.date && a.ms >= b.ms)
  }

  /** `setFullYear(getFullYear() - 1)`: the same month, day and time of day
      one year earlier, where a day the earlier month lacks (29 February)
      runs over into the next month. */
  function OneYearBefore(t: Instant): (r: Instant)
    ensures r.ms == t.ms && r.date.year == t.date.year - 1
    ensures ValidDate(t.date) ==> ValidDate(r.date) && DateBefore(r.date, t.date)
    ensures ValidDate(t.date) && !(t.date.month == 2 && t.date.day == 29) ==>
      r.date.month == t.date.month && r.date.day == t.date.day
    ensures ValidDate(t.date) && t.date.month == 2 && t.date.day == 29 ==>
      r.date == CalDate(t.date.year - 1, 3, 1)
  {
    var d := t.date;
    if d.month == 2 && d.day == 29 && !IsLeap(d.year - 1) then
      Instant(CalDate(d.year - 1, 3, 1), t.ms)
    else
      Instant(CalDate(d.year - 1, d.month, d.day), t.ms)
  }

  /** One element of the JSON array: the draw date and the six numbers. */
  datatype Entry = Entry(date: CalDate, numbers: seq<int>)

  /** `new Date(entry.날짜) >= oneYearAgo`: the entry's date, read as
      midnight, is not before the moment one year back from now. */
  predicate Recent(e: Entry, now: Instant) {
    NotBefore(Instant(e.date, 0), OneYearBefore(now))
  }

  /** An entry dated on the cut-off day itself is kept only when now is
      exactly midnight; every later date is kept and every earlier one is
      dropped. */
  lemma RecentIff(e: Entry, now: Instant)
    requires 0 <= now.ms < MsPerDay
    ensures Recent(e, now) <==>
      DateBefore(OneYearBefore(now).date, e.date) || (e.date == OneYearBefore(now).date && now.ms == 0)
  {
  }

  /** `getLastYearData`: the entries of the last year, in their order. */
  function LastYearData(data: seq<Entry>, now: Instant): (r: seq<Entry>)
    ensures |r| <= |data|
    ensures forall e :: e in r <==> e in data && Recent(e, now)
  {
    if data == [] then []
    else
      var init, last := data[..|data| - 1], data[|data| - 1];
      assert data == init + [last];
      LastYearData(init, now) + (if Recent(last, now) then [last] else [])
  }

  /** The filter keeps the order of the entries: it works piece by piece, so
      the kept entries of a concatenation are the kept entries of its first
      part followed by those of its second. */
  lemma {:induction false} LastYearDataAppend(a: seq<Entry>, b: seq<Entry>, now: Instant)
    ensures LastYearData(a + b, now) == LastYearData(a, now) + LastYearData(b, now)
  {
    if b != [] {
      var init, last := b[..|b| - 1], b[|b| - 1];
      assert a + b == (a + init) + [last];
      assert (a + b)[..|a + b| - 1] == a + init;
      LastYearDataAppend(a, init, now);
    } else {
      assert a + b == a;
    }
  }

  /** Every recent entry is kept as often as it occurs, and no other. */
  lemma {:induction false} LastYearDataCounts(data: seq<Entry>, now: Instant)
    ensures forall e :: multiset(LastYearData(data, now))[e] == if Recent(e, now) then multiset(data)[e] else 0
  {
    if data != [] {
      var init, last := data[..|data| - 1], data[|data| - 1];
      assert data == init + [last];
      LastYearDataCounts(init, now);
    }
  }

  /** A single entry is kept exactly when it is recent. */
  lemma LastYearDataSingle(e: Entry, now: Instant)
    ensures LastYearData([e], now) == if Recent(e, now) then [e] else []
  {
    assert [e][..0] == [];
  }

  /** The number arrays of the entries: the browser's JSON entries carry no
      draw number or bonus, so they are a record of their own, and this is
      History.Rows for them. */
  function EntryRows(data: seq<Entry>): (rows: seq<seq<int>>)
    ensures |rows| == |data|
    ensures forall i :: 0 <= i < |data| ==> rows[i] == data[i].numbers
  {
    seq(|data|, i requires 0 <= i < |data| => data[i].numbers)
  }

  /** Every number of every entry, entry after entry. */
  function NumbersOf(data: seq<Entry>): seq<int> {
    AllNumbers(EntryRows(data))
  }

  /** Taking in one more entry. */
  lemma NumbersOfExtend(data: seq<Entry>, k: int)
    requires 0 <= k < |data|
    ensures NumbersOf(data[..k + 1]) == NumbersOf(data[..k]) + data[k].numbers
  {
    assert EntryRows(data[..k + 1])[..k] == EntryRows(data[..k]);
  }

  // ---------------------------------------------------------------------
  // `Array.prototype.slice(0, count)` after a ranking

  function Max(a: int, b: int): int {
    if a < b then b else a
  }

  /** Where `slice(0, count)` ends on an array of length len: a negative
      count counts back from the end. */
  function SliceEnd(len: nat, count: int): (n: nat)
    ensures n <= len
    ensures count >= 0 ==> n == Min(count, len)
    ensures count < 0 ==> n == Max(0, len + count)
  {
    if count < 0 then (if len + count < 0 then 0 else len + count)
    else if count < len then count else len
  }

  /** The first keys of the ranking of a frequency table of s, cut where
      `slice(0, count)` cuts: the most frequent elements of s. */
  lemma SliceIsTopK<K(!new)>(s: seq<K>, t: seq<Freq<K>>, count: int)
    requires Tabulates(t, s)
    ensures count >= 0 ==> IsTopK(s, KeysOf(RankByCount(t))[..SliceEnd(|t|, count)], count)
    ensures count < 0 ==> IsTopK(s, KeysOf(RankByCount(t))[..SliceEnd(|t|, count)], SliceEnd(|t|, count))
  {
    var n := SliceEnd(|t|, count);
    if count >= 0 {
      TopKeysAreTopK(s, t, count);
      assert TopKeys(t, count) == KeysOf(RankByCount(t))[..n];
    } else {
      TopKeysAreTopK(s, t, n);
      assert TopKeys(t, n) == KeysOf(RankByCount(t))[..n];
    }
  }

  // ---------------------------------------------------------------------
  // getMostFrequentNumbers

  /** Most frequent first, and among equally frequent numbers the smaller
      first. */
  ghost predicate FrequencyOrder(s: seq<int>, top: seq<int>) {
    forall i, j :: 0 <= i < j < |top| ==>
      multiset(s)[top[i]] > multiset(s)[top[j]] ||
      (multiset(s)[top[i]] == multiset(s)[top[j]] && top[i] < top[j])
  }

  /** The ranking of an integer-keyed counting object lists ties in
      ascending order, because the object enumerates such keys in ascending
      order and the sort is stable. */
  lemma RankingOrder(s: seq<int>, n: nat)
    requires n <= |Frequencies(s)|
    ensures FrequencyOrder(s, KeysOf(RankByCount(Frequencies(s)))[..n])
  {
    var t := Frequencies(s);
    FrequenciesSpec(s);
    var r := RankByCount(t);
    var top := KeysOf(r)[..n];
    RankTiesAscending(t);
    RankedRowsCount(s, t);
    forall i, j | 0 <= i < j < |top|
      ensures multiset(s)[top[i]] > multiset(s)[top[j]] ||
        (multiset(s)[top[i]] == multiset(s)[top[j]] && top[i] < top[j])
    {
      assert top[i] == r[i].key && top[j] == r[j].key;
    }
  }

  /** Every number of s left out of top ranks below every listed one: it
      is less frequent, or as frequent and larger. */
  ghost predicate RanksBelowListed(s: seq<int>, top: seq<int>) {
    forall x, i :: x in s && x !in top && 0 <= i < |top| ==>
      multiset(s)[top[i]] > multiset(s)[x] ||
      (multiset(s)[top[i]] == multiset(s)[x] && top[i] < x)
  }

  /** Cutting the ranking after n keys leaves out only numbers that rank
      below the listed ones, so of equally frequent numbers the smaller are
      kept. */
  lemma RankingCut(s: seq<int>, n: nat)
    requires n <= |Frequencies(s)|
    ensures RanksBelowListed(s, KeysOf(RankByCount(Frequencies(s)))[..n])
  {
    var top := KeysOf(RankByCount(Frequencies(s)))[..n];
    forall x, i | x in s && x !in top && 0 <= i < |top|
      ensures multiset(s)[top[i]] > multiset(s)[x] ||
        (multiset(s)[top[i]] == multiset(s)[x] && top[i] < x)
    {
      OmittedRanksBelow(s, n, x, i);
    }
  }

  /** One omitted number against one listed number. */
  lemma OmittedRanksBelow(s: seq<int>, n: nat, x: int, i: nat)
    requires n <= |Frequencies(s)| && i < n
    requires x in s && x !in KeysOf(RankByCount(Frequencies(s)))[..n]
    ensures var y := KeysOf(RankByCount(Frequencies(s)))[i];
      multiset(s)[y] > multiset(s)[x] || (multiset(s)[y] == multiset(s)[x] && y < x)
  {
    var t := Frequencies(s);
    var r := RankByCount(t);
    assert x in KeysOf(r) by {
      FrequenciesSpec(s);
      RankByCountKeys(t);
      if x !in KeysOf(t) {
        CountOfAbsent(t, x);
      }
      assert x in multiset(KeysOf(r));
    }
    var j :| 0 <= j < |r| && KeysOf(r)[j] == x;
    assert n <= j;
    assert r[i].count > r[j].count || (r[i].count == r[j].count && r[i].key < r[j].key) by {
      FrequenciesSpec(s);
      RankTiesAscending(t);
    }
    assert r[i].count == multiset(s)[r[i].key] && r[j].count == multiset(s)[r[j].key] by {
      FrequenciesSpec(s);
      RankedRowsCount(s, t);
    }
    assert KeysOf(r)[i] == r[i].key && r[j].key == x;
  }
  /** The inner `forEach` of the counting loop: one entry's numbers. */
  method CountNumbers(table: seq<Freq<int>>, ghost seen: seq<int>, numbers: seq<int>)
    returns (t: seq<Freq<int>>)
    requires table == Frequencies(seen)
    ensures t == Frequencies(seen + numbers)
  {
    t := table;
    assert seen + numbers[..0] == seen;
    for j := 0 to |numbers|
      invariant t == Frequencies(seen + numbers[..j])
    {
      var next := seen + numbers[..j + 1];
      assert next[..|next| - 1] == seen + numbers[..j];
      t := Bump(t, numbers[j]);
    }
    assert numbers[..|numbers|] == numbers;
  }

  /** `getMostFrequentNumbers`: count every number of the entries, rank
      the counts most frequent first and keep the first `count` keys. */
  method MostFrequentNumbers(data: seq<Entry>, count: int) returns (top: seq<int>)
    ensures count >= 0 ==> IsTopK(NumbersOf(data), top, count)
    ensures count < 0 ==> |top| == Max(0, |Frequencies(NumbersOf(data))| + count)
    ensures count < 0 ==> IsTopK(NumbersOf(data), top, |top|)
    ensures FrequencyOrder(NumbersOf(data), top)
    ensures RanksBelowListed(NumbersOf(data), top)
  {
    var numberFrequency: seq<Freq<int>> := [];
    for k := 0 to |data|
      invariant numberFrequency == Frequencies(NumbersOf(data[..k]))
    {
      numberFrequency := CountNumbers(numberFrequency, NumbersOf(data[..k]), data[k].numbers);
      NumbersOfExtend(data, k);
    }
    assert data[..|data|] == data;
    var n := SliceEnd(|numberFrequency|, count);
    top := KeysOf(RankByCount(numberFrequency))[..n];
    FrequenciesSpec(NumbersOf(data));
    SliceIsTopK(NumbersOf(data), numberFrequency, count);
    RankingOrder(NumbersOf(data), n);
    RankingCut(NumbersOf(data), n);
  }

  // ---------------------------------------------------------------------
  // getUnpickedNumbers

  /** The numbers that occur in s. */
  function Elements(s: seq<int>): set<int> {
    set x | x in s
  }

  /** The `pickedNumbers` set, filled by the two nested `forEach` loops. */
  method PickedNumbers(data: seq<Entry>) returns (picked: set<int>)
    ensures forall x :: x in picked <==> x in NumbersOf(data)
  {
    picked := {};
    for k := 0 to |data|
      invariant picked == Elements(NumbersOf(data[..k]))
    {
      ghost var seen := NumbersOf(data[..k]);
      var numbers := data[k].numbers;
      assert seen + numbers[..0] == seen;
      for j := 0 to |numbers|
        invariant picked == Elements(seen + numbers[..j])
      {
        assert seen + numbers[..j + 1] == (seen + numbers[..j]) + [numbers[j]];
        picked := picked + {numbers[j]};
      }
      assert numbers[..|numbers|] == numbers;
      NumbersOfExtend(data, k);
    }
    assert data[..|data|] == data;
  }

  /** `allNumbers.filter(number => !pickedNumbers.has(number))` over
      `allNumbers` = 1, 2, ..., n: the numbers up to n not picked, ascending. */
  function UnpickedUpTo(n: nat, picked: set<int>): (r: seq<int>)
    ensures StrictlyIncreasing(r)
    ensures forall i :: 0 <= i < |r| ==> 1 <= r[i] <= n
    ensures forall x :: x in r <==> 1 <= x <= n && x !in picked
  {
    if n == 0 then []
    else UnpickedUpTo(n - 1, picked) + (if n in picked then [] else [n])
  }

  /** `unpickedNumbers`: 1..45 less every number seen in the entries. */
  function UnpickedOf(data: seq<Entry>): (r: seq<int>)
    ensures StrictlyIncreasing(r)
    ensures forall x :: x in r <==> LowestNumber <= x <= HighestNumber && x !in NumbersOf(data)
  {
    UnpickedUpTo(HighestNumber, Elements(NumbersOf(data)))
  }

  /** The six values of `Math.random()` behind one candidate, each in [0, 1). */
  predicate ValidRoll(roll: seq<real>) {
    |roll| == DrawSize && forall i :: 0 <= i < |roll| ==> 0.0 <= roll[i] < 1.0
  }

  predicate ValidRolls(rolls: seq<seq<real>>) {
    forall k :: 0 <= k < |rolls| ==> ValidRoll(rolls[k])
  }

  /** `getRandomElement`: the element at index floor(x * length); an empty
      array gives `undefined` (None). */
  function RandomElement(arr: seq<int>, x: real): (r: Option<int>)
    requires 0.0 <= x < 1.0
    ensures |arr| > 0 ==> r.Some? && r.value in arr
    ensures |arr| == 0 ==> r.None?
  {
    var k := (x * |arr| as real).Floor;
    ScaledIndex(x, |arr|);
    if 0 <= k < |arr| then Some(arr[k]) else None
  }

  /** floor(x * n) for x in [0, 1) is an index of an array of length n. */
  lemma ScaledIndex(x: real, n: nat)
    requires 0.0 <= x < 1.0
    ensures 0 <= (x * n as real).Floor
    ensures n > 0 ==> (x * n as real).Floor < n
  {
    var y := x * n as real;
    assert 0.0 <= y;
    assert y <= n as real - (1.0 - x) * n as real;
    if n > 0 {
      assert 0.0 < (1.0 - x) * n as real;
    }
  }

  /** `Array.from({ length: 6 }, () => getRandomElement(unpickedNumbers))`. */
  function NewNumber(unpicked: seq<int>, roll: seq<real>): (r: seq<Option<int>>)
    requires ValidRoll(roll)
    ensures |r| == DrawSize
    ensures forall i :: 0 <= i < |r| ==> r[i].Some? ==> r[i].value in unpicked
  {
    seq(DrawSize, i requires 0 <= i < DrawSize => RandomElement(unpicked, roll[i]))
  }

  /** `newNumber.some(num => mostFrequentNumbers.includes(num))`: `undefined`
      is never included. */
  predicate HitsFrequent(n: seq<Option<int>>, frequent: seq<int>) {
    exists i :: 0 <= i < |n| && n[i].Some? && n[i].value in frequent
  }

  /** The candidates the loop keeps, one per roll that hits a frequent
      number, in order. */
  function Hits(unpicked: seq<int>, frequent: seq<int>, rolls: seq<seq<real>>): seq<seq<Option<int>>>
    requires ValidRolls(rolls)
  {
    if rolls == [] then []
    else
      var n := NewNumber(unpicked, rolls[|rolls| - 1]);
      Hits(unpicked, frequent, rolls[..|rolls| - 1]) + (if HitsFrequent(n, frequent) then [n] else [])
  }

  /** Looking at one more roll. */
  lemma HitsExtend(unpicked: seq<int>, frequent: seq<int>, rolls: seq<seq<real>>, k: int)
    requires ValidRolls(rolls) && 0 <= k < |rolls|
    ensures var n := NewNumber(unpicked, rolls[k]);
      Hits(unpicked, frequent, rolls[..k + 1]) ==
        Hits(unpicked, frequent, rolls[..k]) + (if HitsFrequent(n, frequent) then [n] else [])
  {
    assert rolls[..k + 1][..k] == rolls[..k];
  }

  lemma {:induction false} HitsAppend(unpicked: seq<int>, frequent: seq<int>, a: seq<seq<real>>, b: seq<seq<real>>)
    requires ValidRolls(a) && ValidRolls(b)
    ensures Hits(unpicked, frequent, a + b) == Hits(unpicked, frequent, a) + Hits(unpicked, frequent, b)
  {
    if b == [] {
      assert a + b == a;
    } else {
      var ab, init := a + b, b[..|b| - 1];
      assert ab[..|ab| - 1] == a + init;
      assert ab[|ab| - 1] == b[|b| - 1];
      HitsAppend(unpicked, frequent, a, init);
      var n := NewNumber(unpicked, b[|b| - 1]);
      var ha, hi, last := Hits(unpicked, frequent, a), Hits(unpicked, frequent, init),
        if HitsFrequent(n, frequent) then [n] else [];
      assert (ha + hi) + last == ha + (hi + last);
    }
  }

  /** More rolls only add candidates at the end. */
  lemma HitsPrefix(unpicked: seq<int>, frequent: seq<int>, rolls: seq<seq<real>>, k: int)
    requires ValidRolls(rolls) && 0 <= k <= |rolls|
    ensures |Hits(unpicked, frequent, rolls[..k])| <= |Hits(unpicked, frequent, rolls)|
    ensures Hits(unpicked, frequent, rolls[..k]) ==
      Hits(unpicked, frequent, rolls)[..|Hits(unpicked, frequent, rolls[..k])|]
  {
    assert rolls == rolls[..k] + rolls[k..];
    HitsAppend(unpicked, frequent, rolls[..k], rolls[k..]);
  }

  /** Elements drawn from `unpicked` can only hit a frequent number that is
      itself unpicked: with none such, no roll is ever kept. */
  lemma {:induction false} NoHits(unpicked: seq<int>, frequent: seq<int>, rolls: seq<seq<real>>)
    requires ValidRolls(rolls)
    requires forall i :: 0 <= i < |frequent| ==> frequent[i] !in unpicked
    ensures Hits(unpicked, frequent, rolls) == []
  {
    if rolls != [] {
      NoHits(unpicked, frequent, rolls[..|rolls| - 1]);
      var n := NewNumber(unpicked, rolls[|rolls| - 1]);
      assert !HitsFrequent(n, frequent);
    }
  }

  /** The `while (result.length < count)` loop. The rolls are supplied by the
      caller; when they run out before `count` candidates are kept, the
      source would still be looping and the model answers None. */
  method UnpickedSets(unpicked: seq<int>, frequent: seq<int>, count: int, rolls: seq<seq<real>>)
    returns (r: Option<seq<seq<Option<int>>>>)
    requires ValidRolls(rolls)
    ensures r.Some? <==> count <= |Hits(unpicked, frequent, rolls)|
    ensures r.Some? ==> r.value == Hits(unpicked, frequent, rolls)[..Max(0, count)]
  {
    var result: seq<seq<Option<int>>> := [];
    var k := 0;
    while |result| < count
      invariant 0 <= k <= |rolls|
      invariant result == Hits(unpicked, frequent, rolls[..k])
      invariant count <= 0 ==> k == 0
      invariant count > 0 ==> |result| <= count
      decreases |rolls| - k
    {
      if k == |rolls| {
        assert rolls[..k] == rolls;
        return None;
      }
      var newNumber := NewNumber(unpicked, rolls[k]);
      HitsExtend(unpicked, frequent, rolls, k);
      if HitsFrequent(newNumber, frequent) {
        result := result + [newNumber];
      }
      k := k + 1;
    }
    HitsPrefix(unpicked, frequent, rolls, k);
    r := Some(result);
  }

  /** `getUnpickedNumbers`: the candidates kept from the rolls; and when every
      frequent number occurs in the entries, none is ever kept, so a
      positive count is never reached. */
  method GetUnpickedNumbers(data: seq<Entry>, frequent: seq<int>, count: int, rolls: seq<seq<real>>)
    returns (r: Option<seq<seq<Option<int>>>>)
    requires ValidRolls(rolls)
    ensures r.Some? <==> count <= |Hits(UnpickedOf(data), frequent, rolls)|
    ensures r.Some? ==> r.value == Hits(UnpickedOf(data), frequent, rolls)[..Max(0, count)]
    ensures (forall i :: 0 <= i < |frequent| ==> frequent[i] in NumbersOf(data)) && count > 0 ==> r.None?
  {
    var picked := PickedNumbers(data);
    assert forall x :: x in picked <==> x in Elements(NumbersOf(data));
    assert picked == Elements(NumbersOf(data));
    var unpickedNumbers := UnpickedUpTo(HighestNumber, picked);
    r := UnpickedSets(unpickedNumbers, frequent, count, rolls);
    if forall i :: 0 <= i < |frequent| ==> frequent[i] in NumbersOf(data) {
      NoHits(unpickedNumbers, frequent, rolls);
    }
  }

  /** `analyzeLottoData` up to `getUnpickedNumbers`: the five most frequent
      numbers of the window all occur in it, so the generator keeps nothing
      and the page never gets past it, whatever the random values. */
  method AnalyzeLottoData(data: seq<Entry>, now: Instant, rolls: seq<seq<real>>)
    returns (unpicked: Option<seq<seq<Option<int>>>>)
    requires ValidRolls(rolls)
    ensures unpicked == None
  {
    var lastYearData := LastYearData(data, now);
    var mostFrequentNumbers := MostFrequentNumbers(lastYearData, 5);
    unpicked := GetUnpickedNumbers(lastYearData, mostFrequentNumbers, 5, rolls);
  }

  // ---------------------------------------------------------------------
  // analyzePatterns

  /** The four counters of `analyzePatterns`; the two strings it returns
      are built from them. */
  datatype PatternCounts = PatternCounts(odd: nat, even: nat, high: nat, low: nat)

  /** The counters over a run of numbers: odd and even by `number % 2`,
      low when `number <= 22` and high otherwise. */
  function CountsOf(s: seq<int>): PatternCounts {
    PatternCounts(CountIn(s, Odd), CountIn(s, Even), CountIn(s, Large), CountIn(s, Small))
  }

  /** The inner `forEach` of `analyzePatterns`: both tests for each number. */
  method TallyEntry(p: PatternCounts, ghost seen: seq<int>, numbers: seq<int>) returns (q: PatternCounts)
    requires p == CountsOf(seen)
    ensures q == CountsOf(seen + numbers)
  {
    var oddCount, evenCount, highCount, lowCount := p.odd, p.even, p.high, p.low;
    assert seen + numbers[..0] == seen;
    for j := 0 to |numbers|
      invariant PatternCounts(oddCount, evenCount, highCount, lowCount) == CountsOf(seen + numbers[..j])
    {
      var number := numbers[j];
      var next := seen + numbers[..j + 1];
      assert next[..|next| - 1] == seen + numbers[..j];
      if number % 2 == 0 {
        evenCount := evenCount + 1;
      } else {
        oddCount := oddCount + 1;
      }
      if number <= SmallLimit {
        lowCount := lowCount + 1;
      } else {
        highCount := highCount + 1;
      }
    }
    assert numbers[..|numbers|] == numbers;
    q := PatternCounts(oddCount, evenCount, highCount, lowCount);
  }

  /** `analyzePatterns`: the four counters over every number of the
      entries. */
  method AnalyzePatterns(data: seq<Entry>) returns (p: PatternCounts)
    ensures p.odd == CountIn(NumbersOf(data), Odd) && p.even == CountIn(NumbersOf(data), Even)
    ensures p.high == CountIn(NumbersOf(data), Large) && p.low == CountIn(NumbersOf(data), Small)
  {
    p := PatternCounts(0, 0, 0, 0);
    for k := 0 to |data|
      invariant p == CountsOf(NumbersOf(data[..k]))
    {
      p := TallyEntry(p, NumbersOf(data[..k]), data[k].numbers);
      NumbersOfExtend(data, k);
    }
    assert data[..|data|] == data;
  }

  /** Odd plus even and high plus low are both the number of numbers, six
      per entry when every entry has six. */
  lemma PatternCountsSplit(data: seq<Entry>)
    ensures CountsOf(NumbersOf(data)).odd + CountsOf(NumbersOf(data)).even == |NumbersOf(data)|
    ensures CountsOf(NumbersOf(data)).high + CountsOf(NumbersOf(data)).low == |NumbersOf(data)|
    ensures (forall i :: 0 <= i < |data| ==> |data[i].numbers| == DrawSize) ==>
      |NumbersOf(data)| == DrawSize * |data|
  {
    CategoriesSplit(NumbersOf(data));
    if forall i :: 0 <= i < |data| ==> |data[i].numbers| == DrawSize {
      AllNumbersLength(EntryRows(data));
    }
  }

  // ---------------------------------------------------------------------
  // getConsecutivePatterns

  /** The inner `for` loop of `getConsecutivePatterns`: every neighbour pair
      of the sorted numbers that differs by one is counted under its
      "a-b" key (modelled as the pair itself). */
  method TallyAdjacent(table: seq<Freq<(int, int)>>, ghost seen: seq<(int, int)>, sortedNumbers: seq<int>)
    returns (t: seq<Freq<(int, int)>>)
    requires table == Tallies(seen)
    ensures t == Tallies(seen + AdjacentPairs(sortedNumbers))
  {
    t := table;
    var i := 0;
    assert seen + AdjacentPairs(sortedNumbers[..0]) == seen;
    while i < |sortedNumbers| - 1
      invariant 0 <= i && (i < |sortedNumbers| || i == 0)
      invariant t == Tallies(seen + AdjacentPairs(sortedNumbers[..if i + 1 < |sortedNumbers| then i + 1 else |sortedNumbers|]))
    {
      ghost var before := seen + AdjacentPairs(sortedNumbers[..i + 1]);
      AdjacentPairsExtend(sortedNumbers, i);
      if sortedNumbers[i] + 1 == sortedNumbers[i + 1] {
        var pattern := (sortedNumbers[i], sortedNumbers[i + 1]);
        assert seen + AdjacentPairs(sortedNumbers[..i + 2]) == before + [pattern];
        assert (before + [pattern])[..|before|] == before;
        t := Tally(t, pattern);
      } else {
        assert seen + AdjacentPairs(sortedNumbers[..i + 2]) == before;
      }
      i := i + 1;
    }
    assert sortedNumbers[..if i + 1 < |sortedNumbers| then i + 1 else |sortedNumbers|] == sortedNumbers;
  }

  /** The entries after `entry.번호.sort((a, b) => a - b)` has sorted each
      number array in place. */
  function SortEntries(data: seq<Entry>): (r: seq<Entry>)
    ensures |r| == |data|
    ensures forall i :: 0 <= i < |data| ==> r[i].date == data[i].date && r[i].numbers == Sort(data[i].numbers)
  {
    seq(|data|, i requires 0 <= i < |data| => data[i].(numbers := Sort(data[i].numbers)))
  }

  lemma SortedEntry(data: seq<Entry>, k: int)
    requires 0 <= k < |data|
    ensures SortEntries(data)[k] == data[k].(numbers := Sort(data[k].numbers))
  {
  }

  /** The `forEach` of `getConsecutivePatterns`: sort each entry's numbers
      in place and count its consecutive pairs, keys in first-seen order. */
  method TallyPatterns(data: array<Entry>) returns (patternFrequency: seq<Freq<(int, int)>>)
    modifies data
    ensures data[..] == SortEntries(old(data[..]))
    ensures patternFrequency == Tallies(ConsecutivePairs(EntryRows(old(data[..]))))
  {
    ghost var entries := data[..];
    ghost var rows, sorted := EntryRows(entries), SortEntries(entries);
    patternFrequency := [];
    for k := 0 to data.Length
      invariant forall j :: 0 <= j < k ==> data[j] == sorted[j]
      invariant forall j :: k <= j < data.Length ==> data[j] == entries[j]
      invariant patternFrequency == Tallies(ConsecutivePairs(rows[..k]))
    {
      SortedEntry(entries, k);
      var sortedNumbers := SortNumbersAt(data, k);
      RowsExtend(rows, k);
      patternFrequency := TallyAdjacent(patternFrequency, ConsecutivePairs(rows[..k]), sortedNumbers);
    }
    assert rows[..data.Length] == rows;
  }

  /** `entry.번호.sort((a, b) => a - b)` on the k-th entry. */
  method SortNumbersAt(data: array<Entry>, k: int) returns (sortedNumbers: seq<int>)
    requires 0 <= k < data.Length
    modifies data
    ensures sortedNumbers == Sort(old(data[k]).numbers)
    ensures data[k] == old(data[k]).(numbers := sortedNumbers)
    ensures forall j :: 0 <= j < data.Length && j != k ==> data[j] == old(data[j])
  {
    var entry := data[k];
    sortedNumbers := Sort(entry.numbers);
    data[k] := entry.(numbers := sortedNumbers);
  }

  /** `getConsecutivePatterns`: the pair counts ranked most frequent first,
      cut to the first `count` keys; the entries are left sorted. */
  method ConsecutivePatterns(data: array<Entry>, count: int) returns (top: seq<(int, int)>)
    modifies data
    ensures data[..] == SortEntries(old(data[..]))
    ensures count >= 0 ==> IsTopK(ConsecutivePairs(EntryRows(old(data[..]))), top, count)
    ensures count < 0 ==> IsTopK(ConsecutivePairs(EntryRows(old(data[..]))), top, |top|)
    ensures forall p :: p in top ==> SameRowSuccessors(EntryRows(old(data[..])), p)
  {
    ghost var rows := EntryRows(data[..]);
    var patternFrequency := TallyPatterns(data);
    var n := SliceEnd(|patternFrequency|, count);
    top := KeysOf(RankByCount(patternFrequency))[..n];
    TalliesTabulate(ConsecutivePairs(rows));
    SliceIsTopK(ConsecutivePairs(rows), patternFrequency, count);
    forall p | p in top
      ensures SameRowSuccessors(rows, p)
    {
      ConsecutivePairsIff(rows, p);
    }
  }

  /** Sorting the number arrays in place changes nothing a later analysis
      of the same entries computes: the pairs are found after sorting anyway,
      and every count depends only on which numbers occur how often. */
  lemma SortingInPlaceHarmless(data: seq<Entry>)
    ensures ConsecutivePairs(EntryRows(SortEntries(data))) == ConsecutivePairs(EntryRows(data))
    ensures multiset(NumbersOf(SortEntries(data))) == multiset(NumbersOf(data))
  {
    SortedRowsSamePairs(data);
    SortedRowsSameNumbers(data);
  }

  lemma {:induction false} SortedRowsSamePairs(data: seq<Entry>)
    ensures ConsecutivePairs(EntryRows(SortEntries(data))) == ConsecutivePairs(EntryRows(data))
  {
    if data != [] {
      var n := |data|;
      var init := data[..n - 1];
      SortedRowsSamePairs(init);
      assert EntryRows(data)[..n - 1] == EntryRows(init);
      assert EntryRows(SortEntries(data))[..n - 1] == EntryRows(SortEntries(init));
      SortIdempotent(data[n - 1].numbers);
    }
  }

  lemma {:induction false} SortedRowsSameNumbers(data: seq<Entry>)
    ensures multiset(NumbersOf(SortEntries(data))) == multiset(NumbersOf(data))
  {
    if data != [] {
      var n := |data|;
      var init := data[..n - 1];
      SortedRowsSameNumbers(init);
      assert EntryRows(data)[..n - 1] == EntryRows(init);
      assert EntryRows(SortEntries(data))[..n - 1] == EntryRows(SortEntries(init));
      assert NumbersOf(SortEntries(data)) == NumbersOf(SortEntries(init)) + Sort(data[n - 1].numbers);
      assert NumbersOf(data) == NumbersOf(init) + data[n - 1].numbers;
    }
  }

}
