# Lottery statistics, modelled in Dafny

The repository is a small toolkit for the Korean 6/45 lottery. A draw is six
main numbers out of 1..45, a bonus number and a date. The same family of
statistics appears, with small differences, in three Python scripts and one
browser script:

- `app.py` is a Flask application. It offers the frequency count and a pattern
  analysis: a counter per consecutive pair, plus even/odd and small/large
  percentages. It also ranks the five most frequent numbers of the last year,
  generates a batch of recommended combinations, and checks a typed-in
  combination against past draws.
- `lotto.py` is a command-line script. Its pattern analysis keeps raw counts
  and a single consecutive-pair counter, and its generator returns one
  combination.
- `index.py` is a batch script. Its ranking is guarded by a check for the
  date column. It has two generators, one seeded with the top numbers and one
  not. `main` asks for four seeded combinations only when the ranking is
  non-empty.
- `script.js` runs in the browser. It selects the last calendar year of
  entries, finds their most frequent numbers, runs an "unpicked numbers"
  generator, computes odd/even and high/low counts, and ranks the consecutive
  pairs.

The model is split into these modules:

| file | module | contents |
|---|---|---|
| `sorting.dfy` | `Sorting` | Ascending sort, as done by Python's `sorted` and a numeric JavaScript `sort`, and the shape of a combination. |
| `tables.dfy` | `Tables` | Frequency tables. Integer keys are kept in ascending order (a pandas `sort_index`, or a JavaScript object with integer keys). String keys are kept in first-seen order. Also ranking by count (a stable sort by count, most frequent first) and cutting the ranking to its first `n` keys. |
| `stats.dfy` | `Stats` | All numbers of a table, the even/odd and small/large categories (small means at most 22), and consecutive pairs. |
| `history.dfy` | `History` | What the Python scripts share: the draw table, the frequency count, the 365-day top five, the set of past combinations, and the rejection-sampling loop. |
| `app.dfy`, `lotto.dfy`, `index.dfy`, `script.dfy` | `App`, `Lotto`, `Index`, `Script` | One module per source file, each with its own variant of every operation. |

Where the source works step by step, the model does too. Loops become methods
with invariants, and each method is proved against a specification function.
`getConsecutivePatterns` sorts every entry's numbers in place, so it works on
an `array` of entries and states what the array holds afterwards.

The random generators take their randomness as a parameter:

- The Python generators consume a supplied sequence of `random.sample` results.
- The browser generator consumes a supplied sequence of `Math.random()` values.

The source keeps looping until it accepts. When the supplied values run out
before that, the model answers `None`. Each generator's result is stated
exactly: it is the first accepted candidates of the supplied samples.

Two consequences are proved:

- **The seeded generators cannot finish with an empty seed.** When the list of
  top numbers is empty, nothing is accepted (`History.EmptySeedNoCandidates`).
  `main` in `index.py` never reaches that case, because it calls the seeded
  generator only with a non-empty ranking (`Index.RunMain`).
- **The browser's "unpicked numbers" loop can never finish for a positive
  count.** It keeps a candidate only when the candidate contains one of the
  most frequent numbers. Those numbers all occur in the window. The candidates
  are drawn only from numbers that do not occur there. So with a count of
  five, `analyzeLottoData` never gets past `getUnpickedNumbers`, whatever the
  random values (`Script.AnalyzeLottoData`, `Script.GetUnpickedNumbers`).

The Python rankings fix no order among equally frequent numbers. A batch of
recommendations may repeat a combination. The generators loop until they
accept, with no bound on the number of attempts.

## Model

| member | source | states |
|---|---|---|
| History.NumberFrequencies | app.py:21-25 | The frequency count of `calculate_number_frequencies` lists exactly the numbers that occur, each once with its number of occurrences (so all counts are positive), in ascending order of number. lotto.py:19-23 is the same function. |
| History.FrequenciesCoverAllSlots | lotto.py:19-23 | With six numbers per draw, the counts add up to six times the number of draws. |
| Tables.FrequenciesSpec | app.py:24 | Counting with ascending keys gives an ascending table that tabulates the input: each key occurs once, its count is its multiplicity, and the counts sum to the length. |
| Tables.BumpSpec | script.js:30 | Adding one occurrence to an integer-keyed table keeps it ascending and positive, raises the total by one and raises exactly the count of that number. |
| Tables.TallySpec | script.js:103 | Adding one occurrence under a string key keeps the keys distinct and in first-seen order, appending a new key at the end. It raises exactly that key's count. |
| Tables.TalliesTabulate | script.js:96-106 | The first-seen-order table of a sequence tabulates it. |
| Tables.RankByCount | app.py:77 | Ranking by count rearranges the table's rows, most frequent first. |
| Tables.RankByCountKeys | app.py:77 | The ranking lists the same keys as the table, each as often. |
| Tables.RankTiesAscending | script.js:34-35 | The sort is stable, so a table with ascending keys is ranked with equally frequent keys in ascending order. |
| Tables.TopKeysAreTopK | app.py:77 | The first `n` keys of the ranking are at most `n` distinct elements of the input with non-increasing counts. When fewer than all elements are listed, exactly `n` are listed and no omitted element occurs more often than the last one listed. |
| History.WindowNumbersFrom | app.py:69-75 | A number is among the window's numbers iff some draw dated strictly after now minus 365 days holds it. |
| History.TopNumbersLastYear | app.py:68-78 | `get_top_numbers_last_year` returns at most five distinct numbers of the window with non-increasing counts. No omitted window number is more frequent than the last listed. Each listed number comes from a draw strictly inside the window. lotto.py:58-68 is the same function. |
| Stats.CategoriesSplit | app.py:46-57 | Even plus odd and small plus large each equal the number of numbers counted. |
| Stats.ConsecutivePairsIff | app.py:39-43 | A pair is counted iff its second number is its first plus one and both occur in the same draw. |
| Stats.ConsecutivePairsBound | app.py:40 | With six numbers per draw, at most five pairs are counted per draw. |
| Stats.CountAdjacentPairs | app.py:39-43 | The inner loop's counter holds exactly the neighbour pairs of the sorted row that differ by one. |
| Stats.TallyParity | app.py:46-50 | The loop counts exactly the even and the odd numbers of a draw. |
| Stats.TallySize | app.py:53-57 | The loop counts exactly the numbers of a draw that are at most 22 and those above. |
| App.CountPatterns | app.py:37-57 | The loop over draws yields the multiset of consecutive pairs of all draws, plus the even, odd, small and large counts of all numbers. |
| App.AnalyzePatterns | app.py:28-65 | An empty table raises ZeroDivisionError. Otherwise the result is the pair counter and the four counts as percentages of six per draw. |
| App.PercentagesSumToHundred | app.py:59-63 | With six numbers per draw (the total of line 30), the even and odd percentages sum to 100, and so do the small and large ones. |
| App.ConsecutiveCounter | app.py:39-43 | A pair is a key of the counter iff its numbers are successive and in one draw. With six numbers per draw, the counter's total is at most five per draw. |
| App.GenerateRecommendedLottoNumbers | app.py:81-88 | The batch is exactly the first `num_recommendations` candidates: sorted samples that hold a top number and are not a past sorted draw. A non-positive count gives an empty batch. Too few candidates among the samples gives None, where the source would still be looping. |
| App.RecommendationsValid | app.py:85-86 | Every recommendation is six distinct ascending numbers of 1..45, holds a top number and is not a past draw. |
| App.DuplicateRecommendationsAllowed | app.py:87 | The same combination can be recommended twice in one batch. |
| History.EmptySeedNoCandidates | app.py:86 | With no top numbers, no sample is ever accepted. |
| App.SplitOnComma | app.py:113 | `split(',')` gives at least one piece, none containing a comma, and joining the pieces with commas gives back the input. |
| App.SplitJoin | app.py:113 | Splitting a comma-joined list of comma-free pieces gives back the pieces. |
| App.ParseShowInt | app.py:113 | `int()` reads back the decimal text of any integer, also after a leading space. |
| App.ParseAll | app.py:113 | `map(int, ...)` succeeds iff every token parses, and then yields one number per token. |
| App.ParseShowList | app.py:113 | Parsing the tokens of a list written as "a, b, c" gives back the list. |
| App.WinIffPermutation | app.py:112-114 | The sorted input is among the sorted past draws iff some past draw has exactly these numbers, in any order. |
| App.CheckLottoNumber | app.py:108-116 | A missing field or a non-integer token gives the failure answer. Otherwise the answer is Won iff some past draw has exactly these numbers, in any order. |
| App.CheckTypedNumbers | app.py:111-121 | Typing a list of numbers separated by ", " is answered Won iff a past draw has those numbers, and NotWon otherwise. |
| App.WrongLengthNeverWins | app.py:112-114 | With no length check, a list of other than six numbers is answered "not won". |
| Lotto.CountAdjacent | lotto.py:36-39 | The single counter counts exactly the neighbour pairs of the sorted draw that differ by one. |
| Lotto.AnalyzePatterns | lotto.py:26-55 | The five counts are the consecutive-pair count and the even, odd, small and large counts over all draws. An empty table gives five zeros, with no division. |
| Lotto.CountsCoverAllSlots | lotto.py:42-53 | With six numbers per draw, even plus odd and small plus large are both six per draw, and at most five pairs are counted per draw. |
| Lotto.AgreesWithApp | lotto.py:36-39 | The single counter is the total of the web application's per-pair counter, and the raw counts are the numerators of its percentages. |
| Lotto.GenerateRecommendedLottoNumbers | lotto.py:71-76 | The result is the first sorted sample that holds a top number and is not a past draw: six distinct ascending numbers of 1..45. |
| History.GenerateFirst | lotto.py:72-76 | The shared `while True` loop returns the first accepted sorted sample, and the samples up to it yield exactly that one candidate. |
| History.CandidatesValid | lotto.py:74-75 | Every accepted sorted sample is a combination that passes the acceptance test. |
| History.CandidatesAppend | lotto.py:73-76 | The candidates of consecutive runs of samples are the concatenation of each run's candidates. |
| Index.GetTopNumbersLastYear | index.py:91-105 | No date column gives the empty ranking. Otherwise the result is the top five of the window, taken from draws strictly inside it. |
| Index.GenerateNewLottoNumbers | index.py:108-113 | The result is the first sorted sample holding a top number that is not a past draw. It is a combination, it is the last sample consumed, and the consumed samples yield exactly it. |
| Index.GenerateRecommendedLottoNumbers | index.py:116-121 | The result is the first sorted sample that is not a past draw, a combination. |
| History.SeededWithinUnseeded | index.py:112 | Whatever the seeded test accepts, the unseeded test (index.py:120) accepts too. |
| History.PastDrawRejected | index.py:109 | Any rearrangement of a past draw's numbers is rejected. |
| History.ExclusionIgnoresBonus | index.py:117 | The exclusion set depends on the main numbers only, not on the bonus, the date or the draw number. |
| Index.GenerateNewSets | index.py:137-140 | The four seeded searches, each resuming right after the sample the last one accepted, yield the first four candidates of the samples; these are exactly the candidates of the samples consumed, and the fourth is the last sample consumed. When fewer exist, the run is marked stuck, where the source would still be looping. |
| Index.SeededRun | index.py:136-147 | With a non-empty ranking: the four sets are the first seeded candidates of the samples, and exactly the candidates of the samples consumed, the fourth coming from the last sample consumed. The recommended combination is the first unseeded candidate of the samples after those, and it is a combination that was never drawn. Fewer than four sets give no recommendation, where the source would still be looping. |
| Index.RunMain | index.py:124-147 | The ranking is as above. Seeded combinations are made only for a non-empty ranking (lines 136-142); the four sets are the seeded candidates of the samples the searches consumed, the last of them coming from the last sample consumed. The recommended combination is the first unseeded candidate of the samples right after that one (of all samples when the ranking is empty), and it is never a past draw. When a seeded search finds nothing, the run stops with no recommendation, where the source would still be looping. |
| Script.OneYearBefore | script.js:19-20 | `setFullYear(year - 1)` keeps month, day and time of day. Only 29 February runs over, to 1 March of the earlier year. |
| Script.RecentIff | script.js:22 | An entry is kept iff its date is after the cut-off day, or on it when now is exactly midnight: the bound is inclusive. |
| Script.LastYearData | script.js:18-23 | `getLastYearData` keeps exactly the entries that are recent. |
| Script.LastYearDataCounts | script.js:22 | The filter keeps every recent entry as often as it occurs, and no other entry. |
| Script.LastYearDataAppend | script.js:22 | The filter keeps the order of the entries: the kept entries of a concatenation are those of its first part followed by those of its second. |
| Script.LastYearDataSingle | script.js:22 | A single entry is kept exactly when it is recent. |
| Script.CountNumbers | script.js:29-31 | The inner loop adds each number of an entry to the integer-keyed count. |
| Script.RankingOrder | script.js:34-37 | The ranking lists more frequent numbers first and equally frequent ones in ascending order. |
| Script.RankingCut | script.js:34-36 | Cutting the ranking after its first `n` keys leaves out only numbers that are less frequent than every listed one, or as frequent and larger. |
| Script.SliceIsTopK | script.js:36 | `slice(0, count)` of the ranking is a top-`count` list for a non-negative count. A negative count drops that many keys from the end. |
| Script.MostFrequentNumbers | script.js:25-38 | `getMostFrequentNumbers` returns at most `count` distinct numbers of the entries, with non-increasing counts and ties in ascending order. Every omitted number of the entries is less frequent than each listed one, or as frequent and larger, so of the numbers tied at the cut the smallest are kept. |
| Script.PickedNumbers | script.js:42-48 | The picked set holds exactly the numbers of the entries. |
| Script.UnpickedOf | script.js:41-50 | The unpicked numbers are 1..45 minus every number of the entries, ascending. |
| Script.RandomElement | script.js:63-65 | `arr[Math.floor(Math.random() * arr.length)]` picks an element of a non-empty array, and `undefined` from an empty one. |
| Script.NewNumber | script.js:54 | A candidate is six picks, with replacement, from the unpicked numbers. |
| Script.NoHits | script.js:55 | When no frequent number is unpicked, no candidate is ever kept. |
| Script.UnpickedSets | script.js:53-58 | The loop answers the first `count` kept candidates, or None when the supplied random values run out first. |
| Script.GetUnpickedNumbers | script.js:40-61 | As above over the entries' unpicked numbers. When every frequent number occurs in the entries and the count is positive, it never finishes. |
| Script.AnalyzeLottoData | script.js:8-11 | The page never gets past `getUnpickedNumbers`, whatever the random values. |
| Script.TallyEntry | script.js:74-85 | The inner loop adds each number to the odd or even counter and to the low (at most 22) or high counter. |
| Script.AnalyzePatterns | script.js:67-93 | The four counters are the odd, even, high and low counts of all numbers of the entries. |
| Script.PatternCountsSplit | script.js:73-86 | Odd plus even and high plus low are both the number of numbers, six per entry when every entry has six. |
| Script.TallyAdjacent | script.js:100-105 | The inner loop counts each neighbour pair of the sorted numbers that differs by one, under its key in first-seen order. |
| Script.SortNumbersAt | script.js:99 | Sorting one entry's numbers in place changes that entry's numbers to their ascending order and no other entry. |
| Script.TallyPatterns | script.js:98-106 | The array is left with every entry sorted, and the table counts all consecutive pairs of the original entries, keys in first-seen order. |
| Script.ConsecutivePatterns | script.js:95-112 | `getConsecutivePatterns` returns at most `count` distinct pairs with non-increasing counts, each a successive pair found in one entry. It leaves every entry sorted. |
| Script.SortingInPlaceHarmless | script.js:99 | Sorting the entries in place changes neither their consecutive pairs nor the multiset of their numbers. So the analyses run after it on the same entries are unaffected. |
| Sorting.SortEqualIffPermutation | app.py:112-113 | Two lists sort to the same tuple iff they hold the same numbers with the same multiplicities. |
| Sorting.SortedSampleIsCombination | app.py:85 | Sorting six distinct numbers of 1..45 gives six strictly ascending numbers of 1..45. |
| Sorting.SortIdempotent | script.js:99 | Sorting a sorted list changes nothing. |

## Left out

- Fetching draws over HTTP is not part of this model: `get_latest_draw_no` and `get_lotto_numbers` (index.py:8-48), and fetch_lotto_numbers.py entirely. The browser's `fetch` of the JSON file is left out too. All of these are network I/O.
- Loading and saving the CSV file is not part of this model (`load_lotto_data`, `save_lotto_data`). This is file-system I/O. The model starts from the parsed table.
- The Flask routes, `render_template`, `jsonify`, the module-level driver of lotto.py with its plots and prints, and `displayResults` in script.js are left out. They are presentation only. The `/` route (app.py:90-100) only composes the modelled operations.
- `eval` of the stored number strings is left out. Each row is an already-parsed list of integers.
- Floating-point percentages are modelled as exact reals, so rounding is not modelled.
- The Python dates are day numbers, and pandas `to_datetime` is left out. This includes the in-place rewrite of the date column at index.py:95. The missing date column is a boolean parameter.
- The current time (`datetime.now()`, `new Date()`) is a parameter. The browser model takes local time and the JSON date as the same calendar. Time zones and UTC parsing of date-only strings are not modelled.
- The distribution of `random.sample` and `Math.random()` is not modelled. The generators consume supplied samples and values, and None stands for the source still looping when these run out.
- History.TopNumbersLastYear: the order among equally frequent numbers is not fixed. pandas promises none, so the contract states counts only.
- App.ParseAll: Python `int()` also accepts underscores between digits, and non-ASCII digits and whitespace. The model accepts surrounding ASCII whitespace, an optional sign and ASCII digits only.
- The `"a-b"` string keys of `getConsecutivePatterns` are modelled as pairs `(a, b)`. Distinct pairs give distinct strings, so the counts are the same.
- Script.MostFrequentNumbers: JavaScript objects list only non-negative integer keys in ascending order. The ascending-key model assumes the entries hold such numbers.
- Aliasing between `data` and `lastYearData` is left out. The in-place sort is modelled on the array given to `getConsecutivePatterns` only, and the entries filtered into `lastYearData` are the caller's own objects.
- The text that `analyzePatterns` in script.js builds from its four counters is not modelled. The counters are.
