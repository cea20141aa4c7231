# rua-winner: a verified model of the EuroJackpot analysis core

rua-winner is a web app for EuroJackpot results. It imports a history of draws
from a spreadsheet. Each draw has a date, five main numbers (1..50), two euro
numbers (1..12) and the payout of each of the twelve prize classes. The app
checks a user's pick against every draw and draws charts of frequencies, gaps,
pairs, streaks and other statistics. It also proposes "smart picks" and ships
a script that copies the package version into Cargo.toml.

This project models that core in Dafny and proves what each part computes:

- `Core` (core.dfy): the prize table `mapMatchToClass`, and `evaluateNumbers`,
  the fold over the draws that tallies hits, totals, the best class and the
  list of wins.
- `Analytics` (analytics.dfy): the chart series of the core package. These are
  the main and euro frequencies, the jackpot series sorted by date, and the
  per-class payout statistics.
- `Tally` (tally.dfy): the bounded counting loop that four source functions
  share.
- `AdvancedTallies`, `AdvancedPairs`, `AdvancedRecency` (advanced_*.dfy): the
  metric functions of the advanced analytics view:
  - remainder buckets, the per-draw features, the rolling mean and the
    position bias;
  - the pair matrix, the network edge filter, triplets and consecutive pairs;
  - last seen, inter-arrival gaps, and hot/cold streaks.
- `SmartPicks` (smart_picks.dfy): the exact-arithmetic parts of the smart-pick
  generator:
  - co-occurrence counts;
  - top-k selection by key;
  - the shape bonuses, penalties and badges, and the capped pair bonus;
  - the greedy diversifier and the historical sum band;
  - the seeded LCG and the empty-history guard.
- `DataImporter` (data_importer.dfy): `parseRows` and `toISODate`. This covers
  column resolution, the all-or-nothing row validation, the `gkl` payout
  record, `DD.MM.YYYY` reformatting and the sort by date.
- `SyncVersion` (sync_version.dfy): `updateTomlVersion`, which is the
  line-splitting `inPackage` state machine that rewrites one `version` line.
- `NumberEvaluator` (number_evaluator.dfy): the input fields of the evaluator.
  This covers `parseInt`, `clampArray` and the de-duplication of the picks
  before `evaluateNumbers`.
- `Seqs`, `JsText` (seqs.dfy, jstext.dfy): the JavaScript idioms the modules
  rely on, each stated once:
  - `Array.from(new Set(xs))`, stable `sort`, the truncating `%` and `reduce`
    sums;
  - the `\s`/`trim` whitespace class, ASCII `toLowerCase`, and the code-unit
    order behind `localeCompare` on ISO dates.

Code that updates state step by step is written as methods with loops. This
covers the counting arrays, the pair matrix, the triplet map, the streak scan,
the rolling accumulator, the TOML scan and the LCG state. Each such method is
proved against a specification function on values. Pure code is written as
functions with lemmas. Payout amounts are exact `real`s. Dates are strings
compared code unit by code unit.

## Model

| member | source | states |
|---|---|---|
| Core.MapMatchToClass | packages/core/src/index.ts:19-33 | a class is returned exactly for the twelve (main, euro) match pairs of the EuroJackpot prize table, and that class's table entry is the pair given |
| Core.MapMatchToClassOnto | packages/core/src/index.ts:19-33 | every class 1..12 is returned for its own table entry |
| Core.MapMatchToClassInjective | packages/core/src/index.ts:19-33 | two match pairs mapped to the same class are equal |
| Core.UnlistedCombinationsLose | packages/core/src/index.ts:19-33 | out-of-range counts and 0+0, 0+1, 0+2, 1+0, 1+1, 2+0 map to no class |
| Core.MatchCount | packages/core/src/index.ts:51-54 | the number of a draw's entries found in the pick is at most the number of entries |
| Core.CountMatches | packages/core/src/index.ts:51-54 | the match-counting loop computes the number of entries in the pick set |
| Core.BestClass | packages/core/src/index.ts:48-63 | none exactly when there are no wins, otherwise the smallest class among the wins, which occurs among them |
| Core.RecordsStep | packages/core/src/index.ts:57-62 | the `classHits`/`classTotals` updates for one more win keep both maps equal to the per-class hit count and payout sum of the wins, with keys exactly the classes hit |
| Core.NoHitsNoTotal | packages/core/src/index.ts:59-60 | a class without hits has payout total 0 |
| Core.TallyDraw | packages/core/src/index.ts:50-64 | one loop iteration appends the draw's win, if any, and keeps hits, totals, grand total and best class in agreement with the wins |
| Core.EvaluateNumbers | packages/core/src/index.ts:35-68 | wins are the winning draws in draw order; the hit and total maps have keys exactly the classes won and hold their counts and sums; grand total is the sum of the amounts; best class is the minimum class; empty history gives the empty result |
| Core.WinStep | packages/core/src/index.ts:59-63 | one more win adds one hit and its amount to its class only, adds its amount to the grand total and lowers the best class to it when smaller |
| Core.WinsOfSnoc | packages/core/src/index.ts:50-64 | scanning one more draw appends that draw's win |
| Core.WinsOfAppend | packages/core/src/index.ts:50-64 | the wins of a concatenated history are the wins of the parts, in order |
| Core.WinsOfOne | packages/core/src/index.ts:51-62 | a draw wins at most once, exactly when its match counts are in the table; the win carries the draw's date, the class for its counts and the recorded payout or 0 |
| Core.WinsOfLength | packages/core/src/index.ts:50-64 | there are at most as many wins as draws |
| Core.ClassRecordsPartitionWins | packages/core/src/index.ts:59-62 | the hits over the twelve classes add up to the number of wins, and the totals add up to the grand total |
| Core.IdenticalPickWinsJackpot | packages/core/src/index.ts:50-64 | the draw 1,2,3,4,5 / 1,2 played with the same numbers gives one class-1 win worth the class-1 payout |
| Analytics.ComputeMainFrequencies | packages/core/src/analytics.ts:7-17 | 50 points numbered 1..50, point n counts main n over all draws, the points add up to the in-range mains, and to 5 per draw for well-formed draws |
| Analytics.ComputeEuroFrequencies | packages/core/src/analytics.ts:19-29 | 12 points numbered 1..12 counting the euros, adding up to the in-range euros, and to 2 per draw for well-formed draws |
| Analytics.ComputeJackpotSeries | packages/core/src/analytics.ts:31-36 | one point per draw carrying its date and class-1 payout or 0, sorted by date, a permutation of the draws' points, and the stable sort of them |
| Analytics.FoldDraw | packages/core/src/analytics.ts:43-49 | the per-class loop over one draw adds one count and the payout to every class with a recorded payout |
| Analytics.FoldDraws | packages/core/src/analytics.ts:42-50 | after the draw loop, counter k holds the number of draws with a class-k payout and total k their sum |
| Analytics.Average | packages/core/src/analytics.ts:55 | with a non-zero count the average times the count is the total; with count 0 it is 0 |
| Analytics.BuildStats | packages/core/src/analytics.ts:51-57 | one entry per class 1..12 in order, with its count, total and average |
| Analytics.ComputePrizeStats | packages/core/src/analytics.ts:38-58 | 12 entries `cls = 1..12` with the class's record count and payout sum, count at most the number of draws, average times count equal to the total, and average 0 when count is 0 |
| Analytics.ClassBounds | packages/core/src/analytics.ts:42-50 | every class count is at most the number of draws, and a class with no record has total 0 |
| Analytics.ClassCountBound | packages/core/src/analytics.ts:45-48 | a class is recorded at most once per draw |
| Analytics.NoRecordNoTotal | packages/core/src/analytics.ts:45-48 | a class never recorded has total 0 |
| Analytics.TotalBetween | packages/core/src/analytics.ts:42-50 | payouts in [lo, hi] give a total between lo and hi times the count |
| Analytics.AverageBetween | packages/core/src/analytics.ts:53-56 | when every recorded payout of a class lies in [lo, hi], so does its average |
| Tally.CountFreq | apps/web/components/SmartPicks.tsx:56-60 | `domainMax + 1` counters, counter 0 is 0, counter n counts the occurrences of n; values outside 1..domainMax are not counted |
| Tally.CountGroup | apps/web/components/SmartPicks.tsx:58 | the inner loop over one draw adds that draw's occurrences of each n to counter n |
| Tally.FreqPoints | packages/core/src/analytics.ts:14-15 | `domainMax` points numbered 1..domainMax carrying counters 1..domainMax |
| Tally.FreqTotal | apps/web/components/AdvancedAnalytics.tsx:85-91 | bars that count 1..k add up to the number of values in 1..k |
| Tally.FreqTotalInRange | packages/core/src/analytics.ts:7-17 | when every draw holds `len` values in range, the bars add up to `len` per draw |
| AdvancedTallies.ComputeFrequencies | apps/web/components/AdvancedAnalytics.tsx:85-91 | `domainMax` bars, bar n counts main n, the bars add up to the in-range mains |
| AdvancedTallies.NonNegRemCount | apps/web/components/AdvancedAnalytics.tsx:214-224 | at most the number of mains, and all of them when no main is negative |
| AdvancedTallies.BucketsCover | apps/web/components/AdvancedAnalytics.tsx:220-224 | the m remainder buckets together hold every value whose remainder is not negative |
| AdvancedTallies.CountRems | apps/web/components/AdvancedAnalytics.tsx:222 | the inner loop adds one draw's mains to their remainder buckets |
| AdvancedTallies.ComputeModulo | apps/web/components/AdvancedAnalytics.tsx:220-224 | `modBase` buckets, bucket r counts the mains with JavaScript remainder r, and the buckets add up to the mains whose remainder is not negative |
| AdvancedTallies.ComputeLastDigit | apps/web/components/AdvancedAnalytics.tsx:214-218 | ten buckets of `n % 10`, adding up to the mains with a non-negative remainder |
| AdvancedTallies.CountAtMost | apps/web/components/AdvancedAnalytics.tsx:199 | the low count is at most the number of mains |
| AdvancedTallies.AtMostAbovePartition | apps/web/components/AdvancedAnalytics.tsx:199-200 | low and high add up to the number of mains |
| AdvancedTallies.OddCount | apps/web/components/AdvancedAnalytics.tsx:208 | the odd count is at most the number of mains |
| AdvancedTallies.OddEvenPartition | apps/web/components/AdvancedAnalytics.tsx:208-209 | for non-negative mains, odd and even add up to the number of mains |
| AdvancedTallies.ComputeLowHigh | apps/web/components/AdvancedAnalytics.tsx:196-203 | one row per draw with its date, low = mains at most 25, high = mains above 25, low + high = number of mains |
| AdvancedTallies.ComputeOddEven | apps/web/components/AdvancedAnalytics.tsx:205-212 | one row per draw with its date, odd = mains with remainder 1, odd + even = number of mains, and even = even mains when none is negative |
| AdvancedTallies.ComputeSums | apps/web/components/AdvancedAnalytics.tsx:226-228 | one row per draw with its date and the sum of its mains |
| AdvancedTallies.SumSeries | apps/web/components/AdvancedAnalytics.tsx:354 | the sum series has one value per row, the row's sum |
| AdvancedTallies.SumsAddUp | apps/web/components/AdvancedAnalytics.tsx:226-228 | the per-draw sums add up to the sum of all mains |
| AdvancedTallies.SumBounds | apps/web/components/AdvancedAnalytics.tsx:226-228 | values in [lo, hi] sum to between lo and hi times their number |
| AdvancedTallies.RangeOf | apps/web/components/AdvancedAnalytics.tsx:232-233 | the range is not negative, is 0 with no mains, bounds every difference of two mains and is reached by one |
| AdvancedTallies.ComputeRanges | apps/web/components/AdvancedAnalytics.tsx:230-235 | one row per draw with its date and the max - min of its mains |
| AdvancedTallies.RollingMean | apps/web/components/AdvancedAnalytics.tsx:237-246 | one entry per value; entries before the first full window are null, entry i is the mean of the w values ending at i |
| AdvancedTallies.RollStep | apps/web/components/AdvancedAnalytics.tsx:240-244 | one iteration keeps the accumulator equal to the current window's sum and the output filled up to i |
| AdvancedTallies.WindowStep | apps/web/components/AdvancedAnalytics.tsx:241-242 | adding `arr[i]` and dropping `arr[i - w]` moves the window sum one step |
| AdvancedTallies.PosCountSnoc | apps/web/components/AdvancedAnalytics.tsx:286-291 | one more draw adds 1 to cell (i, n) exactly when its i-th smallest distinct main is n and in range |
| AdvancedTallies.AddPositions | apps/web/components/AdvancedAnalytics.tsx:287-291 | the inner loop adds one draw to the position counters |
| AdvancedTallies.PositionCounts | apps/web/components/AdvancedAnalytics.tsx:284-292 | `positions` rows of `domainMax + 1` counters; cell (i, n) counts the draws whose i-th smallest distinct in-range main is n |
| AdvancedTallies.RowMax | apps/web/components/AdvancedAnalytics.tsx:294 | at least 1, at least every entry, and equal to 1 or to some entry |
| AdvancedTallies.Normalize | apps/web/components/AdvancedAnalytics.tsx:293-296 | every entry divided by the row maximum, hence in [0, 1] |
| AdvancedTallies.NormalizeReachesOne | apps/web/components/AdvancedAnalytics.tsx:293-296 | a row with a non-zero count has a 1 at its largest count |
| AdvancedTallies.ComputePositionBias | apps/web/components/AdvancedAnalytics.tsx:284-298 | `positions` rows, each the normalised row of position counts, every entry in [0, 1] |
| AdvancedPairs.PairSeq | apps/web/components/AdvancedAnalytics.tsx:126-132 | on sorted distinct mains, every enumerated pair (a, b) has a < b, both drawn |
| AdvancedPairs.PairSeqCount | apps/web/components/AdvancedAnalytics.tsx:127-132 | the nested loops enumerate each pair a < b of the draw's distinct mains exactly once and no other pair |
| AdvancedPairs.PairSeqLength | apps/web/components/AdvancedAnalytics.tsx:127-132 | a draw with k distinct mains gives k(k-1)/2 pairs |
| AdvancedPairs.PairCountSymmetric | apps/web/components/AdvancedAnalytics.tsx:130 | the pair count is symmetric and 0 on the diagonal |
| AdvancedPairs.DrawContribution | apps/web/components/AdvancedAnalytics.tsx:127-131 | one draw increments cell (a, b) once when it holds both a != b, else not at all |
| AdvancedPairs.AddPairs | apps/web/components/AdvancedAnalytics.tsx:127-132 | `mat[a][b]++; mat[b][a]++` over a list of pairs adds each cell's number of occurrences in either order |
| AdvancedPairs.AddDrawPairs | apps/web/components/AdvancedAnalytics.tsx:125-133 | one pass of the outer loop adds one draw to the pair counters |
| AdvancedPairs.PairCountSnoc | apps/web/components/AdvancedAnalytics.tsx:125-133 | one more draw adds 1 to the cells of the pairs it contains |
| AdvancedPairs.PairMatrixCounts | apps/web/components/AdvancedAnalytics.tsx:121-133 | the matrix is square of size `domainMax + 1`, cell (a, b) is the number of draws containing both, symmetric with a zero diagonal |
| AdvancedPairs.RowEdges | apps/web/components/AdvancedAnalytics.tsx:136 | the inner loop keeps exactly the cells of row a from column `from` on that pass the threshold, in column order |
| AdvancedPairs.UpperEdges | apps/web/components/AdvancedAnalytics.tsx:177-180 | the nested loops keep exactly the upper-triangle cells a < b that pass the threshold, in row-then-column order |
| AdvancedPairs.AscendingDistinct | apps/web/components/AdvancedAnalytics.tsx:134-137 | cells listed in row-then-column order are listed once |
| AdvancedPairs.ComputePairs | apps/web/components/AdvancedAnalytics.tsx:121-139 | the pair matrix, and `top` holding exactly the pairs a < b with a positive count, each once, ordered by count descending |
| AdvancedPairs.NetworkEdges | apps/web/components/AdvancedAnalytics.tsx:174-182 | `min(topEdges, qualifying)` distinct qualifying edges, ordered by weight descending, and no qualifying edge left out outweighs one kept |
| AdvancedPairs.PrefixDominates | apps/web/components/AdvancedAnalytics.tsx:181-182 | a prefix of a list sorted by count descending is ordered, and nothing after it has a larger count |
| AdvancedPairs.TripleSeqCount | apps/web/components/AdvancedAnalytics.tsx:144-148 | the three nested loops enumerate each triple a < b < c of the draw's distinct mains exactly once |
| AdvancedPairs.BumpStep | apps/web/components/AdvancedAnalytics.tsx:147 | `map.set(key, (map.get(key) ?? 0) + 1)` adds one to that key only and keeps the insertion order of the keys |
| AdvancedPairs.TriplesStep | apps/web/components/AdvancedAnalytics.tsx:145-147 | one iteration keeps the map equal to the initial map plus the triples seen so far |
| AdvancedPairs.AddTriples | apps/web/components/AdvancedAnalytics.tsx:145-148 | one draw's loops add the number of occurrences of each triple to its entry |
| AdvancedPairs.TripleCountIncreasing | apps/web/components/AdvancedAnalytics.tsx:144-146 | only increasing triples are ever counted |
| AdvancedPairs.TripleEntriesMembers | apps/web/components/AdvancedAnalytics.tsx:150 | the entries of the map are exactly the triples drawn at least once, with their counts |
| AdvancedPairs.EntriesDistinct | apps/web/components/AdvancedAnalytics.tsx:150 | the entries of the map do not repeat a key |
| AdvancedPairs.TripleEntriesDistinct | apps/web/components/AdvancedAnalytics.tsx:150 | sorting the entries keeps their keys distinct |
| AdvancedPairs.RankedTriples | apps/web/components/AdvancedAnalytics.tsx:150 | a prefix of the sorted entries holds correct counts of increasing triples, in descending count order, without repeats, and no triple left out has a larger count |
| AdvancedPairs.ComputeTriplets | apps/web/components/AdvancedAnalytics.tsx:141-151 | at most `topN` entries with keys a < b < c, each with the number of draws containing it, by count descending, distinct keys, every drawn triple when fewer than `topN`, and no omitted triple outranks a kept one |
| AdvancedPairs.SuccAdjacent | apps/web/components/AdvancedAnalytics.tsx:160-161 | in sorted distinct mains, `s[i + 1] === s[i] + 1` exactly when `s[i] + 1` was drawn |
| AdvancedPairs.ConsecStep | apps/web/components/AdvancedAnalytics.tsx:161-165 | one position of the loop bumps counter `s[i]` exactly when its successor was drawn |
| AdvancedPairs.ConsecLoopStep | apps/web/components/AdvancedAnalytics.tsx:160-166 | one iteration of the loop keeps total and counters equal to the consecutive pairs seen so far |
| AdvancedPairs.ConsecLoopEnd | apps/web/components/AdvancedAnalytics.tsx:160-166 | at the end of the loop the total grew by the draw's consecutive pairs and counter a by 1 when a and a + 1 were drawn |
| AdvancedPairs.AddConsecutive | apps/web/components/AdvancedAnalytics.tsx:159-166 | one draw adds its number of consecutive pairs to the total and 1 to the counter of each a with a + 1 drawn too |
| AdvancedPairs.ComputeConsecutive | apps/web/components/AdvancedAnalytics.tsx:155-169 | `totalPairs` is the number of consecutive pairs over all draws; `counts` has a key exactly for each a such that some draw holds a and a + 1, with the number of such draws |
| AdvancedRecency.LastIndex | apps/web/components/AdvancedAnalytics.tsx:97-100 | the index of a draw containing n with no later draw containing it, or none when no draw contains n |
| AdvancedRecency.DrawsSince | apps/web/components/AdvancedAnalytics.tsx:101-104 | within [0, total]; total exactly when n was never drawn; 0 when n is in the latest draw |
| AdvancedRecency.OverdueList | apps/web/components/AdvancedAnalytics.tsx:101-104 | one entry per number 1..domainMax with its draws-since value |
| AdvancedRecency.Gap | apps/web/components/AdvancedAnalytics.tsx:97-103 | the slot left by the backward scan gives, with the `?? total` default, exactly the draws since n was last drawn |
| AdvancedRecency.ScanDraw | apps/web/components/AdvancedAnalytics.tsx:98-99 | the mains of draw i set the slots still empty, moving the scan one draw back |
| AdvancedRecency.LastSeenTable | apps/web/components/AdvancedAnalytics.tsx:95-100 | after the backward scan every slot holds the gap of its number |
| AdvancedRecency.ComputeLastSeen | apps/web/components/AdvancedAnalytics.tsx:93-106 | `domainMax` entries, a permutation of the numbers 1..domainMax with their draws-since values, sorted non-increasing by draws since, ties in increasing number order |
| AdvancedRecency.OccurrencesSorted | apps/web/components/AdvancedAnalytics.tsx:113 | a number's recorded indices are valid draw indices in non-decreasing order |
| AdvancedRecency.OccurrencesMembers | apps/web/components/AdvancedAnalytics.tsx:113 | draw i is among n's indices exactly when it contains n |
| AdvancedRecency.OccurrencesLast | apps/web/components/AdvancedAnalytics.tsx:113 | scanning draw i appends i once per occurrence of the number in it |
| AdvancedRecency.PushIndices | apps/web/components/AdvancedAnalytics.tsx:113 | the mains of draw i push i onto their lists |
| AdvancedRecency.OccurrenceTable | apps/web/components/AdvancedAnalytics.tsx:109-113 | one list per number 1..domainMax holding the indices of the draws containing it |
| AdvancedRecency.Gaps | apps/web/components/AdvancedAnalytics.tsx:116 | `max(0, |idx| - 1)` gaps, each the difference of neighbouring indices, adding up to last - first |
| AdvancedRecency.OccurrenceGaps | apps/web/components/AdvancedAnalytics.tsx:114-117 | the gaps of a number's indices are non-negative differences of neighbours summing to last - first |
| AdvancedRecency.ComputeInterArrival | apps/web/components/AdvancedAnalytics.tsx:108-119 | one gap list per number 1..domainMax, the non-negative differences of its neighbouring draw indices, `max(0, occ - 1)` of them, summing to last - first |
| AdvancedRecency.Runs | apps/web/components/AdvancedAnalytics.tsx:259-277 | no runs exactly for no draws, and the last run has the kind of the last draw |
| AdvancedRecency.RunsExpand | apps/web/components/AdvancedAnalytics.tsx:259-277 | writing the runs out again gives back the presence column |
| AdvancedRecency.RunsPositive | apps/web/components/AdvancedAnalytics.tsx:265-272 | every run is at least one draw long |
| AdvancedRecency.RunsAlternate | apps/web/components/AdvancedAnalytics.tsx:266-272 | neighbouring runs differ in kind |
| AdvancedRecency.RunsCover | apps/web/components/AdvancedAnalytics.tsx:259-277 | the run lengths of a number add up to the number of draws |
| AdvancedRecency.LensSplit | apps/web/components/AdvancedAnalytics.tsx:269-276 | the hot and cold run lengths together add up to the total length |
| AdvancedRecency.AlwaysDrawnOneRun | apps/web/components/AdvancedAnalytics.tsx:259-277 | a number drawn every time has a single hot run as long as the history |
| AdvancedRecency.Column | apps/web/components/AdvancedAnalytics.tsx:252-257 | one presence flag per draw, true exactly when the draw contains n |
| AdvancedRecency.ScanStep | apps/web/components/AdvancedAnalytics.tsx:261-274 | one step of the `cur`/`mode` loop opens, lengthens or closes and pushes a run as the run-length encoding requires |
| AdvancedRecency.ScanEnd | apps/web/components/AdvancedAnalytics.tsx:275-276 | pushing the open run at the end completes the hot and cold run lengths |
| AdvancedRecency.RunsSame | apps/web/components/AdvancedAnalytics.tsx:266-267 | a draw of the open run's kind lengthens it |
| AdvancedRecency.RunsSwitch | apps/web/components/AdvancedAnalytics.tsx:268-272 | a draw of the other kind closes the open run and opens one of length 1 |
| AdvancedRecency.LensSnoc | apps/web/components/AdvancedAnalytics.tsx:269-270 | closing a run adds its length to the list of its kind |
| AdvancedRecency.ColumnRuns | apps/web/components/AdvancedAnalytics.tsx:260-276 | the loop for one number pushes exactly the hot and cold run lengths of its column |
| AdvancedRecency.CollectRuns | apps/web/components/AdvancedAnalytics.tsx:259-277 | the runs of numbers 1..domainMax, number by number |
| AdvancedRecency.ComputeStreaks | apps/web/components/AdvancedAnalytics.tsx:248-282 | both lists are permutations of all numbers' hot (resp. cold) run lengths, sorted ascending |
| AdvancedRecency.StreaksCover | apps/web/components/AdvancedAnalytics.tsx:259-277 | over numbers 1..k the hot and cold runs together add up to k times the number of draws |
| AdvancedRecency.NoDrawsNoStreaks | apps/web/components/AdvancedAnalytics.tsx:248-282 | with no draws both run lists are empty |
| SmartPicks.Clamp | apps/web/components/SmartPicks.tsx:42-44 | for lo <= hi: x inside [lo, hi], lo below it, hi above it; lo when the bounds cross |
| SmartPicks.SeenCount | apps/web/components/SmartPicks.tsx:85 | at most the number of draws |
| SmartPicks.PairBoundedBySeen | apps/web/components/SmartPicks.tsx:84-90 | a pair occurs in no more draws than either of its numbers |
| SmartPicks.AddSeen | apps/web/components/SmartPicks.tsx:84-85 | one draw adds 1 to the counter of each of its distinct mains |
| SmartPicks.SeenCounts | apps/web/components/SmartPicks.tsx:82-85 | `seen[m]` is the number of draws containing m |
| SmartPicks.PairMatrix | apps/web/components/SmartPicks.tsx:80-94 | the matrix counts the draws containing both numbers, symmetric with a zero diagonal, each cell at most `seen` of its row; `seen[m]` counts the draws containing m |
| SmartPicks.KeyList | apps/web/components/SmartPicks.tsx:111-117 | candidate j is number j + 1 with its key |
| SmartPicks.SortedKeyed | apps/web/components/SmartPicks.tsx:118 | sorting the candidates keeps each number with its own key, once |
| SmartPicks.TopIds | apps/web/components/SmartPicks.tsx:119 | the numbers of the first t sorted candidates are distinct and in 1..domainMax |
| SmartPicks.TopDominates | apps/web/components/SmartPicks.tsx:118-119 | no number outside the first t has a larger key than one inside |
| SmartPicks.TopKeyIds | apps/web/components/SmartPicks.tsx:118-119 | `min(k, domainMax)` distinct numbers in 1..domainMax, none outranked by a number left out |
| SmartPicks.SampleK | apps/web/components/SmartPicks.tsx:110-120 | `min(k, domainMax)` numbers in 1..domainMax, strictly increasing, with keys at least those of every number left out |
| SmartPicks.PairBonusOf | apps/web/components/SmartPicks.tsx:143 | a pair's bonus lies in [0, 1] and is positive exactly when the lift exceeds 1 |
| SmartPicks.RowBonusBounds | apps/web/components/SmartPicks.tsx:141-144 | the inner loop adds between 0 and one per pair |
| SmartPicks.PairBonusBounds | apps/web/components/SmartPicks.tsx:140-145 | the pair bonus is between 0 and the number of pairs |
| SmartPicks.FiveMainsPairBonus | apps/web/components/SmartPicks.tsx:140-145 | over five mains the pair bonus lies in [0, 10] |
| SmartPicks.EndingCount | apps/web/components/SmartPicks.tsx:167-169 | the mains ending in a digit are at most all of them |
| SmartPicks.LongRunSnoc | apps/web/components/SmartPicks.tsx:162-165 | one more main adds exactly the run of three ending at it |
| SmartPicks.LongestRun | apps/web/components/SmartPicks.tsx:161-165 | `maxRun` is at least 1, and at least 3 exactly when three neighbouring mains are consecutive integers |
| SmartPicks.EndingCounts | apps/web/components/SmartPicks.tsx:167-169 | the record has a key exactly for each last digit that occurs, with the number of mains ending in it |
| SmartPicks.MaxValue | apps/web/components/SmartPicks.tsx:167 | the maximum bounds every count and is one of them (0 for no mains) |
| SmartPicks.MaxSameEnding | apps/web/components/SmartPicks.tsx:167-170 | the largest ending count reaches 3 exactly when three mains share a last digit |
| SmartPicks.EarnedDone | apps/web/components/SmartPicks.tsx:153-170 | after the first k checks the badges are in check order and are exactly the earned ones among them |
| SmartPicks.DeltaSumEarned | apps/web/components/SmartPicks.tsx:153-170 | check k changes the score by its delta exactly when its badge is earned |
| SmartPicks.MeasureShape | apps/web/components/SmartPicks.tsx:147-151 | the spread, spacing, parity, digit, sum, birthday, run and ending conditions of the mains, as the source evaluates them |
| SmartPicks.ShapeChecks | apps/web/components/SmartPicks.tsx:153-170 | a badge is pushed exactly when its condition holds, in check order, and the score changes by the sum of their deltas |
| SmartPicks.ScoreTicket | apps/web/components/SmartPicks.tsx:126-173 | the score is the base plus the capped pair bonus plus the badges' deltas; the badges are exactly those whose condition holds, in check order |
| SmartPicks.GreedyDiverse | apps/web/components/SmartPicks.tsx:182-188 | at most `want` (when positive) tickets from the pool, starting with the pool's first, pairwise at distance at least 5 |
| SmartPicks.SelectDiverse | apps/web/components/SmartPicks.tsx:176-191 | the result is a diverse selection of the pool: `min(want, |pool|)` tickets for positive `want`, from the pool, starting with `pool[0]`, a pairwise diverse greedy prefix followed by `pool[k]` at position k, which may repeat a ticket |
| SmartPicks.MainSums | apps/web/components/SmartPicks.tsx:195 | one sum per draw |
| SmartPicks.CountsPermutation | apps/web/components/SmartPicks.tsx:195 | sorting the sums does not change how many lie below or at a value |
| SmartPicks.SortedRank | apps/web/components/SmartPicks.tsx:197-198 | in ascending sums the value at index k has at most k values below it and at least k + 1 at or below it |
| SmartPicks.SumBand | apps/web/components/SmartPicks.tsx:193-200 | {95, 185} for no history; otherwise lo <= hi, both observed sums, at the 20th and 80th percentile ranks `(n-1)/5` and `4(n-1)/5` |
| SmartPicks.SeedState | apps/web/components/SmartPicks.tsx:207 | the seed reduced to 32 bits, 1 in place of 0 |
| SmartPicks.LcgStep | apps/web/components/SmartPicks.tsx:208 | the next state is a 32-bit value |
| SmartPicks.Uniform | apps/web/components/SmartPicks.tsx:208 | each output lies in [0, 1) |
| SmartPicks.StepInvertible | apps/web/components/SmartPicks.tsx:208 | the step is undone by multiplying by the inverse of 1664525 modulo 2^32 |
| SmartPicks.StepInjective | apps/web/components/SmartPicks.tsx:208 | distinct states step to distinct states |
| SmartPicks.Lcg.constructor | apps/web/components/SmartPicks.tsx:207 | the generator starts from the reduced seed |
| SmartPicks.Lcg.Next | apps/web/components/SmartPicks.tsx:208 | advances the state by one LCG step and returns it scaled into [0, 1) |
| SmartPicks.SortedTop | apps/web/components/SmartPicks.tsx:248 | the first k tickets sorted by descending score are the best k, still sorted, and the first beats every ticket |
| SmartPicks.SortedHead | apps/web/components/SmartPicks.tsx:248 | the first ticket sorted by descending score scores at least as high as any |
| SmartPicks.TopByScore | apps/web/components/SmartPicks.tsx:248 | the best `min(k, |pool|)` tickets by score, sorted descending |
| SmartPicks.Picks | apps/web/components/SmartPicks.tsx:211-251 | no picks for no history; otherwise `min(5, |pool|)` tickets sorted by descending score, the first the pool's best, and a reordering of a diverse selection of 5 from the best 200 of the pool |
| DataImporter.DottedRoundTrip | apps/web/components/DataImporter.tsx:24-27 | a `DD.MM.YYYY` string becomes an ISO-shaped date from which it can be recovered |
| DataImporter.IsoRoundTrip | apps/web/components/DataImporter.tsx:24-27 | every ISO-shaped date comes from exactly one `DD.MM.YYYY` string |
| DataImporter.ToIsoDate | apps/web/components/DataImporter.tsx:13-35 | a trimmed `DD.MM.YYYY` string becomes the reordered ISO date; a missing cell, and any value no branch accepts, is an unrecognised-date error |
| DataImporter.FindFirst | apps/web/components/DataImporter.tsx:45-48 | `find` gives the first key passing the test, and nothing exactly when no key passes |
| DataImporter.FindEach | apps/web/components/DataImporter.tsx:50-74 | one lookup per list of variants |
| DataImporter.ResolveColumns | apps/web/components/DataImporter.tsx:50-74 | five main, two euro and twelve payout column lookups |
| DataImporter.Numbers | apps/web/components/DataImporter.tsx:85-93 | one converted number per column |
| DataImporter.GklUpToContents | apps/web/components/DataImporter.tsx:95-106 | the payout record holds exactly the classes whose column exists and whose cell is non-empty and numeric, with those values |
| DataImporter.FillGkl | apps/web/components/DataImporter.tsx:95-106 | the loop builds the payout record for all twelve classes |
| DataImporter.RowToDraw | apps/web/components/DataImporter.tsx:82-116 | a row converts exactly when its date is recognised and all mains lie in 1..50 and all euros in 1..12; the draw then carries the converted date, the five converted mains and two converted euros in column order, and the payout record; otherwise the error is the date error, else invalid mains, else invalid euros, in that order |
| DataImporter.ConvertAll | apps/web/components/DataImporter.tsx:82-117 | the rows convert exactly when each does, giving one draw per row in order |
| DataImporter.ConvertStopsAt | apps/web/components/DataImporter.tsx:82-117 | once a row fails, the whole import fails with that row's error |
| DataImporter.ConvertRows | apps/web/components/DataImporter.tsx:82-117 | the row loop computes the conversion, stopping at the first failing row |
| DataImporter.ImportSucceeds | apps/web/components/DataImporter.tsx:76-117 | an import succeeds exactly when the date, main and euro columns are found and every row converts; missing payout columns do not matter |
| DataImporter.SortedConversion | apps/web/components/DataImporter.tsx:119-121 | the sorted draws are one well-formed draw per row, ascending by date, a permutation of the converted rows |
| DataImporter.ImportContents | apps/web/components/DataImporter.tsx:37-122 | a successful import is one well-formed draw per row, sorted by date, a permutation of the rows' draws |
| DataImporter.EmptyImportFails | apps/web/components/DataImporter.tsx:41-76 | with no rows there is no header and the import fails on the date column |
| DataImporter.ParseRows | apps/web/components/DataImporter.tsx:37-122 | the method computes the import: column checks, row loop, sort |
| JsText.TrimStart | apps/web/components/DataImporter.tsx:38 | a suffix of the text not starting with whitespace |
| JsText.TrimEnd | apps/web/components/DataImporter.tsx:38 | a prefix of the text not ending with whitespace |
| JsText.Trim | apps/web/components/DataImporter.tsx:22 | no longer than the text and without whitespace at either end |
| JsText.TrimStartSpace | apps/web/components/DataImporter.tsx:38 | what `trimStart` removes is whitespace |
| JsText.TrimEndSpace | apps/web/components/DataImporter.tsx:38 | what `trimEnd` removes is whitespace |
| JsText.TrimSlice | apps/web/components/DataImporter.tsx:22 | the trimmed text is a slice of the original with only whitespace on either side |
| JsText.LowerAscii | apps/web/components/DataImporter.tsx:38 | same length, ASCII capitals lowered, every other character unchanged |
| JsText.LexLeTotal | packages/core/src/analytics.ts:34 | any two dates compare one way or the other |
| JsText.LexLeTransitive | packages/core/src/analytics.ts:34 | the date order is transitive |
| JsText.SortByText | apps/web/components/DataImporter.tsx:120 | a permutation of the input sorted by the text key |
| JsText.MapSortCommute | packages/core/src/analytics.ts:34-35 | sorting then mapping with a key-preserving function equals mapping then sorting |
| Seqs.SumAppend | apps/web/components/AdvancedAnalytics.tsx:52-54 | the sum of a concatenation is the sum of the sums |
| Seqs.JsRem | apps/web/components/AdvancedAnalytics.tsx:216 | the truncating remainder lies strictly between -m and m, is the usual one for non-negative values and is never positive for negative ones |
| Seqs.SumOfCountsIsCountInRange | packages/core/src/analytics.ts:7-17 | the counters for lo..hi add up to the number of values in lo..hi |
| Seqs.Dedup | apps/web/components/NumberEvaluator.tsx:82 | no repeats, the same values as the input, no longer than it |
| Seqs.DedupSnoc | apps/web/components/NumberEvaluator.tsx:82 | a value is appended unless already seen: first-occurrence order |
| Seqs.DedupDistinct | apps/web/components/NumberEvaluator.tsx:82 | a sequence without repeats is unchanged |
| Seqs.DedupRepeatedHead | apps/web/components/NumberEvaluator.tsx:82 | a value typed twice at the front is kept once, in its place |
| Seqs.SortedUnique | apps/web/components/AdvancedAnalytics.tsx:42-44 | strictly increasing, the same values as the input, no longer than it |
| Seqs.SortBy | apps/web/components/SmartPicks.tsx:118 | a permutation of the input sorted by the numeric key |
| Seqs.SortByStable | apps/web/components/AdvancedAnalytics.tsx:105 | the sort is stable: elements given in increasing rank stay in that order among equal keys |
| Seqs.InsertByStable | apps/web/components/AdvancedAnalytics.tsx:105 | inserting an element that outranks all others keeps equal keys in rank order |
| Seqs.SortInts | apps/web/components/SmartPicks.tsx:119 | a permutation of the input in ascending order |
| NumberEvaluator.LeadingDigits | apps/web/components/NumberEvaluator.tsx:114 | the longest run of digits at the start of the text |
| NumberEvaluator.DigitsRoundTrip | apps/web/components/NumberEvaluator.tsx:114 | reading the decimal digits of n gives n back |
| NumberEvaluator.ParseIntShow | apps/web/components/NumberEvaluator.tsx:114 | `parseInt` of a printed integer, followed by anything not a digit, is that integer |
| NumberEvaluator.ParseIntUnsigned | apps/web/components/NumberEvaluator.tsx:114 | text starting with a digit reads as its leading digits |
| NumberEvaluator.ParseIntNegative | apps/web/components/NumberEvaluator.tsx:114 | a minus sign directly before digits negates them |
| NumberEvaluator.ParseIntNaN | apps/web/components/NumberEvaluator.tsx:114 | text without digits reads as NaN |
| NumberEvaluator.FieldValue | apps/web/components/NumberEvaluator.tsx:114 | an empty field reads as 0 |
| NumberEvaluator.ClampArray | apps/web/components/NumberEvaluator.tsx:67-69 | the first `min(size, |initial|)` values in order; each in [min, max], unchanged inside it, pulled to the nearer bound outside; NaN stays NaN |
| NumberEvaluator.ClampArrayIdempotent | apps/web/components/NumberEvaluator.tsx:67-69 | clamping clamped values changes nothing |
| NumberEvaluator.EditMainKeeps | apps/web/components/NumberEvaluator.tsx:112-116 | editing main field i keeps five fields in range, changes field i only, to its clamped value, and an empty field becomes 1 |
| NumberEvaluator.EditEuroKeeps | apps/web/components/NumberEvaluator.tsx:127-131 | the same for the two euro fields and 1..12 |
| NumberEvaluator.TypedMain | apps/web/components/NumberEvaluator.tsx:112-116 | typing a number stores it pulled into 1..50 |
| NumberEvaluator.UniquePicks | apps/web/components/NumberEvaluator.tsx:82-89 | at most k values without repeats, all taken from the fields, and all of them when there are at most k fields |
| NumberEvaluator.Present | apps/web/components/NumberEvaluator.tsx:82-91 | the numbers among the picks, leaving out NaN |
| NumberEvaluator.RepeatedPickDropped | apps/web/components/NumberEvaluator.tsx:82-88 | a repeated first pick is dropped, leaving four picks |
| NumberEvaluator.RepeatedPickShrinks | apps/web/components/NumberEvaluator.tsx:82-88 | typing 7 into the first two fields leaves four picks, so fewer than five mains reach the evaluation |
| NumberEvaluator.PicksSameNumbers | apps/web/components/NumberEvaluator.tsx:82-91 | de-duplication keeps exactly the set of numbers the evaluation looks at |
| NumberEvaluator.SampleDrawsWellFormed | apps/web/components/NumberEvaluator.tsx:26-65 | the sample draws have five mains in 1..50 and two euros in 1..12 |
| NumberEvaluator.Evaluate | apps/web/components/NumberEvaluator.tsx:72-92 | the wins of the imported draws, or of the sample draws when none are imported, against the de-duplicated picks, with the per-class hit and total maps (keys exactly the classes won), grand total and best class in agreement |
| SyncVersion.SplitLines | scripts/sync-version.mjs:46 | a split always yields at least one line |
| SyncVersion.SplitJoin | scripts/sync-version.mjs:46 | splitting LF- or CRLF-joined clean lines gives the lines back |
| SyncVersion.JoinSplit | scripts/sync-version.mjs:46-70 | joining the lines of a CR-free text gives the text back |
| SyncVersion.SplitClean | scripts/sync-version.mjs:46 | split lines hold no LF, and no CR when the text has none |
| SyncVersion.SplitEndsEmpty | scripts/sync-version.mjs:46 | a text ending in LF splits into at least two lines, the last empty |
| SyncVersion.JoinEndsLf | scripts/sync-version.mjs:70 | a join whose last line is empty ends in LF |
| SyncVersion.PackageHeaderIsSection | scripts/sync-version.mjs:53-57 | a `[package]` line is also a section header |
| SyncVersion.VersionLineNotHeader | scripts/sync-version.mjs:57-61 | a version line is neither a section header nor `[package]` |
| SyncVersion.ExpandLiteral | scripts/sync-version.mjs:62 | a replacement without `$` is inserted literally |
| SyncVersion.LineParts | scripts/sync-version.mjs:61-62 | a line is its leading whitespace, its trimmed text and its trailing whitespace |
| SyncVersion.TrimAround | scripts/sync-version.mjs:61-62 | whitespace around a text without whitespace at its ends is what trimming removes |
| SyncVersion.RewriteShape | scripts/sync-version.mjs:62 | with a plain version the rewrite replaces the trimmed text by `version = "v"` |
| SyncVersion.AssignmentIsVersionLine | scripts/sync-version.mjs:61-62 | `version = "v"` matches the version-line pattern |
| SyncVersion.RewriteParts | scripts/sync-version.mjs:62 | the rewritten line keeps the whitespace around the old text |
| SyncVersion.RewriteIsVersionLine | scripts/sync-version.mjs:61-62 | the rewritten line is a version line |
| SyncVersion.RewriteIdempotent | scripts/sync-version.mjs:62-63 | rewriting a rewritten line changes nothing |
| SyncVersion.RewriteClean | scripts/sync-version.mjs:62-64 | the rewritten line stays free of LF and CR |
| SyncVersion.KindOf | scripts/sync-version.mjs:53-61 | a `[package]` line is a section header; a version line is not |
| SyncVersion.EmptyLineKind | scripts/sync-version.mjs:53-61 | an empty line matches none of the three patterns |
| SyncVersion.ScanOn | scripts/sync-version.mjs:53-60 | passing a line that is not the target updates `inPackage` as the two tests do |
| SyncVersion.FirstTarget | scripts/sync-version.mjs:61-67 | the first line the loop would rewrite at or after k, or none |
| SyncVersion.InPackageMeaning | scripts/sync-version.mjs:53-60 | `inPackage` holds at line i exactly when a `[package]` line comes before it with no section header between |
| SyncVersion.InPackagePrefix | scripts/sync-version.mjs:53-60 | `inPackage` at line i depends only on the lines before it |
| SyncVersion.NoPackageNoTarget | scripts/sync-version.mjs:47-61 | a text without a `[package]` line has nothing to rewrite |
| SyncVersion.OutsidePackage | scripts/sync-version.mjs:57-60 | after another section header, `inPackage` stays off until the next `[package]` |
| SyncVersion.OtherSectionUntouched | scripts/sync-version.mjs:57-61 | a version line under another section is never rewritten |
| SyncVersion.UpdatedLines | scripts/sync-version.mjs:50-69 | the target line, if any, is rewritten and every other line is unchanged |
| SyncVersion.UpdatedEndsLf | scripts/sync-version.mjs:70 | the result always ends with a newline |
| SyncVersion.UpdatedKeepsEmptyLast | scripts/sync-version.mjs:70 | a final empty line is never the target |
| SyncVersion.RewrittenKind | scripts/sync-version.mjs:61-64 | a rewritten line is classified as a version line only |
| SyncVersion.TargetKept | scripts/sync-version.mjs:61-67 | a version line inside the package section with no target before it is the first target |
| SyncVersion.SecondRunNoTarget | scripts/sync-version.mjs:61-67 | without a target, the second run finds none either |
| SyncVersion.SecondRunSameTarget | scripts/sync-version.mjs:61-67 | the rewritten line is again the first target and rewriting it changes nothing |
| SyncVersion.ReSplit | scripts/sync-version.mjs:46-70 | the output text splits back into its lines, plus an empty one after a final LF |
| SyncVersion.SecondSplit | scripts/sync-version.mjs:46-70 | the second run splits the first run's output into the rewritten lines |
| SyncVersion.UpdatedLinesClean | scripts/sync-version.mjs:62-64 | the rewrite keeps every line free of LF and CR |
| SyncVersion.SecondRunUnchanged | scripts/sync-version.mjs:45-71 | running the update again with the same plain version reports no change |
| SyncVersion.UpdateTomlVersion | scripts/sync-version.mjs:45-71 | the loop's text is the lines with the first `[package]` version line rewritten, joined by LF and newline-terminated; `changed` is true exactly when that line differs |

## Left out

- Floating-point statistics of the smart-pick generator:
  - `zscore`, `recencyWeights` and the weight assembly;
  - the log-weight base score;
  - the `makeLift` ratio with its 1e-9 floor;
  - the `u^(1/w)` sampling keys.
  These are inputs to the model: `base`, `lift` and `keys`.
- The 2000-ticket sampling loop and the `Date.now()` seed are not modelled. `SmartPicks.Picks` starts from a sampled pool.
- Colour mapping (`mapHeatColor`, `hex`, `lerp`), `computeWeekdayEffect`, `computeMonthlySeasonal` and the trigonometric node layout of `buildCoOccurrenceNetwork` are left out. They are float interpolation, `Date` parsing and trigonometry. The network's edge filter is modelled.
- `computeOverdueMain`/`computeOverdueEuro` are not part of this model. Overdue behaviour is modelled by `computeLastSeen`.
- Library conversions of the importer are parameters of `DataImporter.Lib`: the Excel serial date, `Date.parse`, `Number(...)` and the currency clean-up. XLSX reading and the parquet route are left out.
- DataImporter.Numbers: cells convert to integers only. A fractional main such as 2.5, which the source would accept, is outside the model.
- JsText.LowerAscii: `toLowerCase` is modelled on ASCII letters only. Header names are ASCII.
- AdvancedRecency.ComputeLastSeen, AdvancedRecency.ComputeInterArrival, AdvancedPairs.ComputePairs, AdvancedPairs.PairMatrixCounts and SmartPicks.PairMatrix require every main to lie in `0..domainMax` (`1..domainMax` for inter-arrival). The source indexes an array with the main, so an out-of-range main would create a stray property or fail. Imported draws always meet this.
- AdvancedTallies.RollingMean requires `w >= 1` unless the series is empty. The source only calls it with `min(50, n)` and `min(100, n)`, so `w` is 0 only for an empty series.
- SmartPicks.GreedyDiverse and SmartPicks.SelectDiverse state the kept tickets' pairwise distance and the fill quirk. They do not state that the greedy pass keeps every candidate it could.
- SmartPicks.ScoreTicket: the badge condition for `maxSameEnding` is taken from the mains' endings. The `-Infinity` of `Math.max()` over no mains is modelled as 0; five mains always give a value.
- Payouts are exact reals. JavaScript double rounding of totals and averages is not modelled.
- NumberEvaluator.ParseIntShow: integers are unbounded. `parseInt` loses precision beyond 2^53, which the model does not capture.
- NumberEvaluator.Evaluate requires five main fields and two euro fields, the shape of the component's state. NaN picks match no drawn number and are dropped before evaluation.
- SyncVersion.SecondRunUnchanged is stated for CR-free text and a version without `$` or line terminators. With a CRLF text the first run already normalises line ends; with `$` in the version the replacement pattern expands.
- The file I/O, JSON comparison and console output of the version script are left out. So are the React components, contexts, local storage, middleware and configuration files.
- `getMain`/`getMains` return `[]` when `d.z` is not an array. Draws in the model always have a mains sequence.
- The in-place sorts (`draws.sort`, `hotRuns.sort`, `keys.sort`) are modelled as functions that return a sorted permutation. Aliasing of the sorted array is not captured.
