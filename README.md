# Lottery betting-plan toolkit — a verified Dafny model

This project models the deterministic core of a lottery toolkit for a 1–39
number game. The toolkit turns a scored feature table, or a list of numbers,
into a betting plan:

- **Linked play** ("連碰") bets on every `stars`-subset of the chosen numbers.
- **Column play** ("柱碰") deals the numbers round-robin into columns. It then
  takes, for every choice of `stars` columns, the product tuples whose entries
  are pairwise distinct.
- Every plan is priced per combination. It is scored as the mean of the
  per-combination mean scores.
- A search over 3 … `max_columns` columns keeps the first column count with
  the strictly best score.

Around this sit the digit-feature helpers of the prediction scripts and the
draw-string parser:

- tail/head indicator matrices;
- sliding-window datasets;
- the probability-threshold filter;
- candidate filters;
- the weighted pool that feeds the random selection.

The three source files that carry the betting logic have drifted apart. The
model keeps the variants apart:

- `auto_column_optimizer.py`:
  - splits in ascending number order;
  - sorts every tuple and de-duplicates through a set;
  - falls back to the numbers' own values when no score table is given.
- `betting_strategy_engine.py` and `modules_betting_engine.py`:
  - split in descending score order;
  - keep the raw product tuples.

Layout, one module per file:

| module | contents |
|---|---|
| `Outcomes` | `Error`, `Result`, `Option` |
| `Seqs` | distinctness, sorting, flattening, sums |
| `LexOrder` | Python tuple order, `sorted()` of a set of tuples |
| `Combinatorics` | `itertools.combinations` as `Choose`, `itertools.product` as `Product`; column combinations with and without de-duplication |
| `Partition` | the round-robin split shared by all three copies |
| `Pricing` | rows, plans, the score map, mean of means |
| `Ranking` | `sort_values(ascending=False)` and `head(n)` |
| `AutoColumnOptimizer`, `BettingStrategyEngine`, `BettingEngine` | the three betting files |
| `DigitFeatures` | the helpers shared by the prediction scripts |
| `Predict`, `HeadModel`, `TailModel` | the three prediction scripts |
| `Parser` | the draw-string parser |

Some functions behave the same in several files, though their text differs slightly (variable names, progress prints). Each is modelled once:

| source functions | model |
|---|---|
| `generate_linked_combinations`, `auto_split_columns`, `generate_column_combinations`, `compute_average_combo_score` in `modules_betting_engine.py` | the `BettingStrategyEngine` members |
| `build_dataset`, `build_head_dataset`, `build_tail_dataset` | `DigitFeatures.BuildDataset` |
| the label filter of `predict_labels`, `predict_next_head`, `predict_next_tail` | `DigitFeatures.PredictNextLabels` |
| the weighting loops of the two selectors | `DigitFeatures.BuildWeightedPool` |
| the final sorted draw | `DigitFeatures.SelectFromPool` |

How Python's behaviour is modelled:

- **Errors** are `Result` values:
  - `ValueError`: bad mode or plan configuration;
  - `ZeroDivisionError`: `i % 0`, or the empty tuple when `stars` is 0;
  - `IndexError`: a negative column count on non-empty input.
- **Floats** are modelled as exact `real`s.
- **Classifier probabilities** are an input sequence of positive-class probabilities.

## Model

| member | source | states |
|---|---|---|
| `Partition.RoundRobin` | auto_column_optimizer.py:9-12 | the split returns exactly `num_columns` lists |
| `Partition.RoundRobinAt` | auto_column_optimizer.py:10-12 | the element at position `i` sits in column `i % n`, at place `i / n` |
| `Partition.ColumnEntry` | auto_column_optimizer.py:10-12 | place `j` of column `c` holds the element at position `c + j * n`, and that position exists |
| `Partition.RoundRobinSizes` | auto_column_optimizer.py:10-11 | column `c` holds `len / n` elements, plus one if `c < len % n` |
| `Partition.RoundRobinBalanced` | auto_column_optimizer.py:10-11 | any two column sizes differ by at most 1, and an earlier column is never shorter than a later one |
| `Partition.RoundRobinKeepsOrder` | auto_column_optimizer.py:10-12 | dealing an ascending list leaves every column ascending |
| `Partition.RoundRobinPermutation` | auto_column_optimizer.py:10-12 | the columns together hold the input as a multiset: nothing is dropped, duplicates are kept |
| `Partition.Deal` | auto_column_optimizer.py:9-13 | a positive count gives the round-robin columns; a count ≤ 0 on empty input gives `[]`; count 0 on non-empty input is a ZeroDivisionError; a negative count on non-empty input is an IndexError |
| `Combinatorics.ChooseMembership` | betting_strategy_engine.py:15-16 | `c` is among the combinations exactly when it has length `k` and is a subsequence of the input, in input order |
| `Combinatorics.ChooseCount` | betting_strategy_engine.py:15-16 | there are C(n, k) combinations, and none when `k > n` |
| `Combinatorics.BinomialAboveN` | betting_strategy_engine.py:15-16 | C(n, k) is 0 when `k > n` |
| `Combinatorics.ChooseDistinct` | modules_betting_engine.py:9-10 | over a list without repeats, no combination is listed twice and no combination repeats a number |
| `Combinatorics.SubsequenceElems` | modules_betting_engine.py:9-10 | a combination uses only numbers of the input |
| `Combinatorics.ProductCount` | auto_column_optimizer.py:18 | the product of the selected columns has as many tuples as the product of their sizes |
| `Combinatorics.ProductMembership` | auto_column_optimizer.py:18 | a tuple is in the product exactly when it takes one entry from each column, in column order |
| `Combinatorics.PrependEachMembership` | auto_column_optimizer.py:18 | one step of the product: a tuple is listed exactly when its head is in the first column and its tail is in the rest |
| `Combinatorics.KeepDistinctMembership` | betting_strategy_engine.py:27 | the filter keeps exactly the tuples whose set of entries has `stars` elements |
| `Combinatorics.ColumnCombosOfMembership` | betting_strategy_engine.py:25-28 | the accumulated combinations are exactly the `stars`-distinct tuples of some processed product |
| `Combinatorics.ColumnCombosMembership` | betting_strategy_engine.py:25-28 | a tuple is a column combination exactly when it has length `stars`, its entries are pairwise distinct, and some `stars` columns taken in order supply its entries one each |
| `Combinatorics.CanonicalOfSorted` | auto_column_optimizer.py:19-21 | what the inner loop adds for one product is the set of sorted forms of its distinct-entry tuples |
| `Combinatorics.CanonicalCombosOfSorted` | auto_column_optimizer.py:17-21 | across all processed column choices, the set holds the sorted forms of the raw column combinations |
| `Combinatorics.CanonicalIsSortedColumnCombos` | auto_column_optimizer.py:17-21 | the de-duplicated set is the set of sorted forms of the non-de-duplicated column combinations |
| `Combinatorics.CanonicalCombosMembership` | auto_column_optimizer.py:17-21 | every member has length `stars` and strictly increasing entries; a tuple is a member exactly when it is the sorted form of a column combination |
| `Seqs.ElemsSize` | auto_column_optimizer.py:20 | `len(set(t)) == len(t)` holds exactly when `t` has no repeated entry |
| `Seqs.SortAscending` | auto_column_optimizer.py:10 | `sorted()` returns an ascending permutation of its input |
| `Seqs.InsertAscending` | auto_column_optimizer.py:10 | one insertion step of the sort keeps a list ascending |
| `Seqs.SortDistinct` | auto_column_optimizer.py:21 | sorting a tuple without repeats gives a strictly increasing tuple with the same entries |
| `Seqs.StrictlyAscendingUnique` | auto_column_optimizer.py:21 | two strictly increasing tuples with the same entries are equal, so the set merges exactly the tuples with equal entries |
| `Seqs.DistinctConcat` | run_tail_model.py:80 | joining two lists without repeats that share no entry gives a list without repeats, which is why the candidate groups of distinct predicted keys, joined in turn, repeat no number |
| `Seqs.FlattenAt` | modules_predict.py:34 | the row-major flattening puts row `r`, column `c` at index `r * w + c` |
| `Seqs.FlattenLength` | modules_predict.py:34 | flattening rows of width `w` gives `rows * w` entries |
| `Seqs.Repeat` | run_head_model.py:83 | `[num] * weight` has `weight` entries, all `num` |
| `LexOrder.LexIrreflexive` | auto_column_optimizer.py:22 | no tuple sorts before itself |
| `LexOrder.LexTransitive` | auto_column_optimizer.py:22 | the tuple order is transitive |
| `LexOrder.LexTotal` | auto_column_optimizer.py:22 | any two different tuples are ordered one way or the other |
| `LexOrder.LexSortedDistinct` | auto_column_optimizer.py:22 | a strictly sorted list of tuples has no duplicates |
| `LexOrder.InsertLex` | auto_column_optimizer.py:22 | inserting a new tuple into a sorted list keeps it sorted, adds exactly that tuple and grows the list by one |
| `LexOrder.SortSet` | auto_column_optimizer.py:22 | `sorted(all_combos)` lists every member of the set exactly once, in increasing tuple order |
| `Pricing.CostAndStats` | betting_strategy_engine.py:35-41 | `total_combos` is the number of combinations, `total_cost` is `total_combos * unit_cost`, and the combinations pass through unchanged (the same behaviour as auto_column_optimizer.py:24-30) |
| `Pricing.Numbers` | modules_betting_engine.py:58 | the number column lists one number per row, in row order |
| `Pricing.ScoreMapLookup` | betting_strategy_engine.py:45 | a number is a key of the score map exactly when some row carries it, and its score is that of the last such row |
| `Pricing.ItemScore` | betting_strategy_engine.py:47 | `score_map.get(num, 0)`: the table's score for a number it holds, 0 for any other |
| `Pricing.ComboScores` | betting_strategy_engine.py:46-49 | one score per combination, the mean of its numbers' scores |
| `Pricing.ComboScoreBounds` | betting_strategy_engine.py:47 | a combination's mean lies between the lowest and the highest score of its numbers |
| `Pricing.ComboScoresBounds` | betting_strategy_engine.py:46-49 | every per-combination mean lies between the bounds of the scores used |
| `Pricing.SumScoresBounds` | betting_strategy_engine.py:47 | a sum of `k` scores between `lo` and `hi` lies between `k * lo` and `k * hi` |
| `Pricing.SumRealBounds` | betting_strategy_engine.py:50 | a sum of `k` means between `lo` and `hi` lies between `k * lo` and `k * hi` |
| `Pricing.MeanBounds` | betting_strategy_engine.py:50 | dividing such a sum by `k` gives a value between `lo` and `hi` |
| `Pricing.MeanComboScoreBounds` | betting_strategy_engine.py:46-50 | no combinations average 0; otherwise the average lies between the lowest and the highest score of the numbers used |
| `Ranking.InsertByScore` | betting_strategy_engine.py:62 | one insertion step of the ranking adds exactly the new row |
| `Ranking.InsertByScoreSorted` | betting_strategy_engine.py:62 | inserting a row into a ranking keeps scores non-increasing |
| `Ranking.FromInsert` | betting_strategy_engine.py:62 | every row of the insertion result is the new row or an old one |
| `Ranking.InsertByScoreNumbers` | betting_strategy_engine.py:62 | insertion adds the new row's number to the numbers, as a multiset |
| `Ranking.RankOrder` | betting_strategy_engine.py:62 | the ranking is a permutation of the rows |
| `Ranking.RankOrderSorted` | betting_strategy_engine.py:62 | the ranking lists scores from highest to lowest |
| `Ranking.RankOrderNumbers` | modules_betting_engine.py:13-16 | ranking keeps every number as often as it occurs |
| `Ranking.NumbersPermutation` | modules_betting_engine.py:13-16 | any reordering of the rows keeps every number as often as it occurs |
| `Ranking.Head` | modules_betting_engine.py:57 | `head(n)` keeps the first `n` rows (all if fewer); a negative `n` drops the last `-n` rows |
| `Ranking.HeadKeepsTop` | modules_betting_engine.py:57 | the kept rows of a ranking are a ranking, and each scores at least as much as every dropped row |
| `AutoColumnOptimizer.AutoSplitColumnsFromNumbers` | auto_column_optimizer.py:8-13 | the sorted numbers are dealt round-robin into exactly `num_columns` ascending columns whose sizes follow the round-robin count, and the columns hold the input as a multiset; the error cases are those of `Partition.Deal` |
| `AutoColumnOptimizer.GenerateColumnCombinations` | auto_column_optimizer.py:15-22 | the result is strictly sorted in tuple order and has no duplicates; its set is exactly the sorted forms of the distinct-entry column combinations; every tuple has length `stars` and strictly increasing entries; `stars > len(columns)` gives `[]` |
| `AutoColumnOptimizer.AddSortedDistinct` | auto_column_optimizer.py:19-21 | the inner loop adds to the set exactly the sorted forms of the product tuples with `stars` distinct entries |
| `AutoColumnOptimizer.CanonicalOfStep` | auto_column_optimizer.py:19-21 | one round of the inner loop adds at most the sorted form of the current tuple |
| `AutoColumnOptimizer.CanonicalShape` | auto_column_optimizer.py:16-21 | every listed tuple has length `stars` and strictly increasing entries |
| `AutoColumnOptimizer.AverageComboScore` | auto_column_optimizer.py:32-40 | no combinations average 0; an empty tuple (only possible when `stars` is 0) is a ZeroDivisionError and nothing else is |
| `AutoColumnOptimizer.AverageTableBounds` | auto_column_optimizer.py:33-37 | with a non-empty score map, where a missing number scores 0, the average lies between the bounds of the scores used |
| `AutoColumnOptimizer.AverageOwnValueBounds` | auto_column_optimizer.py:33-40 | an empty score map gives the same result as no map (`if score_map:` treats it as false), and without one the average lies between the smallest and the largest number used |
| `AutoColumnOptimizer.AverageOwnValueExample` | auto_column_optimizer.py:38-40 | with no score map, (1, 2) and (3, 4) average 2.5 |
| `BettingStrategyEngine.GenerateLinkedCombinations` | betting_strategy_engine.py:15-16 | there are C(n, stars) combinations, none when `stars > n`; each has length `stars` and is a subsequence of the numbers in their order, not re-sorted |
| `BettingStrategyEngine.GenerateColumnCombinations` | betting_strategy_engine.py:19-32 | the loop's result equals the column combinations: the distinct-entry product tuples of every column choice, in column order, neither sorted nor de-duplicated; each has length `stars` and pairwise distinct entries; none when `stars > len(columns)` |
| `BettingStrategyEngine.AverageComboScore` | betting_strategy_engine.py:44-50 | the mean of per-combination means, with an absent number scored 0; no combinations average 0; only an empty tuple raises ZeroDivisionError |
| `BettingStrategyEngine.AverageComboScoreBounds` | betting_strategy_engine.py:44-50 | the average lies between the lowest and the highest table score of the numbers used |
| `BettingStrategyEngine.ComputeColumnScore` | betting_strategy_engine.py:53-58 | one value per column: 0 for an empty column, otherwise the sum of its numbers' table scores (0 for an absent number) divided by its length |
| `BettingStrategyEngine.ColumnScoreBounds` | betting_strategy_engine.py:53-58 | a non-empty column's value lies between the lowest and the highest table score of its numbers |
| `BettingStrategyEngine.RankedColumns` | betting_strategy_engine.py:61-67 | the score-ranked split has exactly `num_columns` columns |
| `BettingStrategyEngine.AutoSplitColumns` | betting_strategy_engine.py:61-67 | the result is the round-robin of the numbers in score-descending order; the columns hold exactly the rows' numbers as a multiset, with round-robin sizes; the error cases are those of `Partition.Deal` |
| `BettingStrategyEngine.RankedColumnsLayout` | betting_strategy_engine.py:62-66 | place `j` of column `c` holds the number of rank `c + j * n` |
| `BettingStrategyEngine.SplitOfAnyRanking` | betting_strategy_engine.py:61-67 | for every ranking of the rows by non-increasing score, whatever the order of ties: the columns hold exactly the rows' numbers, with round-robin sizes, and place `j` of column `c` holds the number of rank `c + j * n` |
| `BettingStrategyEngine.SplitKeepsNumbers` | betting_strategy_engine.py:64-66 | dealing any permutation of the rows keeps their numbers as a multiset, with round-robin sizes |
| `BettingStrategyEngine.SplitLayout` | betting_strategy_engine.py:64-66 | dealing any ordering of the rows puts rank `c + j * n` at place `j` of column `c` |
| `BettingStrategyEngine.RankOrderIsARanking` | betting_strategy_engine.py:62 | the ranking the model uses is one of those rankings: non-increasing and a permutation of the rows |
| `BettingStrategyEngine.GenerateBettingPlan` | betting_strategy_engine.py:70-91 | ValueError for linked mode without numbers, column mode without columns or with fewer than `stars` columns, and any other mode; otherwise the priced plan of the linked combinations (C(n, stars) of them) or of the column combinations |
| `BettingStrategyEngine.CandidateScoreDefined` | betting_strategy_engine.py:125-127 | a column count's average score is undefined (ZeroDivisionError) exactly when `stars` is 0 |
| `BettingStrategyEngine.CandidateBelowStars` | modules_betting_engine.py:82-85 | a column count smaller than `stars` gives no combinations and scores 0 |
| `BettingStrategyEngine.SearchFindsFirstBest` | betting_strategy_engine.py:119-133 | the running maximum with strict `>` from -1 ends on the first column count whose score beats -1 and every earlier score, with no later count beating it; if no score beats -1 it ends on `(0, [])` |
| `BettingStrategyEngine.Search` | betting_strategy_engine.py:124-133 | the state of the search after trying 3 … `upTo` columns; the only exception it can carry is ZeroDivisionError |
| `BettingStrategyEngine.SearchColumnCounts` | betting_strategy_engine.py:119-134 | the loop over 3 … `max_columns` returns the first best count with its columns, combinations and score; it fails exactly when `stars` is 0 and some count is tried, and then with ZeroDivisionError |
| `BettingStrategyEngine.KeepIfBetter` | betting_strategy_engine.py:125-133 | one loop round replaces the best so far only when the new score is strictly greater |
| `BettingStrategyEngine.TryColumnCount` | betting_strategy_engine.py:125-127 | one round splits by rank, enumerates the column combinations and averages their scores |
| `BettingStrategyEngine.SearchStopsOnError` | betting_strategy_engine.py:124-127 | an exception in one round ends the search with that exception |
| `BettingStrategyEngine.FindBestColumnStrategy` | betting_strategy_engine.py:118-136 | returns the first best `(count, columns)` over 3 … `max_columns`; returns `(0, [])` when `max_columns < 3`; raises only when `stars` is 0 and a count is tried, and then ZeroDivisionError |
| `BettingStrategyEngine.CandidateNonNegative` | betting_strategy_engine.py:127 | a table with non-negative scores gives every defined average a non-negative value |
| `BettingStrategyEngine.NonNegativeScoresPickACount` | betting_strategy_engine.py:130-133 | with non-negative scores, the first count tried already beats -1, so the answer is a real count between 3 and `max_columns` |
| `BettingStrategyEngine.TableScoreBounds` | betting_strategy_engine.py:45-47 | with non-negative table scores, every number's score (0 when absent) lies between 0 and the table maximum |
| `BettingEngine.Selected` | modules_betting_engine.py:57 | `sort_values(ascending=False).head(top_n)`: the kept rows are ranked by score, are rows of the table, number `min(top_n, len)` for a non-negative `top_n`, and none scores below a row left out |
| `BettingEngine.SimulateBetting` | modules_betting_engine.py:55-98 | the linked part is every `stars`-choice (C(n, stars) of them) of the top `top_n` numbers by score, averaged over the whole table and priced per combination; the column part is the first best of 3 … 6 columns of the selected rows, with its combinations equal to the column combinations of its columns and priced the same way; `stars` 0 is a ZeroDivisionError |
| `DigitFeatures.Tails` | run_tail_model.py:52 | `n % 10` for every number of the draw |
| `DigitFeatures.Heads` | run_head_model.py:52 | `n // 10` for every number of the draw |
| `DigitFeatures.IndicatorRow` | run_head_model.py:53 | entry `i` of a row of the given width is 1 exactly when `i` is among the keys, else 0 |
| `DigitFeatures.TailRow` | run_tail_model.py:52-53 | ten 0/1 entries; entry `i` is 1 exactly when some number of the draw has `n % 10 == i` |
| `DigitFeatures.HeadRow` | run_head_model.py:52-53 | four 0/1 entries; entry `i` is 1 exactly when some number of the draw has `n // 10 == i` |
| `DigitFeatures.IndicatorRowSum` | run_head_model.py:53 | a row has as many ones as there are distinct keys below its width |
| `DigitFeatures.TailRowSum` | run_tail_model.py:52-53 | a tail row has as many ones as the draw has distinct last digits |
| `DigitFeatures.BuildDataset` | modules_predict.py:31-36 | `max(0, len - lookback)` samples; sample `k` is the flattening of rows `k .. k+lookback-1`, and its label is row `k + lookback` (the same behaviour as run_head_model.py:58-63 and run_tail_model.py:58-63) |
| `DigitFeatures.WindowEntry` | modules_predict.py:34 | entry `r * w + c` of a window is column `c` of row `k + r` |
| `DigitFeatures.ThresholdLabels` | modules_predict.py:49 | exactly the indices whose positive probability is at least the threshold, in ascending order |
| `DigitFeatures.PredictNextLabels` | run_head_model.py:69-73 | the loop returns the threshold labels (the same behaviour as run_tail_model.py:69-74) |
| `DigitFeatures.Where` | modules_predict.py:52 | a range filter gives exactly the numbers in range that pass, in ascending order |
| `DigitFeatures.Group` | run_head_model.py:77 | the numbers 1 … 39 with a given key, in ascending order |
| `DigitFeatures.ByKeys` | run_head_model.py:77-78 | the candidates are exactly the numbers 1 … 39 whose key is among the predicted keys |
| `DigitFeatures.ByKeysDistinct` | run_tail_model.py:79-80 | predicted keys without repeats give candidates without repeats |
| `DigitFeatures.Frequency` | run_head_model.py:79 | `Counter(n for draw in draws for n in draw)`: a number has a positive count exactly when it occurs in some draw (the same behaviour as run_tail_model.py:81 and modules_predict.py:53) |
| `DigitFeatures.BuildWeightedPool` | run_head_model.py:80-83 | the weighting loop builds each candidate repeated `freq + 1` times, in candidate order (the same behaviour as run_tail_model.py:82-85) |
| `DigitFeatures.WeightedPoolCount` | run_tail_model.py:82-85 | a number occurs in the pool (times it is a candidate) × (its frequency + 1) times |
| `DigitFeatures.RepeatCount` | run_tail_model.py:85 | `[num] * weight` holds `num` exactly `weight` times and nothing else |
| `DigitFeatures.WeightedPoolElems` | run_tail_model.py:82-86 | every weight is at least 1, so the pool's distinct numbers are exactly the candidates |
| `DigitFeatures.Dedup` | run_tail_model.py:86 | `list(set(pool))` lists every distinct pool number once |
| `DigitFeatures.DrawSorted` | modules_predict.py:55 | a draw without replacement, then sorted, gives `size` distinct population members in strictly increasing order |
| `DigitFeatures.SelectFromPool` | run_tail_model.py:86 | the selection is strictly increasing, drawn from the pool, and has `min(top_n, distinct pool size)` numbers |
| `Predict.BuildMatrix` | modules_predict.py:23-29 | tail mode gives one 10-entry indicator row per draw; head mode gives one 4-entry row per draw; any other mode is a ValueError |
| `Predict.HighNumbersSetNoHeadBit` | modules_predict.py:26-27 | numbers of 40 or more set no head bit |
| `Predict.Candidates` | modules_predict.py:52 | exactly the numbers 1 … 39 whose last digit is a predicted tail and whose tens digit is a predicted head, in ascending order |
| `Predict.SelectNumbers` | modules_predict.py:51-56 | the selection is strictly increasing and made of candidates, and has `min(top_n, number of candidates)` numbers |
| `HeadModel.BuildHeadMatrix` | run_head_model.py:49-55 | one head row per draw, in draw order |
| `HeadModel.SelectNumbersFromHeads` | run_head_model.py:76-85 | the selection is strictly increasing; every number is in 1 … 39 with a predicted tens digit; it has `min(top_n, distinct candidates)` numbers, which is `min(top_n, candidates)` when the predicted heads do not repeat |
| `TailModel.BuildTailMatrix` | run_tail_model.py:49-55 | one tail row per draw, in draw order |
| `TailModel.TailGroup` | run_tail_model.py:79 | tail 0 gives 10, 20, 30; tail `t` in 1 … 9 gives `t`, `t+10`, `t+20`, `t+30` |
| `TailModel.EndingIn` | run_tail_model.py:79 | the explicit list of numbers ending in `t` is strictly increasing |
| `TailModel.EndingInMembers` | run_tail_model.py:79 | a number is in 1 … 39 and ends in `t` exactly when it is in that explicit list |
| `TailModel.SameTailElems` | run_tail_model.py:79 | the filtered range and the explicit list hold the same numbers |
| `TailModel.SelectNumbersFromTails` | run_tail_model.py:78-87 | the selection is strictly increasing; every number is in 1 … 39 with a predicted last digit; it has `min(top_n, distinct candidates)` numbers, which is `min(top_n, candidates)` when the predicted tails do not repeat |
| `Parser.DigitChar` | modules_update_features.py:19 | the character written for a digit value reads back as that value |
| `Parser.DigitPrefix` | parser.py:7 | the longest run of digits at the front: all digits, followed by a non-digit or the end |
| `Parser.Runs` | parser.py:7 | every run found is a non-empty string of digits |
| `Parser.RunsAreMaximal` | parser.py:7 | the runs hold exactly the string's digits, in order; there is one run per place where a run of digits starts; and there are positions, one per run, at which each run sits with no digit just before or after it, each run ending before the next one starts. So the runs are the maximal runs of digits, each once, left to right |
| `Parser.RunsPlaced` | parser.py:7 | run `i` sits in the string at the `i`-th run position, with a non-digit or an end of the string on both sides |
| `Parser.RunsSeparated` | parser.py:7 | the runs come left to right: each ends strictly before the next begins |
| `Parser.DigitsOfAppend` | parser.py:7 | the digits of a concatenation are the digits of each part |
| `Parser.DigitsOfAllDigits` | parser.py:7 | a string of digits is its own digits |
| `Parser.StartsInsideRun` | parser.py:7 | a leading run of digits counts as one run start, and counting resumes after it |
| `Parser.DigitRunStarts` | parser.py:7 | inside a run, no new run starts until a non-digit |
| `Parser.ParseNumbersSafely` | parser.py:4-7 | a non-string gives `[]`; a string gives one number per run of digits, left to right, each the run's decimal value; `Parser.RunsAreMaximal` shows those runs are the maximal ones, in their order in the string |
| `Parser.NoDigitsNoNumbers` | parser.py:7 | a string without digits gives `[]` |
| `Parser.MinusSignIgnored` | parser.py:7 | "-3" reads as `[3]`: the sign is not part of a digit run (that no result is negative comes from the result type, a list of naturals) |
| `Parser.LeadingZerosVanish` | parser.py:7 | "007" reads as 7 |
| `Parser.ValueOf` | parser.py:7 | `int(run)` of a digit run; a leading zero does not change the value |
| `Parser.JoinComma` | modules_update_features.py:19 | `",".join(map(str, ns))` is empty exactly when there are no numbers, and holds only digits and commas |
| `Parser.NatToString` | modules_update_features.py:19 | `str(n)` is a non-empty string of digits with no leading zero, whose decimal value is `n` |
| `Parser.RunsOfJoin` | modules_update_features.py:19 | the comma-joined string has exactly one run per number, the number's decimal string |
| `Parser.RunOfNumber` | parser.py:7 | a run of digits followed by a non-digit or the end is read as one run, and reading resumes after it |
| `Parser.PrefixLength` | parser.py:7 | the leading run is exactly as long as the front digits |
| `Parser.ParseJoinRoundTrip` | modules_update_features.py:19 | parsing the comma-joined decimal strings of non-negative numbers returns those numbers |

## Left out

- Profit and break-even simulators (auto_column_optimizer.py:217-332, strategy_simulator.py): they use float multipliers, `round()` and `random.random()`.
- `suggest_column_count` (auto_column_optimizer.py:83-97): it rests on pandas' floating-point `.std()`.
- sqlite backtests and loaders, `load_draws`, the CSV/database writer apart from its number-string format, and `save_selection`: these are I/O.
- Module-level side effects: the CSV read at betting_strategy_engine.py:12 and the script body at auto_column_optimizer.py:371-400. The model takes tables and score maps as parameters instead.
- `simulate_column_betting_with_custom_columns` and the other functions of auto_column_optimizer.py not named above: they are simulation or display code.
- `display_betting_summary` and every `print`, including the progress messages inside `generate_column_combinations`: these are output only.
- Model training, `fit`, `predict_proba`, `joblib` and the trained classifier: the positive-class probabilities are an input sequence. A classifier that saw only one class, where `prob[0][1]` would raise IndexError, is not modelled.
- `matrix[-lookback:]`, the input window passed to the classifier: it only feeds the classifier.
- `DigitFeatures.DrawSorted`: which numbers `np.random.choice` draws is not modelled, only the properties every draw has. Any admissible draw is picked.
- `Ranking.RankOrder`: pandas' default sort is not stable, and the order it gives tied scores is not specified. The operations use the stable order, which is one order the library may produce. `BettingStrategyEngine.SplitOfAnyRanking` states the split's properties for every admissible order, but the search and the plans are stated for the stable order only.
- `BettingEngine.SimulateBetting`, `BettingStrategyEngine.AutoSplitColumns`: pandas' `iterrows` (betting_strategy_engine.py:64, modules_betting_engine.py:15) turns an integer number column into floats when the table holds float columns. The model keeps numbers as integers.
- Floats are exact `real`s: rounding and float equality are not modelled. `compute_average_combo_score` returns the integer `0` on no combinations, modelled as `0.0`.
- `stars`, `lookback` and the selectors' `top_n` are natural numbers; what Python does with negative values is not modelled:
  - a negative `stars` makes `itertools.combinations` raise ValueError;
  - a negative `lookback` starts the window loop below 0, so Python's negative indexing gives shifted windows (for -2, the first sample is `matrix[0:-2]` labelled `matrix[-2]`);
  - a negative `top_n` makes the sample size negative, which `np.random.choice` rejects with ValueError.
  `simulate_betting`'s `top_n` is an integer: a negative value drops rows, as `head` does.
- `Parser.ParseNumbersSafely`, `Parser.NatToString`, `Parser.ParseJoinRoundTrip`: CPython 3.11 and later limit integer-string conversion to 4300 digits by default (`sys.int_info.default_max_str_digits`). `int(run)` raises ValueError on a longer digit run, and so does `str(n)` on a number with more digits. The model converts numbers of any length, so the parse and the round trip are stated without that limit. Draw numbers have at most two digits.
- `Parser.Runs`: `\d` is matched as the ASCII digits `0`–`9`. Python's `re` also accepts other Unicode decimal digits.
- The writer sorts the drawn-number set before joining (modules_update_features.py:19). The round trip is stated for any list of non-negative numbers, which includes the sorted one.
