/** The betting strategy engine: linked and column enumeration without
    de-duplication, pricing and scoring against the feature table, the
    score-ranked split into columns, plan dispatch, and the search for the
    column count with the best average score. */
module BettingStrategyEngine {
  import opened Outcomes
  import opened Seqs
  import opened Combinatorics
  import opened Partition
  import opened Pricing
  import opened Ranking

  /** The default price of one combination. */
  const UnitCost := 50

  /** `generate_linked_combinations`: every choice of `stars` of the
      numbers, keeping their order; C(n, stars) of them, none when there are
      fewer than `stars` numbers. */
  function GenerateLinkedCombinations(numbers: seq<int>, stars: nat): (combos: seq<seq<int>>)
    ensures |combos| == Binomial(|numbers|, stars)
    ensures stars > |numbers| ==> combos == []
    ensures forall c | c in combos :: |c| == stars && IsSubsequence(c, numbers)
  {
    ChooseCount(numbers, stars);
    assert forall c | c in Choose(numbers, stars) :: |c| == stars && IsSubsequence(c, numbers) by {
      forall c | c in Choose(numbers, stars) ensures |c| == stars && IsSubsequence(c, numbers) {
        ChooseMembership(numbers, stars, c);
      }
    }
    Choose(numbers, stars)
  }

  /** `generate_column_combinations`: for each choice of `stars` columns,
      in order, the product tuples whose entries are pairwise distinct are
      appended as they are, neither sorted nor de-duplicated. */
  method GenerateColumnCombinations(columns: seq<seq<int>>, stars: nat) returns (combos: seq<seq<int>>)
    ensures combos == ColumnCombos(columns, stars)
    ensures forall t | t in combos :: |t| == stars && Distinct(t)
    ensures stars > |columns| ==> combos == []
  {
    combos := [];
    var subsets := Choose(columns, stars);
    var i := 0;
    while i < |subsets|
      invariant 0 <= i <= |subsets|
      invariant combos == ColumnCombosOf(subsets[..i], stars)
    {
      var valid := KeepDistinct(Product(subsets[i]), stars);
      combos := combos + valid;
      assert subsets[..i + 1][..i] == subsets[..i];
      i := i + 1;
    }
    assert subsets[..i] == subsets;
    forall t | t in combos ensures |t| == stars && Distinct(t) {
      ColumnCombosMembership(columns, stars, t);
    }
    if stars > |columns| {
      ChooseCount(columns, stars);
    }
  }

  /** The score of a number in the feature table: its last row's score, or
      0 when no row carries it. */
  function TableScore(rows: seq<Row>): int -> real {
    var m := ScoreMap(rows);
    x => ItemScore(m, x)
  }

  /** `compute_average_combo_score`: the mean over combinations of each
      combination's mean table score. */
  function AverageComboScore(rows: seq<Row>, combos: seq<seq<int>>): (r: Result<real>)
    ensures r.Err? <==> [] in combos
    ensures r.Err? ==> r.error == ZeroDivisionError
    ensures combos == [] ==> r == Ok(0.0)
  {
    MeanComboScore(combos, TableScore(rows))
  }

  /** The average lies between the lowest and the highest table score of
      the numbers used. */
  lemma AverageComboScoreBounds(rows: seq<Row>, combos: seq<seq<int>>, lo: real, hi: real)
    requires forall i, j | 0 <= i < |combos| && 0 <= j < |combos[i]| ::
      lo <= ItemScore(ScoreMap(rows), combos[i][j]) <= hi
    ensures AverageComboScore(rows, combos).Ok? && combos != [] ==>
      lo <= AverageComboScore(rows, combos).value <= hi
  {
    MeanComboScoreBounds(combos, TableScore(rows), lo, hi);
  }

  /** `compute_column_score`: one value per column, its mean table score,
      or 0 for an empty column. */
  function ComputeColumnScore(rows: seq<Row>, columns: seq<seq<int>>): (r: seq<real>)
    ensures |r| == |columns|
    ensures forall c | 0 <= c < |columns| && columns[c] == [] :: r[c] == 0.0
    ensures forall c | 0 <= c < |columns| && columns[c] != [] ::
      r[c] == SumScores(columns[c], TableScore(rows)) / |columns[c]| as real
  {
    seq(|columns|, c requires 0 <= c < |columns| =>
      if columns[c] == [] then 0.0 else ComboScore(columns[c], TableScore(rows)))
  }

  /** A non-empty column scores between the lowest and the highest table
      score of its numbers. */
  lemma ColumnScoreBounds(rows: seq<Row>, columns: seq<seq<int>>, c: nat, lo: real, hi: real)
    requires c < |columns| && columns[c] != []
    requires forall j | 0 <= j < |columns[c]| :: lo <= ItemScore(ScoreMap(rows), columns[c][j]) <= hi
    ensures lo <= ComputeColumnScore(rows, columns)[c] <= hi
  {
    SumScoresBounds(columns[c], TableScore(rows), lo, hi);
    MeanBounds(SumScores(columns[c], TableScore(rows)), |columns[c]|, lo, hi);
  }

  /** The columns `auto_split_columns` builds: the numbers in ranking
      order, dealt round-robin. */
  function RankedColumns(rows: seq<Row>, numColumns: nat): (cols: seq<seq<int>>)
    requires numColumns > 0
    ensures |cols| == numColumns
  {
    RoundRobin(Numbers(RankOrder(rows)), numColumns)
  }

  /** `auto_split_columns`: rank `i` of the score ranking goes to column
      `i % numColumns`; together the columns hold exactly the rows'
      numbers. */
  method AutoSplitColumns(rows: seq<Row>, numColumns: int) returns (r: Result<seq<seq<int>>>)
    ensures numColumns <= 0 && rows == [] ==> r == Ok([])
    ensures numColumns == 0 && rows != [] ==> r == Err(ZeroDivisionError)
    ensures numColumns < 0 && rows != [] ==> r == Err(IndexError)
    ensures numColumns > 0 ==> r == Ok(RankedColumns(rows, numColumns))
    ensures numColumns > 0 ==> multiset(Flatten(r.value)) == multiset(Numbers(rows))
    ensures numColumns > 0 ==> forall c | 0 <= c < numColumns ::
      |r.value[c]| == ColumnSize(|rows|, numColumns, c)
  {
    var ranked := RankOrder(rows);
    r := Deal(Numbers(ranked), numColumns);
    if numColumns > 0 {
      RankOrderNumbers(rows);
      RoundRobinPermutation(Numbers(ranked), numColumns);
      RoundRobinSizes(Numbers(ranked), numColumns);
      assert |ranked| == |multiset(ranked)| == |rows|;
    }
  }

  /** Place `j` of column `c` holds the number of rank `c + j * n`: rank
      `i` sits in column `i % n` at place `i / n`. */
  lemma RankedColumnsLayout(rows: seq<Row>, n: nat, c: nat, j: nat)
    requires n > 0 && c < n && j < |RankedColumns(rows, n)[c]|
    ensures c + j * n < |RankOrder(rows)|
    ensures RankedColumns(rows, n)[c][j] == RankOrder(rows)[c + j * n].number
  {
    var ranked := RankOrder(rows);
    ColumnEntry(Numbers(ranked), n, c, j);
    NumberAt(ranked, c + j * n);
  }

  /** The split does not depend on how ties are ordered: for every ranking
      of the rows by score, highest first, dealing its numbers round-robin
      gives `numColumns` columns that hold exactly the rows' numbers, with
      round-robin sizes, and place `j` of column `c` holds the number of
      rank `c + j * numColumns`. */
  lemma SplitOfAnyRanking(rows: seq<Row>, ranked: seq<Row>, numColumns: nat)
    requires numColumns > 0
    requires NonIncreasing(ranked) && multiset(ranked) == multiset(rows)
    ensures multiset(Flatten(RoundRobin(Numbers(ranked), numColumns))) == multiset(Numbers(rows))
    ensures forall c | 0 <= c < numColumns ::
      |RoundRobin(Numbers(ranked), numColumns)[c]| == ColumnSize(|rows|, numColumns, c)
    ensures DealtByRank(RoundRobin(Numbers(ranked), numColumns), ranked, numColumns)
  {
    SplitKeepsNumbers(rows, ranked, numColumns);
    SplitLayout(ranked, numColumns);
  }

  lemma SplitKeepsNumbers(rows: seq<Row>, ranked: seq<Row>, n: nat)
    requires n > 0 && multiset(ranked) == multiset(rows)
    ensures multiset(Flatten(RoundRobin(Numbers(ranked), n))) == multiset(Numbers(rows))
    ensures forall c | 0 <= c < n :: |RoundRobin(Numbers(ranked), n)[c]| == ColumnSize(|rows|, n, c)
  {
    NumbersPermutation(ranked, rows);
    RoundRobinPermutation(Numbers(ranked), n);
    RoundRobinSizes(Numbers(ranked), n);
    assert |ranked| == |multiset(ranked)| == |rows|;
  }

  /** Place `j` of column `c` holds the number of rank `c + j * n`. */
  predicate DealtByRank(cols: seq<seq<int>>, ranked: seq<Row>, n: nat) {
    forall c, j | 0 <= c < |cols| && 0 <= j < |cols[c]| ::
      c + j * n < |ranked| && cols[c][j] == ranked[c + j * n].number
  }

  lemma SplitLayout(ranked: seq<Row>, n: nat)
    requires n > 0
    ensures DealtByRank(RoundRobin(Numbers(ranked), n), ranked, n)
  {
    var cols := RoundRobin(Numbers(ranked), n);
    forall c, j | 0 <= c < |cols| && 0 <= j < |cols[c]|
      ensures c + j * n < |ranked| && cols[c][j] == ranked[c + j * n].number
    {
      RankAt(ranked, n, c, j);
    }
  }

  /** Place `j` of column `c` of a dealt ranking holds rank `c + j * n`. */
  lemma RankAt(ranked: seq<Row>, n: nat, c: nat, j: nat)
    requires n > 0 && c < n && j < |RoundRobin(Numbers(ranked), n)[c]|
    ensures c + j * n < |ranked| && RoundRobin(Numbers(ranked), n)[c][j] == ranked[c + j * n].number
  {
    ColumnEntry(Numbers(ranked), n, c, j);
    NumberAt(ranked, c + j * n);
  }

  /** The ranking the model uses is one of those rankings. */
  lemma RankOrderIsARanking(rows: seq<Row>)
    ensures NonIncreasing(RankOrder(rows)) && multiset(RankOrder(rows)) == multiset(rows)
  {
    RankOrderSorted(rows);
  }

  /** `generate_betting_plan`: linked mode needs a non-empty list of
      numbers, column mode a non-empty list of at least `stars` columns, and
      any other mode is refused. */
  method GenerateBettingPlan(selectedNumbers: Option<seq<int>>, stars: nat, mode: string,
                             columns: Option<seq<seq<int>>>, unitCost: int) returns (r: Result<Plan>)
    ensures mode == "linked" && (selectedNumbers == None || selectedNumbers.value == []) ==>
      r == Err(ValueError)
    ensures mode == "linked" && selectedNumbers.Some? && selectedNumbers.value != [] ==>
      r.Ok? && r.value.combos == Choose(selectedNumbers.value, stars) &&
      r.value.totalCombos == Binomial(|selectedNumbers.value|, stars)
    ensures mode == "column" && (columns == None || columns.value == [] || |columns.value| < stars) ==>
      r == Err(ValueError)
    ensures mode == "column" && columns.Some? && columns.value != [] && |columns.value| >= stars ==>
      r.Ok? && r.value.combos == ColumnCombos(columns.value, stars)
    ensures mode != "linked" && mode != "column" ==> r == Err(ValueError)
    ensures r.Ok? ==> Priced(r.value, unitCost)
  {
    var combos;
    if mode == "linked" {
      if selectedNumbers == None || selectedNumbers.value == [] {
        return Err(ValueError);
      }
      combos := GenerateLinkedCombinations(selectedNumbers.value, stars);
    } else if mode == "column" {
      if columns == None || columns.value == [] || |columns.value| < stars {
        return Err(ValueError);
      }
      combos := GenerateColumnCombinations(columns.value, stars);
    } else {
      return Err(ValueError);
    }
    r := Ok(CostAndStats(combos, unitCost));
  }

  /** The average score of the column combinations for one column count:
      columns from the ranking of `splitRows`, scores from `scoreRows`. */
  function CandidateScore(scoreRows: seq<Row>, splitRows: seq<Row>, n: nat, stars: nat): Result<real>
    requires n > 0
  {
    AverageComboScore(scoreRows, ColumnCombos(RankedColumns(splitRows, n), stars))
  }

  /** Every candidate has a score unless `stars` is 0, where the one empty
      combination makes the average divide by zero. */
  lemma CandidateScoreDefined(scoreRows: seq<Row>, splitRows: seq<Row>, n: nat, stars: nat)
    requires n > 0
    ensures CandidateScore(scoreRows, splitRows, n, stars).Err? <==> stars == 0
  {
    var cols := RankedColumns(splitRows, n);
    ColumnCombosMembership(cols, stars, []);
    if stars == 0 {
      var sel: seq<seq<int>> := [];
      assert IsSubsequence(sel, cols);
    }
  }

  /** Fewer columns than `stars` give no combinations, hence the score 0. */
  lemma CandidateBelowStars(scoreRows: seq<Row>, splitRows: seq<Row>, n: nat, stars: nat)
    requires 0 < n < stars
    ensures ColumnCombos(RankedColumns(splitRows, n), stars) == []
    ensures CandidateScore(scoreRows, splitRows, n, stars) == Ok(0.0)
  {
    ChooseCount(RankedColumns(splitRows, n), stars);
  }

  /** The outcome of the search over column counts. */
  datatype Best = Best(count: int, columns: seq<seq<int>>, combos: seq<seq<int>>, score: real)

  /** What the search holds after trying 3, 4, ..., `upTo` columns: a
      candidate replaces the best so far only when its score is strictly
      greater, and the first undefined score ends the search. */
  function Search(scoreRows: seq<Row>, splitRows: seq<Row>, upTo: int, stars: nat): (r: Result<Best>)
    ensures r.Err? ==> r.error == ZeroDivisionError
    decreases upTo
  {
    if upTo < 3 then Ok(Best(0, [], [], -1.0))
    else
      match Search(scoreRows, splitRows, upTo - 1, stars)
      case Err(e) => Err(e)
      case Ok(b) =>
        var s := CandidateScore(scoreRows, splitRows, upTo, stars);
        if s.Err? then Err(s.error)
        else
          var cols := RankedColumns(splitRows, upTo);
          Ok(if s.value > b.score then Best(upTo, cols, ColumnCombos(cols, stars), s.value) else b)
  }

  /** Every candidate score from 3 to `hi` columns is defined and at most `bound`. */
  predicate ScoredAtMost(scoreRows: seq<Row>, splitRows: seq<Row>, lo: int, hi: int, stars: nat, bound: real) {
    forall m: nat | 3 <= lo <= m <= hi ::
      CandidateScore(scoreRows, splitRows, m, stars).Ok? &&
      CandidateScore(scoreRows, splitRows, m, stars).value <= bound
  }

  /** Every candidate score from `lo` to `hi` columns is defined and below `bound`. */
  predicate ScoredBelow(scoreRows: seq<Row>, splitRows: seq<Row>, lo: int, hi: int, stars: nat, bound: real) {
    forall m: nat | 3 <= lo <= m <= hi ::
      CandidateScore(scoreRows, splitRows, m, stars).Ok? &&
      CandidateScore(scoreRows, splitRows, m, stars).value < bound
  }

  /** The search's answer is the first column count in `3 .. maxColumns`
      whose score is above -1 and above every earlier one, and no later
      one beats it; it is `(0, [], [], -1)` when no score is above -1. */
  predicate FirstBest(scoreRows: seq<Row>, splitRows: seq<Row>, maxColumns: int, stars: nat, b: Best) {
    if b.count == 0 then
      b == Best(0, [], [], -1.0) && ScoredAtMost(scoreRows, splitRows, 3, maxColumns, stars, -1.0)
    else
      3 <= b.count <= maxColumns &&
      b.columns == RankedColumns(splitRows, b.count) &&
      b.combos == ColumnCombos(b.columns, stars) &&
      CandidateScore(scoreRows, splitRows, b.count, stars) == Ok(b.score) &&
      b.score > -1.0 &&
      ScoredBelow(scoreRows, splitRows, 3, b.count - 1, stars, b.score) &&
      ScoredAtMost(scoreRows, splitRows, b.count + 1, maxColumns, stars, b.score)
  }

  /** The search fails exactly when `stars` is 0 and some count is tried;
      otherwise its answer is the first best count. */
  lemma {:induction false} SearchFindsFirstBest(scoreRows: seq<Row>, splitRows: seq<Row>, upTo: int, stars: nat)
    ensures Search(scoreRows, splitRows, upTo, stars).Err? <==> stars == 0 && upTo >= 3
    ensures Search(scoreRows, splitRows, upTo, stars).Err? ==>
      Search(scoreRows, splitRows, upTo, stars).error == ZeroDivisionError
    ensures Search(scoreRows, splitRows, upTo, stars).Ok? ==>
      FirstBest(scoreRows, splitRows, upTo, stars, Search(scoreRows, splitRows, upTo, stars).value)
    decreases upTo
  {
    if upTo >= 3 {
      SearchFindsFirstBest(scoreRows, splitRows, upTo - 1, stars);
      CandidateScoreDefined(scoreRows, splitRows, upTo, stars);
      var prev := Search(scoreRows, splitRows, upTo - 1, stars);
      if prev.Ok? && stars > 0 {
        FirstBestStep(scoreRows, splitRows, upTo, stars, prev.value);
      }
    }
  }

  /** Trying one more count keeps the answer the first best one. */
  lemma FirstBestStep(scoreRows: seq<Row>, splitRows: seq<Row>, n: int, stars: nat, b: Best)
    requires n >= 3
    requires FirstBest(scoreRows, splitRows, n - 1, stars, b)
    requires CandidateScore(scoreRows, splitRows, n, stars).Ok?
    ensures var s := CandidateScore(scoreRows, splitRows, n, stars).value;
      var cols := RankedColumns(splitRows, n);
      FirstBest(scoreRows, splitRows, n, stars,
        if s > b.score then Best(n, cols, ColumnCombos(cols, stars), s) else b)
  {
    var s := CandidateScore(scoreRows, splitRows, n, stars).value;
    if s > b.score {
      FirstBestReplace(scoreRows, splitRows, n, stars, b);
    } else {
      FirstBestKeep(scoreRows, splitRows, n, stars, b);
    }
  }

  lemma FirstBestKeep(scoreRows: seq<Row>, splitRows: seq<Row>, n: int, stars: nat, b: Best)
    requires n >= 3
    requires FirstBest(scoreRows, splitRows, n - 1, stars, b)
    requires CandidateScore(scoreRows, splitRows, n, stars).Ok?
    requires CandidateScore(scoreRows, splitRows, n, stars).value <= b.score
    ensures FirstBest(scoreRows, splitRows, n, stars, b)
  {
    ExtendAtMost(scoreRows, splitRows, if b.count == 0 then 3 else b.count + 1, n, stars, b.score);
  }

  lemma ExtendAtMost(scoreRows: seq<Row>, splitRows: seq<Row>, lo: int, hi: nat, stars: nat, bound: real)
    requires 3 <= lo <= hi
    requires ScoredAtMost(scoreRows, splitRows, lo, hi - 1, stars, bound)
    requires CandidateScore(scoreRows, splitRows, hi, stars).Ok?
    requires CandidateScore(scoreRows, splitRows, hi, stars).value <= bound
    ensures ScoredAtMost(scoreRows, splitRows, lo, hi, stars, bound)
  {
  }

  lemma FirstBestReplace(scoreRows: seq<Row>, splitRows: seq<Row>, n: int, stars: nat, b: Best)
    requires n >= 3
    requires FirstBest(scoreRows, splitRows, n - 1, stars, b)
    requires CandidateScore(scoreRows, splitRows, n, stars).Ok?
    requires CandidateScore(scoreRows, splitRows, n, stars).value > b.score
    ensures var s := CandidateScore(scoreRows, splitRows, n, stars).value;
      var cols := RankedColumns(splitRows, n);
      FirstBest(scoreRows, splitRows, n, stars, Best(n, cols, ColumnCombos(cols, stars), s))
  {
    BeatsAllBefore(scoreRows, splitRows, n, stars, b, CandidateScore(scoreRows, splitRows, n, stars).value);
  }

  /** A score above the best so far is above -1 and above every earlier
      candidate's score. */
  lemma BeatsAllBefore(scoreRows: seq<Row>, splitRows: seq<Row>, n: int, stars: nat, b: Best, s: real)
    requires n >= 3
    requires FirstBest(scoreRows, splitRows, n - 1, stars, b)
    requires s > b.score
    ensures s > -1.0 && ScoredBelow(scoreRows, splitRows, 3, n - 1, stars, s)
  {
    if b.count == 0 {
      StretchBelow(scoreRows, splitRows, 3, n - 1, stars, -1.0, s);
    } else {
      StretchBelow(scoreRows, splitRows, b.count + 1, n - 1, stars, b.score, s);
      RaiseBelow(scoreRows, splitRows, 3, b.count - 1, stars, b.score, s);
      JoinBelow(scoreRows, splitRows, 3, b.count, n - 1, stars, s);
    }
  }

  lemma RaiseBelow(scoreRows: seq<Row>, splitRows: seq<Row>, lo: int, hi: int, stars: nat, bound: real, s: real)
    requires ScoredBelow(scoreRows, splitRows, lo, hi, stars, bound) && bound <= s
    ensures ScoredBelow(scoreRows, splitRows, lo, hi, stars, s)
  {
  }

  lemma JoinBelow(scoreRows: seq<Row>, splitRows: seq<Row>, lo: int, mid: nat, hi: int, stars: nat, s: real)
    requires 3 <= lo <= mid <= hi + 1
    requires ScoredBelow(scoreRows, splitRows, lo, mid - 1, stars, s)
    requires CandidateScore(scoreRows, splitRows, mid, stars).Ok?
    requires CandidateScore(scoreRows, splitRows, mid, stars).value < s
    requires ScoredBelow(scoreRows, splitRows, mid + 1, hi, stars, s)
    ensures ScoredBelow(scoreRows, splitRows, lo, hi, stars, s)
  {
  }

  lemma StretchBelow(scoreRows: seq<Row>, splitRows: seq<Row>, lo: int, hi: int, stars: nat, bound: real, s: real)
    requires ScoredAtMost(scoreRows, splitRows, lo, hi, stars, bound) && bound < s
    ensures ScoredBelow(scoreRows, splitRows, lo, hi, stars, s)
  {
  }

  /** The loop of `find_best_column_strategy` (and of `simulate_betting`):
      tries 3, 4, ..., `maxColumns` columns and keeps a candidate only when
      its score is strictly greater than the best so far, starting from -1. */
  method SearchColumnCounts(scoreRows: seq<Row>, splitRows: seq<Row>, maxColumns: int, stars: nat)
    returns (r: Result<Best>)
    ensures r == Search(scoreRows, splitRows, maxColumns, stars)
    ensures r.Err? <==> stars == 0 && maxColumns >= 3
    ensures r.Err? ==> r.error == ZeroDivisionError
    ensures r.Ok? ==> FirstBest(scoreRows, splitRows, maxColumns, stars, r.value)
  {
    r := Ok(Best(0, [], [], -1.0));
    var n := 3;
    while n <= maxColumns
      invariant 3 <= n <= if maxColumns >= 3 then maxColumns + 1 else 3
      invariant r.Ok? && r == Search(scoreRows, splitRows, n - 1, stars)
    {
      r := KeepIfBetter(scoreRows, splitRows, n, stars, r.value);
      if r.Err? {
        SearchStopsOnError(scoreRows, splitRows, n, maxColumns, stars);
        SearchFindsFirstBest(scoreRows, splitRows, maxColumns, stars);
        return;
      }
      n := n + 1;
    }
    if maxColumns < 3 {
      SearchBeforeThree(scoreRows, splitRows, n - 1, stars);
      SearchBeforeThree(scoreRows, splitRows, maxColumns, stars);
    }
    SearchFindsFirstBest(scoreRows, splitRows, maxColumns, stars);
  }

  /** Before any count is tried the search holds `(0, [], [], -1)`. */
  lemma SearchBeforeThree(scoreRows: seq<Row>, splitRows: seq<Row>, upTo: int, stars: nat)
    requires upTo < 3
    ensures Search(scoreRows, splitRows, upTo, stars) == Ok(Best(0, [], [], -1.0))
  {
  }

  /** One round of the loop: the candidate with `n` columns replaces the
      best so far when its score is strictly greater. */
  method KeepIfBetter(scoreRows: seq<Row>, splitRows: seq<Row>, n: int, stars: nat, best: Best)
    returns (next: Result<Best>)
    requires n >= 3
    requires Search(scoreRows, splitRows, n - 1, stars) == Ok(best)
    ensures next == Search(scoreRows, splitRows, n, stars)
  {
    var columns, combos, avg := TryColumnCount(scoreRows, splitRows, n, stars);
    SearchNext(scoreRows, splitRows, n, stars, best);
    if avg.Err? {
      return Err(avg.error);
    }
    if avg.value > best.score {
      next := Ok(Best(n, columns, combos, avg.value));
    } else {
      next := Ok(best);
    }
  }

  /** Split, enumerate and score for one column count. */
  method TryColumnCount(scoreRows: seq<Row>, splitRows: seq<Row>, n: nat, stars: nat)
    returns (columns: seq<seq<int>>, combos: seq<seq<int>>, avg: Result<real>)
    requires n > 0
    ensures columns == RankedColumns(splitRows, n)
    ensures combos == ColumnCombos(columns, stars)
    ensures avg == CandidateScore(scoreRows, splitRows, n, stars)
  {
    var split := AutoSplitColumns(splitRows, n);
    columns := split.value;
    combos := GenerateColumnCombinations(columns, stars);
    avg := AverageComboScore(scoreRows, combos);
  }

  lemma SearchNext(scoreRows: seq<Row>, splitRows: seq<Row>, n: int, stars: nat, b: Best)
    requires n >= 3
    requires Search(scoreRows, splitRows, n - 1, stars) == Ok(b)
    ensures var s := CandidateScore(scoreRows, splitRows, n, stars);
      Search(scoreRows, splitRows, n, stars) ==
        if s.Err? then Err(s.error)
        else
          var cols := RankedColumns(splitRows, n);
          Ok(if s.value > b.score then Best(n, cols, ColumnCombos(cols, stars), s.value) else b)
  {
  }

  /** Once the search has failed it stays failed. */
  lemma {:induction false} SearchStopsOnError(scoreRows: seq<Row>, splitRows: seq<Row>, n: int, upTo: int, stars: nat)
    requires n <= upTo
    requires Search(scoreRows, splitRows, n, stars).Err?
    ensures Search(scoreRows, splitRows, upTo, stars) == Search(scoreRows, splitRows, n, stars)
    decreases upTo - n
  {
    if n < upTo {
      SearchStopsOnError(scoreRows, splitRows, n, upTo - 1, stars);
      SearchAfterError(scoreRows, splitRows, upTo, stars);
    }
  }

  lemma SearchAfterError(scoreRows: seq<Row>, splitRows: seq<Row>, upTo: int, stars: nat)
    requires Search(scoreRows, splitRows, upTo - 1, stars).Err?
    ensures Search(scoreRows, splitRows, upTo, stars) == Search(scoreRows, splitRows, upTo - 1, stars)
  {
  }

  /** `find_best_column_strategy(df, max_columns, stars)`: the same table
      gives both the ranking and the scores. */
  method FindBestColumnStrategy(rows: seq<Row>, maxColumns: int, stars: nat)
    returns (r: Result<(int, seq<seq<int>>)>)
    ensures r.Err? <==> stars == 0 && maxColumns >= 3
    ensures r.Err? ==> r.error == ZeroDivisionError
    ensures r.Ok? ==> exists b :: FirstBest(rows, rows, maxColumns, stars, b) && r.value == (b.count, b.columns)
    ensures maxColumns < 3 ==> r == Ok((0, []))
  {
    var search := SearchColumnCounts(rows, rows, maxColumns, stars);
    if search.Err? {
      return Err(search.error);
    }
    var b := search.value;
    r := Ok((b.count, b.columns));
  }

  /** A table whose scores are all at least 0 gives every defined candidate
      a score of at least 0. */
  lemma CandidateNonNegative(scoreRows: seq<Row>, splitRows: seq<Row>, n: nat, stars: nat)
    requires n > 0
    requires forall i | 0 <= i < |scoreRows| :: scoreRows[i].score >= 0.0
    requires CandidateScore(scoreRows, splitRows, n, stars).Ok?
    ensures CandidateScore(scoreRows, splitRows, n, stars).value >= 0.0
  {
    var combos := ColumnCombos(RankedColumns(splitRows, n), stars);
    forall i, j | 0 <= i < |combos| && 0 <= j < |combos[i]|
      ensures 0.0 <= ItemScore(ScoreMap(scoreRows), combos[i][j]) <= TableMax(scoreRows)
    {
      TableScoreBounds(scoreRows, combos[i][j]);
    }
    AverageComboScoreBounds(scoreRows, combos, 0.0, TableMax(scoreRows));
  }

  /** When every table score is at least 0, the first count tried already
      beats the starting value -1, so the answer is a real column count. */
  lemma NonNegativeScoresPickACount(scoreRows: seq<Row>, splitRows: seq<Row>, maxColumns: int, stars: nat, b: Best)
    requires maxColumns >= 3
    requires forall i | 0 <= i < |scoreRows| :: scoreRows[i].score >= 0.0
    requires FirstBest(scoreRows, splitRows, maxColumns, stars, b)
    ensures 3 <= b.count <= maxColumns
  {
    if b.count == 0 {
      assert CandidateScore(scoreRows, splitRows, 3, stars).Ok?;
    }
    if CandidateScore(scoreRows, splitRows, 3, stars).Ok? {
      CandidateNonNegative(scoreRows, splitRows, 3, stars);
    }
  }

  /** The largest table score, or 0 for an empty table. */
  function TableMax(rows: seq<Row>): (hi: real)
    ensures hi >= 0.0
    ensures forall i | 0 <= i < |rows| :: rows[i].score <= hi
  {
    if rows == [] then 0.0
    else
      var rest := TableMax(rows[..|rows| - 1]);
      var last := rows[|rows| - 1].score;
      if last > rest then last else rest
  }

  lemma TableScoreBounds(rows: seq<Row>, x: int)
    requires forall i | 0 <= i < |rows| :: rows[i].score >= 0.0
    ensures 0.0 <= ItemScore(ScoreMap(rows), x) <= TableMax(rows)
  {
    ScoreMapLookup(rows, x);
  }
}
