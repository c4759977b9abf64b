/** The column-betting helpers of the auto column optimizer: an ascending
    split into columns, the de-duplicated column combinations in tuple
    order, pricing, and the average score with its fallback to the numbers'
    own values. */
module AutoColumnOptimizer {
  import opened Outcomes
  import opened Seqs
  import opened Combinatorics
  import opened LexOrder
  import opened Partition
  import opened Pricing

  /** The default price of one combination. */
  const UnitCost := 50

  /** `auto_split_columns_from_numbers`: the numbers in ascending order,
      dealt round-robin into `numColumns` columns. */
  method AutoSplitColumnsFromNumbers(numbers: seq<int>, numColumns: int) returns (r: Result<seq<seq<int>>>)
    ensures numColumns <= 0 && numbers == [] ==> r == Ok([])
    ensures numColumns == 0 && numbers != [] ==> r == Err(ZeroDivisionError)
    ensures numColumns < 0 && numbers != [] ==> r == Err(IndexError)
    ensures numColumns > 0 ==> r == Ok(RoundRobin(SortAscending(numbers), numColumns))
    ensures numColumns > 0 ==> |r.value| == numColumns
    ensures numColumns > 0 ==> multiset(Flatten(r.value)) == multiset(numbers)
    ensures numColumns > 0 ==> forall c | 0 <= c < numColumns ::
      Ascending(r.value[c]) && |r.value[c]| == ColumnSize(|numbers|, numColumns, c)
  {
    var sorted := SortAscending(numbers);
    r := Deal(sorted, numColumns);
    if numColumns > 0 {
      RoundRobinPermutation(sorted, numColumns);
      RoundRobinKeepsOrder(sorted, numColumns);
      RoundRobinSizes(sorted, numColumns);
      assert |sorted| == |multiset(sorted)| == |numbers|;
    }
  }

  /** `generate_column_combinations`: for each choice of `stars` columns and
      each tuple of their product with pairwise distinct entries, the sorted
      tuple goes into a set; the set is returned in tuple order. */
  method GenerateColumnCombinations(columns: seq<seq<int>>, stars: nat) returns (combos: seq<seq<int>>)
    ensures LexSorted(combos) && Distinct(combos)
    ensures Elems(combos) == CanonicalCombos(columns, stars)
    ensures forall t | t in combos :: |t| == stars && StrictlyAscending(t)
    ensures stars > |columns| ==> combos == []
  {
    var all: set<seq<int>> := {};
    var subsets := Choose(columns, stars);
    var i := 0;
    while i < |subsets|
      invariant 0 <= i <= |subsets|
      invariant all == CanonicalCombosOf(subsets[..i], stars)
    {
      all := AddSortedDistinct(all, Product(subsets[i]), stars);
      assert subsets[..i + 1][..i] == subsets[..i];
      i := i + 1;
    }
    assert subsets[..i] == subsets;
    combos := SortSet(all);
    LexSortedDistinct(combos);
    CanonicalShape(columns, stars, combos);
    if stars > |columns| {
      ChooseCount(columns, stars);
      assert all == {};
    }
  }

  /** The inner loop: adds the sorted form of every tuple of `raw` whose
      `stars` entries are pairwise distinct. */
  method AddSortedDistinct(all: set<seq<int>>, raw: seq<seq<int>>, stars: nat) returns (r: set<seq<int>>)
    ensures r == all + CanonicalOf(raw, stars)
  {
    r := all;
    var j := 0;
    while j < |raw|
      invariant 0 <= j <= |raw|
      invariant r == all + CanonicalOf(raw[..j], stars)
    {
      var combo := raw[j];
      if |Elems(combo)| == stars {
        r := r + {SortAscending(combo)};
      }
      CanonicalOfStep(raw, j, stars);
      j := j + 1;
    }
    assert raw[..j] == raw;
  }

  lemma CanonicalOfStep(raw: seq<seq<int>>, j: nat, stars: nat)
    requires j < |raw|
    ensures CanonicalOf(raw[..j + 1], stars) ==
      CanonicalOf(raw[..j], stars) + (if |Elems(raw[j])| == stars then {SortAscending(raw[j])} else {})
  {
    assert raw[..j + 1][..j] == raw[..j];
  }

  lemma CanonicalShape(columns: seq<seq<int>>, stars: nat, combos: seq<seq<int>>)
    requires Elems(combos) == CanonicalCombos(columns, stars)
    ensures forall t | t in combos :: |t| == stars && StrictlyAscending(t)
  {
    forall t | t in combos ensures |t| == stars && StrictlyAscending(t) {
      CanonicalCombosMembership(columns, stars, t);
    }
  }

  /** A number's own value, the score used when no score table is given. */
  function OwnValue(x: int): real {
    x as real
  }

  /** `compute_average_combo_score`: with a non-empty score table each
      number scores its table entry (0 when absent); with no table or an
      empty one each number scores its own value. */
  function AverageComboScore(combos: seq<seq<int>>, scoreMap: Option<map<int, real>>): (r: Result<real>)
    ensures r.Err? <==> [] in combos
    ensures r.Err? ==> r.error == ZeroDivisionError
    ensures combos == [] ==> r == Ok(0.0)
  {
    if scoreMap.Some? && scoreMap.value != map[] then
      var m := scoreMap.value;
      MeanComboScore(combos, x => ItemScore(m, x))
    else
      MeanComboScore(combos, OwnValue)
  }

  /** An empty score table counts as no table, and without a table the
      average lies between the smallest and the largest number that occurs
      in a combination. */
  lemma AverageOwnValueBounds(combos: seq<seq<int>>, lo: int, hi: int)
    requires forall i, j | 0 <= i < |combos| && 0 <= j < |combos[i]| :: lo <= combos[i][j] <= hi
    ensures AverageComboScore(combos, Some(map[])) == AverageComboScore(combos, None)
    ensures AverageComboScore(combos, None).Ok? && combos != [] ==>
      lo as real <= AverageComboScore(combos, None).value <= hi as real
  {
    MeanComboScoreBounds(combos, OwnValue, lo as real, hi as real);
  }

  /** With a score table, the average lies between the bounds of the scores
      of the numbers used, where a number missing from the table scores 0. */
  lemma AverageTableBounds(combos: seq<seq<int>>, m: map<int, real>, lo: real, hi: real)
    requires m != map[]
    requires forall i, j | 0 <= i < |combos| && 0 <= j < |combos[i]| ::
      lo <= ItemScore(m, combos[i][j]) <= hi
    ensures AverageComboScore(combos, Some(m)).Ok? && combos != [] ==>
      lo <= AverageComboScore(combos, Some(m)).value <= hi
  {
    MeanComboScoreBounds(combos, x => ItemScore(m, x), lo, hi);
  }

  /** (1, 2) and (3, 4) without a score table average 1.5 and 3.5, so 2.5. */
  lemma AverageOwnValueExample()
    ensures AverageComboScore([[1, 2], [3, 4]], None) == Ok(2.5)
  {
    var combos := [[1, 2], [3, 4]];
    assert SumScores([1, 2], OwnValue) == 3.0 by {
      assert [1, 2][1..] == [2];
    }
    assert SumScores([3, 4], OwnValue) == 7.0 by {
      assert [3, 4][1..] == [4];
    }
    var scores := ComboScores(combos, OwnValue);
    assert scores == [1.5, 3.5];
    assert SumReal(scores) == 5.0 by {
      assert scores[1..] == [3.5];
      assert SumReal([3.5]) == 3.5 + SumReal([]);
    }
  }
}
