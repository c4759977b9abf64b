/** `simulate_betting`: a linked plan over the top-ranked numbers and a
    column plan for the best column count from 3 to 6, both priced per
    combination. The other helpers of this file behave the same as the
    strategy engine's and are used from there. */
module BettingEngine {
  import opened Outcomes
  import opened Combinatorics
  import opened Pricing
  import opened Ranking
  import opened BettingStrategyEngine

  /** The `"linked"` part of the summary. */
  datatype LinkedSummary = LinkedSummary(numbers: seq<int>, combos: seq<seq<int>>, avgScore: real, totalCost: int)

  /** The `"column"` part of the summary. */
  datatype ColumnSummary = ColumnSummary(columns: seq<seq<int>>, combos: seq<seq<int>>, avgScore: real, totalCost: int)

  datatype Simulation = Simulation(linked: LinkedSummary, column: ColumnSummary)

  /** The rows `simulate_betting` keeps: the `topN` best-scoring ones. */
  function Selected(rows: seq<Row>, topN: int): (r: seq<Row>)
    ensures NonIncreasing(r)
    ensures multiset(r) <= multiset(rows)
    ensures topN >= 0 ==> |r| == if topN < |rows| then topN else |rows|
    ensures forall x, y | x in r && y in multiset(rows) - multiset(r) :: x.score >= y.score
  {
    var ranked := RankOrder(rows);
    RankOrderSorted(rows);
    HeadKeepsTop(ranked, topN);
    SelectedTop(ranked, Head(ranked, topN));
    Head(ranked, topN)
  }

  /** The rows a prefix of a ranking leaves out score no more than the rows
      it keeps. */
  lemma SelectedTop(ranked: seq<Row>, h: seq<Row>)
    requires NonIncreasing(ranked) && |h| <= |ranked| && h == ranked[..|h|]
    ensures multiset(h) <= multiset(ranked)
    ensures forall x, y | x in h && y in multiset(ranked) - multiset(h) :: x.score >= y.score
  {
    var k := |h|;
    PrefixSplit(ranked, k);
    forall x, y | x in h && y in multiset(ranked) - multiset(h) ensures x.score >= y.score {
      assert y in ranked[k..];
      KeptOutscores(ranked, k, x, y);
    }
  }

  lemma PrefixSplit(s: seq<Row>, k: nat)
    requires k <= |s|
    ensures multiset(s) == multiset(s[..k]) + multiset(s[k..])
  {
    assert s == s[..k] + s[k..];
  }

  lemma KeptOutscores(ranked: seq<Row>, k: nat, x: Row, y: Row)
    requires NonIncreasing(ranked) && k <= |ranked|
    requires x in ranked[..k] && y in ranked[k..]
    ensures x.score >= y.score
  {
    var i :| 0 <= i < k && ranked[..k][i] == x;
    var j :| 0 <= j < |ranked| - k && ranked[k..][j] == y;
    assert ranked[i] == x && ranked[k + j] == y;
  }

  /** `simulate_betting` on the feature table `rows`: the linked plan takes
      every `stars`-choice of the selected numbers; the column plan is the
      first best column count found by the search over 3 to 6 columns of the
      selected rows, scored against the whole table. With `stars` 0 the one
      empty linked combination makes the linked average divide by zero. */
  method SimulateBetting(rows: seq<Row>, stars: nat, topN: int, unitCost: int) returns (r: Result<Simulation>)
    ensures stars == 0 ==> r == Err(ZeroDivisionError)
    ensures stars > 0 ==> r.Ok?
    ensures r.Ok? ==> r.value.linked.numbers == Numbers(Selected(rows, topN))
    ensures r.Ok? ==> r.value.linked.combos == Choose(Numbers(Selected(rows, topN)), stars)
    ensures r.Ok? ==> |r.value.linked.combos| == Binomial(|Numbers(Selected(rows, topN))|, stars)
    ensures r.Ok? ==> Ok(r.value.linked.avgScore) == AverageComboScore(rows, r.value.linked.combos)
    ensures r.Ok? ==> r.value.linked.totalCost == |r.value.linked.combos| * unitCost
    ensures r.Ok? ==> var c := r.value.column;
      FirstBest(rows, Selected(rows, topN), 6, stars, Best(if c.columns == [] then 0 else |c.columns|, c.columns, c.combos, c.avgScore))
    ensures r.Ok? ==> r.value.column.combos == ColumnCombos(r.value.column.columns, stars)
    ensures r.Ok? ==> r.value.column.totalCost == |r.value.column.combos| * unitCost
  {
    var selectedRows := Head(RankOrder(rows), topN);
    var selected := Numbers(selectedRows);
    var linkedCombos := GenerateLinkedCombinations(selected, stars);
    var linkedAvg := AverageComboScore(rows, linkedCombos);
    if linkedAvg.Err? {
      return Err(linkedAvg.error);
    }
    var linkedCost := |linkedCombos| * unitCost;
    var search := SearchColumnCounts(rows, selectedRows, 6, stars);
    assert search.Ok?;
    var best := search.value;
    var columnCost := |best.combos| * unitCost;
    r := Ok(Simulation(LinkedSummary(selected, linkedCombos, linkedAvg.value, linkedCost),
                       ColumnSummary(best.columns, best.combos, best.score, columnCost)));
  }
}
