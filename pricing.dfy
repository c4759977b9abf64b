/** Pricing and scoring of a list of combinations: the plan record
    (count, cost, combinations), the per-number score table read from the
    feature rows, and the mean over combinations of each combination's mean
    item score. Scores are Python floats, idealised here as exact reals. */
module Pricing {
  import opened Outcomes
  import opened Seqs

  /** One row of the feature table: a number and its score column. */
  datatype Row = Row(number: int, score: real)

  /** `{"total_combos": ..., "total_cost": ..., "combos": ...}` */
  datatype Plan = Plan(totalCombos: nat, totalCost: int, combos: seq<seq<int>>)

  /** A plan counts its combinations and charges `unitCost` for each. */
  predicate Priced(p: Plan, unitCost: int) {
    p.totalCombos == |p.combos| && p.totalCost == p.totalCombos * unitCost
  }

  /** `calculate_cost_and_stats`: the combinations are passed through
      unchanged, counted and priced. */
  function CostAndStats(combos: seq<seq<int>>, unitCost: int): (p: Plan)
    ensures Priced(p, unitCost)
    ensures p.combos == combos
  {
    Plan(|combos|, |combos| * unitCost, combos)
  }

  /** The `number` column. */
  function Numbers(rows: seq<Row>): (ns: seq<int>)
    ensures |ns| == |rows|
    ensures forall i | 0 <= i < |rows| :: ns[i] == rows[i].number
  {
    seq(|rows|, i requires 0 <= i < |rows| => rows[i].number)
  }

  lemma NumberAt(rows: seq<Row>, k: nat)
    requires k < |rows|
    ensures Numbers(rows)[k] == rows[k].number
  {
  }

  /** `df.set_index("number")[col].to_dict()`: rows are read in order, so a
      later row overwrites an earlier one with the same number. */
  function ScoreMap(rows: seq<Row>): map<int, real> {
    if rows == [] then map[]
    else
      var last := rows[|rows| - 1];
      ScoreMap(rows[..|rows| - 1])[last.number := last.score]
  }

  /** A number has a score exactly when some row carries it, and its score
      is that of the last such row. */
  lemma {:induction false} ScoreMapLookup(rows: seq<Row>, x: int)
    ensures x in ScoreMap(rows) <==> x in Numbers(rows)
    ensures x in ScoreMap(rows) ==>
      exists i | 0 <= i < |rows| :: rows[i].number == x && ScoreMap(rows)[x] == rows[i].score &&
        forall j | i < j < |rows| :: rows[j].number != x
  {
    if rows != [] {
      var n := |rows| - 1;
      var pre := rows[..n];
      ScoreMapLookup(pre, x);
      if rows[n].number != x && x in ScoreMap(pre) {
        var i :| 0 <= i < |pre| && pre[i].number == x && ScoreMap(pre)[x] == pre[i].score &&
          forall j | i < j < |pre| :: pre[j].number != x;
        assert rows[i] == pre[i];
        assert forall j | i < j < |rows| :: rows[j].number != x by {
          forall j | i < j < |rows| ensures rows[j].number != x {
            if j < n {
              assert rows[j] == pre[j];
            }
          }
        }
      }
      if x in Numbers(rows) {
        var i :| 0 <= i < |rows| && Numbers(rows)[i] == x;
        if i < n {
          assert Numbers(pre)[i] == x;
        }
      }
      if x in Numbers(pre) {
        var i :| 0 <= i < |pre| && Numbers(pre)[i] == x;
        assert Numbers(rows)[i] == x;
      }
    }
  }

  /** `score_map.get(num, 0)`: a number without a score counts as 0. */
  /** `score_map.get(x, 0)`. */
  function ItemScore(m: map<int, real>, x: int): (r: real)
    ensures x in m ==> r == m[x]
    ensures x !in m ==> r == 0.0
  {
    if x in m then m[x] else 0.0
  }

  function SumScores(combo: seq<int>, score: int -> real): real {
    if combo == [] then 0.0 else score(combo[0]) + SumScores(combo[1..], score)
  }

  /** `sum(score(n) for n in combo) / len(combo)` */
  function ComboScore(combo: seq<int>, score: int -> real): real
    requires combo != []
  {
    SumScores(combo, score) / |combo| as real
  }

  function ComboScores(combos: seq<seq<int>>, score: int -> real): (r: seq<real>)
    requires [] !in combos
    ensures |r| == |combos|
    ensures forall i | 0 <= i < |combos| :: r[i] == ComboScore(combos[i], score)
  {
    seq(|combos|, i requires 0 <= i < |combos| => ComboScore(combos[i], score))
  }

  /** `sum(scores) / len(scores) if scores else 0` over the per-combination
      means. The comprehension divides by `len(combo)` first, so an empty
      combination raises ZeroDivisionError. */
  function MeanComboScore(combos: seq<seq<int>>, score: int -> real): Result<real> {
    if [] in combos then Err(ZeroDivisionError)
    else if combos == [] then Ok(0.0)
    else Ok(SumReal(ComboScores(combos, score)) / |combos| as real)
  }

  lemma {:induction false} SumScoresBounds(combo: seq<int>, score: int -> real, lo: real, hi: real)
    requires forall i | 0 <= i < |combo| :: lo <= score(combo[i]) <= hi
    ensures |combo| as real * lo <= SumScores(combo, score) <= |combo| as real * hi
  {
    if combo != [] {
      var tail := combo[1..];
      assert forall i | 0 <= i < |tail| :: tail[i] == combo[i + 1];
      SumScoresBounds(tail, score, lo, hi);
      assert lo <= score(combo[0]) <= hi;
      var k := |tail| as real;
      assert |combo| as real == k + 1.0;
      assert (k + 1.0) * lo == k * lo + lo && (k + 1.0) * hi == k * hi + hi;
    }
  }

  lemma {:induction false} SumRealBounds(xs: seq<real>, lo: real, hi: real)
    requires forall i | 0 <= i < |xs| :: lo <= xs[i] <= hi
    ensures |xs| as real * lo <= SumReal(xs) <= |xs| as real * hi
  {
    if xs != [] {
      SumRealBounds(xs[1..], lo, hi);
      assert forall i | 0 <= i < |xs[1..]| :: xs[1..][i] == xs[i + 1];
    }
  }

  /** A mean lies between the bounds of what it averages. */
  lemma MeanBounds(total: real, count: nat, lo: real, hi: real)
    requires count > 0
    requires count as real * lo <= total <= count as real * hi
    ensures lo <= total / count as real <= hi
  {
  }

  /** The average combination score lies between the lowest and highest
      score of any number in any combination; with no combinations it is 0. */
  lemma MeanComboScoreBounds(combos: seq<seq<int>>, score: int -> real, lo: real, hi: real)
    requires forall i, j | 0 <= i < |combos| && 0 <= j < |combos[i]| :: lo <= score(combos[i][j]) <= hi
    ensures combos == [] ==> MeanComboScore(combos, score) == Ok(0.0)
    ensures MeanComboScore(combos, score).Ok? && combos != [] ==>
      lo <= MeanComboScore(combos, score).value <= hi
  {
    if [] !in combos && combos != [] {
      var scores := ComboScores(combos, score);
      ComboScoresBounds(combos, score, lo, hi);
      SumRealBounds(scores, lo, hi);
      MeanBounds(SumReal(scores), |combos|, lo, hi);
    }
  }

  lemma ComboScoresBounds(combos: seq<seq<int>>, score: int -> real, lo: real, hi: real)
    requires [] !in combos
    requires forall i, j | 0 <= i < |combos| && 0 <= j < |combos[i]| :: lo <= score(combos[i][j]) <= hi
    ensures forall i | 0 <= i < |combos| :: lo <= ComboScores(combos, score)[i] <= hi
  {
    forall i | 0 <= i < |combos| ensures lo <= ComboScores(combos, score)[i] <= hi {
      ComboScoreBounds(combos[i], score, lo, hi);
    }
  }

  /** One combination's mean lies between the bounds of its numbers' scores. */
  lemma ComboScoreBounds(combo: seq<int>, score: int -> real, lo: real, hi: real)
    requires combo != []
    requires forall j | 0 <= j < |combo| :: lo <= score(combo[j]) <= hi
    ensures lo <= ComboScore(combo, score) <= hi
  {
    SumScoresBounds(combo, score, lo, hi);
    MeanBounds(SumScores(combo, score), |combo|, lo, hi);
  }
}
