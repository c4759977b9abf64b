/** The prediction module: digit-indicator matrices by mode, the candidate
    numbers of a predicted set of tails and heads, and the weighted draw of
    the final selection. Training and the classifier itself are outside the
    model; their output enters as probabilities. */
module Predict {
  import opened Outcomes
  import opened Seqs
  import opened DigitFeatures

  /** `build_matrix`: one indicator row per draw, ten tail bits in mode
      "tail", four head bits in mode "head"; any other mode is a
      ValueError. */
  function BuildMatrix(draws: seq<seq<int>>, mode: string): (r: Result<seq<seq<int>>>)
    ensures r.Err? <==> mode != "tail" && mode != "head"
    ensures r.Err? ==> r.error == ValueError
    ensures r.Ok? ==> |r.value| == |draws|
    ensures mode == "tail" ==> forall k | 0 <= k < |draws| ::
      |r.value[k]| == 10 &&
      forall i | 0 <= i < 10 :: r.value[k][i] == (if exists n | n in draws[k] :: Tail(n) == i then 1 else 0)
    ensures mode == "head" ==> forall k | 0 <= k < |draws| ::
      |r.value[k]| == 4 &&
      forall i | 0 <= i < 4 :: r.value[k][i] == (if exists n | n in draws[k] :: HeadOf(n) == i then 1 else 0)
  {
    if mode == "tail" then Ok(seq(|draws|, k requires 0 <= k < |draws| => TailRow(draws[k])))
    else if mode == "head" then Ok(seq(|draws|, k requires 0 <= k < |draws| => HeadRow(draws[k])))
    else Err(ValueError)
  }

  /** A number of 40 or more has a tens digit of at least 4 and so sets no
      head bit: a draw of such numbers only gives an all-zero head row. */
  lemma HighNumbersSetNoHeadBit(draws: seq<seq<int>>)
    requires forall k, j | 0 <= k < |draws| && 0 <= j < |draws[k]| :: draws[k][j] >= 40
    ensures BuildMatrix(draws, "head").Ok?
    ensures forall k | 0 <= k < |draws| :: BuildMatrix(draws, "head").value[k] == [0, 0, 0, 0]
  {
    var m := BuildMatrix(draws, "head").value;
    forall k | 0 <= k < |draws| ensures m[k] == [0, 0, 0, 0] {
      forall n | n in draws[k] ensures HeadOf(n) >= 4 {
        var j :| 0 <= j < |draws[k]| && draws[k][j] == n;
      }
    }
  }

  /** `[n for n in range(1, 40) if n % 10 in tails and n // 10 in heads]` */
  function Candidates(tails: seq<int>, heads: seq<int>): (c: seq<int>)
    ensures StrictlyAscending(c)
    ensures forall x :: x in c <==> 1 <= x < 40 && Tail(x) in tails && HeadOf(x) in heads
  {
    Where(1, 40, n => Tail(n) in tails && HeadOf(n) in heads)
  }

  /** `select_numbers`: every candidate enters the pool once more than it
      was drawn in the history, and `min(topN, distinct pool size)` distinct
      pool numbers are drawn and sorted. Since each candidate enters at
      least once, that size is `min(topN, number of candidates)`. */
  method SelectNumbers(tails: seq<int>, heads: seq<int>, draws: seq<seq<int>>, topN: nat) returns (selected: seq<int>)
    ensures StrictlyAscending(selected)
    ensures forall x | x in selected :: 1 <= x < 40 && Tail(x) in tails && HeadOf(x) in heads
    ensures |selected| == Min(topN, |Candidates(tails, heads)|)
  {
    var candidates := Candidates(tails, heads);
    var pool := WeightedPool(candidates, Frequency(draws));
    WeightedPoolElems(candidates, Frequency(draws));
    selected := SelectFromPool(pool, topN);
    assert forall x | x in selected :: x in Elems(selected);
    StrictlyAscendingDistinct(candidates);
    ElemsSize(candidates);
  }
}
