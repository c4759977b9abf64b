/** The head-digit script: a four-bit head row per draw, and the selection
    of numbers whose tens digit was predicted. The dataset windows, the
    probability threshold and the weighted draw are shared with the tail
    script and the prediction module. */
module HeadModel {
  import opened Seqs
  import opened DigitFeatures

  /** `build_head_matrix`: appends the head row of each draw in turn. */
  method BuildHeadMatrix(draws: seq<seq<int>>) returns (m: seq<seq<int>>)
    ensures |m| == |draws|
    ensures forall k | 0 <= k < |draws| :: m[k] == HeadRow(draws[k])
  {
    m := [];
    for i := 0 to |draws|
      invariant |m| == i
      invariant forall k | 0 <= k < i :: m[k] == HeadRow(draws[k])
    {
      m := m + [HeadRow(draws[i])];
    }
  }

  /** `select_numbers_from_heads`: the candidates are the numbers 1 to 39
      of each predicted head in turn; each enters the pool once more than it
      was drawn, and `min(topN, distinct pool size)` distinct pool numbers
      are drawn and sorted. */
  method SelectNumbersFromHeads(heads: seq<int>, draws: seq<seq<int>>, topN: nat) returns (selected: seq<int>)
    ensures StrictlyAscending(selected)
    ensures forall x | x in selected :: 1 <= x < 40 && HeadOf(x) in heads
    ensures |selected| == Min(topN, |Elems(ByKeys(heads, HeadOf))|)
    ensures Distinct(heads) ==> |selected| == Min(topN, |ByKeys(heads, HeadOf)|)
  {
    var candidates := ByKeys(heads, HeadOf);
    var pool := BuildWeightedPool(candidates, draws);
    WeightedPoolElems(candidates, Frequency(draws));
    selected := SelectFromPool(pool, topN);
    assert forall x | x in selected :: x in Elems(selected);
    if Distinct(heads) {
      ByKeysDistinct(heads, HeadOf);
      ElemsSize(candidates);
    }
  }
}
