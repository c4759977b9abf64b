/** The tail-digit script: a ten-bit tail row per draw, and the selection
    of numbers whose units digit was predicted. The dataset windows, the
    probability threshold and the weighted draw are shared with the head
    script and the prediction module. */
module TailModel {
  import opened Seqs
  import opened DigitFeatures

  /** `build_tail_matrix`: appends the tail row of each draw in turn. */
  method BuildTailMatrix(draws: seq<seq<int>>) returns (m: seq<seq<int>>)
    ensures |m| == |draws|
    ensures forall k | 0 <= k < |draws| :: m[k] == TailRow(draws[k])
  {
    m := [];
    for i := 0 to |draws|
      invariant |m| == i
      invariant forall k | 0 <= k < i :: m[k] == TailRow(draws[k])
    {
      m := m + [TailRow(draws[i])];
    }
  }

  /** The numbers 1 to 39 ending in digit `t`: tail 0 stands for 10, 20
      and 30, any other tail for `t`, `t + 10`, `t + 20` and `t + 30`. */
  lemma TailGroup(t: int)
    requires 0 <= t < 10
    ensures Group(Tail, t) == if t == 0 then [10, 20, 30] else [t, t + 10, t + 20, t + 30]
  {
    SameTailElems(t);
    StrictlyAscendingUnique(Group(Tail, t), EndingIn(t));
  }

  lemma SameTailElems(t: int)
    requires 0 <= t < 10
    ensures Elems(Group(Tail, t)) == Elems(EndingIn(t))
  {
    forall x ensures x in Group(Tail, t) <==> x in EndingIn(t) {
      EndingInMembers(x, t);
    }
  }

  function EndingIn(t: int): (r: seq<int>)
    requires 0 <= t < 10
    ensures StrictlyAscending(r)
  {
    if t == 0 then [10, 20, 30] else [t, t + 10, t + 20, t + 30]
  }

  lemma EndingInMembers(x: int, t: int)
    requires 0 <= t < 10
    ensures (1 <= x < 40 && Tail(x) == t) <==> x in EndingIn(t)
  {
    if 1 <= x < 40 && Tail(x) == t {
      var q := x / 10;
      assert x == 10 * q + t;
      assert 0 <= q <= 3;
    }
  }

  /** `select_numbers_from_tails`: the candidates are the numbers 1 to 39
      of each predicted tail in turn; each enters the pool once more than it
      was drawn, and `min(topN, distinct pool size)` distinct pool numbers
      are drawn and sorted. */
  method SelectNumbersFromTails(tails: seq<int>, draws: seq<seq<int>>, topN: nat) returns (selected: seq<int>)
    ensures StrictlyAscending(selected)
    ensures forall x | x in selected :: 1 <= x < 40 && Tail(x) in tails
    ensures |selected| == Min(topN, |Elems(ByKeys(tails, Tail))|)
    ensures Distinct(tails) ==> |selected| == Min(topN, |ByKeys(tails, Tail)|)
  {
    var candidates := ByKeys(tails, Tail);
    var pool := BuildWeightedPool(candidates, draws);
    WeightedPoolElems(candidates, Frequency(draws));
    selected := SelectFromPool(pool, topN);
    assert forall x | x in selected :: x in Elems(selected);
    if Distinct(tails) {
      ByKeysDistinct(tails, Tail);
      ElemsSize(candidates);
    }
  }
}
