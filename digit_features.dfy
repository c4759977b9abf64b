/** Digit features shared by the three prediction scripts: head (tens
    digit, `n // 10`) and tail (units digit, `n % 10`) indicator rows,
    sliding-window training samples, the probability threshold on the
    classifier output, the frequency-weighted candidate pool, and the
    sorted draw without replacement that picks the final numbers. */
module DigitFeatures {
  import opened Seqs

  /** `n % 10`; Python's `%` by a positive divisor agrees with Dafny's. */
  function Tail(n: int): int {
    n % 10
  }

  /** `n // 10`; Python's floor division by a positive divisor agrees with
      Dafny's `/`. */
  function HeadOf(n: int): int {
    n / 10
  }

  function Tails(draw: seq<int>): (ts: seq<int>)
    ensures |ts| == |draw|
    ensures forall i | 0 <= i < |draw| :: ts[i] == Tail(draw[i])
  {
    seq(|draw|, i requires 0 <= i < |draw| => Tail(draw[i]))
  }

  function Heads(draw: seq<int>): (hs: seq<int>)
    ensures |hs| == |draw|
    ensures forall i | 0 <= i < |draw| :: hs[i] == HeadOf(draw[i])
  {
    seq(|draw|, i requires 0 <= i < |draw| => HeadOf(draw[i]))
  }

  /** `[1 if i in keys else 0 for i in range(width)]` */
  function IndicatorRow(keys: seq<int>, width: nat): (row: seq<int>)
    ensures |row| == width
    ensures forall i | 0 <= i < width :: row[i] == if i in keys then 1 else 0
  {
    if width == 0 then []
    else IndicatorRow(keys, width - 1) + [if width - 1 in keys then 1 else 0]
  }

  /** The ten tail bits of a draw: bit `i` is set exactly when some number
      of the draw ends in digit `i`. */
  function TailRow(draw: seq<int>): (row: seq<int>)
    ensures |row| == 10
    ensures forall i | 0 <= i < 10 :: (row[i] == 1 <==> exists n | n in draw :: Tail(n) == i)
    ensures forall i | 0 <= i < 10 :: row[i] == 0 || row[i] == 1
  {
    var ts := Tails(draw);
    assert forall i | 0 <= i < 10 :: (i in ts <==> exists n | n in draw :: Tail(n) == i) by {
      forall i | 0 <= i < 10 ensures i in ts <==> exists n | n in draw :: Tail(n) == i {
        if exists n | n in draw :: Tail(n) == i {
          var n :| n in draw && Tail(n) == i;
          var k :| 0 <= k < |draw| && draw[k] == n;
          assert ts[k] == i;
        }
      }
    }
    IndicatorRow(ts, 10)
  }

  /** The four head bits of a draw: bit `i` is set exactly when some number
      of the draw has tens digit `i`; a number of 40 or more sets none. */
  function HeadRow(draw: seq<int>): (row: seq<int>)
    ensures |row| == 4
    ensures forall i | 0 <= i < 4 :: (row[i] == 1 <==> exists n | n in draw :: HeadOf(n) == i)
    ensures forall i | 0 <= i < 4 :: row[i] == 0 || row[i] == 1
  {
    var hs := Heads(draw);
    assert forall i | 0 <= i < 4 :: (i in hs <==> exists n | n in draw :: HeadOf(n) == i) by {
      forall i | 0 <= i < 4 ensures i in hs <==> exists n | n in draw :: HeadOf(n) == i {
        if exists n | n in draw :: HeadOf(n) == i {
          var n :| n in draw && HeadOf(n) == i;
          var k :| 0 <= k < |draw| && draw[k] == n;
          assert hs[k] == i;
        }
      }
    }
    IndicatorRow(hs, 4)
  }

  lemma {:induction false} SumIntAppend(a: seq<int>, x: int)
    ensures SumInt(a + [x]) == SumInt(a) + x
  {
    if a != [] {
      assert (a + [x])[1..] == a[1..] + [x];
      SumIntAppend(a[1..], x);
    }
  }

  /** An indicator row has as many ones as there are distinct keys in
      `0 .. width-1`. */
  lemma {:induction false} IndicatorRowSum(keys: seq<int>, width: nat)
    ensures SumInt(IndicatorRow(keys, width)) == |set d | d in keys && 0 <= d < width|
  {
    if width > 0 {
      var w := width - 1;
      IndicatorRowSum(keys, w);
      SumIntAppend(IndicatorRow(keys, w), if w in keys then 1 else 0);
      KeysBelowStep(keys, w);
    }
  }

  lemma KeysBelowStep(keys: seq<int>, w: nat)
    ensures |set d | d in keys && 0 <= d < w + 1| == |set d | d in keys && 0 <= d < w| + if w in keys then 1 else 0
  {
    var below := set d | d in keys && 0 <= d < w;
    var upTo := set d | d in keys && 0 <= d < w + 1;
    if w in keys {
      assert upTo == below + {w};
    } else {
      assert upTo == below;
    }
  }

  /** A tail row holds one 1 per distinct tail digit of the draw. */
  lemma TailRowSum(draw: seq<int>)
    ensures SumInt(TailRow(draw)) == |set n | n in draw :: Tail(n)|
  {
    var ts := Tails(draw);
    IndicatorRowSum(ts, 10);
    var tailSet := set n | n in draw :: Tail(n);
    forall d ensures d in ts && 0 <= d < 10 <==> d in tailSet {
      if d in ts {
        var k :| 0 <= k < |ts| && ts[k] == d;
        assert draw[k] in draw;
      }
      if d in tailSet {
        var n :| n in draw && Tail(n) == d;
        var k :| 0 <= k < |draw| && draw[k] == n;
        assert ts[k] == d;
      }
    }
    assert (set d | d in ts && 0 <= d < 10) == tailSet;
  }

  /** The training samples over a matrix of rows: sample `k` is the
      row-major concatenation of the `lookback` rows from `k` on, and its
      label is the row right after them. */
  method BuildDataset(matrix: seq<seq<int>>, lookback: nat) returns (xs: seq<seq<int>>, ys: seq<seq<int>>)
    ensures |xs| == |ys| == if |matrix| > lookback then |matrix| - lookback else 0
    ensures forall k | 0 <= k < |xs| ::
      k + lookback < |matrix| && xs[k] == Flatten(matrix[k..k + lookback]) && ys[k] == matrix[k + lookback]
  {
    xs, ys := [], [];
    var i := lookback;
    while i < |matrix|
      invariant lookback <= i <= if |matrix| > lookback then |matrix| else lookback
      invariant |xs| == |ys| == i - lookback
      invariant forall k | 0 <= k < |xs| ::
        k + lookback < |matrix| && xs[k] == Flatten(matrix[k..k + lookback]) && ys[k] == matrix[k + lookback]
    {
      xs := xs + [Flatten(matrix[i - lookback..i])];
      ys := ys + [matrix[i]];
      i := i + 1;
    }
  }

  /** In a matrix of rows of width `w`, a sample has `lookback * w` entries
      and entry `r * w + c` of sample `k` is entry `c` of row `k + r`. */
  lemma WindowEntry(matrix: seq<seq<int>>, w: nat, lookback: nat, k: nat, r: nat, c: nat)
    requires forall j | 0 <= j < |matrix| :: |matrix[j]| == w
    requires k + lookback <= |matrix| && r < lookback && c < w
    ensures |Flatten(matrix[k..k + lookback])| == lookback * w
    ensures r * w + c < |Flatten(matrix[k..k + lookback])|
    ensures Flatten(matrix[k..k + lookback])[r * w + c] == matrix[k + r][c]
  {
    var window := matrix[k..k + lookback];
    assert |window| == lookback;
    assert forall j | 0 <= j < |window| :: |window[j]| == w by {
      forall j | 0 <= j < |window| ensures |window[j]| == w {
        assert window[j] == matrix[k + j];
      }
    }
    FlattenLength(window, w);
    FlattenAt(window, w, r, c);
    assert window[r] == matrix[k + r];
  }

  /** `[i for i, p in enumerate(positive) if p >= threshold]`, where
      `positive[i]` is the classifier's probability that label `i` is on. */
  function ThresholdLabels(positive: seq<real>, threshold: real): (labels: seq<int>)
    ensures StrictlyAscending(labels)
    ensures forall i :: i in labels <==> 0 <= i < |positive| && positive[i] >= threshold
  {
    if positive == [] then []
    else
      var n := |positive| - 1;
      var pre := ThresholdLabels(positive[..n], threshold);
      assert forall i | 0 <= i < n :: positive[..n][i] == positive[i];
      assert forall j | 0 <= j < |pre| :: pre[j] in pre;
      pre + if positive[n] >= threshold then [n] else []
  }

  /** The labelling loop of `predict_next_head` and `predict_next_tail`. */
  method PredictNextLabels(positive: seq<real>, threshold: real) returns (labels: seq<int>)
    ensures labels == ThresholdLabels(positive, threshold)
  {
    labels := [];
    var i := 0;
    while i < |positive|
      invariant 0 <= i <= |positive|
      invariant labels == ThresholdLabels(positive[..i], threshold)
    {
      if positive[i] >= threshold {
        labels := labels + [i];
      }
      assert positive[..i + 1][..i] == positive[..i];
      i := i + 1;
    }
    assert positive[..i] == positive;
  }

  /** The numbers `lo .. hi-1` that pass `keep`, in increasing order. */
  function Where(lo: int, hi: int, keep: int -> bool): (r: seq<int>)
    ensures StrictlyAscending(r)
    ensures forall x :: x in r <==> lo <= x < hi && keep(x)
    decreases hi - lo
  {
    if hi <= lo then []
    else
      var pre := Where(lo, hi - 1, keep);
      assert forall j | 0 <= j < |pre| :: pre[j] in pre;
      pre + if keep(hi - 1) then [hi - 1] else []
  }

  /** The lottery numbers 1 to 39 whose `key` (tens or units digit) is `k`,
      in increasing order. */
  function Group(key: int -> int, k: int): (r: seq<int>)
    ensures StrictlyAscending(r)
    ensures forall x :: x in r <==> 1 <= x < 40 && key(x) == k
  {
    Where(1, 40, n => key(n) == k)
  }

  /** `[n for k in keys for n in group[k]]`: the group of every key, in key
      order, concatenated. */
  function ByKeys(keys: seq<int>, key: int -> int): (c: seq<int>)
    ensures forall x :: x in c <==> 1 <= x < 40 && key(x) in keys
  {
    if keys == [] then []
    else
      var n := |keys| - 1;
      LastAndRest(keys);
      ByKeys(keys[..n], key) + Group(key, keys[n])
  }

  lemma LastAndRest(keys: seq<int>)
    requires keys != []
    ensures forall k :: k in keys <==> k in keys[..|keys| - 1] || k == keys[|keys| - 1]
  {
    assert keys == keys[..|keys| - 1] + [keys[|keys| - 1]];
  }

  /** Distinct keys give disjoint groups, so no candidate is listed twice. */
  lemma {:induction false} ByKeysDistinct(keys: seq<int>, key: int -> int)
    requires Distinct(keys)
    ensures Distinct(ByKeys(keys, key))
  {
    if keys != [] {
      var n := |keys| - 1;
      ByKeysDistinct(keys[..n], key);
      var pre := ByKeys(keys[..n], key);
      var g := Group(key, keys[n]);
      assert keys[n] !in keys[..n];
      StrictlyAscendingDistinct(g);
      DistinctConcat(pre, g);
    }
  }

  lemma StrictlyAscendingDistinct(s: seq<int>)
    requires StrictlyAscending(s)
    ensures Distinct(s)
  {
  }

  /** `Counter(n for draw in draws for n in draw)`. */
  function Frequency(draws: seq<seq<int>>): (freq: multiset<int>)
    ensures forall x :: x in freq <==> exists i | 0 <= i < |draws| :: x in draws[i]
  {
    FlattenHas(draws);
    var all := Flatten(draws);
    assert forall x :: x in multiset(all) <==> x in all;
    multiset(all)
  }

  /** Each candidate repeated once more than its frequency, in candidate
      order. */
  function WeightedPool(candidates: seq<int>, freq: multiset<int>): seq<int> {
    if candidates == [] then []
    else
      var n := |candidates| - 1;
      WeightedPool(candidates[..n], freq) + Repeat(candidates[n], freq[candidates[n]] + 1)
  }

  /** The weighting loop of `select_numbers_from_heads` and
      `select_numbers_from_tails`. */
  method BuildWeightedPool(candidates: seq<int>, draws: seq<seq<int>>) returns (pool: seq<int>)
    ensures pool == WeightedPool(candidates, Frequency(draws))
  {
    var freq := Frequency(draws);
    pool := [];
    var i := 0;
    while i < |candidates|
      invariant 0 <= i <= |candidates|
      invariant pool == WeightedPool(candidates[..i], freq)
    {
      var num := candidates[i];
      var weight := freq[num] + 1;
      pool := pool + Repeat(num, weight);
      assert candidates[..i + 1][..i] == candidates[..i];
      i := i + 1;
    }
    assert candidates[..i] == candidates;
  }

  /** Every candidate is in the pool, as many times as it is a candidate
      times one more than its frequency, and nothing else is. */
  lemma {:induction false} WeightedPoolCount(candidates: seq<int>, freq: multiset<int>, x: int)
    ensures multiset(WeightedPool(candidates, freq))[x] == multiset(candidates)[x] * (freq[x] + 1)
  {
    if candidates != [] {
      var n := |candidates| - 1;
      var c := candidates[n];
      WeightedPoolCount(candidates[..n], freq, x);
      CountSnoc(candidates, x);
      WeightedPoolSnoc(candidates, freq);
      RepeatCount(c, freq[c] + 1, x);
      SuccTimes(multiset(candidates[..n])[x], freq[x] + 1);
    }
  }

  lemma CountSnoc(s: seq<int>, x: int)
    requires s != []
    ensures multiset(s)[x] == multiset(s[..|s| - 1])[x] + if s[|s| - 1] == x then 1 else 0
  {
    assert s == s[..|s| - 1] + [s[|s| - 1]];
  }

  lemma WeightedPoolSnoc(candidates: seq<int>, freq: multiset<int>)
    requires candidates != []
    ensures var n := |candidates| - 1;
      multiset(WeightedPool(candidates, freq)) ==
      multiset(WeightedPool(candidates[..n], freq)) + multiset(Repeat(candidates[n], freq[candidates[n]] + 1))
  {
  }

  lemma SuccTimes(m: int, k: int)
    ensures (m + 1) * k == m * k + k
  {
  }

  lemma {:induction false} RepeatCount(c: int, k: nat, x: int)
    ensures multiset(Repeat(c, k))[x] == if x == c then k else 0
  {
    if k > 0 {
      assert Repeat(c, k) == Repeat(c, k - 1) + [c];
      RepeatCount(c, k - 1, x);
    }
  }

  /** So the pool's distinct numbers are exactly the candidates. */
  lemma WeightedPoolElems(candidates: seq<int>, freq: multiset<int>)
    ensures Elems(WeightedPool(candidates, freq)) == Elems(candidates)
  {
    forall x ensures x in WeightedPool(candidates, freq) <==> x in candidates {
      WeightedPoolCount(candidates, freq, x);
      assert x in multiset(WeightedPool(candidates, freq)) <==> x in WeightedPool(candidates, freq);
      assert x in multiset(candidates) <==> x in candidates;
    }
  }

  /** `min(a, b)` */
  function Min(a: int, b: int): int {
    if a < b then a else b
  }

  /** `list(set(s))`: the distinct entries of `s`, each once. */
  function Dedup(s: seq<int>): (d: seq<int>)
    ensures Distinct(d)
    ensures Elems(d) == Elems(s)
    ensures |d| == |Elems(s)|
  {
    if s == [] then []
    else
      var n := |s| - 1;
      var pre := Dedup(s[..n]);
      assert s == s[..n] + [s[n]];
      assert Elems(s) == Elems(s[..n]) + {s[n]};
      var d := if s[n] in pre then pre else pre + [s[n]];
      assert Elems(d) == Elems(s);
      ElemsSize(d);
      d
  }

  /** `sorted(np.random.choice(population, size, replace=False))` over a
      list without repeats: some `size` of its members, in increasing order.
      Which members the library draws is left open. */
  method DrawSorted(population: seq<int>, size: nat) returns (selected: seq<int>)
    requires Distinct(population) && size <= |population|
    ensures StrictlyAscending(selected)
    ensures Elems(selected) <= Elems(population)
    ensures |selected| == size
  {
    assert Distinct(population[..size]) && Elems(population[..size]) <= Elems(population);
    var picked: seq<int> :| Distinct(picked) && Elems(picked) <= Elems(population) && |picked| == size;
    SortDistinct(picked);
    selected := SortAscending(picked);
    assert |selected| == |multiset(selected)| == |multiset(picked)| == |picked|;
  }

  /** The draw that ends every selector: `min(topN, distinct pool size)`
      distinct numbers of the pool, sorted. */
  method SelectFromPool(pool: seq<int>, topN: nat) returns (selected: seq<int>)
    ensures StrictlyAscending(selected)
    ensures Elems(selected) <= Elems(pool)
    ensures |selected| == Min(topN, |Elems(pool)|)
  {
    var distinct := Dedup(pool);
    selected := DrawSorted(distinct, Min(topN, |distinct|));
  }
}
