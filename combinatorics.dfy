/** The enumeration underneath both betting modes: `itertools.combinations`
    (Choose), `itertools.product` (Product), and the two column-mode
    enumerations built from them, one keeping raw product tuples and one
    keeping their sorted forms as a set. */
module Combinatorics {
  import opened Seqs

  /** `[x] + c` for every `c` of `cs`, in order. */
  function PrependAll<T>(x: T, cs: seq<seq<T>>): (r: seq<seq<T>>)
    ensures |r| == |cs|
    ensures forall i | 0 <= i < |cs| :: r[i] == [x] + cs[i]
  {
    if cs == [] then []
    else
      var rest := PrependAll(x, cs[1..]);
      assert forall i | 1 <= i < |cs| :: cs[1..][i - 1] == cs[i];
      [[x] + cs[0]] + rest
  }

  lemma PrependAllMembership<T>(x: T, cs: seq<seq<T>>, c: seq<T>)
    ensures c in PrependAll(x, cs) <==> |c| > 0 && c[0] == x && c[1..] in cs
  {
    var r := PrependAll(x, cs);
    if c in r {
      var i :| 0 <= i < |r| && r[i] == c;
      assert c[1..] == cs[i];
    }
    if |c| > 0 && c[0] == x && c[1..] in cs {
      var i :| 0 <= i < |cs| && cs[i] == c[1..];
      assert r[i] == c;
    }
  }

  /** `itertools.combinations(xs, k)`: every way to keep `k` entries of `xs`
      in their original order; those keeping `xs[0]` come first. */
  function Choose<T>(xs: seq<T>, k: nat): seq<seq<T>>
    decreases |xs|
  {
    if k == 0 then [[]]
    else if |xs| == 0 then []
    else PrependAll(xs[0], Choose(xs[1..], k - 1)) + Choose(xs[1..], k)
  }

  /** Pascal's rule. */
  function Binomial(n: nat, k: nat): nat {
    if k == 0 then 1
    else if n == 0 then 0
    else Binomial(n - 1, k - 1) + Binomial(n - 1, k)
  }

  lemma {:induction false} BinomialAboveN(n: nat, k: nat)
    requires k > n
    ensures Binomial(n, k) == 0
  {
    if n > 0 {
      BinomialAboveN(n - 1, k - 1);
      BinomialAboveN(n - 1, k);
    }
  }

  /** There are C(n, k) combinations; none when k > n. */
  lemma ChooseCount<T>(xs: seq<T>, k: nat)
    ensures |Choose(xs, k)| == Binomial(|xs|, k)
    ensures k > |xs| ==> Choose(xs, k) == []
  {
    ChooseLength(xs, k);
    if k > |xs| {
      BinomialAboveN(|xs|, k);
    }
  }

  lemma {:induction false} ChooseLength<T>(xs: seq<T>, k: nat)
    ensures |Choose(xs, k)| == Binomial(|xs|, k)
    decreases |xs|
  {
    if k > 0 && |xs| > 0 {
      var tail := xs[1..];
      ChooseLength(tail, k - 1);
      ChooseLength(tail, k);
      assert Choose(xs, k) == PrependAll(xs[0], Choose(tail, k - 1)) + Choose(tail, k);
      assert Binomial(|xs|, k) == Binomial(|tail|, k - 1) + Binomial(|tail|, k);
    }
  }

  /** `c` can be obtained from `xs` by deleting entries (order kept). */
  predicate IsSubsequence<T(==)>(c: seq<T>, xs: seq<T>)
    decreases |xs|
  {
    if c == [] then true
    else if xs == [] then false
    else (c[0] == xs[0] && IsSubsequence(c[1..], xs[1..])) || IsSubsequence(c, xs[1..])
  }

  /** The combinations are exactly the length-k subsequences. */
  lemma ChooseMembership<T>(xs: seq<T>, k: nat, c: seq<T>)
    ensures c in Choose(xs, k) <==> |c| == k && IsSubsequence(c, xs)
  {
    if c in Choose(xs, k) {
      ChooseSound(xs, k, c);
    }
    if |c| == k && IsSubsequence(c, xs) {
      ChooseComplete(xs, k, c);
    }
  }

  lemma {:induction false} ChooseSound<T>(xs: seq<T>, k: nat, c: seq<T>)
    requires c in Choose(xs, k)
    ensures |c| == k && IsSubsequence(c, xs)
    decreases |xs|
  {
    if k > 0 {
      ChosenFromNonEmpty(xs, k, c);
      var tail := xs[1..];
      ChooseUnfoldAt(xs, k, c);
      if c in Choose(tail, k) {
        ChooseSound(tail, k, c);
        assert c != [];
      } else {
        assert c != [] && c[1..] in Choose(tail, k - 1);
        ChooseSound(tail, k - 1, c[1..]);
      }
      SubsequenceUnfold(c, xs);
    }
  }

  lemma ChosenFromNonEmpty<T>(xs: seq<T>, k: nat, c: seq<T>)
    requires k > 0 && c in Choose(xs, k)
    ensures xs != []
  {
  }

  lemma {:induction false} ChooseComplete<T>(xs: seq<T>, k: nat, c: seq<T>)
    requires |c| == k && IsSubsequence(c, xs)
    ensures c in Choose(xs, k)
    decreases |xs|
  {
    if k > 0 {
      assert c != [] && xs != [];
      var tail := xs[1..];
      SubsequenceUnfold(c, xs);
      if IsSubsequence(c, tail) {
        ChooseComplete(tail, k, c);
        assert c in Choose(tail, k);
      } else {
        assert c[0] == xs[0] && IsSubsequence(c[1..], tail);
        ChooseComplete(tail, k - 1, c[1..]);
        assert c[1..] in Choose(tail, k - 1);
      }
      ChooseUnfoldAt(xs, k, c);
    }
  }

  lemma SubsequenceUnfold<T>(c: seq<T>, xs: seq<T>)
    requires c != [] && xs != []
    ensures IsSubsequence(c, xs) <==>
      (c[0] == xs[0] && IsSubsequence(c[1..], xs[1..])) || IsSubsequence(c, xs[1..])
  {
  }

  /** Those keeping the first entry, then those dropping it. */
  lemma ChooseUnfold<T>(xs: seq<T>, k: nat)
    requires k > 0 && xs != []
    ensures Choose(xs, k) == PrependAll(xs[0], Choose(xs[1..], k - 1)) + Choose(xs[1..], k)
  {
  }

  lemma ChooseUnfoldAt<T>(xs: seq<T>, k: nat, c: seq<T>)
    requires k > 0 && xs != []
    ensures c in Choose(xs, k) <==>
      (c != [] && c[0] == xs[0] && c[1..] in Choose(xs[1..], k - 1)) || c in Choose(xs[1..], k)
  {
    ChooseUnfold(xs, k);
    PrependAllMembership(xs[0], Choose(xs[1..], k - 1), c);
  }

  /** A combination of a duplicate-free list repeats no entry, and no
      combination is listed twice. */
  lemma {:induction false} ChooseDistinct<T>(xs: seq<T>, k: nat)
    requires Distinct(xs)
    ensures Distinct(Choose(xs, k))
    ensures forall c | c in Choose(xs, k) :: Distinct(c)
    decreases |xs|
  {
    if k > 0 && |xs| > 0 {
      var tail := xs[1..];
      DistinctTail(xs);
      ChooseDistinct(tail, k - 1);
      ChooseDistinct(tail, k);
      var with := PrependAll(xs[0], Choose(tail, k - 1));
      var without := Choose(tail, k);
      HeadNotInTail(xs);
      DroppingAvoidsHead(xs[0], tail, k);
      KeepingStartsWithHead(xs[0], tail, k);
      PrependAllDistinct(xs[0], Choose(tail, k - 1));
      DistinctConcat(with, without);
      ChooseUnfold(xs, k);
    }
  }

  lemma DistinctTail<T>(xs: seq<T>)
    requires xs != [] && Distinct(xs)
    ensures Distinct(xs[1..])
  {
    forall i, j | 0 <= i < j < |xs| - 1 ensures xs[1..][i] != xs[1..][j] {
      assert xs[1..][i] == xs[i + 1] && xs[1..][j] == xs[j + 1];
    }
  }

  /** The combinations of `tail` do not start with an `x` that is not in
      `tail`. */
  lemma DroppingAvoidsHead<T>(x: T, tail: seq<T>, k: nat)
    requires x !in tail
    ensures forall c | c in Choose(tail, k) :: c == [] || c[0] != x
  {
    forall c | c in Choose(tail, k) ensures c == [] || c[0] != x {
      ChooseSound(tail, k, c);
      SubsequenceElems(c, tail);
    }
  }

  /** Putting an `x` that is not in `tail` in front of duplicate-free
      combinations of `tail` gives duplicate-free lists starting with `x`. */
  lemma KeepingStartsWithHead<T>(x: T, tail: seq<T>, k: nat)
    requires x !in tail && k > 0
    requires forall c | c in Choose(tail, k - 1) :: Distinct(c)
    ensures forall c | c in PrependAll(x, Choose(tail, k - 1)) :: Distinct(c) && c[0] == x
  {
    forall c | c in PrependAll(x, Choose(tail, k - 1)) ensures Distinct(c) && c[0] == x {
      PrependAllMembership(x, Choose(tail, k - 1), c);
      ChooseSound(tail, k - 1, c[1..]);
      ConsSubsequenceDistinct(tail, c);
    }
  }

  /** A duplicate-free subsequence of `tail`, preceded by an entry not in
      `tail`, is duplicate-free. */
  lemma ConsSubsequenceDistinct<T>(tail: seq<T>, c: seq<T>)
    requires c != [] && c[0] !in tail
    requires IsSubsequence(c[1..], tail) && Distinct(c[1..])
    ensures Distinct(c)
  {
    SubsequenceElems(c[1..], tail);
    ConsDistinct(c);
  }

  lemma HeadNotInTail<T>(xs: seq<T>)
    requires xs != [] && Distinct(xs)
    ensures xs[0] !in xs[1..]
  {
    forall j | 0 <= j < |xs| - 1 ensures xs[1..][j] != xs[0] {
      assert xs[1..][j] == xs[j + 1];
    }
  }

  /** A list whose head does not recur in its duplicate-free tail is
      duplicate-free. */
  lemma ConsDistinct<T>(c: seq<T>)
    requires c != [] && Distinct(c[1..]) && c[0] !in c[1..]
    ensures Distinct(c)
  {
    forall i, j | 0 <= i < j < |c| ensures c[i] != c[j] {
      assert c[j] == c[1..][j - 1];
      if i > 0 {
        assert c[i] == c[1..][i - 1];
      }
    }
  }

  lemma PrependAllDistinct<T>(x: T, cs: seq<seq<T>>)
    requires Distinct(cs)
    ensures Distinct(PrependAll(x, cs))
  {
    var r := PrependAll(x, cs);
    forall i, j | 0 <= i < j < |r| ensures r[i] != r[j] {
      assert r[i][1..] == cs[i];
      assert r[j][1..] == cs[j];
    }
  }

  /** Every entry of a subsequence is an entry of the list. */
  lemma {:induction false} SubsequenceElems<T>(c: seq<T>, xs: seq<T>)
    requires IsSubsequence(c, xs)
    ensures forall x | x in c :: x in xs
    decreases |xs|
  {
    if c != [] && xs != [] {
      if c[0] == xs[0] && IsSubsequence(c[1..], xs[1..]) {
        SubsequenceElems(c[1..], xs[1..]);
        assert c == [c[0]] + c[1..];
      } else {
        SubsequenceElems(c, xs[1..]);
      }
    }
  }

  /** `[x] + t` for every `x` of `xs` (outer) and `t` of `rest` (inner). */
  function PrependEach<T>(xs: seq<T>, rest: seq<seq<T>>): (r: seq<seq<T>>)
    ensures |r| == |xs| * |rest|
  {
    if xs == [] then [] else PrependAll(xs[0], rest) + PrependEach(xs[1..], rest)
  }

  lemma {:induction false} PrependEachMembership<T>(xs: seq<T>, rest: seq<seq<T>>, t: seq<T>)
    ensures t in PrependEach(xs, rest) <==> |t| > 0 && t[0] in xs && t[1..] in rest
  {
    if xs != [] {
      PrependAllMembership(xs[0], rest, t);
      PrependEachMembership(xs[1..], rest, t);
      assert xs == [xs[0]] + xs[1..];
    }
  }

  /** `itertools.product(*cols)`: one entry from each list, the first list
      varying slowest. */
  function Product<T>(cols: seq<seq<T>>): seq<seq<T>> {
    if cols == [] then [[]] else PrependEach(cols[0], Product(cols[1..]))
  }

  /** The product of the list sizes. */
  function SizeProduct<T>(cols: seq<seq<T>>): nat {
    if cols == [] then 1 else |cols[0]| * SizeProduct(cols[1..])
  }

  lemma {:induction false} ProductCount<T>(cols: seq<seq<T>>)
    ensures |Product(cols)| == SizeProduct(cols)
  {
    if cols != [] {
      ProductCount(cols[1..]);
    }
  }

  /** A tuple is in the product exactly when it has one entry per list and
      its j-th entry comes from the j-th list. */
  lemma {:induction false} ProductMembership<T>(cols: seq<seq<T>>, t: seq<T>)
    ensures t in Product(cols) <==> |t| == |cols| && forall j | 0 <= j < |t| :: t[j] in cols[j]
  {
    if cols != [] {
      PrependEachMembership(cols[0], Product(cols[1..]), t);
      if |t| > 0 {
        ProductMembership(cols[1..], t[1..]);
        if |t| == |cols| && (forall j | 0 <= j < |t| :: t[j] in cols[j]) {
          forall j | 0 <= j < |t[1..]| ensures t[1..][j] in cols[1..][j] {
            assert t[j + 1] in cols[j + 1];
          }
        }
        if t[0] in cols[0] && t[1..] in Product(cols[1..]) {
          forall j | 0 <= j < |t| ensures t[j] in cols[j] {
            if j > 0 {
              assert t[j] == t[1..][j - 1];
            }
          }
        }
      }
    }
  }

  /** `[t for t in ps if len(set(t)) == k]`. */
  function KeepDistinct<T(==)>(ps: seq<seq<T>>, k: nat): seq<seq<T>> {
    if ps == [] then []
    else
      var last := ps[|ps| - 1];
      KeepDistinct(ps[..|ps| - 1], k) + (if |Elems(last)| == k then [last] else [])
  }

  lemma {:induction false} KeepDistinctMembership<T>(ps: seq<seq<T>>, k: nat, t: seq<T>)
    ensures t in KeepDistinct(ps, k) <==> t in ps && |Elems(t)| == k
  {
    if ps != [] {
      KeepDistinctMembership(ps[..|ps| - 1], k, t);
      assert ps == ps[..|ps| - 1] + [ps[|ps| - 1]];
    }
  }

  /** Column mode without de-duplication: for each choice of `k` columns in
      order, the product tuples whose entries are pairwise distinct. */
  function ColumnCombosOf<T(==)>(selections: seq<seq<seq<T>>>, k: nat): seq<seq<T>> {
    if selections == [] then []
    else
      var n := |selections| - 1;
      ColumnCombosOf(selections[..n], k) + KeepDistinct(Product(selections[n]), k)
  }

  function ColumnCombos<T(==)>(columns: seq<seq<T>>, k: nat): seq<seq<T>> {
    ColumnCombosOf(Choose(columns, k), k)
  }

  lemma {:induction false} ColumnCombosOfMembership<T>(selections: seq<seq<seq<T>>>, k: nat, t: seq<T>)
    ensures t in ColumnCombosOf(selections, k) <==>
      |Elems(t)| == k && exists sel | sel in selections :: t in Product(sel)
  {
    if selections != [] {
      var n := |selections| - 1;
      ColumnCombosOfMembership(selections[..n], k, t);
      KeepDistinctMembership(Product(selections[n]), k, t);
      InSomeProductSnoc(selections, t);
    }
  }

  /** A tuple comes from one of the selections exactly when it comes from
      one of all but the last, or from the last. */
  lemma InSomeProductSnoc<T>(selections: seq<seq<seq<T>>>, t: seq<T>)
    requires selections != []
    ensures (exists sel | sel in selections :: t in Product(sel)) <==>
      (exists sel | sel in selections[..|selections| - 1] :: t in Product(sel)) ||
      t in Product(selections[|selections| - 1])
  {
    var n := |selections| - 1;
    assert selections == selections[..n] + [selections[n]];
    if exists sel | sel in selections :: t in Product(sel) {
      var sel :| sel in selections && t in Product(sel);
      if sel != selections[n] {
        assert sel in selections[..n];
      }
    }
  }

  /** A tuple is a column combination exactly when it has `k` pairwise
      distinct entries and there is a choice of `k` columns, in column
      order, whose j-th column holds its j-th entry. */
  lemma ColumnCombosMembership<T>(columns: seq<seq<T>>, k: nat, t: seq<T>)
    ensures t in ColumnCombos(columns, k) <==>
      |t| == k && Distinct(t) &&
      exists sel | IsSubsequence(sel, columns) && |sel| == k :: forall j | 0 <= j < k :: t[j] in sel[j]
  {
    ColumnCombosOfMembership(Choose(columns, k), k, t);
    ElemsSize(t);
    if t in ColumnCombos(columns, k) {
      var sel :| sel in Choose(columns, k) && t in Product(sel);
      ChooseMembership(columns, k, sel);
      ProductMembership(sel, t);
    }
    if |t| == k && Distinct(t) &&
      exists sel | IsSubsequence(sel, columns) && |sel| == k :: forall j | 0 <= j < k :: t[j] in sel[j]
    {
      var sel :| IsSubsequence(sel, columns) && |sel| == k && forall j | 0 <= j < k :: t[j] in sel[j];
      ChooseMembership(columns, k, sel);
      ProductMembership(sel, t);
    }
  }

  /** Column mode with de-duplication: the sorted forms of the distinct-entry
      product tuples, gathered in a set. */
  function CanonicalOf(ps: seq<seq<int>>, k: nat): set<seq<int>> {
    if ps == [] then {}
    else
      var last := ps[|ps| - 1];
      CanonicalOf(ps[..|ps| - 1], k) + (if |Elems(last)| == k then {SortAscending(last)} else {})
  }

  function CanonicalCombosOf(selections: seq<seq<seq<int>>>, k: nat): set<seq<int>> {
    if selections == [] then {}
    else
      var n := |selections| - 1;
      CanonicalCombosOf(selections[..n], k) + CanonicalOf(Product(selections[n]), k)
  }

  function CanonicalCombos(columns: seq<seq<int>>, k: nat): set<seq<int>> {
    CanonicalCombosOf(Choose(columns, k), k)
  }

  lemma {:induction false} CanonicalOfSorted(ps: seq<seq<int>>, k: nat)
    ensures CanonicalOf(ps, k) == set p | p in KeepDistinct(ps, k) :: SortAscending(p)
  {
    if ps != [] {
      var pre, last := ps[..|ps| - 1], ps[|ps| - 1];
      CanonicalOfSorted(pre, k);
      var extra := if |Elems(last)| == k then [last] else [];
      assert KeepDistinct(ps, k) == KeepDistinct(pre, k) + extra;
      forall t ensures t in CanonicalOf(ps, k) <==> exists p | p in KeepDistinct(ps, k) :: t == SortAscending(p) {
        if t in CanonicalOf(pre, k) {
          var p :| p in KeepDistinct(pre, k) && t == SortAscending(p);
          assert p in KeepDistinct(ps, k);
        }
        if |Elems(last)| == k && t == SortAscending(last) {
          assert last in KeepDistinct(ps, k);
        }
      }
    }
  }

  lemma {:induction false} CanonicalCombosOfSorted(selections: seq<seq<seq<int>>>, k: nat)
    ensures CanonicalCombosOf(selections, k) == set p | p in ColumnCombosOf(selections, k) :: SortAscending(p)
  {
    if selections != [] {
      var n := |selections| - 1;
      CanonicalCombosOfSorted(selections[..n], k);
      CanonicalOfSorted(Product(selections[n]), k);
    }
  }

  /** The de-duplicating variant yields exactly the sorted forms of the
      tuples the non-de-duplicating variant lists. */
  lemma CanonicalIsSortedColumnCombos(columns: seq<seq<int>>, k: nat)
    ensures CanonicalCombos(columns, k) == set p | p in ColumnCombos(columns, k) :: SortAscending(p)
  {
    CanonicalCombosOfSorted(Choose(columns, k), k);
  }

  /** Every de-duplicated combination has `k` entries in strictly increasing
      order, and a strictly increasing tuple is one exactly when some choice
      of `k` columns, in order, and one entry from each gives pairwise
      distinct values whose sorted form is that tuple. */
  lemma CanonicalCombosMembership(columns: seq<seq<int>>, k: nat, t: seq<int>)
    ensures t in CanonicalCombos(columns, k) ==> |t| == k && StrictlyAscending(t)
    ensures t in CanonicalCombos(columns, k) <==>
      exists p | p in ColumnCombos(columns, k) :: t == SortAscending(p)
  {
    CanonicalIsSortedColumnCombos(columns, k);
    if t in CanonicalCombos(columns, k) {
      var p :| p in ColumnCombos(columns, k) && t == SortAscending(p);
      ColumnCombosMembership(columns, k, p);
      SortDistinct(p);
      assert |t| == |multiset(t)| == |multiset(p)| == |p|;
    }
  }
}
