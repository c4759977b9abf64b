/** Round-robin dealing of an ordered list into `n` columns, the loop that
    all three "split into columns" functions share once their input is in
    sorted order. */
module Partition {
  import opened Outcomes
  import opened Seqs

  /** The columns after dealing `xs` in order: entry `i` is appended to
      column `i % n`. */
  function RoundRobin<T>(xs: seq<T>, n: nat): (cols: seq<seq<T>>)
    requires n > 0
    ensures |cols| == n
    decreases |xs|
  {
    if xs == [] then EmptyColumns(n)
    else
      var m := |xs| - 1;
      var cols := RoundRobin(xs[..m], n);
      cols[m % n := cols[m % n] + [xs[m]]]
  }

  /** `[[] for _ in range(n)]` */
  function EmptyColumns<T>(n: nat): (cols: seq<seq<T>>)
    ensures |cols| == n
  {
    seq(n, _ => [])
  }

  /** How many of the positions `0 .. len-1` are congruent to `c` modulo `n`:
      `len / n`, plus one for the first `len % n` columns. */
  function ColumnSize(len: nat, n: nat, c: nat): nat
    requires n > 0
  {
    len / n + (if c < len % n then 1 else 0)
  }

  lemma {:induction false} MulMono(a: int, b: int, n: nat)
    ensures a <= b ==> a * n <= b * n
  {
    if n > 0 {
      MulMono(a, b, n - 1);
      assert a * n == a * (n - 1) + a;
      assert b * n == b * (n - 1) + b;
    }
  }

  /** Quotient and remainder are unique. */
  lemma MulUnique(n: nat, q1: int, r1: int, q2: int, r2: int)
    requires n > 0 && 0 <= r1 < n && 0 <= r2 < n
    requires q1 * n + r1 == q2 * n + r2
    ensures q1 == q2 && r1 == r2
  {
    assert (q1 + 1) * n == q1 * n + n;
    assert (q2 + 1) * n == q2 * n + n;
    MulMono(q1 + 1, q2, n);
    MulMono(q2 + 1, q1, n);
  }

  lemma DivModUnique(a: int, n: nat, q: int, r: int)
    requires n > 0 && 0 <= r < n && a == q * n + r
    ensures a / n == q && a % n == r
  {
    var q', r' := a / n, a % n;
    assert a == q' * n + r';
    MulUnique(n, q, r, q', r');
  }

  lemma DivModNext(m: nat, n: nat)
    requires n > 0
    ensures m == (m / n) * n + m % n
    ensures m % n + 1 < n ==> (m + 1) / n == m / n && (m + 1) % n == m % n + 1
    ensures m % n + 1 == n ==> (m + 1) / n == m / n + 1 && (m + 1) % n == 0
  {
    var q, r := m / n, m % n;
    assert m == q * n + r;
    if r + 1 < n {
      DivModUnique(m + 1, n, q, r + 1);
    } else {
      assert (q + 1) * n == q * n + n;
      DivModUnique(m + 1, n, q + 1, 0);
    }
  }

  /** Positions in the same column are in the same order as their rows. */
  lemma SameColumnOrder(i: nat, m: nat, n: nat)
    requires n > 0 && i < m && i % n == m % n
    ensures i / n < m / n
  {
    var qi, qm, r := i / n, m / n, i % n;
    assert i == qi * n + r;
    assert m == qm * n + r;
    MulMono(qm, qi, n);
  }

  lemma ColumnSizeNext(m: nat, n: nat, c: nat)
    requires n > 0 && c < n
    ensures ColumnSize(m + 1, n, c) == ColumnSize(m, n, c) + (if c == m % n then 1 else 0)
  {
    DivModNext(m, n);
  }

  /** Column `c` of the dealt columns holds `ColumnSize(|xs|, n, c)` entries. */
  lemma RoundRobinSizes<T>(xs: seq<T>, n: nat)
    requires n > 0
    ensures forall c | 0 <= c < n :: |RoundRobin(xs, n)[c]| == ColumnSize(|xs|, n, c)
  {
    forall c | 0 <= c < n ensures |RoundRobin(xs, n)[c]| == ColumnSize(|xs|, n, c) {
      RoundRobinSizeAt(xs, n, c);
    }
  }

  lemma {:induction false} RoundRobinSizeAt<T>(xs: seq<T>, n: nat, c: nat)
    requires n > 0 && c < n
    ensures |RoundRobin(xs, n)[c]| == ColumnSize(|xs|, n, c)
    decreases |xs|
  {
    if xs != [] {
      var m := |xs| - 1;
      RoundRobinSizeAt(xs[..m], n, c);
      ColumnSizeNext(m, n, c);
    }
  }

  /** Layout of the dealt columns: entry `i` of `xs` sits in column `i % n`
      at place `i / n`. */
  lemma {:induction false} RoundRobinAt<T>(xs: seq<T>, n: nat, i: nat)
    requires n > 0 && i < |xs|
    ensures i / n < |RoundRobin(xs, n)[i % n]| && RoundRobin(xs, n)[i % n][i / n] == xs[i]
    decreases |xs|
  {
    var m := |xs| - 1;
    var pre := xs[..m];
    var before := RoundRobin(pre, n);
    RoundRobinSizeAt(pre, n, m % n);
    assert |before[m % n]| == m / n;
    var c, j := i % n, i / n;
    if i < m {
      RoundRobinAt(pre, n, i);
      assert j < |before[c]|;
      assert pre[i] == xs[i];
    }
    Placement(before, m, n, i, xs[m]);
  }

  /** Appending position `m` to column `m % n` puts it at place `m / n` and
      leaves every earlier position's place untouched. */
  lemma Placement<T>(before: seq<seq<T>>, m: nat, n: nat, i: nat, x: T)
    requires n > 0 && |before| == n && i <= m
    requires |before[m % n]| == m / n
    requires i < m ==> i / n < |before[i % n]|
    ensures var after := before[m % n := before[m % n] + [x]];
      i / n < |after[i % n]| &&
      after[i % n][i / n] == if i == m then x else before[i % n][i / n]
  {
    if i < m && i % n == m % n {
      SameColumnOrder(i, m, n);
    }
  }

  /** Column sizes differ by at most one, and the first `|xs| % n` columns
      are the longer ones. */
  lemma RoundRobinBalanced<T>(xs: seq<T>, n: nat)
    requires n > 0
    ensures forall c1, c2 | 0 <= c1 < n && 0 <= c2 < n ::
      |RoundRobin(xs, n)[c1]| <= |RoundRobin(xs, n)[c2]| + 1
    ensures forall c1, c2 | 0 <= c1 <= c2 < n ::
      |RoundRobin(xs, n)[c2]| <= |RoundRobin(xs, n)[c1]|
  {
    RoundRobinSizes(xs, n);
  }

  /** Each column lists its entries in the order they have in `xs`, so an
      ascending input gives ascending columns. */
  lemma RoundRobinKeepsOrder(xs: seq<int>, n: nat)
    requires n > 0 && Ascending(xs)
    ensures forall c | 0 <= c < n :: Ascending(RoundRobin(xs, n)[c])
  {
    var cols := RoundRobin(xs, n);
    forall c | 0 <= c < n ensures Ascending(cols[c]) {
      forall j1, j2 | 0 <= j1 < j2 < |cols[c]| ensures cols[c][j1] <= cols[c][j2] {
        ColumnEntry(xs, n, c, j1);
        ColumnEntry(xs, n, c, j2);
        MulMono(j1 + 1, j2, n);
        assert (j1 + 1) * n == j1 * n + n;
      }
    }
  }

  /** Read the other way: place `j` of column `c` holds entry `c + j * n`. */
  lemma ColumnEntry<T>(xs: seq<T>, n: nat, c: nat, j: nat)
    requires n > 0 && c < n && j < |RoundRobin(xs, n)[c]|
    ensures c + j * n < |xs| && RoundRobin(xs, n)[c][j] == xs[c + j * n]
  {
    RoundRobinSizeAt(xs, n, c);
    ColumnEntryInRange(|xs|, n, c, j);
    DivModUnique(c + j * n, n, j, c);
    RoundRobinAt(xs, n, c + j * n);
  }

  /** Place `j` of column `c` exists only if position `c + j * n` does. */
  lemma ColumnEntryInRange(len: nat, n: nat, c: nat, j: nat)
    requires n > 0 && c < n && j < ColumnSize(len, n, c)
    ensures c + j * n < len
  {
    var q, r := len / n, len % n;
    assert len == q * n + r;
    if j < q {
      MulMono(j + 1, q, n);
      assert (j + 1) * n == j * n + n;
    } else {
      assert j == q && c < r;
    }
  }

  lemma {:induction false} FlattenEmptyColumns<T>(n: nat)
    ensures Flatten(EmptyColumns<T>(n)) == []
  {
    if n > 0 {
      assert EmptyColumns<T>(n)[1..] == EmptyColumns<T>(n - 1);
      FlattenEmptyColumns<T>(n - 1);
    }
  }

  lemma {:induction false} FlattenAppendAt<T>(cols: seq<seq<T>>, c: nat, x: T)
    requires c < |cols|
    ensures multiset(Flatten(cols[c := cols[c] + [x]])) == multiset(Flatten(cols)) + multiset{x}
  {
    if c == 0 {
      assert cols[c := cols[c] + [x]][1..] == cols[1..];
    } else {
      assert cols[c := cols[c] + [x]][1..] == cols[1..][c - 1 := cols[c] + [x]];
      FlattenAppendAt(cols[1..], c - 1, x);
    }
  }

  /** Dealing drops nothing and adds nothing: the columns together are a
      permutation of the input, duplicates included. */
  lemma {:induction false} RoundRobinPermutation<T>(xs: seq<T>, n: nat)
    requires n > 0
    ensures multiset(Flatten(RoundRobin(xs, n))) == multiset(xs)
    decreases |xs|
  {
    if xs == [] {
      FlattenEmptyColumns<T>(n);
    } else {
      var m := |xs| - 1;
      RoundRobinPermutation(xs[..m], n);
      RoundRobinSnoc(xs, n);
      FlattenAppendAt(RoundRobin(xs[..m], n), m % n, xs[m]);
      MultisetSnoc(xs);
    }
  }

  lemma RoundRobinSnoc<T>(xs: seq<T>, n: nat)
    requires n > 0 && xs != []
    ensures var m := |xs| - 1; var cols := RoundRobin(xs[..m], n);
      RoundRobin(xs, n) == cols[m % n := cols[m % n] + [xs[m]]]
  {
  }

  lemma MultisetSnoc<T>(xs: seq<T>)
    requires xs != []
    ensures multiset(xs) == multiset(xs[..|xs| - 1]) + multiset{xs[|xs| - 1]}
  {
    assert xs == xs[..|xs| - 1] + [xs[|xs| - 1]];
  }

  /** The dealing loop `columns = [[] for _ in range(n)]; for i, x in
      enumerate(xs): columns[i % n].append(x)`. With no columns the first
      `i % n` divides by zero, with a negative count it indexes the empty
      list; an empty input raises neither. */
  method Deal<T>(xs: seq<T>, numColumns: int) returns (r: Result<seq<seq<T>>>)
    ensures numColumns > 0 ==> r == Ok(RoundRobin(xs, numColumns))
    ensures numColumns <= 0 && xs == [] ==> r == Ok([])
    ensures numColumns == 0 && xs != [] ==> r == Err(ZeroDivisionError)
    ensures numColumns < 0 && xs != [] ==> r == Err(IndexError)
  {
    if numColumns <= 0 {
      if xs == [] {
        return Ok([]);
      }
      return Err(if numColumns == 0 then ZeroDivisionError else IndexError);
    }
    var columns: seq<seq<T>> := EmptyColumns(numColumns);
    var i := 0;
    while i < |xs|
      invariant 0 <= i <= |xs|
      invariant columns == RoundRobin(xs[..i], numColumns)
    {
      var c := i % numColumns;
      columns := columns[c := columns[c] + [xs[i]]];
      i := i + 1;
      assert xs[..i][..i - 1] == xs[..i - 1];
    }
    assert xs[..i] == xs;
    return Ok(columns);
  }
}
