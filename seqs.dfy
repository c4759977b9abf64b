/** Sequence vocabulary shared by the whole model: element sets,
    distinctness, ordering, the ascending sort used for Python's `sorted`,
    concatenation of nested lists and sums. */
module Seqs {

  /** The set of elements of a list, Python's `set(s)`. */
  function Elems<T>(s: seq<T>): set<T> {
    set x | x in s
  }

  /** No element occurs twice. */
  predicate Distinct<T(==)>(s: seq<T>) {
    forall i, j | 0 <= i < j < |s| :: s[i] != s[j]
  }

  predicate Ascending(s: seq<int>) {
    forall i, j | 0 <= i < j < |s| :: s[i] <= s[j]
  }

  predicate StrictlyAscending(s: seq<int>) {
    forall i, j | 0 <= i < j < |s| :: s[i] < s[j]
  }

  /** A list has as many distinct elements as entries exactly when no entry
      repeats; this is what `len(set(t)) == len(t)` tests. */
  lemma {:induction false} ElemsSize<T>(s: seq<T>)
    ensures |Elems(s)| <= |s|
    ensures |Elems(s)| == |s| <==> Distinct(s)
  {
    if s != [] {
      var tail := s[1..];
      ElemsSize(tail);
      assert Elems(s) == {s[0]} + Elems(tail);
      if s[0] in tail {
        assert Elems(s) == Elems(tail);
        var j :| 0 <= j < |tail| && tail[j] == s[0];
        assert s[0] == s[j + 1];
        assert !Distinct(s);
      } else {
        assert s[0] !in Elems(tail);
        assert |Elems(s)| == 1 + |Elems(tail)|;
        if Distinct(tail) {
          forall i, j | 0 <= i < j < |s| ensures s[i] != s[j] {
            if i == 0 {
              assert s[j] == tail[j - 1];
            } else {
              assert s[i] == tail[i - 1] && s[j] == tail[j - 1];
            }
          }
        } else {
          var i, j :| 0 <= i < j < |tail| && tail[i] == tail[j];
          assert s[i + 1] == s[j + 1];
        }
      }
    }
  }

  /** Inserts `x` before the first entry that is not smaller than it. */
  function Insert(x: int, s: seq<int>): (r: seq<int>)
    ensures |r| == |s| + 1
    ensures multiset(r) == multiset(s) + multiset{x}
  {
    if s == [] then [x]
    else if x <= s[0] then [x] + s
    else
      assert s == [s[0]] + s[1..];
      [s[0]] + Insert(x, s[1..])
  }

  /** Inserting into an ascending list keeps it ascending. */
  lemma {:induction false} InsertAscending(x: int, s: seq<int>)
    requires Ascending(s)
    ensures Ascending(Insert(x, s))
  {
    if s != [] && x > s[0] {
      var rest := Insert(x, s[1..]);
      InsertAscending(x, s[1..]);
      forall k | 0 <= k < |rest| ensures s[0] <= rest[k] {
        FromInsert(x, s[1..], rest[k]);
        if rest[k] != x {
          var j :| 0 <= j < |s[1..]| && s[1..][j] == rest[k];
          assert s[j + 1] == rest[k];
        }
      }
      assert Insert(x, s) == [s[0]] + rest;
    }
  }

  /** Whatever the insertion lists is `x` or comes from `s`. */
  lemma FromInsert(x: int, s: seq<int>, y: int)
    requires y in Insert(x, s)
    ensures y == x || y in s
  {
    assert y in multiset(Insert(x, s));
  }

  /** Python's `sorted(s)` on integers. */
  function SortAscending(s: seq<int>): (r: seq<int>)
    ensures Ascending(r)
    ensures multiset(r) == multiset(s)
    ensures |r| == |s|
  {
    if s == [] then []
    else
      var n := |s| - 1;
      assert s == s[..n] + [s[n]];
      var pre := SortAscending(s[..n]);
      InsertAscending(s[n], pre);
      Insert(s[n], pre)
  }

  /** Sorting a duplicate-free list gives a strictly increasing list with
      the same elements. */
  lemma SortDistinct(s: seq<int>)
    requires Distinct(s)
    ensures StrictlyAscending(SortAscending(s))
    ensures Elems(SortAscending(s)) == Elems(s)
  {
    var r := SortAscending(s);
    assert |r| == |multiset(r)| == |multiset(s)| == |s|;
    assert Elems(r) == Elems(s) by {
      forall x ensures x in r <==> x in s {
        assert x in r <==> x in multiset(r);
        assert x in s <==> x in multiset(s);
      }
    }
    ElemsSize(s);
    ElemsSize(r);
  }

  /** Two strictly increasing lists with the same elements are equal. */
  lemma {:induction false} StrictlyAscendingUnique(a: seq<int>, b: seq<int>)
    requires StrictlyAscending(a) && StrictlyAscending(b)
    requires Elems(a) == Elems(b)
    ensures a == b
  {
    if a == [] {
      assert forall i | 0 <= i < |b| :: b[i] in Elems(b);
    } else {
      assert a[0] in Elems(b);
      assert b != [];
      assert b[0] in Elems(a);
      assert a[0] == b[0];
      assert Elems(a[1..]) == Elems(a) - {a[0]} by {
        assert a == [a[0]] + a[1..];
      }
      assert Elems(b[1..]) == Elems(b) - {b[0]} by {
        assert b == [b[0]] + b[1..];
      }
      StrictlyAscendingUnique(a[1..], b[1..]);
      assert a == [a[0]] + a[1..] && b == [b[0]] + b[1..];
    }
  }

  /** Two duplicate-free lists with no entry in common concatenate to a
      duplicate-free list. */
  lemma DistinctConcat<T>(a: seq<T>, b: seq<T>)
    requires Distinct(a) && Distinct(b)
    requires forall x | x in a :: x !in b
    ensures Distinct(a + b)
  {
    forall i, j | 0 <= i < j < |a + b| ensures (a + b)[i] != (a + b)[j] {
      if j < |a| {
        assert (a + b)[i] == a[i] && (a + b)[j] == a[j];
      } else if i < |a| {
        assert (a + b)[i] == a[i] && (a + b)[j] == b[j - |a|];
        assert a[i] in a;
      } else {
        assert (a + b)[i] == b[i - |a|] && (a + b)[j] == b[j - |a|];
      }
    }
  }

  /** Concatenation of a list of lists, in order. */
  function Flatten<T>(ss: seq<seq<T>>): seq<T> {
    if ss == [] then [] else ss[0] + Flatten(ss[1..])
  }

  /** An entry of the concatenation is an entry of one of the lists. */
  lemma {:induction false} FlattenHas<T>(ss: seq<seq<T>>)
    ensures forall x | x in Flatten(ss) :: exists i | 0 <= i < |ss| :: x in ss[i]
    ensures forall i, x | 0 <= i < |ss| && x in ss[i] :: x in Flatten(ss)
  {
    if ss != [] {
      FlattenHas(ss[1..]);
      forall x | x in Flatten(ss) ensures exists i | 0 <= i < |ss| :: x in ss[i] {
        if x !in ss[0] {
          var tail := ss[1..];
          assert x in Flatten(tail);
          var i :| 0 <= i < |tail| && x in tail[i];
          assert x in ss[i + 1];
        }
      }
      forall x, i | 0 <= i < |ss| && x in ss[i] ensures x in Flatten(ss) {
        if i > 0 {
          assert x in ss[1..][i - 1];
        }
      }
    }
  }

  lemma {:induction false} FlattenAppend<T>(ss: seq<seq<T>>, s: seq<T>)
    ensures Flatten(ss + [s]) == Flatten(ss) + s
  {
    if ss != [] {
      assert (ss + [s])[1..] == ss[1..] + [s];
      FlattenAppend(ss[1..], s);
    }
  }

  lemma {:induction false} FlattenLength<T>(rows: seq<seq<T>>, w: nat)
    requires forall r | 0 <= r < |rows| :: |rows[r]| == w
    ensures |Flatten(rows)| == |rows| * w
  {
    if rows != [] {
      FlattenLength(rows[1..], w);
      assert |rows| * w == w + (|rows| - 1) * w;
    }
  }

  /** Row-major flattening of rows of one width `w`: the entry at row `r`,
      column `c` sits at position `r * w + c`. */
  lemma {:induction false} FlattenAt<T>(rows: seq<seq<T>>, w: nat, r: nat, c: nat)
    requires forall k | 0 <= k < |rows| :: |rows[k]| == w
    requires r < |rows| && c < w
    ensures r * w + c < |Flatten(rows)| && Flatten(rows)[r * w + c] == rows[r][c]
  {
    FlattenLength(rows, w);
    if r > 0 {
      FlattenAt(rows[1..], w, r - 1, c);
      var k := (r - 1) * w + c;
      assert r * w + c == w + k;
      assert Flatten(rows) == rows[0] + Flatten(rows[1..]);
    }
  }

  function SumInt(xs: seq<int>): int {
    if xs == [] then 0 else xs[0] + SumInt(xs[1..])
  }

  function SumReal(xs: seq<real>): real {
    if xs == [] then 0.0 else xs[0] + SumReal(xs[1..])
  }

  /** The list repeated `n` times, Python's `[x] * n`. */
  function Repeat<T>(x: T, n: nat): (r: seq<T>)
    ensures |r| == n
    ensures forall i | 0 <= i < n :: r[i] == x
  {
    seq(n, _ => x)
  }
}
