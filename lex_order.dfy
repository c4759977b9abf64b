/** Python's ordering of integer tuples (lexicographic, a proper prefix
    first) and `sorted()` applied to a set of tuples. */
module LexOrder {
  import opened Seqs

  /** `a < b` on Python tuples. */
  predicate LexLess(a: seq<int>, b: seq<int>)
    decreases |a|
  {
    if a == [] then b != []
    else if b == [] then false
    else a[0] < b[0] || (a[0] == b[0] && LexLess(a[1..], b[1..]))
  }

  lemma {:induction false} LexIrreflexive(a: seq<int>)
    ensures !LexLess(a, a)
    decreases |a|
  {
    if a != [] {
      LexIrreflexive(a[1..]);
    }
  }

  lemma {:induction false} LexTransitive(a: seq<int>, b: seq<int>, c: seq<int>)
    requires LexLess(a, b) && LexLess(b, c)
    ensures LexLess(a, c)
    decreases |a|
  {
    if a != [] && a[0] == b[0] && b[0] == c[0] {
      LexTransitive(a[1..], b[1..], c[1..]);
    }
  }

  lemma {:induction false} LexTotal(a: seq<int>, b: seq<int>)
    requires a != b
    ensures LexLess(a, b) || LexLess(b, a)
    decreases |a|
  {
    if a != [] && b != [] && a[0] == b[0] {
      assert a == [a[0]] + a[1..] && b == [b[0]] + b[1..];
      LexTotal(a[1..], b[1..]);
    }
  }

  /** Strictly increasing in tuple order (so without duplicates). */
  predicate LexSorted(s: seq<seq<int>>) {
    forall i, j | 0 <= i < j < |s| :: LexLess(s[i], s[j])
  }

  lemma LexSortedDistinct(s: seq<seq<int>>)
    requires LexSorted(s)
    ensures Distinct(s)
  {
    forall i, j | 0 <= i < j < |s| ensures s[i] != s[j] {
      LexIrreflexive(s[i]);
    }
  }

  /** Puts a new tuple at its place in a sorted list. */
  function InsertLex(t: seq<int>, s: seq<seq<int>>): (r: seq<seq<int>>)
    requires LexSorted(s) && t !in s
    ensures LexSorted(r)
    ensures Elems(r) == Elems(s) + {t}
    ensures |r| == |s| + 1
  {
    if s == [] then [t]
    else if LexLess(t, s[0]) then
      assert forall j | 0 < j < |s| :: LexLess(t, s[j]) by {
        forall j | 0 < j < |s| ensures LexLess(t, s[j]) {
          LexTransitive(t, s[0], s[j]);
        }
      }
      assert s == [s[0]] + s[1..];
      [t] + s
    else
      LexTotal(t, s[0]);
      assert s == [s[0]] + s[1..];
      var rest := InsertLex(t, s[1..]);
      assert forall x | x in rest :: LexLess(s[0], x) by {
        forall x | x in rest ensures LexLess(s[0], x) {
          if x != t {
            assert x in Elems(s[1..]);
            var j :| 0 <= j < |s[1..]| && s[1..][j] == x;
            assert s[j + 1] == x;
          }
        }
      }
      assert forall j | 0 <= j < |rest| :: rest[j] in rest;
      [s[0]] + rest
  }

  /** `sorted(all)` for a set of tuples. */
  method SortSet(all: set<seq<int>>) returns (r: seq<seq<int>>)
    ensures LexSorted(r)
    ensures Elems(r) == all
    ensures |r| == |all|
  {
    r := [];
    var rest := all;
    while rest != {}
      invariant LexSorted(r)
      invariant Elems(r) + rest == all
      invariant Elems(r) !! rest
      invariant |r| + |rest| == |all|
      decreases |rest|
    {
      var t :| t in rest;
      r := InsertLex(t, r);
      rest := rest - {t};
    }
  }
}
