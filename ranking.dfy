/** `df.sort_values(by=score, ascending=False)` followed by `head(n)` over
    the (number, score) rows of the feature table. */
module Ranking {
  import opened Pricing

  /** Scores never increase along the list. */
  predicate NonIncreasing(rows: seq<Row>) {
    forall i, j | 0 <= i < j < |rows| :: rows[i].score >= rows[j].score
  }

  /** Puts `r` before the first row scoring less than it. */
  function InsertByScore(r: Row, s: seq<Row>): (q: seq<Row>)
    ensures |q| == |s| + 1
    ensures multiset(q) == multiset(s) + multiset{r}
  {
    if s == [] then [r]
    else if r.score > s[0].score then [r] + s
    else
      assert s == [s[0]] + s[1..];
      [s[0]] + InsertByScore(r, s[1..])
  }

  /** Inserting into a ranking gives a ranking. */
  lemma {:induction false} InsertByScoreSorted(r: Row, s: seq<Row>)
    requires NonIncreasing(s)
    ensures NonIncreasing(InsertByScore(r, s))
  {
    if s != [] && r.score <= s[0].score {
      var rest := InsertByScore(r, s[1..]);
      InsertByScoreSorted(r, s[1..]);
      forall j | 0 <= j < |rest| ensures s[0].score >= rest[j].score {
        FromInsert(r, s[1..], rest[j]);
        if rest[j] != r {
          var k :| 0 <= k < |s[1..]| && s[1..][k] == rest[j];
          assert s[k + 1] == rest[j];
        }
      }
      assert InsertByScore(r, s) == [s[0]] + rest;
    }
  }

  /** Whatever the insertion lists is `r` or comes from `s`. */
  lemma FromInsert(r: Row, s: seq<Row>, x: Row)
    requires x in InsertByScore(r, s)
    ensures x == r || x in s
  {
    assert x in multiset(InsertByScore(r, s));
  }

  lemma {:induction false} InsertByScoreNumbers(r: Row, s: seq<Row>)
    ensures multiset(Numbers(InsertByScore(r, s))) == multiset(Numbers(s)) + multiset{r.number}
  {
    if s != [] {
      if r.score > s[0].score {
        NumbersCons(r, s);
      } else {
        InsertByScoreNumbers(r, s[1..]);
        ConsNumbers(s[0], s[1..], InsertByScore(r, s[1..]), r.number);
        InsertBehindHead(r, s);
      }
    }
  }

  lemma InsertBehindHead(r: Row, s: seq<Row>)
    requires s != [] && r.score <= s[0].score
    ensures InsertByScore(r, s) == [s[0]] + InsertByScore(r, s[1..])
    ensures s == [s[0]] + s[1..]
  {
  }

  /** Putting the same row in front of both sides keeps one extra number. */
  lemma ConsNumbers(x: Row, tail: seq<Row>, rest: seq<Row>, extra: int)
    requires multiset(Numbers(rest)) == multiset(Numbers(tail)) + multiset{extra}
    ensures multiset(Numbers([x] + rest)) == multiset(Numbers([x] + tail)) + multiset{extra}
  {
    NumbersCons(x, rest);
    NumbersCons(x, tail);
  }

  lemma NumbersCons(x: Row, rest: seq<Row>)
    ensures multiset(Numbers([x] + rest)) == multiset{x.number} + multiset(Numbers(rest))
  {
    NumbersAppend([x], rest);
  }

  /** A ranking of the rows by score, highest first. Rows with equal scores
      keep their table order, which is one of the orders the library's
      unstable sort may produce. */
  function RankOrder(rows: seq<Row>): (ranked: seq<Row>)
    ensures |ranked| == |rows|
    ensures multiset(ranked) == multiset(rows)
  {
    if rows == [] then []
    else
      var n := |rows| - 1;
      assert rows == rows[..n] + [rows[n]];
      InsertByScore(rows[n], RankOrder(rows[..n]))
  }

  /** The ranking lists scores from highest to lowest. */
  lemma {:induction false} RankOrderSorted(rows: seq<Row>)
    ensures NonIncreasing(RankOrder(rows))
  {
    if rows != [] {
      var n := |rows| - 1;
      RankOrderSorted(rows[..n]);
      InsertByScoreSorted(rows[n], RankOrder(rows[..n]));
    }
  }

  /** Ranking keeps every number, as often as it occurs. */
  lemma {:induction false} RankOrderNumbers(rows: seq<Row>)
    ensures multiset(Numbers(RankOrder(rows))) == multiset(Numbers(rows))
  {
    if rows != [] {
      var n := |rows| - 1;
      RankOrderNumbers(rows[..n]);
      InsertByScoreNumbers(rows[n], RankOrder(rows[..n]));
      NumbersSnoc(rows);
    }
  }

  lemma NumbersSnoc(rows: seq<Row>)
    requires rows != []
    ensures multiset(Numbers(rows)) ==
      multiset(Numbers(rows[..|rows| - 1])) + multiset{rows[|rows| - 1].number}
  {
    var n := |rows| - 1;
    assert Numbers(rows) == Numbers(rows[..n]) + [rows[n].number];
  }

  /** Rows that are a permutation of each other carry the same numbers,
      as often. */
  lemma {:induction false} NumbersPermutation(a: seq<Row>, b: seq<Row>)
    requires multiset(a) == multiset(b)
    ensures multiset(Numbers(a)) == multiset(Numbers(b))
    decreases |a|
  {
    if a != [] {
      assert a[0] in multiset(b);
      var k :| 0 <= k < |b| && b[k] == a[0];
      RestPermutation(a, b, k);
      NumbersPermutation(a[1..], b[..k] + b[k + 1..]);
      NumbersPermutationStep(a, b, k);
    }
  }

  /** Taking the same row out of both sides leaves a permutation. */
  lemma RestPermutation<T>(a: seq<T>, b: seq<T>, k: nat)
    requires multiset(a) == multiset(b) && a != [] && k < |b| && b[k] == a[0]
    ensures multiset(a[1..]) == multiset(b[..k] + b[k + 1..])
  {
    assert a == [a[0]] + a[1..];
    RemoveAt(b, k);
  }

  /** Putting the same row back into both sides keeps the numbers equal. */
  lemma NumbersPermutationStep(a: seq<Row>, b: seq<Row>, k: nat)
    requires a != [] && k < |b| && b[k] == a[0]
    requires multiset(Numbers(a[1..])) == multiset(Numbers(b[..k] + b[k + 1..]))
    ensures multiset(Numbers(a)) == multiset(Numbers(b))
  {
    assert a == [a[0]] + a[1..];
    NumbersCons(a[0], a[1..]);
    NumbersRemoveAt(b, k);
  }

  lemma RemoveAt<T>(s: seq<T>, k: nat)
    requires k < |s|
    ensures multiset(s[..k] + s[k + 1..]) == multiset(s) - multiset{s[k]}
  {
    assert s == s[..k] + [s[k]] + s[k + 1..];
  }

  lemma NumbersRemoveAt(s: seq<Row>, k: nat)
    requires k < |s|
    ensures multiset(Numbers(s)) == multiset(Numbers(s[..k] + s[k + 1..])) + multiset{s[k].number}
  {
    assert s == s[..k] + ([s[k]] + s[k + 1..]);
    NumbersAppend(s[..k], [s[k]] + s[k + 1..]);
    NumbersCons(s[k], s[k + 1..]);
    NumbersAppend(s[..k], s[k + 1..]);
  }

  lemma NumbersAppend(a: seq<Row>, b: seq<Row>)
    ensures Numbers(a + b) == Numbers(a) + Numbers(b)
  {
  }

  /** `head(n)`: the first `n` rows; a negative `n` drops the last `-n`. */
  function Head(rows: seq<Row>, n: int): (h: seq<Row>)
    ensures n >= 0 ==> |h| == if n < |rows| then n else |rows|
    ensures n < 0 ==> |h| == if -n < |rows| then |rows| + n else 0
    ensures h == rows[..|h|]
  {
    if n >= 0 then rows[..if n < |rows| then n else |rows|]
    else rows[..if -n < |rows| then |rows| + n else 0]
  }

  /** Keeping a prefix of a ranking leaves it a ranking, and what is kept
      scores at least as much as what is dropped. */
  lemma HeadKeepsTop(rows: seq<Row>, n: int)
    requires NonIncreasing(rows)
    ensures NonIncreasing(Head(rows, n))
    ensures forall i, j | 0 <= i < |Head(rows, n)| <= j < |rows| :: rows[i].score >= rows[j].score
  {
  }
}
