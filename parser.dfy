/** The draw-string parser: every maximal run of decimal digits becomes one
    non-negative integer, and anything that is not a string gives no
    numbers. Its counterpart is the writer that stores a draw as its
    numbers in decimal, joined by commas. */
module Parser {
  import opened Seqs

  predicate IsDigit(c: char) {
    '0' <= c <= '9'
  }

  predicate AllDigits(s: string) {
    forall i | 0 <= i < |s| :: IsDigit(s[i])
  }

  function DigitValue(c: char): (d: nat)
    requires IsDigit(c)
    ensures d < 10
  {
    (c as int) - ('0' as int)
  }

  function DigitChar(d: nat): (c: char)
    requires d < 10
    ensures IsDigit(c) && DigitValue(c) == d
  {
    ('0' as int + d) as char
  }

  /** `int(run)` for a run of decimal digits; leading zeros add nothing. */
  function ValueOf(run: string): (v: nat)
    requires AllDigits(run)
    ensures run != [] && run[0] == '0' ==> v == ValueOf(run[1..])
  {
    if run == [] then 0
    else
      var n := |run|;
      assert n > 1 ==> run[..n - 1][1..] == run[1..][..n - 2] && run[1..][n - 2] == run[n - 1];
      ValueOf(run[..n - 1]) * 10 + DigitValue(run[n - 1])
  }

  /** The length of the longest prefix of `s` made of digits. */
  function DigitPrefix(s: string): (k: nat)
    ensures k <= |s|
    ensures AllDigits(s[..k])
    ensures k < |s| ==> !IsDigit(s[k])
  {
    if s == [] || !IsDigit(s[0]) then 0
    else
      var k := 1 + DigitPrefix(s[1..]);
      assert forall i | 1 <= i < k :: s[..k][i] == s[1..][..k - 1][i - 1];
      k
  }

  /** `re.findall(r'\d+', s)`: the maximal runs of digits, left to right. */
  function Runs(s: string): (runs: seq<string>)
    ensures forall r | r in runs :: r != [] && AllDigits(r)
    decreases |s|
  {
    if s == [] then []
    else if !IsDigit(s[0]) then Runs(s[1..])
    else
      var k := DigitPrefix(s);
      [s[..k]] + Runs(s[k..])
  }

  /** The digits of `s`, in order. */
  function DigitsOf(s: string): string {
    if s == [] then []
    else (if IsDigit(s[0]) then [s[0]] else []) + DigitsOf(s[1..])
  }

  /** The number of positions where a run of digits starts: a digit whose
      predecessor is not a digit (`afterDigit` says whether the character
      before `s` is one). */
  function RunStarts(s: string, afterDigit: bool): nat {
    if s == [] then 0
    else (if IsDigit(s[0]) && !afterDigit then 1 else 0) + RunStarts(s[1..], IsDigit(s[0]))
  }

  /** The runs hold exactly the digits of the string, in order; there is
      one run for every place where a run of digits starts; and the runs
      sit in the string left to right, each a whole run with no digit just
      before or after it, each ending before the next begins. So no run is
      split, merged with its neighbour or out of order. */
  lemma {:induction false} RunsAreMaximal(s: string)
    ensures Flatten(Runs(s)) == DigitsOf(s)
    ensures |Runs(s)| == RunStarts(s, false)
    ensures exists ps :: PlacedAt(s, Runs(s), ps) && Separated(Runs(s), ps)
    decreases |s|
  {
    RunsPlaced(s);
    RunsSeparated(s);
    if s != [] {
      if !IsDigit(s[0]) {
        RunsAreMaximal(s[1..]);
      } else {
        var k := DigitPrefix(s);
        RunsAreMaximal(s[k..]);
        assert s == s[..k] + s[k..];
        DigitsOfAppend(s[..k], s[k..]);
        DigitsOfAllDigits(s[..k]);
        StartsInsideRun(s, k);
        assert Runs(s) == [s[..k]] + Runs(s[k..]);
      }
    }
  }

  /** `r` occurs in `s` at `p` as a whole run: it is not preceded by a
      digit and not followed by one. */
  predicate MaximalRunAt(s: string, p: nat, r: string) {
    p + |r| <= |s| && s[p..p + |r|] == r &&
    (p == 0 || !IsDigit(s[p - 1])) &&
    (p + |r| == |s| || !IsDigit(s[p + |r|]))
  }

  /** Run `i` sits in `s` at position `ps[i]` as a whole run. */
  predicate PlacedAt(s: string, runs: seq<string>, ps: seq<nat>) {
    |ps| == |runs| && forall i | 0 <= i < |ps| :: MaximalRunAt(s, ps[i], runs[i])
  }

  /** Each run ends strictly before any later run begins. */
  predicate Separated(runs: seq<string>, ps: seq<nat>) {
    |ps| == |runs| && forall i, j | 0 <= i < j < |ps| :: ps[i] + |runs[i]| < ps[j]
  }

  function Shift(ps: seq<nat>, d: nat): (r: seq<nat>)
    ensures |r| == |ps| && forall i | 0 <= i < |ps| :: r[i] == ps[i] + d
  {
    seq(|ps|, i requires 0 <= i < |ps| => ps[i] + d)
  }

  /** Where the runs of `s` start. */
  function RunPositions(s: string): (ps: seq<nat>)
    decreases |s|
  {
    if s == [] then []
    else if !IsDigit(s[0]) then Shift(RunPositions(s[1..]), 1)
    else
      var k := DigitPrefix(s);
      [0] + Shift(RunPositions(s[k..]), k)
  }

  /** Every run sits at its position as a whole run of `s`. */
  lemma {:induction false} RunsPlaced(s: string)
    ensures PlacedAt(s, Runs(s), RunPositions(s))
    decreases |s|
  {
    if s != [] {
      if !IsDigit(s[0]) {
        RunsPlaced(s[1..]);
        PlacedAfterNonDigit(s);
      } else {
        RunsPlaced(s[DigitPrefix(s)..]);
        PlacedAfterRun(s);
      }
    }
  }

  lemma PlacedAfterNonDigit(s: string)
    requires s != [] && !IsDigit(s[0])
    requires PlacedAt(s[1..], Runs(s[1..]), RunPositions(s[1..]))
    ensures PlacedAt(s, Runs(s), RunPositions(s))
  {
    var runs, qs := Runs(s[1..]), RunPositions(s[1..]);
    assert Runs(s) == runs && RunPositions(s) == Shift(qs, 1);
    forall i | 0 <= i < |qs| ensures MaximalRunAt(s, qs[i] + 1, runs[i]) {
      ShiftRun(s, 1, qs[i], runs[i]);
    }
  }

  lemma PlacedAfterRun(s: string)
    requires s != [] && IsDigit(s[0])
    requires PlacedAt(s[DigitPrefix(s)..], Runs(s[DigitPrefix(s)..]), RunPositions(s[DigitPrefix(s)..]))
    ensures PlacedAt(s, Runs(s), RunPositions(s))
  {
    var k := DigitPrefix(s);
    var rest, qs := Runs(s[k..]), RunPositions(s[k..]);
    var runs, ps := Runs(s), RunPositions(s);
    assert runs == [s[..k]] + rest && ps == [0] + Shift(qs, k);
    assert s[..k] == s[0..k];
    assert MaximalRunAt(s, ps[0], runs[0]);
    forall i | 0 <= i < |qs| ensures MaximalRunAt(s, qs[i] + k, rest[i]) {
      LaterRun(s, k, rest, qs, i);
    }
    PlacedCons(s, s[..k], rest, qs, k);
  }

  lemma LaterRun(s: string, k: nat, rest: seq<string>, qs: seq<nat>, i: nat)
    requires k == DigitPrefix(s) && k > 0
    requires rest == Runs(s[k..]) && PlacedAt(s[k..], rest, qs) && i < |qs|
    ensures MaximalRunAt(s, qs[i] + k, rest[i])
  {
    assert rest[i] in rest;
    ShiftLaterRun(s, k, qs[i], rest[i]);
  }

  lemma PlacedCons(s: string, r: string, rest: seq<string>, qs: seq<nat>, k: nat)
    requires MaximalRunAt(s, 0, r) && |qs| == |rest|
    requires forall i | 0 <= i < |qs| :: MaximalRunAt(s, qs[i] + k, rest[i])
    ensures PlacedAt(s, [r] + rest, [0] + Shift(qs, k))
  {
  }

  lemma ShiftLaterRun(s: string, k: nat, q: nat, r: string)
    requires k == DigitPrefix(s) && k > 0
    requires r != [] && AllDigits(r) && MaximalRunAt(s[k..], q, r)
    ensures MaximalRunAt(s, q + k, r)
  {
    NotAtFront(s, k, q, r);
    ShiftRun(s, k, q, r);
  }

  /** A run of the suffix after a digit prefix does not start at its front. */
  lemma NotAtFront(s: string, k: nat, q: nat, r: string)
    requires k == DigitPrefix(s) && k > 0
    requires r != [] && AllDigits(r) && MaximalRunAt(s[k..], q, r)
    ensures q > 0
  {
    assert s[k..][q] == r[0];
  }

  /** The runs come left to right, each ending before the next begins. */
  lemma {:induction false} RunsSeparated(s: string)
    ensures Separated(Runs(s), RunPositions(s))
    decreases |s|
  {
    if s != [] {
      if !IsDigit(s[0]) {
        RunsSeparated(s[1..]);
        SeparatedShift(Runs(s[1..]), RunPositions(s[1..]), 1);
      } else {
        var k := DigitPrefix(s);
        var rest, qs := Runs(s[k..]), RunPositions(s[k..]);
        RunsSeparated(s[k..]);
        RunsPlaced(s[k..]);
        if qs != [] {
          LaterRun(s, k, rest, qs, 0);
        }
        SeparatedCons(s[..k], rest, qs, k);
        assert Runs(s) == [s[..k]] + rest;
      }
    }
  }

  lemma SeparatedShift(runs: seq<string>, qs: seq<nat>, d: nat)
    requires Separated(runs, qs)
    ensures Separated(runs, Shift(qs, d))
  {
  }

  lemma SeparatedCons(r: string, rest: seq<string>, qs: seq<nat>, k: nat)
    requires |r| == k && Separated(rest, qs)
    requires qs != [] ==> qs[0] + k > k
    ensures Separated([r] + rest, [0] + Shift(qs, k))
  {
    assert forall j | 0 < j < |qs| :: qs[0] < qs[j];
  }

  /** A whole run of a suffix, not at its front, is a whole run of `s`. */
  lemma ShiftRun(s: string, d: nat, q: nat, r: string)
    requires d <= |s| && MaximalRunAt(s[d..], q, r)
    requires q == 0 && d > 0 ==> !IsDigit(s[d - 1])
    ensures MaximalRunAt(s, q + d, r)
  {
    assert s[d..][q..q + |r|] == s[q + d..q + d + |r|];
    if q > 0 {
      assert s[d..][q - 1] == s[q + d - 1];
    }
    if q + |r| < |s[d..]| {
      assert s[d..][q + |r|] == s[q + d + |r|];
    }
  }

  lemma {:induction false} DigitsOfAppend(a: string, b: string)
    ensures DigitsOf(a + b) == DigitsOf(a) + DigitsOf(b)
  {
    if a == [] {
      assert a + b == b;
    } else {
      var first := if IsDigit(a[0]) then [a[0]] else [];
      DigitsOfAppend(a[1..], b);
      ConsAppend(a, b);
      assert DigitsOf(a + b) == first + DigitsOf(a[1..] + b);
      assert first + (DigitsOf(a[1..]) + DigitsOf(b)) == (first + DigitsOf(a[1..])) + DigitsOf(b);
    }
  }

  lemma ConsAppend(a: string, b: string)
    requires a != []
    ensures (a + b)[0] == a[0] && (a + b)[1..] == a[1..] + b
  {
  }

  lemma {:induction false} DigitsOfAllDigits(s: string)
    requires AllDigits(s)
    ensures DigitsOf(s) == s
  {
    if s != [] {
      DigitsOfAllDigits(s[1..]);
    }
  }

  /** A run of `k` digits at the front counts as one start, and what
      follows it starts afresh because it begins with a non-digit or is
      empty. */
  lemma StartsInsideRun(s: string, k: nat)
    requires 0 < k <= |s| && AllDigits(s[..k])
    requires k < |s| ==> !IsDigit(s[k])
    ensures RunStarts(s, false) == 1 + RunStarts(s[k..], false)
  {
    assert IsDigit(s[..k][0]);
    assert RunStarts(s, false) == 1 + RunStarts(s[1..], true);
    assert s[1..][..k - 1] == s[..k][1..];
    DigitRunStarts(s[1..], k - 1);
    assert s[1..][k - 1..] == s[k..];
  }

  lemma {:induction false} DigitRunStarts(s: string, k: nat)
    requires k <= |s| && AllDigits(s[..k])
    requires k < |s| ==> !IsDigit(s[k])
    ensures RunStarts(s, true) == RunStarts(s[k..], false)
  {
    if k > 0 {
      assert s[1..][..k - 1] == s[..k][1..];
      DigitRunStarts(s[1..], k - 1);
      assert s[1..][k - 1..] == s[k..];
    } else if s != [] {
      assert !IsDigit(s[0]);
    }
  }

  /** What the parser is given: a string, or a value of another type (a
      missing cell, a number). */
  datatype Input = Text(s: string) | NonText

  /** `parse_numbers_safely`: the value of every maximal run of digits, in
      order; anything other than a string gives the empty list. */
  function ParseNumbersSafely(x: Input): (ns: seq<nat>)
    ensures x.NonText? ==> ns == []
    ensures x.Text? ==> |ns| == |Runs(x.s)|
    ensures x.Text? ==> forall i | 0 <= i < |ns| :: ns[i] == ValueOf(Runs(x.s)[i])
  {
    match x
    case NonText => []
    case Text(s) =>
      var runs := Runs(s);
      seq(|runs|, i requires 0 <= i < |runs| => ValueOf(runs[i]))
  }

  /** A string without digits gives no numbers. */
  lemma {:induction false} NoDigitsNoNumbers(s: string)
    requires forall i | 0 <= i < |s| :: !IsDigit(s[i])
    ensures ParseNumbersSafely(Text(s)) == []
    decreases |s|
  {
    if s != [] {
      NoDigitsNoNumbers(s[1..]);
    }
  }

  /** `str(n)` for a non-negative integer: its decimal digits, no leading
      zero. */
  function NatToString(n: nat): (s: string)
    ensures s != [] && AllDigits(s)
    ensures ValueOf(s) == n
    ensures |s| > 1 ==> s[0] != '0'
  {
    if n < 10 then [DigitChar(n)]
    else
      var pre := NatToString(n / 10);
      var s := pre + [DigitChar(n % 10)];
      assert s[..|s| - 1] == pre;
      s
  }

  /** `",".join(map(str, numbers))`, the writer of a draw. */
  function JoinComma(ns: seq<nat>): (s: string)
    ensures s == [] <==> ns == []
    ensures forall i | 0 <= i < |s| :: IsDigit(s[i]) || s[i] == ','
  {
    if ns == [] then []
    else if |ns| == 1 then NatToString(ns[0])
    else NatToString(ns[0]) + "," + JoinComma(ns[1..])
  }

  /** Reading back what the writer wrote gives the same numbers. */
  lemma ParseJoinRoundTrip(ns: seq<nat>)
    ensures ParseNumbersSafely(Text(JoinComma(ns))) == ns
  {
    RunsOfJoin(ns);
  }

  /** The writer's runs are the decimal strings of the numbers, one each. */
  lemma {:induction false} RunsOfJoin(ns: seq<nat>)
    ensures |Runs(JoinComma(ns))| == |ns|
    ensures forall i | 0 <= i < |ns| :: Runs(JoinComma(ns))[i] == NatToString(ns[i])
  {
    if |ns| == 1 {
      JoinSingle(ns[0]);
    } else if ns != [] {
      RunsOfJoin(ns[1..]);
      JoinUnfold(ns);
      StringsCons(ns, Runs(JoinComma(ns[1..])));
    }
  }

  /** A single number is written alone and read back as one run. */
  lemma JoinSingle(n: nat)
    ensures Runs(JoinComma([n])) == [NatToString(n)]
  {
    var digits := NatToString(n);
    RunOfNumber(digits, []);
    assert digits + [] == digits;
  }

  /** The decimal strings of `ns[1..]`, preceded by that of `ns[0]`, are
      those of `ns`. */
  lemma StringsCons(ns: seq<nat>, rest: seq<string>)
    requires ns != [] && |rest| == |ns| - 1
    requires forall i | 0 <= i < |rest| :: rest[i] == NatToString(ns[1..][i])
    ensures forall i | 0 <= i < |ns| :: ([NatToString(ns[0])] + rest)[i] == NatToString(ns[i])
  {
    forall i | 1 <= i < |ns| ensures ([NatToString(ns[0])] + rest)[i] == NatToString(ns[i]) {
      assert ns[1..][i - 1] == ns[i];
    }
  }

  /** The first number's run, then the runs after the comma. */
  lemma JoinUnfold(ns: seq<nat>)
    requires |ns| > 1
    ensures Runs(JoinComma(ns)) == [NatToString(ns[0])] + Runs(JoinComma(ns[1..]))
  {
    RunsAfterNumber(NatToString(ns[0]), JoinComma(ns[1..]));
  }

  /** A number written before a comma is one run, and reading resumes
      after the comma. */
  lemma RunsAfterNumber(digits: string, rest: string)
    requires digits != [] && AllDigits(digits)
    ensures Runs(digits + "," + rest) == [digits] + Runs(rest)
  {
    var afterComma := "," + rest;
    assert digits + "," + rest == digits + afterComma;
    RunOfNumber(digits, afterComma);
    CommaSkipped(rest);
  }

  /** A comma is not a digit, so reading skips it. */
  lemma CommaSkipped(rest: string)
    ensures Runs("," + rest) == Runs(rest)
  {
    assert ("," + rest)[1..] == rest;
  }

  /** A run of digits followed by nothing or by a non-digit is read as one
      run, and reading resumes after it. */
  lemma RunOfNumber(digits: string, rest: string)
    requires digits != [] && AllDigits(digits)
    requires rest != [] ==> !IsDigit(rest[0])
    ensures Runs(digits + rest) == [digits] + Runs(rest)
  {
    var s := digits + rest;
    PrefixLength(s, |digits|);
    assert s[..|digits|] == digits && s[|digits|..] == rest;
  }

  lemma {:induction false} PrefixLength(s: string, k: nat)
    requires k <= |s| && AllDigits(s[..k])
    requires k < |s| ==> !IsDigit(s[k])
    ensures DigitPrefix(s) == k
  {
    if k > 0 {
      assert s[1..][..k - 1] == s[..k][1..];
      PrefixLength(s[1..], k - 1);
    }
  }

  /** A minus sign is not a digit: "-3" reads as 3. */
  lemma MinusSignIgnored()
    ensures ParseNumbersSafely(Text("-3")) == [3]
  {
    RunOfNumber("3", []);
    assert "-3"[1..] == "3" + [];
  }

  /** Leading zeros vanish: "007" reads as 7. */
  lemma LeadingZerosVanish()
    ensures ParseNumbersSafely(Text("007")) == [7]
  {
    RunOfNumber("007", []);
    assert "007" + [] == "007";
    assert "007"[..2] == "00" && "00"[..1] == "0" && "0"[..0] == [];
  }
}
