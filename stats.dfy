/**
 * The aggregates the segment profile uses: pandas' `mean` (missing values
 * skipped, empty gives NaN), `round(2)` (numpy's round-half-to-even on
 * hundredths) and `mode(dropna=True).iat[0]` (the smallest of the most
 * frequent values, since pandas returns the modes sorted).
 */
module Stats {
  import opened Wrappers
  import opened Ordering

  function Sum(xs: seq<real>): real {
    if xs == [] then 0.0 else xs[0] + Sum(xs[1..])
  }

  /** The least element. */
  function Min(xs: seq<real>): (m: real)
    requires xs != []
    ensures m in xs && forall i :: 0 <= i < |xs| ==> m <= xs[i]
  {
    if |xs| == 1 then xs[0]
    else
      var rest := Min(xs[1..]);
      assert forall i :: 1 <= i < |xs| ==> xs[i] == xs[1..][i - 1];
      if xs[0] <= rest then xs[0] else rest
  }

  /** The greatest element. */
  function Max(xs: seq<real>): (m: real)
    requires xs != []
    ensures m in xs && forall i :: 0 <= i < |xs| ==> xs[i] <= m
  {
    if |xs| == 1 then xs[0]
    else
      var rest := Max(xs[1..]);
      assert forall i :: 1 <= i < |xs| ==> xs[i] == xs[1..][i - 1];
      if rest <= xs[0] then xs[0] else rest
  }

  lemma {:induction false} SumBounds(xs: seq<real>, lo: real, hi: real)
    requires forall i :: 0 <= i < |xs| ==> lo <= xs[i] <= hi
    ensures |xs| as real * lo <= Sum(xs) <= |xs| as real * hi
  {
    if xs != [] {
      assert forall i :: 0 <= i < |xs| - 1 ==> xs[1..][i] == xs[i + 1];
      SumBounds(xs[1..], lo, hi);
    }
  }

  lemma DivBounds(s: real, n: real, lo: real, hi: real)
    requires n > 0.0 && n * lo <= s <= n * hi
    ensures lo <= s / n <= hi
  {
    assert s / n * n == s;
  }

  /** The arithmetic mean, none (NaN) for no values; it lies between the least and the greatest value. */
  function Mean(xs: seq<real>): (r: Option<real>)
    ensures r.Some? <==> xs != []
    ensures r.Some? ==> Min(xs) <= r.value <= Max(xs)
  {
    if xs == [] then None
    else
      AverageBounds(xs, Min(xs), Max(xs));
      Some(Sum(xs) / |xs| as real)
  }

  /** The sum divided by the count lies within any bounds of the values. */
  lemma AverageBounds(xs: seq<real>, lo: real, hi: real)
    requires xs != [] && forall i :: 0 <= i < |xs| ==> lo <= xs[i] <= hi
    ensures lo <= Sum(xs) / |xs| as real <= hi
  {
    SumBounds(xs, lo, hi);
    DivBounds(Sum(xs), |xs| as real, lo, hi);
  }

  /** Every value equal to `x` gives mean `x`. */
  lemma {:induction false} MeanOfConstant(xs: seq<real>, x: real)
    requires xs != [] && forall i :: 0 <= i < |xs| ==> xs[i] == x
    ensures Mean(xs) == Some(x)
  {
    assert Min(xs) == x && Max(xs) == x;
  }

  /** The nearest integer, ties to the even one (numpy's `rint`). */
  function RoundHalfEven(y: real): (n: int)
    ensures y - 0.5 <= n as real <= y + 0.5
    ensures n as real == y - 0.5 || n as real == y + 0.5 ==> n % 2 == 0
  {
    var fl := y.Floor;
    var d := y - fl as real;
    if d < 0.5 then fl
    else if d > 0.5 then fl + 1
    else if fl % 2 == 0 then fl
    else fl + 1
  }

  lemma RoundInteger(n: int)
    ensures RoundHalfEven(n as real) == n
  {
    assert (n as real).Floor == n;
  }

  /**
   * `round(2)`: a whole number of hundredths, never more than half a
   * hundredth away, and on a tie the even number of hundredths.
   */
  function Round2(x: real): (r: real)
    ensures (r * 100.0).Floor as real == r * 100.0
    ensures x - 0.005 <= r <= x + 0.005
    ensures r * 100.0 == x * 100.0 - 0.5 || r * 100.0 == x * 100.0 + 0.5 ==> (r * 100.0).Floor % 2 == 0
  {
    var n := RoundHalfEven(x * 100.0);
    assert n as real / 100.0 * 100.0 == n as real;
    assert (n as real).Floor == n;
    n as real / 100.0
  }

  /** Rounding a rounded value changes nothing. */
  lemma Round2Idempotent(x: real)
    ensures Round2(Round2(x)) == Round2(x)
  {
    var n := RoundHalfEven(x * 100.0);
    assert Round2(x) * 100.0 == n as real;
    RoundInteger(n);
  }

  /** How often `v` occurs. */
  function Count(xs: seq<string>, v: string): nat {
    multiset(xs)[v]
  }

  /** The position of the first candidate with the highest count. */
  function FirstMostFrequent(cands: seq<string>, xs: seq<string>): (k: nat)
    requires cands != []
    ensures k < |cands|
    ensures forall j :: 0 <= j < |cands| ==> Count(xs, cands[j]) <= Count(xs, cands[k])
    ensures forall j :: 0 <= j < k ==> Count(xs, cands[j]) < Count(xs, cands[k])
  {
    if |cands| == 1 then 0
    else
      var k := FirstMostFrequent(cands[1..], xs);
      assert forall j :: 1 <= j < |cands| ==> cands[j] == cands[1..][j - 1];
      if Count(xs, cands[0]) >= Count(xs, cands[k + 1]) then 0 else k + 1
  }

  /**
   * `mode(dropna=True).iat[0]` of the non-missing values: none when there
   * are none (the source's `iat[0]` then raises); otherwise a value of
   * `xs` that no value outnumbers, smaller than every other value as frequent.
   */
  function Mode(xs: seq<string>): (r: Option<string>)
    ensures r.Some? <==> xs != []
    ensures r.Some? ==> r.value in xs
    ensures r.Some? ==> forall v :: v in xs ==> Count(xs, v) <= Count(xs, r.value)
    ensures r.Some? ==> forall v :: v in xs && v != r.value && Count(xs, v) == Count(xs, r.value) ==> StrLt(r.value, v)
  {
    if xs == [] then None
    else
      StrLtIsStrictTotalOrder();
      SortedUniqueCorrect(StrLt, xs);
      var cands := SortedUnique(StrLt, xs);
      assert xs[0] in cands;
      var k := FirstMostFrequent(cands, xs);
      var m := cands[k];
      assert forall v :: v in xs && v != m && Count(xs, v) == Count(xs, m) ==> StrLt(m, v) by {
        forall v | v in xs && v != m && Count(xs, v) == Count(xs, m) ensures StrLt(m, v) {
          var j :| 0 <= j < |cands| && cands[j] == v;
          assert j != k;
        }
      }
      Some(m)
  }

  /** A value that occurs more often than every other one is the mode. */
  lemma ModeOfMajority(xs: seq<string>, v: string)
    requires v in xs && forall w :: w in xs && w != v ==> Count(xs, w) < Count(xs, v)
    ensures Mode(xs) == Some(v)
  {
  }
}
