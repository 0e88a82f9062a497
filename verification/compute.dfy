/** Numerical helpers (src/compute.js) over `real`. `Math.sqrt` is a
    parameter `sqrt`; where a property needs it to be a true square root the
    property says so through `IsRootAt`. */
module Compute {

  /** The object `stats()` returns and analysed records hold. */
  datatype Stats = Stats(mean: real, stdev: real)

  /** `sqrt` returns a non-negative square root of `x`. */
  ghost predicate IsRootAt(sqrt: real -> real, x: real) {
    sqrt(x) >= 0.0 && sqrt(x) * sqrt(x) == x
  }

  function Sum(s: seq<real>): real {
    if |s| == 0 then 0.0 else Sum(s[..|s| - 1]) + s[|s| - 1]
  }

  /** The population mean. */
  function Mean(s: seq<real>): real
    requires |s| > 0
  {
    Sum(s) / (|s| as real)
  }

  function SquaredDeviations(s: seq<real>, m: real): real {
    if |s| == 0 then 0.0
    else SquaredDeviations(s[..|s| - 1], m) + (s[|s| - 1] - m) * (s[|s| - 1] - m)
  }

  /** The population variance: squared deviations divided by N, not N - 1. */
  function Variance(s: seq<real>): real
    requires |s| > 0
  {
    SquaredDeviations(s, Mean(s)) / (|s| as real)
  }

  lemma {:induction false} SquaredDeviationsNonNegative(s: seq<real>, m: real)
    ensures SquaredDeviations(s, m) >= 0.0
  {
    if |s| > 0 {
      SquaredDeviationsNonNegative(s[..|s| - 1], m);
      var d := s[|s| - 1] - m;
      assert d * d >= 0.0;
    }
  }

  /** The population variance is never negative. */
  lemma VarianceNonNegative(s: seq<real>)
    requires |s| > 0
    ensures Variance(s) >= 0.0
  {
    SquaredDeviationsNonNegative(s, Mean(s));
  }

  /** `stats( values )`: the mean, and the square root of the variance. */
  function StatsOf(values: seq<real>, sqrt: real -> real): (r: Stats)
    requires |values| > 0
    ensures r.mean * (|values| as real) == Sum(values)
    ensures IsRootAt(sqrt, Variance(values)) ==>
      r.stdev >= 0.0 && r.stdev * r.stdev == Variance(values)
  {
    Stats(Mean(values), sqrt(Variance(values)))
  }

  // ---- JavaScript numbers ----

  /** A JavaScript number, leaving out the infinities: a real or `NaN`. */
  datatype Number = Real(r: real) | NaN

  /** `a + b`: `NaN` is absorbing. */
  function Plus(a: Number, b: Number): (r: Number)
    ensures r.Real? <==> a.Real? && b.Real?
    ensures r.Real? ==> r.r - b.r == a.r
  {
    if a.Real? && b.Real? then Real(a.r + b.r) else NaN
  }

  /** `a - b`: `NaN` is absorbing. */
  function Minus(a: Number, b: Number): (r: Number)
    ensures r.Real? <==> a.Real? && b.Real?
    ensures r.Real? ==> r.r + b.r == a.r
  {
    if a.Real? && b.Real? then Real(a.r - b.r) else NaN
  }

  predicate AllReal(s: seq<Number>) {
    forall i | 0 <= i < |s| :: s[i].Real?
  }

  /** The reals of a sequence free of `NaN`, in order. */
  function Reals(s: seq<Number>): (r: seq<real>)
    requires AllReal(s)
    ensures |r| == |s|
    ensures forall i | 0 <= i < |s| :: s[i] == Real(r[i])
  {
    seq(|s|, i requires 0 <= i < |s| => s[i].r)
  }

  /** `subtract( seqA, seqB )`: element-wise differences, as long as `seqA`;
      past the end of `seqB` the subtrahend is `undefined`, so the
      difference is `NaN`. */
  function Subtract(a: seq<Number>, b: seq<Number>): (r: seq<Number>)
    ensures |r| == |a|
    ensures forall i | 0 <= i < |a| :: r[i].Real? <==> a[i].Real? && i < |b| && b[i].Real?
    ensures forall i | 0 <= i < |a| && r[i].Real? :: r[i].r + b[i].r == a[i].r
  {
    seq(|a|, i requires 0 <= i < |a| => if i < |b| then Minus(a[i], b[i]) else NaN)
  }

  /** The `{ mean, stdev }` object `stats()` returns, each field a
      JavaScript number. */
  datatype StatsObject = StatsObject(mean: Number, stdev: Number)

  /** `stats( values )` over JavaScript numbers: one `NaN` anywhere, or no
      values at all (the mean is 0 / 0), makes both fields `NaN`;
      otherwise it is the population mean and root of the variance. */
  function StatsOfNumbers(values: seq<Number>, sqrt: real -> real): (r: StatsObject)
    ensures r.mean.Real? <==> |values| > 0 && AllReal(values)
    ensures r.stdev.Real? <==> r.mean.Real?
    ensures r.mean.Real? ==> r.mean.r * (|values| as real) == Sum(Reals(values))
    ensures r.mean.Real? ==> r.stdev.r == sqrt(Variance(Reals(values)))
  {
    if |values| > 0 && AllReal(values) then
      var s := StatsOf(Reals(values), sqrt);
      StatsObject(Real(s.mean), Real(s.stdev))
    else StatsObject(NaN, NaN)
  }

  /** `Math.pow( d, 2 )`. */
  function Square(d: Number): Number {
    if d.Real? then Real(d.r * d.r) else NaN
  }

  /** `x / n` for a count `n`; `0 / 0` is `NaN`. */
  function DivideBy(x: Number, n: nat): (r: Number)
    requires n == 0 ==> x == Real(0.0)
  {
    if n == 0 || x.NaN? then NaN else Real(x.r / (n as real))
  }

  /** `Math.sqrt` on a JavaScript number. */
  function Root(x: Number, sqrt: real -> real): Number {
    if x.Real? then Real(sqrt(x.r)) else NaN
  }

  /** The first loop of `stats()`: `sum += value`, starting from 0. */
  function SumNumbers(s: seq<Number>): Number {
    if |s| == 0 then Real(0.0) else Plus(SumNumbers(s[..|s| - 1]), s[|s| - 1])
  }

  /** The second loop: `sqDiffSum += Math.pow( value - mean, 2 )`. */
  function SquaredDeviationsOf(s: seq<Number>, mean: Number): Number {
    if |s| == 0 then Real(0.0)
    else Plus(SquaredDeviationsOf(s[..|s| - 1], mean), Square(Minus(s[|s| - 1], mean)))
  }

  lemma RealsPrefix(s: seq<Number>)
    requires |s| > 0 && AllReal(s)
    ensures AllReal(s[..|s| - 1])
    ensures Reals(s)[..|s| - 1] == Reals(s[..|s| - 1])
  {
  }

  /** The running sum stays a real exactly while every value is one, and
      is then the sum of the reals. */
  lemma {:induction false} SumNumbersReal(s: seq<Number>)
    ensures SumNumbers(s).Real? <==> AllReal(s)
    ensures SumNumbers(s).Real? ==> SumNumbers(s).r == Sum(Reals(s))
  {
    if |s| > 0 {
      SumNumbersReal(s[..|s| - 1]);
      if AllReal(s) {
        RealsPrefix(s);
      } else if AllReal(s[..|s| - 1]) {
        assert !s[|s| - 1].Real?;
      }
    }
  }

  /** With a real mean and real values, the squared distances sum to a real. */
  lemma {:induction false} SquaredDeviationsOfReal(s: seq<Number>, m: real)
    requires AllReal(s)
    ensures SquaredDeviationsOf(s, Real(m)) == Real(SquaredDeviations(Reals(s), m))
  {
    if |s| > 0 {
      RealsPrefix(s);
      SquaredDeviationsOfReal(s[..|s| - 1], m);
    }
  }

  /** A `NaN` mean makes every squared distance `NaN`. */
  lemma {:induction false} SquaredDeviationsOfNaN(s: seq<Number>)
    requires |s| > 0
    ensures SquaredDeviationsOf(s, NaN).NaN?
  {
    if |s| > 1 {
      SquaredDeviationsOfNaN(s[..|s| - 1]);
    }
  }

  /** The two accumulating loops of `stats()`, as written, with `NaN`
      carried through every operation. */
  method ComputeStats(values: seq<Number>, sqrt: real -> real) returns (r: StatsObject)
    ensures r == StatsOfNumbers(values, sqrt)
  {
    var sum := Real(0.0);
    var i := 0;
    while i < |values|
      invariant 0 <= i <= |values|
      invariant sum == SumNumbers(values[..i])
    {
      assert values[..i + 1][..i] == values[..i];
      sum := Plus(sum, values[i]);
      i := i + 1;
    }
    assert values[..|values|] == values;
    SumNumbersReal(values);
    var mean := DivideBy(sum, |values|);
    var sqDiffSum := Real(0.0);
    i := 0;
    while i < |values|
      invariant 0 <= i <= |values|
      invariant sqDiffSum == SquaredDeviationsOf(values[..i], mean)
    {
      assert values[..i + 1][..i] == values[..i];
      sqDiffSum := Plus(sqDiffSum, Square(Minus(values[i], mean)));
      i := i + 1;
    }
    if mean.Real? {
      SquaredDeviationsOfReal(values, mean.r);
    } else if |values| > 0 {
      SquaredDeviationsOfNaN(values);
    }
    var stdev := Root(DivideBy(sqDiffSum, |values|), sqrt);
    r := StatsObject(mean, stdev);
  }

  /** `stats([ null ])`, the coerced series, and `stats([])`: a lone 0 has
      mean 0 and the root of 0 as stdev; no values give `NaN` twice. */
  lemma StatsOfNumbersExamples(sqrt: real -> real)
    ensures StatsOfNumbers([Real(0.0)], sqrt) == StatsObject(Real(0.0), Real(sqrt(0.0)))
    ensures StatsOfNumbers([], sqrt) == StatsObject(NaN, NaN)
    ensures StatsOfNumbers([Real(1.0), NaN], sqrt) == StatsObject(NaN, NaN)
  {
    ConstantSeriesHasNoSpread([0.0], 0.0, sqrt);
    assert Reals([Real(0.0)]) == [0.0];
    assert [Real(1.0), NaN][1].NaN?;
  }

  /** A series of equal values has no spread: its mean is that value, its
      variance is 0 and its stdev is the root of 0. */
  lemma {:induction false} ConstantSeriesHasNoSpread(s: seq<real>, c: real, sqrt: real -> real)
    requires |s| > 0
    requires forall i | 0 <= i < |s| :: s[i] == c
    ensures StatsOf(s, sqrt).mean == c
    ensures Variance(s) == 0.0
    ensures StatsOf(s, sqrt).stdev == sqrt(0.0)
  {
    SumOfConstant(s, c);
    assert Mean(s) == c;
    SquaredDeviationsAtConstant(s, c);
  }

  lemma {:induction false} SumOfConstant(s: seq<real>, c: real)
    requires forall i | 0 <= i < |s| :: s[i] == c
    ensures Sum(s) == (|s| as real) * c
  {
    if |s| > 0 {
      SumOfConstant(s[..|s| - 1], c);
    }
  }

  lemma {:induction false} SquaredDeviationsAtConstant(s: seq<real>, c: real)
    requires forall i | 0 <= i < |s| :: s[i] == c
    ensures SquaredDeviations(s, c) == 0.0
  {
    if |s| > 0 {
      SquaredDeviationsAtConstant(s[..|s| - 1], c);
    }
  }

  /** `stats([3, 4, 5])`: mean 4 and variance 2/3 (stdev about 0.816). */
  lemma StatsOfThreeFourFive(sqrt: real -> real)
    ensures StatsOf([3.0, 4.0, 5.0], sqrt).mean == 4.0
    ensures Variance([3.0, 4.0, 5.0]) == 2.0 / 3.0
  {
    var s := [3.0, 4.0, 5.0];
    assert s[..2] == [3.0, 4.0] && s[..2][..1] == [3.0] && s[..2][..1][..0] == [];
    assert Sum([3.0]) == 3.0;
    assert Sum([3.0, 4.0]) == 7.0;
    assert Sum(s) == 12.0;
    assert SquaredDeviations([3.0], 4.0) == 1.0;
    assert SquaredDeviations([3.0, 4.0], 4.0) == 1.0;
    assert SquaredDeviations(s, 4.0) == 2.0;
  }

  // ---- compareStdev ----

  /** After's one-stdev interval lies entirely below before's. */
  predicate Below(before: Stats, after: Stats) {
    after.mean + after.stdev < before.mean - before.stdev
  }

  /** Before's one-stdev interval lies entirely below after's. */
  predicate Above(before: Stats, after: Stats) {
    before.mean + before.stdev < after.mean - after.stdev
  }

  /** `compareStdev( before, after )`: the gap between the two one-stdev
      intervals, negative when after dropped, positive when it rose, and
      exactly 0 when they overlap or touch. */
  function CompareStdev(before: Stats, after: Stats): (r: real)
    ensures Below(before, after) ==>
      r == (after.mean + after.stdev) - (before.mean - before.stdev) && r < 0.0
    ensures !Below(before, after) && Above(before, after) ==>
      r == (after.mean - after.stdev) - (before.mean + before.stdev) && r > 0.0
    ensures r == 0.0 <==> !Below(before, after) && !Above(before, after)
  {
    var beforeStart := before.mean - before.stdev;
    var beforeEnd := before.mean + before.stdev;
    var afterStart := after.mean - after.stdev;
    var afterEnd := after.mean + after.stdev;
    if afterEnd < beforeStart then afterEnd - beforeStart
    else if beforeEnd < afterStart then afterStart - beforeEnd
    else 0.0
  }

  /** With a non-negative stdev, a stats object compared with itself is 0. */
  lemma CompareStdevSelf(x: Stats)
    requires x.stdev >= 0.0
    ensures CompareStdev(x, x) == 0.0
  {
  }

  /** With non-negative stdevs, swapping before and after negates the result. */
  lemma CompareStdevAntisymmetric(a: Stats, b: Stats)
    requires a.stdev >= 0.0 && b.stdev >= 0.0
    ensures CompareStdev(a, b) == -CompareStdev(b, a)
  {
  }

  /** The decrease example: `stats([3,4,5])` then `stats([1,1.5,2])` gives
      1.5 + sqrt(1/6) - (4 - sqrt(2/3)), about -1.275. */
  lemma CompareStdevDecreaseExample(sa: real, sb: real)
    requires sa >= 0.0 && sa * sa == 2.0 / 3.0
    requires sb >= 0.0 && sb * sb == 1.0 / 6.0
    ensures CompareStdev(Stats(4.0, sa), Stats(1.5, sb)) == 1.5 + sb - (4.0 - sa)
    ensures CompareStdev(Stats(4.0, sa), Stats(1.5, sb)) < 0.0
    ensures CompareStdev(Stats(1.5, sb), Stats(4.0, sa)) == -CompareStdev(Stats(4.0, sa), Stats(1.5, sb))
  {
    assert sa < 1.0;
    assert sb < 1.0;
  }
}
