/** The Bartlett-weighted (Newey-West) long-run variance of matched daily differences. */
module LongRunVariance {
  import opened Sums
  import opened Decimals
  import opened Results

  datatype Fault = NoObservations

  function Centered(values: seq<real>): (c: seq<real>)
    requires values != []
    ensures |c| == |values|
  {
    var mean := Mean(values);
    seq(|values|, i requires 0 <= i < |values| => values[i] - mean)
  }

  /** Multiplication by name, so that proofs can keep its nonlinear body out of sight. */
  function Times(a: real, b: real): real { a * b }

  function At(c: seq<real>, i: int): real {
    if 0 <= i < |c| then c[i] else 0.0
  }

  function LaggedProduct(c: seq<real>, d: int): int -> real {
    i => Times(At(c, i), At(c, i - d))
  }

  /** Sum of c[i] * c[i - d] over the indices where both exist. */
  function Covariation(c: seq<real>, d: nat): real {
    Sum(LaggedProduct(c, d), d, |c|)
  }

  /** The accumulator after the first k lags, as the calculation builds it up. */
  function PartialVariance(c: seq<real>, lag: nat, k: nat): real
    requires c != []
  {
    var n := |c| as real;
    if k == 0 then Covariation(c, 0) / n
    else PartialVariance(c, lag, k - 1)
         + 2.0 * ((lag + 1 - k) as real / (lag + 1) as real) * (Covariation(c, k) / n)
  }

  // ---- the independent reading: squared sums of every window of lag + 1 consecutive values

  function Reversed(c: seq<real>, t: int): int -> real {
    j => At(c, t - j)
  }

  /** Sum of the lag + 1 values ending at t, counting values outside the series as zero. */
  function Window(c: seq<real>, lag: nat, t: int): real {
    Sum(Reversed(c, t), 0, lag + 1)
  }

  function WindowSquare(c: seq<real>, lag: nat): int -> real {
    t => Times(Window(c, lag, t), Window(c, lag, t))
  }

  /** Sum of the squared windows that meet the series. */
  function WindowEnergy(c: seq<real>, lag: nat): real {
    Sum(WindowSquare(c, lag), 0, |c| + lag)
  }

  // ---- the weighted covariations, cleared of denominators

  function Weighted(c: seq<real>, lag: int): int -> real {
    d => Times((lag + 1 - d) as real, Covariation(c, if d < 0 then 0 else d))
  }

  function Covariations(c: seq<real>): int -> real {
    d => Covariation(c, if d < 0 then 0 else d)
  }

  function Bartlett(c: seq<real>, lag: int): real {
    Times((lag + 1) as real, Covariation(c, 0)) + 2.0 * Sum(Weighted(c, lag), 1, lag + 1)
  }

  lemma BartlettStep(c: seq<real>, lag: nat)
    requires lag > 0
    ensures Bartlett(c, lag) == Bartlett(c, lag - 1) + Covariation(c, 0) + 2.0 * Sum(Covariations(c), 1, lag + 1)
  {
    hide Times, Sum;
    forall d | 1 <= d < lag + 1
      ensures Weighted(c, lag)(d) == Weighted(c, lag - 1)(d) + Covariations(c)(d)
    {
      OneMore((lag - d) as real, Covariation(c, d));
    }
    SumPlus(Weighted(c, lag - 1), Covariations(c), Weighted(c, lag), 1, lag + 1);
    TimesZero(0.0, Covariation(c, lag));
    SumLast(Weighted(c, lag - 1), 1, lag + 1);
    OneMore(lag as real, Covariation(c, 0));
  }

  lemma TimesZero(a: real, b: real)
    requires a == 0.0 || b == 0.0
    ensures Times(a, b) == 0.0
  {
  }

  lemma OneMore(a: real, g: real)
    ensures Times(a + 1.0, g) == Times(a, g) + g
  {
  }

  function Cross(c: seq<real>, m: nat, lag: int): int -> real {
    t => Times(Window(c, m, t), At(c, t - lag))
  }

  function ShiftedProduct(c: seq<real>, j: int, lag: int): int -> real {
    t => Times(At(c, t - j), At(c, t - lag))
  }

  lemma LaggedOutside(c: seq<real>, d: nat)
    ensures forall i :: i < d || |c| <= i ==> LaggedProduct(c, d)(i) == 0.0
  {
    hide Times;
    forall i | i < d || |c| <= i ensures LaggedProduct(c, d)(i) == 0.0 {
      TimesZero(At(c, i), At(c, i - d));
    }
  }

  lemma ShiftedIsLagged(c: seq<real>, j: nat, lag: nat)
    requires j <= lag
    ensures forall t :: ShiftedProduct(c, j, lag)(t) == LaggedProduct(c, lag - j)(t - j)
  {
    hide Times, At;
    forall t ensures ShiftedProduct(c, j, lag)(t) == LaggedProduct(c, lag - j)(t - j) {
      assert LaggedProduct(c, lag - j)(t - j) == Times(At(c, t - j), At(c, t - j - (lag - j)));
      assert t - j - (lag - j) == t - lag;
    }
  }

  /** Shifting both factors leaves a covariation at the difference of the shifts. */
  lemma ShiftedCovariation(c: seq<real>, j: nat, lag: nat, n: nat)
    requires j <= lag && n >= |c| + lag
    ensures Sum(ShiftedProduct(c, j, lag), 0, n) == Covariation(c, lag - j)
  {
    hide Times, Sum, LaggedProduct, ShiftedProduct;
    var d: int := lag - j;
    var f := LaggedProduct(c, d);
    ShiftedIsLagged(c, j, lag);
    SumShift(f, ShiftedProduct(c, j, lag), j, 0, n);
    LaggedOutside(c, d);
    if d <= |c| {
      SumSupport(f, 0 - j, d, |c|, n - j);
    } else {
      SumZero(f, 0 - j, n - j);
      SumEmpty(f, d, |c|);
    }
  }

  /** The windows of m + 1 values against the value lag behind: one covariation per shift. */
  lemma {:induction false} CrossSum(c: seq<real>, m: nat, lag: nat, n: nat)
    requires m < lag && n >= |c| + lag
    ensures Sum(Cross(c, m, lag), 0, n) == Sum(Covariations(c), lag - m, lag + 1)
    decreases m
  {
    hide *;
    CovariationsAt(c, lag - m);
    var shifted := ShiftedProduct(c, m, lag);
    ShiftedCovariation(c, m, lag, n);
    SumOne(Covariations(c), lag - m);
    CrossSteps(c, m, lag);
    if m == 0 {
      SumSame(Cross(c, 0, lag), shifted, 0, n);
    } else {
      SumPlus(Cross(c, m - 1, lag), shifted, Cross(c, m, lag), 0, n);
      CrossSum(c, m - 1, lag, n);
      SumSplit(Covariations(c), lag - m, lag - m + 1, lag + 1);
    }
  }

  lemma CovariationsAt(c: seq<real>, d: nat)
    ensures Covariations(c)(d) == Covariation(c, d)
  {
  }

  lemma CrossSteps(c: seq<real>, m: nat, lag: nat)
    ensures m == 0 ==> forall t :: Cross(c, 0, lag)(t) == ShiftedProduct(c, 0, lag)(t)
    ensures m > 0 ==> forall t :: Cross(c, m, lag)(t) == Cross(c, m - 1, lag)(t) + ShiftedProduct(c, m, lag)(t)
  {
    hide Times, Sum, Window;
    forall t
      ensures m == 0 ==> Cross(c, 0, lag)(t) == ShiftedProduct(c, 0, lag)(t)
      ensures m > 0 ==> Cross(c, m, lag)(t) == Cross(c, m - 1, lag)(t) + ShiftedProduct(c, m, lag)(t)
    {
      if m == 0 {
        WindowOfOne(c, t);
      } else {
        WindowStep(c, m, t);
        Spread(Window(c, m - 1, t), At(c, t - m), At(c, t - lag));
      }
    }
  }

  lemma WindowOfOne(c: seq<real>, t: int)
    ensures Window(c, 0, t) == At(c, t)
  {
    SumOne(Reversed(c, t), 0);
  }

  lemma WindowStep(c: seq<real>, m: nat, t: int)
    requires m > 0
    ensures Window(c, m, t) == Window(c, m - 1, t) + At(c, t - m)
  {
    SumLast(Reversed(c, t), 0, m + 1);
  }

  lemma Spread(a: real, b: real, x: real)
    ensures Times(a + b, x) == Times(a, x) + Times(b, x)
  {
  }

  lemma Square(a: real, b: real)
    ensures Times(a + b, a + b) == Times(a, a) + (2.0 * Times(a, b) + Times(b, b))
  {
  }

  function DoubledCross(c: seq<real>, lag: nat): int -> real
    requires lag > 0
  {
    t => 2.0 * Cross(c, lag - 1, lag)(t)
  }

  function SquareGrowth(c: seq<real>, lag: nat): int -> real
    requires lag > 0
  {
    t => DoubledCross(c, lag)(t) + ShiftedProduct(c, lag, lag)(t)
  }

  lemma SquareSteps(c: seq<real>, lag: nat)
    ensures lag == 0 ==> forall t :: WindowSquare(c, 0)(t) == ShiftedProduct(c, 0, 0)(t)
    ensures lag > 0 ==> forall t :: WindowSquare(c, lag)(t) == WindowSquare(c, lag - 1)(t) + SquareGrowth(c, lag)(t)
    ensures lag > 0 ==> forall t :: SquareGrowth(c, lag)(t) == DoubledCross(c, lag)(t) + ShiftedProduct(c, lag, lag)(t)
    ensures lag > 0 ==> forall t :: DoubledCross(c, lag)(t) == 2.0 * Cross(c, lag - 1, lag)(t)
  {
    hide Times, Sum, Window;
    forall t
      ensures lag == 0 ==> WindowSquare(c, 0)(t) == ShiftedProduct(c, 0, 0)(t)
      ensures lag > 0 ==> WindowSquare(c, lag)(t) == WindowSquare(c, lag - 1)(t) + SquareGrowth(c, lag)(t)
    {
      if lag == 0 {
        WindowOfOne(c, t);
      } else {
        WindowStep(c, lag, t);
        Square(Window(c, lag - 1, t), At(c, t - lag));
        assert Cross(c, lag - 1, lag)(t) == Times(Window(c, lag - 1, t), At(c, t - lag));
        assert ShiftedProduct(c, lag, lag)(t) == Times(At(c, t - lag), At(c, t - lag));
        assert SquareGrowth(c, lag)(t) == DoubledCross(c, lag)(t) + ShiftedProduct(c, lag, lag)(t);
      }
    }
  }

  /** Over any range long enough to hold every window, the squared windows add up to the weighted covariations. */
  lemma {:induction false} EnergyIsBartlett(c: seq<real>, lag: nat, n: nat)
    requires n >= |c| + lag
    ensures Sum(WindowSquare(c, lag), 0, n) == Bartlett(c, lag)
    decreases lag
  {
    hide *;
    var shifted := ShiftedProduct(c, lag, lag);
    ShiftedCovariation(c, lag, lag, n);
    SquareSteps(c, lag);
    if lag == 0 {
      BartlettZero(c);
      SumSame(WindowSquare(c, 0), shifted, 0, n);
    } else {
      CrossSum(c, lag - 1, lag, n);
      assert Sum(Cross(c, lag - 1, lag), 0, n) == Sum(Covariations(c), 1, lag + 1);
      EnergyIsBartlett(c, lag - 1, n);
      BartlettStep(c, lag);
      SumPlus(WindowSquare(c, lag - 1), SquareGrowth(c, lag), WindowSquare(c, lag), 0, n);
      SumPlus(DoubledCross(c, lag), shifted, SquareGrowth(c, lag), 0, n);
      SumScaled(2.0, Cross(c, lag - 1, lag), DoubledCross(c, lag), 0, n);
    }
  }

  lemma BartlettZero(c: seq<real>)
    ensures Bartlett(c, 0) == Covariation(c, 0)
  {
  }

  lemma ClearDenominators(a: real, b: real, g: real, n: real)
    requires b != 0.0 && n != 0.0
    ensures 2.0 * (a / b) * (g / n) * (n * b) == 2.0 * (a * g)
  {
    var x, y := a / b, g / n;
    assert a == x * b;
    assert g == y * n;
    assert 2.0 * x * y * (n * b) == 2.0 * ((x * b) * (y * n));
  }

  lemma ScaleSum(p: real, q: real, k: real)
    ensures (p + q) * k == p * k + q * k
  {
  }

  lemma ClearFirst(g: real, n: real, b: real)
    requires n != 0.0
    ensures g / n * (n * b) == b * g
  {
    var y := g / n;
    assert g == y * n;
    assert y * (n * b) == b * (y * n);
  }

  /** The accumulated variance, times its denominators, is the weighted sum of covariations. */
  lemma {:induction false} VarianceScaled(c: seq<real>, lag: nat, k: nat)
    requires c != [] && k <= lag
    ensures PartialVariance(c, lag, k) * (|c| as real * (lag + 1) as real)
         == Times((lag + 1) as real, Covariation(c, 0)) + 2.0 * Sum(Weighted(c, lag), 1, k + 1)
  {
    hide Covariation, Sum, Weighted;
    var n, b := |c| as real, (lag + 1) as real;
    if k == 0 {
      SumEmpty(Weighted(c, lag), 1, 1);
      ClearFirst(Covariation(c, 0), n, b);
    } else {
      var a, g := (lag + 1 - k) as real, Covariation(c, k);
      VarianceScaled(c, lag, k - 1);
      ScaleSum(PartialVariance(c, lag, k - 1), 2.0 * (a / b) * (g / n), n * b);
      ClearDenominators(a, b, g, n);
      WeightedAt(c, lag, k);
      SumLast(Weighted(c, lag), 1, k + 1);
    }
  }

  lemma WeightedAt(c: seq<real>, lag: int, d: nat)
    ensures Weighted(c, lag)(d) == Times((lag + 1 - d) as real, Covariation(c, d))
  {
  }

  /** Newey-West non-negativity: the long-run variance is a scaled sum of squared window sums. */
  lemma VarianceIsWindowEnergy(c: seq<real>, lag: nat)
    requires c != []
    ensures PartialVariance(c, lag, lag) * (|c| as real * (lag + 1) as real) == WindowEnergy(c, lag)
    ensures WindowEnergy(c, lag) >= 0.0
    ensures PartialVariance(c, lag, lag) >= 0.0
    ensures PartialVariance(c, lag, lag) == 0.0 <==> WindowEnergy(c, lag) == 0.0
  {
    hide *;
    var n, b := |c| as real, (lag + 1) as real;
    VarianceScaled(c, lag, lag);
    EnergyIsBartlett(c, lag, |c| + lag);
    Unfold(c, lag);
    EnergyNonNegative(c, lag);
    PositiveProduct(n, b);
    SignOfProduct(PartialVariance(c, lag, lag), n * b);
  }

  lemma Unfold(c: seq<real>, lag: nat)
    ensures Bartlett(c, lag) == Times((lag + 1) as real, Covariation(c, 0)) + 2.0 * Sum(Weighted(c, lag), 1, lag + 1)
    ensures WindowEnergy(c, lag) == Sum(WindowSquare(c, lag), 0, |c| + lag)
  {
    hide Times, Covariation, Sum, Weighted, WindowSquare;
  }

  lemma PositiveProduct(a: real, b: real)
    requires a > 0.0 && b > 0.0
    ensures a * b > 0.0
  {
  }

  lemma SignOfProduct(v: real, k: real)
    requires k > 0.0 && v * k >= 0.0
    ensures v >= 0.0
    ensures v == 0.0 <==> v * k == 0.0
  {
  }

  lemma EnergyNonNegative(c: seq<real>, lag: nat)
    ensures WindowEnergy(c, lag) >= 0.0
    ensures WindowEnergy(c, lag) == 0.0 <==> forall t :: 0 <= t < |c| + lag ==> Window(c, lag, t) == 0.0
  {
    hide Window, Sum;
    var f := WindowSquare(c, lag);
    forall t ensures f(t) >= 0.0 && (f(t) == 0.0 <==> Window(c, lag, t) == 0.0) {
      SquareSign(Window(c, lag, t));
    }
    SumNonNegative(f, 0, |c| + lag);
  }

  lemma SquareSign(x: real)
    ensures Times(x, x) >= 0.0
    ensures Times(x, x) == 0.0 <==> x == 0.0
  {
    hide Times;
    if x == 0.0 {
      TimesZero(x, x);
    } else if x > 0.0 {
      TimesPositive(x, x);
    } else {
      TimesPositive(-x, -x);
      TimesNegated(x);
    }
  }

  lemma TimesPositive(a: real, b: real)
    requires a > 0.0 && b > 0.0
    ensures Times(a, b) > 0.0
  {
    PositiveProduct(a, b);
  }

  lemma TimesNegated(x: real)
    ensures Times(-x, -x) == Times(x, x)
  {
  }

  /** A series whose windows all vanish is zero, one value at a time. */
  lemma {:induction false} WindowsVanish(c: seq<real>, lag: nat, t: nat)
    requires t <= |c|
    requires forall u :: 0 <= u < |c| + lag ==> Window(c, lag, u) == 0.0
    ensures forall i :: 0 <= i < t ==> c[i] == 0.0
  {
    if t > 0 {
      WindowsVanish(c, lag, t - 1);
      var f := Reversed(c, t - 1);
      assert Window(c, lag, t - 1) == Sum(f, 0, lag + 1) == 0.0;
      forall j | 1 <= j < lag + 1 ensures f(j) == 0.0 {
        assert f(j) == At(c, t - 1 - j);
      }
      SumSupport(f, 0, 0, 1, lag + 1);
      SumOne(f, 0);
      assert f(0) == At(c, t - 1);
    }
  }

  lemma EnergyVanishes(c: seq<real>, lag: nat)
    ensures WindowEnergy(c, lag) == 0.0 <==> forall i :: 0 <= i < |c| ==> c[i] == 0.0
  {
    EnergyNonNegative(c, lag);
    if WindowEnergy(c, lag) == 0.0 {
      WindowsVanish(c, lag, |c|);
    } else if forall i :: 0 <= i < |c| ==> c[i] == 0.0 {
      forall t | 0 <= t < |c| + lag ensures Window(c, lag, t) == 0.0 {
        forall j ensures Reversed(c, t)(j) == 0.0 {
          assert Reversed(c, t)(j) == At(c, t - j);
        }
        SumZero(Reversed(c, t), 0, lag + 1);
      }
    }
  }

  lemma ConstantMean(values: seq<real>, k: real)
    requires values != [] && forall i :: 0 <= i < |values| ==> values[i] == k
    ensures Mean(values) == k
  {
    SumBounds(Element(values), k, k, 0, |values|);
    var n := |values| as real;
    assert k * n / n == k;
  }

  ghost predicate Constant(values: seq<real>) {
    forall i, j :: 0 <= i < |values| && 0 <= j < |values| ==> values[i] == values[j]
  }

  lemma CenteredVanishes(values: seq<real>)
    requires values != []
    ensures Constant(values) <==> forall i :: 0 <= i < |values| ==> Centered(values)[i] == 0.0
  {
    if Constant(values) {
      ConstantMean(values, values[0]);
    } else if forall i :: 0 <= i < |values| ==> Centered(values)[i] == 0.0 {
      forall i | 0 <= i < |values| ensures values[i] == Mean(values) {
        assert Centered(values)[i] == 0.0;
      }
    }
  }

  /** The radicand of the standard error: the variance over n, without the clamp at zero. */
  function Radicand(values: seq<real>, lag: nat): real
    requires values != []
  {
    PartialVariance(Centered(values), lag, lag) / |values| as real
  }

  /** What is left of the values when their mean is taken off. */
  ghost predicate Deviations(values: seq<real>, c: seq<real>)
    requires values != []
  {
    |c| == |values| && forall i :: 0 <= i < |values| ==> values[i] == c[i] + Mean(values)
  }

  ghost function SquaredWindow(c: seq<real>, lag: nat): int -> real {
    t => Window(c, lag, t) * Window(c, lag, t)
  }

  /** For every series and every lag the radicand is a scaled sum of squares, those of the window sums of the
      deviations from the mean, and it is zero only for a constant series; so the clamp at zero never changes it. */
  lemma RadicandIsSumOfSquares(values: seq<real>, c: seq<real>, lag: nat)
    requires values != [] && Deviations(values, c)
    ensures Radicand(values, lag) >= 0.0
    ensures Radicand(values, lag) * |values| as real * (|values| as real * (lag + 1) as real)
         == Sum(SquaredWindow(c, lag), 0, |c| + lag)
    ensures Radicand(values, lag) == 0.0 <==> Constant(values)
  {
    hide PartialVariance, WindowEnergy, Constant, Sum;
    assert c == Centered(values);
    hide Centered;
    VarianceIsWindowEnergy(c, lag);
    EnergyVanishes(c, lag);
    CenteredVanishes(values);
    Quotient(PartialVariance(c, lag, lag), |values| as real);
    EnergyIsSquares(c, lag);
  }

  lemma EnergyIsSquares(c: seq<real>, lag: nat)
    ensures WindowEnergy(c, lag) == Sum(SquaredWindow(c, lag), 0, |c| + lag)
  {
    hide Sum, Window;
    SumSame(WindowSquare(c, lag), SquaredWindow(c, lag), 0, |c| + lag);
  }

  lemma CenteredDeviates(values: seq<real>)
    requires values != []
    ensures Deviations(values, Centered(values))
  {
  }

  lemma Quotient(v: real, n: real)
    requires v >= 0.0 && n > 0.0
    ensures v / n >= 0.0 && v / n * n == v
    ensures v / n == 0.0 <==> v == 0.0
  {
  }

  lemma CovariationPrefix(c: seq<real>, d: nat, i: nat)
    requires d <= i < |c|
    ensures Sum(LaggedProduct(c, d), d, i + 1) == Sum(LaggedProduct(c, d), d, i) + Times(c[i], c[i - d])
  {
    hide *;
    SumLast(LaggedProduct(c, d), d, i + 1);
    LaggedAt(c, d, i);
  }

  lemma LaggedAt(c: seq<real>, d: nat, i: nat)
    requires d <= i < |c|
    ensures LaggedProduct(c, d)(i) == Times(c[i], c[i - d])
  {
  }

  method Covary(c: seq<real>, d: nat) returns (total: real)
    ensures total == Covariation(c, d)
  {
    hide Sum, LaggedProduct, Times;
    total := 0.0;
    var index := d;
    SumEmpty(LaggedProduct(c, d), d, d);
    while index < |c|
      invariant d <= index && (index <= |c| || index == d)
      invariant total == Sum(LaggedProduct(c, d), d, index)
    {
      CovariationPrefix(c, d, index);
      total := total + Times(c[index], c[index - d]);
      index := index + 1;
    }
    if index > |c| {
      SumEmpty(LaggedProduct(c, d), d, |c|);
    }
  }

  /** The radicand of `_newey_west_standard_error`, whose square root is the reported error. */
  method NeweyWestRadicand(values: seq<real>, lag: nat) returns (r: Result<real, Fault>)
    ensures r.Err? <==> values == []
    ensures r.Ok? ==> r.value == Radicand(values, lag)
    ensures r.Ok? ==> r.value >= 0.0 && (r.value == 0.0 <==> Constant(values))
  {
    hide Sum, Mean, Covariation, Centered, Constant;
    if values == [] {
      return Err(NoObservations);
    }
    var centered := Centered(values);
    var n := |values| as real;
    var squares := Covary(centered, 0);
    var longRunVariance := squares / n;
    for offset := 1 to lag + 1
      invariant longRunVariance == PartialVariance(centered, lag, offset - 1)
    {
      var covariation := Covary(centered, offset);
      var weight := (lag + 1 - offset) as real / (lag + 1) as real;
      longRunVariance := longRunVariance + 2.0 * weight * (covariation / n);
    }
    VarianceIsWindowEnergy(centered, lag);
    CenteredDeviates(values);
    RadicandIsSumOfSquares(values, centered, lag);
    r := Ok(Max(0.0, longRunVariance) / n);
  }
}
