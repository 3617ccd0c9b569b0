/** Cumulative return and maximum drawdown of a daily return history. */
module Drawdown {
  import opened Decimals

  ghost predicate Survivable(rates: seq<real>) {
    forall i :: 0 <= i < |rates| ==> rates[i] > -1.0
  }

  /** Wealth after the first k sessions, starting from one. */
  function Wealth(rates: seq<real>, k: nat): real
    requires k <= |rates|
  {
    if k == 0 then 1.0 else Wealth(rates, k - 1) * (1.0 + rates[k - 1])
  }

  lemma {:induction false} WealthPositive(rates: seq<real>, k: nat)
    requires Survivable(rates) && k <= |rates|
    ensures Wealth(rates, k) > 0.0
  {
    if k > 0 {
      WealthPositive(rates, k - 1);
      PositiveTimes(Wealth(rates, k - 1), 1.0 + rates[k - 1]);
    }
  }

  lemma PositiveTimes(a: real, b: real)
    requires a > 0.0 && b > 0.0
    ensures a * b > 0.0
  {
  }

  /** The fraction of wealth a lost on the way to wealth b. */
  function Drop(a: real, b: real): real
    requires a > 0.0
  {
    (a - b) / a
  }

  lemma DropBelowOne(a: real, b: real)
    requires a > 0.0 && b > 0.0
    ensures Drop(a, b) < 1.0
    ensures b <= a ==> Drop(a, b) >= 0.0
    ensures a == b ==> Drop(a, b) == 0.0
  {
    var d := Drop(a, b);
    assert d * a == a - b;
    if d >= 1.0 {
      TimesMonotone(1.0, d, a);
      assert false;
    }
    if b <= a {
      DivideMonotone(0.0, a - b, a);
    }
  }

  /** Measured from a higher starting point, the loss is at least as deep. */
  lemma DropFromPeak(a: real, peak: real, b: real)
    requires 0.0 < a <= peak && b > 0.0
    ensures Drop(a, b) <= Drop(peak, b)
  {
    InverseMonotone(a, peak, b);
    DropAsRatio(a, b);
    DropAsRatio(peak, b);
  }

  lemma DropAsRatio(a: real, b: real)
    requires a > 0.0
    ensures Drop(a, b) == 1.0 - b / a
  {
    var x := b / a;
    assert (1.0 - x) * a == a - x * a;
    DivideIs(a - b, a, 1.0 - x);
  }

  lemma DivideIs(n: real, a: real, q: real)
    requires a > 0.0 && q * a == n
    ensures n / a == q
  {
  }

  lemma InverseMonotone(a: real, c: real, b: real)
    requires 0.0 < a <= c && b > 0.0
    ensures b / c <= b / a
  {
    var x, y := b / a, b / c;
    assert x * a == b && y * c == b;
    if y > x {
      TimesMonotone(a, c, y);
      TimesMonotone(x, y, a);
      assert false;
    }
  }

  /** m is the deepest fall between any session and any later one, the start included. */
  ghost predicate IsDeepestFall(rates: seq<real>, k: nat, m: real)
    requires Survivable(rates) && k <= |rates|
  {
    && (forall i, j :: 0 <= i <= j <= k ==> FallBetween(rates, i, j) <= m)
    && (exists i, j :: 0 <= i <= j <= k && FallBetween(rates, i, j) == m)
  }

  /** The part of the wealth at one session that is gone at a later one. */
  ghost function FallBetween(rates: seq<real>, i: nat, j: nat): real
    requires Survivable(rates) && i <= j <= |rates|
  {
    WealthPositive(rates, i);
    1.0 - Wealth(rates, j) / Wealth(rates, i)
  }

  lemma FallIsDrop(rates: seq<real>, i: nat, j: nat)
    requires Survivable(rates) && i <= j <= |rates|
    ensures Wealth(rates, i) > 0.0 && FallBetween(rates, i, j) == Drop(Wealth(rates, i), Wealth(rates, j))
  {
    hide Wealth, Drop;
    WealthPositive(rates, i);
    DropAsRatio(Wealth(rates, i), Wealth(rates, j));
  }

  ghost predicate IsPeak(rates: seq<real>, k: nat, peak: real)
    requires k <= |rates|
  {
    && (forall i :: 0 <= i <= k ==> Wealth(rates, i) <= peak)
    && (exists i :: 0 <= i <= k && Wealth(rates, i) == peak)
  }

  /** One more session: the deepest fall ending there starts at the running peak. */
  lemma DeepestFallStep(rates: seq<real>, k: nat, peak: real, deepest: real)
    requires Survivable(rates) && k < |rates|
    requires IsDeepestFall(rates, k, deepest) && IsPeak(rates, k + 1, peak) && peak > 0.0
    ensures IsDeepestFall(rates, k + 1, Max(deepest, Drop(peak, Wealth(rates, k + 1))))
  {
    hide Wealth, Drop, FallBetween;
    var w := Wealth(rates, k + 1);
    var m := Max(deepest, Drop(peak, w));
    WealthPositive(rates, k + 1);
    var p :| 0 <= p <= k + 1 && Wealth(rates, p) == peak;
    FallIsDrop(rates, p, k + 1);
    forall i, j | 0 <= i <= j <= k + 1 ensures FallBetween(rates, i, j) <= m {
      if j == k + 1 {
        FallIsDrop(rates, i, j);
        DropFromPeak(Wealth(rates, i), peak, w);
      }
    }
    if m == deepest {
      var i, j :| 0 <= i <= j <= k && FallBetween(rates, i, j) == deepest;
    }
  }

  method MaximumDrawdown(rates: seq<real>) returns (maximum: real)
    requires Survivable(rates)
    ensures IsDeepestFall(rates, |rates|, maximum)
    ensures 0.0 <= maximum < 1.0
  {
    hide Wealth, Drop, IsPeak, IsDeepestFall;
    StartOfRun(rates);
    var wealth := 1.0;
    var peak := wealth;
    maximum := 0.0;
    for k := 0 to |rates|
      invariant wealth == Wealth(rates, k) > 0.0
      invariant IsPeak(rates, k, peak) && peak > 0.0
      invariant IsDeepestFall(rates, k, maximum)
      invariant 0.0 <= maximum < 1.0
    {
      WealthUnfold(rates, k + 1);
      WealthPositive(rates, k + 1);
      wealth := wealth * (1.0 + rates[k]);
      assert wealth == Wealth(rates, k + 1);
      PeakStep(rates, k, peak);
      peak := Max(peak, wealth);
      DeepestFallStep(rates, k, peak, maximum);
      DropBelowOne(peak, wealth);
      maximum := Max(maximum, Drop(peak, wealth));
    }
  }

  lemma StartOfRun(rates: seq<real>)
    requires Survivable(rates)
    ensures Wealth(rates, 0) == 1.0 && IsPeak(rates, 0, 1.0) && IsDeepestFall(rates, 0, 0.0)
  {
    DropBelowOne(1.0, 1.0);
    FallIsDrop(rates, 0, 0);
    assert FallBetween(rates, 0, 0) == 0.0;
  }

  lemma PeakStep(rates: seq<real>, k: nat, peak: real)
    requires k < |rates| && IsPeak(rates, k, peak)
    ensures IsPeak(rates, k + 1, Max(peak, Wealth(rates, k + 1)))
  {
    hide Wealth;
    var i :| 0 <= i <= k && Wealth(rates, i) == peak;
    var best := if Wealth(rates, k + 1) >= peak then k + 1 else i;
    assert Wealth(rates, best) == Max(peak, Wealth(rates, k + 1));
  }

  lemma WealthUnfold(rates: seq<real>, k: nat)
    requires k <= |rates|
    ensures Wealth(rates, k) == if k == 0 then 1.0 else Wealth(rates, k - 1) * (1.0 + rates[k - 1])
  {
  }

  method CumulativeReturn(rates: seq<real>) returns (r: real)
    ensures r == Wealth(rates, |rates|) - 1.0
  {
    var wealth := 1.0;
    for k := 0 to |rates|
      invariant wealth == Wealth(rates, k)
    {
      wealth := wealth * (1.0 + rates[k]);
    }
    r := wealth - 1.0;
  }

  /** Gross returns of consecutive histories multiply. */
  lemma {:induction false} WealthComposes(a: seq<real>, b: seq<real>, k: nat)
    requires k <= |b|
    ensures Wealth(a + b, |a| + k) == Wealth(a, |a|) * Wealth(b, k)
    decreases k
  {
    if k == 0 {
      WealthPrefix(a, b, |a|);
    } else {
      WealthComposes(a, b, k - 1);
      hide Wealth;
      WealthUnfold(b, k);
      WealthUnfold(a + b, |a| + k);
      assert (a + b)[|a| + k - 1] == b[k - 1];
      Associate(Wealth(a, |a|), Wealth(b, k - 1), 1.0 + b[k - 1]);
    }
  }

  lemma Associate(x: real, y: real, z: real)
    ensures (x * y) * z == x * (y * z)
  {
  }

  lemma {:induction false} WealthPrefix(a: seq<real>, b: seq<real>, k: nat)
    requires k <= |a|
    ensures Wealth(a + b, k) == Wealth(a, k)
  {
    if k > 0 {
      WealthPrefix(a, b, k - 1);
    }
  }
}
