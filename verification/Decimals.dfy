/** Decimal rounding over exact reals: quantize to a positive quantum, toward zero or half-even. */
module Decimals {

  function Abs(x: real): (r: real)
    ensures r >= 0.0 && (r == x || r == -x)
  {
    if x < 0.0 then -x else x
  }

  function Min(a: real, b: real): real { if a <= b then a else b }

  function Max(a: real, b: real): real { if a >= b then a else b }

  /** ROUND_HALF_EVEN to an integer: the nearest integer, and the even one of two nearest. */
  function HalfEven(y: real): (n: int)
    ensures y - 0.5 <= n as real <= y + 0.5
    ensures Abs(n as real - y) == 0.5 ==> n % 2 == 0
  {
    var f := y.Floor;
    var d := y - f as real;
    if d < 0.5 || (d == 0.5 && f % 2 == 0) then f else f + 1
  }

  /** ROUND_DOWN to an integer: truncation toward zero. */
  function Truncate(y: real): (n: int)
    ensures 0.0 <= y ==> 0.0 <= n as real <= y < n as real + 1.0
    ensures y < 0.0 ==> n as real - 1.0 < y <= n as real <= 0.0
  {
    if y >= 0.0 then y.Floor else -((-y).Floor)
  }

  function QuantizeHalfEven(x: real, quantum: real): (r: real)
    requires quantum > 0.0
  {
    HalfEven(x / quantum) as real * quantum
  }

  function QuantizeDown(x: real, quantum: real): (r: real)
    requires quantum > 0.0
  {
    Truncate(x / quantum) as real * quantum
  }

  function Multiple(n: int, quantum: real): real { n as real * quantum }

  ghost predicate OnGrid(x: real, quantum: real)
    requires quantum > 0.0
  {
    exists n: int :: x == Multiple(n, quantum)
  }

  lemma HalfEvenMonotone(x: real, y: real)
    requires x <= y
    ensures HalfEven(x) <= HalfEven(y)
  {
  }

  lemma DivideMonotone(x: real, y: real, q: real)
    requires q > 0.0 && x <= y
    ensures x / q <= y / q
  {
    assert (y - x) / q >= 0.0;
    assert y / q - x / q == (y - x) / q;
  }

  lemma TimesMonotone(x: real, y: real, q: real)
    requires q >= 0.0 && x <= y
    ensures x * q <= y * q
  {
    assert (y - x) * q >= 0.0;
  }

  lemma DivideTimes(x: real, q: real)
    requires q != 0.0
    ensures x / q * q == x
    ensures x * q / q == x
  {
  }

  lemma QuantizeHalfEvenMonotone(x: real, y: real, quantum: real)
    requires quantum > 0.0 && x <= y
    ensures QuantizeHalfEven(x, quantum) <= QuantizeHalfEven(y, quantum)
  {
    DivideMonotone(x, y, quantum);
    HalfEvenMonotone(x / quantum, y / quantum);
    TimesMonotone(HalfEven(x / quantum) as real, HalfEven(y / quantum) as real, quantum);
  }

  /** Half-even rounding moves a value by at most half a quantum. */
  lemma QuantizeHalfEvenError(x: real, quantum: real)
    requires quantum > 0.0
    ensures x - quantum / 2.0 <= QuantizeHalfEven(x, quantum) <= x + quantum / 2.0
  {
    var n := HalfEven(x / quantum) as real;
    ScaledBelow(n, x / quantum, 0.5, quantum, x);
    ScaledAbove(n, x / quantum, 0.5, quantum, x);
  }

  /** One-sided scaling facts: n and y differ by at most c, and y * q is x. */
  lemma ScaledAbove(n: real, y: real, c: real, q: real, x: real)
    requires q > 0.0 && y * q == x && n <= y + c
    ensures n * q <= x + c * q
  {
    assert (y + c - n) * q >= 0.0;
  }

  lemma ScaledBelow(n: real, y: real, c: real, q: real, x: real)
    requires q > 0.0 && y * q == x && y - c <= n
    ensures x - c * q <= n * q
  {
    assert (n - y + c) * q >= 0.0;
  }

  lemma ScaledStrictlyBelow(n: real, y: real, c: real, q: real, x: real)
    requires q > 0.0 && y * q == x && y - c < n
    ensures x - c * q < n * q
  {
    assert (n - y + c) * q > 0.0;
  }

  lemma HalfEvenSign(y: real)
    ensures HalfEven(y) > 0 <==> y > 0.5
    ensures HalfEven(y) < 0 <==> y < -0.5
  {
  }

  lemma QuotientAbove(x: real, q: real, c: real)
    requires q > 0.0
    ensures x / q > c <==> x > c * q
    ensures x / q < c <==> x < c * q
  {
    var y := x / q;
    assert y * q == x;
    if y > c {
      assert (y - c) * q > 0.0;
    } else if y < c {
      assert (c - y) * q > 0.0;
    }
  }

  lemma SignOfMultiple(n: int, q: real)
    requires q > 0.0
    ensures n as real * q > 0.0 <==> n > 0
    ensures n as real * q < 0.0 <==> n < 0
  {
    if n > 0 {
      TimesMonotone(1.0, n as real, q);
    } else if n < 0 {
      TimesMonotone(n as real, -1.0, q);
    }
  }

  /** Half-even rounding keeps a sign exactly when the value is more than half a quantum away from zero. */
  lemma QuantizeHalfEvenSign(x: real, quantum: real)
    requires quantum > 0.0
    ensures QuantizeHalfEven(x, quantum) > 0.0 <==> x > quantum / 2.0
    ensures QuantizeHalfEven(x, quantum) < 0.0 <==> x < -quantum / 2.0
  {
    hide HalfEven;
    HalfEvenSign(x / quantum);
    QuotientAbove(x, quantum, 0.5);
    QuotientAbove(x, quantum, -0.5);
    SignOfMultiple(HalfEven(x / quantum), quantum);
  }

  lemma QuantizeOnGrid(x: real, quantum: real)
    requires quantum > 0.0
    ensures OnGrid(QuantizeHalfEven(x, quantum), quantum)
    ensures OnGrid(QuantizeDown(x, quantum), quantum)
  {
    assert QuantizeHalfEven(x, quantum) == Multiple(HalfEven(x / quantum), quantum);
    assert QuantizeDown(x, quantum) == Multiple(Truncate(x / quantum), quantum);
  }

  /** A value already on the grid is a fixed point of both roundings. */
  lemma QuantizeFixesGrid(x: real, quantum: real)
    requires quantum > 0.0 && OnGrid(x, quantum)
    ensures QuantizeHalfEven(x, quantum) == x
    ensures QuantizeDown(x, quantum) == x
  {
    var n: int :| x == Multiple(n, quantum);
    DivideTimes(n as real, quantum);
    assert x / quantum == n as real;
    assert HalfEven(n as real) == n;
    assert Truncate(n as real) == n;
  }

  lemma QuantizeDownBounds(x: real, quantum: real)
    requires quantum > 0.0 && x >= 0.0
    ensures 0.0 <= QuantizeDown(x, quantum) <= x < QuantizeDown(x, quantum) + quantum
    ensures QuantizeDown(x, quantum) > 0.0 <==> x >= quantum
  {
    DivideMonotone(0.0, x, quantum);
    var n := Truncate(x / quantum) as real;
    assert n * quantum <= x by { ScaledAbove(n, x / quantum, 0.0, quantum, x); }
    assert x - quantum < n * quantum by { ScaledStrictlyBelow(n, x / quantum, 1.0, quantum, x); }
    if n >= 1.0 {
      assert quantum <= n * quantum by { ScaledBelow(n, 1.0, 0.0, quantum, quantum); }
    }
  }
}
