/** Finite sums of real-valued functions over integer ranges. */
module Sums {

  function Sum(f: int -> real, lo: int, hi: int): (r: real)
    decreases hi - lo
  {
    if hi <= lo then 0.0 else Sum(f, lo, hi - 1) + f(hi - 1)
  }

  lemma SumLast(f: int -> real, lo: int, hi: int)
    requires lo < hi
    ensures Sum(f, lo, hi) == Sum(f, lo, hi - 1) + f(hi - 1)
  {
  }

  lemma SumEmpty(f: int -> real, lo: int, hi: int)
    requires hi <= lo
    ensures Sum(f, lo, hi) == 0.0
  {
  }

  lemma SumOne(f: int -> real, lo: int)
    ensures Sum(f, lo, lo + 1) == f(lo)
  {
  }

  lemma {:induction false} SumSame(f: int -> real, g: int -> real, lo: int, hi: int)
    requires forall i :: lo <= i < hi ==> f(i) == g(i)
    ensures Sum(f, lo, hi) == Sum(g, lo, hi)
    decreases hi - lo
  {
    if lo < hi {
      SumSame(f, g, lo, hi - 1);
    }
  }

  lemma {:induction false} SumZero(f: int -> real, lo: int, hi: int)
    requires forall i :: lo <= i < hi ==> f(i) == 0.0
    ensures Sum(f, lo, hi) == 0.0
    decreases hi - lo
  {
    if lo < hi {
      SumZero(f, lo, hi - 1);
    }
  }

  lemma {:induction false} SumPlus(f: int -> real, g: int -> real, h: int -> real, lo: int, hi: int)
    requires forall i :: lo <= i < hi ==> h(i) == f(i) + g(i)
    ensures Sum(h, lo, hi) == Sum(f, lo, hi) + Sum(g, lo, hi)
    decreases hi - lo
  {
    if lo < hi {
      SumPlus(f, g, h, lo, hi - 1);
    }
  }

  lemma {:induction false} SumScaled(k: real, f: int -> real, g: int -> real, lo: int, hi: int)
    requires forall i :: lo <= i < hi ==> g(i) == k * f(i)
    ensures Sum(g, lo, hi) == k * Sum(f, lo, hi)
    decreases hi - lo
  {
    if lo < hi {
      SumScaled(k, f, g, lo, hi - 1);
      var s, v := Sum(f, lo, hi - 1), f(hi - 1);
      assert k * (s + v) == k * s + k * v;
    }
  }

  lemma {:induction false} SumSplit(f: int -> real, lo: int, mid: int, hi: int)
    requires lo <= mid <= hi
    ensures Sum(f, lo, hi) == Sum(f, lo, mid) + Sum(f, mid, hi)
    decreases hi - mid
  {
    if mid < hi {
      SumSplit(f, lo, mid, hi - 1);
    }
  }

  /** Terms that vanish outside [from, to) may be added to or dropped from either end. */
  lemma SumSupport(f: int -> real, lo: int, from: int, to: int, hi: int)
    requires lo <= from <= to <= hi
    requires forall i :: lo <= i < from ==> f(i) == 0.0
    requires forall i :: to <= i < hi ==> f(i) == 0.0
    ensures Sum(f, lo, hi) == Sum(f, from, to)
  {
    SumSplit(f, lo, from, hi);
    SumSplit(f, from, to, hi);
    SumZero(f, lo, from);
    SumZero(f, to, hi);
  }

  lemma {:induction false} SumShift(f: int -> real, g: int -> real, k: int, lo: int, hi: int)
    requires forall i :: lo <= i < hi ==> g(i) == f(i - k)
    ensures Sum(g, lo, hi) == Sum(f, lo - k, hi - k)
    decreases hi - lo
  {
    if lo < hi {
      SumShift(f, g, k, lo, hi - 1);
    }
  }

  lemma {:induction false} SumBounds(f: int -> real, low: real, high: real, lo: int, hi: int)
    requires lo <= hi && forall i :: lo <= i < hi ==> low <= f(i) <= high
    ensures low * (hi - lo) as real <= Sum(f, lo, hi) <= high * (hi - lo) as real
    decreases hi - lo
  {
    if lo < hi {
      SumBounds(f, low, high, lo, hi - 1);
      var n := (hi - 1 - lo) as real;
      assert (hi - lo) as real == n + 1.0;
      assert low * (n + 1.0) == low * n + low;
      assert high * (n + 1.0) == high * n + high;
    }
  }

  /** A sum of non-negative terms is non-negative, and zero only when every term is. */
  lemma {:induction false} SumNonNegative(f: int -> real, lo: int, hi: int)
    requires forall i :: lo <= i < hi ==> f(i) >= 0.0
    ensures Sum(f, lo, hi) >= 0.0
    ensures Sum(f, lo, hi) == 0.0 <==> forall i :: lo <= i < hi ==> f(i) == 0.0
    decreases hi - lo
  {
    if lo < hi {
      SumNonNegative(f, lo, hi - 1);
      assert lo <= hi - 1 < hi;
    }
  }

  function Element(s: seq<real>): int -> real {
    i => if 0 <= i < |s| then s[i] else 0.0
  }

  function SumSeq(s: seq<real>): real {
    Sum(Element(s), 0, |s|)
  }

  function Mean(s: seq<real>): real
    requires s != []
  {
    SumSeq(s) / |s| as real
  }
}
