/** Stationary block bootstrap of the mean, with interpolated percentiles, over any choice stream. */
module Bootstrap {
  import opened Decimals
  import opened Ordering
  import opened Results
  import opened Sums

  datatype Fault = NoValues | ProbabilityOutOfRange

  // ---- resampling

  datatype Move = Advance | Restart(index: nat)

  /** The random choices behind one resample: where it starts, and what each later position does. */
  datatype Draw = Draw(start: nat, moves: seq<Move>)

  ghost predicate Fits(draw: Draw, count: nat) {
    && draw.start < count
    && |draw.moves| == count - 1
    && forall i :: 0 <= i < |draw.moves| && draw.moves[i].Restart? ==> draw.moves[i].index < count
  }

  function PathIndex(draw: Draw, count: nat, k: nat): (i: nat)
    requires Fits(draw, count) && k < count
    ensures i < count
  {
    if k == 0 then draw.start
    else match draw.moves[k - 1]
      case Restart(index) => index
      case Advance => (PathIndex(draw, count, k - 1) + 1) % count
  }

  /** A position that begins a block: the first, or one that restarts. */
  ghost predicate Begins(draw: Draw, k: nat)
    requires k <= |draw.moves|
  {
    k == 0 || draw.moves[k - 1].Restart?
  }

  ghost function BlockStart(draw: Draw, k: nat): nat
    requires k <= |draw.moves| && Begins(draw, k)
  {
    if k == 0 then draw.start else draw.moves[k - 1].index
  }

  /** Within a block the path walks on by one each time, wrapping around the end of the series. */
  lemma {:induction false} BlockIsCircular(draw: Draw, count: nat, j: nat, k: nat) returns (wraps: nat)
    requires Fits(draw, count) && j <= k < count && Begins(draw, j)
    requires forall i :: j < i <= k ==> !Begins(draw, i)
    ensures PathIndex(draw, count, k) + wraps * count == BlockStart(draw, j) + (k - j)
    decreases k
  {
    wraps := 0;
    if j < k {
      wraps := BlockIsCircular(draw, count, j, k - 1);
      assert !Begins(draw, k);
      var before := PathIndex(draw, count, k - 1);
      NextIndex(before, count);
      if before + 1 == count {
        assert (wraps + 1) * count == wraps * count + count;
        wraps := wraps + 1;
      }
    }
  }

  lemma NextIndex(i: nat, count: nat)
    requires i < count
    ensures (i + 1) % count == if i + 1 == count then 0 else i + 1
  {
  }

  function Resample(values: seq<real>, draw: Draw): (sample: seq<real>)
    requires Fits(draw, |values|)
    ensures |sample| == |values|
    ensures forall k :: 0 <= k < |sample| ==> sample[k] == values[PathIndex(draw, |values|, k)]
  {
    seq(|values|, k requires 0 <= k < |values| => values[PathIndex(draw, |values|, k)])
  }

  ghost predicate Within(s: seq<real>, low: real, high: real) {
    forall i :: 0 <= i < |s| ==> low <= s[i] <= high
  }

  lemma MeanWithin(s: seq<real>, low: real, high: real)
    requires s != [] && Within(s, low, high)
    ensures low <= Mean(s) <= high
  {
    var n := |s| as real;
    SumBounds(Element(s), low, high, 0, |s|);
    QuotientWithin(SumSeq(s), n, low, high);
  }

  lemma QuotientWithin(total: real, n: real, low: real, high: real)
    requires n > 0.0 && low * n <= total <= high * n
    ensures low <= total / n <= high
  {
    DivideMonotone(low * n, total, n);
    DivideMonotone(total, high * n, n);
    DivideTimes(low, n);
    DivideTimes(high, n);
  }

  method ResampleMean(values: seq<real>, draw: Draw) returns (mean: real)
    requires Fits(draw, |values|)
    ensures mean == Mean(Resample(values, draw))
  {
    var count := |values|;
    var index := draw.start;
    var sample: seq<real> := [];
    for position := 0 to count
      invariant index < count && |sample| == position
      invariant position > 0 ==> index == PathIndex(draw, count, position - 1)
      invariant position == 0 ==> index == draw.start
      invariant sample == Resample(values, draw)[..position]
    {
      if position > 0 {
        match draw.moves[position - 1]
        case Restart(restarted) => index := restarted;
        case Advance => index := (index + 1) % count;
      }
      sample := sample + [values[index]];
    }
    assert sample == Resample(values, draw);
    mean := Mean(sample);
  }

  function SampleMeans(values: seq<real>, draws: seq<Draw>): (means: seq<real>)
    requires values != [] && forall d :: d in draws ==> Fits(d, |values|)
    ensures |means| == |draws|
  {
    seq(|draws|, i requires 0 <= i < |draws| => Mean(Resample(values, draws[i])))
  }

  lemma SampleMeansWithin(values: seq<real>, draws: seq<Draw>, low: real, high: real)
    requires values != [] && forall d :: d in draws ==> Fits(d, |values|)
    requires Within(values, low, high)
    ensures Within(SampleMeans(values, draws), low, high)
  {
    forall i | 0 <= i < |draws| ensures low <= SampleMeans(values, draws)[i] <= high {
      assert draws[i] in draws;
      MeanWithin(Resample(values, draws[i]), low, high);
    }
  }

  // ---- interpolated percentiles

  function Lerp(a: real, b: real, t: real): real {
    a * (1.0 - t) + b * t
  }

  /** The value at a fractional rank of a list: linear between the two neighbouring entries. */
  function Interpolate(s: seq<real>, rank: real): real
    requires s != [] && 0.0 <= rank <= (|s| - 1) as real
  {
    var i := rank.Floor;
    var j := if i + 1 < |s| then i + 1 else |s| - 1;
    Lerp(s[i], s[j], rank - i as real)
  }

  function Percentile(sorted: seq<real>, probability: real): Result<real, Fault> {
    if sorted == [] then Err(NoValues)
    else if !(0.0 <= probability <= 1.0) then Err(ProbabilityOutOfRange)
    else if |sorted| == 1 then Ok(sorted[0])
    else
      Ok(Interpolate(sorted, Rank(probability, (|sorted| - 1) as real)))
  }

  function Rank(p: real, n: real): (r: real)
    requires 0.0 <= p <= 1.0 && n >= 0.0
    ensures 0.0 <= r <= n
  {
    RankInRange(p, n);
    p * n
  }

  lemma RankInRange(p: real, n: real)
    requires 0.0 <= p <= 1.0 && n >= 0.0
    ensures 0.0 <= p * n <= n
  {
    TimesMonotone(0.0, p, n);
    TimesMonotone(p, 1.0, n);
  }

  lemma RankMonotone(p: real, q: real, n: real)
    requires 0.0 <= p <= q <= 1.0 && n >= 0.0
    ensures Rank(p, n) <= Rank(q, n)
  {
    calc {
      Rank(p, n);
      p * n;
    <= { TimesMonotone(p, q, n); }
      q * n;
      Rank(q, n);
    }
  }

  predicate AtMost(a: real, b: real) { a <= b }

  lemma AtMostIsTotal()
    ensures TotalPreorder(AtMost)
  {
  }

  lemma LerpBetween(a: real, b: real, t: real)
    requires a <= b && 0.0 <= t <= 1.0
    ensures a <= Lerp(a, b, t) <= b
  {
    hide Lerp, Rank;
    LerpIs(a, b, t);
  }

  lemma LerpIs(a: real, b: real, t: real)
    requires a <= b && 0.0 <= t <= 1.0
    ensures Lerp(a, b, t) == a + Rank(t, b - a)
  {
  }

  lemma LerpMonotone(a: real, b: real, t: real, u: real)
    requires a <= b && 0.0 <= t <= u <= 1.0
    ensures Lerp(a, b, t) <= Lerp(a, b, u)
  {
    hide Lerp, Rank;
    LerpIs(a, b, t);
    LerpIs(a, b, u);
    RankMonotone(t, u, b - a);
  }

  lemma InterpolateBetween(s: seq<real>, rank: real)
    requires s != [] && 0.0 <= rank <= (|s| - 1) as real && Sorted(AtMost, s)
    ensures s[rank.Floor] <= Interpolate(s, rank)
    ensures rank.Floor + 1 < |s| ==> Interpolate(s, rank) <= s[rank.Floor + 1]
    ensures s[0] <= Interpolate(s, rank) <= s[|s| - 1]
  {
    hide Lerp;
    var i := rank.Floor;
    var j := if i + 1 < |s| then i + 1 else |s| - 1;
    assert i < j ==> AtMost(s[i], s[j]);
    LerpBetween(s[i], s[j], rank - i as real);
    assert 0 < i ==> AtMost(s[0], s[i]);
    assert j < |s| - 1 ==> AtMost(s[j], s[|s| - 1]);
  }

  /** Interpolated ranks of a sorted list never go down as the rank goes up. */
  lemma InterpolateMonotone(s: seq<real>, r: real, q: real)
    requires s != [] && 0.0 <= r <= q <= (|s| - 1) as real && Sorted(AtMost, s)
    ensures Interpolate(s, r) <= Interpolate(s, q)
  {
    hide Lerp;
    InterpolateBetween(s, r);
    InterpolateBetween(s, q);
    var i, k := r.Floor, q.Floor;
    if i == k {
      var j := if i + 1 < |s| then i + 1 else |s| - 1;
      assert i < j ==> AtMost(s[i], s[j]);
      LerpMonotone(s[i], s[j], r - i as real, q - i as real);
    } else {
      assert i + 1 < k ==> AtMost(s[i + 1], s[k]);
    }
  }

  /** Percentiles of a sorted list are monotone in the probability and stay within the list. */
  lemma PercentileMonotone(s: seq<real>, p: real, q: real)
    requires s != [] && Sorted(AtMost, s) && 0.0 <= p <= q <= 1.0
    ensures Percentile(s, p).Ok? && Percentile(s, q).Ok?
    ensures s[0] <= Percentile(s, p).value <= Percentile(s, q).value <= s[|s| - 1]
  {
    hide Interpolate, Rank;
    var n := (|s| - 1) as real;
    RankMonotone(p, q, n);
    InterpolateBetween(s, Rank(p, n));
    InterpolateBetween(s, Rank(q, n));
    InterpolateMonotone(s, Rank(p, n), Rank(q, n));
  }

  /** The value at a probability: on the line between the two entries around its place among the gaps. */
  ghost predicate IsQuantile(s: seq<real>, p: real, v: real) {
    || (|s| == 1 && v == s[0])
    || (|s| > 1 && var place := p * (|s| - 1) as real; exists k :: 0 <= k < |s| - 1 && OnLine(s, k, place, v))
  }

  ghost predicate OnLine(s: seq<real>, k: int, place: real, v: real)
    requires 0 <= k < |s| - 1
  {
    k as real <= place <= (k + 1) as real && v == s[k] + (s[k + 1] - s[k]) * (place - k as real)
  }

  /** A percentile is refused for an empty list, then for a probability that is none, and interpolates otherwise. */
  lemma PercentileInterpolates(s: seq<real>, p: real)
    ensures Percentile(s, p) == Err(NoValues) <==> s == []
    ensures Percentile(s, p) == Err(ProbabilityOutOfRange) <==> s != [] && (p < 0.0 || p > 1.0)
    ensures s != [] && 0.0 <= p <= 1.0 ==> Percentile(s, p).Ok? && IsQuantile(s, p, Percentile(s, p).value)
  {
    if |s| > 1 && 0.0 <= p <= 1.0 {
      var n := (|s| - 1) as real;
      RankInRange(p, n);
      InterpolatesAt(s, Rank(p, n));
      hide Interpolate, OnLine;
      assert Rank(p, n) == p * n;
    }
  }

  lemma InterpolatesAt(s: seq<real>, place: real)
    requires |s| > 1 && 0.0 <= place <= (|s| - 1) as real
    ensures exists k :: 0 <= k < |s| - 1 && OnLine(s, k, place, Interpolate(s, place))
  {
    var i := place.Floor;
    var v := Interpolate(s, place);
    if i < |s| - 1 {
      LineIs(s[i], s[i + 1], place - i as real);
      assert OnLine(s, i, place, v);
    } else {
      LineIs(s[i], s[i], 0.0);
      assert place == i as real && v == s[i];
      assert s[i - 1] + (s[i] - s[i - 1]) * 1.0 == s[i];
      assert OnLine(s, i - 1, place, v);
    }
  }

  lemma LineIs(a: real, b: real, t: real)
    ensures Lerp(a, b, t) == a + (b - a) * t
  {
  }

  /** At a whole place the value is the entry itself, whichever neighbour it is read from. */
  lemma QuantileIsUnique(s: seq<real>, p: real, v: real, w: real)
    requires IsQuantile(s, p, v) && IsQuantile(s, p, w)
    ensures v == w
  {
    if |s| > 1 {
      var place := p * (|s| - 1) as real;
      var j :| 0 <= j < |s| - 1 && OnLine(s, j, place, v);
      var k :| 0 <= k < |s| - 1 && OnLine(s, k, place, w);
      SamePoint(s, place, j, k, v, w);
      SamePoint(s, place, k, j, w, v);
    }
  }

  lemma SamePoint(s: seq<real>, place: real, j: nat, k: nat, v: real, w: real)
    requires j < |s| - 1 && k < |s| - 1 && OnLine(s, j, place, v) && OnLine(s, k, place, w)
    ensures j <= k ==> v == w
  {
    if j < k {
      assert k == j + 1 && place == k as real;
      assert (s[k] - s[j]) * 1.0 == s[k] - s[j];
      assert (s[k + 1] - s[k]) * 0.0 == 0.0;
    }
  }

  // ---- the confidence interval

  /** The two percentiles that leave half of the excluded share on either side of the sorted means. */
  ghost predicate CutsTails(means: seq<real>, confidence: real, low: real, high: real) {
    exists sorted :: Sorted(AtMost, sorted) && multiset(sorted) == multiset(means)
      && IsQuantile(sorted, (1.0 - confidence) / 2.0, low) && IsQuantile(sorted, (1.0 + confidence) / 2.0, high)
  }

  lemma IntervalCutsTails(means: seq<real>, confidence: real)
    requires means != [] && 0.0 < confidence < 1.0
    ensures CutsTails(means, confidence, Interval(means, confidence).0, Interval(means, confidence).1)
  {
    hide Percentile, Sort, Sorted, IsQuantile;
    var tail := (1.0 - confidence) / 2.0;
    var sorted := Sort(AtMost, means);
    SortIsPermutation(AtMost, means);
    AtMostIsTotal();
    SortIsSorted(AtMost, means);
    PercentileInterpolates(sorted, tail);
    PercentileInterpolates(sorted, 1.0 - tail);
    assert 1.0 - tail == (1.0 + confidence) / 2.0;
  }

  function Interval(means: seq<real>, confidence: real): (real, real)
    requires means != [] && 0.0 < confidence < 1.0
  {
    var tail := (1.0 - confidence) / 2.0;
    var sorted := Sort(AtMost, means);
    SortIsPermutation(AtMost, means);
    (Percentile(sorted, tail).value, Percentile(sorted, 1.0 - tail).value)
  }

  lemma IntervalWithin(means: seq<real>, confidence: real, low: real, high: real)
    requires means != [] && 0.0 < confidence < 1.0 && Within(means, low, high)
    ensures low <= Interval(means, confidence).0 <= Interval(means, confidence).1 <= high
  {
    hide Percentile, Sort, Sorted;
    var tail := (1.0 - confidence) / 2.0;
    var sorted := Sort(AtMost, means);
    SortIsPermutation(AtMost, means);
    AtMostIsTotal();
    SortIsSorted(AtMost, means);
    PercentileMonotone(sorted, tail, 1.0 - tail);
    assert sorted[0] in means && sorted[|sorted| - 1] in means;
  }

  method StationaryBlockBootstrap(values: seq<real>, draws: seq<Draw>, confidence: real)
    returns (r: Result<(real, real), Fault>)
    requires draws != [] && 0.0 < confidence < 1.0
    requires forall d :: d in draws ==> values != [] ==> Fits(d, |values|)
    ensures r.Err? <==> values == []
    ensures r.Ok? ==> CutsTails(SampleMeans(values, draws), confidence, r.value.0, r.value.1)
    ensures r.Ok? ==> r.value == Interval(SampleMeans(values, draws), confidence)
    ensures r.Ok? ==> forall low, high :: Within(values, low, high) ==> low <= r.value.0 <= r.value.1 <= high
  {
    if values == [] {
      return Err(NoValues);
    }
    var means: seq<real> := [];
    for i := 0 to |draws|
      invariant means == SampleMeans(values, draws)[..i]
    {
      assert draws[i] in draws;
      var mean := ResampleMean(values, draws[i]);
      means := means + [mean];
    }
    assert means == SampleMeans(values, draws);
    r := Ok(Interval(means, confidence));
    IntervalCutsTails(means, confidence);
    forall low, high | Within(values, low, high) ensures low <= r.value.0 <= r.value.1 <= high {
      SampleMeansWithin(values, draws, low, high);
      IntervalWithin(means, confidence, low, high);
    }
  }
}
