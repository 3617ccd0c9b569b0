/** Matched attribution: two arms compared on their common sessions, with rounded statistics. */
module Attribution {
  import opened Bootstrap
  import opened Decimals
  import opened LongRunVariance
  import opened Results
  import opened SessionDates
  import opened Sums

  datatype Fault = UnexpectedArm | DuplicateSession | NoCommonSessions

  datatype Observation = Observation(session: Day, arm: string, netReturn: real)

  datatype Config = Config(
    quantum: real,
    annualizationSessions: nat,
    lag: nat,
    confidence: real,
    minimumSessions: nat)
  {
    predicate Valid() {
      quantum > 0.0 && annualizationSessions > 0 && 0.0 < confidence < 1.0 && minimumSessions >= 126
    }
  }

  datatype Matched = Matched(
    sessions: seq<Day>,
    differences: seq<real>,
    mean: real,
    annualized: real,
    radicand: real,
    lower: real,
    upper: real,
    eligible: bool)

  /** One arm's observations keyed by session; a foreign arm or a repeated session is an error. */
  method UniqueBySession(observations: seq<Observation>, arm: string) returns (r: Result<map<Day, real>, Fault>)
    ensures r.Ok? <==>
      && (forall i :: 0 <= i < |observations| ==> observations[i].arm == arm)
      && (forall i, j :: 0 <= i < j < |observations| ==> observations[i].session != observations[j].session)
    ensures r.Ok? ==> forall s :: s in r.value <==> exists i :: 0 <= i < |observations| && observations[i].session == s
    ensures r.Ok? ==> forall i :: 0 <= i < |observations| ==>
      observations[i].session in r.value && r.value[observations[i].session] == observations[i].netReturn
  {
    var result: map<Day, real> := map[];
    for k := 0 to |observations|
      invariant forall i :: 0 <= i < k ==> observations[i].arm == arm
      invariant forall i, j :: 0 <= i < j < k ==> observations[i].session != observations[j].session
      invariant forall s :: s in result <==> exists i :: 0 <= i < k && observations[i].session == s
      invariant forall i :: 0 <= i < k ==>
        observations[i].session in result && result[observations[i].session] == observations[i].netReturn
    {
      var o := observations[k];
      if o.arm != arm {
        return Err(UnexpectedArm);
      }
      if o.session in result {
        return Err(DuplicateSession);
      }
      result := result[o.session := o.netReturn];
    }
    r := Ok(result);
  }

  function Differences(left: map<Day, real>, right: map<Day, real>, sessions: seq<Day>, quantum: real): (d: seq<real>)
    requires quantum > 0.0 && forall s :: s in sessions ==> s in left && s in right
    ensures |d| == |sessions|
    ensures forall i :: 0 <= i < |d| ==> d[i] == QuantizeHalfEven(left[sessions[i]] - right[sessions[i]], quantum)
  {
    seq(|sessions|, i requires 0 <= i < |sessions| => QuantizeHalfEven(left[sessions[i]] - right[sessions[i]], quantum))
  }

  lemma {:induction false} Extremes(s: seq<real>) returns (i: nat, j: nat)
    requires s != []
    ensures i < |s| && j < |s| && Within(s, s[i], s[j])
  {
    if |s| == 1 {
      i, j := 0, 0;
    } else {
      var last := |s| - 1;
      i, j := Extremes(s[..last]);
      assert forall k :: 0 <= k < last ==> s[k] == s[..last][k];
      i := if s[last] < s[i] then last else i;
      j := if s[last] > s[j] then last else j;
    }
  }

  /** Rounding a value that lies between two grid points leaves it between them. */
  lemma RoundingKeepsGridBounds(x: real, low: real, high: real, quantum: real)
    requires quantum > 0.0 && low <= x <= high && OnGrid(low, quantum) && OnGrid(high, quantum)
    ensures low <= QuantizeHalfEven(x, quantum) <= high
  {
    hide QuantizeHalfEven, OnGrid;
    QuantizeFixesGrid(low, quantum);
    QuantizeFixesGrid(high, quantum);
    QuantizeHalfEvenMonotone(low, x, quantum);
    QuantizeHalfEvenMonotone(x, high, quantum);
  }

  ghost predicate Brackets(s: seq<real>, x: real) {
    exists i, j :: 0 <= i < |s| && 0 <= j < |s| && s[i] <= x <= s[j]
  }

  /** Rounded statistics of rounded differences stay inside the observed differences. */
  lemma StatisticsStayInside(d: seq<real>, quantum: real, lower: real, upper: real)
    requires d != [] && quantum > 0.0 && (forall i :: 0 <= i < |d| ==> OnGrid(d[i], quantum))
    requires forall low, high :: Within(d, low, high) ==> low <= lower <= upper <= high
    ensures Brackets(d, QuantizeHalfEven(Mean(d), quantum))
    ensures Brackets(d, QuantizeHalfEven(lower, quantum)) && Brackets(d, QuantizeHalfEven(upper, quantum))
    ensures QuantizeHalfEven(lower, quantum) <= QuantizeHalfEven(upper, quantum)
  {
    hide Mean, QuantizeHalfEven, OnGrid;
    var i, j := Extremes(d);
    assert Within(d, d[i], d[j]);
    MeanWithin(d, d[i], d[j]);
    RoundingKeepsGridBounds(Mean(d), d[i], d[j], quantum);
    RoundingKeepsGridBounds(lower, d[i], d[j], quantum);
    RoundingKeepsGridBounds(upper, d[i], d[j], quantum);
    QuantizeHalfEvenMonotone(lower, upper, quantum);
  }

  lemma DifferencesOnGrid(left: map<Day, real>, right: map<Day, real>, sessions: seq<Day>, quantum: real)
    requires quantum > 0.0 && forall s :: s in sessions ==> s in left && s in right
    ensures forall i :: 0 <= i < |sessions| ==> OnGrid(Differences(left, right, sessions, quantum)[i], quantum)
  {
    hide QuantizeHalfEven, OnGrid;
    forall i | 0 <= i < |sessions| ensures OnGrid(Differences(left, right, sessions, quantum)[i], quantum) {
      QuantizeOnGrid(left[sessions[i]] - right[sessions[i]], quantum);
    }
  }

  /** To the nearest quantum, the ends of the percentile interval of the resampled means. */
  ghost predicate IsRoundedInterval(means: seq<real>, confidence: real, quantum: real, lower: real, upper: real)
    requires quantum > 0.0
  {
    exists low, high :: CutsTails(means, confidence, low, high)
      && lower == QuantizeHalfEven(low, quantum) && upper == QuantizeHalfEven(high, quantum)
  }

  lemma RoundedIntervalIs(means: seq<real>, confidence: real, quantum: real, low: real, high: real)
    requires quantum > 0.0 && CutsTails(means, confidence, low, high)
    ensures IsRoundedInterval(means, confidence, quantum, QuantizeHalfEven(low, quantum), QuantizeHalfEven(high, quantum))
  {
  }

  /** To the nearest quantum, the daily mean times the sessions of a year. */
  ghost predicate IsAnnualized(mean: real, sessions: nat, quantum: real, annualized: real)
    requires quantum > 0.0
  {
    exists annual :: annual == mean * sessions as real && annualized == QuantizeHalfEven(annual, quantum)
  }

  lemma AnnualizedIs(mean: real, sessions: nat, quantum: real, annual: real)
    requires quantum > 0.0 && annual == mean * sessions as real
    ensures IsAnnualized(mean, sessions, quantum, QuantizeHalfEven(annual, quantum))
  {
  }

  /** The reported standard error is a rounded square root: it reads zero exactly when the radicand is at
      most the square of half a quantum. */
  lemma ReportedErrorVanishesExactlyWhen(radicand: real, error: real, quantum: real)
    requires quantum > 0.0 && error >= 0.0 && error * error == radicand
    ensures QuantizeHalfEven(error, quantum) == 0.0 <==> radicand <= (quantum / 2.0) * (quantum / 2.0)
  {
    hide QuantizeHalfEven;
    var half := quantum / 2.0;
    QuantizeHalfEvenSign(error, quantum);
    if error <= half {
      TimesMonotone(error, half, error);
      TimesMonotone(error, half, half);
    } else {
      assert (error - half) * (error + half) > 0.0;
      assert (error - half) * (error + half) == error * error - half * half;
    }
  }

  /** Differences that are not constant can be reported with a zero error: one quantum in two sessions. */
  lemma ErrorCanRoundToZero(error: real)
    requires error >= 0.0 && error * error == Radicand([1.0, 0.0], 0)
    ensures !Constant([1.0, 0.0]) && QuantizeHalfEven(error, 1.0) == 0.0
  {
    var d := [1.0, 0.0];
    assert d[0] != d[1];
    hide QuantizeHalfEven;
    TwoSessionRadicand();
    ReportedErrorVanishesExactlyWhen(Radicand(d, 0), error, 1.0);
  }

  lemma TwoSessionRadicand()
    ensures Radicand([1.0, 0.0], 0) == 0.125
  {
    var d := [1.0, 0.0];
    assert SumSeq(d) == Sum(Element(d), 0, 1) + 0.0 && Sum(Element(d), 0, 1) == 1.0;
    assert Mean(d) == 0.5;
    var c := Centered(d);
    assert c[0] == 0.5 && c[1] == -0.5;
    var p := LaggedProduct(c, 0);
    assert p(0) == 0.25 && p(1) == 0.25;
    assert Sum(p, 0, 1) == 0.25 && Sum(p, 0, 2) == 0.5;
    assert PartialVariance(c, 0, 0) == 0.25;
  }

  method EvaluateMatched(left: map<Day, real>, right: map<Day, real>, config: Config, draws: seq<Draw>)
    returns (r: Result<Matched, Fault>)
    requires config.Valid() && draws != []
    requires forall d :: d in draws ==> Fits(d, |left.Keys * right.Keys|) || left.Keys * right.Keys == {}
    ensures r.Err? <==> left.Keys * right.Keys == {}
    ensures r.Ok? ==>
      && r.value.sessions == Chronological(left.Keys * right.Keys)
      && r.value.differences == Differences(left, right, r.value.sessions, config.quantum)
      && (r.value.eligible <==> |left.Keys * right.Keys| >= config.minimumSessions)
      && (r.value.eligible ==> |r.value.sessions| >= 126)
    // every statistic is its formula over the rounded differences
    ensures r.Ok? ==>
      var d, q := r.value.differences, config.quantum;
      && d != []
      && r.value.mean == QuantizeHalfEven(Mean(d), q)
      && IsAnnualized(r.value.mean, config.annualizationSessions, q, r.value.annualized)
      && r.value.radicand == Radicand(d, if config.lag < |d| then config.lag else |d| - 1)
      && IsRoundedInterval(SampleMeans(d, draws), config.confidence, q, r.value.lower, r.value.upper)
    // the rounded statistics stay inside the observed differences, and the interval is ordered
    ensures r.Ok? ==>
      && Brackets(r.value.differences, r.value.mean)
      && Brackets(r.value.differences, r.value.lower)
      && Brackets(r.value.differences, r.value.upper)
      && r.value.lower <= r.value.upper
    // the radicand of the standard error is zero exactly when the rounded differences are all the same
    ensures r.Ok? ==> r.value.radicand >= 0.0 && (r.value.radicand == 0.0 <==> Constant(r.value.differences))
  {
    hide Mean, QuantizeHalfEven, Interval, Radicand, Constant, OnGrid, Within, Brackets, Fits, CutsTails, IsAnnualized, IsRoundedInterval;
    var q := config.quantum;
    var common := left.Keys * right.Keys;
    var sessions := Chronological(common);
    if common == {} {
      return Err(NoCommonSessions);
    }
    var differences := Differences(left, right, sessions, q);
    // the lag is cut to the last one that the sessions admit
    var lag := if config.lag < |differences| - 1 then config.lag else |differences| - 1;
    var radicand := NeweyWestRadicand(differences, lag);
    var interval := StationaryBlockBootstrap(differences, draws, config.confidence);
    DifferencesOnGrid(left, right, sessions, q);
    RoundedIntervalIs(SampleMeans(differences, draws), config.confidence, q, interval.value.0, interval.value.1);
    StatisticsStayInside(differences, q, interval.value.0, interval.value.1);
    var mean := QuantizeHalfEven(Mean(differences), q);
    var annual := mean * config.annualizationSessions as real;
    AnnualizedIs(mean, config.annualizationSessions, q, annual);
    r := Ok(Matched(
      sessions,
      differences,
      mean,
      QuantizeHalfEven(annual, q),
      radicand.value,
      QuantizeHalfEven(interval.value.0, q),
      QuantizeHalfEven(interval.value.1, q),
      |sessions| >= config.minimumSessions));
  }
}
