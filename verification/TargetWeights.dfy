/** Target weights of the four matched arms: risky weights scaled down, the rest in cash. */
module TargetWeights {
  import opened Decimals
  import opened Identifiers
  import opened Listing
  import opened Results
  import opened Totals

  /** The asset code of cash. */
  const UsdCash: Id := Id(0)

  function Code(k: Id): int { k.code }

  function Listed(keys: set<Id>): (r: seq<Id>)
    ensures StrictlyAscending(Code, r)
    ensures |r| == |keys| && forall k :: k in r <==> k in keys
  {
    assert Ranked(Code);
    Ascending(Code, keys)
  }

  /** The risky symbols of a weight table, sorted. */
  function Symbols(weights: Amounts): seq<Id> {
    Listed(weights.Keys - {UsdCash})
  }

  function RiskySum(weights: Amounts): real {
    Sum(At(weights), Symbols(weights))
  }

  const WeightTolerance := 0.0000000001

  datatype WeightFault = NoCashWeight | NegativeWeight | NotOne | BadMultiplier | IncreasedExposure

  function ValidateBase(base: Amounts): Option<WeightFault> {
    if UsdCash !in base then Some(NoCashWeight)
    else if exists k :: k in base && base[k] < 0.0 then Some(NegativeWeight)
    else if Abs(RiskySum(base) + base[UsdCash] - 1.0) > WeightTolerance then Some(NotOne)
    else None
  }

  /** A weight under a risk multiplier. */
  function Reduced(weight: real, multiplier: real): real { weight * multiplier }

  function Scale(base: Amounts, multiplier: real): Amounts {
    var risky := map k | k in base && k != UsdCash :: Reduced(base[k], multiplier);
    risky[UsdCash := 1.0 - RiskySum(risky)]
  }

  datatype Targets = Targets(control: Amounts, guard: Amounts, ai: Amounts, both: Amounts)

  predicate Increases(base: Amounts, target: Amounts) {
    exists k :: k in base && k != UsdCash && Get(target, k) > base[k]
  }

  function TargetsFor(base: Amounts, guard: real, ai: real): Result<Targets, WeightFault> {
    var fault := ValidateBase(base);
    if fault.Some? then Err(fault.value)
    else if guard < 0.0 || guard > 1.0 || ai < 0.0 || ai > 1.0 then Err(BadMultiplier)
    else
      var t := Targets(Scale(base, 1.0), Scale(base, guard), Scale(base, ai), Scale(base, guard * ai));
      if Increases(base, t.control) || Increases(base, t.guard) || Increases(base, t.ai) || Increases(base, t.both)
      then Err(IncreasedExposure)
      else Ok(t)
  }

  // ---- properties

  lemma SameSymbols(a: Amounts, b: Amounts)
    requires a.Keys - {UsdCash} == b.Keys - {UsdCash}
    ensures Symbols(a) == Symbols(b)
  {
  }

  lemma ReducedMonotone(weight: real, low: real, high: real)
    requires weight >= 0.0 && 0.0 <= low <= high
    ensures 0.0 <= Reduced(weight, low) <= Reduced(weight, high)
    ensures Reduced(weight, 1.0) == weight
  {
    TimesMonotone(low, high, weight);
    TimesMonotone(0.0, low, weight);
  }

  lemma ReducedAdds(x: real, y: real, multiplier: real)
    ensures Reduced(x + y, multiplier) == Reduced(x, multiplier) + Reduced(y, multiplier)
    ensures Reduced(0.0, multiplier) == 0.0
  {
  }

  lemma {:induction false} SumReduced(a: Amounts, b: Amounts, symbols: seq<Id>, multiplier: real)
    requires forall k :: k in symbols ==> Get(b, k) == Reduced(Get(a, k), multiplier)
    ensures Sum(At(b), symbols) == Reduced(Sum(At(a), symbols), multiplier)
  {
    hide Reduced;
    if symbols == [] {
      ReducedAdds(0.0, 0.0, multiplier);
    } else {
      var init, last := symbols[..|symbols| - 1], symbols[|symbols| - 1];
      SumReduced(a, b, init, multiplier);
      ReducedAdds(Sum(At(a), init), Get(a, last), multiplier);
    }
  }

  lemma RiskySumReduced(a: Amounts, b: Amounts, multiplier: real)
    requires a.Keys - {UsdCash} == b.Keys - {UsdCash}
    requires forall k :: k in a && k != UsdCash ==> Get(b, k) == Reduced(Get(a, k), multiplier)
    ensures RiskySum(b) == Reduced(RiskySum(a), multiplier)
  {
    hide Sum, Reduced;
    SameSymbols(a, b);
    SumReduced(a, b, Symbols(a), multiplier);
  }

  lemma ScaleWeights(base: Amounts, multiplier: real)
    ensures Scale(base, multiplier).Keys == base.Keys + {UsdCash}
    ensures forall k :: k in base && k != UsdCash ==> Scale(base, multiplier)[k] == Reduced(base[k], multiplier)
    ensures RiskySum(Scale(base, multiplier)) == Reduced(RiskySum(base), multiplier)
    ensures Scale(base, multiplier)[UsdCash] == 1.0 - Reduced(RiskySum(base), multiplier)
  {
    hide RiskySum, Reduced;
    var risky := map k | k in base && k != UsdCash :: Reduced(base[k], multiplier);
    var scaled := Scale(base, multiplier);
    RiskySumReduced(base, risky, multiplier);
    RiskySumReduced(base, scaled, multiplier);
  }

  /** Scaled weights sum to one exactly, even where the base only sums to one within tolerance. */
  lemma ScaledSumsToOne(base: Amounts, multiplier: real)
    ensures UsdCash in Scale(base, multiplier)
    ensures RiskySum(Scale(base, multiplier)) + Scale(base, multiplier)[UsdCash] == 1.0
  {
    hide RiskySum, Reduced;
    ScaleWeights(base, multiplier);
  }

  ghost predicate LongOnly(weights: Amounts) {
    forall k :: k in weights ==> weights[k] >= 0.0
  }

  lemma BaseIsLongOnly(base: Amounts)
    requires ValidateBase(base).None?
    ensures UsdCash in base && LongOnly(base)
    ensures RiskySum(base) + base[UsdCash] <= 1.0 + WeightTolerance
  {
    hide RiskySum;
  }

  lemma RiskySumNonNegative(weights: Amounts)
    requires LongOnly(weights)
    ensures RiskySum(weights) >= 0.0
  {
    hide Sum;
    var zero := (k: Id) => 0.0;
    SumZero(zero, Symbols(weights));
    SumAtMost(zero, At(weights), Symbols(weights));
  }

  /** The smaller table holds no more of any symbol of the base, and no less cash. */
  ghost predicate Inside(base: Amounts, small: Amounts, large: Amounts) {
    && (forall k :: k in base && k != UsdCash ==> 0.0 <= Get(small, k) <= Get(large, k))
    && Get(small, UsdCash) >= Get(large, UsdCash)
  }

  lemma ScaleIsMonotone(base: Amounts, low: real, high: real)
    requires LongOnly(base) && 0.0 <= low <= high
    ensures Inside(base, Scale(base, low), Scale(base, high))
  {
    hide RiskySum, Scale, Reduced;
    ScaleWeights(base, low);
    ScaleWeights(base, high);
    RiskySumNonNegative(base);
    ReducedMonotone(RiskySum(base), low, high);
    forall k | k in base && k != UsdCash
      ensures 0.0 <= Get(Scale(base, low), k) <= Get(Scale(base, high), k)
    {
      ReducedMonotone(base[k], low, high);
    }
  }

  lemma ScaleNeverIncreases(base: Amounts, multiplier: real)
    requires LongOnly(base) && 0.0 <= multiplier <= 1.0
    ensures !Increases(base, Scale(base, multiplier))
  {
    hide RiskySum, Scale, Reduced;
    ScaleWeights(base, multiplier);
    forall k | k in base && k != UsdCash ensures Get(Scale(base, multiplier), k) <= base[k] {
      ReducedMonotone(base[k], multiplier, 1.0);
    }
  }

  lemma ProductBelow(a: real, b: real)
    requires 0.0 <= a <= 1.0 && 0.0 <= b <= 1.0
    ensures 0.0 <= a * b && a * b <= a && a * b <= b
  {
    TimesMonotone(a, 1.0, b);
    TimesMonotone(b, 1.0, a);
    TimesMonotone(0.0, a, b);
  }

  /** A base with a cash weight and no negative one, whose weights sum to one within 0.0000000001. */
  ghost predicate ValidBase(base: Amounts) {
    && UsdCash in base
    && (forall k :: k in base ==> base[k] >= 0.0)
    && 0.9999999999 <= RiskySum(base) + base[UsdCash] <= 1.0000000001
  }

  /**
   * Targets exist exactly for valid requests: the reduce-only check cannot fail. A missing cash weight is reported
   * first, then a negative weight, then a wrong sum, then a multiplier outside [0, 1].
   */
  lemma TargetsExactlyWhen(base: Amounts, guard: real, ai: real)
    ensures TargetsFor(base, guard, ai).Ok? <==> ValidBase(base) && 0.0 <= guard <= 1.0 && 0.0 <= ai <= 1.0
    ensures TargetsFor(base, guard, ai).Err? ==>
      TargetsFor(base, guard, ai).error == (
        if UsdCash !in base then NoCashWeight
        else if exists k :: k in base && base[k] < 0.0 then NegativeWeight
        else if !ValidBase(base) then NotOne
        else BadMultiplier)
  {
    hide Scale, Increases, RiskySum;
    if ValidateBase(base).None? && 0.0 <= guard <= 1.0 && 0.0 <= ai <= 1.0 {
      BaseIsLongOnly(base);
      ProductBelow(guard, ai);
      ScaleNeverIncreases(base, 1.0);
      ScaleNeverIncreases(base, guard);
      ScaleNeverIncreases(base, ai);
      ScaleNeverIncreases(base, guard * ai);
    }
  }

  /** The table holds the base's symbols and cash: of each risky one the stated part, of cash what those leave. */
  ghost predicate Holds(target: Amounts, base: Amounts, multiplier: real) {
    && target.Keys == base.Keys
    && (forall k :: k in base && k != UsdCash ==> k in target && target[k] == base[k] * multiplier)
    && UsdCash in target && target[UsdCash] == 1.0 - RiskySum(base) * multiplier
  }

  /** The control holds the base, each single treatment its own part of it, the combined one the product. */
  lemma ArmWeights(base: Amounts, guard: real, ai: real)
    requires TargetsFor(base, guard, ai).Ok?
    ensures var t := TargetsFor(base, guard, ai).value;
      && Holds(t.control, base, 1.0) && Holds(t.guard, base, guard) && Holds(t.ai, base, ai)
      && Holds(t.both, base, guard * ai)
  {
    hide Scale, Increases, RiskySum, Holds;
    ScaleHolds(base, 1.0);
    ScaleHolds(base, guard);
    ScaleHolds(base, ai);
    ScaleHolds(base, guard * ai);
  }

  lemma ScaleHolds(base: Amounts, multiplier: real)
    requires UsdCash in base
    ensures Holds(Scale(base, multiplier), base, multiplier)
  {
    hide Scale, RiskySum, Reduced;
    ScaleWeights(base, multiplier);
    forall weight: real ensures Reduced(weight, multiplier) == weight * multiplier {
      ReducedIs(weight, multiplier);
    }
  }

  lemma ReducedIs(weight: real, multiplier: real)
    ensures Reduced(weight, multiplier) == weight * multiplier
  {
  }

  /** The combined treatment is inside each single one, and each of those inside the control. */
  lemma TreatmentsNest(base: Amounts, guard: real, ai: real)
    requires TargetsFor(base, guard, ai).Ok?
    ensures var t := TargetsFor(base, guard, ai).value;
      && Inside(base, t.both, t.guard) && Inside(base, t.both, t.ai)
      && Inside(base, t.guard, t.control) && Inside(base, t.ai, t.control)
  {
    hide Scale, Increases, RiskySum, Inside;
    BaseIsLongOnly(base);
    ProductBelow(guard, ai);
    ScaleIsMonotone(base, guard * ai, guard);
    ScaleIsMonotone(base, guard * ai, ai);
    ScaleIsMonotone(base, guard, 1.0);
    ScaleIsMonotone(base, ai, 1.0);
  }

  /** No treatment holds less cash than the base, up to the tolerance on the base's sum. */
  lemma CashWeightKept(base: Amounts, multiplier: real)
    requires ValidateBase(base).None? && 0.0 <= multiplier <= 1.0
    ensures UsdCash in base && Get(Scale(base, multiplier), UsdCash) >= base[UsdCash] - WeightTolerance
  {
    hide RiskySum, Scale, Reduced;
    BaseIsLongOnly(base);
    ScaleWeights(base, multiplier);
    RiskySumNonNegative(base);
    ReducedMonotone(RiskySum(base), multiplier, 1.0);
  }

  /** Targets stay long-only exactly when the scaled risky weights leave room for cash. */
  lemma LongOnlyExactlyWhen(base: Amounts, multiplier: real)
    requires ValidateBase(base).None? && 0.0 <= multiplier <= 1.0
    ensures LongOnly(Scale(base, multiplier)) <==> Reduced(RiskySum(base), multiplier) <= 1.0
  {
    hide RiskySum, Scale, Reduced;
    BaseIsLongOnly(base);
    ScaleWeights(base, multiplier);
    ScaleIsMonotone(base, multiplier, multiplier);
    var scaled := Scale(base, multiplier);
    if Reduced(RiskySum(base), multiplier) <= 1.0 {
      forall k | k in scaled ensures scaled[k] >= 0.0 {
        assert k != UsdCash ==> k in base && Get(scaled, k) >= 0.0;
      }
    }
  }

  /** A base whose risky weights use up the tolerance gets a negative cash weight. */
  lemma ToleranceCanOverdraw() returns (base: Amounts)
    ensures ValidateBase(base).None? && !LongOnly(Scale(base, 1.0))
  {
    var risky := Id(1);
    base := map[UsdCash := 0.0, risky := 1.0 + WeightTolerance];
    var symbols := Symbols(base);
    assert base.Keys - {UsdCash} == {risky};
    assert |symbols| == 1 && symbols[0] in symbols;
    assert symbols == [risky] && symbols[..0] == [];
    assert Sum(At(base), [risky]) == At(base)(risky);
    assert RiskySum(base) == 1.0 + WeightTolerance;
    LongOnlyExactlyWhen(base, 1.0);
  }
}
