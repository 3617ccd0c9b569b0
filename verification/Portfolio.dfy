/** Paper arms: fills applied to cash and positions, one by one and in sorted replay. */
module Portfolio {
  import opened Identifiers
  import opened Ordering
  import opened Orders
  import opened Results
  import opened Totals

  /** What an order's stable id is made of when a rebalance plans it, or an id from elsewhere. */
  datatype OrderRef =
    | Planned(scope: Id, arm: Id, symbol: Id, side: Side, quantity: real)
    | Other(id: Id)

  datatype Fill = Fill(
    id: Id,
    order: OrderRef,
    arm: Id,
    symbol: Id,
    side: Side,
    quantity: real,
    price: real,
    commission: real,
    scenario: Id,
    effectiveAt: int,
    createdAt: int)
  {
    predicate Valid() {
      quantity > 0.0 && price > 0.0 && commission >= 0.0
    }

    function Signed(): real { if side.Buy? then quantity else -quantity }

    function Notional(): real { quantity * price }

    /** What the fill adds to cash. */
    function CashFlow(): real {
      if side.Buy? then -Notional() - commission else Notional() - commission
    }
  }

  datatype ArmState = ArmState(arm: Id, initialCash: real, cash: real, positions: Amounts, sequence: nat)

  datatype Refusal = OtherArm | ShortPosition | NegativeCash

  function Opening(arm: Id, cash: real): ArmState {
    ArmState(arm, cash, cash, map[], 0)
  }

  function ApplyFill(state: ArmState, fill: Fill): Result<ArmState, Refusal> {
    if fill.arm != state.arm then Err(OtherArm)
    else
      var held := Get(state.positions, fill.symbol) + fill.Signed();
      var cash := state.cash + fill.CashFlow();
      if held < 0.0 then Err(ShortPosition)
      else if cash < 0.0 then Err(NegativeCash)
      else Ok(ArmState(state.arm, state.initialCash, cash, state.positions[fill.symbol := held], state.sequence + 1))
  }

  /** Fills applied in the order given; the first refusal ends the run. */
  function ApplyAll(state: ArmState, fills: seq<Fill>): Result<ArmState, Refusal> {
    if fills == [] then Ok(state)
    else
      var before := ApplyAll(state, fills[..|fills| - 1]);
      if before.Err? then before else ApplyFill(before.value, fills[|fills| - 1])
  }

  /** The order of sorted replay: effective time, then fill id. */
  predicate ByTime(a: Fill, b: Fill) {
    a.effectiveAt < b.effectiveAt || (a.effectiveAt == b.effectiveAt && a.id.code <= b.id.code)
  }

  function Rebuild(arm: Id, cash: real, fills: seq<Fill>): Result<ArmState, Refusal> {
    ApplyAll(Opening(arm, cash), Sort(ByTime, fills))
  }

  method RebuildArmState(arm: Id, cash: real, fills: seq<Fill>) returns (r: Result<ArmState, Refusal>)
    ensures r == Rebuild(arm, cash, fills)
  {
    hide ApplyFill;
    var sorted := Sort(ByTime, fills);
    var state := Opening(arm, cash);
    for k := 0 to |sorted|
      invariant ApplyAll(Opening(arm, cash), sorted[..k]) == Ok(state)
    {
      ApplyNext(Opening(arm, cash), sorted, k);
      var next := ApplyFill(state, sorted[k]);
      if next.Err? {
        RefusalIsFinal(Opening(arm, cash), sorted, k + 1);
        return next;
      }
      state := next.value;
    }
    assert sorted[..|sorted|] == sorted;
    r := Ok(state);
  }

  lemma ApplyNext(state: ArmState, fills: seq<Fill>, k: nat)
    requires k < |fills|
    ensures ApplyAll(state, fills[..k + 1])
         == if ApplyAll(state, fills[..k]).Err? then ApplyAll(state, fills[..k])
            else ApplyFill(ApplyAll(state, fills[..k]).value, fills[k])
  {
    assert fills[..k + 1][..k] == fills[..k];
  }

  /** A prefix that is refused decides the whole run. */
  lemma {:induction false} RefusalIsFinal(state: ArmState, fills: seq<Fill>, k: nat)
    requires k <= |fills| && ApplyAll(state, fills[..k]).Err?
    ensures ApplyAll(state, fills) == ApplyAll(state, fills[..k])
    decreases |fills| - k
  {
    if k < |fills| {
      ApplyNext(state, fills, k);
      RefusalIsFinal(state, fills, k + 1);
    } else {
      assert fills[..k] == fills;
    }
  }

  // ---- the state as a sum over its fills

  function Flow(f: Fill): real { f.CashFlow() }

  function Delta(symbol: Id): Fill -> real {
    (f: Fill) => if f.symbol == symbol then f.Signed() else 0.0
  }

  ghost function SymbolsOf(fills: seq<Fill>): set<Id> {
    set f | f in fills :: f.symbol
  }

  ghost predicate IsSumOf(before: ArmState, fills: seq<Fill>, after: ArmState) {
    && after.arm == before.arm
    && after.initialCash == before.initialCash
    && after.sequence == before.sequence + |fills|
    && after.cash == before.cash + Sum(Flow, fills)
    && after.positions.Keys == before.positions.Keys + SymbolsOf(fills)
    && (forall k :: Get(after.positions, k) == Get(before.positions, k) + Sum(Delta(k), fills))
  }

  lemma IsSumOfStep(before: ArmState, fills: seq<Fill>, mid: ArmState, fill: Fill, after: ArmState)
    requires IsSumOf(before, fills, mid) && ApplyFill(mid, fill) == Ok(after)
    ensures IsSumOf(before, fills + [fill], after)
  {
    hide Sum;
    SumLast(Flow, fills, fill);
    assert SymbolsOf(fills + [fill]) == SymbolsOf(fills) + {fill.symbol};
    forall k ensures Get(after.positions, k) == Get(before.positions, k) + Sum(Delta(k), fills + [fill]) {
      SumLast(Delta(k), fills, fill);
    }
  }

  /** An accepted run has added up its fills, whatever their order. */
  lemma {:induction false} StateIsSum(state: ArmState, fills: seq<Fill>)
    requires ApplyAll(state, fills).Ok?
    ensures IsSumOf(state, fills, ApplyAll(state, fills).value)
  {
    if fills == [] {
      assert SymbolsOf(fills) == {};
    } else {
      var init, last := fills[..|fills| - 1], fills[|fills| - 1];
      StateIsSum(state, init);
      assert fills == init + [last];
      hide IsSumOf;
      IsSumOfStep(state, init, ApplyAll(state, init).value, last, ApplyAll(state, fills).value);
    }
  }

  /** After the first k + 1 fills, the arm is long or flat in the last one's symbol and has cash. */
  ghost predicate Affordable(state: ArmState, fills: seq<Fill>, k: nat)
    requires k < |fills|
  {
    && fills[k].arm == state.arm
    && Get(state.positions, fills[k].symbol) + Sum(Delta(fills[k].symbol), fills[..k + 1]) >= 0.0
    && state.cash + Sum(Flow, fills[..k + 1]) >= 0.0
  }

  /** A run is accepted exactly when no step goes short or overdraws the cash. */
  lemma {:induction false} AcceptsExactlyAffordable(state: ArmState, fills: seq<Fill>)
    ensures ApplyAll(state, fills).Ok? <==> forall k :: 0 <= k < |fills| ==> Affordable(state, fills, k)
  {
    hide Affordable;
    if fills != [] {
      var last := |fills| - 1;
      var init := fills[..last];
      AcceptsExactlyAffordable(state, init);
      forall k | 0 <= k < last ensures Affordable(state, fills, k) <==> Affordable(state, init, k) {
        AffordablePrefix(state, fills, k, last);
      }
      if ApplyAll(state, init).Ok? {
        LastAffordable(state, fills);
      }
    }
  }

  lemma AffordablePrefix(state: ArmState, fills: seq<Fill>, k: nat, n: nat)
    requires k < n <= |fills|
    ensures Affordable(state, fills, k) <==> Affordable(state, fills[..n], k)
  {
    assert fills[..n][..k + 1] == fills[..k + 1];
  }

  lemma LastAffordable(state: ArmState, fills: seq<Fill>)
    requires fills != [] && ApplyAll(state, fills[..|fills| - 1]).Ok?
    ensures ApplyAll(state, fills).Ok? <==> Affordable(state, fills, |fills| - 1)
  {
    var init, last := fills[..|fills| - 1], fills[|fills| - 1];
    StateIsSum(state, init);
    SumLast(Flow, init, last);
    SumLast(Delta(last.symbol), init, last);
    assert fills == init + [last] && fills[..|fills|] == fills;
    hide Sum, Fill.CashFlow;
  }

  // ---- order of arrival

  /** Two accepted runs over the same fills end in the same state. */
  lemma FinalStateIgnoresOrder(state: ArmState, s: seq<Fill>, t: seq<Fill>)
    requires multiset(s) == multiset(t)
    requires ApplyAll(state, s).Ok? && ApplyAll(state, t).Ok?
    ensures ApplyAll(state, s) == ApplyAll(state, t)
  {
    hide ApplyAll, Sum;
    StateIsSum(state, s);
    StateIsSum(state, t);
    SameMultiset(s, t);
    SumPermutes(Flow, s, t);
    assert SymbolsOf(s) == SymbolsOf(t);
    var a, b := ApplyAll(state, s).value, ApplyAll(state, t).value;
    forall k ensures Get(a.positions, k) == Get(b.positions, k) {
      SumPermutes(Delta(k), s, t);
    }
    SamePositions(a.positions, b.positions);
  }

  lemma SamePositions(a: Amounts, b: Amounts)
    requires a.Keys == b.Keys && forall k :: Get(a, k) == Get(b, k)
    ensures a == b
  {
    forall k | k in a ensures a[k] == b[k] {
      assert Get(a, k) == Get(b, k);
    }
  }

  /** A live arm and its sorted replay agree whenever both are accepted. */
  lemma LiveIsReplay(arm: Id, cash: real, fills: seq<Fill>)
    requires ApplyAll(Opening(arm, cash), fills).Ok? && Rebuild(arm, cash, fills).Ok?
    ensures Rebuild(arm, cash, fills) == ApplyAll(Opening(arm, cash), fills)
  {
    SortIsPermutation(ByTime, fills);
    FinalStateIgnoresOrder(Opening(arm, cash), Sort(ByTime, fills), fills);
  }

  /** Fills that arrived in replay order are replayed as they were accepted. */
  lemma OrderedArrivalReplays(arm: Id, cash: real, fills: seq<Fill>)
    requires Sorted(ByTime, fills)
    ensures Rebuild(arm, cash, fills) == ApplyAll(Opening(arm, cash), fills)
  {
    SortOfSorted(ByTime, fills);
  }

  /** Replay takes the fills from the earliest effect on, and those of one instant by their ids: any such arrangement
      of fills with distinct ids is the one replayed. */
  lemma ReplayIsChronological(arm: Id, cash: real, fills: seq<Fill>, s: seq<Fill>)
    requires multiset(s) == multiset(fills)
    requires forall i, j :: 0 <= i < j < |s| ==>
      s[i].effectiveAt < s[j].effectiveAt || (s[i].effectiveAt == s[j].effectiveAt && s[i].id.code < s[j].id.code)
    ensures Rebuild(arm, cash, fills) == ApplyAll(Opening(arm, cash), s)
  {
    hide ApplyAll, Sort;
    SortIsPermutation(ByTime, fills);
    SortIsSorted(ByTime, fills);
    SortedIsUnique(ByTime, s, Sort(ByTime, fills));
  }

  /** Out-of-order arrival can make replay refuse what the live arm accepted. */
  lemma LateArrivalCanBeRefused(arm: Id, symbol: Id, order: OrderRef, scenario: Id) returns (fills: seq<Fill>)
    ensures ApplyAll(Opening(arm, 1.0), fills).Ok? && Rebuild(arm, 1.0, fills) == Err(ShortPosition)
  {
    var buy := Fill(Id(0), order, arm, symbol, Buy, 1.0, 1.0, 0.0, scenario, 2, 2);
    var sell := Fill(Id(1), order, arm, symbol, Sell, 1.0, 1.0, 0.0, scenario, 1, 2);
    fills := [buy, sell];
    var start := Opening(arm, 1.0);
    assert fills[..1] == [buy] && [buy][..0] == [];
    assert ApplyAll(start, [buy]) == ApplyFill(start, buy);
    assert fills[1..] == [sell] && [sell][1..] == [];
    assert Sort(ByTime, [sell]) == [sell];
    assert Insert(ByTime, buy, []) == [buy];
    assert Sort(ByTime, fills) == Insert(ByTime, buy, [sell]) == [sell, buy];
    assert [sell, buy][..1] == [sell] && [sell][..0] == [];
    assert ApplyAll(start, [sell]) == ApplyFill(start, sell);
  }
}
