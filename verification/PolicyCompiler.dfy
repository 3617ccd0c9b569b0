/** Policy patches compiled into, and composed as, the effects in force for one arm. */
module PolicyCompiler {
  import opened Identifiers
  import opened Results
  import opened Sums

  datatype Arm = B3Risk | B3Full | OtherArm(name: string)

  datatype Action = BlockNewEntries | ReduceRiskBudget | ApplyStrategyTilt | RestoreDefault

  datatype TargetKind = Strategy | Factor | Portfolio | Symbol

  /** The unit of control: no two patches in force may hold the same bucket. */
  datatype Bucket = Bucket(kind: TargetKind, target: string)

  datatype Operation = Operation(
    action: Action,
    bucket: Bucket,
    delta: Option<real>,
    multiplier: Option<real>,
    blocked: Option<bool>)
  {
    predicate Restores() { action.RestoreDefault? }
  }

  const ALLOWED_SYMBOLS := ["SPY", "QQQ", "IWM", "SOXX", "SMH", "XLK", "TLT", "HYG", "GLD"]
  const ALLOWED_FACTORS :=
    ["US_EQUITY_BETA", "US_TECH_BETA", "SEMICONDUCTOR_BETA", "DURATION", "CREDIT", "GOLD_DEFENSIVE"]

  /** The narrower allowlist of the forward risk arm. */
  predicate AllowedForRiskArm(op: Operation) {
    match op.action
    case ReduceRiskBudget => op.bucket == Bucket(Portfolio, "TOTAL") && op.multiplier.Some? && op.delta.None?
    case BlockNewEntries =>
      && (op.bucket == Bucket(Symbol, "QQQ")
          || op.bucket == Bucket(Factor, "US_EQUITY_BETA")
          || op.bucket == Bucket(Factor, "US_TECH_BETA"))
      && op.blocked != Some(false)
    case RestoreDefault => op.bucket == Bucket(Portfolio, "TOTAL")
    case ApplyStrategyTilt => false
  }

  /** Operation validation in shadow mode, the only mode the control plane compiles in. */
  predicate Allowed(arm: Arm, op: Operation) {
    && (arm.B3Risk? ==> AllowedForRiskArm(op))
    && (op.bucket.kind.Symbol? ==> op.bucket.target in ALLOWED_SYMBOLS && op.action.BlockNewEntries?)
    && (op.bucket.kind.Factor? ==> op.bucket.target in ALLOWED_FACTORS)
    && (op.delta.Some? ==> -0.15 <= op.delta.value <= 0.15 && (arm.B3Risk? ==> op.delta.value <= 0.0))
    && (op.multiplier.Some? ==> 0.25 <= op.multiplier.value <= 1.0)
    && (op.action.ReduceRiskBudget? ==> op.delta.Some? || op.multiplier.Some?)
  }

  datatype Effects = Effects(
    multiplier: real,
    deltas: map<string, real>,
    blocked: set<Bucket>,
    buckets: set<Bucket>)

  const NEUTRAL := Effects(1.0, map[], {}, {})

  datatype CompileFault = ArmMismatch | VersionMismatch | Inactive | NotAllowed | BucketTaken

  function ApplyOperation(arm: Arm, e: Effects, op: Operation): Result<Effects, CompileFault> {
    if !Allowed(arm, op) then Err(NotAllowed)
    else if op.Restores() then Ok(NEUTRAL)
    else if op.bucket in e.buckets then Err(BucketTaken)
    else
      var adjusts := op.action.ReduceRiskBudget? || op.action.ApplyStrategyTilt?;
      var target := op.bucket.target;
      Ok(Effects(
        if adjusts && op.multiplier.Some? && op.multiplier.value < e.multiplier then op.multiplier.value else e.multiplier,
        if adjusts && op.delta.Some?
          then e.deltas[target := (if target in e.deltas then e.deltas[target] else 0.0) + op.delta.value]
          else e.deltas,
        if op.action.BlockNewEntries? then e.blocked + {op.bucket} else e.blocked,
        e.buckets + {op.bucket}))
  }

  function ApplyAll(arm: Arm, e: Effects, ops: seq<Operation>): Result<Effects, CompileFault> {
    if ops == [] then Ok(e)
    else match ApplyAll(arm, e, ops[..|ops| - 1])
      case Err(fault) => Err(fault)
      case Ok(mid) => ApplyOperation(arm, mid, ops[|ops| - 1])
  }

  /** What a request shows its commander. */
  datatype Context = Context(content: Id, evidence: set<Id>, bytes: nat)

  /** A scope id: its text, which may be blank or too long. */
  datatype Scope = Scope(text: Id, length: nat, blank: bool)
  {
    predicate Valid() { !blank && length <= 80 }
  }

  /** A request id is made of the contents that its hash covers, so equal ids mean equal contents. */
  datatype RequestId = RequestId(
    selectionVersion: int,
    scope: Scope,
    policy: PolicyState,
    asOf: int,
    cutoff: int,
    context: Context,
    createdAt: int)

  /** A patch id is made from the decision that consumed a request; the code is where its text sorts among ids. */
  datatype PatchId = PatchId(request: RequestId, code: int)

  datatype Patch = Patch(
    id: PatchId,
    arm: Arm,
    baseVersion: int,
    effectiveFrom: int,
    expiresAt: int,
    operations: seq<Operation>,
    createdAt: int)
  {
    predicate ActiveAt(instant: int) { effectiveFrom <= instant < expiresAt }
  }

  datatype PolicyState = PolicyState(arm: Arm, version: int, effects: Effects, source: Option<PatchId>)

  function DefaultState(arm: Arm): PolicyState {
    PolicyState(arm, 0, NEUTRAL, None)
  }

  predicate SameEffects(a: PolicyState, b: PolicyState) {
    a.arm == b.arm && a.effects == b.effects && a.source == b.source
  }

  function Compile(patch: Patch, current: PolicyState, now: int): Result<PolicyState, CompileFault> {
    if patch.arm != current.arm then Err(ArmMismatch)
    else if patch.baseVersion != current.version then Err(VersionMismatch)
    else if !patch.ActiveAt(now) then Err(Inactive)
    else if patch.arm.OtherArm? then Err(NotAllowed)
    else match ApplyAll(patch.arm, current.effects, patch.operations)
      case Err(fault) => Err(fault)
      case Ok(effects) => Ok(PolicyState(current.arm, current.version + 1, effects, Some(patch.id)))
  }

  function Compose(arm: Arm, patches: seq<Patch>, version: int, now: int): Result<PolicyState, CompileFault> {
    if patches == [] then Ok(PolicyState(arm, version, NEUTRAL, None))
    else match Compose(arm, patches[..|patches| - 1], version, now)
      case Err(fault) => Err(fault)
      case Ok(before) =>
        var p := patches[|patches| - 1];
        if p.arm != arm then Err(ArmMismatch)
        else if !p.ActiveAt(now) then Err(Inactive)
        else match ApplyAll(arm, before.effects, p.operations)
          case Err(fault) => Err(fault)
          case Ok(effects) => Ok(PolicyState(arm, version, effects, Some(p.id)))
  }

  // ---- compiling is composing one patch further

  /** Compiling a patch on a base that carries the composed patches gives what composing it last would give. */
  lemma CompileIsCompose(arm: Arm, patches: seq<Patch>, current: PolicyState, patch: Patch, now: int)
    requires Compose(arm, patches, current.version, now).Ok?
    requires SameEffects(current, Compose(arm, patches, current.version, now).value)
    requires Compile(patch, current, now).Ok?
    ensures Compose(arm, patches + [patch], current.version + 1, now) == Ok(Compile(patch, current, now).value)
  {
    hide ApplyAll;
    assert (patches + [patch])[..|patches|] == patches;
    ComposeVersion(arm, patches, current.version, current.version + 1, now);
  }

  /** The version argument is carried, never consulted. */
  lemma {:induction false} ComposeVersion(arm: Arm, patches: seq<Patch>, v: int, w: int, now: int)
    ensures Compose(arm, patches, v, now).Ok? <==> Compose(arm, patches, w, now).Ok?
    ensures Compose(arm, patches, v, now).Ok? ==>
      Compose(arm, patches, w, now) == Ok(Compose(arm, patches, v, now).value.(version := w))
  {
    hide ApplyAll;
    if patches != [] {
      ComposeVersion(arm, patches[..|patches| - 1], v, w, now);
    }
  }

  // ---- when composition succeeds

  function Flatten(patches: seq<Patch>): seq<Operation> {
    if patches == [] then [] else Flatten(patches[..|patches| - 1]) + patches[|patches| - 1].operations
  }

  lemma {:induction false} ApplyConcat(arm: Arm, e: Effects, a: seq<Operation>, b: seq<Operation>)
    ensures ApplyAll(arm, e, a + b) ==
      match ApplyAll(arm, e, a)
        case Err(fault) => Err(fault)
        case Ok(mid) => ApplyAll(arm, mid, b)
  {
    hide ApplyOperation;
    if b == [] {
      assert a + b == a;
    } else {
      assert (a + b)[..|a + b| - 1] == a + b[..|b| - 1];
      ApplyConcat(arm, e, a, b[..|b| - 1]);
    }
  }

  /** Composing patches that are active and belong to the arm is applying their operations in one list. */
  lemma {:induction false} ComposeIsApply(arm: Arm, patches: seq<Patch>, version: int, now: int)
    requires forall p :: p in patches ==> p.arm == arm && p.ActiveAt(now)
    ensures Compose(arm, patches, version, now).Ok? <==> ApplyAll(arm, NEUTRAL, Flatten(patches)).Ok?
    ensures Compose(arm, patches, version, now).Ok? ==>
      Compose(arm, patches, version, now).value.effects == ApplyAll(arm, NEUTRAL, Flatten(patches)).value
  {
    hide ApplyAll;
    if patches == [] {
      ApplyNothing(arm);
    } else {
      var init, p := patches[..|patches| - 1], patches[|patches| - 1];
      ComposeIsApply(arm, init, version, now);
      assert p in patches;
      ApplyConcat(arm, NEUTRAL, Flatten(init), p.operations);
    }
  }

  lemma ApplyNothing(arm: Arm)
    ensures ApplyAll(arm, NEUTRAL, []) == Ok(NEUTRAL)
  {
  }

  /** Position i still holds its bucket at position n: nothing restored the default in between. */
  ghost predicate Holds(ops: seq<Operation>, i: int, n: int) {
    0 <= i < n <= |ops| && ops[i].action != RestoreDefault && forall k :: i < k < n ==> ops[k].action != RestoreDefault
  }

  /** No operation takes a bucket that an earlier one still holds. */
  ghost predicate ConflictFree(ops: seq<Operation>) {
    forall i, j :: Holds(ops, i, j) && j < |ops| && ops[j].action != RestoreDefault ==> ops[i].bucket != ops[j].bucket
  }

  lemma HoldsInPrefix(ops: seq<Operation>, i: int, n: int, m: nat)
    requires n <= m <= |ops|
    ensures Holds(ops, i, n) <==> Holds(ops[..m], i, n)
  {
  }

  lemma ConflictFreePrefix(ops: seq<Operation>, n: nat)
    requires n < |ops|
    ensures ConflictFree(ops[..n + 1]) <==>
      && ConflictFree(ops[..n])
      && (!ops[n].Restores() ==> forall i :: Holds(ops, i, n) ==> ops[i].bucket != ops[n].bucket)
  {
    var longer, shorter := ops[..n + 1], ops[..n];
    forall i, j | 0 <= i < j <= n
      ensures Holds(longer, i, j) <==> Holds(ops, i, j)
      ensures Holds(shorter, i, j) <==> Holds(ops, i, j)
    {
      HoldsInPrefix(ops, i, j, n + 1);
      HoldsInPrefix(ops, i, j, n);
    }
  }

  /** Operations apply exactly when each is allowed and none takes a bucket still held; and the buckets in force
      afterwards are exactly those still held. */
  lemma {:induction false} AppliesExactlyWhen(arm: Arm, ops: seq<Operation>, n: nat)
    requires n <= |ops|
    ensures ApplyAll(arm, NEUTRAL, ops[..n]).Ok? <==>
      (forall i :: 0 <= i < n ==> Allowed(arm, ops[i])) && ConflictFree(ops[..n])
    ensures ApplyAll(arm, NEUTRAL, ops[..n]).Ok? ==>
      forall b :: b in ApplyAll(arm, NEUTRAL, ops[..n]).value.buckets <==> exists i :: Holds(ops, i, n) && ops[i].bucket == b
  {
    hide Allowed, ConflictFree;
    if n == 0 {
      assert ops[..0] == [];
      NoConflictInNothing();
    } else {
      var m := n - 1;
      AppliesExactlyWhen(arm, ops, m);
      ConflictFreePrefix(ops, m);
      assert ops[..n][..m] == ops[..m];
      var before := ApplyAll(arm, NEUTRAL, ops[..m]);
      if before.Ok? && ApplyOperation(arm, before.value, ops[m]).Ok? {
        var after := ApplyOperation(arm, before.value, ops[m]).value.buckets;
        forall b ensures b in after <==> exists i :: Holds(ops, i, n) && ops[i].bucket == b {
          HoldsNext(ops, m, b);
        }
      }
    }
  }

  /** The first operation that does not apply decides the fault: not allowed, or else its bucket is taken. */
  lemma {:induction false} FirstFaultIs(arm: Arm, ops: seq<Operation>, k: nat)
    requires k < |ops| && ApplyAll(arm, NEUTRAL, ops[..k]).Ok? && ApplyAll(arm, NEUTRAL, ops[..k + 1]).Err?
    ensures ApplyAll(arm, NEUTRAL, ops) == Err(if !Allowed(arm, ops[k]) then NotAllowed else BucketTaken)
    decreases |ops|
  {
    hide Allowed;
    assert ops[..k + 1][..k] == ops[..k];
    if k + 1 < |ops| {
      var init := ops[..|ops| - 1];
      assert init[..k] == ops[..k] && init[..k + 1] == ops[..k + 1];
      FirstFaultIs(arm, init, k);
    } else {
      assert ops[..k + 1] == ops;
    }
  }

  lemma NoConflictInNothing()
    ensures ConflictFree([])
  {
  }

  lemma HoldsNext(ops: seq<Operation>, m: nat, b: Bucket)
    requires m < |ops|
    ensures (exists i :: Holds(ops, i, m + 1) && ops[i].bucket == b) <==>
      !ops[m].Restores() && (ops[m].bucket == b || exists i :: Holds(ops, i, m) && ops[i].bucket == b)
  {
    if i :| Holds(ops, i, m + 1) && ops[i].bucket == b {
      assert i < m ==> Holds(ops, i, m);
      assert i == m || !ops[m].Restores();
    }
    if !ops[m].Restores() {
      if ops[m].bucket == b {
        assert Holds(ops, m, m + 1);
      } else if i :| Holds(ops, i, m) && ops[i].bucket == b {
        assert Holds(ops, i, m + 1);
      }
    }
  }

  /** Composition of active patches succeeds exactly when their operations are allowed and conflict-free. */
  lemma ComposesExactlyWhen(arm: Arm, patches: seq<Patch>, version: int, now: int)
    requires forall p :: p in patches ==> p.arm == arm && p.ActiveAt(now)
    ensures Compose(arm, patches, version, now).Ok? <==>
      var ops := Flatten(patches);
      (forall i :: 0 <= i < |ops| ==> Allowed(arm, ops[i])) && ConflictFree(ops)
  {
    hide Compose, Allowed, ConflictFree, ApplyAll;
    var ops := Flatten(patches);
    ComposeIsApply(arm, patches, version, now);
    AppliesExactlyWhen(arm, ops, |ops|);
    assert ops[..|ops|] == ops;
  }

  // ---- what the operations in force do

  predicate Adjusting(op: Operation) { op.action in {ReduceRiskBudget, ApplyStrategyTilt} }

  /** The delta that operation i still contributes to a target after the first n operations. */
  ghost function HeldDelta(ops: seq<Operation>, n: nat, target: string): int -> real {
    i =>
      if Holds(ops, i, n) && Adjusting(ops[i]) && ops[i].delta.Some? && ops[i].bucket.target == target
      then ops[i].delta.value else 0.0
  }

  ghost predicate Reducing(ops: seq<Operation>, i: int, n: nat) {
    Holds(ops, i, n) && Adjusting(ops[i]) && ops[i].multiplier.Some?
  }

  ghost predicate Tilting(ops: seq<Operation>, i: int, n: nat, target: string) {
    Holds(ops, i, n) && Adjusting(ops[i]) && ops[i].delta.Some? && ops[i].bucket.target == target
  }

  ghost predicate Blocking(ops: seq<Operation>, i: int, n: nat, b: Bucket) {
    Holds(ops, i, n) && ops[i].action == BlockNewEntries && ops[i].bucket == b
  }

  /** The multiplier is the least of one and the multipliers of the reductions still held. */
  ghost predicate LeastMultiplier(ops: seq<Operation>, n: nat, multiplier: real) {
    && multiplier <= 1.0
    && (forall i :: Reducing(ops, i, n) ==> multiplier <= ops[i].multiplier.value)
    && (multiplier == 1.0 || exists i :: Reducing(ops, i, n) && ops[i].multiplier.value == multiplier)
  }

  /** A target's delta is the sum of the deltas still held on it, and no other target has one. */
  ghost predicate SummedDeltas(ops: seq<Operation>, n: nat, deltas: map<string, real>) {
    && (forall t :: t in deltas <==> exists i :: Tilting(ops, i, n, t))
    && (forall t :: t in deltas ==> deltas[t] == Sum(HeldDelta(ops, n, t), 0, n))
  }

  /** Blocked are exactly the buckets of the entry blocks still held. */
  ghost predicate HeldBlocks(ops: seq<Operation>, n: nat, blocked: set<Bucket>) {
    forall b :: b in blocked <==> exists i :: Blocking(ops, i, n, b)
  }

  /** The effects that the first n operations leave in force. */
  ghost predicate Describes(ops: seq<Operation>, n: nat, e: Effects) {
    LeastMultiplier(ops, n, e.multiplier) && SummedDeltas(ops, n, e.deltas) && HeldBlocks(ops, n, e.blocked)
  }

  lemma HoldsStep(ops: seq<Operation>, n: nat, i: int)
    requires n < |ops|
    ensures Holds(ops, i, n + 1) <==> !ops[n].Restores() && (i == n || Holds(ops, i, n))
  {
  }

  lemma NothingHeld(ops: seq<Operation>, n: nat)
    requires n <= |ops| && forall i :: !Holds(ops, i, n)
    ensures Describes(ops, n, NEUTRAL)
  {
  }

  lemma MultiplierStep(ops: seq<Operation>, n: nat, before: real, after: real)
    requires n < |ops| && !ops[n].Restores() && LeastMultiplier(ops, n, before)
    requires after == if Adjusting(ops[n]) && ops[n].multiplier.Some? && ops[n].multiplier.value < before
                      then ops[n].multiplier.value else before
    ensures LeastMultiplier(ops, n + 1, after)
  {
    var m := n + 1;
    forall i ensures Reducing(ops, i, m) <==> Reducing(ops, i, n) || (i == n && Adjusting(ops[n]) && ops[n].multiplier.Some?) {
      HoldsStep(ops, n, i);
    }
    if after != 1.0 {
      if after == before {
        var i :| Reducing(ops, i, n) && ops[i].multiplier.value == before;
        assert Reducing(ops, i, m);
      } else {
        assert Reducing(ops, n, m);
      }
    }
  }

  lemma BlocksStep(ops: seq<Operation>, n: nat, before: set<Bucket>, after: set<Bucket>)
    requires n < |ops| && !ops[n].Restores() && HeldBlocks(ops, n, before)
    requires after == if ops[n].action.BlockNewEntries? then before + {ops[n].bucket} else before
    ensures HeldBlocks(ops, n + 1, after)
  {
    var m := n + 1;
    forall b ensures b in after <==> exists i :: Blocking(ops, i, m, b) {
      forall i ensures Blocking(ops, i, m, b) <==>
        Blocking(ops, i, n, b) || (i == n && ops[n].action.BlockNewEntries? && ops[n].bucket == b)
      {
        HoldsStep(ops, n, i);
      }
      if b in after && b !in before {
        assert Blocking(ops, n, m, b);
      }
    }
  }

  lemma DeltaSumStep(ops: seq<Operation>, n: nat, target: string)
    requires n < |ops| && !ops[n].Restores()
    ensures Sum(HeldDelta(ops, n + 1, target), 0, n + 1) == Sum(HeldDelta(ops, n, target), 0, n)
      + if Adjusting(ops[n]) && ops[n].delta.Some? && ops[n].bucket.target == target then ops[n].delta.value else 0.0
  {
    hide Holds, Sum;
    var f, g := HeldDelta(ops, n, target), HeldDelta(ops, n + 1, target);
    forall i | 0 <= i < n ensures g(i) == f(i) {
      HoldsStep(ops, n, i);
    }
    SumSame(g, f, 0, n);
    SumLast(g, 0, n + 1);
    HoldsStep(ops, n, n);
  }

  lemma NoDelta(ops: seq<Operation>, n: nat, target: string)
    requires forall i :: !Tilting(ops, i, n, target)
    ensures Sum(HeldDelta(ops, n, target), 0, n) == 0.0
  {
    hide Holds, Sum;
    forall i | 0 <= i < n ensures HeldDelta(ops, n, target)(i) == 0.0 {
      assert !Tilting(ops, i, n, target);
    }
    SumZero(HeldDelta(ops, n, target), 0, n);
  }

  lemma DeltasStep(ops: seq<Operation>, n: nat, before: map<string, real>, after: map<string, real>)
    requires n < |ops| && !ops[n].Restores() && SummedDeltas(ops, n, before)
    requires var target := ops[n].bucket.target;
      after == if Adjusting(ops[n]) && ops[n].delta.Some?
               then before[target := (if target in before then before[target] else 0.0) + ops[n].delta.value] else before
    ensures SummedDeltas(ops, n + 1, after)
  {
    hide Sum, HeldDelta;
    var m, adds := n + 1, Adjusting(ops[n]) && ops[n].delta.Some?;
    forall t ensures t in after <==> exists i :: Tilting(ops, i, m, t) {
      forall i ensures Tilting(ops, i, m, t) <==> Tilting(ops, i, n, t) || (i == n && adds && ops[n].bucket.target == t) {
        HoldsStep(ops, n, i);
      }
      if t in after && t !in before {
        assert Tilting(ops, n, m, t);
      }
    }
    forall t | t in after ensures after[t] == Sum(HeldDelta(ops, n + 1, t), 0, n + 1) {
      DeltaSumStep(ops, n, t);
      if t !in before {
        NoDelta(ops, n, t);
      }
    }
  }

  lemma EffectsStep(arm: Arm, ops: seq<Operation>, n: nat, before: Effects)
    requires n < |ops| && Describes(ops, n, before) && ApplyOperation(arm, before, ops[n]).Ok?
    ensures Describes(ops, n + 1, ApplyOperation(arm, before, ops[n]).value)
  {
    hide Allowed, Holds, LeastMultiplier, SummedDeltas, HeldBlocks;
    var after := ApplyOperation(arm, before, ops[n]).value;
    if ops[n].Restores() {
      var m := n + 1;
      forall i ensures !Holds(ops, i, m) {
        HoldsStep(ops, n, i);
      }
      NothingHeld(ops, m);
    } else {
      MultiplierStep(ops, n, before.multiplier, after.multiplier);
      DeltasStep(ops, n, before.deltas, after.deltas);
      BlocksStep(ops, n, before.blocked, after.blocked);
    }
  }

  /** What applied operations leave in force, read off the operations still held. */
  lemma {:induction false} EffectsAreThoseHeld(arm: Arm, ops: seq<Operation>, n: nat)
    requires n <= |ops| && ApplyAll(arm, NEUTRAL, ops[..n]).Ok?
    ensures Describes(ops, n, ApplyAll(arm, NEUTRAL, ops[..n]).value)
  {
    hide Describes, ApplyOperation;
    if n == 0 {
      NothingHeld(ops, 0);
    } else {
      assert ops[..n][..n - 1] == ops[..n - 1];
      EffectsAreThoseHeld(arm, ops, n - 1);
      EffectsStep(arm, ops, n - 1, ApplyAll(arm, NEUTRAL, ops[..n - 1]).value);
    }
  }

  /** A composed policy has exactly the effects of the operations of its patches that are still held. */
  lemma ComposedEffects(arm: Arm, patches: seq<Patch>, version: int, now: int)
    requires (forall p :: p in patches ==> p.arm == arm && p.ActiveAt(now)) && Compose(arm, patches, version, now).Ok?
    ensures var ops := Flatten(patches);
      Describes(ops, |ops|, Compose(arm, patches, version, now).value.effects)
  {
    hide Compose, Describes, ApplyAll;
    var ops := Flatten(patches);
    ComposeIsApply(arm, patches, version, now);
    assert ops[..|ops|] == ops;
    EffectsAreThoseHeld(arm, ops, |ops|);
  }

  /** A composed policy is of its arm and version, and names its last patch. */
  lemma ComposeSource(arm: Arm, patches: seq<Patch>, version: int, now: int)
    requires Compose(arm, patches, version, now).Ok?
    ensures var c := Compose(arm, patches, version, now).value;
      && c.arm == arm && c.version == version
      && c.source == (if patches == [] then None else Some(patches[|patches| - 1].id))
  {
    hide ApplyAll;
  }

  // ---- what the forward risk arm may do

  /** The forward risk arm may cut the whole portfolio, block one of three targets, or restore the default. */
  lemma RiskArmAllows(op: Operation)
    ensures Allowed(B3Risk, op) <==>
      && (op.multiplier.Some? ==> 0.25 <= op.multiplier.value <= 1.0)
      && (op.delta.Some? ==> -0.15 <= op.delta.value <= 0.0)
      && (|| (op.action == ReduceRiskBudget && op.bucket == Bucket(Portfolio, "TOTAL") && op.multiplier.Some? && op.delta.None?)
          || (op.action == RestoreDefault && op.bucket == Bucket(Portfolio, "TOTAL"))
          || (&& op.action == BlockNewEntries && op.blocked != Some(false)
              && op.bucket in {Bucket(Symbol, "QQQ"), Bucket(Factor, "US_EQUITY_BETA"), Bucket(Factor, "US_TECH_BETA")}))
  {
    assert ALLOWED_SYMBOLS[1] == "QQQ";
    assert ALLOWED_FACTORS[0] == "US_EQUITY_BETA" && ALLOWED_FACTORS[1] == "US_TECH_BETA";
  }

  /** The full arm may tilt and block within the registries; only entry blocks may name a symbol. */
  lemma FullArmAllows(op: Operation)
    ensures Allowed(B3Full, op) <==>
      && (op.multiplier.Some? ==> 0.25 <= op.multiplier.value <= 1.0)
      && (op.delta.Some? ==> -0.15 <= op.delta.value <= 0.15)
      && (op.action == ReduceRiskBudget ==> op.delta != None || op.multiplier != None)
      && match op.bucket.kind
         case Symbol =>
           op.action == BlockNewEntries
           && op.bucket.target in {"SPY", "QQQ", "IWM", "SOXX", "SMH", "XLK", "TLT", "HYG", "GLD"}
         case Factor =>
           op.bucket.target
           in {"US_EQUITY_BETA", "US_TECH_BETA", "SEMICONDUCTOR_BETA", "DURATION", "CREDIT", "GOLD_DEFENSIVE"}
         case _ => true
  {
    Registries();
  }

  lemma Registries()
    ensures forall t :: t in ALLOWED_SYMBOLS <==> t in {"SPY", "QQQ", "IWM", "SOXX", "SMH", "XLK", "TLT", "HYG", "GLD"}
    ensures forall t :: t in ALLOWED_FACTORS <==>
      t in {"US_EQUITY_BETA", "US_TECH_BETA", "SEMICONDUCTOR_BETA", "DURATION", "CREDIT", "GOLD_DEFENSIVE"}
  {
  }

  /** Whatever is composed for the forward risk arm only ever reduces risk. */
  lemma RiskArmOnlyReduces(patches: seq<Patch>, version: int, now: int)
    requires (forall p :: p in patches ==> p.arm == B3Risk && p.ActiveAt(now)) && Compose(B3Risk, patches, version, now).Ok?
    ensures var e := Compose(B3Risk, patches, version, now).value.effects;
      && 0.25 <= e.multiplier <= 1.0 && e.deltas == map[]
      && e.blocked <= {Bucket(Symbol, "QQQ"), Bucket(Factor, "US_EQUITY_BETA"), Bucket(Factor, "US_TECH_BETA")}
  {
    hide Compose, Allowed, ConflictFree, Holds;
    var ops, e := Flatten(patches), Compose(B3Risk, patches, version, now).value.effects;
    ComposesExactlyWhen(B3Risk, patches, version, now);
    ComposedEffects(B3Risk, patches, version, now);
    forall i | 0 <= i < |ops| ensures RiskShape(ops[i]) {
      RiskArmAllows(ops[i]);
    }
    HeldAreInside(ops);
    if e.multiplier != 1.0 {
      var i :| Reducing(ops, i, |ops|) && ops[i].multiplier.value == e.multiplier;
      assert RiskShape(ops[i]);
    }
    forall t ensures t !in e.deltas {
      forall i ensures !Tilting(ops, i, |ops|, t) {
        assert 0 <= i < |ops| ==> RiskShape(ops[i]);
      }
    }
    forall b | b in e.blocked ensures b in {Bucket(Symbol, "QQQ"), Bucket(Factor, "US_EQUITY_BETA"), Bucket(Factor, "US_TECH_BETA")} {
      var i :| Blocking(ops, i, |ops|, b);
      assert RiskShape(ops[i]);
    }
  }

  ghost predicate RiskShape(op: Operation) {
    && (op.multiplier.Some? ==> 0.25 <= op.multiplier.value <= 1.0)
    && (Adjusting(op) ==> op.delta.None?)
    && (op.action == BlockNewEntries ==>
          op.bucket in {Bucket(Symbol, "QQQ"), Bucket(Factor, "US_EQUITY_BETA"), Bucket(Factor, "US_TECH_BETA")})
  }

  lemma HeldAreInside(ops: seq<Operation>)
    ensures forall i, n :: Holds(ops, i, n) ==> 0 <= i < |ops|
  {
  }
}
