/** The adaptive control plane: versioned selections, bound requests, single-use decisions, stored policies. */
module ControlPlane {
  import opened Ordering
  import opened Identifiers
  import opened PolicyCompiler
  import opened Results

  const REQUEST_TTL := 21600
  const MAX_POLICY_TTL := 21600
  const MAX_CONTEXT_BYTES := 524288

  datatype Provider = CodexSolMax | WebgptSolPro

  // ---- tables

  datatype Selection = Selection(version: int, provider: Provider, createdAt: int)

  datatype Request = Request(id: RequestId, provider: Provider, expiresAt: int)

  datatype Condition = Condition(timeReached: bool, onCurrentTime: bool, at: Option<int>)

  datatype Body =
    | NoChange
    | ApplyPatch(effectiveFrom: int, expiresAt: int, operations: seq<Operation>, rollback: seq<Condition>)

  /** A commander's output, as it claims to answer a request. */
  datatype Decision = Decision(
    request: RequestId,
    manifest: RequestId,
    arm: Arm,
    baseVersion: int,
    evidence: seq<Id>,
    body: Body)
  {
    /** Schema rules checked before the decision is looked at. */
    predicate Valid() {
      && baseVersion >= 0 && !arm.OtherArm? && |evidence| <= 100
      && (body.ApplyPatch? ==>
            && body.effectiveFrom < body.expiresAt && evidence != []
            && 0 < |body.operations| <= 20 && |body.rollback| <= 20)
    }
  }

  datatype DecisionRow = DecisionRow(provider: Provider, receivedAt: int, payload: Decision)

  datatype Status = Accepted | Rejected | Unchanged

  datatype Reason =
    | RequestExpired
    | RequestIdMismatch
    | ContextHashMismatch
    | ArmScopeMismatch
    | BaseVersionMismatch
    | EvidenceNotInContext
    | ProviderMismatch
    | NoActiveProvider
    | StaleSelection
    | ModelNoChange
    | PolicyTtlExceeded
    | UnsupportedRollback
    | PolicyVersionConflict
    | CompileRejected(fault: CompileFault)
    | PolicyApplied

  datatype Receipt = Receipt(
    request: RequestId,
    provider: Provider,
    status: Status,
    reason: Reason,
    applied: Option<int>,
    createdAt: int,
    replay: bool)

  datatype PatchRow = PatchRow(scope: Scope, patch: Patch)

  datatype VersionRow = VersionRow(scope: Scope, state: PolicyState, createdAt: int)

  datatype Db = Db(
    selections: seq<Selection>,
    requests: map<RequestId, Request>,
    decisions: map<RequestId, DecisionRow>,
    results: map<RequestId, Receipt>,
    patches: seq<PatchRow>,
    versions: seq<VersionRow>)

  const EMPTY := Db([], map[], map[], map[], [], [])

  datatype ControlFault =
    | SelectionConflict
    | NoProviderSelected
    | CutoffAfterAsOf
    | UnsupportedArm
    | InvalidScope
    | ContextTooLarge
    | RequestNotFound
    | DecisionConflict
    | MissingResult
    | InvalidDecision
    | Composition(fault: CompileFault)
    | UniqueViolation

  // ---- queries

  /** The row with the highest version, as ordering by version and taking one finds it. */
  function Newest<T>(version: T -> int, rows: seq<T>): Option<T> {
    if rows == [] then None
    else
      var last := rows[|rows| - 1];
      match Newest(version, rows[..|rows| - 1])
      case None => Some(last)
      case Some(best) => if version(last) > version(best) then Some(last) else Some(best)
  }

  function SelectionVersion(s: Selection): int { s.version }

  function RowVersion(r: VersionRow): int { r.state.version }

  function LatestSelection(db: Db): Option<Selection> {
    Newest(SelectionVersion, db.selections)
  }

  function Of(scope: Scope, arm: Arm): VersionRow -> bool {
    (r: VersionRow) => r.scope == scope && r.state.arm == arm
  }

  function StoredBy(at: int): VersionRow -> bool {
    (r: VersionRow) => r.createdAt <= at
  }

  /** The stored policy versions of one scope and arm, in insertion order. */
  function History(db: Db, scope: Scope, arm: Arm): seq<VersionRow> {
    Filter(Of(scope, arm), db.versions)
  }

  function StateOf(row: Option<VersionRow>, arm: Arm): PolicyState {
    match row
    case None => DefaultState(arm)
    case Some(r) => r.state
  }

  function LatestState(db: Db, scope: Scope, arm: Arm): PolicyState {
    StateOf(Newest(RowVersion, History(db, scope, arm)), arm)
  }

  function StoredState(db: Db, scope: Scope, arm: Arm, at: int): PolicyState {
    StateOf(Newest(RowVersion, Filter(StoredBy(at), History(db, scope, arm))), arm)
  }

  function InForce(scope: Scope, arm: Arm, at: int): PatchRow -> bool {
    (r: PatchRow) => r.scope == scope && r.patch.arm == arm && r.patch.ActiveAt(at) && r.patch.createdAt <= at
  }

  predicate PatchBefore(a: PatchRow, b: PatchRow) {
    a.patch.createdAt < b.patch.createdAt
    || (a.patch.createdAt == b.patch.createdAt && a.patch.id.code <= b.patch.id.code)
  }

  function PatchesOf(rows: seq<PatchRow>): (r: seq<Patch>)
    ensures |r| == |rows| && forall i :: 0 <= i < |rows| ==> r[i] == rows[i].patch
  {
    seq(|rows|, i requires 0 <= i < |rows| => rows[i].patch)
  }

  /** Created, effective and unexpired at the instant, in creation order. */
  function ActivePatches(db: Db, scope: Scope, arm: Arm, at: int): seq<Patch> {
    PatchesOf(Sort(PatchBefore, Filter(InForce(scope, arm, at), db.patches)))
  }

  function Composed(db: Db, scope: Scope, arm: Arm, at: int, version: int): Result<PolicyState, CompileFault> {
    Compose(arm, ActivePatches(db, scope, arm, at), version, at)
  }

  // ---- steps: each is one transaction, and an error leaves the tables as they were

  datatype Step<+T> = Step(db: Db, value: T)

  function SelectProvider(db: Db, provider: Provider, expected: Option<int>, now: int)
    : Result<Step<(Selection, bool)>, ControlFault>
  {
    var current := LatestSelection(db);
    var version := match current case None => 0 case Some(s) => s.version;
    if expected.Some? && expected.value != version then Err(SelectionConflict)
    else if current.Some? && current.value.provider == provider then Ok(Step(db, (current.value, false)))
    else
      var row := Selection(version + 1, provider, now);
      Ok(Step(db.(selections := db.selections + [row]), (row, true)))
  }

  /** The policy in force at an instant; a stored version is appended when the stored effects are out of date. */
  function ResolvePolicy(db: Db, scope: Scope, arm: Arm, at: int): Result<Step<PolicyState>, ControlFault> {
    var latest := LatestState(db, scope, arm);
    var stored := StoredState(db, scope, arm, at);
    match Composed(db, scope, arm, at, stored.version)
    case Err(fault) => Err(Composition(fault))
    case Ok(composed) =>
      if SameEffects(stored, composed) then Ok(Step(db, stored))
      else if latest.version > stored.version then Ok(Step(db, composed))
      else
        var recomposed := composed.(version := stored.version + 1);
        Ok(Step(db.(versions := db.versions + [VersionRow(scope, recomposed, at)]), recomposed))
  }

  function CreateRequest(db: Db, arm: Arm, scope: Scope, context: Context, asOf: int, cutoff: int, now: int)
    : Result<Step<Request>, ControlFault>
  {
    if cutoff > asOf then Err(CutoffAfterAsOf)
    else if arm.OtherArm? then Err(UnsupportedArm)
    else if !scope.Valid() then Err(InvalidScope)
    else if context.bytes > MAX_CONTEXT_BYTES then Err(ContextTooLarge)
    else match LatestSelection(db)
      case None => Err(NoProviderSelected)
      case Some(selection) =>
        match ResolvePolicy(db, scope, arm, asOf)
        case Err(fault) => Err(fault)
        case Ok(Step(after, policy)) =>
          var id := RequestId(selection.version, scope, policy, asOf, cutoff, context, now);
          var request := Request(id, selection.provider, now + REQUEST_TTL);
          if id in after.requests then
            if after.requests[id] != request then Err(DecisionConflict) else Ok(Step(after, after.requests[id]))
          else Ok(Step(after.(requests := after.requests[id := request]), request))
  }

  function ManifestOf(id: RequestId): RequestId { id.(createdAt := 0) }

  function BindingError(db: Db, request: Request, decision: Decision, provider: Provider, receivedAt: int): Option<Reason> {
    if receivedAt >= request.expiresAt then Some(RequestExpired)
    else if decision.request != request.id then Some(RequestIdMismatch)
    else if decision.manifest != ManifestOf(request.id) then Some(ContextHashMismatch)
    else if decision.arm != request.id.policy.arm then Some(ArmScopeMismatch)
    else if decision.baseVersion != request.id.policy.version then Some(BaseVersionMismatch)
    else if exists e :: e in decision.evidence && e !in request.id.context.evidence then Some(EvidenceNotInContext)
    else if provider != request.provider then Some(ProviderMismatch)
    else match LatestSelection(db)
      case None => Some(NoActiveProvider)
      case Some(current) =>
        if current.version != request.id.selectionVersion || current.provider != provider then Some(StaleSelection)
        else None
  }

  predicate IsExpiryRollback(c: Condition, expiresAt: int) {
    c.timeReached && c.onCurrentTime && c.at == Some(expiresAt)
  }

  /** The decision row and its terminal result, written together. */
  function StoreResult(db: Db, request: RequestId, row: DecisionRow, status: Status, reason: Reason, applied: Option<int>)
    : Step<Receipt>
  {
    var receipt := Receipt(request, row.provider, status, reason, applied, row.receivedAt, false);
    Step(db.(decisions := db.decisions[request := row], results := db.results[request := receipt]), receipt)
  }

  function PatchFor(request: RequestId, body: Body, decision: Decision, code: int, receivedAt: int): Patch
    requires body.ApplyPatch?
  {
    Patch(PatchId(request, code), decision.arm, decision.baseVersion, body.effectiveFrom, body.expiresAt,
          body.operations, receivedAt)
  }

  /** The part of a submission that reaches the policy tables. */
  function ApplyDecision(db: Db, request: RequestId, row: DecisionRow, code: int): Result<Step<Receipt>, ControlFault>
    requires row.payload.body.ApplyPatch?
  {
    match ResolvePolicy(db, request.scope, request.policy.arm, row.receivedAt)
    case Err(fault) => Err(fault)
    case Ok(Step(after, current)) =>
      if current.version != request.policy.version then
        Ok(StoreResult(after, request, row, Rejected, PolicyVersionConflict, None))
      else
        var patch := PatchFor(request, row.payload.body, row.payload, code, row.receivedAt);
        match Compile(patch, current, row.receivedAt)
        case Err(fault) => Ok(StoreResult(after, request, row, Rejected, CompileRejected(fault), None))
        case Ok(compiled) =>
          if exists r :: r in after.versions && r.scope == request.scope && r.state.arm == compiled.arm
                         && r.state.version == compiled.version
          then Err(UniqueViolation)
          else
            var extended := after.(
              patches := after.patches + [PatchRow(request.scope, patch)],
              versions := after.versions + [VersionRow(request.scope, compiled, row.receivedAt)]);
            Ok(StoreResult(extended, request, row, Accepted, PolicyApplied, Some(compiled.version)))
  }

  function SubmitDecision(db: Db, id: RequestId, provider: Provider, decision: Decision, now: int, code: int)
    : Result<Step<Receipt>, ControlFault>
  {
    if !decision.Valid() then Err(InvalidDecision)
    else if id !in db.requests then Err(RequestNotFound)
    else if id in db.decisions then
      if db.decisions[id].payload != decision then Err(DecisionConflict)
      else if id !in db.results then Err(MissingResult)
      else Ok(Step(db, db.results[id].(replay := true)))
    else
      var row := DecisionRow(provider, now, decision);
      match BindingError(db, db.requests[id], decision, provider, now)
      case Some(reason) => Ok(StoreResult(db, id, row, Rejected, reason, None))
      case None =>
        match decision.body
        case NoChange => Ok(StoreResult(db, id, row, Unchanged, ModelNoChange, None))
        case ApplyPatch(effectiveFrom, expiresAt, _, rollback) =>
          if expiresAt - effectiveFrom > MAX_POLICY_TTL then
            Ok(StoreResult(db, id, row, Rejected, PolicyTtlExceeded, None))
          else if rollback == [] || exists c :: c in rollback && !IsExpiryRollback(c, expiresAt) then
            Ok(StoreResult(db, id, row, Rejected, UnsupportedRollback, None))
          else ApplyDecision(db, id, row, code)
  }
}
