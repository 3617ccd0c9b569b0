/** Exactly which decisions the control plane accepts. */
module ControlAcceptance {
  import opened ControlPlane
  import opened ControlRuns
  import opened Identifiers
  import opened PolicyCompiler
  import opened PolicyHistory
  import opened PolicyLiveness
  import opened Results

  /** The decision answers this request: its id, context, arm and base version, on evidence it was shown. */
  predicate Answers(decision: Decision, id: RequestId) {
    && decision.request == id
    && decision.manifest == id.(createdAt := 0)
    && decision.arm == id.policy.arm
    && decision.baseVersion == id.policy.version
    && forall e :: e in decision.evidence ==> e in id.context.evidence
  }

  /** The request was prepared under the selection in force, and its provider answers. */
  ghost predicate UnderCurrentSelection(db: Db, id: RequestId, provider: Provider) {
    && db.selections != []
    && id.selectionVersion == |db.selections|
    && provider == db.selections[|db.selections| - 1].provider
  }

  lemma BindsExactlyWhen(db: Db, id: RequestId, decision: Decision, provider: Provider, now: int)
    requires Consistent(db) && id in db.requests
    ensures BindingError(db, db.requests[id], decision, provider, now).None? <==>
      now < id.createdAt + 21600 && Answers(decision, id) && UnderCurrentSelection(db, id, provider)
  {
    hide OrderlyVersions, Grounded, DecidedOnce, LatestSelection;
    LatestSelectionIsLast(db);
    assert db.requests[id].id == id;
  }

  /** Selecting fails exactly on a stale expected version, and moves on exactly when the provider differs. */
  lemma SelectsExactlyWhen(db: Db, provider: Provider, expected: Option<int>, now: int)
    requires Consistent(db)
    ensures SelectProvider(db, provider, expected, now).Ok? <==> expected.None? || expected.value == |db.selections|
    ensures SelectProvider(db, provider, expected, now).Ok? ==>
      var Step(after, (selection, changed)) := SelectProvider(db, provider, expected, now).value;
      && after.selections != [] && selection == after.selections[|after.selections| - 1]
      && selection.provider == provider
      && |after.selections| == |db.selections| + (if changed then 1 else 0)
      && (changed <==> db.selections == [] || db.selections[|db.selections| - 1].provider != provider)
      && after == db.(selections := after.selections)
      && after.selections == db.selections + (if changed then [Selection(|db.selections| + 1, provider, now)] else [])
  {
    hide OrderlyVersions, Grounded, DecidedOnce, BoundRequests, LatestSelection;
    LatestSelectionIsLast(db);
  }

  /** Preparing succeeds exactly for a supported arm, a valid scope id and a bounded context whose data precede the instant,
      under some selection and a policy that resolves; a prepared request never clashes with a stored one. */
  lemma PreparesExactlyWhen(db: Db, arm: Arm, scope: Scope, context: Context, asOf: int, cutoff: int, now: int)
    requires Consistent(db)
    ensures CreateRequest(db, arm, scope, context, asOf, cutoff, now).Ok? <==>
      && cutoff <= asOf && !arm.OtherArm? && !scope.blank && scope.length <= 80 && context.bytes <= 524288
      && db.selections != []
      && ResolvePolicy(db, scope, arm, asOf).Ok?
    ensures CreateRequest(db, arm, scope, context, asOf, cutoff, now).Ok? ==>
      var Step(after, request) := CreateRequest(db, arm, scope, context, asOf, cutoff, now).value;
      && request.id in after.requests && after.requests[request.id] == request
      && UnderCurrentSelection(after, request.id, request.provider)
      && request.id.policy == ResolvePolicy(db, scope, arm, asOf).value.value
      && request.id == RequestId(|db.selections|, scope, request.id.policy, asOf, cutoff, context, now)
      && request.expiresAt == now + 21600
      && after == ResolvePolicy(db, scope, arm, asOf).value.db.(requests := db.requests[request.id := request])
  {
    hide OrderlyVersions, Grounded, DecidedOnce, LatestSelection, ResolvePolicy;
    LatestSelectionIsLast(db);
    if ResolvePolicy(db, scope, arm, asOf).Ok? {
      ResolveChangesOnlyVersions(db, scope, arm, asOf);
    }
  }

  /** A patch of bounded life whose only rollback is its expiry. */
  predicate Bounded(body: Body) {
    && body.ApplyPatch?
    && body.expiresAt - body.effectiveFrom <= 21600
    && body.rollback != []
    && forall c :: c in body.rollback ==> c.timeReached && c.onCurrentTime && c.at == Some(body.expiresAt)
  }

  /** The schema: a known arm, at most 100 pieces of evidence, and for a patch some evidence, a life, and one to 20
      operations with at most 20 rollback conditions. */
  predicate WellFormed(decision: Decision) {
    && decision.baseVersion >= 0 && decision.arm in {B3Risk, B3Full} && |decision.evidence| <= 100
    && match decision.body
       case NoChange => true
       case ApplyPatch(effectiveFrom, expiresAt, operations, rollback) =>
         effectiveFrom < expiresAt && 1 <= |decision.evidence| && 1 <= |operations| <= 20 && |rollback| <= 20
  }

  ghost predicate AcceptedBy(outcome: Result<Step<Receipt>, ControlFault>) {
    outcome.Ok? && outcome.value.value.status.Accepted?
  }

  lemma SubmitPath(db: Db, id: RequestId, provider: Provider, decision: Decision, now: int, code: int)
    requires id !in db.decisions
    ensures AcceptedBy(SubmitDecision(db, id, provider, decision, now, code)) <==>
      && WellFormed(decision) && id in db.requests
      && BindingError(db, db.requests[id], decision, provider, now).None?
      && Bounded(decision.body)
      && AcceptedBy(ApplyDecision(db, id, DecisionRow(provider, now, decision), code))
  {
    hide BindingError, ApplyDecision;
  }

  /** All operations are allowed for the arm and none takes a bucket still held. */
  ghost predicate Coherent(arm: Arm, ops: seq<Operation>) {
    (forall i :: 0 <= i < |ops| ==> Allowed(arm, ops[i])) && ConflictFree(ops)
  }

  /** On a base with the effects of the live patches, a patch compiles when its operations cohere with theirs. */
  lemma CompilesExactlyWhen(arm: Arm, live: seq<Patch>, current: PolicyState, patch: Patch, now: int)
    requires forall p :: p in live ==> p.arm == arm && p.ActiveAt(now)
    requires Compose(arm, live, current.version, now).Ok?
    requires SameEffects(current, Compose(arm, live, current.version, now).value)
    ensures Compile(patch, current, now).Ok? <==>
      && patch.arm == arm && !arm.OtherArm? && patch.baseVersion == current.version && patch.ActiveAt(now)
      && Coherent(arm, Flatten(live) + patch.operations)
  {
    hide Compose, ApplyAll, Allowed, ConflictFree;
    var ops := Flatten(live) + patch.operations;
    ComposedArmIs(arm, live, current.version, now);
    ComposeIsApply(arm, live, current.version, now);
    ApplyConcat(arm, NEUTRAL, Flatten(live), patch.operations);
    AppliesExactlyWhen(arm, ops, |ops|);
    assert ops[..|ops|] == ops;
  }

  lemma ComposedArmIs(arm: Arm, patches: seq<Patch>, version: int, now: int)
    requires Compose(arm, patches, version, now).Ok?
    ensures Compose(arm, patches, version, now).value.arm == arm
  {
    hide ApplyAll;
  }

  /** The policy resolves to the newest version, and that is the one the request was based on. */
  ghost predicate OnNewestVersion(db: Db, id: RequestId, now: int) {
    && ResolvePolicy(db, id.scope, id.policy.arm, now).Ok?
    && var Step(middle, current) := ResolvePolicy(db, id.scope, id.policy.arm, now).value;
       current.version == id.policy.version == |History(middle, id.scope, id.policy.arm)|
  }

  lemma VersionFreeExactlyWhen(db: Db, scope: Scope, arm: Arm, version: int)
    requires OrderlyVersions(db) && 1 <= version <= |History(db, scope, arm)| + 1
    ensures (exists r :: r in db.versions && r.scope == scope && r.state.arm == arm && r.state.version == version)
      <==> version <= |History(db, scope, arm)|
  {
    if version <= |History(db, scope, arm)| {
      var r := StoredVersion(db, scope, arm, version);
    } else if r :| r in db.versions && r.scope == scope && r.state.arm == arm && r.state.version == version {
      StoredIsNumbered(db, scope, arm, r);
    }
  }

  lemma StoredIsNumbered(db: Db, scope: Scope, arm: Arm, r: VersionRow)
    requires OrderlyVersions(db) && r in db.versions && r.scope == scope && r.state.arm == arm
    ensures 1 <= r.state.version <= |History(db, scope, arm)|
  {
    var h := History(db, scope, arm);
    assert r in h;
    assert Orderly(h);
    var i :| 0 <= i < |h| && h[i] == r;
  }

  lemma AppliesPatchExactlyWhen(db: Db, id: RequestId, row: DecisionRow, code: int)
    requires Consistent(db) && row.payload.body.ApplyPatch? && Answers(row.payload, id) && !id.policy.arm.OtherArm?
    ensures AcceptedBy(ApplyDecision(db, id, row, code)) <==>
      && OnNewestVersion(db, id, row.receivedAt)
      && row.payload.body.effectiveFrom <= row.receivedAt < row.payload.body.expiresAt
      && Coherent(id.policy.arm,
           Flatten(ActivePatches(db, id.scope, id.policy.arm, row.receivedAt)) + row.payload.body.operations)
  {
    hide ResolvePolicy, Compile, Compose, Composed, OrderlyVersions, History, ActivePatches, Coherent, Grounded,
      BoundRequests, DecidedOnce, OrderlySelections;
    var scope, arm, now := id.scope, id.policy.arm, row.receivedAt;
    if ResolvePolicy(db, scope, arm, now).Ok? {
      var Step(middle, current) := ResolvePolicy(db, scope, arm, now).value;
      var live := ActivePatches(db, scope, arm, now);
      var patch := PatchFor(id, row.payload.body, row.payload, code, now);
      ResolvedEffects(db, scope, arm, now);
      ComposedIs(db, scope, arm, now, current.version);
      ActiveAreInForce(db, scope, arm, now);
      CompilesExactlyWhen(arm, live, current, patch, now);
      ResolveKeepsOrder(db, scope, arm, now);
      if Compile(patch, current, now).Ok? {
        CompileAdvances(patch, current, now);
        VersionFreeExactlyWhen(middle, scope, arm, current.version + 1);
      }
    }
  }

  /** What makes a decision on an unconsumed request acceptable. */
  ghost predicate Acceptable(db: Db, id: RequestId, provider: Provider, decision: Decision, now: int) {
    && WellFormed(decision) && id in db.requests && now < id.createdAt + 21600
    && Answers(decision, id) && UnderCurrentSelection(db, id, provider)
    && Bounded(decision.body)
    && decision.body.effectiveFrom <= now < decision.body.expiresAt
    && OnNewestVersion(db, id, now)
    && Coherent(id.policy.arm, Flatten(ActivePatches(db, id.scope, id.policy.arm, now)) + decision.body.operations)
  }

  /**
   * In any consistent state, a decision on an unconsumed request is accepted if and only if it is well
   * formed and answers the request in time, under the current selection and from its provider; its patch
   * is active, bounded and rolls back on expiry only; the request was based on the newest version; and
   * its operations cohere with those of the patches in force.
   */
  lemma AcceptedExactlyWhen(db: Db, id: RequestId, provider: Provider, decision: Decision, now: int, code: int)
    requires Consistent(db) && id !in db.decisions
    ensures AcceptedBy(SubmitDecision(db, id, provider, decision, now, code)) <==> Acceptable(db, id, provider, decision, now)
  {
    hide SubmitDecision, ApplyDecision, BindingError, Consistent, OnNewestVersion, Coherent, ActivePatches,
      UnderCurrentSelection, Flatten;
    SubmitPath(db, id, provider, decision, now, code);
    if id in db.requests {
      BindsExactlyWhen(db, id, decision, provider, now);
    }
    if WellFormed(decision) && Answers(decision, id) && decision.body.ApplyPatch? {
      AppliesPatchExactlyWhen(db, id, DecisionRow(provider, now, decision), code);
    }
  }

  // ---- what a submission answers and writes

  /** The first objection to a well-formed decision that is raised before the policy is looked at. */
  ghost function Objection(db: Db, id: RequestId, provider: Provider, decision: Decision, now: int): Option<Reason> {
    if now >= id.createdAt + 21600 then Some(RequestExpired)
    else if decision.request != id then Some(RequestIdMismatch)
    else if decision.manifest != id.(createdAt := 0) then Some(ContextHashMismatch)
    else if decision.arm != id.policy.arm then Some(ArmScopeMismatch)
    else if decision.baseVersion != id.policy.version then Some(BaseVersionMismatch)
    else if !forall e :: e in decision.evidence ==> e in id.context.evidence then Some(EvidenceNotInContext)
    else if !(1 <= id.selectionVersion <= |db.selections|) || provider != db.selections[id.selectionVersion - 1].provider
    then Some(ProviderMismatch)
    else if id.selectionVersion != |db.selections| then Some(StaleSelection)
    else if decision.body.NoChange? then Some(ModelNoChange)
    else if decision.body.expiresAt - decision.body.effectiveFrom > 21600 then Some(PolicyTtlExceeded)
    else if !Bounded(decision.body) then Some(UnsupportedRollback)
    else None
  }

  /** An objection is the answer, and consumes the request without touching the policy tables. */
  lemma ObjectionIsAnswered(db: Db, id: RequestId, provider: Provider, decision: Decision, now: int, code: int)
    requires Consistent(db) && id in db.requests && id !in db.decisions && WellFormed(decision)
    ensures match Objection(db, id, provider, decision, now)
      case None =>
        SubmitDecision(db, id, provider, decision, now, code) == ApplyDecision(db, id, DecisionRow(provider, now, decision), code)
      case Some(reason) =>
        var receipt := Receipt(id, provider, if reason == ModelNoChange then Unchanged else Rejected, reason, None, now, false);
        SubmitDecision(db, id, provider, decision, now, code) == Ok(Step(
          db.(decisions := db.decisions[id := DecisionRow(provider, now, decision)], results := db.results[id := receipt]),
          receipt))
  {
    hide ApplyDecision, OrderlyVersions, Grounded, DecidedOnce, LatestSelection;
    LatestSelectionIsLast(db);
    assert db.requests[id].id == id;
  }

  /** The faults of a submission that leave the tables as they were. */
  lemma SubmissionFails(db: Db, id: RequestId, provider: Provider, decision: Decision, now: int, code: int)
    requires Consistent(db)
    ensures !WellFormed(decision) <==> SubmitDecision(db, id, provider, decision, now, code) == Err(InvalidDecision)
    ensures WellFormed(decision) && id !in db.requests <==>
      SubmitDecision(db, id, provider, decision, now, code) == Err(RequestNotFound)
    ensures WellFormed(decision) && id in db.decisions && db.decisions[id].payload != decision <==>
      SubmitDecision(db, id, provider, decision, now, code) == Err(DecisionConflict)
  {
    hide BindingError, ResolvePolicy, Compile, StoreResult, OrderlyVersions, Grounded, BoundRequests;
    if id in db.requests && id !in db.decisions && decision.body.ApplyPatch? {
      ApplyFails(db, id, DecisionRow(provider, now, decision), code);
      hide ApplyDecision;
    }
  }

  lemma ApplyFails(db: Db, id: RequestId, row: DecisionRow, code: int)
    requires row.payload.body.ApplyPatch?
    ensures var r := ApplyDecision(db, id, row, code);
      r.Err? ==> r.error.Composition? || r.error.UniqueViolation?
  {
    hide Compile, StoreResult, Composed, LatestState, StoredState;
  }

  /** What the policy stage answers: a patch on another version or one that does not compile is rejected and leaves no
      patch; only a failed resolution or a version already taken is raised. */
  lemma PolicyAnswers(db: Db, id: RequestId, row: DecisionRow, code: int)
    requires row.payload.body.ApplyPatch?
    ensures var resolved, r := ResolvePolicy(db, id.scope, id.policy.arm, row.receivedAt), ApplyDecision(db, id, row, code);
      && (resolved.Err? ==> r == Err(resolved.error))
      && (r.Ok? && !AcceptedBy(r) ==>
            && r.value.value == Receipt(id, row.provider, Rejected, r.value.value.reason, None, row.receivedAt, false)
            && (if resolved.value.value.version != id.policy.version then r.value.value.reason == PolicyVersionConflict
                else r.value.value.reason.CompileRejected?)
            && r.value.db == resolved.value.db.(
                 decisions := resolved.value.db.decisions[id := row], results := resolved.value.db.results[id := r.value.value]))
      && (resolved.Ok? && r.Err? ==> r == Err(UniqueViolation) && resolved.value.value.version == id.policy.version)
  {
    hide ResolvePolicy, Compile;
  }

  /** An accepted decision writes its patch, the next version with the effects of all operations then in force, and its
      receipt; nothing else changes but what resolving wrote. */
  lemma AcceptanceWrites(db: Db, id: RequestId, provider: Provider, decision: Decision, now: int, code: int)
    requires Consistent(db) && id !in db.decisions
    requires AcceptedBy(SubmitDecision(db, id, provider, decision, now, code))
    ensures Acceptable(db, id, provider, decision, now)
    ensures
      var Step(after, receipt) := SubmitDecision(db, id, provider, decision, now, code).value;
      var middle := ResolvePolicy(db, id.scope, id.policy.arm, now).value.db;
      var body, source := decision.body, PatchId(id, code);
      var ops := Flatten(ActivePatches(db, id.scope, id.policy.arm, now)) + body.operations;
      && receipt == Receipt(id, provider, Accepted, PolicyApplied, Some(id.policy.version + 1), now, false)
      && after.selections == db.selections && after.requests == db.requests
      && after.decisions == db.decisions[id := DecisionRow(provider, now, decision)]
      && after.results == db.results[id := receipt]
      && after.patches == db.patches + [PatchRow(id.scope,
           Patch(source, id.policy.arm, id.policy.version, body.effectiveFrom, body.expiresAt, body.operations, now))]
      && exists effects :: Describes(ops, |ops|, effects) && after.versions == middle.versions
           + [VersionRow(id.scope, PolicyState(id.policy.arm, id.policy.version + 1, effects, Some(source)), now)]
  {
    hide SubmitDecision, ApplyDecision, BindingError, Consistent, OnNewestVersion, Coherent, ActivePatches,
      UnderCurrentSelection, Flatten, Compile, Compose, Composed, Describes, ResolvePolicy;
    var scope, arm, row := id.scope, id.policy.arm, DecisionRow(provider, now, decision);
    AcceptedExactlyWhen(db, id, provider, decision, now, code);
    AcceptedPath(db, id, provider, decision, now, code);
    AppliedPath(db, id, row, code);
    AppliedRecord(db, id, row, code);
    ResolveChangesOnlyVersions(db, scope, arm, now);
    CompiledEffects(db, id, decision, code, now);
  }

  lemma AppliedRecord(db: Db, id: RequestId, row: DecisionRow, code: int)
    requires row.payload.body.ApplyPatch? && AcceptedBy(ApplyDecision(db, id, row, code))
    requires ResolvePolicy(db, id.scope, id.policy.arm, row.receivedAt).Ok?
    ensures
      var Step(after, receipt) := ApplyDecision(db, id, row, code).value;
      var middle := ResolvePolicy(db, id.scope, id.policy.arm, row.receivedAt).value.db;
      && receipt == Receipt(id, row.provider, Accepted, PolicyApplied, Some(id.policy.version + 1), row.receivedAt, false)
      && after.selections == middle.selections && after.requests == middle.requests
      && after.decisions == middle.decisions[id := row] && after.results == middle.results[id := receipt]
  {
    hide ResolvePolicy, ApplyAll;
  }

  lemma CompiledEffects(db: Db, id: RequestId, decision: Decision, code: int, now: int)
    requires decision.body.ApplyPatch? && ResolvePolicy(db, id.scope, id.policy.arm, now).Ok?
    requires ResolvePolicy(db, id.scope, id.policy.arm, now).value.value.version == id.policy.version
    requires Compile(PatchFor(id, decision.body, decision, code, now), ResolvePolicy(db, id.scope, id.policy.arm, now).value.value, now).Ok?
    ensures
      var state := Compile(PatchFor(id, decision.body, decision, code, now), ResolvePolicy(db, id.scope, id.policy.arm, now).value.value, now).value;
      var ops := Flatten(ActivePatches(db, id.scope, id.policy.arm, now)) + decision.body.operations;
      && state == PolicyState(id.policy.arm, id.policy.version + 1, state.effects, Some(PatchId(id, code)))
      && Describes(ops, |ops|, state.effects)
  {
    hide ResolvePolicy, ActivePatches, Compose, Composed, Describes, ApplyAll;
    var arm, live := id.policy.arm, ActivePatches(db, id.scope, id.policy.arm, now);
    var current, patch := ResolvePolicy(db, id.scope, arm, now).value.value, PatchFor(id, decision.body, decision, code, now);
    ResolvedEffects(db, id.scope, arm, now);
    ComposedIs(db, id.scope, arm, now, current.version);
    ActiveAreInForce(db, id.scope, arm, now);
    CompileIsCompose(arm, live, current, patch, now);
    ComposedEffects(arm, live + [patch], current.version + 1, now);
    FlattenLast(live, patch);
  }

  lemma FlattenLast(patches: seq<Patch>, patch: Patch)
    ensures Flatten(patches + [patch]) == Flatten(patches) + patch.operations
  {
    assert (patches + [patch])[..|patches|] == patches;
  }
}
