/** The control-plane service over its tables: every method is one transaction that keeps the tables consistent. */
module ControlService {
  import opened ControlAcceptance
  import opened ControlPlane
  import opened ControlRuns
  import opened Identifiers
  import opened PolicyCompiler
  import opened PolicyHistory
  import opened Results

  class ControlPlaneService {
    var selections: seq<Selection>
    var requests: map<RequestId, Request>
    var decisions: map<RequestId, DecisionRow>
    var results: map<RequestId, Receipt>
    var patches: seq<PatchRow>
    var versions: seq<VersionRow>

    function Snapshot(): Db
      reads this
    {
      Db(selections, requests, decisions, results, patches, versions)
    }

    /** Contiguous selections and versions, bound requests, single-use decisions, grounded acceptances. */
    ghost predicate Valid()
      reads this
    {
      Consistent(Snapshot())
    }

    constructor ()
      ensures Valid() && Snapshot() == EMPTY
    {
      EmptyIsConsistent();
      selections, requests, decisions, results, patches, versions := [], map[], map[], map[], [], [];
    }

    /** The outcome of a transaction: the step's value and tables, or its fault and the tables as they were. */
    static ghost predicate Commits<T>(before: Db, after: Db, outcome: Result<Step<T>, ControlFault>, r: Result<T, ControlFault>) {
      match outcome
      case Ok(step) => r == Ok(step.value) && after == step.db
      case Err(fault) => r == Err(fault) && after == before
    }

    /** Optimistic selection: only a stale expected version fails, and the version moves on only when the provider changes. */
    method Select(provider: Provider, expected: Option<int>, now: int) returns (r: Result<(Selection, bool), ControlFault>)
      requires Valid()
      modifies this`selections
      ensures Valid() && Grows(old(Snapshot()), Snapshot())
      ensures Commits(old(Snapshot()), Snapshot(), SelectProvider(old(Snapshot()), provider, expected, now), r)
      ensures r.Ok? <==> expected.None? || expected.value == |old(selections)|
      ensures r.Ok? ==>
        && selections != [] && r.value.0 == selections[|selections| - 1]
        && r.value.0.provider == provider && r.value.0.version == |selections|
        && selections == old(selections) + (if r.value.1 then [Selection(|old(selections)| + 1, provider, now)] else [])
        && (r.value.1 <==> old(selections) == [] || old(selections)[|old(selections)| - 1].provider != provider)
    {
      hide LatestSelection, Consistent, Grows;
      ghost var before := Snapshot();
      SelectsExactlyWhen(before, provider, expected, now);
      GrowsItself(before);
      if SelectProvider(before, provider, expected, now).Ok? {
        SelectKeeps(before, provider, expected, now);
        LastIsNumbered(SelectProvider(before, provider, expected, now).value.db);
      }
      var current := LatestSelection(Snapshot());
      var version := 0;
      if current.Some? {
        version := current.value.version;
      }
      if expected.Some? && expected.value != version {
        return Err(SelectionConflict);
      }
      if current.Some? && current.value.provider == provider {
        return Ok((current.value, false));
      }
      var row := Selection(version + 1, provider, now);
      selections := selections + [row];
      r := Ok((row, true));
    }

    /** The policy in force: it has the effects of the patches in force, and asking again writes nothing more. */
    method Resolve(scope: Scope, arm: Arm, at: int) returns (r: Result<PolicyState, ControlFault>)
      requires Valid()
      modifies this`versions
      ensures Valid() && Grows(old(Snapshot()), Snapshot())
      ensures Commits(old(Snapshot()), Snapshot(), ResolvePolicy(old(Snapshot()), scope, arm, at), r)
      ensures r.Ok? <==> Coherent(arm, Flatten(ActivePatches(old(Snapshot()), scope, arm, at)))
      ensures r.Ok? ==>
        var active := ActivePatches(Snapshot(), scope, arm, at);
        && Describes(Flatten(active), |Flatten(active)|, r.value.effects)
        && r.value.arm == arm && r.value.source == (if active == [] then None else Some(active[|active| - 1].id))
        && ResolvePolicy(Snapshot(), scope, arm, at) == Ok(Step(Snapshot(), r.value))
    {
      hide Composed, LatestState, StoredState, Consistent, Grows, ActivePatches, Coherent, Describes, Flatten;
      ghost var before := Snapshot();
      ResolutionFacts(before, scope, arm, at);
      GrowsItself(before);
      var latest := LatestState(Snapshot(), scope, arm);
      var stored := StoredState(Snapshot(), scope, arm, at);
      var composed := Composed(Snapshot(), scope, arm, at, stored.version);
      match composed
      case Err(fault) => r := Err(Composition(fault));
      case Ok(state) =>
        if SameEffects(stored, state) {
          return Ok(stored);
        }
        if latest.version > stored.version {
          return Ok(state);
        }
        var recomposed := state.(version := stored.version + 1);
        versions := versions + [VersionRow(scope, recomposed, at)];
        r := Ok(recomposed);
    }

    /** A request bound to the current selection and to the policy resolved for its instant. */
    method Prepare(arm: Arm, scope: Scope, context: Context, asOf: int, cutoff: int, now: int)
      returns (r: Result<Request, ControlFault>)
      requires Valid()
      modifies this`versions, this`requests
      ensures Valid() && Grows(old(Snapshot()), Snapshot())
      ensures Commits(old(Snapshot()), Snapshot(), CreateRequest(old(Snapshot()), arm, scope, context, asOf, cutoff, now), r)
      ensures r.Ok? <==>
        && cutoff <= asOf && !arm.OtherArm? && !scope.blank && scope.length <= 80 && context.bytes <= 524288
        && old(selections) != []
        && Coherent(arm, Flatten(ActivePatches(old(Snapshot()), scope, arm, asOf)))
      ensures r.Ok? ==>
        && r.value.id in requests && requests[r.value.id] == r.value
        && UnderCurrentSelection(Snapshot(), r.value.id, r.value.provider)
        && r.value.id == RequestId(|selections|, scope, r.value.id.policy, asOf, cutoff, context, now)
        && r.value.expiresAt == now + 21600
    {
      hide LatestSelection, ResolvePolicy, Consistent, Grows, ActivePatches, Coherent, UnderCurrentSelection;
      ghost var before := Snapshot();
      PreparesExactlyWhen(before, arm, scope, context, asOf, cutoff, now);
      ResolutionFacts(before, scope, arm, asOf);
      GrowsItself(before);
      if CreateRequest(before, arm, scope, context, asOf, cutoff, now).Ok? {
        PrepareKeeps(before, arm, scope, context, asOf, cutoff, now);
      }
      if cutoff > asOf {
        return Err(CutoffAfterAsOf);
      }
      if arm.OtherArm? {
        return Err(UnsupportedArm);
      }
      if !scope.Valid() {
        return Err(InvalidScope);
      }
      if context.bytes > MAX_CONTEXT_BYTES {
        return Err(ContextTooLarge);
      }
      var selection := LatestSelection(Snapshot());
      if selection.None? {
        return Err(NoProviderSelected);
      }
      var saved := versions;
      var policy := Resolve(scope, arm, asOf);
      if policy.Err? {
        return Err(policy.error);
      }
      var id := RequestId(selection.value.version, scope, policy.value, asOf, cutoff, context, now);
      var request := Request(id, selection.value.provider, now + REQUEST_TTL);
      if id in requests {
        if requests[id] != request {
          versions := saved;
          return Err(DecisionConflict);
        }
        return Ok(requests[id]);
      }
      requests := requests[id := request];
      r := Ok(request);
    }

    /** A terminal result consumes its request, once. */
    method Store(id: RequestId, row: DecisionRow, status: Status, reason: Reason, applied: Option<int>) returns (receipt: Receipt)
      requires Valid() && id in requests && id !in decisions && row.payload.Valid()
      requires status.Accepted? ==>
        applied == Some(id.policy.version + 1) && exists v :: v in versions && ProducedBy(v, id)
      modifies this`decisions, this`results
      ensures Valid() && Grows(old(Snapshot()), Snapshot())
      ensures Step(Snapshot(), receipt) == StoreResult(old(Snapshot()), id, row, status, reason, applied)
      ensures id in decisions && decisions[id] == row
      ensures id in results && results[id] == receipt && receipt.status == status && !receipt.replay
      ensures decisions.Keys == old(decisions.Keys) + {id}
    {
      hide Consistent, Grows, ProducedBy, Decision.Valid;
      StoreKeeps(Snapshot(), id, row, status, reason, applied);
      receipt := Receipt(id, row.provider, status, reason, applied, row.receivedAt, false);
      decisions := decisions[id := row];
      results := results[id := receipt];
    }

    /** The policy half of a submission; a unique violation rolls back what the resolution appended. */
    method Apply(id: RequestId, row: DecisionRow, code: int) returns (r: Result<Receipt, ControlFault>)
      requires Valid() && id in requests && id !in decisions && row.payload.Valid() && row.payload.body.ApplyPatch?
      modifies this`versions, this`patches, this`decisions, this`results
      ensures Valid() && Grows(old(Snapshot()), Snapshot())
      ensures Commits(old(Snapshot()), Snapshot(), ApplyDecision(old(Snapshot()), id, row, code), r)
      ensures r.Ok? ==> id in decisions && decisions[id] == row && id in results && results[id] == r.value
    {
      hide ResolvePolicy, Compile, StoreResult, Consistent, Grows, ProducedBy, ActivePatches, Compose, Coherent, History;
      ghost var before := Snapshot();
      GrowsItself(before);
      if ApplyDecision(before, id, row, code).Ok? {
        AcceptKeeps(before, id, row, code);
      }
      ResolutionOrder(before, id.scope, id.policy.arm, row.receivedAt);
      var saved := versions;
      var resolved := Resolve(id.scope, id.policy.arm, row.receivedAt);
      if resolved.Err? {
        return Err(resolved.error);
      }
      var current := resolved.value;
      if current.version != id.policy.version {
        var refused := Store(id, row, Rejected, PolicyVersionConflict, None);
        return Ok(refused);
      }
      var patch := PatchFor(id, row.payload.body, row.payload, code, row.receivedAt);
      var compiled := Compile(patch, current, row.receivedAt);
      if compiled.Err? {
        var refused := Store(id, row, Rejected, CompileRejected(compiled.error), None);
        return Ok(refused);
      }
      CompileAdvances(patch, current, row.receivedAt);
      if exists v :: v in versions && v.scope == id.scope && v.state.arm == compiled.value.arm
                     && v.state.version == compiled.value.version
      {
        versions := saved;
        return Err(UniqueViolation);
      }
      PatchedIsConsistent(Snapshot(), id, current, patch, row.receivedAt);
      patches := patches + [PatchRow(id.scope, patch)];
      versions := versions + [VersionRow(id.scope, compiled.value, row.receivedAt)];
      var accepted := Store(id, row, Accepted, PolicyApplied, Some(compiled.value.version));
      r := Ok(accepted);
    }

    /** A decision consumes its request once: a second submission changes nothing, and acceptance is exact. */
    method Submit(id: RequestId, provider: Provider, decision: Decision, now: int, code: int)
      returns (r: Result<Receipt, ControlFault>)
      requires Valid()
      modifies this`versions, this`patches, this`decisions, this`results
      ensures Valid() && Grows(old(Snapshot()), Snapshot())
      ensures Commits(old(Snapshot()), Snapshot(), SubmitDecision(old(Snapshot()), id, provider, decision, now, code), r)
      ensures id in old(decisions) ==> Snapshot() == old(Snapshot())
      ensures id in old(decisions) && r.Ok? ==> r.value == old(results)[id].(replay := true)
      ensures id !in old(decisions) && r.Ok? ==>
        id in decisions && decisions[id].payload == decision && id in results && results[id] == r.value
      ensures id !in old(decisions) ==>
        (r.Ok? && r.value.status.Accepted? <==> Acceptable(old(Snapshot()), id, provider, decision, now))
    {
      hide ApplyDecision, BindingError, StoreResult, Consistent, Grows, Acceptable;
      ghost var before := Snapshot();
      GrowsItself(before);
      ConsistentResults(before);
      if SubmitDecision(before, id, provider, decision, now, code).Ok? {
        SubmitKeeps(before, id, provider, decision, now, code);
      }
      if id !in decisions {
        AcceptedExactlyWhen(before, id, provider, decision, now, code);
      }
      if !decision.Valid() {
        return Err(InvalidDecision);
      }
      if id !in requests {
        return Err(RequestNotFound);
      }
      if id in decisions {
        if decisions[id].payload != decision {
          return Err(DecisionConflict);
        }
        if id !in results {
          return Err(MissingResult);
        }
        return Ok(results[id].(replay := true));
      }
      var row := DecisionRow(provider, now, decision);
      var binding := BindingError(Snapshot(), requests[id], decision, provider, now);
      var receipt: Receipt;
      if binding.Some? {
        receipt := Store(id, row, Rejected, binding.value, None);
        return Ok(receipt);
      }
      if decision.body.NoChange? {
        receipt := Store(id, row, Unchanged, ModelNoChange, None);
        return Ok(receipt);
      }
      var body := decision.body;
      if body.expiresAt - body.effectiveFrom > MAX_POLICY_TTL {
        receipt := Store(id, row, Rejected, PolicyTtlExceeded, None);
        return Ok(receipt);
      }
      if body.rollback == [] || exists c :: c in body.rollback && !IsExpiryRollback(c, body.expiresAt) {
        receipt := Store(id, row, Rejected, UnsupportedRollback, None);
        return Ok(receipt);
      }
      r := Apply(id, row, code);
    }
  }

  lemma GrowsItself(db: Db)
    ensures Grows(db, db)
  {
  }

  lemma LastIsNumbered(db: Db)
    requires Consistent(db)
    ensures db.selections != [] ==> db.selections[|db.selections| - 1].version == |db.selections|
  {
  }

  lemma ConsistentResults(db: Db)
    requires Consistent(db)
    ensures db.decisions.Keys == db.results.Keys
  {
  }

  /** What resolving from consistent tables gives and keeps. */
  lemma ResolutionFacts(db: Db, scope: Scope, arm: Arm, at: int)
    requires Consistent(db)
    ensures ResolvePolicy(db, scope, arm, at).Ok? <==> Coherent(arm, Flatten(ActivePatches(db, scope, arm, at)))
    ensures ResolvePolicy(db, scope, arm, at).Ok? ==>
      var Step(after, state) := ResolvePolicy(db, scope, arm, at).value;
      && Consistent(after) && Grows(db, after)
      && Describes(Flatten(ActivePatches(after, scope, arm, at)), |Flatten(ActivePatches(after, scope, arm, at))|, state.effects)
      && state.arm == arm
      && state.source == (if ActivePatches(after, scope, arm, at) == [] then None
                          else Some(ActivePatches(after, scope, arm, at)[|ActivePatches(after, scope, arm, at)| - 1].id))
      && ResolvePolicy(after, scope, arm, at) == Ok(Step(after, state))
  {
    hide ResolvePolicy, Consistent, Grows, ActivePatches, Compose, Allowed, ConflictFree, Flatten, OrderlyVersions, Describes;
    ResolvesExactlyWhen(db, scope, arm, at);
    if ResolvePolicy(db, scope, arm, at).Ok? {
      var after := ResolvePolicy(db, scope, arm, at).value.db;
      ResolveKeeps(db, scope, arm, at);
      ResolvedEffects(db, scope, arm, at);
      ResolveChangesOnlyVersions(db, scope, arm, at);
      SamePatches(db, after, scope, arm, at);
      VersionsAreOrderly(db);
      ResolveTwice(db, scope, arm, at);
    }
  }

  lemma VersionsAreOrderly(db: Db)
    requires Consistent(db)
    ensures OrderlyVersions(db)
  {
  }

  /** The resolved state numbers a version of its history, stored by the instant when it is the newest. */
  lemma ResolutionOrder(db: Db, scope: Scope, arm: Arm, at: int)
    requires Consistent(db)
    ensures ResolvePolicy(db, scope, arm, at).Ok? ==>
      var Step(after, state) := ResolvePolicy(db, scope, arm, at).value;
      && 0 <= state.version <= |History(after, scope, arm)| && state.arm == arm
      && (state.version == |History(after, scope, arm)| > 0 ==>
            History(after, scope, arm)[state.version - 1].createdAt <= at)
  {
    hide ResolvePolicy, OrderlyVersions, History;
    VersionsAreOrderly(db);
    if ResolvePolicy(db, scope, arm, at).Ok? {
      ResolveKeepsOrder(db, scope, arm, at);
    }
  }
}
