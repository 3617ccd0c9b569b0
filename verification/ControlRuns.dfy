/** Safety of the control plane over every run of atomic steps. */
module ControlRuns {
  import opened ControlPlane
  import opened Identifiers
  import opened PolicyCompiler
  import opened PolicyHistory
  import opened Results

  datatype Command =
    | Select(provider: Provider, expected: Option<int>, now: int)
    | Prepare(arm: Arm, scope: Scope, context: Context, asOf: int, cutoff: int, now: int)
    | Consult(scope: Scope, arm: Arm, at: int)
    | Submit(id: RequestId, provider: Provider, decision: Decision, now: int, code: int)

  function After<T>(db: Db, outcome: Result<Step<T>, ControlFault>): Db {
    match outcome
    case Ok(step) => step.db
    case Err(_) => db
  }

  /** The tables after one command; a refused command rolls back. */
  function Execute(db: Db, c: Command): Db {
    match c
    case Select(provider, expected, now) => After(db, SelectProvider(db, provider, expected, now))
    case Prepare(arm, scope, context, asOf, cutoff, now) =>
      After(db, CreateRequest(db, arm, scope, context, asOf, cutoff, now))
    case Consult(scope, arm, at) => After(db, ResolvePolicy(db, scope, arm, at))
    case Submit(id, provider, decision, now, code) => After(db, SubmitDecision(db, id, provider, decision, now, code))
  }

  function Run(db: Db, commands: seq<Command>): Db {
    if commands == [] then db else Execute(Run(db, commands[..|commands| - 1]), commands[|commands| - 1])
  }

  // ---- the invariant

  ghost predicate OrderlySelections(db: Db) {
    forall i :: 0 <= i < |db.selections| ==> db.selections[i].version == i + 1
  }

  ghost predicate BoundRequests(db: Db) {
    forall id :: id in db.requests ==>
      && db.requests[id].id == id
      && 1 <= id.selectionVersion <= |db.selections|
      && db.requests[id].provider == db.selections[id.selectionVersion - 1].provider
      && db.requests[id].expiresAt == id.createdAt + 21600
  }

  ghost predicate DecidedOnce(db: Db) {
    && db.decisions.Keys == db.results.Keys <= db.requests.Keys
    && forall id :: id in db.results ==>
         && db.results[id].request == id && db.results[id].provider == db.decisions[id].provider && !db.results[id].replay
         && db.decisions[id].payload.Valid()
  }

  /** The version row that an accepted decision on this request produced. */
  ghost predicate ProducedBy(row: VersionRow, id: RequestId) {
    && row.scope == id.scope
    && row.state.arm == id.policy.arm
    && row.state.version == id.policy.version + 1
    && row.state.source.Some? && row.state.source.value.request == id
  }

  ghost predicate Grounded(db: Db) {
    forall id :: id in db.results && db.results[id].status.Accepted? ==>
      && db.results[id].applied == Some(id.policy.version + 1)
      && exists row :: row in db.versions && ProducedBy(row, id)
  }

  ghost predicate Consistent(db: Db) {
    OrderlySelections(db) && OrderlyVersions(db) && BoundRequests(db) && DecidedOnce(db) && Grounded(db)
  }

  // ---- what no step takes away

  ghost predicate Extends<K, V>(a: map<K, V>, b: map<K, V>) {
    forall k :: k in a ==> k in b && b[k] == a[k]
  }

  ghost predicate Grows(db: Db, after: Db) {
    && db.selections <= after.selections
    && db.patches <= after.patches
    && db.versions <= after.versions
    && Extends(db.requests, after.requests)
    && Extends(db.decisions, after.decisions)
    && Extends(db.results, after.results)
  }

  lemma GrowsTransitively(a: Db, b: Db, c: Db)
    requires Grows(a, b) && Grows(b, c)
    ensures Grows(a, c)
  {
  }

  lemma LatestSelectionIsLast(db: Db)
    requires OrderlySelections(db)
    ensures LatestSelection(db) ==
      if db.selections == [] then None else Some(db.selections[|db.selections| - 1])
  {
    NewestIsLast(SelectionVersion, db.selections);
  }

  lemma SelectKeeps(db: Db, provider: Provider, expected: Option<int>, now: int)
    requires Consistent(db) && SelectProvider(db, provider, expected, now).Ok?
    ensures
      var after := SelectProvider(db, provider, expected, now).value.db;
      Consistent(after) && Grows(db, after)
  {
    LatestSelectionIsLast(db);
    hide LatestSelection, History;
    var after := SelectProvider(db, provider, expected, now).value.db;
    assert forall scope, arm :: History(after, scope, arm) == History(db, scope, arm) by {
      SameVersions(db, after);
    }
  }

  lemma SameVersions(db: Db, after: Db)
    requires db.versions == after.versions
    ensures forall scope, arm :: History(after, scope, arm) == History(db, scope, arm)
    ensures OrderlyVersions(db) ==> OrderlyVersions(after)
  {
  }

  lemma MoreVersions(db: Db, after: Db)
    requires Consistent(db) && after == db.(versions := after.versions) && db.versions <= after.versions
    requires OrderlyVersions(after)
    ensures Consistent(after) && Grows(db, after)
  {
    hide OrderlyVersions;
    forall id | id in db.results && db.results[id].status.Accepted?
      ensures exists row :: row in after.versions && ProducedBy(row, id)
    {
      var row :| row in db.versions && ProducedBy(row, id);
      assert row in after.versions;
    }
  }

  lemma ResolveKeeps(db: Db, scope: Scope, arm: Arm, at: int)
    requires Consistent(db) && ResolvePolicy(db, scope, arm, at).Ok?
    ensures
      var after := ResolvePolicy(db, scope, arm, at).value.db;
      Consistent(after) && Grows(db, after)
  {
    hide ResolvePolicy, OrderlyVersions, History, LatestState, StoredState;
    ResolveChangesOnlyVersions(db, scope, arm, at);
    ResolveKeepsOrder(db, scope, arm, at);
    MoreVersions(db, ResolvePolicy(db, scope, arm, at).value.db);
  }

  lemma PrepareKeeps(db: Db, arm: Arm, scope: Scope, context: Context, asOf: int, cutoff: int, now: int)
    requires Consistent(db) && CreateRequest(db, arm, scope, context, asOf, cutoff, now).Ok?
    ensures
      var after := CreateRequest(db, arm, scope, context, asOf, cutoff, now).value.db;
      Consistent(after) && Grows(db, after)
  {
    hide *;
    PrepareShape(db, arm, scope, context, asOf, cutoff, now);
    ResolveKeeps(db, scope, arm, asOf);
    ResolveChangesOnlyVersions(db, scope, arm, asOf);
    var middle := ResolvePolicy(db, scope, arm, asOf).value.db;
    var after := CreateRequest(db, arm, scope, context, asOf, cutoff, now).value.db;
    if after != middle {
      var id := PreparedRequest(db, arm, scope, context, asOf, cutoff, now);
      AddRequestKeeps(middle, after, id);
      GrowsTransitively(db, middle, after);
    }
  }

  /** A prepared request leaves the resolved tables, with at most one new request bound to the selection. */
  ghost predicate Prepared(middle: Db, after: Db, id: RequestId) {
    && id !in middle.requests && id in after.requests
    && after == middle.(requests := middle.requests[id := after.requests[id]])
    && after.requests[id].id == id
    && after.requests[id].expiresAt == id.createdAt + REQUEST_TTL
    && middle.selections != []
    && id.selectionVersion == middle.selections[|middle.selections| - 1].version
    && after.requests[id].provider == middle.selections[|middle.selections| - 1].provider
  }

  lemma PrepareShape(db: Db, arm: Arm, scope: Scope, context: Context, asOf: int, cutoff: int, now: int)
    requires CreateRequest(db, arm, scope, context, asOf, cutoff, now).Ok?
    ensures ResolvePolicy(db, scope, arm, asOf).Ok?
  {
    hide ResolvePolicy, LatestSelection;
  }

  lemma PreparedRequest(db: Db, arm: Arm, scope: Scope, context: Context, asOf: int, cutoff: int, now: int)
    returns (id: RequestId)
    requires Consistent(db) && CreateRequest(db, arm, scope, context, asOf, cutoff, now).Ok?
    requires ResolvePolicy(db, scope, arm, asOf).Ok?
    requires CreateRequest(db, arm, scope, context, asOf, cutoff, now).value.db
          != ResolvePolicy(db, scope, arm, asOf).value.db
    ensures Prepared(ResolvePolicy(db, scope, arm, asOf).value.db,
              CreateRequest(db, arm, scope, context, asOf, cutoff, now).value.db, id)
  {
    hide ResolvePolicy, LatestSelection, OrderlySelections, OrderlyVersions, BoundRequests, DecidedOnce, Grounded;
    LatestSelectionIsLast(db);
    ResolveChangesOnlyVersions(db, scope, arm, asOf);
    id := RequestId(
      LatestSelection(db).value.version, scope, ResolvePolicy(db, scope, arm, asOf).value.value, asOf, cutoff, context, now);
  }

  lemma AddRequestKeeps(middle: Db, after: Db, id: RequestId)
    requires Consistent(middle) && Prepared(middle, after, id)
    ensures Consistent(after) && Grows(middle, after)
  {
    hide OrderlyVersions, Grounded;
    SameVersions(middle, after);
    SameResults(middle, after);
  }

  lemma SameResults(db: Db, after: Db)
    requires db.versions == after.versions && db.results == after.results && Grounded(db)
    ensures Grounded(after)
  {
  }

  /** A stored result consumes its request and nothing else. */
  lemma StoreKeeps(db: Db, id: RequestId, row: DecisionRow, status: Status, reason: Reason, applied: Option<int>)
    requires Consistent(db) && id in db.requests && id !in db.decisions && row.payload.Valid()
    requires status.Accepted? ==>
      applied == Some(id.policy.version + 1) && exists r :: r in db.versions && ProducedBy(r, id)
    ensures
      var after := StoreResult(db, id, row, status, reason, applied).db;
      Consistent(after) && Grows(db, after)
  {
    hide OrderlyVersions, History, Grounded, DecidedOnce, BoundRequests, OrderlySelections;
    var after := StoreResult(db, id, row, status, reason, applied).db;
    SameVersions(db, after);
    StoreDecides(db, id, row, status, reason, applied);
    StoreGrounds(db, id, row, status, reason, applied);
    SameBinding(db, after);
    assert id !in db.results by { DecisionsHaveResults(db); }
  }

  lemma DecisionsHaveResults(db: Db)
    requires DecidedOnce(db)
    ensures db.decisions.Keys == db.results.Keys
  {
  }

  lemma SameBinding(db: Db, after: Db)
    requires db.requests == after.requests && db.selections == after.selections
    ensures BoundRequests(db) ==> BoundRequests(after)
    ensures OrderlySelections(db) ==> OrderlySelections(after)
  {
  }

  lemma StoreDecides(db: Db, id: RequestId, row: DecisionRow, status: Status, reason: Reason, applied: Option<int>)
    requires DecidedOnce(db) && id in db.requests && row.payload.Valid()
    ensures DecidedOnce(StoreResult(db, id, row, status, reason, applied).db)
  {
    var after := StoreResult(db, id, row, status, reason, applied).db;
    assert after.decisions.Keys == db.decisions.Keys + {id} == after.results.Keys;
  }

  lemma StoreGrounds(db: Db, id: RequestId, row: DecisionRow, status: Status, reason: Reason, applied: Option<int>)
    requires Grounded(db)
    requires status.Accepted? ==>
      applied == Some(id.policy.version + 1) && exists r :: r in db.versions && ProducedBy(r, id)
    ensures Grounded(StoreResult(db, id, row, status, reason, applied).db)
  {
    hide ProducedBy;
  }

  /** An accepted decision compiles on the newest version and appends the next one. */
  lemma AcceptKeeps(db: Db, id: RequestId, row: DecisionRow, code: int)
    requires Consistent(db) && id in db.requests && id !in db.decisions
    requires row.payload.Valid() && row.payload.body.ApplyPatch?
    requires ApplyDecision(db, id, row, code).Ok?
    ensures
      var after := ApplyDecision(db, id, row, code).value.db;
      Consistent(after) && Grows(db, after)
  {
    hide ResolvePolicy, Compile, OrderlyVersions, History, LatestState, StoredState, Consistent, Grows, StoreResult, PatchFor;
    var scope, arm := id.scope, id.policy.arm;
    ResolveKeeps(db, scope, arm, row.receivedAt);
    ResolveChangesOnlyVersions(db, scope, arm, row.receivedAt);
    var Step(middle, current) := ResolvePolicy(db, scope, arm, row.receivedAt).value;
    var receipt := ApplyDecision(db, id, row, code).value.value;
    if current.version == id.policy.version {
      var patch := PatchFor(id, row.payload.body, row.payload, code, row.receivedAt);
      if Compile(patch, current, row.receivedAt).Ok? {
        AcceptedExtends(db, id, row, code);
      } else {
        StoreKeeps(middle, id, row, Rejected, CompileRejected(Compile(patch, current, row.receivedAt).error), None);
        GrowsTransitively(db, middle, ApplyDecision(db, id, row, code).value.db);
      }
    } else {
      StoreKeeps(middle, id, row, Rejected, PolicyVersionConflict, None);
      GrowsTransitively(db, middle, ApplyDecision(db, id, row, code).value.db);
    }
  }

  /** When the whole apply step accepts: the base is the newest stored version, its effects are those of the patches
      in force (all unexpired) at the instant, and the new version composes the accepted patch on top of them. */
  lemma AcceptedExtends(db: Db, id: RequestId, row: DecisionRow, code: int)
    requires Consistent(db) && id in db.requests && id !in db.decisions
    requires row.payload.Valid() && row.payload.body.ApplyPatch?
    requires ApplyDecision(db, id, row, code).Ok?
    requires ResolvePolicy(db, id.scope, id.policy.arm, row.receivedAt).Ok?
    requires
      var Step(middle, current) := ResolvePolicy(db, id.scope, id.policy.arm, row.receivedAt).value;
      && current.version == id.policy.version
      && Compile(PatchFor(id, row.payload.body, row.payload, code, row.receivedAt), current, row.receivedAt).Ok?
    ensures
      var Step(middle, current) := ResolvePolicy(db, id.scope, id.policy.arm, row.receivedAt).value;
      var Step(after, receipt) := ApplyDecision(db, id, row, code).value;
      && Consistent(after) && Grows(db, after)
      && receipt.status.Accepted?
      && current.version == |History(middle, id.scope, id.policy.arm)|
  {
    hide ResolvePolicy, OrderlyVersions, History, LatestState, StoredState, ApplyAll, Grounded, BoundRequests, DecidedOnce;
    var scope, arm, at := id.scope, id.policy.arm, row.receivedAt;
    var Step(middle, current) := ResolvePolicy(db, scope, arm, at).value;
    ResolveKeeps(db, scope, arm, at);
    ResolveChangesOnlyVersions(db, scope, arm, at);
    ResolveKeepsOrder(db, scope, arm, at);
    var patch := PatchFor(id, row.payload.body, row.payload, code, at);
    var compiled := Compile(patch, current, at).value;
    PatchedIsConsistent(middle, id, current, patch, at);
    var patched := Patched(middle, scope, patch, compiled, at);
    StoreKeeps(patched, id, row, Accepted, PolicyApplied, Some(compiled.version));
    GrowsTransitively(db, middle, patched);
    GrowsTransitively(db, patched, ApplyDecision(db, id, row, code).value.db);
  }

  /** The tables with a patch and the version compiled from it. */
  function Patched(db: Db, scope: Scope, patch: Patch, compiled: PolicyState, at: int): Db {
    db.(patches := db.patches + [PatchRow(scope, patch)], versions := db.versions + [VersionRow(scope, compiled, at)])
  }

  /** A version compiled on a known one and not stored yet is the next: appending it keeps the tables consistent. */
  lemma PatchedIsConsistent(db: Db, id: RequestId, current: PolicyState, patch: Patch, at: int)
    requires Consistent(db) && current.version == id.policy.version && current.arm == id.policy.arm
    requires 0 <= current.version <= |History(db, id.scope, current.arm)|
    requires current.version == |History(db, id.scope, current.arm)| > 0 ==>
      History(db, id.scope, current.arm)[current.version - 1].createdAt <= at
    requires Compile(patch, current, at).Ok? && patch.id.request == id
    requires forall r :: r in db.versions ==>
      !(r.scope == id.scope && r.state.arm == current.arm && r.state.version == current.version + 1)
    ensures var patched := Patched(db, id.scope, patch, Compile(patch, current, at).value, at);
      && Consistent(patched) && Grows(db, patched)
      && current.version == |History(db, id.scope, current.arm)|
      && exists r :: r in patched.versions && ProducedBy(r, id)
  {
    hide OrderlyVersions, History, ApplyAll, Compile, Grounded, BoundRequests, DecidedOnce, OrderlySelections;
    var scope, arm := id.scope, current.arm;
    var compiled := Compile(patch, current, at).value;
    CompileAdvances(patch, current, at);
    NextVersionIsNew(db, scope, arm, compiled.version);
    var added := VersionRow(scope, compiled, at);
    var extended := db.(versions := db.versions + [added]);
    AppendVersion(db, added);
    MoreVersions(db, extended);
    var patched := Patched(db, scope, patch, compiled, at);
    PatchKeeps(extended, patched);
    GrowsTransitively(db, extended, patched);
    assert added in patched.versions && ProducedBy(added, id);
  }

  lemma CompileAdvances(patch: Patch, current: PolicyState, now: int)
    requires Compile(patch, current, now).Ok?
    ensures
      var s := Compile(patch, current, now).value;
      s.arm == current.arm && s.version == current.version + 1 && s.source == Some(patch.id)
  {
    hide ApplyAll;
  }

  /** In an orderly history, a version that is not stored yet and follows a known one is the next. */
  lemma NextVersionIsNew(db: Db, scope: Scope, arm: Arm, version: int)
    requires OrderlyVersions(db) && 1 <= version <= |History(db, scope, arm)| + 1
    requires forall r :: r in db.versions ==> !(r.scope == scope && r.state.arm == arm && r.state.version == version)
    ensures version == |History(db, scope, arm)| + 1
  {
    if version <= |History(db, scope, arm)| {
      var r := StoredVersion(db, scope, arm, version);
    }
  }

  lemma StoredVersion(db: Db, scope: Scope, arm: Arm, version: int) returns (r: VersionRow)
    requires OrderlyVersions(db) && 1 <= version <= |History(db, scope, arm)|
    ensures r in db.versions && r.scope == scope && r.state.arm == arm && r.state.version == version
  {
    assert Orderly(History(db, scope, arm));
    r := History(db, scope, arm)[version - 1];
    assert r in History(db, scope, arm);
  }

  lemma PatchKeeps(db: Db, after: Db)
    requires Consistent(db) && after == db.(patches := after.patches) && db.patches <= after.patches
    ensures Consistent(after) && Grows(db, after)
  {
    hide OrderlyVersions;
    SameVersions(db, after);
  }

  lemma SubmitKeeps(db: Db, id: RequestId, provider: Provider, decision: Decision, now: int, code: int)
    requires Consistent(db) && SubmitDecision(db, id, provider, decision, now, code).Ok?
    ensures
      var after := SubmitDecision(db, id, provider, decision, now, code).value.db;
      Consistent(after) && Grows(db, after)
  {
    hide BindingError, ApplyDecision, StoreResult, Consistent;
    if id in db.requests && id !in db.decisions {
      var row := DecisionRow(provider, now, decision);
      match BindingError(db, db.requests[id], decision, provider, now)
      case Some(reason) => StoreKeeps(db, id, row, Rejected, reason, None);
      case None =>
        match decision.body
        case NoChange => StoreKeeps(db, id, row, Unchanged, ModelNoChange, None);
        case ApplyPatch(_, _, _, _) =>
          StoreKeeps(db, id, row, Rejected, PolicyTtlExceeded, None);
          StoreKeeps(db, id, row, Rejected, UnsupportedRollback, None);
          if ApplyDecision(db, id, row, code).Ok? {
            AcceptKeeps(db, id, row, code);
          }
    }
  }

  lemma ExecuteKeeps(db: Db, c: Command)
    requires Consistent(db)
    ensures Consistent(Execute(db, c)) && Grows(db, Execute(db, c))
  {
    hide SelectProvider, CreateRequest, ResolvePolicy, SubmitDecision, Consistent;
    match c
    case Select(provider, expected, now) =>
      if SelectProvider(db, provider, expected, now).Ok? {
        SelectKeeps(db, provider, expected, now);
      }
    case Prepare(arm, scope, context, asOf, cutoff, now) =>
      if CreateRequest(db, arm, scope, context, asOf, cutoff, now).Ok? {
        PrepareKeeps(db, arm, scope, context, asOf, cutoff, now);
      }
    case Consult(scope, arm, at) =>
      if ResolvePolicy(db, scope, arm, at).Ok? {
        ResolveKeeps(db, scope, arm, at);
      }
    case Submit(id, provider, decision, now, code) =>
      if SubmitDecision(db, id, provider, decision, now, code).Ok? {
        SubmitKeeps(db, id, provider, decision, now, code);
      }
  }

  lemma {:induction false} RunKeeps(db: Db, commands: seq<Command>)
    requires Consistent(db)
    ensures Consistent(Run(db, commands)) && Grows(db, Run(db, commands))
  {
    hide Execute, Consistent;
    if commands != [] {
      var init := commands[..|commands| - 1];
      RunKeeps(db, init);
      ExecuteKeeps(Run(db, init), commands[|commands| - 1]);
      GrowsTransitively(db, Run(db, init), Run(db, commands));
    }
  }

  // ---- what every run guarantees

  lemma EmptyIsConsistent()
    ensures Consistent(EMPTY)
  {
    forall scope, arm ensures Orderly(History(EMPTY, scope, arm)) {
      assert History(EMPTY, scope, arm) == [];
    }
  }

  /** In every run, from empty tables and whatever the instants: selections and policy versions stay contiguous,
      each request is consumed at most once, and every accepted decision has its version row. */
  lemma EveryRunIsConsistent(commands: seq<Command>)
    ensures Consistent(Run(EMPTY, commands))
  {
    hide Consistent, Run;
    EmptyIsConsistent();
    RunKeeps(EMPTY, commands);
  }

  lemma ProducedRowIsUnique(db: Db, a: VersionRow, b: VersionRow)
    requires OrderlyVersions(db) && a in db.versions && b in db.versions
    requires a.scope == b.scope && a.state.arm == b.state.arm && a.state.version == b.state.version
    ensures a == b
  {
    var h := History(db, a.scope, a.state.arm);
    assert Orderly(h) && a in h && b in h;
    var i :| 0 <= i < |h| && h[i] == a;
    var j :| 0 <= j < |h| && h[j] == b;
  }

  /** Optimistic concurrency: at most one accepted decision per scope, arm and base version. */
  lemma OneAcceptancePerBase(commands: seq<Command>, a: RequestId, b: RequestId)
    requires
      var db := Run(EMPTY, commands);
      && a in db.results && db.results[a].status.Accepted?
      && b in db.results && db.results[b].status.Accepted?
    requires a.scope == b.scope && a.policy.arm == b.policy.arm && a.policy.version == b.policy.version
    ensures a == b
  {
    hide Run, OrderlyVersions;
    EveryRunIsConsistent(commands);
    var db := Run(EMPTY, commands);
    var r :| r in db.versions && ProducedBy(r, a);
    var s :| s in db.versions && ProducedBy(s, b);
    ProducedRowIsUnique(db, r, s);
  }

  /** Resubmitting a consumed request's decision, after any further run and from any provider, returns the recorded
      receipt marked as a replay and changes nothing; any other decision is refused. */
  lemma ReceiptIsFinal(db: Db, commands: seq<Command>, id: RequestId, provider: Provider, now: int, code: int)
    requires Consistent(db) && id in db.decisions
    ensures
      var later := Run(db, commands);
      && SubmitDecision(later, id, provider, db.decisions[id].payload, now, code)
         == Ok(Step(later, db.results[id].(replay := true)))
      && forall other: Decision :: other.Valid() && other != db.decisions[id].payload ==>
           SubmitDecision(later, id, provider, other, now, code) == Err(DecisionConflict)
  {
    hide Run, OrderlyVersions, Grounded;
    RunKeeps(db, commands);
  }

  /** A decision on a request whose selection has been replaced is only ever rejected. */
  lemma StaleIsRejected(db: Db, id: RequestId, provider: Provider, decision: Decision, now: int, code: int)
    requires Consistent(db) && id in db.requests && id !in db.decisions
    requires id.selectionVersion < |db.selections|
    requires SubmitDecision(db, id, provider, decision, now, code).Ok?
    ensures SubmitDecision(db, id, provider, decision, now, code).value.value.status.Rejected?
  {
    LatestSelectionIsLast(db);
    hide LatestSelection, ApplyDecision, OrderlyVersions, Grounded;
  }

  lemma OnlySubmitDecides(db: Db, c: Command, id: RequestId)
    requires Consistent(db) && id !in db.decisions && id in Execute(db, c).decisions
    ensures c.Submit? && c.id == id && SubmitDecision(db, id, c.provider, c.decision, c.now, c.code).Ok?
    ensures id in db.requests
    ensures id in Execute(db, c).results
    ensures Execute(db, c).results[id] == SubmitDecision(db, id, c.provider, c.decision, c.now, c.code).value.value
  {
    hide Consistent, SelectProvider, CreateRequest, ResolvePolicy, SubmitDecision;
    match c
    case Select(provider, expected, now) => SelectDecidesNothing(db, provider, expected, now);
    case Prepare(arm, scope, context, asOf, cutoff, now) => PrepareDecidesNothing(db, arm, scope, context, asOf, cutoff, now);
    case Consult(scope, arm, at) => ConsultDecidesNothing(db, scope, arm, at);
    case Submit(r, provider, decision, now, code) => SubmitDecidesOne(db, r, provider, decision, now, code);
  }

  lemma SelectDecidesNothing(db: Db, provider: Provider, expected: Option<int>, now: int)
    ensures After(db, SelectProvider(db, provider, expected, now)).decisions == db.decisions
  {
    hide LatestSelection;
  }

  lemma ConsultDecidesNothing(db: Db, scope: Scope, arm: Arm, at: int)
    ensures After(db, ResolvePolicy(db, scope, arm, at)).decisions == db.decisions
  {
    hide Composed, LatestState, StoredState;
  }

  lemma PrepareDecidesNothing(db: Db, arm: Arm, scope: Scope, context: Context, asOf: int, cutoff: int, now: int)
    ensures After(db, CreateRequest(db, arm, scope, context, asOf, cutoff, now)).decisions == db.decisions
  {
    hide LatestSelection, ResolvePolicy;
    ConsultDecidesNothing(db, scope, arm, asOf);
  }

  lemma ApplyDecides(db: Db, id: RequestId, row: DecisionRow, code: int)
    requires row.payload.body.ApplyPatch? && ApplyDecision(db, id, row, code).Ok?
    ensures
      var Step(after, receipt) := ApplyDecision(db, id, row, code).value;
      && after.decisions == db.decisions[id := row]
      && id in after.results && after.results[id] == receipt
  {
    hide ResolvePolicy, Compile;
    ConsultDecidesNothing(db, id.scope, id.policy.arm, row.receivedAt);
  }

  lemma SubmitDecidesOne(db: Db, id: RequestId, provider: Provider, decision: Decision, now: int, code: int)
    ensures
      var r := SubmitDecision(db, id, provider, decision, now, code);
      && (forall other :: other != id && other !in db.decisions ==> other !in After(db, r).decisions)
      && (id !in db.decisions && id in After(db, r).decisions ==>
            r.Ok? && id in db.requests && id in After(db, r).results && After(db, r).results[id] == r.value.value)
  {
    hide BindingError, ApplyDecision;
    var row := DecisionRow(provider, now, decision);
    if decision.body.ApplyPatch? && ApplyDecision(db, id, row, code).Ok? {
      ApplyDecides(db, id, row, code);
    }
  }

  /** Switching the provider away, even and back, never revives an old request: whatever runs afterwards, if it is
      decided at all it is rejected. */
  lemma {:induction false} StaleNeverRevives(db: Db, commands: seq<Command>, id: RequestId)
    requires Consistent(db) && id in db.requests && id !in db.decisions
    requires id.selectionVersion < |db.selections|
    ensures
      var later := Run(db, commands);
      id in later.decisions ==> id in later.results && later.results[id].status.Rejected?
  {
    hide Execute, OrderlyVersions, Grounded;
    if commands != [] {
      var init, c := commands[..|commands| - 1], commands[|commands| - 1];
      StaleNeverRevives(db, init, id);
      RunKeeps(db, init);
      var before := Run(db, init);
      ExecuteKeeps(before, c);
      if id !in before.decisions && id in Execute(before, c).decisions {
        OnlySubmitDecides(before, c, id);
        StaleIsRejected(before, id, c.provider, c.decision, c.now, c.code);
      }
    }
  }
}
