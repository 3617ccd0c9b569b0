/** A reachable run in which an expired RESTORE_DEFAULT leaves a policy that cannot be resolved. */
module RestoreWedge {
  import opened ControlAcceptance
  import opened ControlPlane
  import opened ControlRuns
  import opened Identifiers
  import opened Ordering
  import opened PolicyCompiler
  import opened PolicyHistory
  import opened PolicyLiveness
  import opened PolicySchedule
  import opened Results

  /** One scope and arm served by one provider, all whose patches are in force at the instant. */
  datatype Setting = Setting(scope: Scope, arm: Arm, provider: Provider, context: Context, cited: seq<Id>)
  {
    predicate Valid() {
      && !arm.OtherArm? && scope.Valid() && context.bytes <= MAX_CONTEXT_BYTES
      && 0 < |cited| <= 100 && forall e :: e in cited ==> e in context.evidence
    }
  }

  ghost predicate AllInForce(s: Setting, rows: seq<PatchRow>, at: int) {
    forall i :: 0 <= i < |rows| ==> InForce(s.scope, s.arm, at)(rows[i])
  }

  /** The tables hold these patches in creation order, and the newest version carries their effects. */
  ghost predicate Stage(db: Db, s: Setting, rows: seq<PatchRow>, state: PolicyState, at: int) {
    && Consistent(db)
    && |db.selections| == 1 && db.selections[0].provider == s.provider
    && db.patches == rows && Sorted(PatchBefore, rows)
    && (forall i :: 0 <= i < |rows| ==> rows[i].patch.createdAt <= at)
    && (forall i :: 0 <= i < |db.versions| ==> db.versions[i].createdAt <= at)
    && (forall id :: id in db.requests ==> id.createdAt <= at)
    && LatestState(db, s.scope, s.arm) == state
    && state.version == |History(db, s.scope, s.arm)|
    && state.arm == s.arm
    && ApplyAll(s.arm, NEUTRAL, Flatten(PatchesOf(rows))) == Ok(state.effects)
    && state.source == (if rows == [] then None else Some(rows[|rows| - 1].patch.id))
  }

  lemma ActiveIsAll(db: Db, s: Setting, rows: seq<PatchRow>, at: int)
    requires db.patches == rows && Sorted(PatchBefore, rows) && AllInForce(s, rows, at)
    ensures ActivePatches(db, s.scope, s.arm, at) == PatchesOf(rows)
  {
    FilterAll(InForce(s.scope, s.arm, at), rows);
    SortOfSorted(PatchBefore, rows);
  }

  lemma StoredIsLatest(db: Db, scope: Scope, arm: Arm, at: int)
    requires forall i :: 0 <= i < |db.versions| ==> db.versions[i].createdAt <= at
    ensures StoredState(db, scope, arm, at) == LatestState(db, scope, arm)
  {
    FilterAll(StoredBy(at), History(db, scope, arm));
  }

  /** While all its patches are in force, a stage resolves to its state and writes nothing. */
  lemma StageResolves(db: Db, s: Setting, rows: seq<PatchRow>, state: PolicyState, at: int, later: int)
    requires Stage(db, s, rows, state, at) && at <= later && AllInForce(s, rows, later)
    ensures ResolvePolicy(db, s.scope, s.arm, later) == Ok(Step(db, state))
  {
    hide ApplyAll, Consistent, ActivePatches, History, LatestState, StoredState, Compose;
    StoredIsLatest(db, s.scope, s.arm, later);
    ActiveIsAll(db, s, rows, later);
    var live := PatchesOf(rows);
    ComposedIs(db, s.scope, s.arm, later, state.version);
    forall p | p in live ensures p.arm == s.arm && p.ActiveAt(later) {
      var i :| 0 <= i < |live| && live[i] == p;
      assert InForce(s.scope, s.arm, later)(rows[i]);
    }
    ComposeIsApply(s.arm, live, state.version, later);
    ComposeSource(s.arm, live, state.version, later);
  }

  // ---- one more accepted patch

  function RequestFor(s: Setting, state: PolicyState, at: int): RequestId {
    RequestId(1, s.scope, state, at, at, s.context, at)
  }

  function DecisionFor(s: Setting, state: PolicyState, at: int, expiresAt: int, ops: seq<Operation>): Decision {
    var id := RequestFor(s, state, at);
    Decision(id, ManifestOf(id), s.arm, state.version, s.cited,
      ApplyPatch(at, expiresAt, ops, [Condition(true, true, Some(expiresAt))]))
  }

  function RowFor(s: Setting, state: PolicyState, at: int, expiresAt: int, ops: seq<Operation>): PatchRow {
    PatchRow(s.scope, Patch(PatchId(RequestFor(s, state, at), 0), s.arm, state.version, at, expiresAt, ops, at))
  }

  function Asking(s: Setting, at: int): Command {
    Prepare(s.arm, s.scope, s.context, at, at, at)
  }

  function Answering(s: Setting, state: PolicyState, at: int, expiresAt: int, ops: seq<Operation>): Command {
    Submit(RequestFor(s, state, at), s.provider, DecisionFor(s, state, at, expiresAt, ops), at, 0)
  }

  ghost function Asked(db: Db, s: Setting, state: PolicyState, at: int): Db {
    var id := RequestFor(s, state, at);
    db.(requests := db.requests[id := Request(id, s.provider, at + REQUEST_TTL)])
  }

  lemma AskingPrepares(db: Db, s: Setting, rows: seq<PatchRow>, state: PolicyState, at: int, later: int)
    requires s.Valid() && Stage(db, s, rows, state, at) && at < later && AllInForce(s, rows, later)
    ensures Execute(db, Asking(s, later)) == Asked(db, s, state, later)
    ensures Stage(Asked(db, s, state, later), s, rows, state, later)
    ensures RequestFor(s, state, later) !in db.decisions
  {
    hide ApplyAll, ResolvePolicy, History, LatestState, Consistent;
    StageResolves(db, s, rows, state, at, later);
    ConsistentIs(db);
    LatestSelectionIsLast(db);
    hide LatestSelection;
    ExecuteKeeps(db, Asking(s, later));
    SameVersionsSameState(db, Asked(db, s, state, later), s.scope, s.arm);
  }

  lemma ConsistentIs(db: Db)
    requires Consistent(db)
    ensures OrderlySelections(db) && OrderlyVersions(db) && DecidedOnce(db)
    ensures forall id :: id in db.decisions ==> id in db.requests
  {
  }

  lemma SameVersionsSameState(db: Db, after: Db, scope: Scope, arm: Arm)
    requires db.versions == after.versions
    ensures History(db, scope, arm) == History(after, scope, arm)
    ensures LatestState(db, scope, arm) == LatestState(after, scope, arm)
  {
  }

  lemma AnsweringAccepts(db: Db, s: Setting, rows: seq<PatchRow>, state: PolicyState, at: int, expiresAt: int, ops: seq<Operation>)
    requires s.Valid() && Stage(db, s, rows, state, at) && AllInForce(s, rows, at)
    requires RequestFor(s, state, at) in db.requests && RequestFor(s, state, at) !in db.decisions
    requires db.requests[RequestFor(s, state, at)] == Request(RequestFor(s, state, at), s.provider, at + REQUEST_TTL)
    requires 0 < |ops| <= 20 && at < expiresAt <= at + MAX_POLICY_TTL
    requires Coherent(s.arm, Flatten(PatchesOf(rows)) + ops)
    ensures AcceptedBy(SubmitDecision(db, RequestFor(s, state, at), s.provider, DecisionFor(s, state, at, expiresAt, ops), at, 0))
  {
    hide ApplyAll, SubmitDecision, Coherent, Consistent, History, LatestState, Flatten, ActivePatches, AllInForce, ResolvePolicy;
    var id, decision := RequestFor(s, state, at), DecisionFor(s, state, at, expiresAt, ops);
    StageResolves(db, s, rows, state, at, at);
    ActiveIsAll(db, s, rows, at);
    AcceptedExactlyWhen(db, id, s.provider, decision, at, 0);
  }

  ghost function Advanced(s: Setting, state: PolicyState, at: int, expiresAt: int, ops: seq<Operation>): PolicyState {
    var r := Compile(RowFor(s, state, at, expiresAt, ops).patch, state, at);
    if r.Ok? then r.value else state
  }

  lemma AppliedTables(db: Db, id: RequestId, row: DecisionRow, code: int)
    requires row.payload.body.ApplyPatch? && AcceptedBy(ApplyDecision(db, id, row, code))
    requires ResolvePolicy(db, id.scope, id.policy.arm, row.receivedAt).Ok?
    ensures var after, middle := ApplyDecision(db, id, row, code).value.db,
        ResolvePolicy(db, id.scope, id.policy.arm, row.receivedAt).value.db;
      after.selections == middle.selections && after.requests == middle.requests
  {
    hide ResolvePolicy, Compile;
  }

  lemma FlattenLast(patches: seq<Patch>, p: Patch)
    ensures Flatten(patches + [p]) == Flatten(patches) + p.operations
  {
    assert (patches + [p])[..|patches|] == patches;
  }

  lemma LatestAfter(db: Db, after: Db, row: VersionRow)
    requires OrderlyVersions(after) && after.versions == db.versions + [row]
    ensures LatestState(after, row.scope, row.state.arm) == row.state
    ensures row.state.version == |History(after, row.scope, row.state.arm)|
  {
    HistoryWithRow(db, row, row.scope, row.state.arm);
    SameHistory(db.(versions := db.versions + [row]), after, row.scope, row.state.arm);
    var h := History(after, row.scope, row.state.arm);
    assert Orderly(h);
    NewestIsLast(RowVersion, h);
  }

  lemma AdvancedEffects(s: Setting, rows: seq<PatchRow>, state: PolicyState, at: int, expiresAt: int, ops: seq<Operation>)
    requires ApplyAll(s.arm, NEUTRAL, Flatten(PatchesOf(rows))) == Ok(state.effects)
    requires Compile(RowFor(s, state, at, expiresAt, ops).patch, state, at).Ok?
    ensures ApplyAll(s.arm, NEUTRAL, Flatten(PatchesOf(rows + [RowFor(s, state, at, expiresAt, ops)])))
         == Ok(Advanced(s, state, at, expiresAt, ops).effects)
  {
    hide ApplyAll;
    var row := RowFor(s, state, at, expiresAt, ops);
    assert PatchesOf(rows + [row]) == PatchesOf(rows) + [row.patch];
    FlattenLast(PatchesOf(rows), row.patch);
    ApplyConcat(s.arm, NEUTRAL, Flatten(PatchesOf(rows)), ops);
  }

  /** An accepted patch leads to the next stage. */
  lemma AnsweringAdvances(db: Db, s: Setting, rows: seq<PatchRow>, state: PolicyState, at: int, expiresAt: int, ops: seq<Operation>)
    requires s.Valid() && Stage(db, s, rows, state, at) && AllInForce(s, rows, at)
    requires RequestFor(s, state, at) in db.requests && RequestFor(s, state, at) !in db.decisions
    requires AcceptedBy(SubmitDecision(db, RequestFor(s, state, at), s.provider, DecisionFor(s, state, at, expiresAt, ops), at, 0))
    requires forall i :: 0 <= i < |rows| ==> rows[i].patch.createdAt < at
    ensures Stage(Execute(db, Answering(s, state, at, expiresAt, ops)), s,
              rows + [RowFor(s, state, at, expiresAt, ops)], Advanced(s, state, at, expiresAt, ops), at)
  {
    hide ApplyAll, SubmitDecision, ApplyDecision, Consistent, History, LatestState, Flatten, AllInForce, ResolvePolicy, Compile,
      BindingError, PatchesOf, OrderlyVersions;
    var id, decision := RequestFor(s, state, at), DecisionFor(s, state, at, expiresAt, ops);
    var row := DecisionRow(s.provider, at, decision);
    StageResolves(db, s, rows, state, at, at);
    AcceptedPath(db, id, s.provider, decision, at, 0);
    AppliedPath(db, id, row, 0);
    AppliedTables(db, id, row, 0);
    var patch := RowFor(s, state, at, expiresAt, ops).patch;
    assert patch == PatchFor(id, decision.body, decision, 0, at);
    CompileAdvances(patch, state, at);
    AdvancedEffects(s, rows, state, at, expiresAt, ops);
    var after := Execute(db, Answering(s, state, at, expiresAt, ops));
    ExecuteKeeps(db, Answering(s, state, at, expiresAt, ops));
    ConsistentIsOrderly(after);
    LatestAfter(db, after, VersionRow(s.scope, Advanced(s, state, at, expiresAt, ops), at));
  }

  /** Asking and answering once more: the next patch is accepted when it coheres with those in force. */
  lemma StageAdvances(db: Db, s: Setting, rows: seq<PatchRow>, state: PolicyState, at: int, later: int, expiresAt: int, ops: seq<Operation>)
    requires s.Valid() && Stage(db, s, rows, state, at) && at < later && AllInForce(s, rows, later)
    requires 0 < |ops| <= 20 && later < expiresAt <= later + MAX_POLICY_TTL
    requires Coherent(s.arm, Flatten(PatchesOf(rows)) + ops)
    ensures Stage(Execute(Execute(db, Asking(s, later)), Answering(s, state, later, expiresAt, ops)), s,
              rows + [RowFor(s, state, later, expiresAt, ops)], Advanced(s, state, later, expiresAt, ops), later)
  {
    hide Coherent, Consistent, Execute, ApplyAll, SubmitDecision, Flatten, History, LatestState, AllInForce;
    AskingPrepares(db, s, rows, state, at, later);
    var asked := Asked(db, s, state, later);
    AnsweringAccepts(asked, s, rows, state, later, expiresAt, ops);
    AnsweringAdvances(asked, s, rows, state, later, expiresAt, ops);
  }

  // ---- the run

  lemma FirstStage(s: Setting, at: int)
    ensures Stage(Execute(EMPTY, Select(s.provider, None, at)), s, [], DefaultState(s.arm), at)
  {
    EmptyIsConsistent();
    ExecuteKeeps(EMPTY, Select(s.provider, None, at));
    assert PatchesOf([]) == [];
    ApplyNothing(s.arm);
    hide Consistent;
  }

  /** An operation, a restore and the operation again cohere. */
  lemma RestoreFreesBucket(arm: Arm, op: Operation, restore: Operation)
    requires Allowed(arm, op) && !op.Restores() && Allowed(arm, restore) && restore.Restores()
    ensures Coherent(arm, [op]) && Coherent(arm, [op, restore]) && Coherent(arm, [op, restore, op])
  {
    hide Allowed;
    var ops := [op, restore, op];
    assert ops[1].Restores();
    assert !Holds(ops, 0, 2) && !Holds(ops, 1, 2);
  }

  lemma FlattenRows(rows: seq<PatchRow>, row: PatchRow)
    ensures Flatten(PatchesOf(rows + [row])) == Flatten(PatchesOf(rows)) + row.patch.operations
  {
    assert PatchesOf(rows + [row]) == PatchesOf(rows) + [row.patch];
    FlattenLast(PatchesOf(rows), row.patch);
  }

  lemma RunLast(db: Db, commands: seq<Command>, c: Command)
    ensures Run(db, commands + [c]) == Execute(Run(db, commands), c)
  {
    assert (commands + [c])[..|commands|] == commands;
  }

  /** The patch, the restore and the patch again, each asked for and accepted in turn. */
  lemma ThreePatches(s: Setting, op: Operation, restore: Operation, t: int)
    returns (commands: seq<Command>, rows: seq<PatchRow>, state: PolicyState)
    requires s.Valid()
    requires Allowed(s.arm, op) && !op.Restores() && Allowed(s.arm, restore) && restore.Restores()
    ensures Stage(Run(EMPTY, commands), s, rows, state, t + 3)
    ensures |rows| == 3
    ensures forall i :: 0 <= i < 3 ==> rows[i].scope == s.scope && rows[i].patch.arm == s.arm
    ensures rows[0].patch.operations == [op] && rows[0].patch.effectiveFrom == t + 1 && rows[0].patch.expiresAt == t + 10
    ensures rows[1].patch.operations == [restore] && rows[1].patch.effectiveFrom == t + 2 && rows[1].patch.expiresAt == t + 4
    ensures rows[2].patch.operations == [op] && rows[2].patch.effectiveFrom == t + 3 && rows[2].patch.expiresAt == t + 10
  {
    hide Stage, Execute, Run, Coherent, Allowed, Compile, Flatten, PatchesOf, RequestFor, DefaultState;
    RestoreFreesBucket(s.arm, op, restore);
    var none := DefaultState(s.arm);
    FirstStage(s, t);
    RunLast(EMPTY, [], Select(s.provider, None, t));
    RunNothing(EMPTY);
    commands := [] + [Select(s.provider, None, t)];
    FlattenNone();
    assert [] + [op] == [op];
    commands, rows, state := Extend(s, commands, [], none, t, t + 1, t + 10, [op]);
    FlattenRows([], rows[0]);
    assert [] + [rows[0]] == rows;
    assert [op] + [restore] == [op, restore];
    var one := rows;
    commands, rows, state := Extend(s, commands, rows, state, t + 1, t + 2, t + 4, [restore]);
    FlattenRows(one, rows[1]);
    assert [op, restore] + [op] == [op, restore, op];
    commands, rows, state := Extend(s, commands, rows, state, t + 2, t + 3, t + 10, [op]);
  }

  lemma FlattenNone()
    ensures Flatten(PatchesOf([])) == []
  {
  }

  lemma RunNothing(db: Db)
    ensures Run(db, []) == db
  {
  }

  lemma Extend(s: Setting, commands: seq<Command>, rows: seq<PatchRow>, state: PolicyState,
               at: int, later: int, expiresAt: int, ops: seq<Operation>)
    returns (longer: seq<Command>, more: seq<PatchRow>, next: PolicyState)
    requires s.Valid() && Stage(Run(EMPTY, commands), s, rows, state, at) && at < later && AllInForce(s, rows, later)
    requires 0 < |ops| <= 20 && later < expiresAt <= later + MAX_POLICY_TTL
    requires Coherent(s.arm, Flatten(PatchesOf(rows)) + ops)
    ensures Stage(Run(EMPTY, longer), s, more, next, later)
    ensures more == rows + [PatchRow(s.scope, Patch(PatchId(RequestFor(s, state, later), 0), s.arm, state.version, later, expiresAt, ops, later))]
  {
    hide Stage, Execute, Run, Coherent, Flatten;
    var asked := commands + [Asking(s, later)];
    longer := asked + [Answering(s, state, later, expiresAt, ops)];
    more := rows + [RowFor(s, state, later, expiresAt, ops)];
    next := Advanced(s, state, later, expiresAt, ops);
    RunLast(EMPTY, commands, Asking(s, later));
    RunLast(EMPTY, asked, Answering(s, state, later, expiresAt, ops));
    StageAdvances(Run(EMPTY, commands), s, rows, state, at, later, expiresAt, ops);
  }

  /** With the middle one of three patches expired, the other two are in force. */
  lemma MiddleExpired(db: Db, s: Setting, rows: seq<PatchRow>, at: int)
    requires OwnRows(db, s.scope, s.arm) == rows && |rows| == 3 && Sorted(PatchBefore, rows)
    requires InForce(s.scope, s.arm, at)(rows[0]) && !InForce(s.scope, s.arm, at)(rows[1]) && InForce(s.scope, s.arm, at)(rows[2])
    ensures ActivePatches(db, s.scope, s.arm, at) == [rows[0].patch, rows[2].patch]
  {
    hide InForce, Filter, Sorted, PatchBefore, Sort;
    InForceAmongOwn(db.patches, s.scope, s.arm, at);
    FilterMiddle(InForce(s.scope, s.arm, at), rows);
    OutsideSorted(rows);
    SortOfSorted(PatchBefore, [rows[0], rows[2]]);
  }

  lemma FilterMiddle<T(!new)>(p: T -> bool, s: seq<T>)
    requires |s| == 3 && p(s[0]) && !p(s[1]) && p(s[2])
    ensures Filter(p, s) == [s[0], s[2]]
  {
    hide Filter;
    FilterLast(p, [s[0], s[1]], s[2]);
    FilterLast(p, [s[0]], s[1]);
    FilterAll(p, [s[0]]);
    assert [s[0]] + [s[1]] == [s[0], s[1]] && [s[0], s[1]] + [s[2]] == s;
  }

  lemma OutsideSorted(rows: seq<PatchRow>)
    requires |rows| == 3 && Sorted(PatchBefore, rows)
    ensures Sorted(PatchBefore, [rows[0], rows[2]])
  {
    hide PatchBefore;
  }

  /** Submissions between the restore's expiry and that of the other two patches. */
  ghost predicate InWindow(more: seq<Command>, t: int) {
    forall c :: c in more && c.Submit? ==> t + 4 <= c.now < t + 10
  }

  /** In the window nothing works for the scope and arm: no resolution, no request, no acceptance. */
  ghost predicate Stuck(db: Db, s: Setting, t: int) {
    && (forall at :: t + 4 <= at < t + 10 ==> ResolvePolicy(db, s.scope, s.arm, at).Err?)
    && (forall context, at, cutoff, now :: t + 4 <= at < t + 10 ==>
          CreateRequest(db, s.arm, s.scope, context, at, cutoff, now).Err?)
    && (forall id: RequestId, provider, decision, at, code ::
          t + 4 <= at < t + 10 && id.scope == s.scope && id.policy.arm == s.arm && id !in db.decisions
          ==> !AcceptedBy(SubmitDecision(db, id, provider, decision, at, code)))
  }

  /** The patches of the scope and arm are still the three, and the middle one has the shortest life. */
  ghost predicate Wedged(db: Db, s: Setting, rows: seq<PatchRow>, op: Operation, t: int) {
    && Consistent(db)
    && OwnRows(db, s.scope, s.arm) == rows && |rows| == 3 && Sorted(PatchBefore, rows)
    && !op.Restores() && rows[0].patch.operations == [op] && rows[2].patch.operations == [op]
    && (forall at :: t + 4 <= at < t + 10 ==>
          && InForce(s.scope, s.arm, at)(rows[0])
          && !InForce(s.scope, s.arm, at)(rows[1])
          && InForce(s.scope, s.arm, at)(rows[2]))
  }

  lemma WedgedIsStuck(db: Db, s: Setting, rows: seq<PatchRow>, op: Operation, t: int)
    requires Wedged(db, s, rows, op, t)
    ensures Stuck(db, s, t)
  {
    hide ResolvePolicy, SubmitDecision, CreateRequest, Consistent, OwnRows, Sorted;
    forall at | t + 4 <= at < t + 10 ensures ResolvePolicy(db, s.scope, s.arm, at).Err? {
      Unresolvable(db, s, rows, op, at);
    }
    forall context, at, cutoff, now | t + 4 <= at < t + 10
      ensures CreateRequest(db, s.arm, s.scope, context, at, cutoff, now).Err?
    {
      NoRequestWithoutPolicy(db, s, context, at, cutoff, now);
    }
    forall id: RequestId, provider, decision, at, code |
      t + 4 <= at < t + 10 && id.scope == s.scope && id.policy.arm == s.arm && id !in db.decisions
      ensures !AcceptedBy(SubmitDecision(db, id, provider, decision, at, code))
    {
      NoAcceptanceWithoutPolicy(db, id, provider, decision, at, code);
    }
  }

  /** No command of the window changes the patches of the scope and arm. */
  lemma WedgedStays(db: Db, s: Setting, rows: seq<PatchRow>, op: Operation, t: int, c: Command)
    requires Wedged(db, s, rows, op, t) && AllMade(db.patches) && (c.Submit? ==> t + 4 <= c.now < t + 10)
    ensures Wedged(Execute(db, c), s, rows, op, t)
  {
    hide SubmitDecision, Execute, Consistent, Filter, Sorted, InForce;
    ExecuteKeeps(db, c);
    if c.Submit? && c.id !in db.decisions && AcceptedBy(SubmitDecision(db, c.id, c.provider, c.decision, c.now, c.code)) {
      AcceptanceMakes(db, c);
      var r :| Execute(db, c).patches == db.patches + [r] && r.scope == c.id.scope && r.patch.arm == c.id.policy.arm;
      OtherScope(db, s, rows, op, t, c);
      FilterLast(Own(s.scope, s.arm), db.patches, r);
    } else {
      PatchesOnlyByAcceptance(db, c);
    }
  }

  lemma OtherScope(db: Db, s: Setting, rows: seq<PatchRow>, op: Operation, t: int, c: Command)
    requires Wedged(db, s, rows, op, t) && c.Submit? && t + 4 <= c.now < t + 10 && c.id !in db.decisions
    requires AcceptedBy(SubmitDecision(db, c.id, c.provider, c.decision, c.now, c.code))
    ensures c.id.scope != s.scope || c.id.policy.arm != s.arm
  {
    hide Wedged, ResolvePolicy, CreateRequest, SubmitDecision, AcceptedBy;
    WedgedIsStuck(db, s, rows, op, t);
  }

  lemma {:induction false} WedgedThroughout(commands: seq<Command>, more: seq<Command>, s: Setting, rows: seq<PatchRow>, op: Operation, t: int)
    requires Wedged(Run(EMPTY, commands), s, rows, op, t) && InWindow(more, t)
    ensures Wedged(Run(EMPTY, commands + more), s, rows, op, t)
    decreases |more|
  {
    hide Wedged, Execute, Run, Made;
    if more == [] {
      assert commands + more == commands;
    } else {
      var init, c := more[..|more| - 1], more[|more| - 1];
      assert c in more && forall x :: x in init ==> x in more;
      WedgedThroughout(commands, init, s, rows, op, t);
      assert commands + more == (commands + init) + [c];
      RunLast(EMPTY, commands + init, c);
      RunMakes(commands + init);
      WedgedStays(Run(EMPTY, commands + init), s, rows, op, t, c);
    }
  }

  /**
   * For every scope and arm, and every allowed operation and restore, some run has all three patches
   * accepted and then, from the restore's expiry until that of the other two, can neither resolve the
   * policy, nor prepare a request, nor accept a decision there; and no commands in that window end it.
   */
  lemma RestoreCanWedge(s: Setting, op: Operation, restore: Operation, t: int) returns (commands: seq<Command>)
    requires s.Valid()
    requires Allowed(s.arm, op) && !op.Restores() && Allowed(s.arm, restore) && restore.Restores()
    ensures |Run(EMPTY, commands).patches| == 3
    ensures forall more :: InWindow(more, t) ==> Stuck(Run(EMPTY, commands + more), s, t)
  {
    var rows, state;
    commands, rows, state := ThreePatches(s, op, restore, t);
    var db := Run(EMPTY, commands);
    StageTables(db, s, rows, state, t + 3);
    hide Run, Stuck, Stage;
    FilterAll(Own(s.scope, s.arm), rows);
    assert Wedged(db, s, rows, op, t);
    hide Wedged;
    forall more | InWindow(more, t) ensures Stuck(Run(EMPTY, commands + more), s, t) {
      WedgedThroughout(commands, more, s, rows, op, t);
      WedgedIsStuck(Run(EMPTY, commands + more), s, rows, op, t);
    }
  }

  lemma StageTables(db: Db, s: Setting, rows: seq<PatchRow>, state: PolicyState, at: int)
    requires Stage(db, s, rows, state, at)
    ensures Consistent(db) && db.patches == rows && Sorted(PatchBefore, rows)
    ensures forall i :: 0 <= i < |rows| ==> rows[i].patch.createdAt <= at
  {
    hide Consistent, Sorted, ApplyAll;
  }

  lemma Unresolvable(db: Db, s: Setting, rows: seq<PatchRow>, op: Operation, at: int)
    requires !op.Restores()
    requires OwnRows(db, s.scope, s.arm) == rows && |rows| == 3 && Sorted(PatchBefore, rows)
    requires rows[0].patch.operations == [op] && rows[2].patch.operations == [op]
    requires InForce(s.scope, s.arm, at)(rows[0]) && !InForce(s.scope, s.arm, at)(rows[1]) && InForce(s.scope, s.arm, at)(rows[2])
    ensures ResolvePolicy(db, s.scope, s.arm, at).Err?
  {
    hide ResolvePolicy, ActivePatches, InForce, Allowed, ConflictFree, Sorted, Flatten, OwnRows;
    MiddleExpired(db, s, rows, at);
    FlattenTwo(rows[0].patch, rows[2].patch);
    assert [op] + [op] == [op, op];
    TwiceConflicts(op);
    ResolvesExactlyWhen(db, s.scope, s.arm, at);
  }

  lemma FlattenTwo(p: Patch, q: Patch)
    ensures Flatten([p, q]) == p.operations + q.operations
  {
    assert [p, q][..1] == [p] && [p][..0] == [];
    assert Flatten([p]) == p.operations;
  }

  lemma TwiceConflicts(op: Operation)
    requires !op.Restores()
    ensures !ConflictFree([op, op])
  {
    assert Holds([op, op], 0, 1);
  }

  lemma NoRequestWithoutPolicy(db: Db, s: Setting, context: Context, at: int, cutoff: int, now: int)
    requires ResolvePolicy(db, s.scope, s.arm, at).Err?
    ensures CreateRequest(db, s.arm, s.scope, context, at, cutoff, now).Err?
  {
    hide ResolvePolicy, LatestSelection;
  }

  lemma NoAcceptanceWithoutPolicy(db: Db, id: RequestId, provider: Provider, decision: Decision, at: int, code: int)
    requires Consistent(db) && id !in db.decisions && ResolvePolicy(db, id.scope, id.policy.arm, at).Err?
    ensures !AcceptedBy(SubmitDecision(db, id, provider, decision, at, code))
  {
    hide Consistent, ResolvePolicy, SubmitDecision, AcceptedBy;
    AcceptedExactlyWhen(db, id, provider, decision, at, code);
  }
}
