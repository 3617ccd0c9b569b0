/** What an accepted patch is compiled on, and when the patches in force can stop composing. */
module PolicyLiveness {
  import opened ControlPlane
  import opened ControlRuns
  import opened Identifiers
  import opened Ordering
  import opened PolicyCompiler
  import opened PolicyHistory
  import opened Results

  lemma AcceptedPath(db: Db, id: RequestId, provider: Provider, decision: Decision, now: int, code: int)
    requires id !in db.decisions && SubmitDecision(db, id, provider, decision, now, code).Ok?
    requires SubmitDecision(db, id, provider, decision, now, code).value.value.status.Accepted?
    ensures id in db.requests && decision.Valid() && decision.body.ApplyPatch?
    ensures BindingError(db, db.requests[id], decision, provider, now).None?
    ensures
      var row := DecisionRow(provider, now, decision);
      SubmitDecision(db, id, provider, decision, now, code) == ApplyDecision(db, id, row, code)
  {
    hide BindingError, ApplyDecision;
  }

  lemma AppliedPath(db: Db, id: RequestId, row: DecisionRow, code: int)
    requires row.payload.body.ApplyPatch? && ApplyDecision(db, id, row, code).Ok?
    requires ApplyDecision(db, id, row, code).value.value.status.Accepted?
    ensures ResolvePolicy(db, id.scope, id.policy.arm, row.receivedAt).Ok?
    ensures
      var Step(middle, current) := ResolvePolicy(db, id.scope, id.policy.arm, row.receivedAt).value;
      var patch := PatchFor(id, row.payload.body, row.payload, code, row.receivedAt);
      var after := ApplyDecision(db, id, row, code).value.db;
      && current.version == id.policy.version
      && Compile(patch, current, row.receivedAt).Ok?
      && after.patches == middle.patches + [PatchRow(id.scope, patch)]
      && after.versions == middle.versions + [VersionRow(id.scope, Compile(patch, current, row.receivedAt).value, row.receivedAt)]
  {
    hide ResolvePolicy, Compile;
  }

  /** In every run, an accepted patch is compiled on the newest stored version, whose effects are exactly those of
      the patches in force at that instant, none of them expired; and the version it produces composes the patch last. */
  lemma AcceptedOnLivePolicy(commands: seq<Command>, id: RequestId, provider: Provider, decision: Decision, now: int, code: int)
    requires id !in Run(EMPTY, commands).decisions
    requires SubmitDecision(Run(EMPTY, commands), id, provider, decision, now, code).Ok?
    requires SubmitDecision(Run(EMPTY, commands), id, provider, decision, now, code).value.value.status.Accepted?
    ensures decision.body.ApplyPatch?
    ensures
      var db := Run(EMPTY, commands);
      var after := SubmitDecision(db, id, provider, decision, now, code).value.db;
      var live := ActivePatches(db, id.scope, id.policy.arm, now);
      var patch := PatchFor(id, decision.body, decision, code, now);
      && (forall p :: p in live ==> p.effectiveFrom <= now < p.expiresAt && p.createdAt <= now)
      && after.versions != []
      && var row := after.versions[|after.versions| - 1];
         && row.scope == id.scope && row.createdAt == now
         && Compose(id.policy.arm, live + [patch], id.policy.version + 1, now) == Ok(row.state)
         && |History(after, id.scope, id.policy.arm)| == id.policy.version + 1
  {
    hide Run, ResolvePolicy, SubmitDecision, ApplyDecision, Compile, Compose, OrderlyVersions, ActivePatches,
      Consistent, History, Grows, SameEffects, PatchFor, BindingError, Composed, LatestState, StoredState;
    EveryRunIsConsistent(commands);
    var db := Run(EMPTY, commands);
    var scope, arm := id.scope, id.policy.arm;
    var row := DecisionRow(provider, now, decision);
    AcceptedPath(db, id, provider, decision, now, code);
    AppliedPath(db, id, row, code);
    AcceptedExtends(db, id, row, code);
    var Step(middle, current) := ResolvePolicy(db, scope, arm, now).value;
    ResolvedEffects(db, scope, arm, now);
    ComposedIs(db, scope, arm, now, current.version);
    ConsistentIsOrderly(db);
    ResolveKeepsOrder(db, scope, arm, now);
    ActiveAreInForce(db, scope, arm, now);
    var patch := PatchFor(id, decision.body, decision, code, now);
    CompileIsCompose(arm, ActivePatches(db, scope, arm, now), current, patch, now);
    CompileAdvances(patch, current, now);
    ResolveKeeps(db, scope, arm, now);
    var after := SubmitDecision(db, id, provider, decision, now, code).value.db;
    var added := VersionRow(scope, Compile(patch, current, now).value, now);
    HistoryWithRow(middle, added, scope, arm);
    SameHistory(middle.(versions := middle.versions + [added]), after, scope, arm);
  }

  lemma ComposedIs(db: Db, scope: Scope, arm: Arm, at: int, version: int)
    ensures Composed(db, scope, arm, at, version) == Compose(arm, ActivePatches(db, scope, arm, at), version, at)
  {
  }

  lemma ConsistentIsOrderly(db: Db)
    requires Consistent(db)
    ensures OrderlyVersions(db)
  {
  }

  lemma SameHistory(db: Db, after: Db, scope: Scope, arm: Arm)
    requires db.versions == after.versions
    ensures History(db, scope, arm) == History(after, scope, arm)
  {
  }

  // ---- runs without RESTORE_DEFAULT never stop composing

  ghost predicate Plain(ops: seq<Operation>) {
    forall i :: 0 <= i < |ops| ==> !ops[i].Restores()
  }

  function BucketOf(op: Operation): Bucket { op.bucket }

  /** Among operations that never restore the default, conflict-free means distinct buckets. */
  lemma PlainConflict(ops: seq<Operation>)
    requires Plain(ops)
    ensures ConflictFree(ops) <==> DistinctBy(BucketOf, ops)
  {
    if ConflictFree(ops) {
      forall i, j | 0 <= i < j < |ops| ensures BucketOf(ops[i]) != BucketOf(ops[j]) {
        assert Holds(ops, i, j);
      }
    }
    if DistinctBy(BucketOf, ops) {
      forall i, j | Holds(ops, i, j) && j < |ops| && !ops[j].Restores() ensures ops[i].bucket != ops[j].bucket {
        assert BucketOf(ops[i]) != BucketOf(ops[j]);
      }
    }
  }

  ghost predicate Apart(a: seq<Operation>, b: seq<Operation>) {
    forall x, y :: x in a && y in b ==> x.bucket != y.bucket
  }

  lemma DistinctConcat(a: seq<Operation>, b: seq<Operation>)
    ensures DistinctBy(BucketOf, a + b) <==> DistinctBy(BucketOf, a) && DistinctBy(BucketOf, b) && Apart(a, b)
  {
    var c := a + b;
    if DistinctBy(BucketOf, c) {
      forall i, j | 0 <= i < j < |a| ensures BucketOf(a[i]) != BucketOf(a[j]) {
        assert c[i] == a[i] && c[j] == a[j];
      }
      forall i, j | 0 <= i < j < |b| ensures BucketOf(b[i]) != BucketOf(b[j]) {
        assert c[|a| + i] == b[i] && c[|a| + j] == b[j];
      }
      forall x, y | x in a && y in b ensures x.bucket != y.bucket {
        var i :| 0 <= i < |a| && a[i] == x;
        var j :| 0 <= j < |b| && b[j] == y;
        assert c[i] == x && c[|a| + j] == y;
        assert BucketOf(c[i]) != BucketOf(c[|a| + j]);
      }
    }
  }

  /** Both patches are in force at some common instant of the same scope and arm. */
  ghost predicate Coexist(a: PatchRow, b: PatchRow) {
    && a.scope == b.scope && a.patch.arm == b.patch.arm
    && a.patch.createdAt < b.patch.expiresAt && b.patch.createdAt < a.patch.expiresAt
  }

  ghost predicate WellMade(r: PatchRow, clock: int) {
    && r.patch.effectiveFrom <= r.patch.createdAt <= clock
    && Plain(r.patch.operations)
    && DistinctBy(BucketOf, r.patch.operations)
    && forall i :: 0 <= i < |r.patch.operations| ==> Allowed(r.patch.arm, r.patch.operations[i])
  }

  function RowId(r: PatchRow): PatchId { r.patch.id }

  /** Every two patches that are ever in force together control different buckets. */
  ghost predicate Separate(rows: seq<PatchRow>, clock: int) {
    && DistinctBy(RowId, rows)
    && (forall r :: r in rows ==> WellMade(r, clock))
    && forall i, j :: 0 <= i < j < |rows| && Coexist(rows[i], rows[j]) ==>
         Apart(rows[i].patch.operations, rows[j].patch.operations)
  }

  lemma ApartIsSymmetric(a: seq<Operation>, b: seq<Operation>)
    requires Apart(a, b)
    ensures Apart(b, a)
  {
  }

  lemma SeparatePair(rows: seq<PatchRow>, clock: int, a: PatchRow, b: PatchRow)
    requires Separate(rows, clock) && a in rows && b in rows && a != b && Coexist(a, b)
    ensures Apart(a.patch.operations, b.patch.operations)
  {
    var i :| 0 <= i < |rows| && rows[i] == a;
    var j :| 0 <= j < |rows| && rows[j] == b;
    if i > j {
      ApartIsSymmetric(b.patch.operations, a.patch.operations);
    }
  }

  ghost predicate FromRows(rows: seq<PatchRow>, op: Operation) {
    exists r :: r in rows && op in r.patch.operations
  }

  /** A listing of patches that coexist pairwise flattens to distinct buckets. */
  lemma {:induction false} FlattenIsDistinct(rows: seq<PatchRow>, all: seq<PatchRow>, clock: int)
    requires Separate(all, clock) && DistinctBy(RowId, rows)
    requires forall r :: r in rows ==> r in all
    requires forall a, b :: a in rows && b in rows ==> Coexist(a, b)
    ensures
      var ops := Flatten(PatchesOf(rows));
      && Plain(ops) && DistinctBy(BucketOf, ops)
      && (forall op :: op in ops ==> FromRows(rows, op))
  {
    if rows != [] {
      var init, last := rows[..|rows| - 1], rows[|rows| - 1];
      DistinctByLast(RowId, rows);
      FlattenIsDistinct(init, all, clock);
      var before, ops := Flatten(PatchesOf(init)), last.patch.operations;
      assert PatchesOf(rows)[..|rows| - 1] == PatchesOf(init);
      assert Flatten(PatchesOf(rows)) == before + ops;
      assert last in rows;
      SeparateIsWellMade(all, clock, last);
      hide Separate, Flatten, Coexist;
      forall x | x in before ensures FromRows(init, x) && FromRows(rows, x) {
        var r :| r in init && x in r.patch.operations;
        assert r in rows;
      }
      assert Apart(before, ops) by {
        forall x, y | x in before && y in ops ensures x.bucket != y.bucket {
          var r :| r in init && x in r.patch.operations;
          assert RowId(r) != RowId(last);
          SeparatePair(all, clock, r, last);
        }
      }
      DistinctConcat(before, ops);
    }
  }

  /** With separate patches, the policy resolves at every instant, past or future. */
  lemma SeparateResolves(db: Db, clock: int, scope: Scope, arm: Arm, at: int)
    requires Separate(db.patches, clock)
    ensures ResolvePolicy(db, scope, arm, at).Ok?
  {
    hide ResolvePolicy, Allowed, ConflictFree, Separate, DistinctBy, Sort, Filter, Flatten, Plain, Coexist;
    var rows := Filter(InForce(scope, arm, at), db.patches);
    var sorted := Sort(PatchBefore, rows);
    SortIsPermutation(PatchBefore, rows);
    SeparateIsDistinct(db.patches, clock);
    DistinctByFilter(RowId, InForce(scope, arm, at), db.patches);
    DistinctByPermutes(RowId, rows, sorted);
    forall a, b | a in sorted && b in sorted ensures Coexist(a, b) {
      assert a in rows && b in rows;
      TogetherInForce(a, b, scope, arm, at);
    }
    FlattenIsDistinct(sorted, db.patches, clock);
    var ops := Flatten(PatchesOf(sorted));
    PlainConflict(ops);
    forall i | 0 <= i < |ops| ensures Allowed(arm, ops[i]) {
      assert ops[i] in ops && FromRows(sorted, ops[i]);
      var r :| r in sorted && ops[i] in r.patch.operations;
      assert r in rows;
      SeparateIsWellMade(db.patches, clock, r);
      var k :| 0 <= k < |r.patch.operations| && r.patch.operations[k] == ops[i];
    }
    ResolvesExactlyWhen(db, scope, arm, at);
  }

  lemma TogetherInForce(a: PatchRow, b: PatchRow, scope: Scope, arm: Arm, at: int)
    requires InForce(scope, arm, at)(a) && InForce(scope, arm, at)(b)
    ensures Coexist(a, b)
  {
  }

  lemma SeparateIsDistinct(rows: seq<PatchRow>, clock: int)
    requires Separate(rows, clock)
    ensures DistinctBy(RowId, rows)
  {
  }

  lemma SeparateIsWellMade(rows: seq<PatchRow>, clock: int, r: PatchRow)
    requires Separate(rows, clock) && r in rows
    ensures WellMade(r, clock)
  {
  }

  lemma {:induction false} OperationsAreFlattened(rows: seq<PatchRow>, r: PatchRow, op: Operation)
    requires r in rows && op in r.patch.operations
    ensures op in Flatten(PatchesOf(rows))
  {
    var init, last := rows[..|rows| - 1], rows[|rows| - 1];
    assert PatchesOf(rows)[..|rows| - 1] == PatchesOf(init);
    assert rows == init + [last];
    if r != last {
      OperationsAreFlattened(init, r, op);
    }
  }

  /** What compiling an accepted patch on the live policy established about its buckets. */
  lemma CompiledIsApart(db: Db, clock: int, scope: Scope, arm: Arm, current: PolicyState, patch: Patch, now: int)
    requires Separate(db.patches, clock) && Plain(patch.operations)
    requires Composed(db, scope, arm, now, current.version).Ok?
    requires SameEffects(current, Composed(db, scope, arm, now, current.version).value)
    requires Compile(patch, current, now).Ok? && patch.arm == arm
    ensures forall i :: 0 <= i < |patch.operations| ==> Allowed(arm, patch.operations[i])
    ensures DistinctBy(BucketOf, patch.operations)
    ensures Apart(Flatten(ActivePatches(db, scope, arm, now)), patch.operations)
  {
    hide Allowed, ConflictFree, Separate, DistinctBy, Sort, Filter, Flatten, Coexist, Plain, Compose, ApplyAll;
    var rows := Filter(InForce(scope, arm, now), db.patches);
    var sorted := Sort(PatchBefore, rows);
    SortIsPermutation(PatchBefore, rows);
    SeparateIsDistinct(db.patches, clock);
    DistinctByFilter(RowId, InForce(scope, arm, now), db.patches);
    DistinctByPermutes(RowId, rows, sorted);
    forall a, b | a in sorted && b in sorted ensures Coexist(a, b) {
      assert a in rows && b in rows;
      TogetherInForce(a, b, scope, arm, now);
    }
    FlattenIsDistinct(sorted, db.patches, clock);
    var flat, ops := Flatten(PatchesOf(sorted)), patch.operations;
    ActiveAreInForce(db, scope, arm, now);
    ComposeIsApply(arm, PatchesOf(sorted), current.version, now);
    ApplyConcat(arm, NEUTRAL, flat, ops);
    AppliesExactlyWhen(arm, flat + ops, |flat + ops|);
    assert (flat + ops)[..|flat + ops|] == flat + ops;
    PlainConcat(flat, ops);
    PlainConflict(flat + ops);
    DistinctConcat(flat, ops);
    forall i | 0 <= i < |ops| ensures Allowed(arm, ops[i]) {
      assert (flat + ops)[|flat| + i] == ops[i];
    }
  }

  lemma PlainConcat(a: seq<Operation>, b: seq<Operation>)
    requires Plain(a) && Plain(b)
    ensures Plain(a + b)
  {
  }

  /** Appending a patch that is apart from everything in force keeps the patches separate. */
  lemma SeparateWithPatch(db: Db, clock: int, row: PatchRow)
    requires Separate(db.patches, clock) && clock <= row.patch.createdAt
    requires WellMade(row, row.patch.createdAt)
    requires forall r :: r in db.patches ==> r.patch.id != row.patch.id
    requires Apart(Flatten(ActivePatches(db, row.scope, row.patch.arm, row.patch.createdAt)), row.patch.operations)
    ensures Separate(db.patches + [row], row.patch.createdAt)
  {
    var all, now := db.patches + [row], row.patch.createdAt;
    forall i, j | 0 <= i < j < |all| ensures RowId(all[i]) != RowId(all[j]) {
      assert all[i] in db.patches;
      assert j < |db.patches| ==> RowId(db.patches[i]) != RowId(db.patches[j]);
    }
    forall i | 0 <= i < |db.patches| && Coexist(db.patches[i], row)
      ensures Apart(db.patches[i].patch.operations, row.patch.operations)
    {
      var r := db.patches[i];
      assert r in db.patches && WellMade(r, clock);
      var rows := Filter(InForce(row.scope, row.patch.arm, now), db.patches);
      assert r in rows;
      SortIsPermutation(PatchBefore, rows);
      forall x, y | x in r.patch.operations && y in row.patch.operations ensures x.bucket != y.bucket {
        OperationsAreFlattened(Sort(PatchBefore, rows), r, x);
      }
    }
  }

  // ---- along a run

  /** Every stored patch belongs to a decided request. */
  ghost predicate Recorded(db: Db) {
    forall r :: r in db.patches ==> r.patch.id.request in db.decisions
  }

  ghost predicate PlainCommand(c: Command) {
    c.Submit? && c.decision.body.ApplyPatch? ==> Plain(c.decision.body.operations)
  }

  /** No command but a fresh acceptance touches the patch table. */
  lemma PatchesOnlyByAcceptance(db: Db, c: Command)
    requires Consistent(db)
    requires !(c.Submit? && c.id !in db.decisions
               && SubmitDecision(db, c.id, c.provider, c.decision, c.now, c.code).Ok?
               && SubmitDecision(db, c.id, c.provider, c.decision, c.now, c.code).value.value.status.Accepted?)
    ensures Execute(db, c).patches == db.patches
  {
    hide Consistent, LatestSelection, Compile, BindingError, Composed, LatestState, StoredState;
    match c
    case Select(_, _, _) =>
    case Consult(scope, arm, at) =>
    case Prepare(arm, scope, context, asOf, cutoff, now) =>
    case Submit(id, provider, decision, now, code) =>
      hide ResolvePolicy;
      var row := DecisionRow(provider, now, decision);
      if id in db.requests && decision.body.ApplyPatch? && ResolvePolicy(db, id.scope, id.policy.arm, now).Ok? {
        ResolveChangesOnlyVersions(db, id.scope, id.policy.arm, now);
      }
  }

  lemma AcceptanceKeepsSeparate(db: Db, clock: int, c: Command)
    requires c.Submit? && PlainCommand(c) && c.id !in db.decisions
    requires Consistent(db) && Recorded(db) && Separate(db.patches, clock) && clock <= c.now
    requires SubmitDecision(db, c.id, c.provider, c.decision, c.now, c.code).Ok?
    requires SubmitDecision(db, c.id, c.provider, c.decision, c.now, c.code).value.value.status.Accepted?
    ensures Recorded(Execute(db, c)) && Separate(Execute(db, c).patches, c.now)
  {
    hide Consistent, ResolvePolicy, ApplyDecision, SubmitDecision, Compose, Separate, ActivePatches, Flatten, ApplyAll,
      Allowed, DistinctBy, Plain, Apart, Grows, LatestState, StoredState, Composed, History;
    var id, now := c.id, c.now;
    var row := DecisionRow(c.provider, now, c.decision);
    AcceptedPath(db, id, c.provider, c.decision, now, c.code);
    AppliedPath(db, id, row, c.code);
    var scope, arm := id.scope, id.policy.arm;
    var Step(middle, current) := ResolvePolicy(db, scope, arm, now).value;
    ResolveChangesOnlyVersions(db, scope, arm, now);
    ResolvedEffects(db, scope, arm, now);
    ConsistentIsOrderly(db);
    ResolveKeepsOrder(db, scope, arm, now);
    var patch := PatchFor(id, c.decision.body, c.decision, c.code, now);
    CompiledIsApart(db, clock, scope, arm, current, patch, now);
    SeparateWithPatch(db, clock, PatchRow(scope, patch));
    ApplyDecides(db, id, row, c.code);
  }

  lemma StillRecorded(db: Db, after: Db)
    requires Recorded(db) && after.patches == db.patches && Grows(db, after)
    ensures Recorded(after)
  {
  }

  /** Submission instants that never go back, starting from the clock. */
  ghost predicate Timely(clock: int, commands: seq<Command>) {
    && (forall i :: 0 <= i < |commands| && commands[i].Submit? ==> clock <= commands[i].now)
    && (forall i, j :: 0 <= i < j < |commands| && commands[i].Submit? && commands[j].Submit? ==>
          commands[i].now <= commands[j].now)
  }

  lemma {:induction false} RunKeepsSeparate(clock: int, commands: seq<Command>) returns (reached: int)
    requires Timely(clock, commands) && forall c :: c in commands ==> PlainCommand(c)
    ensures Recorded(Run(EMPTY, commands)) && Separate(Run(EMPTY, commands).patches, reached)
    ensures clock <= reached
    ensures reached == clock || exists i :: 0 <= i < |commands| && commands[i].Submit? && commands[i].now == reached
  {
    hide Execute, Separate, Recorded, PlainCommand;
    if commands == [] {
      reached := clock;
      NothingStored(clock);
    } else {
      var init, c := commands[..|commands| - 1], commands[|commands| - 1];
      assert forall i :: 0 <= i < |init| ==> init[i] == commands[i];
      assert c in commands && forall x :: x in init ==> x in commands;
      var before := RunKeepsSeparate(clock, init);
      var db := Run(EMPTY, init);
      EveryRunIsConsistent(init);
      ExecuteKeeps(db, c);
      if c.Submit? && c.id !in db.decisions
         && SubmitDecision(db, c.id, c.provider, c.decision, c.now, c.code).Ok?
         && SubmitDecision(db, c.id, c.provider, c.decision, c.now, c.code).value.value.status.Accepted?
      {
        AcceptanceKeepsSeparate(db, before, c);
        reached := c.now;
      } else {
        PatchesOnlyByAcceptance(db, c);
        StillRecorded(db, Execute(db, c));
        reached := before;
      }
    }
  }

  lemma NothingStored(clock: int)
    ensures Recorded(EMPTY) && Separate(EMPTY.patches, clock)
  {
  }

  /** In every run whose patches never restore the default and whose submissions arrive in time order, the policy
      of every scope and arm can be resolved at every instant. */
  lemma PlainRunsAlwaysResolve(clock: int, commands: seq<Command>, scope: Scope, arm: Arm, at: int)
    requires Timely(clock, commands) && forall c :: c in commands ==> PlainCommand(c)
    ensures ResolvePolicy(Run(EMPTY, commands), scope, arm, at).Ok?
  {
    hide Run, ResolvePolicy, Separate;
    var reached := RunKeepsSeparate(clock, commands);
    SeparateResolves(Run(EMPTY, commands), reached, scope, arm, at);
  }

  // ---- a restore that expires early gives back a bucket that has been taken again

  /** Any allowed operation, a restore, and the same operation again: each patch compiles in its turn, but once the
      restore has expired before the other two the patches in force no longer compose. */
  lemma ExpiredRestoreConflicts(arm: Arm, op: Operation, restore: Operation, id: PatchId, t0: int, t1: int, t2: int, t3: int, end: int)
    requires !arm.OtherArm? && Allowed(arm, op) && !op.Restores() && Allowed(arm, restore) && restore.Restores()
    requires t0 <= t1 <= t2 < t3 < end
    ensures
      var first := Patch(id, arm, 0, t0, end, [op], t0);
      var lift := Patch(id, arm, 1, t1, t3, [restore], t1);
      var second := Patch(id, arm, 2, t2, end, [op], t2);
      && Compile(first, DefaultState(arm), t0).Ok?
      && Compile(lift, Compile(first, DefaultState(arm), t0).value, t1).Ok?
      && Compile(second, Compile(lift, Compile(first, DefaultState(arm), t0).value, t1).value, t2).Ok?
      && Compose(arm, [first, lift, second], 3, t2).Ok?
      && Compose(arm, [first, second], 3, t3) == Err(BucketTaken)
  {
    hide Allowed, Compose, ApplyAll;
    var first := Patch(id, arm, 0, t0, end, [op], t0);
    var lift := Patch(id, arm, 1, t1, t3, [restore], t1);
    var second := Patch(id, arm, 2, t2, end, [op], t2);
    assert [first] + [lift] == [first, lift] && [first, lift] + [second] == [first, lift, second];
    assert [first] + [second] == [first, second];
    var held := ApplyOperation(arm, NEUTRAL, op).value;
    ApplyOne(arm, NEUTRAL, op);
    ApplyOne(arm, held, restore);
    ApplyOne(arm, held, op);
    ComposeOne(arm, first, 3, t2);
    ComposeOne(arm, first, 3, t3);
    ComposeLast(arm, [first], lift, 3, t2);
    ComposeLast(arm, [first, lift], second, 3, t2);
    ComposeLast(arm, [first], second, 3, t3);
  }

  lemma ApplyOne(arm: Arm, e: Effects, op: Operation)
    ensures ApplyAll(arm, e, [op]) == ApplyOperation(arm, e, op)
  {
    assert [op][..0] == [];
  }

  lemma ComposeLast(arm: Arm, patches: seq<Patch>, p: Patch, version: int, now: int)
    requires Compose(arm, patches, version, now).Ok? && p.arm == arm && p.ActiveAt(now)
    ensures
      var applied := ApplyAll(arm, Compose(arm, patches, version, now).value.effects, p.operations);
      && (applied.Ok? ==>
            Compose(arm, patches + [p], version, now) == Ok(PolicyState(arm, version, applied.value, Some(p.id))))
      && (applied.Err? ==> Compose(arm, patches + [p], version, now) == Err(applied.error))
  {
    hide ApplyAll;
    assert (patches + [p])[..|patches|] == patches;
  }

  lemma ComposeOne(arm: Arm, p: Patch, version: int, now: int)
    requires p.arm == arm && p.ActiveAt(now)
    requires ApplyAll(arm, NEUTRAL, p.operations).Ok?
    ensures Compose(arm, [p], version, now)
         == Ok(PolicyState(arm, version, ApplyAll(arm, NEUTRAL, p.operations).value, Some(p.id)))
  {
    hide ApplyAll;
    assert [p][..0] == [];
  }
}
