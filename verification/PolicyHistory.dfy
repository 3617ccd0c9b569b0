/** Stored policy versions: contiguous, ordered in time, and always equal in effect to the patches in force. */
module PolicyHistory {
  import opened ControlPlane
  import opened Identifiers
  import opened Ordering
  import opened PolicyCompiler
  import opened Results

  /** Versions 1, 2, 3, ... in insertion order, created at instants that never go back. */
  ghost predicate Orderly(h: seq<VersionRow>) {
    && (forall i :: 0 <= i < |h| ==> h[i].state.version == i + 1)
    && (forall i, j :: 0 <= i < j < |h| ==> h[i].createdAt <= h[j].createdAt)
  }

  ghost predicate OrderlyVersions(db: Db) {
    forall scope, arm :: Orderly(History(db, scope, arm))
  }

  lemma {:induction false} NewestIsLast<T>(version: T -> int, rows: seq<T>)
    requires forall i :: 0 <= i < |rows| ==> version(rows[i]) == i + 1
    ensures Newest(version, rows) == if rows == [] then None else Some(rows[|rows| - 1])
  {
    if rows != [] {
      NewestIsLast(version, rows[..|rows| - 1]);
    }
  }

  lemma LatestIsLast(db: Db, scope: Scope, arm: Arm)
    requires Orderly(History(db, scope, arm))
    ensures LatestState(db, scope, arm).version == |History(db, scope, arm)|
    ensures LatestState(db, scope, arm).arm == arm
  {
    var h := History(db, scope, arm);
    NewestIsLast(RowVersion, h);
    if h != [] {
      assert h[|h| - 1] in h;
    }
  }

  /** The rows stored by an instant are a prefix of the history. */
  lemma {:induction false} StoredPrefix(h: seq<VersionRow>, at: int) returns (k: nat)
    requires forall i, j :: 0 <= i < j < |h| ==> h[i].createdAt <= h[j].createdAt
    ensures k <= |h| && Filter(StoredBy(at), h) == h[..k]
    ensures forall i :: 0 <= i < |h| ==> (h[i].createdAt <= at <==> i < k)
  {
    k := 0;
    while k < |h| && h[k].createdAt <= at
      invariant k <= |h| && forall i :: 0 <= i < k ==> h[i].createdAt <= at
    {
      k := k + 1;
    }
    FilterPrefix(StoredBy(at), h, k);
  }

  /** The stored state at an instant is the last of that prefix, or the default. */
  lemma StoredIsPrefixLast(db: Db, scope: Scope, arm: Arm, at: int) returns (k: nat)
    requires Orderly(History(db, scope, arm))
    ensures k <= |History(db, scope, arm)|
    ensures forall i :: 0 <= i < |History(db, scope, arm)| ==> (History(db, scope, arm)[i].createdAt <= at <==> i < k)
    ensures StoredState(db, scope, arm, at) ==
      if k == 0 then DefaultState(arm) else History(db, scope, arm)[k - 1].state
    ensures StoredState(db, scope, arm, at).version == k && StoredState(db, scope, arm, at).arm == arm
  {
    var h := History(db, scope, arm);
    k := StoredPrefix(h, at);
    NewestIsLast(RowVersion, h[..k]);
    if k > 0 {
      assert h[k - 1] in h;
    }
  }

  lemma HistoryWithRow(db: Db, row: VersionRow, scope: Scope, arm: Arm)
    ensures
      var after := db.(versions := db.versions + [row]);
      History(after, scope, arm) ==
        if row.scope == scope && row.state.arm == arm then History(db, scope, arm) + [row] else History(db, scope, arm)
  {
    FilterLast(Of(scope, arm), db.versions, row);
  }

  /** Appending the next version, at an instant not before the last, keeps every history orderly. */
  lemma AppendVersion(db: Db, row: VersionRow)
    requires OrderlyVersions(db)
    requires
      var h := History(db, row.scope, row.state.arm);
      row.state.version == |h| + 1 && (h != [] ==> h[|h| - 1].createdAt <= row.createdAt)
    ensures OrderlyVersions(db.(versions := db.versions + [row]))
  {
    hide History;
    var after := db.(versions := db.versions + [row]);
    forall scope, arm ensures Orderly(History(after, scope, arm)) {
      HistoryWithRow(db, row, scope, arm);
      assert Orderly(History(db, scope, arm));
    }
  }

  lemma ComposedArm(db: Db, scope: Scope, arm: Arm, at: int, version: int)
    requires Composed(db, scope, arm, at, version).Ok?
    ensures Composed(db, scope, arm, at, version).value.arm == arm
    ensures Composed(db, scope, arm, at, version).value.version == version
  {
    hide ActivePatches, ApplyAll;
  }

  // ---- resolving

  /** The tables a resolution may touch, and how. */
  lemma ResolveChangesOnlyVersions(db: Db, scope: Scope, arm: Arm, at: int)
    requires ResolvePolicy(db, scope, arm, at).Ok?
    ensures
      var after := ResolvePolicy(db, scope, arm, at).value.db;
      after == db.(versions := after.versions) && db.versions <= after.versions
  {
    hide Composed, LatestState, StoredState;
  }

  /** In force are exactly the patches of the scope and arm created, effective and unexpired at the instant; they
      come in creation order. */
  lemma ActiveAreExactly(db: Db, scope: Scope, arm: Arm, at: int)
    ensures var active := ActivePatches(db, scope, arm, at);
      && (forall p :: p in active <==>
            && p.arm == arm && p.createdAt <= at && p.effectiveFrom <= at < p.expiresAt
            && exists r :: r in db.patches && r.scope == scope && r.patch == p)
      && (forall i, j :: 0 <= i < j < |active| ==>
            active[i].createdAt < active[j].createdAt
            || (active[i].createdAt == active[j].createdAt && active[i].id.code <= active[j].id.code))
  {
    var rows := Filter(InForce(scope, arm, at), db.patches);
    var sorted, active := Sort(PatchBefore, rows), ActivePatches(db, scope, arm, at);
    SortIsPermutation(PatchBefore, rows);
    SortIsSorted(PatchBefore, rows);
    forall p
      ensures p in active <==>
        && p.arm == arm && p.createdAt <= at && p.effectiveFrom <= at < p.expiresAt
        && exists r :: r in db.patches && r.scope == scope && r.patch == p
    {
      if p in active {
        var i :| 0 <= i < |active| && active[i] == p;
        assert sorted[i] in rows;
      }
      if r :| r in db.patches && r.scope == scope && r.patch == p && p.arm == arm && p.createdAt <= at
              && p.effectiveFrom <= at < p.expiresAt {
        assert r in rows && r in sorted;
        var i :| 0 <= i < |sorted| && sorted[i] == r;
        assert active[i] == p;
      }
    }
    forall i, j | 0 <= i < j < |active| ensures PatchBefore(sorted[i], sorted[j]) {
    }
  }

  /** The state resolved at an instant has exactly the effects of composing the patches in force then: those of the
      operations still held, under the name of the last patch. */
  lemma ResolvedEffects(db: Db, scope: Scope, arm: Arm, at: int)
    requires ResolvePolicy(db, scope, arm, at).Ok?
    ensures
      var state := ResolvePolicy(db, scope, arm, at).value.value;
      && Composed(db, scope, arm, at, state.version).Ok?
      && SameEffects(state, Composed(db, scope, arm, at, state.version).value)
    ensures
      var state, active := ResolvePolicy(db, scope, arm, at).value.value, ActivePatches(db, scope, arm, at);
      && Describes(Flatten(active), |Flatten(active)|, state.effects)
      && state.source == (if active == [] then None else Some(active[|active| - 1].id))
      && state.arm == arm
  {
    hide ActivePatches, LatestState, StoredState, Compose, Describes, Flatten;
    var stored := StoredState(db, scope, arm, at);
    var state := ResolvePolicy(db, scope, arm, at).value.value;
    ComposedArm(db, scope, arm, at, stored.version);
    ComposeVersion(arm, ActivePatches(db, scope, arm, at), stored.version, state.version, at);
    ActiveAreExactly(db, scope, arm, at);
    ComposedEffects(arm, ActivePatches(db, scope, arm, at), state.version, at);
    ComposeSource(arm, ActivePatches(db, scope, arm, at), state.version, at);
  }

  /** Resolution keeps histories orderly, and what it appends is the new latest version. */
  lemma ResolveKeepsOrder(db: Db, scope: Scope, arm: Arm, at: int)
    requires OrderlyVersions(db) && ResolvePolicy(db, scope, arm, at).Ok?
    ensures
      var Step(after, state) := ResolvePolicy(db, scope, arm, at).value;
      && OrderlyVersions(after)
      && 0 <= state.version <= |History(after, scope, arm)| && state.arm == arm
      // a state at the end of the history was stored no later than the instant
      && (state.version == |History(after, scope, arm)| > 0 ==>
            History(after, scope, arm)[state.version - 1].createdAt <= at)
      // in the past of a later version nothing is appended
      && (LatestState(db, scope, arm).version > StoredState(db, scope, arm, at).version ==> after == db)
  {
    hide History, Composed, LatestState, StoredState;
    assert Orderly(History(db, scope, arm));
    LatestIsLast(db, scope, arm);
    var k := StoredIsPrefixLast(db, scope, arm, at);
    ComposedArm(db, scope, arm, at, k);
    var Step(after, state) := ResolvePolicy(db, scope, arm, at).value;
    if after != db {
      var row := VersionRow(scope, state, at);
      AppendVersion(db, row);
      HistoryWithRow(db, row, scope, arm);
    }
  }

  /**
   * Which version a resolution gives: of the k versions stored by the instant, the last when it has the effects in
   * force; otherwise the history is extended at its end, and left alone in the past of a later version.
   */
  lemma ResolvedVersion(db: Db, scope: Scope, arm: Arm, at: int) returns (k: nat)
    requires OrderlyVersions(db) && ResolvePolicy(db, scope, arm, at).Ok?
    ensures k <= |History(db, scope, arm)|
    ensures forall i :: 0 <= i < |History(db, scope, arm)| ==> (History(db, scope, arm)[i].createdAt <= at <==> i < k)
    ensures
      var Step(after, state) := ResolvePolicy(db, scope, arm, at).value;
      var h := History(db, scope, arm);
      var upToDate := if k == 0 then state.effects == NEUTRAL && state.source == None
                      else h[k - 1].state.effects == state.effects && h[k - 1].state.source == state.source;
      if upToDate || k < |h| then after == db && state.version == k
      else state.version == k + 1 && after == db.(versions := db.versions + [VersionRow(scope, state, at)])
  {
    hide History, Composed, LatestState, StoredState;
    assert Orderly(History(db, scope, arm));
    LatestIsLast(db, scope, arm);
    k := StoredIsPrefixLast(db, scope, arm, at);
    ComposedArm(db, scope, arm, at, k);
  }

  /** Resolving again at the same instant writes nothing and returns the same state. */
  lemma ResolveTwice(db: Db, scope: Scope, arm: Arm, at: int)
    requires OrderlyVersions(db) && ResolvePolicy(db, scope, arm, at).Ok?
    ensures
      var Step(after, state) := ResolvePolicy(db, scope, arm, at).value;
      ResolvePolicy(after, scope, arm, at) == Ok(Step(after, state))
  {
    hide History, ActivePatches, Compose, LatestState, StoredState;
    var Step(after, state) := ResolvePolicy(db, scope, arm, at).value;
    if after != db {
      ResolveChangesOnlyVersions(db, scope, arm, at);
      ResolveKeepsOrder(db, scope, arm, at);
      ResolvedEffects(db, scope, arm, at);
      assert Orderly(History(after, scope, arm)) && Orderly(History(db, scope, arm));
      LatestIsLast(db, scope, arm);
      var j := StoredIsPrefixLast(db, scope, arm, at);
      var row := VersionRow(scope, state, at);
      HistoryWithRow(db, row, scope, arm);
      var k := StoredIsPrefixLast(after, scope, arm, at);
      SamePatches(db, after, scope, arm, at);
    }
  }

  lemma SamePatches(db: Db, after: Db, scope: Scope, arm: Arm, at: int)
    requires db.patches == after.patches
    ensures ActivePatches(db, scope, arm, at) == ActivePatches(after, scope, arm, at)
  {
  }

  lemma {:induction false} ActiveAreInForce(db: Db, scope: Scope, arm: Arm, at: int)
    ensures forall p :: p in ActivePatches(db, scope, arm, at) ==>
      && p.arm == arm && p.ActiveAt(at) && p.createdAt <= at
      && exists r :: r in db.patches && r.patch == p
  {
    var rows := Filter(InForce(scope, arm, at), db.patches);
    SortIsPermutation(PatchBefore, rows);
    forall p | p in ActivePatches(db, scope, arm, at)
      ensures p.arm == arm && p.ActiveAt(at) && p.createdAt <= at && exists r :: r in db.patches && r.patch == p
    {
      var sorted := Sort(PatchBefore, rows);
      var i :| 0 <= i < |sorted| && sorted[i].patch == p;
      assert sorted[i] in rows;
    }
  }

  /** A resolution goes through exactly when the operations of the patches in force are allowed and free of conflict. */
  lemma ResolvesExactlyWhen(db: Db, scope: Scope, arm: Arm, at: int)
    ensures ResolvePolicy(db, scope, arm, at).Ok? <==>
      var ops := Flatten(ActivePatches(db, scope, arm, at));
      (forall i :: 0 <= i < |ops| ==> Allowed(arm, ops[i])) && ConflictFree(ops)
  {
    hide ActivePatches, LatestState, StoredState, Compose, Flatten, Allowed, ConflictFree;
    ActiveAreInForce(db, scope, arm, at);
    ComposesExactlyWhen(arm, ActivePatches(db, scope, arm, at), StoredState(db, scope, arm, at).version, at);
  }
}
