/** Exactly when the patches of a scope and arm compose at every instant, as patches come into force and expire. */
module PolicySchedule {
  import opened ControlAcceptance
  import opened ControlPlane
  import opened ControlRuns
  import opened Ordering
  import opened PolicyCompiler
  import opened PolicyHistory
  import opened PolicyLiveness

  // ---- the patches of one scope and arm

  function Own(scope: Scope, arm: Arm): PatchRow -> bool {
    (r: PatchRow) => r.scope == scope && r.patch.arm == arm
  }

  function OwnRows(db: Db, scope: Scope, arm: Arm): seq<PatchRow> {
    Filter(Own(scope, arm), db.patches)
  }

  lemma {:induction false} InForceAmongOwn(rows: seq<PatchRow>, scope: Scope, arm: Arm, at: int)
    ensures Filter(InForce(scope, arm, at), Filter(Own(scope, arm), rows)) == Filter(InForce(scope, arm, at), rows)
  {
    if rows != [] {
      var init, last := rows[..|rows| - 1], rows[|rows| - 1];
      InForceAmongOwn(init, scope, arm, at);
      if Own(scope, arm)(last) {
        FilterLast(InForce(scope, arm, at), Filter(Own(scope, arm), init), last);
      }
    }
  }

  // ---- sorting and filtering commute

  lemma PatchBeforeIsTotal()
    ensures TotalPreorder(PatchBefore)
  {
  }

  lemma FilterHead<T(!new)>(p: T -> bool, x: T, s: seq<T>)
    ensures Filter(p, [x] + s) == if p(x) then [x] + Filter(p, s) else Filter(p, s)
  {
    FilterConcat(p, [x], s);
    assert [x][..0] == [];
  }

  lemma {:induction false} FilterInsert<T(!new)>(le: (T, T) -> bool, p: T -> bool, x: T, s: seq<T>)
    requires TotalPreorder(le) && Sorted(le, s)
    ensures Filter(p, Insert(le, x, s)) == if p(x) then Insert(le, x, Filter(p, s)) else Filter(p, s)
  {
    hide Filter;
    if s == [] || le(x, s[0]) {
      FilterHead(p, x, s);
      if p(x) {
        FilteredStaysAbove(le, p, x, s);
      }
    } else {
      var head, tail := s[0], s[1..];
      assert s == [head] + tail;
      FilterInsert(le, p, x, tail);
      FilterHead(p, head, Insert(le, x, tail));
      FilterHead(p, head, tail);
    }
  }

  lemma FilteredStaysAbove<T(!new)>(le: (T, T) -> bool, p: T -> bool, x: T, s: seq<T>)
    requires TotalPreorder(le) && Sorted(le, s) && (s == [] || le(x, s[0]))
    ensures Insert(le, x, Filter(p, s)) == [x] + Filter(p, s)
  {
    var f := Filter(p, s);
    if f != [] {
      assert f[0] in f && f[0] in s;
      var i :| 0 <= i < |s| && s[i] == f[0];
      assert i > 0 ==> le(s[0], s[i]);
    }
  }

  lemma {:induction false} SortFilter<T(!new)>(le: (T, T) -> bool, p: T -> bool, s: seq<T>)
    requires TotalPreorder(le)
    ensures Sort(le, Filter(p, s)) == Filter(p, Sort(le, s))
  {
    hide Filter;
    if s == [] {
      FilterNone(p, s);
    } else {
      var head, tail := s[0], s[1..];
      assert s == [head] + tail;
      SortFilter(le, p, tail);
      SortIsSorted(le, tail);
      FilterHead(p, head, tail);
      FilterInsert(le, p, head, Sort(le, tail));
    }
  }

  // ---- operations with the time they are in force

  datatype Term = Term(op: Operation, from: int, until: int)

  function TermsOf(r: PatchRow): (s: seq<Term>)
    ensures |s| == |r.patch.operations|
    ensures forall i :: 0 <= i < |s| ==> s[i] == Term(r.patch.operations[i], r.patch.createdAt, r.patch.expiresAt)
  {
    seq(|r.patch.operations|, i requires 0 <= i < |r.patch.operations| =>
      Term(r.patch.operations[i], r.patch.createdAt, r.patch.expiresAt))
  }

  function Terms(rows: seq<PatchRow>): seq<Term> {
    if rows == [] then [] else Terms(rows[..|rows| - 1]) + TermsOf(rows[|rows| - 1])
  }

  function Live(at: int): Term -> bool {
    (t: Term) => t.from <= at < t.until
  }

  function OpsOf(terms: seq<Term>): (s: seq<Operation>)
    ensures |s| == |terms| && forall i :: 0 <= i < |s| ==> s[i] == terms[i].op
  {
    seq(|terms|, i requires 0 <= i < |terms| => terms[i].op)
  }

  /** A patch as acceptance makes them: effective by its creation, not expired then, of allowed operations. */
  ghost predicate Made(r: PatchRow) {
    && r.patch.effectiveFrom <= r.patch.createdAt < r.patch.expiresAt
    && forall i :: 0 <= i < |r.patch.operations| ==> Allowed(r.patch.arm, r.patch.operations[i])
  }

  lemma LiveTermsOf(r: PatchRow, at: int)
    ensures Filter(Live(at), TermsOf(r)) == if r.patch.createdAt <= at < r.patch.expiresAt then TermsOf(r) else []
  {
    if r.patch.createdAt <= at < r.patch.expiresAt {
      FilterAll(Live(at), TermsOf(r));
    } else {
      FilterNone(Live(at), TermsOf(r));
    }
  }

  /** The operations of the patches in force are the live terms, in order. */
  lemma {:induction false} LiveOperations(rows: seq<PatchRow>, scope: Scope, arm: Arm, at: int)
    requires forall i :: 0 <= i < |rows| ==> Own(scope, arm)(rows[i]) && Made(rows[i])
    ensures Flatten(PatchesOf(Filter(InForce(scope, arm, at), rows))) == OpsOf(Filter(Live(at), Terms(rows)))
  {
    hide Filter, Allowed;
    var p := InForce(scope, arm, at);
    if rows == [] {
      FilterNone(p, rows);
      FilterNone(Live(at), Terms(rows));
    } else {
      var init, last := rows[..|rows| - 1], rows[|rows| - 1];
      assert rows == init + [last];
      LiveOperations(init, scope, arm, at);
      FilterLast(p, init, last);
      FilterConcat(Live(at), Terms(init), TermsOf(last));
      LiveTermsOf(last, at);
      OpsConcat(Filter(Live(at), Terms(init)), TermsOf(last));
      OpsConcat(Filter(Live(at), Terms(init)), []);
      FlattenAppend(Filter(p, init), last);
      OpsOfTerms(last);
    }
  }

  lemma OpsConcat(a: seq<Term>, b: seq<Term>)
    ensures OpsOf(a + b) == OpsOf(a) + OpsOf(b)
    ensures b == [] ==> OpsOf(a + b) == OpsOf(a)
  {
  }

  lemma OpsOfTerms(r: PatchRow)
    ensures OpsOf(TermsOf(r)) == r.patch.operations
  {
  }

  lemma FlattenAppend(rows: seq<PatchRow>, r: PatchRow)
    ensures Flatten(PatchesOf(rows + [r])) == Flatten(PatchesOf(rows)) + r.patch.operations
  {
    var all := PatchesOf(rows + [r]);
    assert all[..|rows|] == PatchesOf(rows);
  }

  // ---- conflicts among the live terms

  /** Of two live operations on one bucket, the later comes after a live restore. */
  ghost predicate Guarded(p: Term -> bool, terms: seq<Term>) {
    forall i, j :: 0 <= i < j < |terms| && Contend(p, terms, i, j) ==> RestoredBetween(p, terms, i, j)
  }

  ghost predicate Contend(p: Term -> bool, terms: seq<Term>, i: nat, j: nat)
    requires i < |terms| && j < |terms|
  {
    && p(terms[i]) && p(terms[j])
    && !terms[i].op.Restores() && !terms[j].op.Restores()
    && terms[i].op.bucket == terms[j].op.bucket
  }

  ghost predicate RestoredBetween(p: Term -> bool, terms: seq<Term>, i: int, j: int) {
    exists k :: 0 <= k < |terms| && i < k < j && p(terms[k]) && terms[k].op.Restores()
  }

  /** A live operation holds the bucket at the end of the list. */
  ghost predicate HeldAtEnd(p: Term -> bool, terms: seq<Term>, b: Bucket) {
    exists i :: 0 <= i < |terms| && p(terms[i]) && !terms[i].op.Restores() && terms[i].op.bucket == b
      && !RestoredBetween(p, terms, i, |terms|)
  }

  lemma RestoredInPrefix(p: Term -> bool, terms: seq<Term>, i: int, j: int)
    requires terms != [] && j <= |terms| - 1
    ensures RestoredBetween(p, terms[..|terms| - 1], i, j) <==> RestoredBetween(p, terms, i, j)
  {
    var init := terms[..|terms| - 1];
    if RestoredBetween(p, terms, i, j) {
      var k :| 0 <= k < |terms| && i < k < j && p(terms[k]) && terms[k].op.Restores();
      assert init[k] == terms[k];
    }
    if RestoredBetween(p, init, i, j) {
      var k :| 0 <= k < |init| && i < k < j && p(init[k]) && init[k].op.Restores();
      assert terms[k] == init[k];
    }
  }

  lemma RestoredAtLast(p: Term -> bool, terms: seq<Term>, i: int)
    requires terms != [] && i < |terms| - 1
    ensures RestoredBetween(p, terms, i, |terms|) <==>
      || RestoredBetween(p, terms, i, |terms| - 1)
      || (p(terms[|terms| - 1]) && terms[|terms| - 1].op.Restores())
  {
  }

  lemma HeldStep(p: Term -> bool, terms: seq<Term>, b: Bucket)
    requires terms != []
    ensures var init, last := terms[..|terms| - 1], terms[|terms| - 1];
      HeldAtEnd(p, terms, b) <==>
        if !p(last) then HeldAtEnd(p, init, b)
        else !last.op.Restores() && (last.op.bucket == b || HeldAtEnd(p, init, b))
  {
    hide RestoredBetween;
    var n := |terms| - 1;
    var init, last := terms[..n], terms[n];
    forall i | 0 <= i < n
      ensures RestoredBetween(p, init, i, n) <==> RestoredBetween(p, terms, i, n)
      ensures RestoredBetween(p, terms, i, |terms|) <==> RestoredBetween(p, terms, i, n) || (p(last) && last.op.Restores())
      ensures init[i] == terms[i]
    {
      RestoredInPrefix(p, terms, i, n);
      RestoredAtLast(p, terms, i);
    }
    NothingAfterLast(p, terms);
    if HeldAtEnd(p, init, b) && (!p(last) || !last.op.Restores()) {
      var i :| 0 <= i < n && p(init[i]) && !init[i].op.Restores() && init[i].op.bucket == b && !RestoredBetween(p, init, i, n);
      assert p(terms[i]) && !RestoredBetween(p, terms, i, |terms|);
    }
    if HeldAtEnd(p, terms, b) {
      var i :| 0 <= i < |terms| && p(terms[i]) && !terms[i].op.Restores() && terms[i].op.bucket == b
        && !RestoredBetween(p, terms, i, |terms|);
      if i < n {
        assert p(init[i]) && !RestoredBetween(p, init, i, n);
      }
    }
  }

  lemma NothingAfterLast(p: Term -> bool, terms: seq<Term>)
    requires terms != []
    ensures !RestoredBetween(p, terms, |terms| - 1, |terms|)
  {
  }

  ghost predicate HeldBy(ops: seq<Operation>, b: Bucket) {
    exists i :: Holds(ops, i, |ops|) && ops[i].bucket == b
  }

  lemma HeldByLast(ops: seq<Operation>, op: Operation, b: Bucket)
    ensures HeldBy(ops + [op], b) <==> !op.Restores() && (op.bucket == b || HeldBy(ops, b))
  {
    var all, m := ops + [op], |ops|;
    HoldsNext(all, m, b);
    assert all[..m] == ops;
    forall i ensures Holds(all, i, m) <==> Holds(ops, i, m) {
      HoldsInPrefix(all, i, m, m);
    }
    assert (exists i :: Holds(all, i, m) && all[i].bucket == b) <==> HeldBy(ops, b) by {
      if i :| Holds(all, i, m) && all[i].bucket == b {
        assert Holds(ops, i, m) && ops[i].bucket == b;
      }
      if i :| Holds(ops, i, m) && ops[i].bucket == b {
        assert Holds(all, i, m) && all[i].bucket == b;
      }
    }
  }

  lemma FilterTerms(p: Term -> bool, terms: seq<Term>)
    requires terms != []
    ensures var init, last := terms[..|terms| - 1], terms[|terms| - 1];
      OpsOf(Filter(p, terms)) == if p(last) then OpsOf(Filter(p, init)) + [last.op] else OpsOf(Filter(p, init))
  {
  }

  lemma {:induction false} HeldFiltered(p: Term -> bool, terms: seq<Term>, b: Bucket)
    ensures HeldBy(OpsOf(Filter(p, terms)), b) <==> HeldAtEnd(p, terms, b)
  {
    if terms != [] {
      var init, last := terms[..|terms| - 1], terms[|terms| - 1];
      HeldFiltered(p, init, b);
      FilterTerms(p, terms);
      HeldStep(p, terms, b);
      hide HeldBy, HeldAtEnd, Filter;
      if p(last) {
        HeldByLast(OpsOf(Filter(p, init)), last.op, b);
      }
    }
  }

  lemma ConflictFreeLast(ops: seq<Operation>, op: Operation)
    ensures ConflictFree(ops + [op]) <==> ConflictFree(ops) && (op.Restores() || !HeldBy(ops, op.bucket))
  {
    var all, n := ops + [op], |ops|;
    ConflictFreePrefix(all, n);
    assert all[..n + 1] == all && all[..n] == ops;
    forall i ensures Holds(all, i, n) <==> Holds(ops, i, n) {
      HoldsInPrefix(all, i, n, n);
    }
    hide ConflictFree;
    if HeldBy(ops, op.bucket) {
      var i :| Holds(ops, i, n) && ops[i].bucket == op.bucket;
      assert Holds(all, i, n) && all[i].bucket == op.bucket;
    } else {
      forall i | Holds(all, i, n) ensures all[i].bucket != op.bucket {
        assert Holds(ops, i, n);
      }
    }
  }

  lemma GuardedStep(p: Term -> bool, terms: seq<Term>)
    requires terms != []
    ensures var init, last := terms[..|terms| - 1], terms[|terms| - 1];
      Guarded(p, terms) <==>
        Guarded(p, init) && (p(last) && !last.op.Restores() ==> !HeldAtEnd(p, init, last.op.bucket))
  {
    hide RestoredBetween;
    var n := |terms| - 1;
    var init, last := terms[..n], terms[n];
    forall i, j | 0 <= i < j <= n
      ensures RestoredBetween(p, init, i, j) <==> RestoredBetween(p, terms, i, j)
    {
      RestoredInPrefix(p, terms, i, j);
    }
    forall i, j | 0 <= i < j < n ensures Contend(p, init, i, j) <==> Contend(p, terms, i, j) {
    }
    if Guarded(p, terms) {
      forall i, j | 0 <= i < j < |init| && Contend(p, init, i, j) ensures RestoredBetween(p, init, i, j) {
        assert Contend(p, terms, i, j);
      }
      forall i | 0 <= i < n && Contend(p, terms, i, n) ensures RestoredBetween(p, init, i, n) {
        assert RestoredBetween(p, terms, i, n);
      }
    }
    if Guarded(p, init) && (p(last) && !last.op.Restores() ==> !HeldAtEnd(p, init, last.op.bucket)) {
      forall i, j | 0 <= i < j < |terms| && Contend(p, terms, i, j) ensures RestoredBetween(p, terms, i, j) {
        if j < n {
          assert Contend(p, init, i, j);
        } else {
          assert init[i] == terms[i];
        }
      }
    }
  }

  /** The live operations are free of conflict exactly when every contending pair is guarded. */
  lemma {:induction false} ConflictFreeExactlyWhen(p: Term -> bool, terms: seq<Term>)
    ensures ConflictFree(OpsOf(Filter(p, terms))) <==> Guarded(p, terms)
  {
    if terms == [] {
      NoConflictInNothing();
    } else {
      var init, last := terms[..|terms| - 1], terms[|terms| - 1];
      ConflictFreeExactlyWhen(p, init);
      FilterTerms(p, terms);
      GuardedStep(p, terms);
      hide ConflictFree, Guarded, HeldAtEnd, Filter, HeldBy;
      if p(last) {
        ConflictFreeLast(OpsOf(Filter(p, init)), last.op);
        HeldFiltered(p, init, last.op.bucket);
      }
    }
  }

  // ---- all instants at once

  /** Terms in creation order, each in force for some time. */
  ghost predicate Scheduled(terms: seq<Term>) {
    && (forall i :: 0 <= i < |terms| ==> terms[i].from < terms[i].until)
    && (forall i, j :: 0 <= i < j < |terms| ==> terms[i].from <= terms[j].from)
  }

  function Earlier(a: int, b: int): int { if a <= b then a else b }

  /** Two operations on one bucket whose patches are in force together. */
  ghost predicate Coexisting(terms: seq<Term>, i: nat, j: nat)
    requires i < |terms| && j < |terms|
  {
    && !terms[i].op.Restores() && !terms[j].op.Restores()
    && terms[i].op.bucket == terms[j].op.bucket
    && terms[j].from < terms[i].until
  }

  /** Some restore between the two outlives the earlier of their expiries. */
  ghost predicate Outlived(terms: seq<Term>, i: nat, j: nat)
    requires i < |terms| && j < |terms|
  {
    exists k :: i < k < j && terms[k].op.Restores() && terms[k].until >= Earlier(terms[i].until, terms[j].until)
  }

  ghost predicate Spaced(terms: seq<Term>) {
    forall i, j :: 0 <= i < j < |terms| && Coexisting(terms, i, j) ==> Outlived(terms, i, j)
  }

  lemma SpacedIsGuarded(terms: seq<Term>, at: int)
    requires Scheduled(terms) && Spaced(terms)
    ensures Guarded(Live(at), terms)
  {
    forall i, j | 0 <= i < j < |terms| && Contend(Live(at), terms, i, j) ensures RestoredBetween(Live(at), terms, i, j) {
      assert Coexisting(terms, i, j);
      var k :| i < k < j && terms[k].op.Restores() && terms[k].until >= Earlier(terms[i].until, terms[j].until);
      assert terms[k].from <= terms[j].from;
      assert Live(at)(terms[k]);
    }
  }

  /** Just before the earlier expiry, only a restore that outlives it is still in force. */
  lemma GuardedIsSpaced(terms: seq<Term>, i: nat, j: nat)
    requires Scheduled(terms) && i < j < |terms| && Coexisting(terms, i, j)
    requires Guarded(Live(Earlier(terms[i].until, terms[j].until) - 1), terms)
    ensures Outlived(terms, i, j)
  {
    var at := Earlier(terms[i].until, terms[j].until) - 1;
    assert terms[i].from <= terms[j].from;
    assert Contend(Live(at), terms, i, j);
    var k :| 0 <= k < |terms| && i < k < j && Live(at)(terms[k]) && terms[k].op.Restores();
  }

  lemma GuardedAlwaysExactlyWhen(terms: seq<Term>)
    requires Scheduled(terms)
    ensures (forall at :: Guarded(Live(at), terms)) <==> Spaced(terms)
  {
    if Spaced(terms) {
      forall at ensures Guarded(Live(at), terms) {
        SpacedIsGuarded(terms, at);
      }
    }
    if forall at :: Guarded(Live(at), terms) {
      forall i, j | 0 <= i < j < |terms| && Coexisting(terms, i, j) ensures Outlived(terms, i, j) {
        GuardedIsSpaced(terms, i, j);
      }
    }
  }

  // ---- the terms of a run

  /** The operations of every patch ever accepted for the scope and arm, in creation order. */
  function Schedule(db: Db, scope: Scope, arm: Arm): seq<Term> {
    Terms(Sort(PatchBefore, OwnRows(db, scope, arm)))
  }

  ghost predicate AllMade(rows: seq<PatchRow>) {
    forall r :: r in rows ==> Made(r)
  }

  lemma OwnSorted(db: Db, scope: Scope, arm: Arm)
    requires AllMade(db.patches)
    ensures var rows := Sort(PatchBefore, OwnRows(db, scope, arm));
      && Sorted(PatchBefore, rows)
      && (forall i :: 0 <= i < |rows| ==> Own(scope, arm)(rows[i]) && Made(rows[i]))
  {
    hide Made;
    PatchBeforeIsTotal();
    SortIsSorted(PatchBefore, OwnRows(db, scope, arm));
    SortIsPermutation(PatchBefore, OwnRows(db, scope, arm));
    var rows := Sort(PatchBefore, OwnRows(db, scope, arm));
    forall i | 0 <= i < |rows| ensures Own(scope, arm)(rows[i]) && Made(rows[i]) {
      assert rows[i] in OwnRows(db, scope, arm);
    }
  }

  lemma ActiveIsLive(db: Db, scope: Scope, arm: Arm, at: int)
    requires AllMade(db.patches)
    ensures Flatten(ActivePatches(db, scope, arm, at)) == OpsOf(Filter(Live(at), Schedule(db, scope, arm)))
  {
    hide Filter, Made, Sort, Flatten, Sorted;
    var own := OwnRows(db, scope, arm);
    InForceAmongOwn(db.patches, scope, arm, at);
    PatchBeforeIsTotal();
    SortFilter(PatchBefore, InForce(scope, arm, at), own);
    OwnSorted(db, scope, arm);
    LiveOperations(Sort(PatchBefore, own), scope, arm, at);
  }

  ghost predicate TermsMade(terms: seq<Term>, arm: Arm) {
    Scheduled(terms) && forall i :: 0 <= i < |terms| ==> Allowed(arm, terms[i].op)
  }

  lemma {:induction false} TermsStartBy(rows: seq<PatchRow>, t: int)
    requires forall i :: 0 <= i < |rows| ==> rows[i].patch.createdAt <= t
    ensures forall i :: 0 <= i < |Terms(rows)| ==> Terms(rows)[i].from <= t
  {
    if rows != [] {
      TermsStartBy(rows[..|rows| - 1], t);
    }
  }

  lemma TermsWithRow(terms: seq<Term>, arm: Arm, r: PatchRow)
    requires TermsMade(terms, arm) && Made(r) && r.patch.arm == arm
    requires forall i :: 0 <= i < |terms| ==> terms[i].from <= r.patch.createdAt
    ensures TermsMade(terms + TermsOf(r), arm)
  {
    hide Allowed;
  }

  lemma {:induction false} TermsAreMade(rows: seq<PatchRow>, scope: Scope, arm: Arm)
    requires Sorted(PatchBefore, rows)
    requires forall i :: 0 <= i < |rows| ==> Own(scope, arm)(rows[i]) && Made(rows[i])
    ensures TermsMade(Terms(rows), arm)
  {
    hide Made, TermsMade;
    if rows == [] {
      assert TermsMade([], arm) by { NoTerms(arm); }
    } else {
      var n := |rows| - 1;
      var init := rows[..n];
      forall k | 0 <= k < n ensures init[k].patch.createdAt <= rows[n].patch.createdAt {
        assert PatchBefore(rows[k], rows[n]);
      }
      TermsAreMade(init, scope, arm);
      TermsStartBy(init, rows[n].patch.createdAt);
      TermsWithRow(Terms(init), arm, rows[n]);
    }
  }

  lemma NoTerms(arm: Arm)
    ensures TermsMade([], arm)
  {
  }

  lemma LiveAreAllowed(terms: seq<Term>, arm: Arm, at: int)
    requires TermsMade(terms, arm)
    ensures forall i :: 0 <= i < |OpsOf(Filter(Live(at), terms))| ==> Allowed(arm, OpsOf(Filter(Live(at), terms))[i])
  {
    hide Allowed;
    var live := Filter(Live(at), terms);
    forall i | 0 <= i < |OpsOf(live)| ensures Allowed(arm, OpsOf(live)[i]) {
      assert live[i] in live && live[i] in terms;
    }
  }

  /** At one instant: the policy resolves exactly when the live operations are guarded. */
  lemma ResolvesAtExactlyWhen(db: Db, scope: Scope, arm: Arm, at: int)
    requires AllMade(db.patches)
    ensures ResolvePolicy(db, scope, arm, at).Ok? <==> Guarded(Live(at), Schedule(db, scope, arm))
  {
    hide ResolvePolicy, ActivePatches, Flatten, ConflictFree, Guarded, Terms, Sort, Filter, Allowed, Made, Sorted;
    var terms := Schedule(db, scope, arm);
    ActiveIsLive(db, scope, arm, at);
    OwnSorted(db, scope, arm);
    TermsAreMade(Sort(PatchBefore, OwnRows(db, scope, arm)), scope, arm);
    LiveAreAllowed(terms, arm, at);
    ConflictFreeExactlyWhen(Live(at), terms);
    ResolvesExactlyWhen(db, scope, arm, at);
  }

  // ---- every run makes its patches so

  lemma AcceptanceMakes(db: Db, c: Command)
    requires Consistent(db) && AllMade(db.patches) && c.Submit? && c.id !in db.decisions
    requires AcceptedBy(SubmitDecision(db, c.id, c.provider, c.decision, c.now, c.code))
    ensures AllMade(Execute(db, c).patches)
    ensures exists r :: Execute(db, c).patches == db.patches + [r] && r.scope == c.id.scope && r.patch.arm == c.id.policy.arm
  {
    hide Consistent, ResolvePolicy, ApplyDecision, SubmitDecision, Compile, ActivePatches, Flatten, Allowed, ConflictFree,
      UnderCurrentSelection, OnNewestVersion, BindingError;
    var id, now := c.id, c.now;
    AcceptedExactlyWhen(db, id, c.provider, c.decision, now, c.code);
    AcceptedPath(db, id, c.provider, c.decision, now, c.code);
    AppliedPath(db, id, DecisionRow(c.provider, now, c.decision), c.code);
    ResolveChangesOnlyVersions(db, id.scope, id.policy.arm, now);
    var patch := PatchFor(id, c.decision.body, c.decision, c.code, now);
    var live := Flatten(ActivePatches(db, id.scope, id.policy.arm, now));
    var ops := live + c.decision.body.operations;
    forall i | 0 <= i < |patch.operations| ensures Allowed(patch.arm, patch.operations[i]) {
      assert ops[|live| + i] == patch.operations[i];
    }
    assert Execute(db, c).patches == db.patches + [PatchRow(id.scope, patch)];
  }

  lemma {:induction false} RunMakes(commands: seq<Command>)
    ensures AllMade(Run(EMPTY, commands).patches)
  {
    hide Execute, Made, SubmitDecision;
    if commands != [] {
      var init, c := commands[..|commands| - 1], commands[|commands| - 1];
      RunMakes(init);
      EveryRunIsConsistent(init);
      var db := Run(EMPTY, init);
      if c.Submit? && c.id !in db.decisions && AcceptedBy(SubmitDecision(db, c.id, c.provider, c.decision, c.now, c.code)) {
        AcceptanceMakes(db, c);
      } else {
        PatchesOnlyByAcceptance(db, c);
      }
    }
  }

  /**
   * After every run, the policy of a scope and arm resolves at every instant if and only if, of every two
   * operations on one bucket whose patches are in force together, some restore between them outlives the
   * earlier of their expiries.
   */
  lemma ResolvesAlwaysExactlyWhen(commands: seq<Command>, scope: Scope, arm: Arm)
    ensures (forall at :: ResolvePolicy(Run(EMPTY, commands), scope, arm, at).Ok?) <==>
      Spaced(Schedule(Run(EMPTY, commands), scope, arm))
  {
    hide Run, ResolvePolicy, Schedule, Guarded, Spaced, Made;
    var db := Run(EMPTY, commands);
    RunMakes(commands);
    ScheduleIsMade(db, scope, arm);
    GuardedAlwaysExactlyWhen(Schedule(db, scope, arm));
    forall at ensures ResolvePolicy(db, scope, arm, at).Ok? <==> Guarded(Live(at), Schedule(db, scope, arm)) {
      ResolvesAtExactlyWhen(db, scope, arm, at);
    }
  }

  lemma ScheduleIsMade(db: Db, scope: Scope, arm: Arm)
    requires AllMade(db.patches)
    ensures Scheduled(Schedule(db, scope, arm))
  {
    hide Made, Sort, Filter, Sorted, Terms;
    OwnSorted(db, scope, arm);
    TermsAreMade(Sort(PatchBefore, OwnRows(db, scope, arm)), scope, arm);
  }
}
