/** The double-entry journal of an arm, and the holdings it rebuilds. */
module Ledger {
  import opened Decimals
  import opened Identifiers
  import opened Ordering
  import opened Portfolio
  import opened Totals

  datatype Account = Cash | Security(symbol: Id) | Commission | Equity

  /** What a transaction's stable id is made of. */
  datatype TransactionId = OfFill(arm: Id, fill: Id) | OfCapital(arm: Id, amount: real)

  /** A posting's stable id is made of its transaction and its leg. */
  datatype Leg = AssetLeg | CashLeg | FeeLeg | EquityLeg

  datatype Posting = Posting(transaction: TransactionId, leg: Leg, account: Account, quantity: real, value: real)

  datatype Entry = Entry(id: TransactionId, effectiveAt: int, postings: seq<Posting>)

  function CapitalEntry(arm: Id, amount: real, effectiveAt: int): Entry {
    var id := OfCapital(arm, amount);
    Entry(id, effectiveAt, [
      Posting(id, CashLeg, Cash, amount, amount),
      Posting(id, EquityLeg, Equity, 0.0, -amount)])
  }

  function FillEntry(fill: Fill): Entry {
    var id := OfFill(fill.arm, fill.id);
    Entry(id, fill.effectiveAt, [
      Posting(id, AssetLeg, Security(fill.symbol), fill.Signed(),
        if fill.side.Buy? then fill.Notional() else -fill.Notional()),
      Posting(id, CashLeg, Cash, fill.CashFlow(), fill.CashFlow()),
      Posting(id, FeeLeg, Commission, 0.0, fill.commission)])
  }

  function FillEntries(fills: seq<Fill>): seq<Entry> {
    seq(|fills|, i requires 0 <= i < |fills| => FillEntry(fills[i]))
  }

  // ---- validation

  const Tolerance := 0.000001

  function Value(p: Posting): real { p.value }

  function Transaction(e: Entry): TransactionId { e.id }

  ghost predicate SameId(p: Posting, q: Posting) {
    p.transaction == q.transaction && p.leg == q.leg
  }

  /** Every posting id of the journal occurs once. */
  ghost predicate PostingsDistinct(entries: seq<Entry>) {
    forall i, a, j, b ::
      0 <= i < |entries| && 0 <= j < |entries|
      && 0 <= a < |entries[i].postings| && 0 <= b < |entries[j].postings|
      && SameId(entries[i].postings[a], entries[j].postings[b])
      ==> i == j && a == b
  }

  ghost predicate Balanced(entry: Entry) {
    Abs(Sum(Value, entry.postings)) <= Tolerance
  }

  /** What validation demands: no transaction or posting twice, and every entry balanced. */
  ghost predicate Consistent(entries: seq<Entry>) {
    && DistinctBy(Transaction, entries)
    && (forall i :: 0 <= i < |entries| ==> Balanced(entries[i]))
    && PostingsDistinct(entries)
  }

  /** An entry balances when its values sum to zero within a millionth. */
  lemma BalancedExactlyWhen(entry: Entry)
    ensures Balanced(entry) <==> -0.000001 <= Sum(Value, entry.postings) <= 0.000001
  {
  }

  // ---- holdings

  datatype Holdings = Holdings(cash: real, positions: Amounts)

  function Book(h: Holdings, p: Posting): Holdings {
    match p.account
    case Cash => h.(cash := h.cash + p.quantity)
    case Security(symbol) => h.(positions := h.positions[symbol := Get(h.positions, symbol) + p.quantity])
    case _ => h
  }

  function BookPostings(h: Holdings, postings: seq<Posting>): Holdings {
    if postings == [] then h
    else Book(BookPostings(h, postings[..|postings| - 1]), postings[|postings| - 1])
  }

  function BookEntries(h: Holdings, entries: seq<Entry>): Holdings {
    if entries == [] then h
    else BookPostings(BookEntries(h, entries[..|entries| - 1]), entries[|entries| - 1].postings)
  }

  /** The order of rebuilding: effective time, then transaction id; hash ranks the ids. */
  function EntryOrder(hash: TransactionId -> int): (Entry, Entry) -> bool {
    (a: Entry, b: Entry) =>
      a.effectiveAt < b.effectiveAt || (a.effectiveAt == b.effectiveAt && hash(a.id) <= hash(b.id))
  }

  function Rebuilt(hash: TransactionId -> int, entries: seq<Entry>): Holdings {
    BookEntries(Holdings(0.0, map[]), Sort(EntryOrder(hash), entries))
  }

  // ---- one entry at a time

  lemma BookTwo(h: Holdings, p: Posting, q: Posting)
    ensures BookPostings(h, [p, q]) == Book(Book(h, p), q)
  {
    assert [p, q][..1] == [p] && [p][..0] == [];
    assert BookPostings(h, [p]) == Book(h, p);
  }

  lemma BookThree(h: Holdings, p: Posting, q: Posting, r: Posting)
    ensures BookPostings(h, [p, q, r]) == Book(Book(Book(h, p), q), r)
  {
    assert [p, q, r][..2] == [p, q];
    BookTwo(h, p, q);
  }

  lemma ValueTwo(p: Posting, q: Posting)
    ensures Sum(Value, [p, q]) == p.value + q.value
  {
    assert [p, q][..1] == [p] && [p][..0] == [];
    assert Sum(Value, [p]) == p.value;
  }

  lemma ValueThree(p: Posting, q: Posting, r: Posting)
    ensures Sum(Value, [p, q, r]) == p.value + q.value + r.value
  {
    assert [p, q, r][..2] == [p, q];
    ValueTwo(p, q);
  }

  lemma CapitalBooks(h: Holdings, arm: Id, amount: real, at: int)
    ensures BookPostings(h, CapitalEntry(arm, amount, at).postings) == h.(cash := h.cash + amount)
    ensures Sum(Value, CapitalEntry(arm, amount, at).postings) == 0.0
  {
    var ps := CapitalEntry(arm, amount, at).postings;
    BookTwo(h, ps[0], ps[1]);
    ValueTwo(ps[0], ps[1]);
  }

  lemma FillBooks(h: Holdings, fill: Fill)
    ensures BookPostings(h, FillEntry(fill).postings) ==
      Holdings(
        h.cash + fill.CashFlow(),
        h.positions[fill.symbol := Get(h.positions, fill.symbol) + fill.Signed()])
    ensures Sum(Value, FillEntry(fill).postings) == 0.0
  {
    var ps := FillEntry(fill).postings;
    BookThree(h, ps[0], ps[1], ps[2]);
    ValueThree(ps[0], ps[1], ps[2]);
    hide Fill.Notional;
  }

  // ---- an arm's journal

  function Journal(arm: Id, capital: real, openedAt: int, fills: seq<Fill>): seq<Entry> {
    [CapitalEntry(arm, capital, openedAt)] + FillEntries(fills)
  }

  function CashOf(e: Entry): real { BookPostings(Holdings(0.0, map[]), e.postings).cash }

  function AssetOf(k: Id): Entry -> real {
    (e: Entry) => Get(BookPostings(Holdings(0.0, map[]), e.postings).positions, k)
  }

  ghost function AssetsOf(entries: seq<Entry>): set<Id> {
    set e, k | e in entries && k in BookPostings(Holdings(0.0, map[]), e.postings).positions :: k
  }

  lemma {:induction false} BookPostingsShift(h: Holdings, ps: seq<Posting>)
    ensures var own := BookPostings(Holdings(0.0, map[]), ps);
      && BookPostings(h, ps).cash == h.cash + own.cash
      && BookPostings(h, ps).positions.Keys == h.positions.Keys + own.positions.Keys
      && forall k :: Get(BookPostings(h, ps).positions, k) == Get(h.positions, k) + Get(own.positions, k)
  {
    if ps != [] {
      BookPostingsShift(h, ps[..|ps| - 1]);
    }
  }

  ghost predicate HoldsSum(before: Holdings, entries: seq<Entry>, after: Holdings) {
    && after.cash == before.cash + Sum(CashOf, entries)
    && after.positions.Keys == before.positions.Keys + AssetsOf(entries)
    && (forall k :: Get(after.positions, k) == Get(before.positions, k) + Sum(AssetOf(k), entries))
  }

  lemma {:induction false} BookEntriesIsSum(h: Holdings, entries: seq<Entry>)
    ensures HoldsSum(h, entries, BookEntries(h, entries))
  {
    hide BookPostings;
    if entries == [] {
      assert AssetsOf(entries) == {};
    } else {
      var init, last := entries[..|entries| - 1], entries[|entries| - 1];
      BookEntriesIsSum(h, init);
      HoldsSumStep(h, init, BookEntries(h, init), last);
      assert entries == init + [last];
    }
  }

  lemma HoldsSumStep(h: Holdings, init: seq<Entry>, mid: Holdings, last: Entry)
    requires HoldsSum(h, init, mid)
    ensures HoldsSum(h, init + [last], BookPostings(mid, last.postings))
  {
    hide Sum, BookPostings;
    BookPostingsShift(mid, last.postings);
    SumLast(CashOf, init, last);
    assert AssetsOf(init + [last]) == AssetsOf(init) + AssetsOf([last]);
    assert AssetsOf([last]) == BookPostings(Holdings(0.0, map[]), last.postings).positions.Keys;
    forall k
      ensures Get(BookPostings(mid, last.postings).positions, k)
           == Get(h.positions, k) + Sum(AssetOf(k), init + [last])
    {
      SumLast(AssetOf(k), init, last);
    }
  }

  /** Rebuilding does not depend on the order in which entries are booked. */
  lemma BookingIgnoresOrder(h: Holdings, s: seq<Entry>, t: seq<Entry>)
    requires multiset(s) == multiset(t)
    ensures BookEntries(h, s) == BookEntries(h, t)
  {
    hide Sum, BookEntries, BookPostings;
    var a, b := BookEntries(h, s), BookEntries(h, t);
    BookEntriesIsSum(h, s);
    BookEntriesIsSum(h, t);
    SameMultiset(s, t);
    SumPermutes(CashOf, s, t);
    assert AssetsOf(s) == AssetsOf(t);
    forall k ensures Get(a.positions, k) == Get(b.positions, k) {
      SumPermutes(AssetOf(k), s, t);
    }
    SamePositions(a.positions, b.positions);
  }

  /** Booking the journal in the order of the run follows the run's cash and positions. */
  lemma {:induction false} JournalFollowsRun(arm: Id, capital: real, openedAt: int, fills: seq<Fill>)
    requires ApplyAll(Opening(arm, capital), fills).Ok?
    ensures var state := ApplyAll(Opening(arm, capital), fills).value;
      BookEntries(Holdings(0.0, map[]), Journal(arm, capital, openedAt, fills)) == Holdings(state.cash, state.positions)
  {
    hide BookPostings;
    var none := Holdings(0.0, map[]);
    var journal := Journal(arm, capital, openedAt, fills);
    if fills == [] {
      assert journal[..0] == [];
      CapitalBooks(none, arm, capital, openedAt);
    } else {
      var init, last := fills[..|fills| - 1], fills[|fills| - 1];
      JournalFollowsRun(arm, capital, openedAt, init);
      assert journal[..|journal| - 1] == Journal(arm, capital, openedAt, init);
      assert journal[|journal| - 1] == FillEntry(last);
      FillBooks(BookEntries(none, Journal(arm, capital, openedAt, init)), last);
    }
  }

  /** Rebuilding the holdings of an accepted run gives its live cash and positions. */
  lemma JournalRebuildsRun(hash: TransactionId -> int, arm: Id, capital: real, openedAt: int, fills: seq<Fill>)
    requires ApplyAll(Opening(arm, capital), fills).Ok?
    ensures var state := ApplyAll(Opening(arm, capital), fills).value;
      Rebuilt(hash, Journal(arm, capital, openedAt, fills)) == Holdings(state.cash, state.positions)
  {
    hide BookEntries, ApplyAll, Journal;
    var journal := Journal(arm, capital, openedAt, fills);
    JournalFollowsRun(arm, capital, openedAt, fills);
    SortIsPermutation(EntryOrder(hash), journal);
    BookingIgnoresOrder(Holdings(0.0, map[]), Sort(EntryOrder(hash), journal), journal);
  }

  function FillId(f: Fill): Id { f.id }

  lemma JournalBalances(arm: Id, capital: real, openedAt: int, fills: seq<Fill>, i: nat)
    requires i <= |fills|
    ensures Balanced(Journal(arm, capital, openedAt, fills)[i])
  {
    hide Sum, BookPostings, FillEntry, CapitalEntry;
    if i == 0 {
      CapitalBooks(Holdings(0.0, map[]), arm, capital, openedAt);
    } else {
      FillBooks(Holdings(0.0, map[]), fills[i - 1]);
    }
  }

  /** A posting is named after its own entry, and the legs of an entry differ. */
  ghost predicate OwnLegs(entry: Entry) {
    && (forall a :: 0 <= a < |entry.postings| ==> entry.postings[a].transaction == entry.id)
    && (forall a, b :: 0 <= a < b < |entry.postings| ==> entry.postings[a].leg != entry.postings[b].leg)
  }

  lemma JournalLegs(arm: Id, capital: real, openedAt: int, fills: seq<Fill>, i: nat)
    requires i <= |fills|
    ensures OwnLegs(Journal(arm, capital, openedAt, fills)[i])
  {
  }

  lemma OwnPostings(entries: seq<Entry>)
    requires DistinctBy(Transaction, entries) && forall i :: 0 <= i < |entries| ==> OwnLegs(entries[i])
    ensures PostingsDistinct(entries)
  {
    forall i, a, j, b |
      0 <= i < |entries| && 0 <= j < |entries|
      && 0 <= a < |entries[i].postings| && 0 <= b < |entries[j].postings|
      && SameId(entries[i].postings[a], entries[j].postings[b])
      ensures i == j && a == b
    {
      assert OwnLegs(entries[i]) && OwnLegs(entries[j]);
      assert Transaction(entries[i]) == Transaction(entries[j]);
    }
  }

  lemma JournalIds(arm: Id, capital: real, openedAt: int, fills: seq<Fill>, i: nat)
    requires i <= |fills|
    ensures Transaction(Journal(arm, capital, openedAt, fills)[i])
         == if i == 0 then OfCapital(arm, capital) else OfFill(fills[i - 1].arm, fills[i - 1].id)
  {
  }

  lemma TransactionsDistinctExactlyWhen(arm: Id, capital: real, openedAt: int, fills: seq<Fill>)
    requires forall i :: 0 <= i < |fills| ==> fills[i].arm == arm
    ensures DistinctBy(Transaction, Journal(arm, capital, openedAt, fills)) <==> DistinctBy(FillId, fills)
  {
    var journal := Journal(arm, capital, openedAt, fills);
    assert |journal| == |fills| + 1;
    forall i | 0 <= i < |journal|
      ensures Transaction(journal[i]) == if i == 0 then OfCapital(arm, capital) else OfFill(arm, fills[i - 1].id)
    {
      JournalIds(arm, capital, openedAt, fills, i);
    }
    hide Journal, Transaction;
    if DistinctBy(FillId, fills) {
      forall i, j | 0 <= i < j < |journal| ensures Transaction(journal[i]) != Transaction(journal[j]) {
        if i > 0 {
          assert FillId(fills[i - 1]) != FillId(fills[j - 1]);
        }
      }
    } else {
      var i, j :| 0 <= i < j < |fills| && FillId(fills[i]) == FillId(fills[j]);
      assert Transaction(journal[i + 1]) == Transaction(journal[j + 1]);
    }
  }

  /** A journal passes validation exactly when no fill id occurs twice. */
  lemma JournalIsConsistentExactlyWhen(arm: Id, capital: real, openedAt: int, fills: seq<Fill>)
    requires forall i :: 0 <= i < |fills| ==> fills[i].arm == arm
    ensures Consistent(Journal(arm, capital, openedAt, fills)) <==> DistinctBy(FillId, fills)
  {
    var journal := Journal(arm, capital, openedAt, fills);
    assert |journal| == |fills| + 1;
    hide Balanced, OwnLegs, PostingsDistinct, Journal, DistinctBy;
    TransactionsDistinctExactlyWhen(arm, capital, openedAt, fills);
    forall i | 0 <= i < |journal| ensures Balanced(journal[i]) && OwnLegs(journal[i]) {
      JournalBalances(arm, capital, openedAt, fills, i);
      JournalLegs(arm, capital, openedAt, fills, i);
    }
    if DistinctBy(Transaction, journal) {
      OwnPostings(journal);
    }
  }
}
