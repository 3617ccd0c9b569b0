/** What replay promises over all streams: order independence, prefixes, point-in-time views, conservation. */
module OrderReplayLaws {
  import opened Identifiers
  import opened Orders
  import opened OrderReplay
  import opened Ordering
  import opened Results

  lemma ContiguousIsSeparated(s: seq<Event>)
    requires Contiguous(s)
    ensures Sorted(Earlier, s) && Separated(Earlier, s)
  {
  }

  lemma SortedArrangement(s: seq<Event>)
    ensures multiset(Sort(Earlier, s)) == multiset(s) && |Sort(Earlier, s)| == |s|
    ensures Sorted(Earlier, Sort(Earlier, s))
  {
    EarlierIsTotal();
    SortIsPermutation(Earlier, s);
    SortIsSorted(Earlier, s);
  }

  /** A contiguous arrangement of the same events is the one sorting finds. */
  lemma ContiguousIsTheSort(s: seq<Event>, t: seq<Event>)
    requires multiset(s) == multiset(t) && Contiguous(t)
    ensures Sort(Earlier, s) == t
  {
    SortedArrangement(s);
    ContiguousIsSeparated(t);
    SortedIsUnique(Earlier, t, Sort(Earlier, s));
  }

  lemma IdentityOfMultiset(s: seq<Event>, t: seq<Event>)
    requires multiset(s) == multiset(t) && DistinctIdentity(s)
    ensures DistinctIdentity(t)
  {
    DistinctByPermutes(IdOf, s, t);
    DistinctByPermutes(KeyOfEvent, s, t);
  }

  lemma OkMeansContiguous(order: Order, events: seq<Event>, asOf: Option<int>)
    requires Reduce(order, events, asOf).Ok?
    ensures
      var ordered := Sort(Earlier, Relevant(order, events, asOf));
      && ordered != [] && ordered[0].kind.Created? && Contiguous(ordered)
      && DistinctIdentity(Relevant(order, events, asOf))
      && multiset(ordered) == multiset(Relevant(order, events, asOf))
      && Fold(order, ordered).Ok?
      && Reduce(order, events, asOf) == ReplayOrdered(order, ordered)
  {
    SortedArrangement(Relevant(order, events, asOf));
  }

  /** The order's events, as far as they were available, arranged as an accepted stream. */
  ghost predicate IsStream(order: Order, events: seq<Event>, asOf: Option<int>, s: seq<Event>) {
    && multiset(s) == multiset(Relevant(order, events, asOf))
    && s != [] && s[0].kind == Created
    && (forall i :: 0 <= i < |s| ==> s[i].sequence == i + 1)
    && (forall i, j :: 0 <= i < j < |s| ==> s[i].id != s[j].id && s[i].key != s[j].key)
    && Consistent(order, s)
  }

  lemma RelevantAre(order: Order, events: seq<Event>, asOf: Option<int>, e: Event)
    ensures e in Relevant(order, events, asOf) <==>
      && e in events && e.orderId == order.id
      && match asOf case None => true case Some(instant) => e.availableAt <= instant
  {
  }

  /** Replay accepts exactly the books in which the order's events form a stream, and sums that stream up. */
  lemma ReplaysExactlyWhen(order: Order, events: seq<Event>, asOf: Option<int>)
    requires order.Valid()
    ensures Reduce(order, events, asOf).Ok? <==> exists s :: IsStream(order, events, asOf, s)
    ensures forall s: seq<Event> :: IsStream(order, events, asOf, s) ==>
      && s != []
      && Reduce(order, events, asOf) == Ok(Aggregate(
        s[|s| - 1].kind, order.quantity - QuantitySum(s), QuantitySum(s), CommissionSum(s), |s|, s[|s| - 1].id))
  {
    hide IsStream, Reduce;
    if Reduce(order, events, asOf).Ok? {
      AcceptedIsStream(order, events, asOf);
    }
    forall s: seq<Event> | IsStream(order, events, asOf, s)
      ensures s != [] && Reduce(order, events, asOf) == Ok(Aggregate(
        s[|s| - 1].kind, order.quantity - QuantitySum(s), QuantitySum(s), CommissionSum(s), |s|, s[|s| - 1].id))
    {
      StreamReplays(order, events, asOf, s);
    }
  }

  lemma AcceptedIsStream(order: Order, events: seq<Event>, asOf: Option<int>)
    requires order.Valid() && Reduce(order, events, asOf).Ok?
    ensures IsStream(order, events, asOf, Sort(Earlier, Relevant(order, events, asOf)))
  {
    hide Relevant, Fold, Reduce, EventAgrees, Consistent, DistinctIdentity;
    var ordered := Sort(Earlier, Relevant(order, events, asOf));
    OkMeansContiguous(order, events, asOf);
    FoldAcceptsExactly(order, ordered);
    IdentityOfMultiset(Relevant(order, events, asOf), ordered);
    SpelledIdentity(ordered);
  }

  lemma SpelledIdentity(s: seq<Event>)
    ensures DistinctIdentity(s) <==> forall i, j :: 0 <= i < j < |s| ==> s[i].id != s[j].id && s[i].key != s[j].key
  {
    assert forall i :: 0 <= i < |s| ==> IdOf(s[i]) == s[i].id && KeyOfEvent(s[i]) == s[i].key;
  }

  lemma StreamReplays(order: Order, events: seq<Event>, asOf: Option<int>, s: seq<Event>)
    requires order.Valid() && IsStream(order, events, asOf, s)
    ensures s != []
    ensures Reduce(order, events, asOf) == Ok(Aggregate(
      s[|s| - 1].kind, order.quantity - QuantitySum(s), QuantitySum(s), CommissionSum(s), |s|, s[|s| - 1].id))
  {
    hide Relevant, Fold, EventAgrees, DistinctIdentity;
    var relevant := Relevant(order, events, asOf);
    SpelledIdentity(s);
    IdentityOfMultiset(s, relevant);
    SameMultiset(s, relevant);
    ContiguousIsTheSort(relevant, s);
    FoldAcceptsExactly(order, s);
    FoldSums(order, s);
  }

  lemma ReductionOfPermutation(order: Order, events: seq<Event>, shuffled: seq<Event>, asOf: Option<int>)
    requires multiset(events) == multiset(shuffled)
    requires Reduce(order, events, asOf).Ok?
    ensures Reduce(order, shuffled, asOf) == Reduce(order, events, asOf)
  {
    var s, t := Relevant(order, events, asOf), Relevant(order, shuffled, asOf);
    FilterPermutes(Selects(order, asOf), events, shuffled);
    OkMeansContiguous(order, events, asOf);
    IdentityOfMultiset(s, t);
    ContiguousIsTheSort(t, Sort(Earlier, s));
    SameMultiset(s, t);
  }

  /** Replay depends only on the multiset of events: a permutation gives the same aggregate or is also rejected. */
  lemma ReplayIgnoresArrivalOrder(order: Order, events: seq<Event>, shuffled: seq<Event>, asOf: Option<int>)
    requires multiset(events) == multiset(shuffled)
    ensures Reduce(order, events, asOf).Ok? <==> Reduce(order, shuffled, asOf).Ok?
    ensures Reduce(order, events, asOf).Ok? ==> Reduce(order, shuffled, asOf) == Reduce(order, events, asOf)
  {
    hide Reduce;
    if Reduce(order, events, asOf).Ok? {
      ReductionOfPermutation(order, events, shuffled, asOf);
    } else if Reduce(order, shuffled, asOf).Ok? {
      ReductionOfPermutation(order, shuffled, events, asOf);
    }
  }

  lemma {:induction false} FoldOfPrefix(order: Order, s: seq<Event>, k: nat)
    requires k <= |s| && Fold(order, s).Ok?
    ensures Fold(order, s[..k]).Ok?
  {
    hide Step;
    if k == |s| {
      assert s[..k] == s;
    } else {
      FoldOfPrefix(order, s[..|s| - 1], k);
      assert s[..|s| - 1][..k] == s[..k];
    }
  }

  /** Every non-empty prefix of an accepted stream is accepted. */
  lemma PrefixIsAccepted(order: Order, s: seq<Event>, k: nat)
    requires ReplayOrdered(order, s).Ok? && 0 < k <= |s|
    ensures ReplayOrdered(order, s[..k]).Ok?
    ensures ReplayOrdered(order, s[..k]).value.sequence == k
  {
    FoldOfPrefix(order, s, k);
    hide Fold;
  }

  /** Instants at which the replay sees exactly the first k events of the stream. */
  ghost predicate SeesPrefix(s: seq<Event>, instant: int, k: nat) {
    k <= |s| && forall i :: 0 <= i < |s| ==> (s[i].availableAt <= instant <==> i < k)
  }

  lemma {:induction false} PrefixSeen(s: seq<Event>, instant: int) returns (k: nat)
    requires forall i, j :: 0 <= i < j < |s| ==> s[i].availableAt <= s[j].availableAt
    ensures SeesPrefix(s, instant, k)
  {
    if s == [] {
      k := 0;
    } else {
      k := PrefixSeen(s[..|s| - 1], instant);
      assert forall i :: 0 <= i < |s| - 1 ==> s[..|s| - 1][i] == s[i];
      if s[|s| - 1].availableAt <= instant {
        k := |s|;
      }
    }
  }

  function AvailableBy(instant: int): Event -> bool {
    (e: Event) => e.availableAt <= instant
  }

  lemma RelevantByInstant(order: Order, events: seq<Event>, instant: int)
    ensures Relevant(order, events, Some(instant)) == Filter(AvailableBy(instant), Relevant(order, events, None))
  {
    if events != [] {
      var init, last := events[..|events| - 1], events[|events| - 1];
      RelevantByInstant(order, init, instant);
      if last.orderId == order.id {
        FilterLast(AvailableBy(instant), Relevant(order, init, None), last);
      }
    }
  }

  /** Point-in-time replay: when availability follows the sequence, the view at an instant with at least one
      event available is the replay of a prefix, and it is accepted. */
  lemma ViewIsPrefix(order: Order, events: seq<Event>, instant: int) returns (k: nat)
    requires Reduce(order, events, None).Ok?
    requires
      var ordered := Sort(Earlier, Relevant(order, events, None));
      forall i, j :: 0 <= i < j < |ordered| ==> ordered[i].availableAt <= ordered[j].availableAt
    requires exists e :: e in Relevant(order, events, None) && e.availableAt <= instant
    ensures
      var ordered := Sort(Earlier, Relevant(order, events, None));
      && SeesPrefix(ordered, instant, k) && k > 0
      && Reduce(order, events, Some(instant)) == ReplayOrdered(order, ordered[..k])
      && Reduce(order, events, Some(instant)).Ok?
  {
    var s := Relevant(order, events, None);
    var ordered := Sort(Earlier, s);
    var view := Relevant(order, events, Some(instant));
    OkMeansContiguous(order, events, None);
    k := PrefixSeen(ordered, instant);
    RelevantByInstant(order, events, instant);
    FilterPermutes(AvailableBy(instant), s, ordered);
    FilterPrefix(AvailableBy(instant), ordered, k);
    assert multiset(view) == multiset(ordered[..k]);
    SameMultiset(view, ordered[..k]);
    SameMultiset(s, ordered);
    assert k > 0 by {
      var e :| e in s && e.availableAt <= instant;
      assert e in ordered;
    }
    DistinctByFilter(IdOf, AvailableBy(instant), s);
    DistinctByFilter(KeyOfEvent, AvailableBy(instant), s);
    ContiguousIsTheSort(view, ordered[..k]);
    PrefixIsAccepted(order, ordered, k);
    hide ReplayOrdered, DistinctIdentity, Relevant, Sort;
  }

  /** Conservation in every accepted book: remaining plus filled is the order quantity, nothing remains exactly
      when the status is FILLED, and so an order is pending exactly when it is not terminal. */
  lemma AggregateConserves(order: Order, events: seq<Event>, asOf: Option<int>)
    requires order.Valid() && Reduce(order, events, asOf).Ok?
    ensures
      var a := Reduce(order, events, asOf).value;
      && a.remaining + a.filled == order.quantity
      && 0.0 <= a.remaining <= order.quantity
      && (a.remaining == 0.0 <==> a.status.Filled?)
      && (a.Pending() <==> !a.status.Terminal())
      && a.sequence == |Relevant(order, events, asOf)|
      && a.filled == QuantitySum(Sort(Earlier, Relevant(order, events, asOf)))
      && a.commission == CommissionSum(Sort(Earlier, Relevant(order, events, asOf)))
  {
    OkMeansContiguous(order, events, asOf);
    var ordered := Sort(Earlier, Relevant(order, events, asOf));
    SameMultiset(ordered, Relevant(order, events, asOf));
    FoldSums(order, ordered);
    AcceptedIsConsistent(order, ordered, |ordered| - 1);
    assert ordered[..|ordered|] == ordered;
    QuantityNonNegative(order, ordered);
    hide Fold;
  }

  lemma {:induction false} QuantityNonNegative(order: Order, s: seq<Event>)
    requires Fold(order, s).Ok?
    ensures QuantitySum(s) >= 0.0
  {
    if s != [] {
      QuantityNonNegative(order, s[..|s| - 1]);
    }
  }
}
