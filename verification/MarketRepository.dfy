/** The repository of bars, and what its views at a cutoff promise. */
module MarketRepository {
  import opened Listing
  import opened MarketStore
  import opened Ordering

  class BarRepository {
    var bars: seq<Bar>

    ghost predicate Valid()
      reads this
    {
      Unique(bars)
    }

    constructor ()
      ensures Valid() && bars == []
    {
      bars := [];
    }

    /** Batches of 500 rows store what a single insert would; the count is of rows stored. */
    method Append(values: seq<Bar>) returns (inserted: nat)
      requires Valid()
      modifies this
      ensures Valid()
      ensures bars == InsertAll(old(bars), values)
      ensures inserted == |bars| - |old(bars)|
    {
      hide InsertAll, Unique;
      inserted := 0;
      var offset := 0;
      InsertNone(bars);
      while offset < |values|
        invariant 0 <= offset <= |values|
        invariant Valid()
        invariant bars == InsertAll(old(bars), values[..offset])
        invariant inserted == |bars| - |old(bars)|
      {
        var end := if offset + 500 < |values| then offset + 500 else |values|;
        var batch := values[offset..end];
        var after := InsertAll(bars, batch);
        InsertOnlyAppends(bars, batch);
        InsertAllConcat(old(bars), values[..offset], batch);
        assert values[..offset] + batch == values[..end];
        inserted := inserted + (|after| - |bars|);
        bars := after;
        offset := end;
      }
      assert values[..offset] == values;
    }

    function Latest(query: Query, cutoff: int, limit: nat): seq<Bar>
      reads this
    {
      LatestBars(bars, query, cutoff, limit)
    }
  }

  lemma InsertNone(table: seq<Bar>)
    ensures InsertAll(table, []) == table
  {
  }

  // ---- what a view holds

  /** A stored row of the asked series whose event and availability are no later than the cutoff. */
  ghost predicate Known(table: seq<Bar>, query: Query, cutoff: int, b: Bar) {
    && b in table
    && b.provider == query.provider && b.feed == query.feed
    && b.symbol == query.symbol && b.timeframe == query.timeframe
    && b.eventTime <= cutoff && b.availableAt <= cutoff
  }

  ghost function KnownTimes(table: seq<Bar>, query: Query, cutoff: int): set<Instant> {
    set b | b in table && Known(table, query, cutoff, b) :: Instant(b.eventTime)
  }

  /**
   * One row is no newer than another: not available later; of those available together, not ingested
   * later; of those ingested together, a stream update gives way to none but a stream update and a
   * stream bar to none but streamed rows; within one kind, the larger identifier stands.
   */
  ghost predicate NoNewer(c: Bar, b: Bar) {
    && c.availableAt <= b.availableAt
    && (c.availableAt == b.availableAt ==> c.ingestedAt <= b.ingestedAt)
    && (c.availableAt == b.availableAt && c.ingestedAt == b.ingestedAt ==>
          && (c.kind.StreamUpdate? ==> b.kind.StreamUpdate?)
          && (c.kind.StreamBar? ==> !b.kind.OtherSource?)
          && (c.kind == b.kind ==> c.id.code <= b.id.code))
  }

  /** Known, and no known row of the same event is newer. */
  ghost predicate IsRevision(table: seq<Bar>, query: Query, cutoff: int, b: Bar) {
    && Known(table, query, cutoff, b)
    && forall c :: Known(table, query, cutoff, c) && c.eventTime == b.eventTime ==> NoNewer(c, b)
  }

  ghost function Seen(table: seq<Bar>, query: Query, cutoff: int): seq<Bar> {
    Filter(Visible(query, cutoff), table)
  }

  lemma SeenIsKnown(table: seq<Bar>, query: Query, cutoff: int, b: Bar)
    ensures b in Seen(table, query, cutoff) <==> Known(table, query, cutoff, b)
  {
  }

  lemma OutranksIs(c: Bar, b: Bar)
    ensures Outranks(c, b) <==> !NoNewer(c, b)
  {
  }

  lemma TimesAreKnown(table: seq<Bar>, query: Query, cutoff: int)
    ensures Times(Seen(table, query, cutoff)) == KnownTimes(table, query, cutoff)
  {
    hide Seen, Known;
    forall b ensures b in Seen(table, query, cutoff) <==> Known(table, query, cutoff, b) {
      SeenIsKnown(table, query, cutoff, b);
    }
    assert forall b :: Known(table, query, cutoff, b) ==> b in table by { KnownIsStored(table, query, cutoff); }
    forall t ensures t in Times(Seen(table, query, cutoff)) <==> t in KnownTimes(table, query, cutoff) {
      if t in Times(Seen(table, query, cutoff)) {
        var i :| 0 <= i < |Seen(table, query, cutoff)| && Seen(table, query, cutoff)[i].eventTime == t.tick;
        assert Seen(table, query, cutoff)[i] in Seen(table, query, cutoff);
      }
    }
  }

  lemma KnownIsStored(table: seq<Bar>, query: Query, cutoff: int)
    ensures forall b :: Known(table, query, cutoff, b) ==> b in table
  {
  }

  /** The revision picked for a time is the newest known one. */
  lemma PickedIsRevision(table: seq<Bar>, query: Query, cutoff: int, t: Instant)
    requires t in Times(Seen(table, query, cutoff))
    ensures IsRevision(table, query, cutoff, RevisionAt(Seen(table, query, cutoff), t))
  {
    var seen := Seen(table, query, cutoff);
    var b := RevisionAt(seen, t);
    hide RevisionAt, Seen, Known, NoNewer, Outranks, Times;
    SeenIsKnown(table, query, cutoff, b);
    forall c | Known(table, query, cutoff, c) && c.eventTime == b.eventTime ensures NoNewer(c, b) {
      SeenIsKnown(table, query, cutoff, c);
      OutranksIs(c, b);
    }
  }

  lemma TailFacts<T>(s: seq<T>, n: nat)
    ensures |Tail(s, n)| == if n < |s| then n else |s|
    ensures forall i :: 0 <= i < |Tail(s, n)| ==> Tail(s, n)[i] == s[|s| - |Tail(s, n)| + i]
  {
  }

  /** A view lists the newest known revision of each of its event times, in ascending order. */
  lemma ViewFacts(table: seq<Bar>, query: Query, cutoff: int, limit: nat)
    ensures var view, times := LatestBars(table, query, cutoff, limit), KnownTimes(table, query, cutoff);
      && |view| == (if limit < |times| then limit else |times|)
      && (forall i, j :: 0 <= i < j < |view| ==> view[i].eventTime < view[j].eventTime)
      && (forall i :: 0 <= i < |view| ==> IsRevision(table, query, cutoff, view[i]))
  {
    hide Filter, Times, Outranks, KnownTimes, IsRevision, Known;
    TimesAreKnown(table, query, cutoff);
    var view, seen := LatestBars(table, query, cutoff, limit), Seen(table, query, cutoff);
    var listed := MarketStore.Listed(Times(seen));
    var kept := Tail(listed, limit);
    TailFacts(listed, limit);
    assert |view| == |kept|;
    forall i | 0 <= i < |view|
      ensures view[i].eventTime == Tick(kept[i]) && IsRevision(table, query, cutoff, view[i])
    {
      assert kept[i] in listed;
      PickedIsRevision(table, query, cutoff, kept[i]);
    }
    forall i, j | 0 <= i < j < |view| ensures view[i].eventTime < view[j].eventTime {
      var base := |listed| - |kept|;
      assert Tick(listed[base + i]) < Tick(listed[base + j]);
    }
  }

  /** In a table without conflicts the newest revision of an event time is unique. */
  lemma RevisionIsUnique(table: seq<Bar>, query: Query, cutoff: int, a: Bar, b: Bar)
    requires Unique(table) && a.eventTime == b.eventTime
    requires IsRevision(table, query, cutoff, a) && IsRevision(table, query, cutoff, b)
    ensures a == b
  {
    assert NoNewer(a, b) && NoNewer(b, a);
    assert a.id == b.id;
    assert a in table && b in table;
    var i :| 0 <= i < |table| && table[i] == a;
    var j :| 0 <= j < |table| && table[j] == b;
    assert Conflict(table[i], table[j]) && Conflict(table[j], table[i]);
    assert i == j;
  }

  // ---- stability

  lemma {:induction false} LateRowsUnseen(table: seq<Bar>, bars: seq<Bar>, query: Query, cutoff: int)
    requires forall b :: b in bars ==> b.availableAt > cutoff
    ensures Seen(InsertAll(table, bars), query, cutoff) == Seen(table, query, cutoff)
  {
    InsertOnlyAppends(table, bars);
    var after := InsertAll(table, bars);
    var added := after[|table|..];
    assert after == table + added;
    hide InsertAll, Filter;
    FilterConcat(Visible(query, cutoff), table, added);
    AddedComeFromBars(table, bars);
    FilterNone(Visible(query, cutoff), added);
  }

  lemma {:induction false} AddedComeFromBars(table: seq<Bar>, bars: seq<Bar>)
    ensures |table| <= |InsertAll(table, bars)|
    ensures forall b :: b in InsertAll(table, bars)[|table|..] ==> b in bars
  {
    if bars == [] {
      assert InsertAll(table, bars)[|table|..] == [];
    } else {
      var init, last := bars[..|bars| - 1], bars[|bars| - 1];
      AddedComeFromBars(table, init);
      var before := InsertAll(table, init);
      assert bars == init + [last];
      hide Blocked, InsertAll;
      InsertAllLast(table, bars);
      if !Blocked(before, last) {
        assert (before + [last])[|table|..] == before[|table|..] + [last];
      }
    }
  }

  /** Ingesting rows that become available after a cutoff never changes a view at that cutoff. */
  lemma PastViewsAreStable(table: seq<Bar>, bars: seq<Bar>, query: Query, cutoff: int, limit: nat)
    requires forall b :: b in bars ==> b.availableAt > cutoff
    ensures LatestBars(InsertAll(table, bars), query, cutoff, limit) == LatestBars(table, query, cutoff, limit)
  {
    LateRowsUnseen(table, bars, query, cutoff);
  }

  /** Over a whole history of ingestions, the view at a cutoff is fixed once later rows only arrive. */
  lemma {:induction false} PastViewsSurviveHistory(table: seq<Bar>, batches: seq<seq<Bar>>, query: Query, cutoff: int, limit: nat)
    requires forall i, b :: 0 <= i < |batches| && b in batches[i] ==> b.availableAt > cutoff
    ensures LatestBars(IngestAll(table, batches), query, cutoff, limit) == LatestBars(table, query, cutoff, limit)
  {
    if batches != [] {
      var init, last := batches[..|batches| - 1], batches[|batches| - 1];
      PastViewsSurviveHistory(table, init, query, cutoff, limit);
      hide LatestBars, InsertAll;
      PastViewsAreStable(IngestAll(table, init), last, query, cutoff, limit);
    }
  }

  function IngestAll(table: seq<Bar>, batches: seq<seq<Bar>>): seq<Bar> {
    if batches == [] then table
    else InsertAll(IngestAll(table, batches[..|batches| - 1]), batches[|batches| - 1])
  }

  // ---- exactly which rows a view holds

  ghost function Later(times: set<Instant>, t: int): set<Instant> {
    set x | x in times && x.tick > t
  }

  ghost predicate Behind(listed: seq<Instant>, i: nat, x: Instant) {
    exists k :: i < k < |listed| && listed[k] == x
  }

  /** In an ascending listing, what is later than position i stands behind it. */
  lemma LaterPosition(listed: seq<Instant>, times: set<Instant>, i: nat, x: Instant)
    requires IsListing(Tick, times, listed) && i < |listed|
    ensures x in Later(times, listed[i].tick) <==> Behind(listed, i, x)
  {
    if x in Later(times, listed[i].tick) {
      assert x in listed;
      var k :| 0 <= k < |listed| && listed[k] == x;
      assert k < i ==> Tick(listed[k]) < Tick(listed[i]);
    }
    if k :| i < k < |listed| && listed[k] == x {
      assert Tick(listed[i]) < Tick(listed[k]);
      assert x in listed;
    }
  }

  lemma LaterStep(listed: seq<Instant>, times: set<Instant>, i: nat)
    requires IsListing(Tick, times, listed) && i < |listed|
    ensures i == |listed| - 1 ==> Later(times, listed[i].tick) == {}
    ensures i < |listed| - 1 ==>
      && listed[i + 1] !in Later(times, listed[i + 1].tick)
      && Later(times, listed[i].tick) == Later(times, listed[i + 1].tick) + {listed[i + 1]}
  {
    hide IsListing;
    var later := Later(times, listed[i].tick);
    forall x ensures x in later <==> Behind(listed, i, x) {
      LaterPosition(listed, times, i, x);
    }
    if i < |listed| - 1 {
      var next := Later(times, listed[i + 1].tick);
      forall x ensures x in next <==> Behind(listed, i + 1, x) {
        LaterPosition(listed, times, i + 1, x);
      }
      assert listed[i + 1] !in next;
      forall x ensures x in later <==> x in next || x == listed[i + 1] {
        assert Behind(listed, i, x) <==> Behind(listed, i + 1, x) || x == listed[i + 1];
      }
    }
  }

  lemma {:induction false} LaterCount(listed: seq<Instant>, times: set<Instant>, i: nat)
    requires IsListing(Tick, times, listed) && i < |listed|
    ensures |Later(times, listed[i].tick)| == |listed| - 1 - i
    decreases |listed| - i
  {
    hide Later, IsListing;
    LaterStep(listed, times, i);
    if i < |listed| - 1 {
      LaterCount(listed, times, i + 1);
    }
  }

  /** A row is in the view exactly when it is a newest revision with fewer than `limit` later times. */
  lemma ViewHoldsExactly(table: seq<Bar>, query: Query, cutoff: int, limit: nat, b: Bar)
    requires Unique(table)
    ensures b in LatestBars(table, query, cutoff, limit) <==>
      && IsRevision(table, query, cutoff, b)
      && |Later(KnownTimes(table, query, cutoff), b.eventTime)| < limit
  {
    hide *;
    var view := LatestBars(table, query, cutoff, limit);
    if b in view {
      var i :| 0 <= i < |view| && view[i] == b;
      HeldIsRecent(table, query, cutoff, limit, i);
    }
    if IsRevision(table, query, cutoff, b) && |Later(KnownTimes(table, query, cutoff), b.eventTime)| < limit {
      var k := TimeListed(table, query, cutoff, b);
      RecentIsHeld(table, query, cutoff, limit, k, b);
    }
  }

  lemma ListedLists(times: set<Instant>)
    ensures IsListing(Tick, times, MarketStore.Listed(times))
  {
  }

  lemma HeldIsRecent(table: seq<Bar>, query: Query, cutoff: int, limit: nat, i: nat)
    requires i < |LatestBars(table, query, cutoff, limit)|
    ensures var b := LatestBars(table, query, cutoff, limit)[i];
      IsRevision(table, query, cutoff, b) && |Later(KnownTimes(table, query, cutoff), b.eventTime)| < limit
  {
    hide LatestBars, KnownTimes, IsRevision, Later, IsListing, Tail;
    var times := KnownTimes(table, query, cutoff);
    var listed := MarketStore.Listed(times);
    TailFacts(listed, limit);
    ViewFacts(table, query, cutoff, limit);
    ViewTimes(table, query, cutoff, limit);
    ListedLists(times);
    LaterCount(listed, times, |listed| - |Tail(listed, limit)| + i);
  }

  lemma TimeListed(table: seq<Bar>, query: Query, cutoff: int, b: Bar) returns (k: nat)
    requires IsRevision(table, query, cutoff, b)
    ensures var listed := MarketStore.Listed(KnownTimes(table, query, cutoff));
      k < |listed| && listed[k] == Instant(b.eventTime)
  {
    var listed := MarketStore.Listed(KnownTimes(table, query, cutoff));
    assert Instant(b.eventTime) in listed;
    k :| 0 <= k < |listed| && listed[k] == Instant(b.eventTime);
  }

  lemma RecentIsHeld(table: seq<Bar>, query: Query, cutoff: int, limit: nat, k: nat, b: Bar)
    requires Unique(table) && IsRevision(table, query, cutoff, b)
    requires |Later(KnownTimes(table, query, cutoff), b.eventTime)| < limit
    requires var listed := MarketStore.Listed(KnownTimes(table, query, cutoff));
      k < |listed| && listed[k] == Instant(b.eventTime)
    ensures b in LatestBars(table, query, cutoff, limit)
  {
    hide LatestBars, KnownTimes, IsRevision, Later, IsListing, Tail, Unique;
    var times := KnownTimes(table, query, cutoff);
    var listed := MarketStore.Listed(times);
    TailFacts(listed, limit);
    ViewFacts(table, query, cutoff, limit);
    ViewTimes(table, query, cutoff, limit);
    ListedLists(times);
    LaterCount(listed, times, k);
    var view := LatestBars(table, query, cutoff, limit);
    var i := k - (|listed| - |Tail(listed, limit)|);
    assert Tail(listed, limit)[i] == listed[k];
    RevisionIsUnique(table, query, cutoff, view[i], b);
  }

  lemma ViewTimes(table: seq<Bar>, query: Query, cutoff: int, limit: nat)
    ensures var view, kept := LatestBars(table, query, cutoff, limit),
        Tail(MarketStore.Listed(KnownTimes(table, query, cutoff)), limit);
      |view| == |kept| && forall i :: 0 <= i < |view| ==> view[i].eventTime == kept[i].tick
  {
    hide Filter, Times, Outranks, KnownTimes;
    TimesAreKnown(table, query, cutoff);
  }
}
