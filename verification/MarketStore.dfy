/** The point-in-time bar store: insert-or-ignore, and the latest revision known at a cutoff. */
module MarketStore {
  import opened Identifiers
  import opened Listing
  import opened Ordering

  datatype SourceKind = StreamUpdate | StreamBar | OtherSource

  datatype Instant = Instant(tick: int)

  datatype Bar = Bar(
    id: Id,
    provider: Id,
    feed: Id,
    symbol: Id,
    timeframe: Id,
    eventTime: int,
    providerTimestamp: Id,
    availableAt: int,
    ingestedAt: int,
    kind: SourceKind,
    close: real,
    volume: real,
    payloadHash: Id,
    adjusted: bool,
    dataset: Id)

  // ---- insertion

  /** Rows the table's primary key or its payload constraint would not hold together. */
  predicate Conflict(a: Bar, b: Bar) {
    || a.id == b.id
    || (a.provider == b.provider && a.feed == b.feed && a.symbol == b.symbol && a.timeframe == b.timeframe
        && a.providerTimestamp == b.providerTimestamp && a.payloadHash == b.payloadHash)
  }

  predicate Blocked(table: seq<Bar>, bar: Bar) {
    exists i :: 0 <= i < |table| && Conflict(table[i], bar)
  }

  function InsertRow(table: seq<Bar>, bar: Bar): seq<Bar> {
    if Blocked(table, bar) then table else table + [bar]
  }

  /** One insert statement that does nothing on conflict, row by row. */
  function InsertAll(table: seq<Bar>, bars: seq<Bar>): seq<Bar> {
    if bars == [] then table
    else InsertRow(InsertAll(table, bars[..|bars| - 1]), bars[|bars| - 1])
  }

  ghost predicate Unique(table: seq<Bar>) {
    forall i, j :: 0 <= i < j < |table| ==> !Conflict(table[i], table[j])
  }

  lemma {:induction false} InsertAllConcat(table: seq<Bar>, a: seq<Bar>, b: seq<Bar>)
    ensures InsertAll(table, a + b) == InsertAll(InsertAll(table, a), b)
  {
    hide InsertRow;
    if b == [] {
      assert a + b == a;
    } else {
      var init, last := b[..|b| - 1], b[|b| - 1];
      assert (a + b)[..|a + b| - 1] == a + init && (a + b)[|a + b| - 1] == last;
      InsertAllConcat(table, a, init);
    }
  }

  /** Inserting only appends: recorded rows, and so their first availability, never change. */
  lemma {:induction false} InsertOnlyAppends(table: seq<Bar>, bars: seq<Bar>)
    ensures |table| <= |InsertAll(table, bars)| && InsertAll(table, bars)[..|table|] == table
    ensures forall b :: b in InsertAll(table, bars) ==> b in table || b in bars
    ensures Unique(table) ==> Unique(InsertAll(table, bars))
  {
    if bars != [] {
      var init, last := bars[..|bars| - 1], bars[|bars| - 1];
      InsertOnlyAppends(table, init);
      assert bars == init + [last];
      hide Conflict, InsertAll;
      InsertAllLast(table, bars);
      InsertRowFacts(InsertAll(table, init), last);
    }
  }

  lemma InsertAllLast(table: seq<Bar>, bars: seq<Bar>)
    requires bars != []
    ensures InsertAll(table, bars) == InsertRow(InsertAll(table, bars[..|bars| - 1]), bars[|bars| - 1])
  {
  }

  /** A stored row with the same id, or of the same series, provider time and payload. */
  ghost predicate AlreadyStored(table: seq<Bar>, bar: Bar) {
    || (exists i :: 0 <= i < |table| && table[i].id == bar.id)
    || (exists i :: 0 <= i < |table|
          && table[i].provider == bar.provider && table[i].feed == bar.feed
          && table[i].symbol == bar.symbol && table[i].timeframe == bar.timeframe
          && table[i].providerTimestamp == bar.providerTimestamp && table[i].payloadHash == bar.payloadHash)
  }

  /** After any insertions one more row is stored, at the end, exactly when it is not already. */
  lemma StoredExactlyWhen(table: seq<Bar>, bars: seq<Bar>, bar: Bar)
    ensures var before, after := InsertAll(table, bars), InsertAll(table, bars + [bar]);
      && (AlreadyStored(before, bar) ==> after == before)
      && (!AlreadyStored(before, bar) ==> after == before + [bar])
  {
    InsertAllLast(table, bars + [bar]);
    assert (bars + [bar])[..|bars|] == bars;
  }

  lemma InsertRowFacts(table: seq<Bar>, bar: Bar)
    ensures |table| <= |InsertRow(table, bar)| && InsertRow(table, bar)[..|table|] == table
    ensures forall b :: b in InsertRow(table, bar) ==> b in table || b == bar
    ensures Unique(table) ==> Unique(InsertRow(table, bar))
  {
    hide Conflict;
  }

  lemma BlockedStays(table: seq<Bar>, more: seq<Bar>, bar: Bar)
    requires Blocked(table, bar) && |table| <= |more| && more[..|table|] == table
    ensures Blocked(more, bar)
  {
    var i :| 0 <= i < |table| && Conflict(table[i], bar);
    assert more[i] == more[..|table|][i];
  }

  /** Nothing offered is lost: it is stored, or a stored row stands in its place. */
  lemma {:induction false} OfferedIsBlocked(table: seq<Bar>, bars: seq<Bar>)
    ensures forall b :: b in bars ==> Blocked(InsertAll(table, bars), b)
  {
    hide Conflict, Blocked;
    if bars != [] {
      var init, last := bars[..|bars| - 1], bars[|bars| - 1];
      OfferedIsBlocked(table, init);
      assert bars == init + [last];
      var before := InsertAll(table, init);
      forall b | b in bars ensures Blocked(InsertAll(table, bars), b) {
        if b in init {
          InsertRowFacts(before, last);
          BlockedStays(before, InsertRow(before, last), b);
        } else {
          InsertRowBlocks(before, last);
        }
      }
    }
  }

  lemma InsertRowBlocks(table: seq<Bar>, bar: Bar)
    ensures Blocked(InsertRow(table, bar), bar)
  {
    if !Blocked(table, bar) {
      assert Conflict((table + [bar])[|table|], bar);
    }
  }

  lemma {:induction false} BlockedChangesNothing(table: seq<Bar>, bars: seq<Bar>)
    requires forall b :: b in bars ==> Blocked(table, b)
    ensures InsertAll(table, bars) == table
  {
    if bars != [] {
      BlockedChangesNothing(table, bars[..|bars| - 1]);
    }
  }

  /** Bars whose ids are stored change nothing, whatever else they say. */
  lemma StoredIdsChangeNothing(table: seq<Bar>, bars: seq<Bar>)
    requires forall b :: b in bars ==> exists i :: 0 <= i < |table| && table[i].id == b.id
    ensures InsertAll(table, bars) == table
  {
    forall b | b in bars ensures Blocked(table, b) {
      var i :| 0 <= i < |table| && table[i].id == b.id;
      assert Conflict(table[i], b);
    }
    BlockedChangesNothing(table, bars);
  }

  /** Ingesting again, in any order and any number of times, changes nothing. */
  lemma ReingestChangesNothing(table: seq<Bar>, bars: seq<Bar>, again: seq<Bar>)
    requires forall b :: b in again ==> b in bars
    ensures InsertAll(InsertAll(table, bars), again) == InsertAll(table, bars)
  {
    OfferedIsBlocked(table, bars);
    BlockedChangesNothing(InsertAll(table, bars), again);
  }

  // ---- the latest revision

  datatype Query = Query(provider: Id, feed: Id, symbol: Id, timeframe: Id)

  predicate Matches(query: Query, b: Bar) {
    b.provider == query.provider && b.feed == query.feed && b.symbol == query.symbol && b.timeframe == query.timeframe
  }

  function Visible(query: Query, cutoff: int): Bar -> bool {
    (b: Bar) => Matches(query, b) && b.eventTime <= cutoff && b.availableAt <= cutoff
  }

  function KindRank(kind: SourceKind): int {
    match kind
    case StreamUpdate => 3
    case StreamBar => 2
    case OtherSource => 1
  }

  /** The later available, then the later ingested, then the better source, then the larger id. */
  predicate Outranks(a: Bar, b: Bar) {
    a.availableAt > b.availableAt
    || (a.availableAt == b.availableAt
        && (a.ingestedAt > b.ingestedAt
            || (a.ingestedAt == b.ingestedAt
                && (KindRank(a.kind) > KindRank(b.kind)
                    || (KindRank(a.kind) == KindRank(b.kind) && a.id.code > b.id.code)))))
  }

  function Newest(rows: seq<Bar>): (r: Bar)
    requires rows != []
    ensures r in rows
    ensures forall b :: b in rows ==> !Outranks(b, r)
  {
    if |rows| == 1 then rows[0]
    else
      var init, last := rows[..|rows| - 1], rows[|rows| - 1];
      assert rows == init + [last];
      if Outranks(last, Newest(init)) then last else Newest(init)
  }

  function AtTime(t: Instant): Bar -> bool {
    (b: Bar) => b.eventTime == t.tick
  }

  function Tick(t: Instant): int { t.tick }

  function Times(rows: seq<Bar>): (r: set<Instant>)
    ensures forall b :: b in rows ==> Instant(b.eventTime) in r
    ensures forall t :: t in r ==> exists i :: 0 <= i < |rows| && rows[i].eventTime == t.tick
  {
    set i | 0 <= i < |rows| :: Instant(rows[i].eventTime)
  }

  function Listed(times: set<Instant>): (r: seq<Instant>)
    ensures StrictlyAscending(Tick, r)
    ensures |r| == |times| && forall t :: t in r <==> t in times
  {
    assert Ranked(Tick);
    Ascending(Tick, times)
  }

  function RevisionAt(rows: seq<Bar>, t: Instant): (r: Bar)
    requires t in Times(rows)
    ensures r in rows && r.eventTime == t.tick
    ensures forall b :: b in rows && b.eventTime == t.tick ==> !Outranks(b, r)
  {
    var i :| 0 <= i < |rows| && rows[i].eventTime == t.tick;
    assert rows[i] in Filter(AtTime(t), rows);
    Newest(Filter(AtTime(t), rows))
  }

  /** One row per event time, the newest revision of each, for the last `limit` event times. */
  function LatestBars(table: seq<Bar>, query: Query, cutoff: int, limit: nat): (r: seq<Bar>) {
    var visible := Filter(Visible(query, cutoff), table);
    var kept := Tail(Listed(Times(visible)), limit);
    seq(|kept|, i requires 0 <= i < |kept| => assert kept[i] in Listed(Times(visible)); RevisionAt(visible, kept[i]))
  }
}
