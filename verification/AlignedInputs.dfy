/** Daily inputs of several symbols, completed before the current session and aligned on their dates. */
module AlignedInputs {
  import opened Identifiers
  import opened Listing
  import opened MarketStore
  import opened Ordering
  import opened Results
  import opened SessionDates

  datatype Fault =
    | NoSymbols
    | NonPositiveMinimum
    | LimitTooSmall
    | Unavailable
    | WrongProvenance
    | InconsistentDuplicate
    | NoHistory
    | InvalidValues
    | InsufficientSessions
    | StaleHistory
    | InconsistentRecent

  /** Session dates are New York dates; the calendar says which instant falls on which. */
  datatype Request = Request(
    symbols: seq<Id>,
    provider: Id,
    feed: Id,
    timeframe: Id,
    calendar: int -> Day,
    current: Day,
    expected: Day,
    cutoff: int,
    minimum: int,
    limit: int,
    dataset: Id)
  {
    function DateOf(b: Bar): Day { calendar(b.eventTime) }
  }

  type ByDate = map<Day, Bar>

  // ---- one symbol

  /** One row taken into the dictionary of completed sessions. */
  function Take(request: Request, byDate: ByDate, row: Bar): Result<ByDate, Fault> {
    var date := request.DateOf(row);
    if date.number >= request.current.number then Ok(byDate)
    else if row.availableAt > request.cutoff then Err(Unavailable)
    else if !row.adjusted || row.dataset != request.dataset then Err(WrongProvenance)
    else if date in byDate && (byDate[date].close != row.close || byDate[date].volume != row.volume
                               || byDate[date].payloadHash != row.payloadHash) then Err(InconsistentDuplicate)
    else Ok(byDate[date := row])
  }

  function TakeAll(request: Request, rows: seq<Bar>): Result<ByDate, Fault> {
    if rows == [] then Ok(map[])
    else
      var before := TakeAll(request, rows[..|rows| - 1]);
      if before.Err? then before else Take(request, before.value, rows[|rows| - 1])
  }

  predicate ValidValues(b: Bar) { b.close > 0.0 && b.volume >= 0.0 }

  function Ordered(byDate: ByDate): (r: seq<Bar>) {
    var dates := Chronological(byDate.Keys);
    seq(|dates|, i requires 0 <= i < |dates| => assert dates[i] in dates; byDate[dates[i]])
  }

  /** The completed rows of one symbol, one per session, from the earliest on. */
  function Completed(request: Request, rows: seq<Bar>): Result<seq<Bar>, Fault> {
    var taken := TakeAll(request, rows);
    if taken.Err? then Err(taken.error)
    else if taken.value == map[] then Err(NoHistory)
    else if exists b :: b in Ordered(taken.value) && !ValidValues(b) then Err(InvalidValues)
    else Ok(Ordered(taken.value))
  }

  method CompletedSeries(request: Request, rows: seq<Bar>) returns (r: Result<seq<Bar>, Fault>)
    ensures r == Completed(request, rows)
  {
    hide Take, Ordered;
    var byDate: ByDate := map[];
    for k := 0 to |rows|
      invariant TakeAll(request, rows[..k]) == Ok(byDate)
    {
      TakeNext(request, rows, k);
      var next := Take(request, byDate, rows[k]);
      if next.Err? {
        TakeFaultIsFinal(request, rows, k + 1);
        return Err(next.error);
      }
      byDate := next.value;
    }
    assert rows[..|rows|] == rows;
    if byDate == map[] {
      return Err(NoHistory);
    }
    var ordered := Ordered(byDate);
    if exists b :: b in ordered && !ValidValues(b) {
      return Err(InvalidValues);
    }
    r := Ok(ordered);
  }

  lemma TakeNext(request: Request, rows: seq<Bar>, k: nat)
    requires k < |rows|
    ensures TakeAll(request, rows[..k + 1])
         == if TakeAll(request, rows[..k]).Err? then TakeAll(request, rows[..k])
            else Take(request, TakeAll(request, rows[..k]).value, rows[k])
  {
    assert rows[..k + 1][..k] == rows[..k];
  }

  lemma {:induction false} TakeFaultIsFinal(request: Request, rows: seq<Bar>, k: nat)
    requires k <= |rows| && TakeAll(request, rows[..k]).Err?
    ensures TakeAll(request, rows) == TakeAll(request, rows[..k])
    decreases |rows| - k
  {
    if k < |rows| {
      TakeNext(request, rows, k);
      TakeFaultIsFinal(request, rows, k + 1);
    } else {
      assert rows[..k] == rows;
    }
  }

  // ---- several symbols

  function QueryFor(request: Request, symbol: Id): Query {
    Query(request.provider, request.feed, symbol, request.timeframe)
  }

  /** The completed series of one symbol, from the bars known at the cutoff. */
  function SeriesOf(request: Request, table: seq<Bar>, symbol: Id): Result<seq<Bar>, Fault>
    requires request.limit >= 0
  {
    Completed(request, LatestBars(table, QueryFor(request, symbol), request.cutoff, request.limit))
  }

  function Load(request: Request, table: seq<Bar>, symbols: seq<Id>): (r: Result<map<Id, seq<Bar>>, Fault>)
    requires request.limit >= 0
    ensures r.Ok? <==> forall s :: s in symbols ==> SeriesOf(request, table, s).Ok?
    ensures r.Ok? ==> forall s :: s in r.value <==> s in symbols
    ensures r.Ok? ==> forall s :: s in symbols ==> r.value[s] == SeriesOf(request, table, s).value
  {
    if symbols == [] then Ok(map[])
    else
      var init, last := symbols[..|symbols| - 1], symbols[|symbols| - 1];
      assert symbols == init + [last];
      var before := Load(request, table, init);
      if before.Err? then before
      else
        var series := SeriesOf(request, table, last);
        if series.Err? then Err(series.error) else Ok(before.value[last := series.value])
  }

  function Dates(request: Request, bars: seq<Bar>): (r: seq<Day>)
    ensures |r| == |bars| && forall i :: 0 <= i < |r| ==> r[i] == request.DateOf(bars[i])
  {
    seq(|bars|, i requires 0 <= i < |bars| => request.DateOf(bars[i]))
  }

  function DateSet(request: Request, bars: seq<Bar>): (r: set<Day>)
    ensures forall d :: d in r <==> d in Dates(request, bars)
  {
    set d | d in Dates(request, bars)
  }

  function Common(request: Request, loaded: map<Id, seq<Bar>>, symbols: seq<Id>): (r: set<Day>)
    requires symbols != [] && forall s :: s in symbols ==> s in loaded
    decreases |symbols|
  {
    var init, last := symbols[..|symbols| - 1], symbols[|symbols| - 1];
    if init == [] then DateSet(request, loaded[last])
    else Common(request, loaded, init) * DateSet(request, loaded[last])
  }

  /** Every one of the symbols has this date. */
  ghost predicate Everywhere(request: Request, loaded: map<Id, seq<Bar>>, symbols: seq<Id>, d: Day)
    requires forall s :: s in symbols ==> s in loaded
  {
    forall s :: s in symbols ==> d in Dates(request, loaded[s])
  }

  lemma EverywhereLast(request: Request, loaded: map<Id, seq<Bar>>, symbols: seq<Id>, d: Day)
    requires symbols != [] && forall s :: s in symbols ==> s in loaded
    ensures Everywhere(request, loaded, symbols, d) <==>
      && Everywhere(request, loaded, symbols[..|symbols| - 1], d)
      && d in Dates(request, loaded[symbols[|symbols| - 1]])
  {
    hide Dates;
    assert symbols == symbols[..|symbols| - 1] + [symbols[|symbols| - 1]];
  }

  /** The common dates are those that every symbol has. */
  lemma {:induction false} CommonIs(request: Request, loaded: map<Id, seq<Bar>>, symbols: seq<Id>, d: Day)
    requires symbols != [] && forall s :: s in symbols ==> s in loaded
    ensures d in Common(request, loaded, symbols) <==> Everywhere(request, loaded, symbols, d)
    decreases |symbols|
  {
    var init := symbols[..|symbols| - 1];
    EverywhereLast(request, loaded, symbols, d);
    if init != [] {
      CommonIs(request, loaded, init, d);
      hide Dates, Everywhere;
    }
  }

  function Recent(request: Request, bars: seq<Bar>, first: Day): (r: set<Day>)
    ensures forall d :: d in r <==> d in Dates(request, bars) && d.number >= first.number
  {
    set d | d in Dates(request, bars) && d.number >= first.number
  }

  /** The rows of the selected dates. */
  function Select(request: Request, bars: seq<Bar>, selected: seq<Day>): seq<Bar> {
    Filter((b: Bar) => request.DateOf(b) in selected, bars)
  }

  datatype Aligned = Aligned(dates: seq<Day>, series: map<Id, seq<Bar>>)

  function Elements(dates: seq<Day>): (r: set<Day>)
    ensures forall d :: d in r <==> d in dates
  {
    set d | d in dates
  }

  function Align(request: Request, table: seq<Bar>): Result<Aligned, Fault> {
    if request.symbols == [] then Err(NoSymbols)
    else if request.minimum <= 0 then Err(NonPositiveMinimum)
    else if request.limit < request.minimum then Err(LimitTooSmall)
    else
      var loaded := Load(request, table, request.symbols);
      if loaded.Err? then Err(loaded.error) else AlignLoaded(request, loaded.value)
  }

  predicate Disagree(request: Request, loaded: map<Id, seq<Bar>>, selected: seq<Day>)
    requires selected != []
  {
    exists s :: s in loaded && Recent(request, loaded[s], selected[0]) != Elements(selected)
  }

  function SelectAll(request: Request, loaded: map<Id, seq<Bar>>, selected: seq<Day>): map<Id, seq<Bar>> {
    map s | s in loaded :: Select(request, loaded[s], selected)
  }

  function AlignLoaded(request: Request, loaded: map<Id, seq<Bar>>): Result<Aligned, Fault>
    requires request.symbols != [] && request.minimum > 0
    requires forall s :: s in request.symbols <==> s in loaded
  {
    AlignOn(request, loaded, Chronological(Common(request, loaded, request.symbols)))
  }

  /** Alignment on the common dates, listed in order. */
  function AlignOn(request: Request, loaded: map<Id, seq<Bar>>, ordered: seq<Day>): Result<Aligned, Fault>
    requires request.minimum > 0
  {
    if |ordered| < request.minimum then Err(InsufficientSessions)
    else if ordered[|ordered| - 1] != request.expected then Err(StaleHistory)
    else
      var selected := Tail(ordered, request.minimum);
      if Disagree(request, loaded, selected) then Err(InconsistentRecent)
      else Ok(Aligned(selected, SelectAll(request, loaded, selected)))
  }
}
