/** Alignment read from the repository, and what every aligned result promises. */
module AlignedViews {
  import opened AlignedInputs
  import opened Identifiers
  import opened Listing
  import opened MarketRepository
  import opened MarketStore
  import opened Results
  import opened SessionDates

  method AlignedCompletedDailyInputs(repository: BarRepository, request: Request) returns (r: Result<Aligned, Fault>)
    ensures r == Align(request, repository.bars)
  {
    hide Load, Completed, LatestBars, Common, AlignLoaded;
    var symbols := request.symbols;
    if symbols == [] {
      return Err(NoSymbols);
    }
    if request.minimum <= 0 {
      return Err(NonPositiveMinimum);
    }
    if request.limit < request.minimum {
      return Err(LimitTooSmall);
    }
    var loaded: map<Id, seq<Bar>> := map[];
    LoadNothing(request, repository.bars);
    for k := 0 to |symbols|
      invariant Load(request, repository.bars, symbols[..k]) == Ok(loaded)
    {
      LoadNext(request, repository.bars, symbols, k);
      var rows := repository.Latest(QueryFor(request, symbols[k]), request.cutoff, request.limit);
      var series := CompletedSeries(request, rows);
      if series.Err? {
        LoadFaultIsFinal(request, repository.bars, symbols, k + 1);
        return Err(series.error);
      }
      loaded := loaded[symbols[k] := series.value];
    }
    assert symbols[..|symbols|] == symbols;
    r := AlignSeries(request, loaded);
  }

  /** The dates all symbols have, intersected one symbol at a time. */
  method CommonDates(request: Request, loaded: map<Id, seq<Bar>>) returns (common: set<Day>)
    requires request.symbols != [] && forall s :: s in request.symbols ==> s in loaded
    ensures common == Common(request, loaded, request.symbols)
  {
    hide Common, DateSet;
    var symbols := request.symbols;
    common := DateSet(request, loaded[symbols[0]]);
    CommonOfOne(request, loaded, symbols);
    for k := 1 to |symbols|
      invariant common == Common(request, loaded, symbols[..k])
    {
      CommonNext(request, loaded, symbols, k);
      common := common * DateSet(request, loaded[symbols[k]]);
    }
    assert symbols[..|symbols|] == symbols;
  }

  method RecentAgree(request: Request, loaded: map<Id, seq<Bar>>, selected: seq<Day>) returns (agree: bool)
    requires selected != [] && forall s :: s in request.symbols <==> s in loaded
    ensures agree <==> !Disagree(request, loaded, selected)
  {
    hide Recent, Elements;
    var symbols := request.symbols;
    for k := 0 to |symbols|
      invariant forall i :: 0 <= i < k ==> Recent(request, loaded[symbols[i]], selected[0]) == Elements(selected)
    {
      if Recent(request, loaded[symbols[k]], selected[0]) != Elements(selected) {
        assert symbols[k] in loaded;
        return false;
      }
    }
    agree := true;
  }

  method AlignSeries(request: Request, loaded: map<Id, seq<Bar>>) returns (r: Result<Aligned, Fault>)
    requires request.symbols != [] && request.minimum > 0
    requires forall s :: s in request.symbols <==> s in loaded
    ensures r == AlignLoaded(request, loaded)
  {
    hide Common, SelectAll, Disagree;
    var common := CommonDates(request, loaded);
    var ordered := Chronological(common);
    if |ordered| < request.minimum {
      return Err(InsufficientSessions);
    }
    if ordered[|ordered| - 1] != request.expected {
      return Err(StaleHistory);
    }
    var selected := Tail(ordered, request.minimum);
    var agree := RecentAgree(request, loaded, selected);
    if !agree {
      return Err(InconsistentRecent);
    }
    r := Ok(Aligned(selected, SelectAll(request, loaded, selected)));
  }

  lemma LoadNothing(request: Request, table: seq<Bar>)
    requires request.limit >= 0
    ensures Load(request, table, []) == Ok(map[])
  {
  }

  lemma LoadNext(request: Request, table: seq<Bar>, symbols: seq<Id>, k: nat)
    requires request.limit >= 0 && k < |symbols| && Load(request, table, symbols[..k]).Ok?
    ensures var series := SeriesOf(request, table, symbols[k]);
      && (series.Err? ==> Load(request, table, symbols[..k + 1]) == Err(series.error))
      && (series.Ok? ==>
            Load(request, table, symbols[..k + 1]) == Ok(Load(request, table, symbols[..k]).value[symbols[k] := series.value]))
  {
    hide SeriesOf;
    assert symbols[..k + 1][..k] == symbols[..k];
  }

  lemma {:induction false} LoadFaultIsFinal(request: Request, table: seq<Bar>, symbols: seq<Id>, k: nat)
    requires request.limit >= 0 && k <= |symbols| && Load(request, table, symbols[..k]).Err?
    ensures Load(request, table, symbols) == Load(request, table, symbols[..k])
    decreases |symbols| - k
  {
    hide SeriesOf;
    if k < |symbols| {
      assert symbols[..k + 1][..k] == symbols[..k];
      LoadFaultIsFinal(request, table, symbols, k + 1);
    } else {
      assert symbols[..k] == symbols;
    }
  }

  lemma CommonOfOne(request: Request, loaded: map<Id, seq<Bar>>, symbols: seq<Id>)
    requires symbols != [] && forall s :: s in symbols ==> s in loaded
    ensures Common(request, loaded, symbols[..1]) == DateSet(request, loaded[symbols[0]])
  {
  }

  lemma CommonNext(request: Request, loaded: map<Id, seq<Bar>>, symbols: seq<Id>, k: nat)
    requires 0 < k < |symbols| && forall s :: s in symbols ==> s in loaded
    ensures Common(request, loaded, symbols[..k + 1])
         == Common(request, loaded, symbols[..k]) * DateSet(request, loaded[symbols[k]])
  {
    assert symbols[..k + 1][..k] == symbols[..k];
  }

  // ---- one symbol's series

  /** Of a session before the current one. */
  ghost predicate Past(request: Request, b: Bar) {
    request.calendar(b.eventTime).number < request.current.number
  }

  /** Available at the cutoff, adjusted, of the asked dataset. */
  ghost predicate Fit(request: Request, b: Bar) {
    b.availableAt <= request.cutoff && b.adjusted && b.dataset == request.dataset
  }

  ghost predicate SameDay(request: Request, a: Bar, b: Bar) {
    request.calendar(a.eventTime) == request.calendar(b.eventTime)
  }

  ghost predicate SameContent(a: Bar, b: Bar) {
    a.close == b.close && a.volume == b.volume && a.payloadHash == b.payloadHash
  }

  /** Every past row is fit, and past rows of one session have the same content. */
  ghost predicate Consistent(request: Request, rows: seq<Bar>) {
    && (forall b :: b in rows && Past(request, b) ==> Fit(request, b))
    && (forall a, b :: a in rows && b in rows && Past(request, a) && SameDay(request, a, b) ==> SameContent(a, b))
  }

  /** Position i holds the last row of a past session. */
  ghost predicate Stands(request: Request, rows: seq<Bar>, i: int) {
    && 0 <= i < |rows| && Past(request, rows[i])
    && forall j :: i < j < |rows| ==> !SameDay(request, rows[i], rows[j])
  }

  ghost predicate StandsAs(request: Request, rows: seq<Bar>, b: Bar) {
    exists i :: Stands(request, rows, i) && rows[i] == b
  }

  /** The last row of every past session, ascending by session. */
  ghost predicate ListsLast(request: Request, rows: seq<Bar>, bars: seq<Bar>) {
    && StrictlyAscending(Number, Dates(request, bars))
    && (forall b :: b in bars <==> StandsAs(request, rows, b))
  }

  /** What a completed series of these rows is, and that there is one. */
  ghost predicate IsSeries(request: Request, rows: seq<Bar>, bars: seq<Bar>) {
    && Consistent(request, rows)
    && ListsLast(request, rows, bars)
    && bars != []
    && (forall b :: b in bars ==> b.close > 0.0 && b.volume >= 0.0)
  }

  /** The dictionary holds the last row of every past session under its date. */
  ghost predicate HoldsLast(request: Request, rows: seq<Bar>, byDate: ByDate) {
    && (forall d :: d in byDate ==> StandsAs(request, rows, byDate[d]) && request.DateOf(byDate[d]) == d)
    && (forall b :: b in rows && Past(request, b) ==> request.DateOf(b) in byDate)
  }

  /** The rows are taken exactly when they are consistent; the dictionary then holds each session's last. */
  lemma {:induction false} TakesExactlyWhen(request: Request, rows: seq<Bar>)
    ensures TakeAll(request, rows).Ok? <==> Consistent(request, rows)
    ensures TakeAll(request, rows).Ok? ==> HoldsLast(request, rows, TakeAll(request, rows).value)
  {
    if rows != [] {
      var init, last := rows[..|rows| - 1], rows[|rows| - 1];
      TakesExactlyWhen(request, init);
      assert rows == init + [last];
      hide Consistent, HoldsLast, Take;
      if TakeAll(request, init).Ok? {
        TakeKeeps(request, init, TakeAll(request, init).value, last);
      } else {
        ConsistentBefore(request, init, last);
      }
    }
  }

  lemma ConsistentBefore(request: Request, init: seq<Bar>, last: Bar)
    ensures Consistent(request, init + [last]) ==> Consistent(request, init)
  {
    hide Past, Fit, SameDay, SameContent;
    if Consistent(request, init + [last]) {
      forall b | b in init ensures b in init + [last] {
      }
    }
  }

  lemma TakeKeeps(request: Request, init: seq<Bar>, byDate: ByDate, last: Bar)
    requires Consistent(request, init) && HoldsLast(request, init, byDate)
    ensures Take(request, byDate, last).Ok? <==> Consistent(request, init + [last])
    ensures Take(request, byDate, last).Ok? ==> HoldsLast(request, init + [last], Take(request, byDate, last).value)
  {
    var rows := init + [last];
    TakeIs(request, byDate, last);
    hide Take;
    if !Past(request, last) {
      assert Consistent(request, rows) by { AddOther(request, init, last); }
      forall d | d in byDate ensures StandsAs(request, rows, byDate[d]) {
        StandsAfter(request, init, last, byDate[d]);
      }
    } else if Fit(request, last) {
      AddPast(request, init, byDate, last);
      forall d | d in byDate && d != request.DateOf(last) ensures StandsAs(request, rows, byDate[d]) {
        StandsAfter(request, init, last, byDate[d]);
      }
      assert Stands(request, rows, |init|);
    } else {
      assert last in rows;
    }
  }

  /** One row, said without the order of the checks. */
  lemma TakeIs(request: Request, byDate: ByDate, row: Bar)
    ensures var date := request.DateOf(row);
      && (!Past(request, row) ==> Take(request, byDate, row) == Ok(byDate))
      && (Past(request, row) ==>
            && (Take(request, byDate, row).Ok? <==>
                  Fit(request, row) && (date in byDate ==> SameContent(byDate[date], row)))
            && (Take(request, byDate, row).Ok? ==> Take(request, byDate, row).value == byDate[date := row]))
  {
  }

  lemma AddOther(request: Request, init: seq<Bar>, last: Bar)
    requires Consistent(request, init) && !Past(request, last)
    ensures Consistent(request, init + [last])
  {
    forall a, b | a in init + [last] && b in init + [last] && Past(request, a) && SameDay(request, a, b)
      ensures SameContent(a, b)
    {
      assert Past(request, b);
    }
  }

  lemma StandsAfter(request: Request, init: seq<Bar>, last: Bar, b: Bar)
    requires StandsAs(request, init, b) && !SameDay(request, b, last)
    ensures StandsAs(request, init + [last], b)
  {
    var i :| Stands(request, init, i) && init[i] == b;
    assert Stands(request, init + [last], i);
  }

  lemma AddPast(request: Request, init: seq<Bar>, byDate: ByDate, last: Bar)
    requires Consistent(request, init) && HoldsLast(request, init, byDate) && Past(request, last) && Fit(request, last)
    ensures var date := request.DateOf(last);
      Consistent(request, init + [last]) <==> (date in byDate ==> SameContent(byDate[date], last))
  {
    var rows, date := init + [last], request.DateOf(last);
    if date in byDate {
      var held := byDate[date];
      assert held in rows && last in rows && Past(request, held) && SameDay(request, held, last);
    }
    if date in byDate ==> SameContent(byDate[date], last) {
      forall a | a in init && SameDay(request, a, last) ensures SameContent(a, last) {
        assert Past(request, a) && date in byDate;
        assert byDate[date] in init && SameDay(request, a, byDate[date]);
      }
      assert forall b :: b in rows && Past(request, b) ==> Fit(request, b);
    }
  }

  lemma OrderedLists(request: Request, rows: seq<Bar>, byDate: ByDate)
    requires HoldsLast(request, rows, byDate)
    ensures ListsLast(request, rows, Ordered(byDate))
    ensures Ordered(byDate) == [] <==> byDate == map[]
  {
    OrderedAre(request, rows, byDate);
    forall b | StandsAs(request, rows, b) ensures b in Ordered(byDate) {
      StandingIsListed(request, rows, byDate, b);
    }
    hide StandsAs, Dates, Ordered, HoldsLast, StrictlyAscending;
    assert byDate == map[] <==> byDate.Keys == {};
    assert |Ordered(byDate)| == |Dates(request, Ordered(byDate))| == |byDate.Keys|;
  }

  lemma StandingIsListed(request: Request, rows: seq<Bar>, byDate: ByDate, b: Bar)
    requires HoldsLast(request, rows, byDate) && StandsAs(request, rows, b)
    ensures b in Ordered(byDate)
  {
    hide StandsAs, Past, Dates, StrictlyAscending;
    var dates := Chronological(byDate.Keys);
    StandingIsHeld(request, rows, byDate, b);
    var i :| 0 <= i < |dates| && dates[i] == request.DateOf(b);
    assert Ordered(byDate)[i] == b;
  }

  lemma OrderedAre(request: Request, rows: seq<Bar>, byDate: ByDate)
    requires HoldsLast(request, rows, byDate)
    ensures var dates, bars := Chronological(byDate.Keys), Ordered(byDate);
      && Dates(request, bars) == dates
      && forall i :: 0 <= i < |bars| ==>
           dates[i] in byDate && bars[i] == byDate[dates[i]] && StandsAs(request, rows, bars[i])
  {
    hide StandsAs, Past;
    var dates, bars := Chronological(byDate.Keys), Ordered(byDate);
    forall i | 0 <= i < |bars|
      ensures dates[i] in byDate && bars[i] == byDate[dates[i]] && request.DateOf(bars[i]) == dates[i]
    {
      assert dates[i] in dates;
    }
  }

  lemma StandingIsHeld(request: Request, rows: seq<Bar>, byDate: ByDate, b: Bar)
    requires HoldsLast(request, rows, byDate) && StandsAs(request, rows, b)
    ensures request.DateOf(b) in byDate && byDate[request.DateOf(b)] == b
  {
    assert b in rows && Past(request, b);
    StandingIsUnique(request, rows, byDate[request.DateOf(b)], b);
  }

  lemma StandingIsUnique(request: Request, rows: seq<Bar>, a: Bar, b: Bar)
    requires StandsAs(request, rows, a) && StandsAs(request, rows, b) && SameDay(request, a, b)
    ensures a == b
  {
    var i :| Stands(request, rows, i) && rows[i] == a;
    var j :| Stands(request, rows, j) && rows[j] == b;
    assert i == j;
  }

  lemma ListIsUnique(request: Request, rows: seq<Bar>, a: seq<Bar>, b: seq<Bar>)
    requires ListsLast(request, rows, a) && ListsLast(request, rows, b)
    ensures a == b
  {
    hide StandsAs;
    var s, t := Dates(request, a), Dates(request, b);
    forall d ensures d in s <==> d in t {
      if d in s {
        var i :| 0 <= i < |a| && s[i] == d;
        assert a[i] in b;
        var j :| 0 <= j < |b| && b[j] == a[i];
        assert t[j] == d;
      }
      if d in t {
        var i :| 0 <= i < |b| && t[i] == d;
        assert b[i] in a;
        var j :| 0 <= j < |a| && a[j] == b[i];
        assert s[j] == d;
      }
    }
    AscendingIsUnique(Number, s, t);
    forall i | 0 <= i < |a| ensures a[i] == b[i] {
      assert s[i] == t[i] && a[i] in a && b[i] in b;
      StandingIsUnique(request, rows, a[i], b[i]);
    }
  }

  /** A series is completed exactly when it is the last row of every past session of consistent, valid rows. */
  lemma CompletesExactlyWhen(request: Request, rows: seq<Bar>, bars: seq<Bar>)
    ensures Completed(request, rows) == Ok(bars) <==> IsSeries(request, rows, bars)
  {
    hide TakeAll, Ordered, Consistent, HoldsLast, ListsLast;
    TakesExactlyWhen(request, rows);
    if TakeAll(request, rows).Ok? {
      var ordered := Ordered(TakeAll(request, rows).value);
      OrderedLists(request, rows, TakeAll(request, rows).value);
      if IsSeries(request, rows, bars) {
        ListIsUnique(request, rows, bars, ordered);
      }
    }
  }

  /**
   * Which fault is raised: the first row that breaks consistency decides, and within it availability
   * before provenance before content; consistent rows fail for want of a past session, then of values.
   */
  lemma SeriesFault(request: Request, rows: seq<Bar>, k: nat)
    requires k < |rows| && Consistent(request, rows[..k]) && !Consistent(request, rows[..k + 1])
    ensures Completed(request, rows) == Err(
      if rows[k].availableAt > request.cutoff then Unavailable
      else if !rows[k].adjusted || rows[k].dataset != request.dataset then WrongProvenance
      else InconsistentDuplicate)
  {
    hide Consistent, HoldsLast, TakeAll;
    TakesExactlyWhen(request, rows[..k]);
    TakesExactlyWhen(request, rows[..k + 1]);
    TakeNext(request, rows, k);
    TakeFaultIsFinal(request, rows, k + 1);
  }

  lemma SeriesMissing(request: Request, rows: seq<Bar>)
    requires Consistent(request, rows)
    ensures Completed(request, rows) == Err(NoHistory) <==> forall b :: b in rows ==> !Past(request, b)
    ensures Completed(request, rows) == Err(InvalidValues) <==>
      exists b :: StandsAs(request, rows, b) && (b.close <= 0.0 || b.volume < 0.0)
  {
    hide TakeAll, Ordered, Consistent, StandsAs, Past;
    TakesExactlyWhen(request, rows);
    var byDate := TakeAll(request, rows).value;
    OrderedLists(request, rows, byDate);
    if byDate != map[] {
      var d :| d in byDate;
      StandingIsPast(request, rows, byDate[d]);
    }
  }

  lemma StandingIsPast(request: Request, rows: seq<Bar>, b: Bar)
    requires StandsAs(request, rows, b)
    ensures b in rows && Past(request, b)
  {
  }

  /** The availability check cannot fail on bars read from the repository. */
  lemma ViewsAreAvailable(request: Request, table: seq<Bar>, symbol: Id)
    requires request.limit >= 0
    ensures SeriesOf(request, table, symbol) != Err(Unavailable)
  {
    hide LatestBars, TakeAll, Ordered;
    var rows := LatestBars(table, QueryFor(request, symbol), request.cutoff, request.limit);
    ViewFacts(table, QueryFor(request, symbol), request.cutoff, request.limit);
    AvailableRows(request, rows);
  }

  lemma {:induction false} AvailableRows(request: Request, rows: seq<Bar>)
    requires forall i :: 0 <= i < |rows| ==> rows[i].availableAt <= request.cutoff
    ensures TakeAll(request, rows) != Err(Unavailable)
  {
    if rows != [] {
      AvailableRows(request, rows[..|rows| - 1]);
    }
  }

  // ---- alignment

  /** Selecting dates that a series has leaves exactly those dates. */
  lemma {:induction false} SelectKeepsOrder(request: Request, bars: seq<Bar>, selected: seq<Day>)
    requires StrictlyAscending(Number, Dates(request, bars))
    ensures StrictlyAscending(Number, Dates(request, Select(request, bars, selected)))
    ensures forall d :: d in Dates(request, Select(request, bars, selected)) <==>
      d in Dates(request, bars) && d in selected
  {
    if bars != [] {
      var init, last := bars[..|bars| - 1], bars[|bars| - 1];
      DatesInit(request, bars);
      SelectKeepsOrder(request, init, selected);
      var kept := Select(request, init, selected);
      SelectLast(request, bars, selected);
      DatesGrow(request, kept, last);
      hide Select, Dates;
      if request.DateOf(last) in selected {
        GrowAscending(Dates(request, init), request.DateOf(last), Dates(request, kept));
      }
    }
  }

  lemma DatesInit(request: Request, bars: seq<Bar>)
    requires bars != []
    ensures Dates(request, bars) == Dates(request, bars[..|bars| - 1]) + [request.DateOf(bars[|bars| - 1])]
    ensures StrictlyAscending(Number, Dates(request, bars)) ==> StrictlyAscending(Number, Dates(request, bars[..|bars| - 1]))
  {
    assert Dates(request, bars)[..|bars| - 1] == Dates(request, bars[..|bars| - 1]);
  }

  lemma DatesGrow(request: Request, bars: seq<Bar>, b: Bar)
    ensures Dates(request, bars + [b]) == Dates(request, bars) + [request.DateOf(b)]
  {
  }

  lemma SelectLast(request: Request, bars: seq<Bar>, selected: seq<Day>)
    requires bars != []
    ensures Select(request, bars, selected)
         == Select(request, bars[..|bars| - 1], selected)
            + if request.DateOf(bars[|bars| - 1]) in selected then [bars[|bars| - 1]] else []
  {
  }

  lemma GrowAscending(dates: seq<Day>, d: Day, kept: seq<Day>)
    requires StrictlyAscending(Number, dates + [d]) && StrictlyAscending(Number, kept)
    requires forall x :: x in kept ==> x in dates
    ensures StrictlyAscending(Number, kept + [d])
  {
    forall i | 0 <= i < |kept| ensures Number(kept[i]) < Number(d) {
      assert kept[i] in dates;
      var k :| 0 <= k < |dates| && dates[k] == kept[i];
      RankOrder(Number, dates + [d], k, |dates|);
    }
  }
}
