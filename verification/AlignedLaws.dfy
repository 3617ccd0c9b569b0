/** When alignment succeeds, what it then holds, and that later ingestion cannot change it. */
module AlignedLaws {
  import opened AlignedInputs
  import opened AlignedViews
  import opened Identifiers
  import opened Listing
  import opened MarketRepository
  import opened MarketStore
  import opened Results
  import opened SessionDates

  /** Loaded series have strictly ascending dates. */
  ghost predicate Loaded(request: Request, loaded: map<Id, seq<Bar>>) {
    && request.symbols != [] && request.minimum > 0
    && (forall s :: s in request.symbols <==> s in loaded)
    && (forall s :: s in loaded ==> StrictlyAscending(Number, Dates(request, loaded[s])))
  }

  /** Every symbol's last sessions are these ones. */
  ghost predicate SharedEnd(request: Request, loaded: map<Id, seq<Bar>>, dates: seq<Day>) {
    && |dates| == request.minimum
    && dates != [] && dates[|dates| - 1] == request.expected
    && (forall s :: s in loaded ==>
          |Dates(request, loaded[s])| >= |dates| && Tail(Dates(request, loaded[s]), |dates|) == dates)
  }

  /** The recent dates of a series are the selected ones exactly when those are its last ones. */
  lemma RecentExactlyWhen(request: Request, bars: seq<Bar>, dates: seq<Day>)
    requires StrictlyAscending(Number, Dates(request, bars)) && StrictlyAscending(Number, dates) && dates != []
    ensures Recent(request, bars, dates[0]) == Elements(dates) <==>
      |Dates(request, bars)| >= |dates| && Tail(Dates(request, bars), |dates|) == dates
  {
    var own := Dates(request, bars);
    hide Recent, Elements, Dates, Tail;
    if Recent(request, bars, dates[0]) == Elements(dates) {
      TailFromThreshold(Number, own, dates);
    }
    if |own| >= |dates| && Tail(own, |dates|) == dates {
      TailIsThreshold(Number, own, |dates|);
      assert forall d :: d in Recent(request, bars, dates[0]) <==> d in Elements(dates);
    }
  }

  /** The dates alignment would select. */
  ghost function Selected(request: Request, loaded: map<Id, seq<Bar>>): seq<Day>
    requires Loaded(request, loaded)
  {
    Tail(Chronological(Common(request, loaded, request.symbols)), request.minimum)
  }

  /** Alignment on listed common dates, said without its order of checks. */
  lemma AlignOnIs(request: Request, loaded: map<Id, seq<Bar>>, ordered: seq<Day>)
    requires StrictlyAscending(Number, ordered) && request.minimum > 0
    ensures AlignOn(request, loaded, ordered).Ok? <==>
      && |ordered| >= request.minimum
      && var selected := Tail(ordered, request.minimum);
         && selected != [] && selected[|selected| - 1] == request.expected
         && forall s :: s in loaded ==> Recent(request, loaded[s], selected[0]) == Elements(selected)
    ensures AlignOn(request, loaded, ordered).Ok? ==>
      AlignOn(request, loaded, ordered).value.dates == Tail(ordered, request.minimum)
  {
    hide Recent, Elements, Tail, SelectAll;
    if |ordered| >= request.minimum {
      TailIsThreshold(Number, ordered, request.minimum);
    }
  }

  lemma AlignedIsShared(request: Request, loaded: map<Id, seq<Bar>>)
    requires Loaded(request, loaded) && AlignLoaded(request, loaded).Ok?
    ensures AlignLoaded(request, loaded).value.dates == Selected(request, loaded)
    ensures SharedEnd(request, loaded, Selected(request, loaded))
    ensures StrictlyAscending(Number, Selected(request, loaded))
  {
    hide Common, Recent, Elements, Dates, Tail, AlignOn;
    var ordered := Chronological(Common(request, loaded, request.symbols));
    AlignOnIs(request, loaded, ordered);
    TailIsThreshold(Number, ordered, request.minimum);
    var selected := Selected(request, loaded);
    forall s | s in loaded
      ensures |Dates(request, loaded[s])| >= |selected| && Tail(Dates(request, loaded[s]), |selected|) == selected
    {
      RecentExactlyWhen(request, loaded[s], selected);
    }
  }

  /** Dates every symbol ends with are the ones the common dates end with. */
  lemma SharedIsSelected(request: Request, loaded: map<Id, seq<Bar>>, dates: seq<Day>)
    requires Loaded(request, loaded) && SharedEnd(request, loaded, dates)
    ensures |Common(request, loaded, request.symbols)| >= request.minimum
    ensures Selected(request, loaded) == dates
    ensures StrictlyAscending(Number, dates)
  {
    hide Common, Dates, Tail;
    var common := Common(request, loaded, request.symbols);
    var ordered := Chronological(common);
    var first := request.symbols[0];
    forall s | s in loaded
      ensures StrictlyAscending(Number, dates)
      ensures forall d :: d in dates <==> d in Dates(request, loaded[s]) && Number(d) >= Number(dates[0])
    {
      TailIsThreshold(Number, Dates(request, loaded[s]), |dates|);
    }
    assert first in loaded;
    CommonEnd(request, loaded, dates);
    TailFromThreshold(Number, ordered, dates);
  }

  lemma CommonEnd(request: Request, loaded: map<Id, seq<Bar>>, dates: seq<Day>)
    requires Loaded(request, loaded) && dates != []
    requires forall s, d :: s in loaded ==>
      (d in dates <==> d in Dates(request, loaded[s]) && Number(d) >= Number(dates[0]))
    ensures forall d :: d in dates <==> d in Common(request, loaded, request.symbols) && Number(d) >= Number(dates[0])
  {
    hide Common, Dates;
    var first := request.symbols[0];
    assert first in loaded;
    forall d ensures d in dates <==> d in Common(request, loaded, request.symbols) && Number(d) >= Number(dates[0]) {
      CommonIs(request, loaded, request.symbols, d);
      if d in Common(request, loaded, request.symbols) {
        assert d in Dates(request, loaded[first]);
      }
    }
  }

  lemma SharedAligns(request: Request, loaded: map<Id, seq<Bar>>, dates: seq<Day>)
    requires Loaded(request, loaded) && SharedEnd(request, loaded, dates)
    ensures AlignLoaded(request, loaded).Ok? && AlignLoaded(request, loaded).value.dates == dates
  {
    hide Common, Recent, Elements, Dates, Tail, AlignOn;
    SharedIsSelected(request, loaded, dates);
    forall s | s in loaded ensures Recent(request, loaded[s], dates[0]) == Elements(dates) {
      RecentExactlyWhen(request, loaded[s], dates);
    }
    AlignOnIs(request, loaded, Chronological(Common(request, loaded, request.symbols)));
  }

  /** For every asked symbol, the completed series of its newest bars known at the cutoff. */
  ghost predicate LoadedAs(request: Request, table: seq<Bar>, loaded: map<Id, seq<Bar>>)
    requires request.limit >= 0
  {
    && (forall s :: s in loaded <==> s in request.symbols)
    && (forall s :: s in loaded ==> LoadedOne(request, table, s, loaded[s]))
  }

  ghost predicate LoadedOne(request: Request, table: seq<Bar>, symbol: Id, bars: seq<Bar>)
    requires request.limit >= 0
  {
    var query := Query(request.provider, request.feed, symbol, request.timeframe);
    IsSeries(request, LatestBars(table, query, request.cutoff, request.limit), bars)
  }

  lemma LoadsExactlyWhen(request: Request, table: seq<Bar>, loaded: map<Id, seq<Bar>>)
    requires request.limit >= 0
    ensures Load(request, table, request.symbols) == Ok(loaded) <==> LoadedAs(request, table, loaded)
  {
    hide LatestBars, Completed, IsSeries, Load;
    var r := Load(request, table, request.symbols);
    forall s, bars ensures SeriesOf(request, table, s) == Ok(bars) <==> LoadedOne(request, table, s, bars) {
      var query := Query(request.provider, request.feed, s, request.timeframe);
      CompletesExactlyWhen(request, LatestBars(table, query, request.cutoff, request.limit), bars);
    }
    hide SeriesOf, LoadedOne;
    if LoadedAs(request, table, loaded) {
      assert forall s :: s in request.symbols ==> SeriesOf(request, table, s) == Ok(loaded[s]);
      assert loaded == r.value;
    }
  }

  lemma LoadedFacts(request: Request, table: seq<Bar>, loaded: map<Id, seq<Bar>>)
    requires request.symbols != [] && 0 < request.minimum <= request.limit
    requires LoadedAs(request, table, loaded)
    ensures Loaded(request, loaded)
  {
    hide Dates, LatestBars, Consistent;
    assert forall s :: s in loaded ==> LoadedOne(request, table, s, loaded[s]);
  }

  /** The last sessions are shared, and each symbol's result is the end of its series. */
  ghost predicate AlignedFrom(request: Request, loaded: map<Id, seq<Bar>>, a: Aligned) {
    && SharedEnd(request, loaded, a.dates)
    && a.series.Keys == loaded.Keys
    && forall s :: s in loaded ==> a.series[s] == Tail(loaded[s], |a.dates|)
  }

  /** Selecting the last dates of a series selects its end. */
  lemma SelectIsTail(request: Request, bars: seq<Bar>, dates: seq<Day>)
    requires StrictlyAscending(Number, Dates(request, bars)) && 0 < |dates| <= |bars|
    requires Tail(Dates(request, bars), |dates|) == dates
    ensures Select(request, bars, dates) == Tail(bars, |dates|)
  {
    hide Select, StrictlyAscending, Tail, Dates;
    var kept := Select(request, bars, dates);
    TailIsThreshold(Number, Dates(request, bars), |dates|);
    SelectedDates(request, bars, dates);
    assert |kept| == |Dates(request, kept)| == |dates|;
    TailFacts(bars, |dates|);
    forall i | 0 <= i < |dates| ensures kept[i] == Tail(bars, |dates|)[i] {
      SelectedIs(request, bars, dates, i);
    }
  }

  lemma SelectedIs(request: Request, bars: seq<Bar>, dates: seq<Day>, i: nat)
    requires StrictlyAscending(Number, Dates(request, bars)) && i < |dates| <= |bars|
    requires Tail(Dates(request, bars), |dates|) == dates
    requires Dates(request, Select(request, bars, dates)) == dates
    ensures |Select(request, bars, dates)| == |dates|
    ensures Select(request, bars, dates)[i] == bars[|bars| - |dates| + i]
  {
    hide Select, StrictlyAscending, Tail, Request.DateOf, Dates;
    var own, kept, j := Dates(request, bars), Select(request, bars, dates), |bars| - |dates| + i;
    assert |kept| == |Dates(request, kept)|;
    TailFacts(own, |dates|);
    SelectIsPart(request, bars, dates, kept[i]);
    var k :| 0 <= k < |bars| && bars[k] == kept[i];
    assert own[k] == request.DateOf(kept[i]);
    assert dates[i] == own[j];
    RankOrder(Number, own, k, j);
    RankOrder(Number, own, j, k);
  }

  lemma AlignedSeriesAre(request: Request, loaded: map<Id, seq<Bar>>)
    requires Loaded(request, loaded) && AlignLoaded(request, loaded).Ok?
    ensures AlignedFrom(request, loaded, AlignLoaded(request, loaded).value)
  {
    var a := AlignLoaded(request, loaded).value;
    AlignedIsShared(request, loaded);
    AlignedSeries(request, loaded);
    hide AlignLoaded, Dates, Select, Tail, Selected;
    forall s | s in loaded ensures a.series[s] == Tail(loaded[s], |a.dates|) {
      SelectIsTail(request, loaded[s], a.dates);
    }
  }

  /**
   * Alignment gives a result exactly when every symbol's newest known bars complete a series, all
   * series end with the same `minimum` sessions, the last being the expected one, and the result is
   * those sessions and, for each symbol, the end of its series.
   */
  lemma AlignsExactlyWhen(request: Request, table: seq<Bar>, a: Aligned)
    ensures Align(request, table) == Ok(a) <==>
      && request.symbols != [] && 0 < request.minimum <= request.limit
      && exists loaded :: LoadedAs(request, table, loaded) && AlignedFrom(request, loaded, a)
  {
    hide AlignLoaded, AlignedFrom, SharedEnd, Load, Selected, Loaded, LoadedAs;
    if request.symbols != [] && 0 < request.minimum <= request.limit {
      var r := Load(request, table, request.symbols);
      if r.Ok? {
        LoadsExactlyWhen(request, table, r.value);
        LoadedFacts(request, table, r.value);
        AlignsFromLoaded(request, r.value, a);
      }
      forall loaded | LoadedAs(request, table, loaded) ensures r == Ok(loaded) {
        LoadsExactlyWhen(request, table, loaded);
      }
    }
  }

  lemma AlignsFromLoaded(request: Request, loaded: map<Id, seq<Bar>>, a: Aligned)
    requires Loaded(request, loaded)
    ensures AlignLoaded(request, loaded) == Ok(a) <==> AlignedFrom(request, loaded, a)
  {
    hide AlignLoaded, SharedEnd, Dates, Tail;
    if AlignLoaded(request, loaded).Ok? {
      AlignedSeriesAre(request, loaded);
    }
    if AlignedFrom(request, loaded, a) {
      SharedAligns(request, loaded, a.dates);
      assert AlignLoaded(request, loaded).value.series == a.series;
    }
  }

  /** Which fault alignment of loaded series raises, from the dates every symbol has. */
  lemma AlignmentFault(request: Request, loaded: map<Id, seq<Bar>>)
    requires Loaded(request, loaded)
    ensures var shared := set d | d in Dates(request, loaded[request.symbols[0]])
                                  && Everywhere(request, loaded, request.symbols, d);
      && (AlignLoaded(request, loaded) == Err(InsufficientSessions) <==> |shared| < request.minimum)
      && (AlignLoaded(request, loaded) == Err(StaleHistory) <==>
            && |shared| >= request.minimum
            && !(request.expected in shared && forall d :: d in shared ==> d.number <= request.expected.number))
      && (AlignLoaded(request, loaded) == Err(InconsistentRecent) <==>
            && |shared| >= request.minimum
            && request.expected in shared && (forall d :: d in shared ==> d.number <= request.expected.number)
            && !exists dates :: SharedEnd(request, loaded, dates))
  {
    hide Common, Dates, SharedEnd, Disagree, Everywhere;
    var shared := set d | d in Dates(request, loaded[request.symbols[0]])
                          && Everywhere(request, loaded, request.symbols, d);
    var common := Common(request, loaded, request.symbols);
    forall d ensures d in common <==> d in shared {
      CommonIs(request, loaded, request.symbols, d);
      if d in common {
        EverywhereFirst(request, loaded, d);
      }
    }
    assert common == shared;
    if |shared| >= request.minimum {
      LatestIsLast(common, request.expected);
    }
    if AlignLoaded(request, loaded).Ok? {
      AlignedIsShared(request, loaded);
    }
    forall dates | SharedEnd(request, loaded, dates) ensures AlignLoaded(request, loaded).Ok? {
      SharedAligns(request, loaded, dates);
    }
  }

  lemma EverywhereFirst(request: Request, loaded: map<Id, seq<Bar>>, d: Day)
    requires request.symbols != [] && (forall s :: s in request.symbols ==> s in loaded)
    requires Everywhere(request, loaded, request.symbols, d)
    ensures d in Dates(request, loaded[request.symbols[0]])
  {
  }

  lemma LatestIsLast(days: set<Day>, d: Day)
    requires days != {}
    ensures Chronological(days) != []
    ensures Chronological(days)[|Chronological(days)| - 1] == d <==> d in days && forall x :: x in days ==> x.number <= d.number
  {
    var listed := Chronological(days);
    assert listed != [];
    var last := listed[|listed| - 1];
    assert last in days;
    forall x | x in days ensures x.number <= last.number {
      assert x in listed;
      var i :| 0 <= i < |listed| && listed[i] == x;
      assert i < |listed| - 1 ==> Number(listed[i]) < Number(last);
    }
  }

  // ---- what an aligned result holds

  lemma SelectedDates(request: Request, bars: seq<Bar>, dates: seq<Day>)
    requires StrictlyAscending(Number, Dates(request, bars)) && StrictlyAscending(Number, dates)
    requires forall d :: d in dates ==> d in Dates(request, bars)
    ensures Dates(request, Select(request, bars, dates)) == dates
  {
    hide Dates, Select;
    SelectKeepsOrder(request, bars, dates);
    AscendingIsUnique(Number, Dates(request, Select(request, bars, dates)), dates);
  }

  /** A newest known bar of the asked series and symbol, among its last `limit`, of a past session, fit and valid. */
  ghost predicate Sound(request: Request, table: seq<Bar>, symbol: Id, b: Bar) {
    var query := Query(request.provider, request.feed, symbol, request.timeframe);
    && IsRevision(table, query, request.cutoff, b)
    && |Later(KnownTimes(table, query, request.cutoff), b.eventTime)| < request.limit
    && Past(request, b) && Fit(request, b)
    && b.close > 0.0 && b.volume >= 0.0
  }

  lemma SeriesIsSound(request: Request, table: seq<Bar>, symbol: Id, bars: seq<Bar>, b: Bar)
    requires request.limit >= 0 && LoadedOne(request, table, symbol, bars) && b in bars
    ensures Sound(request, table, symbol, b)
  {
    hide LatestBars, IsRevision, Later, KnownTimes, Dates, Past, Fit;
    var query := Query(request.provider, request.feed, symbol, request.timeframe);
    var rows := LatestBars(table, query, request.cutoff, request.limit);
    assert StandsAs(request, rows, b);
    var i :| Stands(request, rows, i) && rows[i] == b;
    HeldIsRecent(table, query, request.cutoff, request.limit, i);
  }

  /**
   * Every aligned result has `minimum` ascending dates ending at the expected session and before the
   * current one, the same for every symbol, and only bars that were known at the cutoff.
   */
  lemma AlignedHolds(request: Request, table: seq<Bar>)
    requires Align(request, table).Ok?
    ensures var a := Align(request, table).value;
      && |a.dates| == request.minimum && StrictlyAscending(Number, a.dates)
      && a.dates != [] && a.dates[|a.dates| - 1] == request.expected
      && (forall s :: s in a.series <==> s in request.symbols)
      && (forall s :: s in a.series ==> Dates(request, a.series[s]) == a.dates)
      && (forall s, b :: s in a.series && b in a.series[s] ==> Sound(request, table, s, b))
      && (forall d :: d in a.dates ==> d.number < request.current.number)
  {
    hide Load, Sound, Dates, Select, SeriesOf, LoadedOne;
    var loaded := Load(request, table, request.symbols).value;
    var a := Align(request, table).value;
    LoadsExactlyWhen(request, table, loaded);
    LoadedFacts(request, table, loaded);
    AlignedIsShared(request, loaded);
    AlignedSeries(request, loaded);
    forall s | s in a.series ensures Dates(request, a.series[s]) == a.dates {
      EndIsContained(request, loaded, a.dates, s);
      SelectedDates(request, loaded[s], a.dates);
    }
    forall s, b | s in a.series && b in a.series[s] ensures Sound(request, table, s, b) {
      SelectIsPart(request, loaded[s], a.dates, b);
      SeriesIsSound(request, table, s, loaded[s], b);
    }
    forall d | d in a.dates ensures d.number < request.current.number {
      var s := request.symbols[0];
      var k :| 0 <= k < |a.dates| && a.dates[k] == d;
      assert s in a.series;
      DateIsBefore(request, table, s, a.series[s], k);
    }
  }

  lemma AlignedSeries(request: Request, loaded: map<Id, seq<Bar>>)
    requires Loaded(request, loaded) && AlignLoaded(request, loaded).Ok?
    ensures var a := AlignLoaded(request, loaded).value;
      a.series.Keys == loaded.Keys && forall s :: s in loaded ==> a.series[s] == Select(request, loaded[s], a.dates)
  {
    hide Common, Disagree, Dates, Tail, Select;
  }

  lemma EndIsContained(request: Request, loaded: map<Id, seq<Bar>>, dates: seq<Day>, s: Id)
    requires SharedEnd(request, loaded, dates) && s in loaded
    ensures forall d :: d in dates ==> d in Dates(request, loaded[s])
  {
    hide Dates;
  }

  lemma SelectIsPart(request: Request, bars: seq<Bar>, dates: seq<Day>, b: Bar)
    requires b in Select(request, bars, dates)
    ensures b in bars
  {
  }

  lemma DateIsBefore(request: Request, table: seq<Bar>, s: Id, bars: seq<Bar>, k: nat)
    requires k < |bars| && forall b :: b in bars ==> Sound(request, table, s, b)
    ensures k < |Dates(request, bars)| && Dates(request, bars)[k].number < request.current.number
  {
    assert Sound(request, table, s, bars[k]);
  }

  // ---- stability

  lemma {:induction false} LoadIsStable(request: Request, table: seq<Bar>, more: seq<Bar>, symbols: seq<Id>)
    requires request.limit >= 0
    requires forall s :: s in symbols ==> SeriesOf(request, table, s) == SeriesOf(request, more, s)
    ensures Load(request, table, symbols) == Load(request, more, symbols)
  {
    hide SeriesOf;
    if symbols != [] {
      LoadIsStable(request, table, more, symbols[..|symbols| - 1]);
    }
  }

  /** Rows that become available after the cutoff never change the aligned inputs, nor an error. */
  lemma AlignmentIsStable(request: Request, table: seq<Bar>, bars: seq<Bar>)
    requires forall b :: b in bars ==> b.availableAt > request.cutoff
    ensures Align(request, InsertAll(table, bars)) == Align(request, table)
  {
    hide Load, LatestBars, Completed, AlignLoaded, InsertAll;
    if request.limit >= 0 {
      forall s | s in request.symbols
        ensures SeriesOf(request, InsertAll(table, bars), s) == SeriesOf(request, table, s)
      {
        PastViewsAreStable(table, bars, QueryFor(request, s), request.cutoff, request.limit);
      }
      LoadIsStable(request, InsertAll(table, bars), table, request.symbols);
    }
  }
}
