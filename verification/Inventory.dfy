/** Average-cost inventory: a second computation of an arm's money, from the same fills. */
module Inventory {
  import opened Identifiers
  import opened Ordering
  import opened Orders
  import opened Portfolio
  import opened Results
  import opened Totals

  /** Quantity held, cost of what is held and realized profit, by symbol. */
  datatype Books = Books(quantity: Amounts, cost: Amounts, realized: Amounts)

  datatype Holding = Holding(cost: real, average: Option<real>, realized: real)

  /** The cost that leaves with the units sold, at the average cost of the units held. */
  function Released(cost: real, quantity: real, sold: real): real
    requires quantity > 0.0
  {
    cost / quantity * sold
  }

  /** One fill posted to the books; a sale of more than is held is refused with its symbol. */
  function Post(books: Books, fill: Fill): Result<Books, Id> {
    var s := fill.symbol;
    var quantity, cost := Get(books.quantity, s), Get(books.cost, s);
    if fill.side.Buy? then
      Ok(Books(
        books.quantity[s := quantity + fill.quantity],
        books.cost[s := cost + fill.Notional() + fill.commission],
        books.realized))
    else if quantity <= 0.0 || fill.quantity > quantity then Err(s)
    else
      var released := Released(cost, quantity, fill.quantity);
      Ok(Books(
        books.quantity[s := quantity - fill.quantity],
        books.cost[s := cost - released],
        books.realized[s := Get(books.realized, s) + (fill.Notional() - fill.commission - released)]))
  }

  function Empty(): Books { Books(map[], map[], map[]) }

  function PostAll(fills: seq<Fill>): Result<Books, Id> {
    if fills == [] then Ok(Empty())
    else
      var before := PostAll(fills[..|fills| - 1]);
      if before.Err? then before else Post(before.value, fills[|fills| - 1])
  }

  function Holdings(books: Books): map<Id, Holding> {
    map s | s in books.quantity.Keys + books.realized.Keys ::
      Holding(
        Get(books.cost, s),
        if Get(books.quantity, s) == 0.0 then None else Some(Get(books.cost, s) / Get(books.quantity, s)),
        Get(books.realized, s))
  }

  method InventoryCosts(fills: seq<Fill>) returns (r: Result<map<Id, Holding>, Id>)
    ensures r.Err? <==> PostAll(Sort(ByTime, fills)).Err?
    ensures r.Err? ==> r.error == PostAll(Sort(ByTime, fills)).error
    ensures r.Ok? ==> r.value == Holdings(PostAll(Sort(ByTime, fills)).value)
  {
    hide Post, Holdings;
    var sorted := Sort(ByTime, fills);
    var books := Empty();
    for k := 0 to |sorted|
      invariant PostAll(sorted[..k]) == Ok(books)
    {
      PostNext(sorted, k);
      var next := Post(books, sorted[k]);
      if next.Err? {
        PostRefusalIsFinal(sorted, k + 1);
        return Err(next.error);
      }
      books := next.value;
    }
    assert sorted[..|sorted|] == sorted;
    r := Ok(Holdings(books));
  }

  lemma PostNext(fills: seq<Fill>, k: nat)
    requires k < |fills|
    ensures PostAll(fills[..k + 1])
         == if PostAll(fills[..k]).Err? then PostAll(fills[..k]) else Post(PostAll(fills[..k]).value, fills[k])
  {
    assert fills[..k + 1][..k] == fills[..k];
  }

  lemma {:induction false} PostRefusalIsFinal(fills: seq<Fill>, k: nat)
    requires k <= |fills| && PostAll(fills[..k]).Err?
    ensures PostAll(fills) == PostAll(fills[..k])
    decreases |fills| - k
  {
    if k < |fills| {
      PostNext(fills, k);
      PostRefusalIsFinal(fills, k + 1);
    } else {
      assert fills[..k] == fills;
    }
  }

  // ---- average cost

  lemma ReleasedBounds(cost: real, quantity: real, sold: real)
    requires cost >= 0.0 && 0.0 < sold <= quantity
    ensures 0.0 <= Released(cost, quantity, sold) <= cost
    ensures sold == quantity ==> Released(cost, quantity, sold) == cost
  {
    var average := cost / quantity;
    assert average >= 0.0;
    assert average * quantity == cost;
    assert average * (quantity - sold) >= 0.0;
    assert average * sold == average * quantity - average * (quantity - sold);
  }

  /** Selling part of a holding leaves its average cost where it was. */
  lemma SaleKeepsAverage(books: Books, fill: Fill)
    requires fill.Valid() && fill.side.Sell? && Post(books, fill).Ok?
    requires Get(Post(books, fill).value.quantity, fill.symbol) > 0.0
    ensures Get(books.quantity, fill.symbol) > 0.0
    ensures Get(Post(books, fill).value.cost, fill.symbol) / Get(Post(books, fill).value.quantity, fill.symbol)
         == Get(books.cost, fill.symbol) / Get(books.quantity, fill.symbol)
  {
    AverageAfterRelease(Get(books.cost, fill.symbol), Get(books.quantity, fill.symbol), fill.quantity);
  }

  lemma AverageAfterRelease(cost: real, quantity: real, sold: real)
    requires 0.0 < sold < quantity
    ensures (cost - Released(cost, quantity, sold)) / (quantity - sold) == cost / quantity
  {
    var average := cost / quantity;
    assert average * quantity == cost;
    assert cost - average * sold == average * (quantity - sold);
    Quotient(average, quantity - sold);
  }

  lemma Quotient(x: real, y: real)
    requires y > 0.0
    ensures x * y / y == x
  {
  }

  // ---- what the books keep

  ghost predicate Sound(books: Books) {
    && books.cost.Keys == books.quantity.Keys
    && books.realized.Keys <= books.quantity.Keys
    && (forall k :: k in books.quantity ==> SoundLine(books.quantity[k], books.cost[k]))
  }

  /** Nothing is held short, and nothing held means nothing left in cost. */
  ghost predicate SoundLine(quantity: real, cost: real) {
    quantity >= 0.0 && cost >= 0.0 && (quantity == 0.0 ==> cost == 0.0)
  }

  /** The books after some fills: sound, holding what was bought and not sold, and balanced. */
  ghost predicate Tracks(books: Books, fills: seq<Fill>) {
    && Sound(books)
    && books.quantity.Keys == SymbolsOf(fills)
    && (forall k :: Get(books.quantity, k) == Sum(Delta(k), fills))
    && (forall k :: Get(books.realized, k) - Get(books.cost, k) == Sum(FlowOf(k), fills))
    && Total(books.realized) - Total(books.cost) == Sum(Flow, fills)
  }

  /** The cash that one symbol's fills bring in. */
  ghost function FlowOf(symbol: Id): Fill -> real {
    (fill: Fill) => if fill.symbol == symbol then fill.CashFlow() else 0.0
  }

  lemma GetSound(books: Books, k: Id)
    requires Sound(books)
    ensures SoundLine(Get(books.quantity, k), Get(books.cost, k))
  {
  }

  lemma PostKeepsSound(books: Books, fill: Fill)
    requires Sound(books) && fill.Valid() && Post(books, fill).Ok?
    ensures Sound(Post(books, fill).value)
    ensures Post(books, fill).value.quantity
         == books.quantity[fill.symbol := Get(books.quantity, fill.symbol) + fill.Signed()]
  {
    hide Released;
    GetSound(books, fill.symbol);
    PositiveNotional(fill);
    if fill.side.Sell? {
      ReleasedBounds(Get(books.cost, fill.symbol), Get(books.quantity, fill.symbol), fill.quantity);
    }
    hide Fill.Notional;
  }

  lemma PositiveNotional(fill: Fill)
    requires fill.Valid()
    ensures fill.Notional() > 0.0
  {
  }

  /** What leaves the books as cost comes back as realized profit or as cash. */
  lemma PostBalances(books: Books, fill: Fill)
    requires Post(books, fill).Ok?
    ensures var after := Post(books, fill).value;
      Total(after.realized) - Total(after.cost) == Total(books.realized) - Total(books.cost) + fill.CashFlow()
  {
    hide Released, Total, Fill.Notional;
    var after := Post(books, fill).value;
    TotalUpdate(books.cost, fill.symbol, Get(after.cost, fill.symbol));
    TotalUpdate(books.realized, fill.symbol, Get(after.realized, fill.symbol));
  }

  lemma PostBalancesEach(books: Books, fill: Fill, k: Id)
    requires Post(books, fill).Ok?
    ensures var after := Post(books, fill).value;
      Get(after.realized, k) - Get(after.cost, k) == Get(books.realized, k) - Get(books.cost, k) + FlowOf(k)(fill)
  {
    hide Released, Fill.Notional;
  }

  lemma TracksStep(books: Books, fills: seq<Fill>, fill: Fill)
    requires Tracks(books, fills) && fill.Valid() && Post(books, fill).Ok?
    ensures Tracks(Post(books, fill).value, fills + [fill])
  {
    hide Post, Sound, Sum, Total, Fill.CashFlow, Fill.Notional, Fill.Valid;
    PostKeepsSound(books, fill);
    PostBalances(books, fill);
    var after := Post(books, fill).value;
    SumLast(Flow, fills, fill);
    assert SymbolsOf(fills + [fill]) == SymbolsOf(fills) + {fill.symbol};
    forall k ensures Get(after.quantity, k) == Sum(Delta(k), fills + [fill]) {
      SumLast(Delta(k), fills, fill);
    }
    forall k ensures Get(after.realized, k) - Get(after.cost, k) == Sum(FlowOf(k), fills + [fill]) {
      SumLast(FlowOf(k), fills, fill);
      PostBalancesEach(books, fill, k);
    }
  }

  lemma TracksNothing()
    ensures Tracks(Empty(), [])
  {
    TotalEmpty();
    assert SymbolsOf([]) == {};
  }

  ghost predicate AllValid(fills: seq<Fill>) {
    forall i :: 0 <= i < |fills| ==> fills[i].Valid()
  }

  lemma {:induction false} BooksTrackFills(fills: seq<Fill>)
    requires AllValid(fills) && PostAll(fills).Ok?
    ensures Tracks(PostAll(fills).value, fills)
  {
    hide Tracks;
    if fills == [] {
      TracksNothing();
    } else {
      var init, last := fills[..|fills| - 1], fills[|fills| - 1];
      BooksTrackFills(init);
      assert fills == init + [last];
      TracksStep(PostAll(init).value, init, last);
    }
  }

  /** One reported symbol: the average times the units held is the cost held, and there is one unless nothing is
      held; realized profit and cost account for the symbol's cash flow. */
  ghost predicate IsLine(line: Holding, held: real, flow: real) {
    && held >= 0.0 && line.cost >= 0.0
    && (line.average.None? <==> held == 0.0)
    && (line.average.None? ==> line.cost == 0.0)
    && (line.average.Some? ==> line.average.value * held == line.cost)
    && line.realized - line.cost == flow
  }

  /** The report has a line for every symbol traded, of the units left and of the cash its fills brought in. */
  lemma ReportedHoldings(fills: seq<Fill>)
    requires AllValid(fills) && PostAll(fills).Ok?
    ensures var report := Holdings(PostAll(fills).value);
      && report.Keys == SymbolsOf(fills)
      && forall k :: k in report ==> IsLine(report[k], Sum(Delta(k), fills), Sum(FlowOf(k), fills))
  {
    hide PostAll, Sum, Total, IsLine;
    BooksTrackFills(fills);
    var books := PostAll(fills).value;
    hide AllValid, SymbolsOf;
    forall k | k in Holdings(books) ensures IsLine(Holdings(books)[k], Sum(Delta(k), fills), Sum(FlowOf(k), fills)) {
      HeldLine(books, k);
    }
  }

  lemma HeldLine(books: Books, k: Id)
    requires Sound(books) && k in Holdings(books)
    ensures IsLine(Holdings(books)[k], Get(books.quantity, k), Get(books.realized, k) - Get(books.cost, k))
  {
    GetSound(books, k);
    if Get(books.quantity, k) != 0.0 {
      QuotientBack(Get(books.cost, k), Get(books.quantity, k));
    }
  }

  lemma QuotientBack(x: real, y: real)
    requires y != 0.0
    ensures x / y * y == x
  {
  }

  // ---- acceptance

  /** The first k + 1 fills leave their last symbol long or flat. */
  ghost predicate Covered(fills: seq<Fill>, k: nat)
    requires k < |fills|
  {
    Sum(Delta(fills[k].symbol), fills[..k + 1]) >= 0.0
  }

  lemma LastCovered(fills: seq<Fill>)
    requires fills != [] && AllValid(fills) && PostAll(fills[..|fills| - 1]).Ok?
    ensures PostAll(fills).Ok? <==> Covered(fills, |fills| - 1)
  {
    hide *;
    var init, last := fills[..|fills| - 1], fills[|fills| - 1];
    ValidParts(fills);
    PostLast(fills);
    CoveredLast(fills);
    HeldQuantity(init, last.symbol);
    PostAccepts(PostAll(init).value, last);
  }

  lemma ValidParts(fills: seq<Fill>)
    requires fills != [] && AllValid(fills)
    ensures AllValid(fills[..|fills| - 1]) && fills[|fills| - 1].Valid()
  {
  }

  lemma PostLast(fills: seq<Fill>)
    requires fills != [] && PostAll(fills[..|fills| - 1]).Ok?
    ensures PostAll(fills) == Post(PostAll(fills[..|fills| - 1]).value, fills[|fills| - 1])
  {
    hide Post;
  }

  lemma CoveredLast(fills: seq<Fill>)
    requires fills != []
    ensures var init, last := fills[..|fills| - 1], fills[|fills| - 1];
      Covered(fills, |fills| - 1) <==> Sum(Delta(last.symbol), init) + last.Signed() >= 0.0
  {
    hide Sum;
    var init, last := fills[..|fills| - 1], fills[|fills| - 1];
    assert fills[..|fills|] == init + [last];
    SumLast(Delta(last.symbol), init, last);
  }

  lemma HeldQuantity(fills: seq<Fill>, k: Id)
    requires AllValid(fills) && PostAll(fills).Ok?
    ensures Get(PostAll(fills).value.quantity, k) == Sum(Delta(k), fills) >= 0.0
  {
    hide PostAll, Sum, Total;
    BooksTrackFills(fills);
    GetSound(PostAll(fills).value, k);
  }

  lemma PostAccepts(books: Books, fill: Fill)
    requires fill.Valid() && Get(books.quantity, fill.symbol) >= 0.0
    ensures Post(books, fill).Ok? <==> Get(books.quantity, fill.symbol) + fill.Signed() >= 0.0
  {
  }

  /** The books accept exactly the fill lists that never sell what is not held. */
  lemma {:induction false} BooksAcceptExactly(fills: seq<Fill>)
    requires AllValid(fills)
    ensures PostAll(fills).Ok? <==> forall k :: 0 <= k < |fills| ==> Covered(fills, k)
  {
    if fills != [] {
      var last := |fills| - 1;
      var init := fills[..last];
      BooksAcceptExactly(init);
      forall k | 0 <= k < last ensures Covered(fills, k) <==> Covered(init, k) {
        assert init[..k + 1] == fills[..k + 1];
      }
      hide Covered;
      if PostAll(init).Ok? {
        LastCovered(fills);
      }
    }
  }

  /** The first k + 1 fills leave the cash non-negative. */
  ghost predicate Funded(cash: real, fills: seq<Fill>, k: nat)
    requires k < |fills|
  {
    cash + Sum(Flow, fills[..k + 1]) >= 0.0
  }

  /** An arm accepts exactly its own fills that the books accept and its cash can pay for. */
  lemma ArmAcceptsExactlyWhen(arm: Id, cash: real, fills: seq<Fill>)
    requires AllValid(fills)
    ensures ApplyAll(Opening(arm, cash), fills).Ok? <==>
      && (forall k :: 0 <= k < |fills| ==> fills[k].arm == arm)
      && PostAll(fills).Ok?
      && (forall k :: 0 <= k < |fills| ==> Funded(cash, fills, k))
  {
    hide ApplyAll, PostAll, Sum;
    var start := Opening(arm, cash);
    AcceptsExactlyAffordable(start, fills);
    BooksAcceptExactly(fills);
    forall k | 0 <= k < |fills|
      ensures Affordable(start, fills, k) <==>
        fills[k].arm == arm && Covered(fills, k) && Funded(cash, fills, k)
    {
    }
    hide Affordable, Covered, Funded;
  }

  // ---- profit and loss

  /** Market value of the priced positions. */
  ghost function Marked(positions: Amounts, prices: Amounts): Amounts {
    map k | k in positions && k in prices :: positions[k] * prices[k]
  }

  ghost predicate OpenPosition(positions: Amounts, k: Id) {
    k in positions && positions[k] != 0.0
  }

  /** Profit not yet realized, by open position. */
  ghost function Unrealized(books: Books, prices: Amounts): Amounts {
    map k | k in books.quantity && OpenPosition(books.quantity, k) ::
      books.quantity[k] * Get(prices, k) - Get(books.cost, k)
  }

  ghost predicate PricesCover(positions: Amounts, prices: Amounts) {
    forall k :: OpenPosition(positions, k) ==> k in prices
  }

  lemma UnrealizedTotal(books: Books, prices: Amounts)
    requires Sound(books) && PricesCover(books.quantity, prices)
    ensures Total(Unrealized(books, prices)) == Total(Marked(books.quantity, prices)) - Total(books.cost)
  {
    hide Total;
    var marked := map k | k in books.quantity :: books.quantity[k] * Get(prices, k);
    var gain := map k | k in books.quantity :: marked[k] - books.cost[k];
    TotalSum(gain, books.cost, marked);
    TotalIgnoresZeros(Unrealized(books, prices), gain);
    TotalIgnoresZeros(Marked(books.quantity, prices), marked);
  }

  /** The arm and the books hold the same units, and their money agrees at any prices. */
  lemma ProfitAndLoss(arm: Id, cash: real, fills: seq<Fill>, prices: Amounts)
    requires AllValid(fills) && ApplyAll(Opening(arm, cash), fills).Ok?
    requires PricesCover(ApplyAll(Opening(arm, cash), fills).value.positions, prices)
    ensures PostAll(fills).Ok?
    ensures Sound(PostAll(fills).value)
    ensures var state, books := ApplyAll(Opening(arm, cash), fills).value, PostAll(fills).value;
      && state.positions == books.quantity
      && state.cash + Total(Marked(state.positions, prices)) - state.initialCash
         == Total(books.realized) + Total(Unrealized(books, prices))
  {
    ArmAcceptsExactlyWhen(arm, cash, fills);
    hide ApplyAll, PostAll, Sum, Total;
    var state, books := ApplyAll(Opening(arm, cash), fills).value, PostAll(fills).value;
    StateIsSum(Opening(arm, cash), fills);
    BooksTrackFills(fills);
    SamePositions(state.positions, books.quantity);
    UnrealizedTotal(books, prices);
  }

  /** Realized profit of the open positions only, as the position table lists it. */
  ghost function Listed(books: Books): Amounts {
    map k | k in books.realized && OpenPosition(books.quantity, k) :: books.realized[k]
  }

  ghost function Retired(books: Books): Amounts {
    map k | k in books.realized && !OpenPosition(books.quantity, k) :: books.realized[k]
  }

  /** The position table shows the whole profit exactly when closed positions realized none in total. */
  lemma TableShowsAllExactlyWhen(arm: Id, cash: real, fills: seq<Fill>, prices: Amounts)
    requires AllValid(fills) && ApplyAll(Opening(arm, cash), fills).Ok?
    requires PricesCover(ApplyAll(Opening(arm, cash), fills).value.positions, prices)
    ensures PostAll(fills).Ok?
    ensures var state, books := ApplyAll(Opening(arm, cash), fills).value, PostAll(fills).value;
      state.cash + Total(Marked(state.positions, prices)) - state.initialCash
        == Total(Listed(books)) + Total(Unrealized(books, prices))
      <==> Total(Retired(books)) == 0.0
  {
    ProfitAndLoss(arm, cash, fills, prices);
    hide ApplyAll, PostAll, Total;
    RealizedSplits(PostAll(fills).value);
  }

  lemma RealizedSplits(books: Books)
    ensures Total(books.realized) == Total(Listed(books)) + Total(Retired(books))
  {
    hide Total, OpenPosition;
    var listed := map k | k in books.realized :: Get(Listed(books), k);
    var retired := map k | k in books.realized :: Get(Retired(books), k);
    TotalIgnoresZeros(Listed(books), listed);
    TotalIgnoresZeros(Retired(books), retired);
    TotalSum(listed, retired, books.realized);
  }

  /** It need not: one unit bought at 1 and sold at 2 leaves an empty table and a profit of 1. */
  lemma ClosedPositionHidesProfit(arm: Id, symbol: Id, order: OrderRef, scenario: Id, prices: Amounts) returns (fills: seq<Fill>)
    ensures AllValid(fills) && ApplyAll(Opening(arm, 1.0), fills).Ok? && PostAll(fills).Ok?
    ensures var state, books := ApplyAll(Opening(arm, 1.0), fills).value, PostAll(fills).value;
      && PricesCover(state.positions, prices)
      && state.cash + Total(Marked(state.positions, prices)) - state.initialCash == 1.0
      && Listed(books) == map[] && Unrealized(books, prices) == map[]
  {
    var buy := Fill(Id(0), order, arm, symbol, Buy, 1.0, 1.0, 0.0, scenario, 1, 1);
    var sell := Fill(Id(1), order, arm, symbol, Sell, 1.0, 2.0, 0.0, scenario, 2, 2);
    fills := [buy, sell];
    assert fills[..1] == [buy] && [buy][..0] == [];
    var start := Opening(arm, 1.0);
    assert ApplyAll(start, [buy]) == ApplyFill(start, buy);
    var state := ApplyAll(start, fills).value;
    assert state.cash == 2.0 && state.positions == map[symbol := 0.0];
    ProfitAndLoss(arm, 1.0, fills, prices);
    var books := PostAll(fills).value;
    assert books.quantity == map[symbol := 0.0];
    NothingOpen(books, prices);
    NothingMarked(state.positions, prices);
  }

  lemma NothingOpen(books: Books, prices: Amounts)
    requires forall k :: k in books.quantity ==> books.quantity[k] == 0.0
    ensures Listed(books) == map[] && Unrealized(books, prices) == map[]
  {
  }

  lemma NothingMarked(positions: Amounts, prices: Amounts)
    requires forall k :: k in positions ==> positions[k] == 0.0
    ensures Total(Marked(positions, prices)) == 0.0
  {
    TotalEmpty();
    TotalIgnoresZeros(map[], Marked(positions, prices));
  }
}
