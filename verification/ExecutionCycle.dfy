/** One execution cycle over all candidates: sells first, threading cash, positions and capacity. */
module ExecutionCycle {
  import opened Decimals
  import opened FillEconomics
  import opened FillLaws
  import opened Identifiers
  import opened Ordering
  import opened Orders
  import opened OrderAppend
  import opened OrderExecution
  import opened OrderReplay
  import opened Results
  import opened Totals

  /** A pending order with its earlier fills and the quote found for it; the tick's capacity is what the session
      still allows its arm in the symbol. */
  datatype Candidate = Candidate(order: Order, aggregate: Aggregate, fills: seq<Fill>, tick: Tick, origin: string)

  /** Proceeds of a sale that settle later. */
  datatype Receivable = Receivable(source: Id, amount: real, settlesOn: int)

  datatype Wallet = Wallet(settled: real, receivables: seq<Receivable>, positions: Amounts)

  datatype WalletFault = ExceedsSettledCash | ShortPosition | NoReceivable

  datatype Key = Key(arm: Id, symbol: Id)

  datatype Mutation = Mutation(order: Order, outcome: Outcome, event: Event)

  /** The working states, the capacity left by arm and symbol, and what has been prepared. */
  datatype CycleState = CycleState(wallets: map<Id, Wallet>, capacity: map<Key, real>, prepared: seq<Mutation>)

  datatype CycleStop = Stopped(stop: Stop) | WalletRefused(fault: WalletFault)

  /** The instant of the cycle, the settlement date of its sales and the event book it reads. */
  datatype Setting = Setting(at: int, settlement: Option<int>, book: seq<Event>)

  /** Sells before buys, then by arm, symbol and order id. */
  predicate Precedes(a: Candidate, b: Candidate) {
    var x, y := a.order, b.order;
    if x.side != y.side then x.side.Sell?
    else if x.arm != y.arm then x.arm.code < y.arm.code
    else if x.symbol != y.symbol then x.symbol.code < y.symbol.code
    else x.id.code <= y.id.code
  }

  /** A position that reaches zero is dropped. */
  function Put(positions: Amounts, symbol: Id, quantity: real): Amounts {
    if quantity == 0.0 then positions - {symbol} else positions[symbol := quantity]
  }

  function ApplyFill(w: Wallet, order: Order, f: Fill, settlement: Option<int>): Result<Wallet, WalletFault> {
    var held, n := Get(w.positions, order.symbol), Notional(f.quantity, f.price);
    if order.side.Buy? then
      if n + f.commission > w.settled then Err(ExceedsSettledCash)
      else Ok(Wallet(w.settled - (n + f.commission), w.receivables, Put(w.positions, order.symbol, held + f.quantity)))
    else if f.quantity > held then Err(ShortPosition)
    else if n - f.commission <= 0.0 || settlement.None? then Err(NoReceivable)
    else
      Ok(Wallet(
        w.settled,
        w.receivables + [Receivable(order.id, n - f.commission, settlement.value)],
        Put(w.positions, order.symbol, held - f.quantity)))
  }

  function Place(c: Candidate): Key { Key(c.order.arm, c.order.symbol) }

  function CapacityFor(p: CycleState, c: Candidate): real {
    if Place(c) in p.capacity then p.capacity[Place(c)] else c.tick.advCapacity
  }

  /** What the candidate meets: its quote, with the capacity, holding and settled cash left by then. */
  function MarketFor(p: CycleState, c: Candidate, s: Setting): Market
    requires c.order.arm in p.wallets
  {
    var w := p.wallets[c.order.arm];
    Market(c.tick.(advCapacity := CapacityFor(p, c)), Get(w.positions, c.order.symbol), w.settled, s.settlement, s.at, c.origin)
  }

  function Record(p: CycleState, c: Candidate, outcome: Outcome, m: Market, s: Setting): Result<CycleState, CycleStop> {
    match AppendEvent(c.order, s.book, Propose(outcome, c.aggregate, m))
    case Err(refusal) => Err(Stopped(Refused(refusal)))
    case Ok(e) => Ok(p.(prepared := p.prepared + [Mutation(c.order, outcome, e)]))
  }

  function Process(p: CycleState, c: Candidate, s: Setting, config: Config): Result<CycleState, CycleStop>
    requires config.Valid()
  {
    if c.order.arm !in p.wallets then
      Record(p, c, Block(BlockedByData), Market(c.tick, 0.0, 0.0, s.settlement, s.at, c.origin), s)
    else
      var m, cap := MarketFor(p, c, s), CapacityFor(p, c);
      match Weigh(c.order, c.aggregate, TradedNotional(c.fills), m, config)
      case Err(stop) => Err(Stopped(stop))
      case Ok(Block(kind)) => Record(p.(capacity := p.capacity[Place(c) := cap]), c, Block(kind), m, s)
      case Ok(Trade(f)) =>
        match ApplyFill(p.wallets[c.order.arm], c.order, f, s.settlement)
        case Err(fault) => Err(WalletRefused(fault))
        case Ok(w) =>
          Record(p.(wallets := p.wallets[c.order.arm := w], capacity := p.capacity[Place(c) := cap - f.quantity]),
                 c, Trade(f), m, s)
  }

  function Prepare(p: CycleState, candidates: seq<Candidate>, s: Setting, config: Config): Result<CycleState, CycleStop>
    requires config.Valid()
  {
    if candidates == [] then Ok(p)
    else match Prepare(p, candidates[..|candidates| - 1], s, config)
      case Err(stop) => Err(stop)
      case Ok(q) => Process(q, candidates[|candidates| - 1], s, config)
  }

  function Begin(wallets: map<Id, Wallet>): CycleState { CycleState(wallets, map[], []) }

  method PrepareFillMutations(wallets: map<Id, Wallet>, candidates: seq<Candidate>, s: Setting, config: Config)
    returns (r: Result<CycleState, CycleStop>)
    requires config.Valid()
    ensures r == Prepare(Begin(wallets), Sort(Precedes, candidates), s, config)
  {
    hide Process;
    var ordered := Sort(Precedes, candidates);
    var p := Begin(wallets);
    for k := 0 to |ordered|
      invariant Prepare(Begin(wallets), ordered[..k], s, config) == Ok(p)
    {
      PrepareNext(Begin(wallets), ordered, k, s, config);
      var next := Process(p, ordered[k], s, config);
      if next.Err? {
        StopIsFinal(Begin(wallets), ordered, k + 1, s, config);
        return next;
      }
      p := next.value;
    }
    assert ordered[..|ordered|] == ordered;
    r := Ok(p);
  }

  lemma PrepareNext(p: CycleState, candidates: seq<Candidate>, k: nat, s: Setting, config: Config)
    requires config.Valid() && k < |candidates|
    ensures Prepare(p, candidates[..k + 1], s, config)
         == if Prepare(p, candidates[..k], s, config).Err? then Prepare(p, candidates[..k], s, config)
            else Process(Prepare(p, candidates[..k], s, config).value, candidates[k], s, config)
  {
    hide Process;
    assert candidates[..k + 1][..k] == candidates[..k];
  }

  lemma {:induction false} StopIsFinal(p: CycleState, candidates: seq<Candidate>, k: nat, s: Setting, config: Config)
    requires config.Valid() && k <= |candidates| && Prepare(p, candidates[..k], s, config).Err?
    ensures Prepare(p, candidates, s, config) == Prepare(p, candidates[..k], s, config)
    decreases |candidates| - k
  {
    hide Process;
    if k < |candidates| {
      PrepareNext(p, candidates, k, s, config);
      StopIsFinal(p, candidates, k + 1, s, config);
    } else {
      assert candidates[..k] == candidates;
    }
  }

  // ---- what every cycle keeps

  /** No arm overdraws its settled cash, is short, or is owed nothing. */
  ghost predicate Solvent(w: Wallet) {
    && w.settled >= 0.0
    && (forall k :: k in w.positions ==> w.positions[k] > 0.0)
    && (forall i :: 0 <= i < |w.receivables| ==> w.receivables[i].amount > 0.0)
  }

  ghost predicate AllSolvent(wallets: map<Id, Wallet>) {
    forall arm :: arm in wallets ==> Solvent(wallets[arm])
  }

  /** A candidate as the cycle builds them: a valid pending order whose stream and fills agree. */
  ghost predicate Genuine(c: Candidate, s: Setting, config: Config)
    requires config.Valid()
  {
    && c.order.Valid() && c.order.createdAt <= s.at
    && c.tick.advCapacity >= 0.0
    && Working(c.order, Execution(s.book, c.fills), config)
    && Reduce(c.order, s.book, None) == Ok(c.aggregate) && c.aggregate.Pending()
  }

  /** What a computed fill has passed by the time it is traded. */
  lemma TradeFacts(order: Order, g: Aggregate, notional: real, m: Market, config: Config)
    requires config.Valid() && Weigh(order, g, notional, m, config).Ok? && Weigh(order, g, notional, m, config).value.Trade?
    ensures var f := Weigh(order, g, notional, m, config).value.fill;
      && Recordable(f) && f.quantity <= m.tick.advCapacity
      && (order.side.Buy? ==> Notional(f.quantity, f.price) + f.commission <= m.cash)
      && (order.side.Sell? ==>
            f.quantity <= m.position && m.settlement.Some? && Notional(f.quantity, f.price) - f.commission > 0.0)
  {
    hide BuildFill, Recordable, Notional, Allowance, OnGrid, QuantizeDown, Capped, FillPrice, OrderCommission, Reports;
    var executable := Min(g.remaining, Allowance(order, g.commission, notional, m, config).value);
    FillIsWithinCaps(order.side, executable, m.tick, notional, g.commission, config);
    if order.side.Sell? {
      assert Allowance(order, g.commission, notional, m, config).value == m.position by { SaleAllowance(order, g.commission, notional, m, config); }
    }
  }

  lemma SaleAllowance(order: Order, commission: real, notional: real, m: Market, config: Config)
    requires config.Valid() && order.side.Sell?
    ensures Allowance(order, commission, notional, m, config) == Ok(m.position)
  {
  }

  lemma PutGet(positions: Amounts, symbol: Id, quantity: real, k: Id)
    ensures Get(Put(positions, symbol, quantity), k) == if k == symbol then quantity else Get(positions, k)
  {
  }

  /** A traded fill is never refused by the wallet, and leaves it solvent. */
  lemma WalletTakes(w: Wallet, order: Order, f: Fill, settlement: Option<int>)
    requires Solvent(w) && Recordable(f)
    requires order.side.Buy? ==> Notional(f.quantity, f.price) + f.commission <= w.settled
    requires order.side.Sell? ==>
      f.quantity <= Get(w.positions, order.symbol) && settlement.Some? && Notional(f.quantity, f.price) - f.commission > 0.0
    ensures ApplyFill(w, order, f, settlement).Ok? && Solvent(ApplyFill(w, order, f, settlement).value)
  {
    hide Notional;
  }

  /** A genuine candidate's event is never refused. */
  lemma RecordSucceeds(p: CycleState, c: Candidate, outcome: Outcome, m: Market, s: Setting, config: Config)
    requires config.Valid() && Genuine(c, s, config) && m.at == s.at
    requires outcome == Block(BlockedByData) || Weigh(c.order, c.aggregate, TradedNotional(c.fills), m, config) == Ok(outcome)
    ensures Record(p, c, outcome, m, s).Ok?
    ensures var q := Record(p, c, outcome, m, s).value;
      && q.wallets == p.wallets && q.capacity == p.capacity && |q.prepared| == |p.prepared| + 1
      && q.prepared[..|p.prepared|] == p.prepared
      && q.prepared[|p.prepared|].order == c.order && q.prepared[|p.prepared|].outcome == outcome
  {
    hide Weigh, Reduce, AppendEvent, Propose, FitsStatus, TradedNotional;
    if outcome == Block(BlockedByData) {
      BlockFits(c.aggregate, m);
    } else {
      ProposalFits(c.order, c.aggregate, TradedNotional(c.fills), m, config);
    }
    OutcomeAppends(c.order, s.book, outcome, m);
  }

  lemma BlockFits(g: Aggregate, m: Market)
    requires !g.status.Terminal()
    ensures var a := Propose(Block(BlockedByData), g, m);
      FitsStatus(a, g) && a.commissionDelta >= 0.0 && a.occurredAt == m.at && a.availableAt == m.at
  {
  }
}
