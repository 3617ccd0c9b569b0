/** What a whole execution cycle does to every arm's cash, positions and capacity. */
module ExecutionCycleLaws {
  import opened ExecutionCycle
  import opened FillEconomics
  import opened FillLaws
  import opened Identifiers
  import opened Ordering
  import opened OrderAppend
  import opened Orders
  import opened OrderExecution
  import opened Totals

  // ---- one candidate

  /** The candidate's arm has a state, and its tick stops the cycle with what is left by then. */
  ghost predicate TripsNow(p: CycleState, c: Candidate, s: Setting, config: Config)
    requires config.Valid()
  {
    && c.order.arm in p.wallets
    && Trips(c.order.side, c.aggregate.remaining, c.fills, Faced(p, c, s), config)
  }

  /** What the candidate meets at its turn: its quote, the capacity its arm has left in the symbol, what the arm holds
      of it, and the arm's settled cash. */
  ghost function Faced(p: CycleState, c: Candidate, s: Setting): Market
    requires c.order.arm in p.wallets
  {
    var key, w := Key(c.order.arm, c.order.symbol), p.wallets[c.order.arm];
    Market(
      c.tick.(advCapacity := if key in p.capacity then p.capacity[key] else c.tick.advCapacity),
      Get(w.positions, c.order.symbol), w.settled, s.settlement, s.at, c.origin)
  }

  lemma FacedIs(p: CycleState, c: Candidate, s: Setting)
    requires c.order.arm in p.wallets
    ensures MarketFor(p, c, s) == Faced(p, c, s)
  {
  }

  /** How one candidate moves the cycle on. */
  ghost predicate Moves(p: CycleState, c: Candidate, s: Setting, q: CycleState) {
    && |q.prepared| == |p.prepared| + 1 && q.prepared[..|p.prepared|] == p.prepared
    && var u := q.prepared[|p.prepared|];
       && u.order == c.order
       && match u.outcome
          case Block(_) =>
            && q.wallets == p.wallets
            && q.capacity == (if c.order.arm in p.wallets then p.capacity[Place(c) := CapacityFor(p, c)] else p.capacity)
          case Trade(f) =>
            && c.order.arm in p.wallets && Recordable(f) && f.quantity <= CapacityFor(p, c)
            && ApplyFill(p.wallets[c.order.arm], c.order, f, s.settlement).Ok?
            && q.wallets == p.wallets[c.order.arm := ApplyFill(p.wallets[c.order.arm], c.order, f, s.settlement).value]
            && q.capacity == p.capacity[Place(c) := CapacityFor(p, c) - f.quantity]
  }

  lemma TradeMoves(p: CycleState, c: Candidate, s: Setting, config: Config)
    requires config.Valid() && Genuine(c, s, config) && AllSolvent(p.wallets) && c.order.arm in p.wallets
    requires Weigh(c.order, c.aggregate, TradedNotional(c.fills), MarketFor(p, c, s), config).Ok?
    ensures Process(p, c, s, config).Ok?
    ensures Moves(p, c, s, Process(p, c, s, config).value) && AllSolvent(Process(p, c, s, config).value.wallets)
  {
    hide Weigh, Genuine, Recordable, Notional, Record, TradedNotional, Solvent, ApplyFill;
    var m := MarketFor(p, c, s);
    var outcome := Weigh(c.order, c.aggregate, TradedNotional(c.fills), m, config).value;
    var w := p.wallets[c.order.arm];
    match outcome
    case Block(kind) =>
      RecordSucceeds(p.(capacity := p.capacity[Place(c) := CapacityFor(p, c)]), c, outcome, m, s, config);
    case Trade(f) =>
      TradeFacts(c.order, c.aggregate, TradedNotional(c.fills), m, config);
      WalletTakes(w, c.order, f, s.settlement);
      var next := ApplyFill(w, c.order, f, s.settlement).value;
      RecordSucceeds(
        p.(wallets := p.wallets[c.order.arm := next], capacity := p.capacity[Place(c) := CapacityFor(p, c) - f.quantity]),
        c, outcome, m, s, config);
  }

  /** A genuine candidate stops the cycle exactly when it trips; no wallet and no event ever refuses it. */
  lemma ProcessExactly(p: CycleState, c: Candidate, s: Setting, config: Config)
    requires config.Valid() && Genuine(c, s, config) && AllSolvent(p.wallets)
    ensures Process(p, c, s, config).Err? <==> TripsNow(p, c, s, config)
    ensures Process(p, c, s, config).Err? ==>
      Process(p, c, s, config).error.Stopped? && Legitimate(Process(p, c, s, config).error.stop)
    ensures Process(p, c, s, config).Ok? ==>
      Moves(p, c, s, Process(p, c, s, config).value) && AllSolvent(Process(p, c, s, config).value.wallets)
  {
    hide Weigh, Genuine, Record, TradedNotional, Solvent, ApplyFill, Trips, Legitimate, CommissionsCharged;
    if c.order.arm in p.wallets {
      FacedIs(p, c, s);
      GenuineIs(c, s, config);
      StopsExactlyWhen(c.order, c.aggregate, c.fills, MarketFor(p, c, s), config);
      if Weigh(c.order, c.aggregate, TradedNotional(c.fills), MarketFor(p, c, s), config).Ok? {
        TradeMoves(p, c, s, config);
      }
    } else {
      RecordSucceeds(p, c, Block(BlockedByData), Market(c.tick, 0.0, 0.0, s.settlement, s.at, c.origin), s, config);
    }
  }

  lemma GenuineIs(c: Candidate, s: Setting, config: Config)
    requires config.Valid() && Genuine(c, s, config)
    ensures Booked(c.order.side, config, c.fills) && c.aggregate.commission == CommissionsCharged(c.fills)
    ensures c.tick.advCapacity >= 0.0
  {
  }

  /** What is prepared for a candidate at its turn: what its tick gives, or a wait for data where the arm has no state;
      and an event that says so. */
  ghost predicate Prepares(p: CycleState, c: Candidate, s: Setting, config: Config, u: Mutation)
    requires config.Valid()
  {
    && u.order == c.order
    && if c.order.arm in p.wallets
       then
         && Gives(c.order.side, c.aggregate.remaining, c.fills, Faced(p, c, s), config, u.outcome)
         && Announces(u.event, c.order, c.aggregate.remaining, Faced(p, c, s), u.outcome)
       else
         && u.outcome == Block(BlockedByData)
         && Announces(u.event, c.order, c.aggregate.remaining, Market(c.tick, 0.0, 0.0, s.settlement, s.at, c.origin), u.outcome)
  }

  lemma ProcessPrepares(p: CycleState, c: Candidate, s: Setting, config: Config)
    requires config.Valid() && Genuine(c, s, config) && AllSolvent(p.wallets) && Process(p, c, s, config).Ok?
    ensures var q := Process(p, c, s, config).value;
      exists u :: q.prepared == p.prepared + [u] && Prepares(p, c, s, config, u)
  {
    hide Weigh, Genuine, TradedNotional, Solvent, ApplyFill, Trips, CommissionsCharged, Gives, Announces, AppendEvent, Propose, Booked;
    ProcessExactly(p, c, s, config);
    var q := Process(p, c, s, config).value;
    if c.order.arm in p.wallets {
      FacedIs(p, c, s);
      GenuineIs(c, s, config);
      var m := MarketFor(p, c, s);
      TicksExactlyWhen(c.order, c.aggregate, c.fills, m, config);
      var outcome := Weigh(c.order, c.aggregate, TradedNotional(c.fills), m, config).value;
      ProposedIsAnnounced(c.order, s.book, c.aggregate, m, outcome);
    } else {
      var m := Market(c.tick, 0.0, 0.0, s.settlement, s.at, c.origin);
      ProposedIsAnnounced(c.order, s.book, c.aggregate, m, Block(BlockedByData));
    }
  }

  /** Candidate by candidate, a cycle prepares what the tick of each gives with what the earlier ones left. */
  lemma CyclePrepares(wallets: map<Id, Wallet>, candidates: seq<Candidate>, s: Setting, config: Config, k: nat)
    requires config.Valid() && AllSolvent(wallets) && AllGenuine(candidates, s, config) && k < |candidates|
    requires Prepare(Begin(wallets), candidates, s, config).Ok?
    ensures Prepare(Begin(wallets), candidates[..k], s, config).Ok?
    ensures var all := Prepare(Begin(wallets), candidates, s, config).value.prepared;
      && |all| == |candidates|
      && Prepares(Prepare(Begin(wallets), candidates[..k], s, config).value, candidates[k], s, config, all[k])
  {
    hide Process, Genuine, Solvent, Prepares, Prepare;
    var before, upTo := candidates[..k], candidates[..k + 1];
    PartOfCycle(wallets, candidates, s, config, k);
    PartOfCycle(wallets, candidates, s, config, k + 1);
    PreparedFollows(wallets, candidates, s, config);
    assert forall x :: x in before ==> x in candidates;
    CycleIsSolvent(wallets, before, s, config);
    PrepareNext(Begin(wallets), candidates, k, s, config);
    assert candidates[k] in candidates;
    ProcessPrepares(Prepare(Begin(wallets), before, s, config).value, candidates[k], s, config);
    var all := Prepare(Begin(wallets), candidates, s, config).value.prepared;
    assert all[..k + 1][k] == all[k];
  }

  // ---- tallies over what has been prepared

  function Spent(arm: Id): Mutation -> real {
    (u: Mutation) =>
      if u.outcome.Trade? && u.order.arm == arm && u.order.side.Buy?
      then Notional(u.outcome.fill.quantity, u.outcome.fill.price) + u.outcome.fill.commission else 0.0
  }

  function Earned(arm: Id): Mutation -> real {
    (u: Mutation) =>
      if u.outcome.Trade? && u.order.arm == arm && u.order.side.Sell?
      then Notional(u.outcome.fill.quantity, u.outcome.fill.price) - u.outcome.fill.commission else 0.0
  }

  function Traded(key: Key, side: Side): Mutation -> real {
    (u: Mutation) =>
      if u.outcome.Trade? && Key(u.order.arm, u.order.symbol) == key && u.order.side == side then u.outcome.fill.quantity else 0.0
  }

  function Amount(r: Receivable): real { r.amount }

  /** Settled cash, receivables and positions are those of the start, moved by exactly what was prepared. */
  ghost predicate Accounted(start: Wallet, arm: Id, prepared: seq<Mutation>, w: Wallet) {
    && w.settled == start.settled - Sum(Spent(arm), prepared)
    && Sum(Amount, w.receivables) == Sum(Amount, start.receivables) + Sum(Earned(arm), prepared)
    && (forall k :: Get(w.positions, k)
          == Get(start.positions, k) + Sum(Traded(Key(arm, k), Buy), prepared) - Sum(Traded(Key(arm, k), Sell), prepared))
  }

  ghost predicate AllAccounted(start: map<Id, Wallet>, q: CycleState) {
    && q.wallets.Keys == start.Keys
    && forall arm :: arm in start ==> Accounted(start[arm], arm, q.prepared, q.wallets[arm])
  }

  lemma TradeAccounts(start: Wallet, arm: Id, prepared: seq<Mutation>, w: Wallet, u: Mutation, settlement: Option<int>)
    requires Accounted(start, arm, prepared, w) && u.order.arm == arm && u.outcome.Trade?
    requires ApplyFill(w, u.order, u.outcome.fill, settlement).Ok?
    ensures Accounted(start, arm, prepared + [u], ApplyFill(w, u.order, u.outcome.fill, settlement).value)
  {
    hide Sum, Notional;
    var after := ApplyFill(w, u.order, u.outcome.fill, settlement).value;
    SumLast(Spent(arm), prepared, u);
    SumLast(Earned(arm), prepared, u);
    if u.order.side.Sell? {
      SumLast(Amount, w.receivables, after.receivables[|w.receivables|]);
    }
    var f, held := u.outcome.fill, Get(w.positions, u.order.symbol);
    forall k ensures Get(after.positions, k)
      == Get(start.positions, k) + Sum(Traded(Key(arm, k), Buy), prepared + [u]) - Sum(Traded(Key(arm, k), Sell), prepared + [u])
    {
      SumLast(Traded(Key(arm, k), Buy), prepared, u);
      SumLast(Traded(Key(arm, k), Sell), prepared, u);
      PutGet(w.positions, u.order.symbol, if u.order.side.Buy? then held + f.quantity else held - f.quantity, k);
    }
  }

  /** A mutation that is a block, or another arm's, leaves an arm's account as it was. */
  lemma OthersAccount(start: Wallet, arm: Id, prepared: seq<Mutation>, w: Wallet, u: Mutation)
    requires Accounted(start, arm, prepared, w) && (u.outcome.Block? || u.order.arm != arm)
    ensures Accounted(start, arm, prepared + [u], w)
  {
    hide Sum, Notional;
    SumLast(Spent(arm), prepared, u);
    SumLast(Earned(arm), prepared, u);
    forall k ensures Get(w.positions, k)
      == Get(start.positions, k) + Sum(Traded(Key(arm, k), Buy), prepared + [u]) - Sum(Traded(Key(arm, k), Sell), prepared + [u])
    {
      SumLast(Traded(Key(arm, k), Buy), prepared, u);
      SumLast(Traded(Key(arm, k), Sell), prepared, u);
    }
  }

  lemma MoveAccounts(start: map<Id, Wallet>, p: CycleState, c: Candidate, s: Setting, q: CycleState)
    requires AllAccounted(start, p) && Moves(p, c, s, q)
    ensures AllAccounted(start, q)
  {
    hide Accounted, Recordable, ApplyFill;
    var u := q.prepared[|p.prepared|];
    assert q.prepared == p.prepared + [u];
    forall arm | arm in start ensures Accounted(start[arm], arm, q.prepared, q.wallets[arm]) {
      if u.outcome.Trade? && arm == c.order.arm {
        TradeAccounts(start[arm], arm, p.prepared, p.wallets[arm], u, s.settlement);
      } else {
        OthersAccount(start[arm], arm, p.prepared, p.wallets[arm], u);
      }
    }
  }

  // ---- capacity

  /** The capacity of the first candidate of the arm in the symbol. */
  function FirstCapacity(candidates: seq<Candidate>, key: Key): Option<real> {
    if candidates == [] then None
    else
      var before, last := FirstCapacity(candidates[..|candidates| - 1], key), candidates[|candidates| - 1];
      if before.Some? then before else if Place(last) == key then Some(last.tick.advCapacity) else None
  }

  function TradedBoth(key: Key): Mutation -> real {
    (u: Mutation) => if u.outcome.Trade? && Key(u.order.arm, u.order.symbol) == key then u.outcome.fill.quantity else 0.0
  }

  /** What is left and what was traded make up the capacity at first. */
  ghost predicate Rationed(candidates: seq<Candidate>, key: Key, q: CycleState) {
    if key.arm !in q.wallets || FirstCapacity(candidates, key).None? then
      key !in q.capacity && Sum(TradedBoth(key), q.prepared) == 0.0
    else
      && key in q.capacity && q.capacity[key] >= 0.0
      && q.capacity[key] + Sum(TradedBoth(key), q.prepared) == FirstCapacity(candidates, key).value
  }

  lemma MoveCaps(candidates: seq<Candidate>, p: CycleState, c: Candidate, s: Setting, q: CycleState, key: Key)
    requires Rationed(candidates, key, p) && Moves(p, c, s, q) && c.tick.advCapacity >= 0.0
    ensures Rationed(candidates + [c], key, q)
  {
    hide Sum, Recordable, ApplyFill;
    var u := q.prepared[|p.prepared|];
    assert q.prepared == p.prepared + [u];
    SumLast(TradedBoth(key), p.prepared, u);
    assert (candidates + [c])[..|candidates|] == candidates;
  }

  // ---- whole cycles

  ghost predicate AllGenuine(candidates: seq<Candidate>, s: Setting, config: Config)
    requires config.Valid()
  {
    forall c :: c in candidates ==> Genuine(c, s, config)
  }

  /** Safety of a whole cycle: it stops only for what a tick or the configuration causes; otherwise every arm stays
      solvent, and its cash, receivables and positions have moved by exactly the prepared fills. */
  lemma {:induction false} CycleIsSolvent(wallets: map<Id, Wallet>, candidates: seq<Candidate>, s: Setting, config: Config)
    requires config.Valid() && AllSolvent(wallets) && AllGenuine(candidates, s, config)
    ensures var r := Prepare(Begin(wallets), candidates, s, config);
      && (r.Err? ==> r.error.Stopped? && Legitimate(r.error.stop))
      && (r.Ok? ==> AllSolvent(r.value.wallets) && AllAccounted(wallets, r.value) && |r.value.prepared| == |candidates|)
  {
    hide Process, Genuine, Solvent, Accounted, Legitimate;
    if candidates == [] {
      NothingAccounted(wallets);
    } else {
      var init, c := candidates[..|candidates| - 1], candidates[|candidates| - 1];
      assert c in candidates && forall x :: x in init ==> x in candidates;
      CycleIsSolvent(wallets, init, s, config);
      var before := Prepare(Begin(wallets), init, s, config);
      if before.Ok? {
        ProcessExactly(before.value, c, s, config);
        if Process(before.value, c, s, config).Ok? {
          MoveAccounts(wallets, before.value, c, s, Process(before.value, c, s, config).value);
        }
      }
    }
  }

  lemma NothingAccounted(wallets: map<Id, Wallet>)
    ensures AllAccounted(wallets, Begin(wallets))
  {
  }

  /** No arm trades more of a symbol in a cycle than the capacity it had at first. */
  lemma {:induction false} CapacityIsKept(wallets: map<Id, Wallet>, candidates: seq<Candidate>, s: Setting, config: Config, key: Key)
    requires config.Valid() && AllSolvent(wallets) && AllGenuine(candidates, s, config)
    requires Prepare(Begin(wallets), candidates, s, config).Ok?
    ensures Rationed(candidates, key, Prepare(Begin(wallets), candidates, s, config).value)
  {
    hide Process, Genuine, Solvent, Rationed;
    if candidates == [] {
      NothingRationed(wallets, key);
    } else {
      var init, c := candidates[..|candidates| - 1], candidates[|candidates| - 1];
      assert c in candidates && forall x :: x in init ==> x in candidates;
      CycleIsSolvent(wallets, init, s, config);
      var before := Prepare(Begin(wallets), init, s, config).value;
      CapacityIsKept(wallets, init, s, config, key);
      ProcessExactly(before, c, s, config);
      GenuineIs(c, s, config);
      MoveCaps(init, before, c, s, Process(before, c, s, config).value, key);
      assert candidates == init + [c];
    }
  }

  lemma NothingRationed(wallets: map<Id, Wallet>, key: Key)
    ensures Rationed([], key, Begin(wallets))
  {
  }

  /** The k-th candidate's turn comes, and it stops the cycle. */
  ghost predicate TripsAtTurn(wallets: map<Id, Wallet>, candidates: seq<Candidate>, s: Setting, config: Config, k: nat)
    requires config.Valid() && k < |candidates|
  {
    var r := Prepare(Begin(wallets), candidates[..k], s, config);
    r.Ok? && TripsNow(r.value, candidates[k], s, config)
  }

  /** A cycle goes through exactly when no candidate trips at its turn. */
  lemma {:induction false} CycleGoesThroughExactlyWhen(wallets: map<Id, Wallet>, candidates: seq<Candidate>, s: Setting, config: Config)
    requires config.Valid() && AllSolvent(wallets) && AllGenuine(candidates, s, config)
    ensures Prepare(Begin(wallets), candidates, s, config).Ok? <==>
      forall k :: 0 <= k < |candidates| ==> !TripsAtTurn(wallets, candidates, s, config, k)
  {
    hide Process, Genuine, Solvent, TripsNow;
    if candidates != [] {
      var n := |candidates| - 1;
      var init, c := candidates[..n], candidates[n];
      assert c in candidates && forall x :: x in init ==> x in candidates;
      CycleGoesThroughExactlyWhen(wallets, init, s, config);
      CycleIsSolvent(wallets, init, s, config);
      forall k | 0 <= k < n ensures TripsAtTurn(wallets, init, s, config, k) <==> TripsAtTurn(wallets, candidates, s, config, k) {
        assert init[..k] == candidates[..k];
      }
      var before := Prepare(Begin(wallets), init, s, config);
      if before.Ok? {
        ProcessExactly(before.value, c, s, config);
        assert TripsAtTurn(wallets, candidates, s, config, n) <==> TripsNow(before.value, c, s, config);
      }
    }
  }

  // ---- what the sales leave to be settled

  /** A receivable of one of the arm's prepared sales: its net proceeds, on the settlement date of the cycle. */
  ghost predicate OwedFor(arm: Id, u: Mutation, s: Setting, r: Receivable) {
    && u.outcome.Trade? && u.order.arm == arm && u.order.side == Sell && r.source == u.order.id
    && r.amount == u.outcome.fill.quantity * u.outcome.fill.price - u.outcome.fill.commission
    && s.settlement == Some(r.settlesOn)
  }

  /** What was owed stays owed, and what is owed beyond it was prepared. */
  ghost predicate Owed(start: Wallet, arm: Id, prepared: seq<Mutation>, s: Setting, w: Wallet) {
    && start.receivables <= w.receivables
    && forall i :: |start.receivables| <= i < |w.receivables| ==> FromSale(arm, prepared, s, w.receivables[i])
  }

  ghost predicate FromSale(arm: Id, prepared: seq<Mutation>, s: Setting, r: Receivable) {
    exists u :: u in prepared && OwedFor(arm, u, s, r)
  }

  lemma FromSaleStays(arm: Id, prepared: seq<Mutation>, s: Setting, u: Mutation)
    ensures forall r :: FromSale(arm, prepared, s, r) ==> FromSale(arm, prepared + [u], s, r)
    ensures forall r :: OwedFor(arm, u, s, r) ==> FromSale(arm, prepared + [u], s, r)
  {
    hide OwedFor;
    assert u in prepared + [u];
    forall r | FromSale(arm, prepared, s, r) ensures FromSale(arm, prepared + [u], s, r) {
      var v :| v in prepared && OwedFor(arm, v, s, r);
      assert v in prepared + [u];
    }
  }

  ghost predicate AllOwed(start: map<Id, Wallet>, s: Setting, q: CycleState) {
    && q.wallets.Keys == start.Keys
    && forall arm :: arm in start ==> Owed(start[arm], arm, q.prepared, s, q.wallets[arm])
  }

  lemma TradeOwes(start: Wallet, arm: Id, prepared: seq<Mutation>, s: Setting, w: Wallet, u: Mutation)
    requires Owed(start, arm, prepared, s, w) && u.order.arm == arm && u.outcome.Trade?
    requires ApplyFill(w, u.order, u.outcome.fill, s.settlement).Ok?
    ensures Owed(start, arm, prepared + [u], s, ApplyFill(w, u.order, u.outcome.fill, s.settlement).value)
  {
    hide Put, FromSale;
    FromSaleStays(arm, prepared, s, u);
    var after := ApplyFill(w, u.order, u.outcome.fill, s.settlement).value;
    forall i | |start.receivables| <= i < |after.receivables| ensures FromSale(arm, prepared + [u], s, after.receivables[i]) {
      if i < |w.receivables| {
        assert after.receivables[i] == w.receivables[i];
      } else {
        assert OwedFor(arm, u, s, after.receivables[i]);
      }
    }
  }

  lemma OthersOwe(start: Wallet, arm: Id, prepared: seq<Mutation>, s: Setting, w: Wallet, u: Mutation)
    requires Owed(start, arm, prepared, s, w)
    ensures Owed(start, arm, prepared + [u], s, w)
  {
    hide FromSale;
    FromSaleStays(arm, prepared, s, u);
  }

  lemma MoveOwes(start: map<Id, Wallet>, p: CycleState, c: Candidate, s: Setting, q: CycleState)
    requires AllOwed(start, s, p) && Moves(p, c, s, q)
    ensures AllOwed(start, s, q)
  {
    hide Owed, Recordable, ApplyFill;
    var u := q.prepared[|p.prepared|];
    assert q.prepared == p.prepared + [u];
    forall arm | arm in start ensures Owed(start[arm], arm, q.prepared, s, q.wallets[arm]) {
      if u.outcome.Trade? && arm == c.order.arm {
        TradeOwes(start[arm], arm, p.prepared, s, p.wallets[arm], u);
      } else {
        OthersOwe(start[arm], arm, p.prepared, s, p.wallets[arm], u);
      }
    }
  }

  /** Every receivable a cycle adds is the net proceeds of one of its sales, due on its settlement date. */
  lemma {:induction false} ReceivablesAreSales(wallets: map<Id, Wallet>, candidates: seq<Candidate>, s: Setting, config: Config)
    requires config.Valid() && AllSolvent(wallets) && AllGenuine(candidates, s, config)
    requires Prepare(Begin(wallets), candidates, s, config).Ok?
    ensures AllOwed(wallets, s, Prepare(Begin(wallets), candidates, s, config).value)
  {
    hide Process, Genuine, Solvent, Owed, Accounted;
    if candidates == [] {
      assert AllOwed(wallets, s, Begin(wallets)) by { NothingOwed(wallets, s); }
    } else {
      var init, c := candidates[..|candidates| - 1], candidates[|candidates| - 1];
      assert c in candidates && forall x :: x in init ==> x in candidates;
      CycleIsSolvent(wallets, init, s, config);
      ReceivablesAreSales(wallets, init, s, config);
      var before := Prepare(Begin(wallets), init, s, config).value;
      ProcessExactly(before, c, s, config);
      MoveOwes(wallets, before, c, s, Process(before, c, s, config).value);
    }
  }

  lemma NothingOwed(wallets: map<Id, Wallet>, s: Setting)
    ensures AllOwed(wallets, s, Begin(wallets))
  {
  }

  // ---- sells first

  /** Sales come before purchases; within a side arms ascend, within an arm symbols, within a symbol order ids. */
  ghost predicate InTurn(a: Order, b: Order) {
    && (a.side != b.side ==> a.side == Sell)
    && (a.side == b.side ==> a.arm.code <= b.arm.code)
    && (a.side == b.side && a.arm == b.arm ==> a.symbol.code <= b.symbol.code)
    && (a.side == b.side && a.arm == b.arm && a.symbol == b.symbol ==> a.id.code <= b.id.code)
  }

  /** The cycle takes its candidates, each once, in that order. */
  lemma CandidatesInTurn(candidates: seq<Candidate>)
    ensures var ordered := Sort(Precedes, candidates);
      && multiset(ordered) == multiset(candidates)
      && forall i, j :: 0 <= i < j < |ordered| ==> InTurn(ordered[i].order, ordered[j].order)
  {
    var ordered := Sort(Precedes, candidates);
    PrecedesIsTotal();
    SortIsSorted(Precedes, candidates);
    SortIsPermutation(Precedes, candidates);
    forall i, j | 0 <= i < j < |ordered| ensures InTurn(ordered[i].order, ordered[j].order) {
      assert Precedes(ordered[i], ordered[j]);
    }
  }

  lemma PrecedesIsTotal()
    ensures TotalPreorder(Precedes)
  {
  }

  /** The first n candidates are the sales. */
  ghost predicate SalesThenBuys(candidates: seq<Candidate>, n: nat) {
    n <= |candidates| && forall i :: 0 <= i < |candidates| ==> (candidates[i].order.side.Sell? <==> i < n)
  }

  lemma {:induction false} SortedSellsFirst(candidates: seq<Candidate>) returns (n: nat)
    requires Sorted(Precedes, candidates)
    ensures SalesThenBuys(candidates, n)
  {
    n := 0;
    while n < |candidates| && candidates[n].order.side.Sell?
      invariant n <= |candidates| && forall i :: 0 <= i < n ==> candidates[i].order.side.Sell?
    {
      n := n + 1;
    }
    forall i | n <= i < |candidates| ensures candidates[i].order.side.Buy? {
      if i > n {
        assert Precedes(candidates[n], candidates[i]);
      }
    }
  }

  /** What is prepared follows the candidates, order by order. */
  lemma {:induction false} PreparedFollows(wallets: map<Id, Wallet>, candidates: seq<Candidate>, s: Setting, config: Config)
    requires config.Valid() && AllSolvent(wallets) && AllGenuine(candidates, s, config)
    requires Prepare(Begin(wallets), candidates, s, config).Ok?
    ensures var prepared := Prepare(Begin(wallets), candidates, s, config).value.prepared;
      |prepared| == |candidates| && forall i :: 0 <= i < |prepared| ==> prepared[i].order == candidates[i].order
  {
    hide Process, Genuine, Solvent, Recordable, ApplyFill;
    if candidates != [] {
      var init, c := candidates[..|candidates| - 1], candidates[|candidates| - 1];
      assert c in candidates && forall x :: x in init ==> x in candidates;
      CycleIsSolvent(wallets, init, s, config);
      PreparedFollows(wallets, init, s, config);
      var p := Prepare(Begin(wallets), init, s, config).value;
      ProcessExactly(p, c, s, config);
      var q := Process(p, c, s, config).value;
      forall i | 0 <= i < |p.prepared| ensures q.prepared[i] == p.prepared[i] {
        assert q.prepared[..|p.prepared|][i] == q.prepared[i];
      }
    }
  }

  /** A part of a cycle that goes through goes through, and has prepared the first part of the whole. */
  lemma {:induction false} PartOfCycle(wallets: map<Id, Wallet>, candidates: seq<Candidate>, s: Setting, config: Config, k: nat)
    requires config.Valid() && AllSolvent(wallets) && AllGenuine(candidates, s, config) && k <= |candidates|
    requires Prepare(Begin(wallets), candidates, s, config).Ok?
    ensures Prepare(Begin(wallets), candidates[..k], s, config).Ok?
    ensures var all, part := Prepare(Begin(wallets), candidates, s, config).value.prepared,
        Prepare(Begin(wallets), candidates[..k], s, config).value.prepared;
      |part| == k <= |all| && all[..k] == part
  {
    hide Process, Genuine, Solvent, Recordable, ApplyFill;
    PreparedFollows(wallets, candidates, s, config);
    if k == |candidates| {
      assert candidates[..k] == candidates;
    } else {
      var init, c := candidates[..|candidates| - 1], candidates[|candidates| - 1];
      assert c in candidates && forall x :: x in init ==> x in candidates;
      CycleIsSolvent(wallets, init, s, config);
      PartOfCycle(wallets, init, s, config, k);
      assert init[..k] == candidates[..k];
      var p := Prepare(Begin(wallets), init, s, config).value;
      ProcessExactly(p, c, s, config);
      var q := Process(p, c, s, config).value;
      PreparedFollows(wallets, init, s, config);
      assert q.prepared[..k] == q.prepared[..|p.prepared|][..k];
    }
  }

  lemma NoneOfSide(key: Key, side: Side, prepared: seq<Mutation>)
    requires forall i :: 0 <= i < |prepared| ==> prepared[i].order.side != side
    ensures Sum(Traded(key, side), prepared) == 0.0
  {
    forall u | u in prepared ensures Traded(key, side)(u) == 0.0 {
    }
    SumZero(Traded(key, side), prepared);
  }

  /** What a cycle sells was held when it began, and what it buys is paid from cash that was settled then:
      neither its purchases nor its proceeds are traded again. */
  lemma NothingIsTurnedOver(wallets: map<Id, Wallet>, candidates: seq<Candidate>, s: Setting, config: Config, arm: Id, symbol: Id)
    requires config.Valid() && AllSolvent(wallets) && AllGenuine(candidates, s, config) && arm in wallets
    requires Prepare(Begin(wallets), Sort(Precedes, candidates), s, config).Ok?
    ensures var prepared := Prepare(Begin(wallets), Sort(Precedes, candidates), s, config).value.prepared;
      && Sum(Traded(Key(arm, symbol), Sell), prepared) <= Get(wallets[arm].positions, symbol)
      && Sum(Spent(arm), prepared) <= wallets[arm].settled
  {
    hide Prepare, Genuine, Sum, Spent, Traded, Solvent, Sort, Sorted;
    var ordered := Sort(Precedes, candidates);
    PrecedesIsTotal();
    SortIsSorted(Precedes, candidates);
    SortIsPermutation(Precedes, candidates);
    var n := SortedSellsFirst(ordered);
    CycleIsSolvent(wallets, ordered, s, config);
    CashIsCovered(wallets[arm], arm, Prepare(Begin(wallets), ordered, s, config).value);
    SalesWereHeld(wallets, ordered, n, s, config, arm, symbol);
  }

  lemma CashIsCovered(start: Wallet, arm: Id, q: CycleState)
    requires arm in q.wallets && Solvent(q.wallets[arm]) && Accounted(start, arm, q.prepared, q.wallets[arm])
    ensures Sum(Spent(arm), q.prepared) <= start.settled
  {
    hide Sum;
  }

  lemma SalesWereHeld(wallets: map<Id, Wallet>, ordered: seq<Candidate>, n: nat, s: Setting, config: Config, arm: Id, symbol: Id)
    requires config.Valid() && AllSolvent(wallets) && AllGenuine(ordered, s, config) && arm in wallets
    requires SalesThenBuys(ordered, n) && Prepare(Begin(wallets), ordered, s, config).Ok?
    ensures Sum(Traded(Key(arm, symbol), Sell), Prepare(Begin(wallets), ordered, s, config).value.prepared)
         <= Get(wallets[arm].positions, symbol)
  {
    hide Prepare, Genuine, Sum, Traded, Solvent, Accounted;
    PartOfCycle(wallets, ordered, s, config, n);
    assert forall x :: x in ordered[..n] ==> x in ordered;
    CycleIsSolvent(wallets, ordered[..n], s, config);
    PreparedFollows(wallets, ordered, s, config);
    PreparedFollows(wallets, ordered[..n], s, config);
    var all, sales := Prepare(Begin(wallets), ordered, s, config).value.prepared, Prepare(Begin(wallets), ordered[..n], s, config).value;
    var key, rest := Key(arm, symbol), all[n..];
    assert all == sales.prepared + rest;
    SumConcat(Traded(key, Sell), sales.prepared, rest);
    NoneOfSide(key, Sell, rest);
    NoneOfSide(key, Buy, sales.prepared);
    SoldFromHolding(wallets[arm], arm, sales, symbol);
  }

  lemma SoldFromHolding(start: Wallet, arm: Id, q: CycleState, symbol: Id)
    requires arm in q.wallets && Solvent(q.wallets[arm]) && Accounted(start, arm, q.prepared, q.wallets[arm])
    requires Sum(Traded(Key(arm, symbol), Buy), q.prepared) == 0.0
    ensures Sum(Traded(Key(arm, symbol), Sell), q.prepared) <= Get(start.positions, symbol)
  {
    hide Sum, Traded;
    HeldNotNegative(q.wallets[arm], symbol);
  }

  lemma HeldNotNegative(w: Wallet, symbol: Id)
    requires Solvent(w)
    ensures Get(w.positions, symbol) >= 0.0
  {
  }
}
