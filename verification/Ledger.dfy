/** What a command's settlement moves over all risk shards together, and that this is what its events took out of the
    book. */
module Ledger {
  import opened Wrappers
  import opened OrderTypes
  import opened BookSpec
  import opened BookFacts
  import opened BookTheorems
  import opened BookWeights
  import opened Positions
  import opened RiskSpec
  import opened Worth

  /** The shard a user belongs to. */
  function ShardOf(uid: int, count: nat): nat
    requires 0 < count
    ensures ShardOf(uid, count) < count
    ensures forall k: nat | k < count :: Handler(k, count).Owns(uid) <==> k == ShardOf(uid, count)
  {
    uid % count
  }

  /** What the shards in `left`, up to k, have still to settle. */
  ghost function LeftShare(left: set<nat>, k: nat, count: nat, s: Symbol, r: Request, action: OrderAction,
                           events: seq<Event>, c: int, mark: int): int {
    if k == 0 then 0
    else LeftShare(left, k - 1, count, s, r, action, events, c, mark)
         + if k - 1 in left then SettlementShare(Handler(k - 1, count), s, r, action, events, c, mark) else 0
  }

  lemma {:induction false} LeftShareSettled(left: set<nat>, i: nat, k: nat, count: nat, s: Symbol, r: Request,
                                            action: OrderAction, events: seq<Event>, c: int, mark: int)
    requires i in left
    ensures LeftShare(left - {i}, k, count, s, r, action, events, c, mark)
            == LeftShare(left, k, count, s, r, action, events, c, mark)
               - if i < k then SettlementShare(Handler(i, count), s, r, action, events, c, mark) else 0
  {
    if k != 0 { LeftShareSettled(left, i, k - 1, count, s, r, action, events, c, mark); }
  }

  // ----- All shards together -----

  function ChainTotal(s: Symbol, r: Request, action: OrderAction, events: seq<Event>, c: int, mark: int): int {
    if events == [] then 0
    else
      var x := Shares(s, r, action, events[0], c, mark);
      x.taker + (if events[0].Trade? then x.maker else 0) + ChainTotal(s, r, action, events[1..], c, mark)
  }

  /** The sum of x over the shards before k that own a user. */
  function OwnedUpTo(k: nat, count: nat, uid: int, x: int): int
    requires k <= count && 0 < count
  {
    if ShardOf(uid, count) < k then x else 0
  }

  function ChainUpTo(k: nat, count: nat, s: Symbol, r: Request, action: OrderAction, events: seq<Event>, c: int,
                     mark: int): int
    requires k <= count && 0 < count
  {
    if events == [] then 0
    else
      var x := Shares(s, r, action, events[0], c, mark);
      OwnedUpTo(k, count, r.uid, x.taker)
          + (if events[0].Trade? then OwnedUpTo(k, count, events[0].makerUid, x.maker) else 0)
      + ChainUpTo(k, count, s, r, action, events[1..], c, mark)
  }

  lemma {:induction false} ChainUpToNext(k: nat, count: nat, s: Symbol, r: Request, action: OrderAction,
                                         events: seq<Event>, c: int, mark: int)
    requires k < count
    ensures ChainUpTo(k + 1, count, s, r, action, events, c, mark)
            == ChainUpTo(k, count, s, r, action, events, c, mark)
                + ChainShare(Handler(k, count), s, r, action, events, c, mark)
  {
    hide Shares;
    if events != [] { ChainUpToNext(k, count, s, r, action, events[1..], c, mark); }
  }

  lemma {:induction false} ChainUpToNone(count: nat, s: Symbol, r: Request, action: OrderAction, events: seq<Event>,
                                         c: int, mark: int)
    requires 0 < count
    ensures ChainUpTo(0, count, s, r, action, events, c, mark) == 0
  {
    if events != [] { ChainUpToNone(count, s, r, action, events[1..], c, mark); }
  }

  lemma {:induction false} ChainUpToAll(count: nat, s: Symbol, r: Request, action: OrderAction, events: seq<Event>,
                                        c: int, mark: int)
    requires 0 < count
    ensures ChainUpTo(count, count, s, r, action, events, c, mark) == ChainTotal(s, r, action, events, c, mark)
  {
    if events != [] { ChainUpToAll(count, s, r, action, events[1..], c, mark); }
  }

  lemma {:induction false} LeftShareIs(left: set<nat>, k: nat, count: nat, s: Symbol, r: Request, action: OrderAction,
                                       events: seq<Event>, c: int, mark: int)
    requires k <= count && 0 < count && forall i: nat | i < count :: i in left
    ensures LeftShare(left, k, count, s, r, action, events, c, mark)
            == ChainUpTo(k, count, s, r, action, events, c, mark)
                + OwnedUpTo(k, count, r.uid, BudgetCorrection(s, r, action, TradesOf(events), c))
  {
    hide ChainUpTo, ChainShare, BudgetCorrection, TradesOf;
    if k == 0 {
      ChainUpToNone(count, s, r, action, events, c, mark);
    } else {
      LeftShareIs(left, k - 1, count, s, r, action, events, c, mark);
      ChainUpToNext(k - 1, count, s, r, action, events, c, mark);
    }
  }

  /** However many shards there are and whoever they own, together they move the whole chain and the budget correction
      once. */
  lemma AllShards(left: set<nat>, count: nat, s: Symbol, r: Request, action: OrderAction, events: seq<Event>, c: int,
                  mark: int)
    requires 0 < count && forall i: nat | i < count :: i in left
    ensures LeftShare(left, count, count, s, r, action, events, c, mark)
            == ChainTotal(s, r, action, events, c, mark) + BudgetCorrection(s, r, action, TradesOf(events), c)
  {
    hide ChainUpTo, LeftShare, ChainTotal, BudgetCorrection, TradesOf;
    LeftShareIs(left, count, count, s, r, action, events, c, mark);
    ChainUpToAll(count, s, r, action, events, c, mark);
  }

  // ----- The claims of orders -----

  /** What an order of an exchange pair holds for each unit left: a bid its reserved price and the taker fee, an ask its
      base amount. */
  function ClaimWeight(s: Symbol, c: int): Weight {
    if s.kind == CURRENCY_EXCHANGE_PAIR
    then Weight((uid: int, reserve: int) => At(c, s.quoteCurrency, reserve * s.quoteScaleK + s.takerFee),
                (uid: int) => At(c, s.baseCurrency, s.baseScaleK))
    else Weight((uid: int, reserve: int) => 0, (uid: int) => 0)
  }

  /** A budget bid is held at its price once, not once for each unit. */
  function BudgetSlack(s: Symbol, r: Request, c: int): int {
    if s.kind == CURRENCY_EXCHANGE_PAIR && r.action == BID && IsBudget(r.orderType)
    then At(c, s.quoteCurrency, (r.size - 1) * (r.price * s.quoteScaleK)) else 0
  }

  function Hold(s: Symbol, r: Request, c: int): int {
    if s.kind == CURRENCY_EXCHANGE_PAIR && r.command == PLACE_ORDER && r.resultCode == VALID_FOR_MATCHING_ENGINE
    then At(c, HoldCurrency(s, r), HoldAmount(s, r)) else 0
  }

  /** The hold of a command is what it brings into the book, less the slack of a budget bid. */
  lemma HoldIsBroughtIn(s: Symbol, r: Request, c: int)
    requires s.kind == CURRENCY_EXCHANGE_PAIR && r.command == PLACE_ORDER && r.resultCode == VALID_FOR_MATCHING_ENGINE
             ==> PriceCheck(s, r) == VALID_FOR_MATCHING_ENGINE
    ensures Hold(s, r, c) == BroughtIn(r, ClaimWeight(s, c))
                             - if r.command == PLACE_ORDER && r.resultCode == VALID_FOR_MATCHING_ENGINE
                                 then BudgetSlack(s, r, c) else 0
  {
    var x := r.price * s.quoteScaleK;
    assert x + r.size * s.takerFee == r.size * (x + s.takerFee) - (r.size - 1) * x;
  }

  /** A refund of a fill-or-kill bid gives back what was held for it. */
  function FokRefundSlack(s: Symbol, r: Request, action: OrderAction, e: Event, c: int): int {
    if !e.Trade? && s.kind == CURRENCY_EXCHANGE_PAIR && action == BID && IsFokPlace(r)
    then At(c, s.quoteCurrency, e.size * (e.bidderHoldPrice * s.quoteScaleK) - e.price * s.quoteScaleK) else 0
  }

  /** Taker, maker and fees together get exactly what the event takes out of the book's claims. */
  lemma EventTotal(s: Symbol, r: Request, action: OrderAction, e: Event, c: int, mark: int)
    ensures var x := Shares(s, r, action, e, c, mark);
            x.taker + (if e.Trade? then x.maker else 0)
                == TakenOut(e, action, r.uid, ClaimWeight(s, c)) - FokRefundSlack(s, r, action, e, c)
  {
    if s.kind == CURRENCY_EXCHANGE_PAIR && e.Trade? {
      TradeTotal(s, r, action, e, c, mark);
    } else if s.kind == CURRENCY_EXCHANGE_PAIR {
      RefundTotal(s, r, action, e, c, mark);
    }
  }

  lemma RefundTotal(s: Symbol, r: Request, action: OrderAction, e: Event, c: int, mark: int)
    requires s.kind == CURRENCY_EXCHANGE_PAIR && !e.Trade?
    ensures Shares(s, r, action, e, c, mark).taker
            == TakenOut(e, action, r.uid, ClaimWeight(s, c)) - FokRefundSlack(s, r, action, e, c)
  {
    var z, q, f := e.size, e.bidderHoldPrice * s.quoteScaleK, s.takerFee;
    RefundWeight(s, r, action, e, c);
    AtTimes(c, s.baseCurrency, z, s.baseScaleK);
    AtTimes(c, s.quoteCurrency, z, q + f);
    Spread(z, q, f);
  }

  lemma RefundWeight(s: Symbol, r: Request, action: OrderAction, e: Event, c: int)
    requires s.kind == CURRENCY_EXCHANGE_PAIR && !e.Trade?
    ensures TakenOut(e, action, r.uid, ClaimWeight(s, c))
            == e.size * (if action == ASK then At(c, s.baseCurrency, s.baseScaleK)
                         else At(c, s.quoteCurrency, e.bidderHoldPrice * s.quoteScaleK + s.takerFee))
  {
  }

  lemma Spread(z: int, q: int, f: int)
    ensures z * (q + f) == z * q + z * f
  {
  }

  lemma AtTimes(c: int, d: int, n: int, x: int)
    ensures n * At(c, d, x) == At(c, d, n * x)
  {
  }

  lemma TradeTotal(s: Symbol, r: Request, action: OrderAction, e: Event, c: int, mark: int)
    requires s.kind == CURRENCY_EXCHANGE_PAIR && e.Trade?
    ensures var x := Shares(s, r, action, e, c, mark);
            x.taker + x.maker == TakenOut(e, action, r.uid, ClaimWeight(s, c))
  {
    var z, h, p, k, f := e.size, e.bidderHoldPrice, e.price, s.quoteScaleK, s.takerFee;
    var q := At(c, s.quoteCurrency, h * k + f);
    var b := At(c, s.baseCurrency, s.baseScaleK);
    AtTimes(c, s.baseCurrency, z, s.baseScaleK);
    AtTimes(c, s.quoteCurrency, z, h * k + f);
    assert TakenOut(e, action, r.uid, ClaimWeight(s, c)) == z * (q + b) by { BothWeights(s, r, action, e, c); }
    assert z * (q + b) == z * q + z * b;
    TradeProducts(z, h, p, k, f);
  }

  lemma BothWeights(s: Symbol, r: Request, action: OrderAction, e: Event, c: int)
    requires s.kind == CURRENCY_EXCHANGE_PAIR && e.Trade?
    ensures TakenOut(e, action, r.uid, ClaimWeight(s, c))
            == e.size * (At(c, s.quoteCurrency, e.bidderHoldPrice * s.quoteScaleK + s.takerFee)
                         + At(c, s.baseCurrency, s.baseScaleK))
  {
  }

  lemma TradeProducts(z: int, h: int, p: int, k: int, f: int)
    ensures z * (h * k + f) == p * z * k + z * ((h - p) * k + f)
    ensures z * (h * k + f) == (z * h - p * z) * k + f * z + z * (p * k)
  {
    assert (h - p) * k == h * k - p * k;
    assert (z * h - p * z) * k == z * h * k - p * z * k;
    assert z * h * k == z * (h * k) && p * z * k == z * (p * k);
  }

  lemma {:induction false} ChainTotals(s: Symbol, r: Request, action: OrderAction, events: seq<Event>, c: int,
                                       mark: int)
    requires ChainOk(events)
    ensures ChainTotal(s, r, action, events, c, mark)
            == AllTakenOut(events, action, r.uid, ClaimWeight(s, c)) - if events != []
                then FokRefundSlack(s, r, action, events[0], c) else 0
  {
    hide Shares, TakenOut, ClaimWeight;
    if events != [] {
      EventTotal(s, r, action, events[0], c, mark);
      RestTrades(events);
      ChainTotals(s, r, action, events[1..], c, mark);
    }
  }

  // ----- The chain of a command -----

  lemma MatchedChain(makers: seq<Order>, makerSide: OrderAction, limit: Option<int>, need: nat, takerReserve: int)
    requires forall i | 0 <= i < |makers| :: Live(makers[i], makerSide)
    ensures var m := Match(makers, makerSide, limit, need, takerReserve);
            && (forall i | 0 <= i < |m.events| :: m.events[i].Trade? && 0 < m.events[i].size)
            && (makerSide == ASK ==> forall i | 0 <= i < |m.events| :: m.events[i].bidderHoldPrice == takerReserve)
            && 0 <= m.left
  {
    hide Match, Live;
    MatchConsumesPrefix(makers, makerSide, limit, need, takerReserve);
    MatchLeft(makers, makerSide, limit, need, takerReserve);
    ConsumedTrades(makers, makerSide, takerReserve, Match(makers, makerSide, limit, need, takerReserve));
  }

  lemma BookMatched(book: Book, taker: OrderAction, limit: Option<int>, need: nat, takerReserve: int)
    requires BookOk(book)
    ensures var m := Match(Side(book, Opposite(taker)), Opposite(taker), limit, need, takerReserve);
            && (forall i | 0 <= i < |m.events| :: m.events[i].Trade? && 0 < m.events[i].size)
            && (taker == BID ==> forall i | 0 <= i < |m.events| :: m.events[i].bidderHoldPrice == takerReserve)
            && 0 <= m.left
  {
    hide Match, Live;
    SideLive(Side(book, Opposite(taker)), Opposite(taker));
    MatchedChain(Side(book, Opposite(taker)), Opposite(taker), limit, need, takerReserve);
  }

  lemma ChainOfReject(e: Event, events: seq<Event>)
    requires 0 < e.size && forall i | 0 <= i < |events| :: events[i].Trade? && 0 < events[i].size
    ensures ChainOk([e] + events) && ChainOk(events)
  {
    forall i | 0 <= i < |events| + 1 ensures 0 < ([e] + events)[i].size && (0 < i ==> ([e] + events)[i].Trade?) {
      if 0 < i { assert ([e] + events)[i] == events[i - 1]; }
    }
  }

  /** In the chain of every command at most the first event is not a trade, and every size is positive. */
  lemma StepChainOk(book: Book, symbol: SymbolType, r: Request)
    requires BookOk(book) && RequestOk(r)
    ensures ChainOk(Step(book, symbol, r).events)
  {
    hide BookOk, Match, WithSide, WithOrder, Without, Lookup, Budget, ChainOk;
    ChainOfReject(Reject(0, 1, 0), []);
    match r.command
    case PLACE_ORDER =>
      var side := Opposite(r.action);
      BookMatched(book, r.action, Some(r.price), r.size, r.reserveBidPrice);
      BookMatched(book, r.action, None, r.size, r.reserveBidPrice);
      var m := Match(Side(book, side), side, Some(r.price), r.size, r.reserveBidPrice);
      var f := Match(Side(book, side), side, None, r.size, r.reserveBidPrice);
      if 0 < m.left { ChainOfReject(Reject(r.price, m.left, r.reserveBidPrice), m.events); }
      ChainOfReject(Reject(r.price, 1, 0), m.events);
      ChainOfReject(Reject(r.price, 1, 0), f.events);
      ChainOfReject(Reject(r.price, r.size, r.reserveBidPrice), []);
      assert [Reject(r.price, r.size, r.reserveBidPrice)] + [] == [Reject(r.price, r.size, r.reserveBidPrice)];
      assert [] + m.events == m.events;
    case MOVE_ORDER =>
      if Lookup(book, r.orderId).Some? {
        LookupIs(book, r.orderId);
        WithoutKeeps(book, r.orderId);
        var o := Lookup(book, r.orderId).value;
        BookMatched(Without(book, o), o.action, Some(r.price), o.Remaining(), o.reserveBidPrice);
        ChainOfReject(Reject(r.price, 1, 0),
                      Match(Side(Without(book, o), Opposite(o.action)), Opposite(o.action), Some(r.price),
                            o.Remaining(), o.reserveBidPrice).events);
      }
    case CANCEL_ORDER =>
      if Lookup(book, r.orderId).Some? {
        LookupIs(book, r.orderId);
        var o := Lookup(book, r.orderId).value;
        OneEventOk(Reduce(o.price, o.Remaining(), o.reserveBidPrice, true));
      }
    case REDUCE_ORDER =>
      if Lookup(book, r.orderId).Some? && 0 < r.size {
        LookupIs(book, r.orderId);
        var o := Lookup(book, r.orderId).value;
        var part := Min(o.Remaining(), r.size);
        OneEventOk(Reduce(o.price, part, o.reserveBidPrice, true));
        OneEventOk(Reduce(o.price, part, o.reserveBidPrice, false));
      }
    case ORDER_BOOK_REQUEST =>
    case OTHER_COMMAND =>
  }

  lemma OneEventOk(e: Event)
    requires 0 < e.size
    ensures ChainOk([e])
  {
  }

  lemma {:induction false} HeldAtOnePrice(events: seq<Event>, reserve: int)
    requires forall i | 0 <= i < |events| :: events[i].bidderHoldPrice == reserve
    ensures HeldCost(events) == reserve * Traded(events)
  {
    if events != [] {
      HeldAtOnePrice(events[1..], reserve);
      assert reserve * (events[0].size + Traded(events[1..]))
             == events[0].size * reserve + reserve * Traded(events[1..]);
    }
  }

  /** The settlement of a fill-or-kill bid, filled or killed, falls short of what its events take out by its budget
      slack. */
  lemma FokTotals(book: Book, s: Symbol, r: Request, c: int)
    requires BookOk(book) && RequestOk(r) && r.resultCode == VALID_FOR_MATCHING_ENGINE && IsFokPlace(r)
             && s.kind == CURRENCY_EXCHANGE_PAIR
    requires PriceCheck(s, r) == VALID_FOR_MATCHING_ENGINE && r.action == BID
    ensures var events := NewOrder(book, r).events;
            events != [] && BudgetCorrection(s, r, BID, TradesOf(events), c) - FokRefundSlack(s, r, BID, events[0], c)
                == -BudgetSlack(s, r, c)
  {
    hide BookOk, Match, Budget, WithSide, HeldCost, Traded, Volume, Cost;
    FokIsAllOrNothing(book, r);
    var events := NewOrder(book, r).events;
    var x := r.price * s.quoteScaleK;
    assert (r.size - 1) * x == r.size * x - x;
    if events[0].Trade? {
      BookMatched(book, BID, None, r.size, r.reserveBidPrice);
      assert events == Match(Side(book, ASK), ASK, None, r.size, r.reserveBidPrice).events;
      HeldAtOnePrice(events, r.reserveBidPrice);
      assert (r.price - r.price * r.size) * s.quoteScaleK == x - r.size * x by {
        Scaled(r.price, r.size, s.quoteScaleK);
      }
    } else {
      assert events[1..] == [];
      assert r.size * (r.reserveBidPrice * s.quoteScaleK) - r.price * s.quoteScaleK == r.size * x - x;
    }
  }

  lemma Scaled(p: int, n: int, k: int)
    ensures (p - p * n) * k == p * k - n * (p * k)
  {
    assert p * n * k == n * (p * k);
  }

  /** What has to be settled for a command over all shards is what its events took out of the book's claims,
      less the slack of a fill-or-kill bid. */
  lemma StepTotals(book: Book, s: Symbol, r: Request, c: int, mark: int)
    requires BookOk(book) && RequestOk(r)
    requires s.kind == CURRENCY_EXCHANGE_PAIR && r.command == PLACE_ORDER && r.resultCode == VALID_FOR_MATCHING_ENGINE
             ==> PriceCheck(s, r) == VALID_FOR_MATCHING_ENGINE
    ensures var o := Step(book, s.kind, r);
            ChainTotal(s, r, o.action, o.events, c, mark) + BudgetCorrection(s, r, o.action, TradesOf(o.events), c)
            == AllTakenOut(o.events, o.action, r.uid, ClaimWeight(s, c))
               - if IsFokPlace(r) && r.resultCode == VALID_FOR_MATCHING_ENGINE then BudgetSlack(s, r, c) else 0
  {
    hide BookOk, NewOrder, CancelOrder, ReduceOrder, MoveOrder, ChainTotal, BudgetSlack, ClaimWeight, ChainOk,
         AllTakenOut, PriceCheck;
    var o := Step(book, s.kind, r);
    StepChainOk(book, s.kind, r);
    ChainTotals(s, r, o.action, o.events, c, mark);
    if IsFokPlace(r) {
      if r.resultCode == VALID_FOR_MATCHING_ENGINE {
        CodesOf(book, s.kind, r);
        if s.kind == CURRENCY_EXCHANGE_PAIR && r.action == BID {
          FokTotals(book, s, r, c);
        } else {
          NoSlack(s, r, c);
        }
      }
    }
  }

  lemma NoSlack(s: Symbol, r: Request, c: int)
    requires s.kind != CURRENCY_EXCHANGE_PAIR || r.action == ASK || !IsBudget(r.orderType)
    ensures BudgetSlack(s, r, c) == 0
  {
  }
}
