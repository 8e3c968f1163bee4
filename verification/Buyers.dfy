/** Once a bid is placed its owner is never debited again: every settlement of an exchange pair leaves the balances of
    everyone who is not selling in it at least as they were, in every run. */
module Buyers {
  import opened Wrappers
  import opened OrderTypes
  import opened BookSpec
  import opened BookFacts
  import opened BookTheorems
  import opened Positions
  import opened RiskSpec
  import opened Worth
  import opened Ledger
  import opened Exchange

  predicate FeesOrdered(s: Symbol) {
    0 <= s.makerFee <= s.takerFee && 0 <= s.quoteScaleK && 0 <= s.baseScaleK
  }

  /** Who sells in a chain of events. */
  ghost predicate Sells(u: int, uid: int, action: OrderAction, events: seq<Event>) {
    exists i :: 0 <= i < |events| && events[i].Trade? && u == if action == ASK then uid else events[i].makerUid
  }

  ghost predicate NoDebit(sh: Shard, sh': Shard, u: int) {
    forall c: int :: BalanceOf(sh, u, c) <= BalanceOf(sh', u, c)
  }

  // ----- What a chain promises: trades at or below what the buyer reserved -----

  predicate EventCovered(r: Request, action: OrderAction, e: Event) {
    && 0 < e.size && 0 <= e.price
    && (e.Trade? && !(action == BID && IsFokPlace(r)) ==> e.price <= e.bidderHoldPrice)
    && (!e.Trade? && action == BID ==> 0 <= e.bidderHoldPrice)
  }

  ghost predicate Covered(r: Request, action: OrderAction, events: seq<Event>) {
    && (forall i | 0 <= i < |events| :: EventCovered(r, action, events[i]))
    && (action == BID && IsFokPlace(r) && TradesOf(events) != [] ==> Cost(TradesOf(events)) <= r.price)
  }

  // ----- Credits -----

  lemma CreditNoDebit(sh: Shard, uid: int, d: int, x: int, u: int)
    requires uid in sh.profiles && (u != uid || 0 <= x)
    ensures uid in Credit(sh, uid, d, x).profiles && NoDebit(sh, Credit(sh, uid, d, x), u)
  {
  }

  lemma KnownNoDebit(sh: Shard, uid: int, u: int)
    ensures uid in Known(sh, uid).profiles && NoDebit(sh, Known(sh, uid), u)
  {
  }

  lemma FeesNoDebit(sh: Shard, s: Symbol, a: int, b: int, u: int)
    ensures NoDebit(sh, FeesTaken(sh, s, a, b), u)
  {
  }

  lemma Then(a: Shard, b: Shard, c: Shard, u: int)
    requires NoDebit(a, b, u) && NoDebit(b, c, u)
    ensures NoDebit(a, c, u)
  {
    forall d: int ensures BalanceOf(a, u, d) <= BalanceOf(c, u, d) {
      assert BalanceOf(a, u, d) <= BalanceOf(b, u, d);
    }
  }

  lemma Products(a: int, b: int)
    requires 0 <= a && 0 <= b
    ensures 0 <= a * b
  {
  }

  /** A buying maker gets back the difference to its reserved price and the difference between the fees, and the base
      amount. */
  lemma SellMakerNoDebit(sh: Shard, h: Handler, s: Symbol, r: Request, e: Event, u: int)
    requires FeesOrdered(s) && EventCovered(r, ASK, e)
    ensures NoDebit(sh, SellMaker(sh, h, s, e), u)
  {
    hide NoDebit, Credit, Known;
    if e.Trade? && h.Owns(e.makerUid) {
      var k := Known(sh, e.makerUid);
      var x := AmountBidReleaseCorrMaker(s, e.size, e.bidderHoldPrice - e.price);
      Products(e.bidderHoldPrice - e.price, s.quoteScaleK);
      Products(e.size, (e.bidderHoldPrice - e.price) * s.quoteScaleK + (s.takerFee - s.makerFee));
      Products(e.size, s.baseScaleK);
      KnownNoDebit(sh, e.makerUid, u);
      CreditNoDebit(k, e.makerUid, s.quoteCurrency, x, u);
      var paid := Credit(k, e.makerUid, s.quoteCurrency, x);
      CreditNoDebit(paid, e.makerUid, s.baseCurrency, AmountAsk(s, e.size), u);
      Then(sh, k, paid, u);
      Then(sh, paid, SellMaker(sh, h, s, e), u);
    } else {
      Same(sh, u);
    }
  }

  lemma Same(sh: Shard, u: int)
    ensures NoDebit(sh, sh, u)
  {
  }

  lemma {:induction false} SellMakersNoDebit(sh: Shard, h: Handler, s: Symbol, r: Request, events: seq<Event>, u: int)
    requires FeesOrdered(s) && forall i | 0 <= i < |events| :: EventCovered(r, ASK, events[i])
    ensures NoDebit(sh, SellMakers(sh, h, s, events), u)
    decreases |events|
  {
    hide NoDebit, SellMaker, EventCovered;
    if events == [] {
      Same(sh, u);
    } else {
      assert EventCovered(r, ASK, events[0]);
      SellMakerNoDebit(sh, h, s, r, events[0], u);
      var next := SellMaker(sh, h, s, events[0]);
      SellMakersNoDebit(next, h, s, r, events[1..], u);
      Then(sh, next, SellMakers(sh, h, s, events), u);
    }
  }

  lemma {:induction false} BuyMakersNoDebit(sh: Shard, h: Handler, s: Symbol, events: seq<Event>, u: int)
    requires forall i | 0 <= i < |events| :: events[i].Trade? ==> events[i].makerUid != u
    ensures NoDebit(sh, BuyMakers(sh, h, s, events), u)
    decreases |events|
  {
    hide NoDebit, Credit, Known;
    if events == [] {
      Same(sh, u);
    } else {
      var e := events[0];
      var next := BuyMaker(sh, h, s, e);
      assert NoDebit(sh, next, u) by {
        if e.Trade? && h.Owns(e.makerUid) {
          assert e.makerUid != u;
          KnownNoDebit(sh, e.makerUid, u);
          CreditNoDebit(Known(sh, e.makerUid), e.makerUid, s.quoteCurrency,
                        AmountBid(s, e.size, e.price) - s.makerFee * e.size, u);
          Then(sh, Known(sh, e.makerUid), next, u);
        } else {
          Same(sh, u);
        }
      }
      BuyMakersNoDebit(next, h, s, events[1..], u);
      Then(sh, next, BuyMakers(sh, h, s, events), u);
    }
  }

  lemma {:induction false} HeldCovers(r: Request, events: seq<Event>)
    requires forall i | 0 <= i < |events| :: events[i].Trade? && EventCovered(r, BID, events[i])
    ensures !IsFokPlace(r) ==> Cost(events) <= HeldCost(events)
    ensures 0 <= Traded(events)
  {
    if events != [] {
      var e := events[0];
      assert EventCovered(r, BID, e);
      HeldCovers(r, events[1..]);
      if !IsFokPlace(r) {
        Products(e.bidderHoldPrice - e.price, e.size);
        assert (e.bidderHoldPrice - e.price) * e.size == e.size * e.bidderHoldPrice - e.price * e.size;
      }
    }
  }

  lemma SellNoDebit(sh: Shard, h: Handler, s: Symbol, r: Request, events: seq<Event>, u: int)
    requires FeesOrdered(s) && (forall i | 0 <= i < |events| :: EventCovered(r, ASK, events[i])) && u != r.uid
    ensures NoDebit(sh, ExchangeSell(sh, h, s, r.uid, events), u)
  {
    hide NoDebit, Credit, Known, SellMakers, FeesTaken, Cost, Traded, OwnSize;
    SellMakersNoDebit(sh, h, s, r, events, u);
    var a := SellMakers(sh, h, s, events);
    var k := Known(a, r.uid);
    KnownNoDebit(a, r.uid, u);
    var x := Cost(events) * s.quoteScaleK - s.takerFee * Traded(events);
    CreditNoDebit(k, r.uid, s.quoteCurrency, x, u);
    var b := Credit(k, r.uid, s.quoteCurrency, x);
    Then(sh, a, k, u);
    Then(sh, k, b, u);
    FeesNoDebit(b, s, Traded(events), OwnSize(h, events), u);
    FeesNoDebit(a, s, 0, OwnSize(h, events), u);
    var after := ExchangeSell(sh, h, s, r.uid, events);
    if h.Owns(r.uid) { Then(sh, b, after, u); } else { Then(sh, a, after, u); }
  }

  lemma BuyNoDebit(sh: Shard, h: Handler, s: Symbol, r: Request, events: seq<Event>, u: int)
    requires FeesOrdered(s) && (forall i | 0 <= i < |events| :: events[i].Trade? && EventCovered(r, BID, events[i]))
    requires IsFokPlace(r) ==> Cost(events) <= r.price
    requires forall i | 0 <= i < |events| :: events[i].Trade? ==> events[i].makerUid != u
    ensures NoDebit(sh, ExchangeBuy(sh, h, s, r, events), u)
  {
    hide NoDebit, Credit, Known, BuyMakers, FeesTaken, Cost, Traded, HeldCost, OwnSize, EventCovered;
    BuyMakersNoDebit(sh, h, s, events, u);
    HeldCovers(r, events);
    var a := BuyMakers(sh, h, s, events);
    var k := Known(a, r.uid);
    KnownNoDebit(a, r.uid, u);
    var held := if IsFokPlace(r) then r.price else HeldCost(events);
    Products(held - Cost(events), s.quoteScaleK);
    Products(Traded(events), s.baseScaleK);
    CreditNoDebit(k, r.uid, s.quoteCurrency, (held - Cost(events)) * s.quoteScaleK, u);
    var b := Credit(k, r.uid, s.quoteCurrency, (held - Cost(events)) * s.quoteScaleK);
    CreditNoDebit(b, r.uid, s.baseCurrency, Traded(events) * s.baseScaleK, u);
    var d := Credit(b, r.uid, s.baseCurrency, Traded(events) * s.baseScaleK);
    Then(sh, a, k, u);
    Then(sh, k, b, u);
    Then(sh, b, d, u);
    FeesNoDebit(d, s, Traded(events), OwnSize(h, events), u);
    FeesNoDebit(a, s, 0, OwnSize(h, events), u);
    var after := ExchangeBuy(sh, h, s, r, events);
    if h.Owns(r.uid) { Then(sh, d, after, u); } else { Then(sh, a, after, u); }
  }

  lemma RefundNonNegative(s: Symbol, r: Request, action: OrderAction, e: Event)
    requires FeesOrdered(s) && EventCovered(r, action, e) && !e.Trade?
    ensures 0 <= Refund(s, r, action, e)
  {
    Products(e.size, s.baseScaleK);
    Products(e.price, s.quoteScaleK);
    Products(e.size, s.takerFee);
    if action == BID {
      Products(e.bidderHoldPrice, s.quoteScaleK);
      Products(e.size, e.bidderHoldPrice * s.quoteScaleK + s.takerFee);
    }
  }

  /** Settling a covered chain debits no one but its sellers. */
  lemma SettleNoDebit(sh: Shard, h: Handler, s: Symbol, r: Request, action: OrderAction, events: seq<Event>, u: int)
    requires FeesOrdered(s) && ChainOk(events) && Covered(r, action, events) && events != []
    requires !Sells(u, r.uid, action, events)
    ensures NoDebit(sh, SettleExchange(sh, h, s, r, action, events), u)
  {
    hide NoDebit, Credit, Known, ExchangeSell, ExchangeBuy, Refund, ChainOk, Cost;
    var a := if h.Owns(r.uid) then Known(sh, r.uid) else sh;
    KnownNoDebit(sh, r.uid, u);
    Same(sh, u);
    var first := events[0];
    var cur := if action == ASK then s.baseCurrency else s.quoteCurrency;
    var b := if !first.Trade? && h.Owns(r.uid) then Credit(a, r.uid, cur, Refund(s, r, action, first)) else a;
    if !first.Trade? {
      RefundNonNegative(s, r, action, first);
      if h.Owns(r.uid) {
        CreditNoDebit(a, r.uid, cur, Refund(s, r, action, first), u);
        Then(sh, a, b, u);
      }
    }
    var trades := if first.Trade? then events else events[1..];
    assert TradesOf(events) == trades;
    RestTrades(events);
    if trades != [] {
      var at := if first.Trade? then 0 else 1;
      forall i | 0 <= i < |trades|
        ensures trades[i].Trade? && EventCovered(r, action, trades[i]) && trades[i] == events[i + at]
      {
        assert EventCovered(r, action, events[i + at]);
      }
      if action == ASK {
        assert events[at].Trade? && u != r.uid;
        SellNoDebit(b, h, s, r, trades, u);
      } else {
        forall i | 0 <= i < |trades| ensures trades[i].makerUid != u { assert trades[i] == events[i + at]; }
        BuyNoDebit(b, h, s, r, trades, u);
      }
      Then(sh, b, SettleExchange(sh, h, s, r, action, events), u);
    }
  }

  // ----- Every command produces a covered chain -----

  lemma MatchedCovered(book: Book, r: Request, taker: OrderAction, limit: int, need: nat, reserve: int, m: Matching)
    requires BookOk(book) && Reserved(book.bids) && (taker == BID ==> limit <= reserve)
    requires m == Match(Side(book, Opposite(taker)), Opposite(taker), Some(limit), need, reserve)
    ensures forall i | 0 <= i < |m.events| :: m.events[i].Trade? && EventCovered(r, taker, m.events[i])
  {
    hide Match, Live;
    var makers := Side(book, Opposite(taker));
    SideLive(makers, Opposite(taker));
    TradesWithinReserve(makers, Opposite(taker), limit, need, reserve);
    PricesOf(makers, Opposite(taker), Some(limit), need, reserve, m);
  }

  lemma PricesOf(makers: seq<Order>, makerSide: OrderAction, limit: Option<int>, need: nat, reserve: int, m: Matching)
    requires (forall i | 0 <= i < |makers| :: Live(makers[i], makerSide))
             && m == Match(makers, makerSide, limit, need, reserve)
    ensures forall i | 0 <= i < |m.events| :: m.events[i].Trade? && 0 <= m.events[i].price && 0 < m.events[i].size
  {
    hide Match;
    MatchConsumesPrefix(makers, makerSide, limit, need, reserve);
    forall i | 0 <= i < |m.events| ensures m.events[i].Trade? && 0 <= m.events[i].price && 0 < m.events[i].size {
      assert TradeOf(makers[i], makerSide, reserve, m.events[i]) && Live(makers[i], makerSide);
    }
  }

  lemma CoveredTrades(r: Request, action: OrderAction, events: seq<Event>)
    requires (forall i | 0 <= i < |events| :: events[i].Trade? && EventCovered(r, action, events[i])) && !IsFokPlace(r)
    ensures Covered(r, action, events)
  {
  }

  lemma CoveredReject(r: Request, action: OrderAction, e: Event, events: seq<Event>)
    requires !e.Trade? && EventCovered(r, action, e)
             && (forall i | 0 <= i < |events| :: EventCovered(r, action, events[i]))
    requires !IsFokPlace(r) || events == []
    ensures Covered(r, action, [e] + events)
  {
    forall i | 0 <= i < |events| + 1 ensures EventCovered(r, action, ([e] + events)[i]) {
      if 0 < i { assert ([e] + events)[i] == events[i - 1]; }
    }
    assert ([e] + events)[1..] == events;
  }

  lemma FokCovered(book: Book, s: Symbol, r: Request)
    requires BookOk(book) && RequestOk(r) && IsFokPlace(r)
             && (r.action == BID ==> PriceCheck(s, r) == VALID_FOR_MATCHING_ENGINE) && Reserved(book.bids)
    ensures Covered(r, r.action, NewOrder(book, r).events)
  {
    hide Match, Budget, Cost, Live, BookOk, Volume, Traded;
    FokIsAllOrNothing(book, r);
    var events := NewOrder(book, r).events;
    var makers := Side(book, Opposite(r.action));
    assert forall i | 0 <= i < |makers| :: Live(makers[i], Opposite(r.action)) by { BothLive(book); }
    if events[0].Trade? {
      var m := Match(makers, Opposite(r.action), None, r.size, r.reserveBidPrice);
      assert events == m.events;
      PricesOf(makers, Opposite(r.action), None, r.size, r.reserveBidPrice, m);
      if r.action == ASK { FokSellCovered(book, r, m); }
      forall i | 0 <= i < |events| ensures EventCovered(r, r.action, events[i]) {
        assert events[i].Trade? && 0 <= events[i].price && 0 < events[i].size;
        if r.action == ASK { assert makers == book.bids && events[i].price <= events[i].bidderHoldPrice; }
      }
      assert r.action == BID ==> Cost(TradesOf(events)) <= r.price;
    } else {
      assert events[1..] == [];
    }
  }

  lemma BothLive(book: Book)
    requires BookOk(book)
    ensures (forall i | 0 <= i < |book.asks| :: Live(book.asks[i], ASK))
            && forall i | 0 <= i < |book.bids| :: Live(book.bids[i], BID)
  {
  }

  lemma FokSellCovered(book: Book, r: Request, m: Matching)
    requires BookOk(book) && Reserved(book.bids) && 0 <= r.size
             && m == Match(book.bids, BID, None, r.size, r.reserveBidPrice)
    ensures forall i | 0 <= i < |m.events| :: m.events[i].Trade? && m.events[i].price <= m.events[i].bidderHoldPrice
  {
    hide Match, Live;
    BothLive(book);
    MatchConsumesPrefix(book.bids, BID, None, r.size, r.reserveBidPrice);
    ConsumedTrades(book.bids, BID, r.reserveBidPrice, Match(book.bids, BID, None, r.size, r.reserveBidPrice));
  }

  /** A request that passed the checks before matching. */
  ghost predicate Checked(s: Symbol, r: Request) {
    RequestOk(r) && (r.command == PLACE_ORDER && r.resultCode == VALID_FOR_MATCHING_ENGINE ==>
                       PriceCheck(s, r) == VALID_FOR_MATCHING_ENGINE)
  }

  lemma PlaceCovered(book: Book, s: Symbol, r: Request)
    requires BookOk(book) && Checked(s, r) && Reserved(book.bids) && r.command == PLACE_ORDER
             && r.resultCode == VALID_FOR_MATCHING_ENGINE
    ensures Covered(r, r.action, NewOrder(book, r).events)
  {
    hide Match, Live, BookOk, Covered, Lookup, WithOrder, WithSide, Budget;
    if r.orderType == FOK_BUDGET {
      FokCovered(book, s, r);
    } else {
      var m := Match(Side(book, Opposite(r.action)), Opposite(r.action), Some(r.price), r.size, r.reserveBidPrice);
      MatchedCovered(book, r, r.action, r.price, r.size, r.reserveBidPrice, m);
      BookMatched(book, r.action, Some(r.price), r.size, r.reserveBidPrice);
      CoveredTrades(r, r.action, m.events);
      assert [] + m.events == m.events;
      if 0 < m.left { CoveredReject(r, r.action, Reject(r.price, m.left, r.reserveBidPrice), m.events); }
      CoveredReject(r, r.action, Reject(r.price, r.size, r.reserveBidPrice), []);
      assert [Reject(r.price, r.size, r.reserveBidPrice)] + [] == [Reject(r.price, r.size, r.reserveBidPrice)];
    }
  }

  lemma RestingReserve(book: Book, orderId: int)
    requires BookOk(book) && Reserved(book.bids) && Lookup(book, orderId).Some?
    ensures var o := Lookup(book, orderId).value;
            0 < o.Remaining() && 0 <= o.price && (o.action == BID ==> o.price <= o.reserveBidPrice)
  {
    LookupIs(book, orderId);
  }

  lemma OneCovered(r: Request, action: OrderAction, e: Event)
    requires EventCovered(r, action, e) && !e.Trade?
    ensures Covered(r, action, [e])
  {
    assert [e][1..] == [];
  }

  lemma NoneCovered(r: Request, action: OrderAction)
    ensures Covered(r, action, [])
  {
  }

  lemma MoveCovered(book: Book, r: Request)
    requires BookOk(book) && Reserved(book.bids) && RequestOk(r) && r.command == MOVE_ORDER
    ensures Covered(r, MoveOrder(book, CURRENCY_EXCHANGE_PAIR, r).action,
                    MoveOrder(book, CURRENCY_EXCHANGE_PAIR, r).events)
  {
    hide Match, Live, BookOk, Covered, Lookup, WithOrder, WithSide, Without, Reserved;
    NoneCovered(r, r.action);
    if Lookup(book, r.orderId).Some? {
      LookupIs(book, r.orderId);
      WithoutKeeps(book, r.orderId);
      WithoutReserved(book, r.orderId);
      RestingReserve(book, r.orderId);
      var o := Lookup(book, r.orderId).value;
      if o.action == BID && r.price > o.reserveBidPrice { return; }
      var lifted := Without(book, o);
      var need := o.Remaining();
      var m := Match(Side(lifted, Opposite(o.action)), Opposite(o.action), Some(r.price), need, o.reserveBidPrice);
      MatchedCovered(lifted, r, o.action, r.price, need, o.reserveBidPrice, m);
      CoveredTrades(r, o.action, m.events);
    }
  }

  lemma StepCovered(book: Book, s: Symbol, r: Request)
    requires BookOk(book) && Reserved(book.bids) && s.kind == CURRENCY_EXCHANGE_PAIR && Checked(s, r)
    ensures Covered(r, Step(book, s.kind, r).action, Step(book, s.kind, r).events)
    ensures Reserved(Step(book, s.kind, r).book.bids)
  {
    hide NewOrder, MoveOrder, BookOk, Covered, Lookup, Reserved, Without;
    NoneCovered(r, r.action);
    match r.command
    case PLACE_ORDER =>
      if r.resultCode == VALID_FOR_MATCHING_ENGINE {
        PlaceCovered(book, s, r);
        CodesOf(book, s.kind, r);
        StepKeepsReserve(book, r);
      }
    case MOVE_ORDER =>
      MoveCovered(book, r);
      StepKeepsReserve(book, r);
    case CANCEL_ORDER =>
      StepKeepsReserve(book, r);
      if Lookup(book, r.orderId).Some? {
        RestingReserve(book, r.orderId);
        var o := Lookup(book, r.orderId).value;
        OneCovered(r, o.action, Reduce(o.price, o.Remaining(), o.reserveBidPrice, true));
      }
    case REDUCE_ORDER =>
      StepKeepsReserve(book, r);
      if Lookup(book, r.orderId).Some? && 0 < r.size {
        RestingReserve(book, r.orderId);
        var o := Lookup(book, r.orderId).value;
        var part := Min(o.Remaining(), r.size);
        OneCovered(r, o.action, Reduce(o.price, part, o.reserveBidPrice, true));
        OneCovered(r, o.action, Reduce(o.price, part, o.reserveBidPrice, false));
      }
    case ORDER_BOOK_REQUEST =>
    case OTHER_COMMAND =>
  }

  // ----- Runs -----

  ghost predicate Covers(specs: map<int, Symbol>, z: Settling) {
    z.symbol in specs && specs[z.symbol].kind == CURRENCY_EXCHANGE_PAIR ==> Covered(z.r, z.action, z.events)
  }

  ghost predicate BuyersSafe(x: State) {
    && Invariant(x)
    && (forall symbol: int <- x.specs :: FeesOrdered(x.specs[symbol]))
    && (forall symbol: int <- x.books :: symbol in x.specs && x.specs[symbol].kind == CURRENCY_EXCHANGE_PAIR ==>
          Reserved(x.books[symbol].bids))
    && (forall j | 0 <= j < |x.settling| :: Covers(x.specs, x.settling[j]))
  }

  lemma MatchSafe(x: State, i: nat)
    requires BuyersSafe(x) && i < |x.inflight| && Next(x, MatchOne(i)).Some? && Invariant(Next(x, MatchOne(i)).value)
    ensures BuyersSafe(Next(x, MatchOne(i)).value)
  {
    hide Invariant, Step, BookOk, Covered, Reserved, FeesOrdered;
    var f := x.inflight[i];
    if f.symbol in x.specs && x.specs[f.symbol].kind == CURRENCY_EXCHANGE_PAIR && f.symbol in x.books {
      InvariantParts(x, i);
      StepCovered(x.books[f.symbol], x.specs[f.symbol], f.r);
    }
  }

  lemma InvariantParts(x: State, i: nat)
    requires Invariant(x) && i < |x.inflight|
    ensures var f := x.inflight[i];
            f.symbol in x.specs && f.symbol in x.books && x.specs[f.symbol].kind == CURRENCY_EXCHANGE_PAIR ==>
              BookOk(x.books[f.symbol]) && Checked(x.specs[f.symbol], f.r)
  {
    assert InflightOk(x.specs, x.inflight[i]);
  }

  lemma NextSafe(x: State, a: Action)
    requires BuyersSafe(x)
    ensures Next(x, a).Some? && BuyersSafe(Next(x, a).value)
  {
    hide Invariant, Covered, Reserved, FeesOrdered, AdjustBalance, AddUser, SuspendUser, ResumeUser, AddAccounts,
         PlaceOrderRiskCheck, Settle, Step;
    NextKeeps(x, a);
    InvariantShape(x);
    match a
    case MatchOne(i) => if i < |x.inflight| { MatchSafe(x, i); }
    case _ =>
  }

  /** In every state a run reaches, settling a command of an exchange pair in any shard lowers no balance of anyone who
      is not a seller in it: not by trades as taker or maker, partial fills after a move, rejects, reduces, cancels or
      budget fills. */
  lemma {:induction false} EveryRunIsSafe(x: State, actions: seq<Action>)
    requires BuyersSafe(x)
    ensures Exec(x, actions).Some? && BuyersSafe(Exec(x, actions).value)
    decreases |actions|
  {
    hide BuyersSafe, Next;
    SafeShape(x);
    if actions != [] {
      NextSafe(x, actions[0]);
      SafeShape(Next(x, actions[0]).value);
      EveryRunIsSafe(Next(x, actions[0]).value, actions[1..]);
    }
  }

  /** An exchange with ordered fees and no users yet is safe, so the theorem covers every reachable state. */
  lemma StartIsSafe(specs: map<int, Symbol>, marginEnabled: bool, count: nat)
    requires 0 < count && forall symbol: int <- specs :: FeesOrdered(specs[symbol])
    ensures BuyersSafe(Start(specs, marginEnabled, count))
  {
    hide Invariant;
    StartKeeps(specs, marginEnabled, count);
  }

  lemma EveryReachableIsSafe(specs: map<int, Symbol>, marginEnabled: bool, count: nat, actions: seq<Action>)
    requires 0 < count && forall symbol: int <- specs :: FeesOrdered(specs[symbol])
    ensures Start(specs, marginEnabled, count).shards != []
    ensures Exec(Start(specs, marginEnabled, count), actions).Some?
            && BuyersSafe(Exec(Start(specs, marginEnabled, count), actions).value)
  {
    hide BuyersSafe, Exec, FeesOrdered;
    StartIsSafe(specs, marginEnabled, count);
    SafeShape(Start(specs, marginEnabled, count));
    EveryRunIsSafe(Start(specs, marginEnabled, count), actions);
  }

  lemma SafeShape(x: State)
    requires BuyersSafe(x)
    ensures Invariant(x) && x.shards != []
  {
  }

  lemma SettlementDebitsOnlySellers(x: State, j: nat, k: nat, u: int, c: int)
    requires BuyersSafe(x) && j < |x.settling| && k < |x.shards| && k in x.settling[j].left
    requires x.settling[j].symbol in x.specs && x.specs[x.settling[j].symbol].kind == CURRENCY_EXCHANGE_PAIR
    requires !Sells(u, x.settling[j].r.uid, x.settling[j].action, x.settling[j].events)
    ensures Next(x, SettleOne(j, k)).Some?
    ensures BalanceOf(x.shards[k], u, c) <= BalanceOf(Next(x, SettleOne(j, k)).value.shards[k], u, c)
  {
    hide Invariant, SettleExchange, BalanceOf, FeesOrdered, Covered, Sells;
    NextKeeps(x, SettleOne(j, k));
    var z := x.settling[j];
    assert Covers(x.specs, z) && FeesOrdered(x.specs[z.symbol]);
    if z.events != [] {
      assert ChainOk(z.events) by { SoundChain(x, j); }
      SettleNoDebit(x.shards[k], Handler(k, |x.shards|), x.specs[z.symbol], z.r, z.action, z.events, u);
    }
  }

  lemma SoundChain(x: State, j: nat)
    requires Invariant(x) && j < |x.settling|
    ensures ChainOk(x.settling[j].events)
  {
  }
}
