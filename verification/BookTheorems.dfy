/** What the order book promises its users, for every command on every valid book. */
module BookTheorems {
  import opened Wrappers
  import opened OrderTypes
  import opened BookSpec
  import opened BookFacts

  // ----- Fill or kill within a budget -----

  function Cost(events: seq<Event>): int {
    if events == [] then 0 else events[0].price * events[0].size + Cost(events[1..])
  }

  /** When there is enough to fill the size, matching without a limit fills it at exactly the cost computed
      beforehand. */
  lemma {:induction false} BudgetIsCost(makers: seq<Order>, makerSide: OrderAction, size: int, takerReserve: int)
    requires (forall i | 0 <= i < |makers| :: Live(makers[i], makerSide)) && 0 < size
    ensures var m := Match(makers, makerSide, None, size, takerReserve);
            && (Budget(makers, size).Some? <==> m.left == 0)
            && (Budget(makers, size).Some? ==> Cost(m.events) == Budget(makers, size).value)
            && (Budget(makers, size).Some? <==> size <= Volume(makers))
    decreases |makers|
  {
    if makers != [] {
      var v := Min(size, makers[0].Remaining());
      var m := Match(makers, makerSide, None, size, takerReserve);
      assert Live(makers[0], makerSide);
      AllPositive(makers[1..], makerSide);
      if v == makers[0].Remaining() && v < size {
        BudgetIsCost(makers[1..], makerSide, size - v, takerReserve);
        assert m.events[1..] == Match(makers[1..], makerSide, None, size - v, takerReserve).events;
      } else {
        if v == makers[0].Remaining() { MatchStep(makers[1..], makerSide, None, 0, takerReserve); }
        assert m.events == [TradeEvent(makers[0], makerSide, size, takerReserve)];
        assert m.events[1..] == [];
      }
    }
  }

  lemma {:induction false} AllPositive(side: seq<Order>, action: OrderAction)
    requires forall i | 0 <= i < |side| :: Live(side[i], action)
    ensures 0 <= Volume(side)
  {
    if side != [] { AllPositive(side[1..], action); }
  }

  /** A fill-or-kill order is filled completely, at a cost on the right side of its budget, or leaves the book as it was
      and is rejected in full; and which of the two is decided by what rests on the other side alone. */
  lemma FokIsAllOrNothing(book: Book, r: Request)
    requires BookOk(book) && RequestOk(r) && r.command == PLACE_ORDER && r.orderType == FOK_BUDGET
    ensures var o := NewOrder(book, r);
            var makers := Side(book, Opposite(r.action));
            var cost := Budget(makers, r.size);
            if r.size <= Volume(makers) && cost.Some?
                && (if r.action == BID then cost.value <= r.price else r.price <= cost.value) then
              && o.events != [] && (forall i | 0 <= i < |o.events| :: o.events[i].Trade?)
              && Traded(o.events) == r.size && Cost(o.events) == cost.value
              && Volume(Side(o.book, Opposite(r.action))) == Volume(makers) - r.size
              && Side(o.book, r.action) == Side(book, r.action)
            else o.book == book && o.events == [Reject(r.price, r.size, r.reserveBidPrice)]
  {
    hide Match, Budget, Live, Volume, Cost, Traded;
    var side := Opposite(r.action);
    var makers := Side(book, side);
    SideLive(makers, side);
    BudgetIsCost(makers, side, r.size, r.reserveBidPrice);
    MatchAccounts(makers, side, None, r.size, r.reserveBidPrice);
    MatchConserves(makers, side, None, r.size, r.reserveBidPrice);
    MatchConsumesPrefix(makers, side, None, r.size, r.reserveBidPrice);
    MatchLeft(makers, side, None, r.size, r.reserveBidPrice);
    ConsumedTrades(makers, side, r.reserveBidPrice, Match(makers, side, None, r.size, r.reserveBidPrice));
  }

  lemma ConsumedTrades(makers: seq<Order>, makerSide: OrderAction, takerReserve: int, m: Matching)
    requires ConsumesPrefix(makers, makerSide, takerReserve, m)
    ensures |m.events| <= |makers|
            && forall i | 0 <= i < |m.events| ::
                 m.events[i].Trade? && TradeOf(makers[i], makerSide, takerReserve, m.events[i])
  {
  }

  // ----- Every unit of an order is traded, rejected or resting -----

  function Rejected(events: seq<Event>): int {
    if events == [] then 0 else (if events[0].Reject? then events[0].size else 0) + Rejected(events[1..])
  }

  function TradedOnly(events: seq<Event>): int {
    if events == [] then 0 else (if events[0].Trade? then events[0].size else 0) + TradedOnly(events[1..])
  }

  /** What rests on the taker's own side after a place command beyond what rested there before. */
  function Added(book: Book, o: Outcome, action: OrderAction): int {
    Volume(Side(o.book, action)) - Volume(Side(book, action))
  }

  lemma {:induction false} TradesOnly(events: seq<Event>)
    requires forall i | 0 <= i < |events| :: events[i].Trade?
    ensures TradedOnly(events) == Traded(events) && Rejected(events) == 0
  {
    if events != [] { TradesOnly(events[1..]); }
  }

  lemma RejectFirst(reject: Event, events: seq<Event>)
    requires reject.Reject? && forall i | 0 <= i < |events| :: events[i].Trade?
    ensures TradedOnly([reject] + events) == Traded(events) && Rejected([reject] + events) == reject.size
  {
    TradesOnly(events);
    assert ([reject] + events)[1..] == events;
  }

  lemma {:induction false} VolumeOfInsert(side: seq<Order>, p: nat, o: Order)
    requires p <= |side|
    ensures Volume(InsertAt(side, p, o)) == Volume(side) + o.Remaining()
  {
    if p == 0 {
      assert InsertAt(side, 0, o) == [o] + side && ([o] + side)[1..] == side;
    } else {
      VolumeOfInsert(side[1..], p - 1, o);
      assert InsertAt(side, p, o)[1..] == InsertAt(side[1..], p - 1, o) && InsertAt(side, p, o)[0] == side[0];
    }
  }

  /** A new order's size is what it traded, plus what was rejected, plus what now rests; and what it traded left the
      other side. */
  lemma NewOrderAccounts(book: Book, r: Request)
    requires BookOk(book) && RequestOk(r) && r.command == PLACE_ORDER
    ensures var o := NewOrder(book, r);
            && TradedOnly(o.events) + Rejected(o.events) + Added(book, o, r.action) == r.size
            && Volume(Side(book, Opposite(r.action))) - Volume(Side(o.book, Opposite(r.action))) == TradedOnly(o.events)
            && 0 <= TradedOnly(o.events) && 0 <= Rejected(o.events) && 0 <= Added(book, o, r.action)
  {
    hide Match, Budget, Live, Volume, Traded, TradedOnly, Rejected, Insert, Lookup;
    var side := Opposite(r.action);
    var makers := Side(book, side);
    SideLive(makers, side);
    MatchTotals(makers, side, Some(r.price), r.size, r.reserveBidPrice);
    MatchTotals(makers, side, None, r.size, r.reserveBidPrice);
    NoEvents();
    BudgetIsCost(makers, side, r.size, r.reserveBidPrice);
    match r.orderType
    case GTC =>
      var m := Match(makers, side, Some(r.price), r.size, r.reserveBidPrice);
      RejectFirst(Reject(r.price, m.left, r.reserveBidPrice), m.events);
      var o := Order(r.orderId, r.price, r.size, r.size - m.left, r.reserveBidPrice, r.action, r.uid, r.timestamp);
      InsertedVolume(Side(book, r.action), o);
    case IOC =>
      var m := Match(makers, side, Some(r.price), r.size, r.reserveBidPrice);
      RejectFirst(Reject(r.price, m.left, r.reserveBidPrice), m.events);
      assert [] + m.events == m.events;
    case FOK_BUDGET => RejectFirst(Reject(r.price, r.size, r.reserveBidPrice), []);
      assert [Reject(r.price, r.size, r.reserveBidPrice)] + [] == [Reject(r.price, r.size, r.reserveBidPrice)];
    case _ => RejectFirst(Reject(r.price, r.size, r.reserveBidPrice), []);
      assert [Reject(r.price, r.size, r.reserveBidPrice)] + [] == [Reject(r.price, r.size, r.reserveBidPrice)];
  }

  lemma NoEvents()
    ensures Traded([]) == 0
  {
  }

  lemma InsertedVolume(side: seq<Order>, o: Order)
    ensures Volume(Insert(side, o)) == Volume(side) + o.Remaining()
  {
    VolumeOfInsert(side, Place(side, o.action, o.price), o);
  }

  lemma MatchTotals(makers: seq<Order>, makerSide: OrderAction, limit: Option<int>, need: nat, takerReserve: int)
    requires forall i | 0 <= i < |makers| :: Live(makers[i], makerSide)
    ensures var m := Match(makers, makerSide, limit, need, takerReserve);
            && m.left + Traded(m.events) == need && 0 <= m.left <= need && TradedOnly(m.events) == Traded(m.events)
               && Rejected(m.events) == 0
            && Volume(makers) == Volume(m.rest) + Traded(m.events)
            && forall i | 0 <= i < |m.events| :: m.events[i].Trade?
  {
    hide Match, Live, Volume, Traded, TradedOnly, Rejected;
    MatchAccounts(makers, makerSide, limit, need, takerReserve);
    MatchConserves(makers, makerSide, limit, need, takerReserve);
    MatchLeft(makers, makerSide, limit, need, takerReserve);
    MatchConsumesPrefix(makers, makerSide, limit, need, takerReserve);
    ConsumedTrades(makers, makerSide, takerReserve, Match(makers, makerSide, limit, need, takerReserve));
    TradesOnly(Match(makers, makerSide, limit, need, takerReserve).events);
  }

  // ----- The reserved price covers every price a bid can trade at -----

  /** Every resting bid reserves at least its price. */
  ghost predicate Reserved(bids: seq<Order>) {
    forall i | 0 <= i < |bids| :: bids[i].price <= bids[i].reserveBidPrice
  }

  /** A bid placed to rest reserves at least its price, as the risk check before matching demands. */
  predicate ReserveChecked(r: Request) {
    r.command == PLACE_ORDER && r.action == BID ==> r.price <= r.reserveBidPrice
  }

  /** On an exchange pair every command, moves included, keeps bids within their reserve. */
  lemma StepKeepsReserve(book: Book, r: Request)
    requires BookOk(book) && RequestOk(r) && ReserveChecked(r) && Reserved(book.bids)
    ensures Reserved(Step(book, CURRENCY_EXCHANGE_PAIR, r).book.bids)
  {
    hide Match, Budget, Live, BookOk, Insert, Ranked, RemoveAt;
    SideLive2(book);
    match r.command
    case PLACE_ORDER =>
      MatchReserved(book, r.action, Some(r.price), r.size, r.reserveBidPrice);
      MatchReserved(book, r.action, None, r.size, r.reserveBidPrice);
      var after := WithSide(book, Opposite(r.action),
                            Match(Side(book, Opposite(r.action)), Opposite(r.action), Some(r.price), r.size,
                                  r.reserveBidPrice).rest);
      var left := Match(Side(book, Opposite(r.action)), Opposite(r.action), Some(r.price), r.size,
                        r.reserveBidPrice).left;
      InsertReserved(after.bids, Order(r.orderId, r.price, r.size, r.size - left, r.reserveBidPrice, r.action, r.uid,
                                       r.timestamp));
    case CANCEL_ORDER => WithoutReserved(book, r.orderId);
    case REDUCE_ORDER =>
      WithoutReserved(book, r.orderId);
      if Lookup(book, r.orderId).Some? { LookupIs(book, r.orderId); }
    case MOVE_ORDER => MoveReserved(book, r);
    case ORDER_BOOK_REQUEST =>
    case OTHER_COMMAND =>
  }

  lemma SideLive2(book: Book)
    requires BookOk(book)
    ensures (forall i | 0 <= i < |book.asks| :: Live(book.asks[i], ASK))
            && forall i | 0 <= i < |book.bids| :: Live(book.bids[i], BID)
  {
  }

  lemma MatchReserved(book: Book, taker: OrderAction, limit: Option<int>, need: int, takerReserve: int)
    requires BookOk(book) && Reserved(book.bids) && 0 <= need
    ensures Reserved(WithSide(book, Opposite(taker),
                              Match(Side(book, Opposite(taker)), Opposite(taker), limit, need, takerReserve).rest).bids)
  {
    hide Match, Live, BookOk;
    SideLive2(book);
    MatchSuffix(Side(book, Opposite(taker)), Opposite(taker), limit, need, takerReserve);
  }

  lemma InsertReserved(bids: seq<Order>, o: Order)
    requires Reserved(bids) && (o.action == BID ==> o.price <= o.reserveBidPrice)
    ensures o.action == BID ==> Reserved(Insert(bids, o))
  {
  }

  lemma WithoutReserved(book: Book, orderId: int)
    requires BookOk(book) && Reserved(book.bids)
    ensures Lookup(book, orderId).Some? ==> Reserved(Without(book, Lookup(book, orderId).value).bids)
  {
    hide BookOk, Find;
  }

  lemma MoveReserved(book: Book, r: Request)
    requires BookOk(book) && RequestOk(r) && Reserved(book.bids) && r.command == MOVE_ORDER
    ensures Reserved(MoveOrder(book, CURRENCY_EXCHANGE_PAIR, r).book.bids)
  {
    hide Match, Live, BookOk, Insert, Lookup, Without;
    var found := Lookup(book, r.orderId);
    if found.Some? {
      LookupIs(book, r.orderId);
      WithoutKeeps(book, r.orderId);
      WithoutReserved(book, r.orderId);
      var o := found.value;
      var lifted := Without(book, o);
      RemainingPositive(o);
      MatchReserved(lifted, o.action, Some(r.price), o.Remaining(), o.reserveBidPrice);
      var m := Match(Side(lifted, Opposite(o.action)), Opposite(o.action), Some(r.price), o.Remaining(),
                     o.reserveBidPrice);
      if o.action == BID && r.price > o.reserveBidPrice { return; }
      InsertReserved(WithSide(lifted, Opposite(o.action), m.rest).bids,
                     o.(price := r.price, filled := o.size - m.left));
    }
  }

  lemma RemainingPositive(o: Order)
    requires Live(o, o.action)
    ensures 0 < o.Remaining()
  {
  }

  /** Every trade is at or below the price the buyer has reserved. */
  lemma TradesWithinReserve(makers: seq<Order>, makerSide: OrderAction, limit: int, need: nat, takerReserve: int)
    requires forall i | 0 <= i < |makers| :: Live(makers[i], makerSide)
    requires if makerSide == BID then Reserved(makers) else limit <= takerReserve
    ensures var m := Match(makers, makerSide, Some(limit), need, takerReserve);
            forall i | 0 <= i < |m.events| :: m.events[i].Trade? && m.events[i].price <= m.events[i].bidderHoldPrice
  {
    hide Match, Live;
    MatchConsumesPrefix(makers, makerSide, Some(limit), need, takerReserve);
    MatchWithinLimit(makers, makerSide, Some(limit), need, takerReserve);
    ConsumedTrades(makers, makerSide, takerReserve, Match(makers, makerSide, Some(limit), need, takerReserve));
  }
}
