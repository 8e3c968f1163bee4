/** What a command does to an order book, said of the orders alone: which makers trade and how much, where an order
    comes to stand, what becomes of every other order. Only one outcome is of this kind, and it is the
    specification's. */
module BookOutcomes {
  import opened Wrappers
  import opened OrderTypes
  import opened BookSpec
  import opened BookFacts
  import opened BookTheorems

  // ----- Trading -----

  predicate Within(taker: OrderAction, limit: Option<int>, price: int) {
    limit.None? || (if taker == BID then price <= limit.value else limit.value <= price)
  }

  /** A trade with this maker, at its price; the buyer's reserved price goes with it. */
  ghost predicate TradesWith(maker: Order, taker: OrderAction, reserve: int, e: Event) {
    && e.Trade? && e.makerId == maker.orderId && e.makerUid == maker.uid && e.price == maker.price
    && 0 < e.size <= maker.size - maker.filled
    && (e.makerCompleted <==> e.size == maker.size - maker.filled)
    && e.bidderHoldPrice == (if taker == BID then reserve else maker.reserveBidPrice)
  }

  /** A taker of this size trades with the makers from the front, each within its limit and all but the last completely;
      they stay as they are behind the trades, and whatever size is left meets none within the limit. */
  ghost predicate Fills(makers: seq<Order>, taker: OrderAction, limit: Option<int>, size: int, reserve: int,
                        trades: seq<Event>, rest: seq<Order>) {
    var n := |trades|;
    && n <= |makers|
    && (forall i | 0 <= i < n ::
          TradesWith(makers[i], taker, reserve, trades[i]) && Within(taker, limit, makers[i].price))
    && (forall i | 0 <= i < n - 1 :: trades[i].Trade? && trades[i].makerCompleted && !trades[i].takerCompleted)
    && (0 < n ==> trades[n - 1].Trade? && (trades[n - 1].takerCompleted <==> TradedOnly(trades) == size))
    && TradedOnly(trades) <= size
    && rest == (if 0 < n && !trades[n - 1].makerCompleted
                then [makers[n - 1].(filled := makers[n - 1].filled + trades[n - 1].size)] + makers[n..]
                else makers[n..])
    && (TradedOnly(trades) < size ==> forall i | 0 <= i < |rest| :: !Within(taker, limit, rest[i].price))
  }

  /** Matching does this. */
  lemma MatchFills(makers: seq<Order>, taker: OrderAction, limit: Option<int>, size: nat, reserve: int)
    requires SideOk(makers, Opposite(taker))
    ensures var m := Match(makers, Opposite(taker), limit, size, reserve);
            Fills(makers, taker, limit, size, reserve, m.events, m.rest) && m.left == size - TradedOnly(m.events)
            && 0 <= m.left
  {
    hide Match, Live, Ranked, Traded, TradedOnly;
    var side := Opposite(taker);
    var m := Match(makers, side, limit, size, reserve);
    SideLive(makers, side);
    MatchTotals(makers, side, limit, size, reserve);
    MatchConsumesPrefix(makers, side, limit, size, reserve);
    MatchWithinLimit(makers, side, limit, size, reserve);
    if 0 < m.left { MatchIsMaximal(makers, side, limit, size, reserve); }
  }

  lemma {:induction false} TradedPositive(trades: seq<Event>)
    requires forall i | 0 <= i < |trades| :: trades[i].Trade? && 0 < trades[i].size
    ensures 0 <= TradedOnly(trades) && (trades != [] ==> trades[0].size <= TradedOnly(trades))
  {
    if trades != [] { TradedPositive(trades[1..]); }
  }

  // Without its first maker, if that one is traded completely.
  lemma FillsTail(makers: seq<Order>, taker: OrderAction, limit: Option<int>, size: int, reserve: int,
                  trades: seq<Event>, rest: seq<Order>)
    requires Fills(makers, taker, limit, size, reserve, trades, rest) && trades != []
             && trades[0].Trade? && trades[0].makerCompleted
    ensures Fills(makers[1..], taker, limit, size - trades[0].size, reserve, trades[1..], rest)
  {
    hide TradesWith, Within;
    var n := |trades|;
    var makers', trades' := makers[1..], trades[1..];
    assert forall i | 0 <= i < n - 1 :: makers'[i] == makers[i + 1] && trades'[i] == trades[i + 1];
    assert makers'[n - 1..] == makers[n..];
  }

  // The first trade is partial only if it is all the taker asked for.
  lemma FirstPartial(makers: seq<Order>, taker: OrderAction, limit: Option<int>, size: int, reserve: int,
                     trades: seq<Event>, rest: seq<Order>)
    requires Fills(makers, taker, limit, size, reserve, trades, rest) && trades != []
    ensures trades[0].Trade? && TradesWith(makers[0], taker, reserve, trades[0])
            && Within(taker, limit, makers[0].price) && trades[0].size <= size
    ensures !trades[0].makerCompleted ==>
              trades[0].size == size && |trades| == 1 && trades[0].takerCompleted
              && rest == [makers[0].(filled := makers[0].filled + size)] + makers[1..]
  {
    hide Within;
    TradedPositive(trades);
    assert |trades| == 1 ==> trades[1..] == [] && TradedOnly(trades[1..]) == 0;
    if !trades[0].makerCompleted {
      assert rest[0].price == makers[0].price;
    }
  }

  /** There is only one way to fill. */
  lemma {:induction false} FillsUnique(makers: seq<Order>, taker: OrderAction, limit: Option<int>, size: int,
                                       reserve: int, trades: seq<Event>, rest: seq<Order>, trades': seq<Event>,
                                       rest': seq<Order>)
    requires Fills(makers, taker, limit, size, reserve, trades, rest)
             && Fills(makers, taker, limit, size, reserve, trades', rest')
    ensures trades == trades' && rest == rest'
    decreases |makers|
  {
    if trades == [] || trades' == [] {
      OneEmpty(makers, taker, limit, size, reserve, trades, rest, trades', rest');
    } else {
      FirstPartial(makers, taker, limit, size, reserve, trades, rest);
      FirstPartial(makers, taker, limit, size, reserve, trades', rest');
      if trades[0].makerCompleted && trades'[0].makerCompleted {
        FillsTail(makers, taker, limit, size, reserve, trades, rest);
        FillsTail(makers, taker, limit, size, reserve, trades', rest');
        FillsUnique(makers[1..], taker, limit, size - trades[0].size, reserve, trades[1..], rest, trades'[1..], rest');
        SameFirst(makers, taker, limit, size, reserve, trades, rest, trades', rest');
      }
    }
  }

  lemma SameFirst(makers: seq<Order>, taker: OrderAction, limit: Option<int>, size: int, reserve: int,
                  trades: seq<Event>, rest: seq<Order>, trades': seq<Event>, rest': seq<Order>)
    requires Fills(makers, taker, limit, size, reserve, trades, rest)
             && Fills(makers, taker, limit, size, reserve, trades', rest')
    requires trades != [] && trades' != [] && trades[1..] == trades'[1..]
             && trades[0].Trade? && trades[0].makerCompleted && trades'[0].Trade? && trades'[0].makerCompleted
    ensures trades == trades'
  {
    assert TradesWith(makers[0], taker, reserve, trades[0]) && TradesWith(makers[0], taker, reserve, trades'[0]);
    assert trades == [trades[0]] + trades[1..] && trades' == [trades'[0]] + trades'[1..];
  }

  lemma OneEmpty(makers: seq<Order>, taker: OrderAction, limit: Option<int>, size: int, reserve: int,
                 trades: seq<Event>, rest: seq<Order>, trades': seq<Event>, rest': seq<Order>)
    requires Fills(makers, taker, limit, size, reserve, trades, rest)
             && Fills(makers, taker, limit, size, reserve, trades', rest')
    requires trades == [] || trades' == []
    ensures trades == trades' && rest == rest'
  {
    hide Within;
    TradedPositive(trades);
    TradedPositive(trades');
    if trades != [] { FirstPartial(makers, taker, limit, size, reserve, trades, rest); }
    if trades' != [] { FirstPartial(makers, taker, limit, size, reserve, trades', rest'); }
  }

  // ----- Where an order stands -----

  predicate NotWorse(o: Order, x: Order) {
    if x.action == ASK then o.price <= x.price else x.price <= o.price
  }

  ghost predicate StandsAt(before: seq<Order>, after: seq<Order>, x: Order, p: nat) {
    && p <= |before| && after == before[..p] + [x] + before[p..]
    && (forall k | 0 <= k < p :: NotWorse(before[k], x)) && forall k | p <= k < |before| :: !NotWorse(before[k], x)
  }

  /** An order has come to stand behind exactly those that are not worse; the others are as they were. */
  ghost predicate Stands(before: seq<Order>, after: seq<Order>, x: Order) {
    exists p: nat :: StandsAt(before, after, x, p)
  }

  lemma InsertStands(side: seq<Order>, x: Order)
    requires Ranked(side, x.action)
    ensures Stands(side, Insert(side, x), x)
  {
    PlaceSplits(side, x.action, x.price);
    assert StandsAt(side, Insert(side, x), x, Place(side, x.action, x.price));
  }

  lemma StandsUnique(before: seq<Order>, after: seq<Order>, after': seq<Order>, x: Order)
    requires Stands(before, after, x) && Stands(before, after', x)
    ensures after == after'
  {
    var p: nat :| StandsAt(before, after, x, p);
    var p': nat :| StandsAt(before, after', x, p');
    assert p < |before| ==> (NotWorse(before[p], x) <==> p < p');
    assert p' < |before| ==> (NotWorse(before[p'], x) <==> p' < p);
  }

  ghost predicate Lacks(side: seq<Order>, orderId: int) {
    forall k | 0 <= k < |side| :: side[k].orderId != orderId
  }

  // ----- What each command does -----

  /** The trades of a chain, behind a reject or reduce if there is one. */
  function TradesIn(events: seq<Event>): seq<Event> {
    if events != [] && !events[0].Trade? then events[1..] else events
  }

  /** A fill-or-kill order is worth filling: completely, and for at most, or at least, what it names. */
  predicate Affordable(r: Request, trades: seq<Event>) {
    TradedOnly(trades) == r.size && if r.action == BID then Cost(trades) <= r.price else r.price <= Cost(trades)
  }

  ghost predicate Placed(book: Book, r: Request, o: Outcome) {
    var makers, own := Side(book, Opposite(r.action)), Side(book, r.action);
    var makers', own' := Side(o.book, Opposite(r.action)), Side(o.book, r.action);
    var trades := TradesIn(o.events);
    var t := TradedOnly(trades);
    var rejected := [Reject(r.price, r.size - t, r.reserveBidPrice)];
    && o.code == SUCCESS && o.action == r.action
    && match r.orderType
       case GTC =>
         && Fills(makers, r.action, Some(r.price), r.size, r.reserveBidPrice, trades, makers')
         && if t < r.size && Lacks(own, r.orderId) && Lacks(makers', r.orderId) then
              && o.events == trades
              && Stands(own, own', Order(r.orderId, r.price, r.size, t, r.reserveBidPrice, r.action, r.uid,
                                         r.timestamp))
            else own' == own && o.events == if t < r.size then rejected + trades else trades
       case IOC =>
         && Fills(makers, r.action, Some(r.price), r.size, r.reserveBidPrice, trades, makers')
         && own' == own && o.events == if t < r.size then rejected + trades else trades
       case FOK_BUDGET =>
         && own' == own
         && if Affordable(r, o.events)
            then Fills(makers, r.action, None, r.size, r.reserveBidPrice, o.events, makers')
            else
              && makers' == makers && o.events == [Reject(r.price, r.size, r.reserveBidPrice)]
              && forall trades, rest | Fills(makers, r.action, None, r.size, r.reserveBidPrice, trades, rest) ::
                   !Affordable(r, trades)
       case _ => own' == own && makers' == makers && o.events == [Reject(r.price, r.size, r.reserveBidPrice)]
  }

  /** The i-th order of a side is the one a command names, and belongs to the one who sends it. */
  ghost predicate Found(book: Book, r: Request, a: OrderAction, i: int) {
    0 <= i < |Side(book, a)| && Side(book, a)[i].orderId == r.orderId && Side(book, a)[i].uid == r.uid
  }

  ghost predicate Unchanged(book: Book, code: ResultCode, r: Request, o: Outcome) {
    o.book == book && o.code == code && o.events == [] && o.action == r.action
  }

  ghost predicate Removed(book: Book, a: OrderAction, i: int, book': Book)
    requires 0 <= i < |Side(book, a)|
  {
    Side(book', a) == Side(book, a)[..i] + Side(book, a)[i + 1..] && Side(book', Opposite(a)) == Side(book, Opposite(a))
  }

  ghost predicate Cancelled(book: Book, a: OrderAction, i: int, o: Outcome)
    requires 0 <= i < |Side(book, a)|
  {
    var x := Side(book, a)[i];
    && o.code == SUCCESS && o.action == a
    && o.events == [Reduce(x.price, x.size - x.filled, x.reserveBidPrice, true)]
    && Removed(book, a, i, o.book)
  }

  ghost predicate Reduced(book: Book, r: Request, a: OrderAction, i: int, o: Outcome)
    requires 0 <= i < |Side(book, a)|
  {
    var x := Side(book, a)[i];
    var left := x.size - x.filled;
    && o.code == SUCCESS && o.action == a
    && if left <= r.size then
         && o.events == [Reduce(x.price, left, x.reserveBidPrice, true)]
         && Removed(book, a, i, o.book)
       else
         && o.events == [Reduce(x.price, r.size, x.reserveBidPrice, false)]
         && Side(o.book, a) == Side(book, a)[i := x.(size := x.size - r.size)]
         && Side(o.book, Opposite(a)) == Side(book, Opposite(a))
  }

  ghost predicate Moved(book: Book, symbol: SymbolType, r: Request, a: OrderAction, i: int, o: Outcome)
    requires 0 <= i < |Side(book, a)|
  {
    var x := Side(book, a)[i];
    var others := Side(book, a)[..i] + Side(book, a)[i + 1..];
    var t := TradedOnly(o.events);
    if symbol == CURRENCY_EXCHANGE_PAIR && a == BID && x.reserveBidPrice < r.price
    then Unchanged(book, MATCHING_MOVE_FAILED_PRICE_OVER_RISK_LIMIT, r, o)
    else
      && o.code == SUCCESS && o.action == a
      && Fills(Side(book, Opposite(a)), a, Some(r.price), x.size - x.filled, x.reserveBidPrice, o.events,
               Side(o.book, Opposite(a)))
      && if t == x.size - x.filled then Side(o.book, a) == others
         else Stands(others, Side(o.book, a), x.(price := r.price, filled := x.filled + t))
  }

  /** A cancel, reduce or move of an order that is found with its owner does so; of any other it is refused. */
  ghost predicate Cancels(book: Book, r: Request, o: Outcome) {
    && (forall a, i | Found(book, r, a, i) :: Cancelled(book, a, i, o))
    && ((forall a, i :: !Found(book, r, a, i)) ==> Unchanged(book, MATCHING_UNKNOWN_ORDER_ID, r, o))
  }

  ghost predicate Reduces(book: Book, r: Request, o: Outcome) {
    if r.size <= 0 then Unchanged(book, MATCHING_REDUCE_FAILED_WRONG_SIZE, r, o)
    else
      && (forall a, i | Found(book, r, a, i) :: Reduced(book, r, a, i, o))
      && ((forall a, i :: !Found(book, r, a, i)) ==> Unchanged(book, MATCHING_UNKNOWN_ORDER_ID, r, o))
  }

  ghost predicate Moves(book: Book, symbol: SymbolType, r: Request, o: Outcome) {
    && (forall a, i | Found(book, r, a, i) :: Moved(book, symbol, r, a, i, o))
    && ((forall a, i :: !Found(book, r, a, i)) ==> Unchanged(book, MATCHING_UNKNOWN_ORDER_ID, r, o))
  }

  /** What a command does to a book, and answers. */
  ghost predicate Does(book: Book, symbol: SymbolType, r: Request, o: Outcome) {
    match r.command
    case PLACE_ORDER =>
      if r.resultCode == VALID_FOR_MATCHING_ENGINE then Placed(book, r, o) else Unchanged(book, r.resultCode, r, o)
    case CANCEL_ORDER => Cancels(book, r, o)
    case REDUCE_ORDER => Reduces(book, r, o)
    case MOVE_ORDER => Moves(book, symbol, r, o)
    case ORDER_BOOK_REQUEST => Unchanged(book, SUCCESS, r, o)
    case OTHER_COMMAND => Unchanged(book, MATCHING_UNSUPPORTED_COMMAND, r, o)
  }

  // ----- New orders -----

  lemma SidesOf(book: Book, a: OrderAction, side: seq<Order>)
    ensures Side(WithSide(book, a, side), a) == side
            && Side(WithSide(book, a, side), Opposite(a)) == Side(book, Opposite(a))
  {
  }

  lemma BookSides(book: Book, a: OrderAction)
    requires BookOk(book)
    ensures SideOk(Side(book, a), a) && Ranked(Side(book, a), a) && DistinctIds(Side(book, a))
  {
  }

  lemma LookupLacks(book: Book, a: OrderAction, orderId: int)
    ensures Lookup(book, orderId).None? <==> Lacks(Side(book, a), orderId) && Lacks(Side(book, Opposite(a)), orderId)
  {
    hide Find;
    HasIs(book.asks, orderId);
    HasIs(book.bids, orderId);
  }

  lemma HasIs(side: seq<Order>, orderId: int)
    ensures Has(side, orderId) <==> !Lacks(side, orderId)
  {
    if Has(side, orderId) { assert side[Find(side, orderId)].orderId == orderId; }
  }

  lemma NoTrades(reject: Event, trades: seq<Event>)
    requires !reject.Trade?
    ensures TradesIn([reject] + trades) == trades
  {
  }

  lemma AllTrades(makers: seq<Order>, taker: OrderAction, limit: Option<int>, size: int, reserve: int,
                  trades: seq<Event>, rest: seq<Order>)
    requires Fills(makers, taker, limit, size, reserve, trades, rest)
    ensures TradesIn(trades) == trades
  {
    if trades != [] { assert TradesWith(makers[0], taker, reserve, trades[0]); }
  }

  /** A passed new order does this. */
  lemma PlaceOutcome(book: Book, r: Request)
    requires BookOk(book) && RequestOk(r) && r.command == PLACE_ORDER
    ensures Placed(book, r, NewOrder(book, r))
  {
    hide BookOk, Fills, Stands, Match, Lookup, Insert, Lacks, Affordable, TradedOnly, TradesIn, Budget, SideOk;
    match r.orderType
    case GTC => GtcOutcome(book, r);
    case IOC =>
      var side := Opposite(r.action);
      var m := Match(Side(book, side), side, Some(r.price), r.size, r.reserveBidPrice);
      BookSides(book, side);
      MatchFills(Side(book, side), r.action, Some(r.price), r.size, r.reserveBidPrice);
      AllTrades(Side(book, side), r.action, Some(r.price), r.size, r.reserveBidPrice, m.events, m.rest);
      NoTrades(Reject(r.price, m.left, r.reserveBidPrice), m.events);
      assert [] + m.events == m.events;
    case FOK_BUDGET => FokOutcome(book, r);
    case _ =>
  }

  lemma GtcOutcome(book: Book, r: Request)
    requires BookOk(book) && RequestOk(r) && r.command == PLACE_ORDER && r.orderType == GTC
    ensures Placed(book, r, NewOrder(book, r))
  {
    hide BookOk, Fills, Stands, Match, Lookup, Insert, Lacks, TradedOnly, TradesIn, SideOk, Ranked;
    var side := Opposite(r.action);
    var own := Side(book, r.action);
    var m := Match(Side(book, side), side, Some(r.price), r.size, r.reserveBidPrice);
    BookSides(book, side);
    BookSides(book, r.action);
    MatchFills(Side(book, side), r.action, Some(r.price), r.size, r.reserveBidPrice);
    AllTrades(Side(book, side), r.action, Some(r.price), r.size, r.reserveBidPrice, m.events, m.rest);
    NoTrades(Reject(r.price, m.left, r.reserveBidPrice), m.events);
    var after := WithSide(book, side, m.rest);
    LookupLacks(after, r.action, r.orderId);
    InsertStands(own, Order(r.orderId, r.price, r.size, r.size - m.left, r.reserveBidPrice, r.action, r.uid,
                            r.timestamp));
  }

  lemma FokOutcome(book: Book, r: Request)
    requires BookOk(book) && RequestOk(r) && r.command == PLACE_ORDER && r.orderType == FOK_BUDGET
    ensures Placed(book, r, NewOrder(book, r))
  {
    hide BookOk, Fills, Match, Budget, Volume, TradedOnly, Cost, SideOk;
    var side := Opposite(r.action);
    var makers := Side(book, side);
    var m := Match(makers, side, None, r.size, r.reserveBidPrice);
    BookSides(book, side);
    SideLive(makers, side);
    MatchFills(makers, r.action, None, r.size, r.reserveBidPrice);
    BudgetIsCost(makers, side, r.size, r.reserveBidPrice);
    var reject := Reject(r.price, r.size, r.reserveBidPrice);
    RejectFirst(reject, []);
    assert TradedOnly([reject]) == 0 by { assert [reject] + [] == [reject]; NoEvents(); }
    forall trades, rest | Fills(makers, r.action, None, r.size, r.reserveBidPrice, trades, rest)
      ensures trades == m.events
    {
      FillsUnique(makers, r.action, None, r.size, r.reserveBidPrice, trades, rest, m.events, m.rest);
    }
  }

  // ----- Commands on a resting order -----

  lemma FoundIs(book: Book, r: Request, a: OrderAction, i: int)
    requires BookOk(book) && Found(book, r, a, i)
    ensures Lookup(book, r.orderId) == Some(Side(book, a)[i]) && Side(book, a)[i].action == a
            && Has(Side(book, a), r.orderId) && Find(Side(book, a), r.orderId) == i
            && Side(book, a)[i].filled < Side(book, a)[i].size
  {
    FindIs(Side(book, a), i);
    OtherSideLacks(book, Side(book, a)[i]);
  }

  lemma NotFoundIs(book: Book, r: Request)
    requires forall a, i :: !Found(book, r, a, i)
    ensures Lookup(book, r.orderId).None? || Lookup(book, r.orderId).value.uid != r.uid
  {
    var f := Find(book.asks, r.orderId);
    assert !Found(book, r, ASK, f) && !Found(book, r, BID, Find(book.bids, r.orderId));
  }

  lemma CancelOutcome(book: Book, r: Request, a: OrderAction, i: int)
    requires BookOk(book) && Found(book, r, a, i)
    ensures Cancelled(book, a, i, CancelOrder(book, r))
  {
    hide BookOk, Lookup, Find;
    FoundIs(book, r, a, i);
  }

  lemma ReduceOutcome(book: Book, r: Request, a: OrderAction, i: int)
    requires BookOk(book) && Found(book, r, a, i) && 0 < r.size
    ensures Reduced(book, r, a, i, ReduceOrder(book, r))
  {
    hide BookOk, Lookup, Find;
    FoundIs(book, r, a, i);
  }

  lemma MoveOutcome(book: Book, symbol: SymbolType, r: Request, a: OrderAction, i: int)
    requires BookOk(book) && Found(book, r, a, i)
    ensures Moved(book, symbol, r, a, i, MoveOrder(book, symbol, r))
  {
    hide BookOk, Lookup, Find, Fills, Stands, Insert, Match, TradedOnly, SideOk, Ranked;
    FoundIs(book, r, a, i);
    var x := Side(book, a)[i];
    var lifted := Without(book, x);
    WithoutKeeps(book, r.orderId);
    BookSides(lifted, a);
    BookSides(lifted, Opposite(a));
    MatchFills(Side(lifted, Opposite(a)), a, Some(r.price), x.size - x.filled, x.reserveBidPrice);
    var m := Match(Side(lifted, Opposite(a)), Opposite(a), Some(r.price), x.size - x.filled, x.reserveBidPrice);
    InsertStands(Side(lifted, a), x.(price := r.price, filled := x.size - m.left));
  }

  lemma CancelIs(book: Book, r: Request)
    requires BookOk(book)
    ensures Cancels(book, r, CancelOrder(book, r))
  {
    hide BookOk, Cancelled, Lookup;
    forall a, i | Found(book, r, a, i) ensures Cancelled(book, a, i, CancelOrder(book, r)) {
      CancelOutcome(book, r, a, i);
    }
    if forall a, i :: !Found(book, r, a, i) { NotFoundIs(book, r); }
  }

  lemma ReduceIs(book: Book, r: Request)
    requires BookOk(book)
    ensures Reduces(book, r, ReduceOrder(book, r))
  {
    hide BookOk, Reduced, Lookup;
    if 0 < r.size {
      forall a, i | Found(book, r, a, i) ensures Reduced(book, r, a, i, ReduceOrder(book, r)) {
        ReduceOutcome(book, r, a, i);
      }
      if forall a, i :: !Found(book, r, a, i) { NotFoundIs(book, r); }
    }
  }

  lemma MoveIs(book: Book, symbol: SymbolType, r: Request)
    requires BookOk(book)
    ensures Moves(book, symbol, r, MoveOrder(book, symbol, r))
  {
    hide BookOk, Moved, Lookup;
    forall a, i | Found(book, r, a, i) ensures Moved(book, symbol, r, a, i, MoveOrder(book, symbol, r)) {
      MoveOutcome(book, symbol, r, a, i);
    }
    if forall a, i :: !Found(book, r, a, i) { NotFoundIs(book, r); }
  }

  /** The specification does this. */
  lemma StepDoes(book: Book, symbol: SymbolType, r: Request)
    requires BookOk(book) && RequestOk(r)
    ensures Does(book, symbol, r, Step(book, symbol, r))
  {
    hide BookOk, Placed, Cancels, Reduces, Moves, NewOrder, CancelOrder, ReduceOrder, MoveOrder;
    if r.command == PLACE_ORDER { PlaceOutcome(book, r); }
    CancelIs(book, r);
    ReduceIs(book, r);
    MoveIs(book, symbol, r);
  }

  // ----- Only one outcome is of this kind -----

  lemma SameSides(book: Book, book': Book, a: OrderAction)
    requires Side(book, a) == Side(book', a) && Side(book, Opposite(a)) == Side(book', Opposite(a))
    ensures book == book'
  {
  }

  lemma PlacedUnique(book: Book, r: Request, o: Outcome, o': Outcome)
    requires Placed(book, r, o) && Placed(book, r, o')
    ensures o == o'
  {
    hide Fills, Stands, Lacks, Affordable, TradedOnly, TradesIn;
    var makers, own := Side(book, Opposite(r.action)), Side(book, r.action);
    var rest, rest' := Side(o.book, Opposite(r.action)), Side(o'.book, Opposite(r.action));
    var trades, trades' := TradesIn(o.events), TradesIn(o'.events);
    if r.orderType == GTC || r.orderType == IOC {
      FillsUnique(makers, r.action, Some(r.price), r.size, r.reserveBidPrice, trades, rest, trades', rest');
      var t := TradedOnly(trades);
      if r.orderType == GTC && t < r.size && Lacks(own, r.orderId) && Lacks(rest, r.orderId) {
        StandsUnique(own, Side(o.book, r.action), Side(o'.book, r.action),
                     Order(r.orderId, r.price, r.size, t, r.reserveBidPrice, r.action, r.uid, r.timestamp));
      }
    } else if r.orderType == FOK_BUDGET && Affordable(r, o.events) && Affordable(r, o'.events) {
      FillsUnique(makers, r.action, None, r.size, r.reserveBidPrice, o.events, rest, o'.events, rest');
    }
    SameSides(o.book, o'.book, r.action);
  }

  lemma MovedUnique(book: Book, symbol: SymbolType, r: Request, a: OrderAction, i: int, o: Outcome, o': Outcome)
    requires Found(book, r, a, i) && Moved(book, symbol, r, a, i, o) && Moved(book, symbol, r, a, i, o')
    ensures o == o'
  {
    hide Fills, Stands, TradedOnly;
    var x := Side(book, a)[i];
    if o.code == SUCCESS && o'.code == SUCCESS {
      FillsUnique(Side(book, Opposite(a)), a, Some(r.price), x.size - x.filled, x.reserveBidPrice, o.events,
                  Side(o.book, Opposite(a)), o'.events, Side(o'.book, Opposite(a)));
      var t := TradedOnly(o.events);
      if t != x.size - x.filled {
        StandsUnique(Side(book, a)[..i] + Side(book, a)[i + 1..], Side(o.book, a), Side(o'.book, a),
                     x.(price := r.price, filled := x.filled + t));
      }
      SameSides(o.book, o'.book, a);
    }
  }

  lemma DoesUnique(book: Book, symbol: SymbolType, r: Request, o: Outcome, o': Outcome)
    requires Does(book, symbol, r, o) && Does(book, symbol, r, o')
    ensures o == o'
  {
    hide Placed, Found, Moved;
    if r.command == PLACE_ORDER && r.resultCode == VALID_FOR_MATCHING_ENGINE { PlacedUnique(book, r, o, o'); }
    if a, i :| Found(book, r, a, i) {
      FoundUnique(book, symbol, r, a, i, o, o');
    }
  }

  lemma FoundUnique(book: Book, symbol: SymbolType, r: Request, a: OrderAction, i: int, o: Outcome, o': Outcome)
    requires Does(book, symbol, r, o) && Does(book, symbol, r, o') && Found(book, r, a, i)
    ensures r.command != PLACE_ORDER ==> o == o'
  {
    hide Placed, Moved;
    match r.command
    case CANCEL_ORDER =>
      assert Cancelled(book, a, i, o) && Cancelled(book, a, i, o');
      SameSides(o.book, o'.book, a);
    case REDUCE_ORDER =>
      if 0 < r.size {
        assert Reduced(book, r, a, i, o) && Reduced(book, r, a, i, o');
        SameSides(o.book, o'.book, a);
      }
    case MOVE_ORDER => MovedUnique(book, symbol, r, a, i, o, o');
    case _ =>
  }

  /** The outcome of a command on a valid book is the specification's if and only if it is of this kind. */
  lemma StepIs(book: Book, symbol: SymbolType, r: Request, o: Outcome)
    requires BookOk(book) && RequestOk(r)
    ensures o == Step(book, symbol, r) <==> Does(book, symbol, r, o)
  {
    hide BookOk, Does, Step;
    StepDoes(book, symbol, r);
    if Does(book, symbol, r, o) { DoesUnique(book, symbol, r, o, Step(book, symbol, r)); }
  }

  // ----- What becomes of the order itself -----

  lemma StandsLookup(book: Book, a: OrderAction, before: seq<Order>, x: Order)
    requires BookOk(book) && Stands(before, Side(book, a), x)
    ensures Lookup(book, x.orderId) == Some(x)
  {
    hide BookOk, Lookup;
    var p: nat :| StandsAt(before, Side(book, a), x, p);
    assert Side(book, a)[p] == x;
    MemberLookup(book, a, p);
  }

  lemma MemberLookup(book: Book, a: OrderAction, i: nat)
    requires BookOk(book) && i < |Side(book, a)|
    ensures Lookup(book, Side(book, a)[i].orderId) == Some(Side(book, a)[i])
  {
    FindIs(Side(book, a), i);
    OtherSideLacks(book, Side(book, a)[i]);
  }

  lemma OthersLack(book: Book, a: OrderAction, i: nat)
    requires BookOk(book) && i < |Side(book, a)|
    ensures var id := Side(book, a)[i].orderId;
            Lacks(Side(book, a)[..i] + Side(book, a)[i + 1..], id) && Lacks(Side(book, Opposite(a)), id)
  {
    var side := Side(book, a);
    var others := side[..i] + side[i + 1..];
    assert forall k | 0 <= k < |others| :: others[k] == side[if k < i then k else k + 1];
  }

  lemma FillsLacks(makers: seq<Order>, taker: OrderAction, limit: Option<int>, size: int, reserve: int,
                   trades: seq<Event>, rest: seq<Order>, orderId: int)
    requires Fills(makers, taker, limit, size, reserve, trades, rest) && Lacks(makers, orderId)
    ensures Lacks(rest, orderId)
  {
    hide TradesWith, Within;
  }

  /** What a good-till-cancelled order did not trade rests at its price, under its id, filled by what it traded, unless
      an order of that id is left. */
  lemma RestsAfterPlace(book: Book, symbol: SymbolType, r: Request)
    requires BookOk(book) && RequestOk(r) && r.command == PLACE_ORDER && r.orderType == GTC
             && r.resultCode == VALID_FOR_MATCHING_ENGINE
    ensures var o := Step(book, symbol, r);
            var t := TradedOnly(TradesIn(o.events));
            t < r.size && Lacks(Side(book, r.action), r.orderId) && Lacks(Side(o.book, Opposite(r.action)), r.orderId)
            ==> && o.events == TradesIn(o.events)
                && Lookup(o.book, r.orderId)
                   == Some(Order(r.orderId, r.price, r.size, t, r.reserveBidPrice, r.action, r.uid, r.timestamp))
  {
    hide BookOk, Fills, Stands, Lacks, TradedOnly, TradesIn, Step, Lookup, RequestOk;
    StepDoes(book, symbol, r);
    StepKeeps(book, symbol, r);
    var o := Step(book, symbol, r);
    var t := TradedOnly(TradesIn(o.events));
    if t < r.size && Lacks(Side(book, r.action), r.orderId) && Lacks(Side(o.book, Opposite(r.action)), r.orderId) {
      StandsLookup(o.book, r.action, Side(book, r.action),
                   Order(r.orderId, r.price, r.size, t, r.reserveBidPrice, r.action, r.uid, r.timestamp));
    }
  }

  /** A reduce leaves the size asked less of the order, and takes it off the book exactly if that is all of it. */
  lemma LeftAfterReduce(book: Book, symbol: SymbolType, r: Request, a: OrderAction, i: int)
    requires BookOk(book) && RequestOk(r) && r.command == REDUCE_ORDER && 0 < r.size && Found(book, r, a, i)
    ensures var x := Side(book, a)[i];
            Lookup(Step(book, symbol, r).book, r.orderId)
            == if x.size - x.filled <= r.size then None else Some(x.(size := x.size - r.size))
  {
    hide BookOk, Lacks, Step, Lookup, RequestOk;
    StepDoes(book, symbol, r);
    StepKeeps(book, symbol, r);
    var o := Step(book, symbol, r);
    assert Reduced(book, r, a, i, o);
    var x := Side(book, a)[i];
    if x.size - x.filled <= r.size {
      OthersLack(book, a, i);
      LookupLacks(o.book, a, r.orderId);
    } else {
      assert Side(o.book, a)[i] == x.(size := x.size - r.size);
      MemberLookup(o.book, a, i);
    }
  }

  /** A move that is not refused leaves what it did not trade at the new price, and takes the order off the book exactly
      if it traded all of it. */
  lemma RestsAfterMove(book: Book, symbol: SymbolType, r: Request, a: OrderAction, i: int)
    requires BookOk(book) && RequestOk(r) && r.command == MOVE_ORDER && Found(book, r, a, i)
    ensures var o := Step(book, symbol, r);
            var x := Side(book, a)[i];
            var t := TradedOnly(o.events);
            && (o.code == SUCCESS <==> !(symbol == CURRENCY_EXCHANGE_PAIR && a == BID && x.reserveBidPrice < r.price))
            && (o.code == SUCCESS ==>
                  Lookup(o.book, r.orderId) == if t == x.size - x.filled then None
                                               else Some(x.(price := r.price, filled := x.filled + t)))
  {
    hide BookOk, Fills, Stands, Lacks, TradedOnly, Step, Lookup, RequestOk;
    StepDoes(book, symbol, r);
    StepKeeps(book, symbol, r);
    var o := Step(book, symbol, r);
    assert Moved(book, symbol, r, a, i, o);
    var x := Side(book, a)[i];
    var t := TradedOnly(o.events);
    OthersLack(book, a, i);
    if o.code == SUCCESS {
      if t == x.size - x.filled {
        FillsLacks(Side(book, Opposite(a)), a, Some(r.price), x.size - x.filled, x.reserveBidPrice, o.events,
                   Side(o.book, Opposite(a)), r.orderId);
        LookupLacks(o.book, a, r.orderId);
      } else {
        StandsLookup(o.book, a, Side(book, a)[..i] + Side(book, a)[i + 1..],
                     x.(price := r.price, filled := x.filled + t));
      }
    }
  }
}
