/** The fast order book: two linked sides with price indexes, and an index by order id. */
module DirectBook {
  import opened Wrappers
  import opened OrderTypes
  import opened ArtOrder
  import opened BookSpec
  import opened BookFacts
  import opened BookLevels
  import opened BookIndex
  import opened DirectSides
  import B = BookOutcomes

  // ----- What a price limit is for a fill-or-kill order -----

  /** A total cost within a bid's budget keeps every price used within it, so the budget may double as the price
      limit. */
  lemma {:induction false} BudgetIsLimit(makers: seq<Order>, size: int, reserve: int, limit: int)
    requires (forall i | 0 <= i < |makers| :: Live(makers[i], ASK)) && 0 < size
    requires Budget(makers, size).Some? && Budget(makers, size).value <= limit
    ensures Match(makers, ASK, Some(limit), size, reserve) == Match(makers, ASK, None, size, reserve)
    ensures Budget(makers, size).value >= makers[0].price
    decreases |makers|
  {
    var price, rem := makers[0].price, makers[0].Remaining();
    assert Live(makers[0], ASK);
    if size <= rem {
      assert size * price >= price;
    } else {
      CostNonNegative(makers[1..], size - rem);
      assert rem * price >= price;
      BudgetIsLimit(makers[1..], size - rem, reserve, limit);
    }
  }

  lemma {:induction false} CostNonNegative(makers: seq<Order>, size: int)
    requires (forall i | 0 <= i < |makers| :: 0 <= makers[i].price && 0 < makers[i].Remaining()) && 0 <= size
             && Budget(makers, size).Some?
    ensures 0 <= Budget(makers, size).value
    decreases |makers|
  {
    if makers[0].Remaining() < size { CostNonNegative(makers[1..], size - makers[0].Remaining()); }
  }

  /** Asking for at least zero excludes no bid. */
  lemma {:induction false} ZeroIsNoLimit(makers: seq<Order>, size: int, reserve: int)
    requires forall i | 0 <= i < |makers| :: Live(makers[i], BID)
    ensures Match(makers, BID, Some(0), size, reserve) == Match(makers, BID, None, size, reserve)
    decreases |makers|
  {
    if 0 < size && makers != [] {
      assert Live(makers[0], BID);
      if makers[0].Remaining() <= size { ZeroIsNoLimit(makers[1..], size - makers[0].Remaining(), reserve); }
    }
  }

  /** Within its budget a fill-or-kill order matches as if it had no price limit. */
  lemma FokLimit(makers: seq<Order>, makerSide: OrderAction, size: int, reserve: int, price: int)
    requires (forall i | 0 <= i < |makers| :: Live(makers[i], makerSide)) && 0 < size
    requires Budget(makers, size).Some? && BudgetSatisfied(Opposite(makerSide), Budget(makers, size).value, price)
    ensures Match(makers, makerSide, Some(if makerSide == BID then 0 else price), size, reserve)
            == Match(makers, makerSide, None, size, reserve)
  {
    if makerSide == ASK {
      BudgetIsLimit(makers, size, reserve, price);
    } else {
      ZeroIsNoLimit(makers, size, reserve);
    }
  }

  lemma EmptyBook()
    ensures BookOk(Book([], [])) && IndexOk<DirectOrder>(map[], [], [], [], [])
  {
  }

  class OrderBookDirectImpl {
    const symbolType: SymbolType
    const asks: DirectSide
    const bids: DirectSide
    var orderIdIndex: map<int, DirectOrder>
    ghost var Repr: set<object>

    constructor (symbolType: SymbolType)
      ensures Valid() && fresh(Repr) && Contents() == Book([], []) && this.symbolType == symbolType
    {
      hide DirectSide.Valid, BookOk, IndexOk;
      this.symbolType := symbolType;
      asks := new DirectSide(ASK);
      bids := new DirectSide(BID);
      orderIdIndex := map[];
      new;
      EmptyBook();
      Repr := {this} + asks.Repr + bids.Repr;
    }

    ghost function Contents(): Book
      reads asks`orders, bids`orders
    {
      Book(asks.orders, bids.orders)
    }

    ghost predicate Apart()
      reads `Repr, asks`Repr, bids`Repr
    {
      && Repr == {this} + asks.Repr + bids.Repr && this !in asks.Repr && this !in bids.Repr && asks.Repr !! bids.Repr
      && asks.action == ASK && bids.action == BID && asks in asks.Repr && bids in bids.Repr
    }

    /** Both sides' structures agree with their orders, and the index with both. */
    ghost predicate Valid()
      reads this, Repr, asks, asks.Repr, bids, bids.Repr
      ensures Valid() ==> Apart()
    {
      && Apart() && asks.Valid() && bids.Valid()
      && BookOk(Contents())
      && IndexOk(orderIdIndex, asks.list, asks.orders, bids.list, bids.orders)
    }

    // ----- Matching -----

    /** The taker's side and the makers' side. */
    function SideFor(action: OrderAction): DirectSide {
      if action == ASK then asks else bids
    }

    /** While an order is being moved it is still in the index but in no list. */
    ghost predicate MatchReady(moving: set<int>)
      reads this, Repr, asks, asks.Repr, bids, bids.Repr
      ensures MatchReady(moving) ==> Apart()
    {
      && Apart() && asks.Valid() && bids.Valid()
      && BookOk(Contents())
      && IndexOk(orderIdIndex - moving, asks.list, asks.orders, bids.list, bids.orders)
      && forall id: int <- moving :: Lookup(Contents(), id).None?
    }

    /** In the middle of matching: the makers' side is sound but its best pointer is not yet reset. */
    ghost predicate Going(makers: DirectSide, others: DirectSide, moving: set<int>)
      reads this, Repr, asks, asks.Repr, bids, bids.Repr, makers, makers.Repr, others, others.Repr
      ensures Going(makers, others, moving) ==>
                Apart() && makers.Repr <= Repr && others.Repr <= Repr && makers in makers.Repr && others in others.Repr
                    && makers.Repr !! others.Repr
    {
      && Apart() && ((makers == asks && others == bids) || (makers == bids && others == asks))
      && makers.Sound() && others.Valid()
      && GoingOrders(makers.orders, others.orders, moving)
      && IndexOk(orderIdIndex - moving, makers.list, makers.orders, others.list, others.orders)
    }

    /** One trade, with the maker's id dropped from the index once it is complete. */
    method TradeOne(makers: DirectSide, ghost others: DirectSide, makerOrder: DirectOrder, tradeSize: int,
                    ghost moving: set<int>)
      returns (completed: bool)
      requires Going(makers, others, moving) && makers.list != [] && makers.list[0] == makerOrder
               && 0 < tradeSize <= makers.orders[0].Remaining()
      modifies makers.Repr, `Repr, `orderIdIndex
      ensures Going(makers, others, moving) && fresh(Repr - old(Repr)) && unchanged(others)
      ensures completed <==> tradeSize == old(makers.orders[0]).Remaining()
      ensures makerOrder.prev == (if 1 < |old(makers.list)| then old(makers.list)[1] else null)
      ensures completed ==> makers.list == old(makers.list)[1..] && makers.orders == old(makers.orders)[1..]
      ensures !completed ==> makers.list == old(makers.list)
      ensures !completed ==>
                makers.orders == old(makers.orders)[0 :=
                                                    old(makers.orders[0]).(filled := old(makers.orders[0]).filled
                                                                           + tradeSize)]
      ensures makerOrder.Value() == old(makers.orders[0]).(filled := old(makers.orders[0]).filled + tradeSize)
      ensures forall id: int <- moving ::
                (id in orderIdIndex <==> id in old(orderIdIndex))
                    && (id in orderIdIndex ==> orderIdIndex[id] == old(orderIdIndex)[id])
    {
      hide DirectSide.Sound, DirectSide.Valid, IndexOk, GoingOrders;
      ghost var l, s, idx := makers.list, makers.orders, orderIdIndex;
      FirstDropped(idx, moving, l, s, others.list, others.orders);
      FirstRefilled(idx, moving, l, s, others.list, others.orders, s[0].(filled := s[0].filled + tradeSize));
      completed := makers.Trade(makerOrder, tradeSize);
      Repr := {this} + asks.Repr + bids.Repr;
      if completed {
        orderIdIndex := orderIdIndex - {makerOrder.orderId};
      }
    }

    /** The loop of tryMatchInstantly: trades with the head of the makers' list while the taker wants more and the price
        crosses. */
    method MatchLoop(makers: DirectSide, ghost others: DirectSide, limitPrice: int, taker: Order, cmd: OrderCommand,
                     ghost moving: set<int>)
      returns (remainingSize: int, makerOrder: DirectOrder?)
      requires Going(makers, others, moving) && makers.best == After(makers.list, -1) && cmd !in Repr
               && cmd.matcherEvent == []
      requires taker.filled <= taker.size && makers.action == Opposite(taker.action)
      modifies Repr, cmd`matcherEvent
      ensures Going(makers, others, moving) && fresh(Repr - old(Repr)) && unchanged(others) && cmd !in Repr
      ensures makerOrder == After(makers.list, -1)
      ensures Match(old(makers.orders), makers.action, Some(limitPrice), taker.Remaining(), taker.reserveBidPrice)
           == Matching(makers.orders, cmd.matcherEvent, remainingSize)
      ensures forall id: int <- moving ::
                (id in orderIdIndex <==> id in old(orderIdIndex))
                    && (id in orderIdIndex ==> orderIdIndex[id] == old(orderIdIndex)[id])
    {
      hide DirectSide.Sound, DirectSide.Valid, IndexOk, GoingOrders, BookOk, Match, Going, Live;
      var isBidAction := taker.action == BID;
      ghost var makerSide, limit, reserve := makers.action, Some(limitPrice), taker.reserveBidPrice;
      ghost var taken := Match(makers.orders, makerSide, limit, taker.Remaining(), reserve);
      makerOrder := makers.best;
      remainingSize := taker.size - taker.filled;
      while 0 < remainingSize && makerOrder != null
          && (if isBidAction then makerOrder.price <= limitPrice else limitPrice <= makerOrder.price)
        invariant Going(makers, others, moving) && fresh(Repr - old(Repr)) && cmd !in Repr && unchanged(others)
        invariant makerOrder == After(makers.list, -1) && 0 <= remainingSize
        invariant taken == Prepended(cmd.matcherEvent, Match(makers.orders, makerSide, limit, remainingSize, reserve))
        invariant forall id: int <- moving ::
                    (id in orderIdIndex <==> id in old(orderIdIndex))
                        && (id in orderIdIndex ==> orderIdIndex[id] == old(orderIdIndex)[id])
        decreases remainingSize
      {
        HeadIs(makers, others, moving);
        ghost var s, events := makers.orders, cmd.matcherEvent;
        var tradeSize := Min(remainingSize, makerOrder.size - makerOrder.filled);
        var makerCompleted := TradeOne(makers, others, makerOrder, tradeSize, moving);
        var bidderHoldPrice := if isBidAction then taker.reserveBidPrice else makerOrder.reserveBidPrice;
        cmd.matcherEvent := cmd.matcherEvent
          + [Trade(makerOrder.orderId, makerOrder.uid, makerCompleted, remainingSize == tradeSize, makerOrder.price,
                   tradeSize, bidderHoldPrice)];
        TradeStep(s, makerSide, limit, remainingSize, reserve, events, makers.orders, cmd.matcherEvent[|events|]);
        remainingSize := remainingSize - tradeSize;
        if makerCompleted {
          makerOrder := makerOrder.prev;
        }
      }
      GoingIndex(makers, others, moving);
      if makerOrder != null { HeadIs(makers, others, moving); }
      NothingMore(makers.orders, makerSide, limit, remainingSize, reserve, cmd.matcherEvent);
    }

    /** Matches a taker against the opposite side within its limit; returns how much of it is filled. */
    method TryMatchInstantly(taker: Order, cmd: OrderCommand, ghost moving: set<int>) returns (filled: int)
      requires MatchReady(moving) && cmd !in Repr && cmd.matcherEvent == [] && taker.filled <= taker.size
      modifies Repr, cmd`matcherEvent
      ensures MatchReady(moving) && fresh(Repr - old(Repr)) && cmd !in Repr
      ensures forall id: int <- moving ::
                (id in orderIdIndex <==> id in old(orderIdIndex))
                    && (id in orderIdIndex ==> orderIdIndex[id] == old(orderIdIndex)[id])
      ensures var makerSide := Opposite(taker.action);
              var limit := if cmd.command == PLACE_ORDER && cmd.orderType == FOK_BUDGET && taker.action == ASK then 0
                  else taker.price;
              var taken := Match(Side(old(Contents()), makerSide), makerSide, Some(limit), taker.Remaining(),
                                 taker.reserveBidPrice);
              && Contents() == WithSide(old(Contents()), makerSide, taken.rest)
              && cmd.matcherEvent == taken.events && filled == taker.size - taken.left
    {
      hide DirectSide.Sound, DirectSide.Valid, IndexOk, GoingOrders, BookOk, Match, Going, Live, Lookup;
      var isBidAction := taker.action == BID;
      var limitPrice := if cmd.command == PLACE_ORDER && cmd.orderType == FOK_BUDGET && !isBidAction then 0
          else taker.price;
      var makers, others := if isBidAction then asks else bids, if isBidAction then bids else asks;
      ghost var book := Contents();
      StartMatching(makers, others, moving);
      var remainingSize, makerOrder := MatchLoop(makers, others, limitPrice, taker, cmd, moving);
      GoingIndex(makers, others, moving);
      EndMatching(makers, others, makerOrder, moving);
      MatchedBook(book, taker.action, Some(limitPrice), taker.Remaining(), taker.reserveBidPrice, moving);
      filled := taker.size - remainingSize;
    }

    lemma GoingIndex(makers: DirectSide, others: DirectSide, moving: set<int>)
      requires Going(makers, others, moving)
      ensures IndexOk(orderIdIndex - moving, asks.list, asks.orders, bids.list, bids.orders)
      ensures makers.list == [] <==> makers.orders == []
    {
      hide DirectSide.Valid;
      IndexSwap(orderIdIndex - moving, makers.list, makers.orders, others.list, others.orders);
    }

    method EndMatching(makers: DirectSide, ghost others: DirectSide, head: DirectOrder?, ghost moving: set<int>)
      requires Going(makers, others, moving) && head == After(makers.list, -1)
      modifies makers.Repr
      ensures Apart() && asks.Valid() && bids.Valid() && unchanged(makers`orders, others, makers`list, makers`Repr)
    {
      hide DirectSide.Sound, DirectSide.Valid, IndexOk, GoingOrders;
      makers.SoundIs();
      makers.Rebase(head);
    }

    lemma StartMatching(makers: DirectSide, others: DirectSide, moving: set<int>)
      requires MatchReady(moving) && ((makers == asks && others == bids) || (makers == bids && others == asks))
      ensures Going(makers, others, moving) && makers.best == After(makers.list, -1)
              && makers.action == if makers == asks then ASK else BID
    {
      hide DirectSide.Sound;
      IndexSwap(orderIdIndex - moving, asks.list, asks.orders, bids.list, bids.orders);
    }

    lemma HeadIs(makers: DirectSide, others: DirectSide, moving: set<int>)
      requires Going(makers, others, moving) && After(makers.list, -1) != null
      ensures makers.list != [] && makers.orders != [] && makers.list[0] == After(makers.list, -1)
              && makers.list[0].Value() == makers.orders[0]
      ensures 0 < makers.orders[0].Remaining()
    {
      hide IndexOk, GoingOrders, DirectSide.Valid;
      makers.SoundIs();
    }

    // ----- Orders leaving and joining -----

    /** The order found through the index is the one the book's contents hold under the id. */
    lemma FoundOrder(id: int)
      requires Valid()
      ensures id in orderIdIndex <==> Lookup(Contents(), id).Some?
      ensures id in orderIdIndex ==>
                var order, side := orderIdIndex[id], SideFor(orderIdIndex[id].action);
                var i := Find(side.orders, id);
                && i < |side.list| && side.list[i] == order && order.Value() == side.orders[i] && order.orderId == id
                && Lookup(Contents(), id) == Some(order.Value()) && order in Repr && Live(order.Value(), order.action)
                && side.Valid() && side.action == order.action && order in side.Repr
    {
      hide DirectSide.Valid, DirectSide.Sound;
      asks.ValidIs();
      bids.ValidIs();
      if id in orderIdIndex {
        IndexFind(orderIdIndex, asks.list, asks.orders, bids.list, bids.orders, id);
        if Has(asks.orders, id) {
          asks.ListedOrder(Find(asks.orders, id));
        } else {
          bids.ListedOrder(Find(bids.orders, id));
        }
      }
    }

    /** Takes a listed order out of its side; its id stays in the index. */
    method Lift(order: DirectOrder)
      requires Valid() && order.orderId in orderIdIndex && orderIdIndex[order.orderId] == order
      modifies Repr
      ensures MatchReady({order.orderId}) && fresh(Repr - old(Repr)) && order !in Repr
      ensures order.Value() == old(order.Value()) && orderIdIndex == old(orderIdIndex)
      ensures Contents() == Without(old(Contents()), old(order.Value()))
    {
      hide DirectSide.Valid, DirectSide.Sound, IndexOk, BookOk, Lookup, Find, Has;
      ghost var id := order.orderId;
      FoundOrder(id);
      LookupIs(Contents(), id);
      WithoutKeeps(Contents(), id);
      var side := if order.action == ASK then asks else bids;
      ghost var other := if order.action == ASK then bids else asks;
      ghost var i := Find(side.orders, id);
      LiftedIndex(orderIdIndex, asks.list, asks.orders, bids.list, bids.orders, order.action, i, id);
      side.RemoveOrder(order, i);
      Repr := {this} + asks.Repr + bids.Repr;
      assert other.Valid();
    }

    /** Rests an order whose id is in the index on its side. */
    method Rest(order: DirectOrder)
      requires MatchReady({order.orderId}) && order !in Repr && order.orderId in orderIdIndex
               && orderIdIndex[order.orderId] == order
      requires Live(order.Value(), order.action)
      requires var opposite := Side(Contents(), Opposite(order.action));
               forall i | 0 <= i < |opposite| :: !Crosses(Opposite(order.action), opposite[i].price, Some(order.price))
      modifies Repr, order
      ensures Valid() && fresh(Repr - old(Repr) - {order})
      ensures Contents() == WithOrder(old(Contents()), old(order.Value()))
    {
      hide DirectSide.Valid, DirectSide.Sound, IndexOk, BookOk, Find, Has, Place, Crosses, Live;
      WithOrderKeeps(Contents(), order.Value());
      var side := if order.action == ASK then asks else bids;
      ghost var other := if order.action == ASK then bids else asks;
      ghost var p := Place(side.orders, order.action, order.price);
      RestedIndex(orderIdIndex, asks.list, asks.orders, bids.list, bids.orders, order.action, p, order, order.Value());
      LiveAction(order.Value(), order.action);
      side.InsertOrder(order);
      Repr := {this} + asks.Repr + bids.Repr;
      assert other.Valid();
    }

    /** Adds an order read from a snapshot. */
    method Restore(order: DirectOrder)
      requires Valid() && order !in Repr && Live(order.Value(), order.action) && Lookup(Contents(), order.orderId).None?
      requires var opposite := Side(Contents(), Opposite(order.action));
               forall i | 0 <= i < |opposite| :: !Crosses(Opposite(order.action), opposite[i].price, Some(order.price))
      modifies Repr, order
      ensures Valid() && fresh(Repr - old(Repr) - {order})
      ensures Contents() == WithOrder(old(Contents()), old(order.Value()))
    {
      hide Valid, MatchReady, Lookup, WithOrder, Crosses, Live;
      FoundOrder(order.orderId);
      Register(order.orderId, order);
      Rest(order);
    }

    // ----- Commands -----

    method NewOrder(cmd: OrderCommand)
      requires Valid() && cmd !in Repr && cmd.matcherEvent == [] && cmd.command == PLACE_ORDER
      requires RequestOk(cmd.Input()) && Representable(Contents(), cmd.Input())
      modifies Repr, cmd`matcherEvent
      ensures Valid() && fresh(Repr - old(Repr))
      ensures var o := BookSpec.NewOrder(old(Contents()), old(cmd.Input()));
              Contents() == o.book && cmd.matcherEvent == o.events
      ensures B.Placed(old(Contents()), old(cmd.Input()),
                       Outcome(Contents(), SUCCESS, cmd.matcherEvent, cmd.action))
    {
      hide Valid, MatchReady, Match, Budget, Lookup, WithOrder, WithSide, B.Placed, BookOk;
      BookIsOk();
      B.PlaceOutcome(Contents(), cmd.Input());
      CodesOf(Contents(), symbolType, cmd.Input());
      if cmd.orderType == GTC {
        PlaceGtc(cmd);
      } else if cmd.orderType == IOC {
        MatchIoc(cmd);
      } else if cmd.orderType == FOK_BUDGET {
        PlaceFokBudget(cmd);
      } else {
        AttachRejectEvent(cmd, cmd.size);
      }
    }

    /** Puts a reject of the given size in front of the command's events. */
    method AttachRejectEvent(cmd: OrderCommand, rejectedSize: int)
      modifies cmd`matcherEvent
      ensures cmd.matcherEvent == [Reject(cmd.price, rejectedSize, cmd.reserveBidPrice)] + old(cmd.matcherEvent)
    {
      cmd.matcherEvent := [Reject(cmd.price, rejectedSize, cmd.reserveBidPrice)] + cmd.matcherEvent;
    }

    lemma ReadyToMatch()
      requires Valid()
      ensures MatchReady({}) && BookOk(Contents()) && Apart()
    {
      hide DirectSide.Valid, IndexOk, BookOk;
      assert orderIdIndex - {} == orderIdIndex;
    }

    lemma MatchedAll()
      requires MatchReady({})
      ensures Valid() && Apart()
    {
      hide DirectSide.Valid, IndexOk, BookOk;
      assert orderIdIndex - {} == orderIdIndex;
    }

    /** A new order's id enters the index before the order is linked in. */
    method Register(orderId: int, order: DirectOrder)
      requires Valid() && orderId !in orderIdIndex
      modifies `orderIdIndex
      ensures MatchReady({orderId}) && orderIdIndex == old(orderIdIndex)[orderId := order]
    {
      hide DirectSide.Valid, IndexOk, BookOk, Lookup;
      FoundOrder(orderId);
      ghost var idx := orderIdIndex;
      orderIdIndex := orderIdIndex[orderId := order];
      assert orderIdIndex - {orderId} == idx;
    }

    method PlaceGtc(cmd: OrderCommand)
      requires Valid() && cmd !in Repr && cmd.matcherEvent == [] && cmd.command == PLACE_ORDER && cmd.orderType == GTC
      requires RequestOk(cmd.Input())
      modifies Repr, cmd`matcherEvent
      ensures Valid() && fresh(Repr - old(Repr))
      ensures var o := BookSpec.NewOrder(old(Contents()), old(cmd.Input()));
              Contents() == o.book && cmd.matcherEvent == o.events
    {
      hide Valid, MatchReady, Match, Lookup, BookOk, WithOrder, WithSide, DirectSide.Valid;
      ghost var book := Contents();
      var size := cmd.size;
      var tempOrder := Order(cmd.orderId, cmd.price, size, 0, cmd.reserveBidPrice, cmd.action, cmd.uid, cmd.timestamp);
      ReadyToMatch();
      TakerLeft(book, cmd.action, Some(cmd.price), size, cmd.reserveBidPrice);
      var filledSize := TryMatchInstantly(tempOrder, cmd, {});
      MatchedAll();
      if filledSize == size {
        return;
      }
      var orderId := cmd.orderId;
      FoundOrder(orderId);
      if orderId in orderIdIndex {
        AttachRejectEvent(cmd, size - filledSize);
        return;
      }
      var orderRecord :=
          new DirectOrder(Order(orderId, cmd.price, size, filledSize, cmd.reserveBidPrice, cmd.action, cmd.uid,
                                cmd.timestamp));
      Register(orderId, orderRecord);
      Rest(orderRecord);
    }

    method MatchIoc(cmd: OrderCommand)
      requires Valid() && cmd !in Repr && cmd.matcherEvent == [] && cmd.command == PLACE_ORDER && cmd.orderType == IOC
      requires RequestOk(cmd.Input())
      modifies Repr, cmd`matcherEvent
      ensures Valid() && fresh(Repr - old(Repr))
      ensures var o := BookSpec.NewOrder(old(Contents()), old(cmd.Input()));
              Contents() == o.book && cmd.matcherEvent == o.events
    {
      hide Valid, MatchReady, Match, BookOk, WithSide, DirectSide.Valid;
      ReadyToMatch();
      var tempOrder :=
          Order(cmd.orderId, cmd.price, cmd.size, 0, cmd.reserveBidPrice, cmd.action, cmd.uid, cmd.timestamp);
      var filledSize := TryMatchInstantly(tempOrder, cmd, {});
      MatchedAll();
      var rejectedSize := cmd.size - filledSize;
      if rejectedSize != 0 {
        AttachRejectEvent(cmd, rejectedSize);
      }
    }

    predicate IsBudgetLimitSatisfied(action: OrderAction, calculated: int, limit: int) {
      calculated != INT64_MAX && (calculated == limit || ((action == BID) != (calculated > limit)))
    }

    method PlaceFokBudget(cmd: OrderCommand)
      requires Valid() && cmd !in Repr && cmd.matcherEvent == [] && cmd.command == PLACE_ORDER
               && cmd.orderType == FOK_BUDGET
      requires RequestOk(cmd.Input()) && Representable(Contents(), cmd.Input())
      modifies Repr, cmd`matcherEvent
      ensures Valid() && fresh(Repr - old(Repr))
      ensures var o := BookSpec.NewOrder(old(Contents()), old(cmd.Input()));
              Contents() == o.book && cmd.matcherEvent == o.events
    {
      hide Valid, MatchReady, Match, BookOk, WithSide, Budget, DirectSide.Valid, Live;
      ReadyToMatch();
      SidesOf();
      var makers := if cmd.action == BID then asks else bids;
      var budget := makers.CheckBudgetToFill(cmd.size);
      if IsBudgetLimitSatisfied(cmd.action, budget, cmd.price) {
        FokLimit(makers.orders, makers.action, cmd.size, cmd.reserveBidPrice, cmd.price);
        var tempOrder :=
            Order(cmd.orderId, cmd.price, cmd.size, 0, cmd.reserveBidPrice, cmd.action, cmd.uid, cmd.timestamp);
        var filledSize := TryMatchInstantly(tempOrder, cmd, {});
        MatchedAll();
      } else {
        AttachRejectEvent(cmd, cmd.size);
      }
    }

    lemma SidesOf()
      requires Valid()
      ensures asks.Valid() && bids.Valid() && asks.action == ASK && bids.action == BID
      ensures (forall i | 0 <= i < |asks.orders| :: Live(asks.orders[i], ASK))
              && forall i | 0 <= i < |bids.orders| :: Live(bids.orders[i], BID)
    {
      hide DirectSide.Valid, IndexOk;
    }

    method CancelOrder(cmd: OrderCommand) returns (code: ResultCode)
      requires Valid() && cmd !in Repr
      modifies Repr, cmd`matcherEvent, cmd`action
      ensures Valid() && fresh(Repr - old(Repr))
      ensures var o := BookSpec.CancelOrder(old(Contents()), old(cmd.Input()));
              Contents() == o.book && code == o.code && cmd.action == o.action
                  && cmd.matcherEvent == if code == SUCCESS then o.events else old(cmd.matcherEvent)
      ensures old(cmd.matcherEvent) == [] ==>
                B.Cancels(old(Contents()), old(cmd.Input()), Outcome(Contents(), code, cmd.matcherEvent, cmd.action))
    {
      hide Valid, MatchReady, Lookup, Without, WithSide, Find, DirectSide.Valid, B.Cancels, BookOk;
      BookIsOk();
      ghost var book, r := Contents(), cmd.Input();
      ghost var o := BookSpec.CancelOrder(book, r);
      assert B.Cancels(book, r, o) && (o.code != SUCCESS ==> o.events == []) by {
        B.CancelIs(book, r);
        CodesOf(book, symbolType, r);
      }
      KnownOrder(cmd.orderId);
      if cmd.orderId !in orderIdIndex || orderIdIndex[cmd.orderId].uid != cmd.uid {
        return MATCHING_UNKNOWN_ORDER_ID;
      }
      var order := orderIdIndex[cmd.orderId];
      Withdraw(order);
      cmd.action := order.action;
      cmd.matcherEvent := [Reduce(order.price, order.size - order.filled, order.reserveBidPrice, true)];
      return SUCCESS;
    }

    /** The order with an id, as the index has it. */
    lemma KnownOrder(id: int)
      requires Valid()
      ensures id in orderIdIndex <==> Lookup(Contents(), id).Some?
      ensures id in orderIdIndex ==>
                var order := orderIdIndex[id];
                Lookup(Contents(), id) == Some(order.Value()) && order.orderId == id && order in Repr
                    && 0 <= order.filled < order.size
    {
      hide DirectSide.Valid, IndexOk, BookOk, Lookup, Find, Has;
      FoundOrder(id);
    }

    /** Takes an order out of the book and forgets its id. */
    method Withdraw(order: DirectOrder)
      requires Valid() && order.orderId in orderIdIndex && orderIdIndex[order.orderId] == order
      modifies Repr
      ensures Valid() && fresh(Repr - old(Repr)) && order.Value() == old(order.Value())
      ensures Contents() == Without(old(Contents()), old(order.Value()))
    {
      hide Valid, MatchReady, Lookup, Without, DirectSide.Valid;
      Lift(order);
      Forget(order.orderId);
    }

    /** Drops the id of an order that is in no list any more. */
    method Forget(id: int)
      requires MatchReady({id})
      modifies `orderIdIndex
      ensures Valid()
    {
      hide DirectSide.Valid, IndexOk, BookOk, Lookup;
      orderIdIndex := orderIdIndex - {id};
    }

    method ReduceOrder(cmd: OrderCommand) returns (code: ResultCode)
      requires Valid() && cmd !in Repr
      modifies Repr, cmd`matcherEvent, cmd`action
      ensures Valid() && fresh(Repr - old(Repr))
      ensures var o := BookSpec.ReduceOrder(old(Contents()), old(cmd.Input()));
              Contents() == o.book && code == o.code && cmd.action == o.action
                  && cmd.matcherEvent == if code == SUCCESS then o.events else old(cmd.matcherEvent)
      ensures old(cmd.matcherEvent) == [] ==>
                B.Reduces(old(Contents()), old(cmd.Input()), Outcome(Contents(), code, cmd.matcherEvent, cmd.action))
    {
      hide Valid, MatchReady, Lookup, Without, WithSide, Find, DirectSide.Valid, B.Reduces, BookOk;
      BookIsOk();
      ghost var book, r := Contents(), cmd.Input();
      ghost var o := BookSpec.ReduceOrder(book, r);
      assert B.Reduces(book, r, o) && (o.code != SUCCESS ==> o.events == []) by {
        B.ReduceIs(book, r);
        CodesOf(book, symbolType, r);
      }
      if cmd.size <= 0 {
        return MATCHING_REDUCE_FAILED_WRONG_SIZE;
      }
      KnownOrder(cmd.orderId);
      if cmd.orderId !in orderIdIndex || orderIdIndex[cmd.orderId].uid != cmd.uid {
        return MATCHING_UNKNOWN_ORDER_ID;
      }
      var order := orderIdIndex[cmd.orderId];
      var remainingSize := order.size - order.filled;
      var reduceBy := Min(remainingSize, cmd.size);
      var canRemove := reduceBy == remainingSize;
      if canRemove {
        Withdraw(order);
      } else {
        Shorten(order, reduceBy);
      }
      cmd.matcherEvent := [Reduce(order.price, reduceBy, order.reserveBidPrice, canRemove)];
      cmd.action := order.action;
      return SUCCESS;
    }

    method Shorten(order: DirectOrder, reduceBy: int)
      requires Valid() && order.orderId in orderIdIndex && orderIdIndex[order.orderId] == order
               && 0 < reduceBy < order.size - order.filled
      modifies Repr
      ensures Valid() && fresh(Repr - old(Repr)) && unchanged(`Repr)
      ensures order.price == old(order.price)
      ensures var o := old(order.Value());
              var i := Find(Side(old(Contents()), o.action), o.orderId);
              && i < |Side(old(Contents()), o.action)|
              && Contents() == WithSide(old(Contents()), o.action,
                                        Side(old(Contents()), o.action)[i := o.(size := o.size - reduceBy)])
    {
      hide DirectSide.Valid, DirectSide.Sound, IndexOk, BookOk, Lookup, Find, Has;
      FoundOrder(order.orderId);
      var side := if order.action == ASK then asks else bids;
      ghost var other := if order.action == ASK then bids else asks;
      ghost var i, o := Find(side.orders, order.orderId), order.Value();
      ReduceKeeps(Contents(), o, reduceBy);
      ShortenedIndex(orderIdIndex, asks.list, asks.orders, bids.list, bids.orders, order.action, i,
                     o.(size := o.size - reduceBy));
      side.ReduceInPlace(order, reduceBy, i);
      assert other.Valid();
    }

    method MoveOrder(cmd: OrderCommand) returns (code: ResultCode)
      requires Valid() && cmd !in Repr && cmd.matcherEvent == [] && cmd.command == MOVE_ORDER && RequestOk(cmd.Input())
      modifies Repr, cmd`matcherEvent, cmd`action
      ensures Valid() && fresh(Repr - old(Repr))
      ensures var o := BookSpec.MoveOrder(old(Contents()), symbolType, old(cmd.Input()));
              Contents() == o.book && code == o.code && cmd.action == o.action && cmd.matcherEvent == o.events
      ensures B.Moves(old(Contents()), symbolType, old(cmd.Input()),
                      Outcome(Contents(), code, cmd.matcherEvent, cmd.action))
    {
      hide Valid, MatchReady, Lookup, Without, DirectSide.Valid, Match, WithSide, WithOrder, BookOk, B.Moves;
      BookIsOk();
      B.MoveIs(Contents(), symbolType, cmd.Input());
      KnownOrder(cmd.orderId);
      if cmd.orderId !in orderIdIndex || orderIdIndex[cmd.orderId].uid != cmd.uid {
        return MATCHING_UNKNOWN_ORDER_ID;
      }
      var orderToMove := orderIdIndex[cmd.orderId];
      if symbolType == CURRENCY_EXCHANGE_PAIR && orderToMove.action == BID && cmd.price > orderToMove.reserveBidPrice {
        return MATCHING_MOVE_FAILED_PRICE_OVER_RISK_LIMIT;
      }
      Lift(orderToMove);
      orderToMove.price := cmd.price;
      cmd.action := orderToMove.action;
      MatchMoved(orderToMove, cmd);
      return SUCCESS;
    }

    /** Matches an order that has been taken out at its new price, and rests what is left of it. */
    method MatchMoved(order: DirectOrder, cmd: OrderCommand)
      requires MatchReady({order.orderId}) && order !in Repr && cmd !in Repr && cmd.matcherEvent == []
               && cmd.command == MOVE_ORDER
      requires order.orderId in orderIdIndex && orderIdIndex[order.orderId] == order
               && Live(order.Value(), order.action)
      modifies Repr, order, cmd`matcherEvent
      ensures Valid() && fresh(Repr - old(Repr) - {order})
      ensures var o, lifted := old(order.Value()), old(Contents());
              var taken := Match(Side(lifted, Opposite(o.action)), Opposite(o.action), Some(o.price), o.Remaining(),
                                 o.reserveBidPrice);
              var after := WithSide(lifted, Opposite(o.action), taken.rest);
              && cmd.matcherEvent == taken.events
              && Contents() == if taken.left == 0 then after else WithOrder(after, o.(filled := o.size - taken.left))
    {
      hide Valid, MatchReady, Lookup, Without, DirectSide.Valid, Match, WithSide, WithOrder, BookOk;
      ReadyFacts({order.orderId});
      TakerLeft(Contents(), order.action, Some(order.price), order.size - order.filled, order.reserveBidPrice);
      var filled := TryMatchInstantly(order.Value(), cmd, {order.orderId});
      if filled == order.size {
        Forget(order.orderId);
        return;
      }
      order.filled := filled;
      Rest(order);
    }

    lemma ReadyFacts(moving: set<int>)
      requires MatchReady(moving)
      ensures BookOk(Contents()) && Apart()
    {
    }

    lemma BookIsOk()
      requires Valid()
      ensures BookOk(Contents())
    {
    }

    /** IOrderBook::ProcessCommand on this book does what the command says: the specification's step, whose outcome is
        the only one of its kind. */
    method ProcessCommand(cmd: OrderCommand) returns (code: ResultCode)
      requires Valid() && cmd !in Repr && cmd.matcherEvent == []
      requires RequestOk(cmd.Input()) && Representable(Contents(), cmd.Input())
      modifies Repr, cmd`matcherEvent, cmd`action, cmd`marketData
      ensures Valid() && fresh(Repr - old(Repr))
      ensures var o := Step(old(Contents()), symbolType, old(cmd.Input()));
              Contents() == o.book && code == o.code && cmd.action == o.action && cmd.matcherEvent == o.events
      ensures B.Does(old(Contents()), symbolType, old(cmd.Input()),
                     Outcome(Contents(), code, cmd.matcherEvent, cmd.action))
      ensures if cmd.command == ORDER_BOOK_REQUEST
              then cmd.marketData.Some? && MarketDataOf(Contents(), DepthOf(cmd.size), cmd.marketData.value)
              else cmd.marketData == old(cmd.marketData)
    {
      hide Valid, MarketDataOf, DepthOf, BookSpec.NewOrder, BookSpec.CancelOrder, BookSpec.ReduceOrder,
           BookSpec.MoveOrder, B.Does, BookOk;
      BookIsOk();
      B.StepDoes(Contents(), symbolType, cmd.Input());
      CodesOf(Contents(), symbolType, cmd.Input());
      if cmd.command == MOVE_ORDER {
        code := MoveOrder(cmd);
      } else if cmd.command == CANCEL_ORDER {
        code := CancelOrder(cmd);
      } else if cmd.command == REDUCE_ORDER {
        code := ReduceOrder(cmd);
      } else if cmd.command == PLACE_ORDER {
        if cmd.resultCode == VALID_FOR_MATCHING_ENGINE {
          NewOrder(cmd);
          code := SUCCESS;
        } else {
          code := cmd.resultCode;
        }
      } else if cmd.command == ORDER_BOOK_REQUEST {
        var data := GetL2MarketDataSnapshot(DepthOf(cmd.size));
        cmd.marketData := Some(data);
        code := SUCCESS;
      } else {
        code := MATCHING_UNSUPPORTED_COMMAND;
      }
    }

    /** Market data: the best `size` levels of each side, aggregated by price. */
    method GetL2MarketDataSnapshot(size: nat) returns (data: MarketData)
      requires Valid()
      ensures MarketDataOf(Contents(), size, data)
    {
      hide DirectSide.Valid, First, Levels, IndexOk, BookOk;
      SidesOf();
      var asksSize := asks.TotalBuckets(size);
      var bidsSize := bids.TotalBuckets(size);
      var askRows := asks.FillLevels(asksSize);
      var bidRows := bids.FillLevels(bidsSize);
      FirstOfAll(Levels(asks.orders), askRows, asksSize, size, false);
      FirstOfAll(Levels(bids.orders), bidRows, bidsSize, size, true);
      data := MarketData(askRows, bidRows);
    }
  }
}
