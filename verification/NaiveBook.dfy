/** The reference order book: sorted maps of first-in first-out buckets, and a lookup by order id. */
module NaiveBook {
  import opened Wrappers
  import opened OrderTypes
  import opened ArtOrder
  import opened BookSpec
  import opened BookFacts
  import opened BookLevels
  import opened BookIndex
  import opened NaiveBucket
  import opened NaiveSides
  import B = BookOutcomes

  lemma EmptyBook()
    ensures BookOk(Book([], [])) && IndexOk<RestingOrder>(map[], [], [], [], [])
  {
  }

  /** The ids of the makers that matching used up leave the lookup. */
  lemma SameIdsIndexed(idx: map<int, RestingOrder>, l: seq<RestingOrder>, s: seq<Order>, s': seq<Order>,
                       l2: seq<RestingOrder>, s2: seq<Order>)
    requires IndexOk(idx, l, s, l2, s2) && |s'| == |s| && forall i | 0 <= i < |s| :: s'[i].orderId == s[i].orderId
    ensures IndexOk(idx, l, s', l2, s2)
  {
    forall id: int | id in idx && Has(s, id) ensures Has(s', id) {
      HasIs(s, id);
      var j :| 0 <= j < |s| && s[j].orderId == id;
      assert s'[j].orderId == id;
      HasAt(s', j);
    }
  }

  lemma RestIds(makers: seq<Order>, makerSide: OrderAction, limit: Option<int>, need: nat, takerReserve: int)
    requires SideOk(makers, makerSide)
    ensures var rest := Match(makers, makerSide, limit, need, takerReserve).rest;
            |rest| <= |makers| && forall i | 0 <= i < |rest| :: rest[i].orderId == makers[|makers| - |rest| + i].orderId
  {
    hide Match, Live;
    SideLive(makers, makerSide);
    MatchSuffix(makers, makerSide, limit, need, takerReserve);
    var rest := Match(makers, makerSide, limit, need, takerReserve).rest;
    forall i | 0 <= i < |rest| ensures rest[i].orderId == makers[|makers| - |rest| + i].orderId {
      assert SameOrder(rest[i], makers[|makers| - |rest| + i]);
    }
  }

  lemma {:induction false} IdAt(s: seq<Order>, i: nat)
    requires i < |s|
    ensures |Ids(s)| == |s| && Ids(s)[i] == s[i].orderId
  {
    if i > 0 { IdAt(s[1..], i - 1); } else if |s| > 1 { IdAt(s[1..], 0); }
  }

  class OrderBookNaiveImpl {
    const symbolType: SymbolType
    const asks: NaiveSide
    const bids: NaiveSide
    var idMap: map<int, RestingOrder>
    ghost var Repr: set<object>

    constructor (symbolType: SymbolType)
      ensures Valid() && fresh(Repr) && Contents() == Book([], []) && this.symbolType == symbolType
    {
      hide NaiveSide.Valid, BookOk, IndexOk;
      this.symbolType := symbolType;
      asks := new NaiveSide(ASK);
      bids := new NaiveSide(BID);
      idMap := map[];
      new;
      EmptyBook();
      Repr := {this} + asks.Repr + bids.Repr;
    }

    ghost function Contents(): Book
      reads asks`orders, bids`orders
    {
      Book(asks.orders, bids.orders)
    }

    ghost predicate Apart()
      reads `Repr, asks`Repr, bids`Repr
    {
      && Repr == {this} + asks.Repr + bids.Repr && this !in asks.Repr && this !in bids.Repr && asks.Repr !! bids.Repr
      && asks.action == ASK && bids.action == BID && asks in asks.Repr && bids in bids.Repr
    }

    ghost predicate Valid()
      reads this, Repr, asks, asks.Repr, bids, bids.Repr
      ensures Valid() ==> Apart()
    {
      && Apart() && asks.Valid() && bids.Valid()
      && BookOk(Contents())
      && IndexOk(idMap, asks.list, asks.orders, bids.list, bids.orders)
    }

    /** While an order is being moved it is still in the lookup but in no bucket. */
    ghost predicate MatchReady(moving: set<int>)
      reads this, Repr, asks, asks.Repr, bids, bids.Repr
      ensures MatchReady(moving) ==> Apart()
    {
      && Apart() && asks.Valid() && bids.Valid()
      && BookOk(Contents())
      && IndexOk(idMap - moving, asks.list, asks.orders, bids.list, bids.orders)
      && forall id: int <- moving :: Lookup(Contents(), id).None?
    }

    // ----- Matching -----

    /** idMap_.erase for every order the buckets have used up. */
    method EraseIds(removed: seq<int>, ghost moving: set<int>, ghost l: seq<RestingOrder>, ghost s: seq<Order>,
                    ghost l2: seq<RestingOrder>, ghost s2: seq<Order>)
      requires IndexOk(idMap - moving, l, s, l2, s2) && GoingOrders(s, s2, moving) && |removed| <= |s|
               && removed == Ids(s[..|removed|])
      modifies `idMap
      ensures IndexOk(idMap - moving, l[|removed|..], s[|removed|..], l2, s2)
      ensures forall id: int <- moving ::
                (id in idMap <==> id in old(idMap)) && (id in idMap ==> idMap[id] == old(idMap)[id])
    {
      hide IndexOk, GoingOrders, Ids;
      SameLengths(idMap - moving, l, s, l2, s2);
      assert l[0..] == l && s[0..] == s;
      for i := 0 to |removed|
        invariant IndexOk(idMap - moving, l[i..], s[i..], l2, s2) && GoingOrders(s[i..], s2, moving)
        invariant forall id: int <- moving ::
                    (id in idMap <==> id in old(idMap)) && (id in idMap ==> idMap[id] == old(idMap)[id])
      {
        IdAt(s[..|removed|], i);
        FirstDropped(idMap, moving, l[i..], s[i..], l2, s2);
        assert l[i..][1..] == l[i + 1..] && s[i..][1..] == s[i + 1..];
        idMap := idMap - {removed[i]};
      }
    }

    lemma SameLengths(idx: map<int, RestingOrder>, l: seq<RestingOrder>, s: seq<Order>, l2: seq<RestingOrder>,
                      s2: seq<Order>)
      requires IndexOk(idx, l, s, l2, s2)
      ensures |l| == |s| && |l2| == |s2|
    {
    }

    /** Matches a taker against the opposite side; returns how much of it is filled. */
    method TryMatchInstantly(taker: Order, limit: Option<int>, cmd: OrderCommand, ghost moving: set<int>)
      returns (filled: int)
      requires MatchReady(moving) && cmd !in Repr && cmd.matcherEvent == [] && taker.filled <= taker.size
      modifies Repr, cmd`matcherEvent
      ensures MatchReady(moving) && unchanged(`Repr)
      ensures forall id: int <- moving ::
                (id in idMap <==> id in old(idMap)) && (id in idMap ==> idMap[id] == old(idMap)[id])
      ensures var makerSide := Opposite(taker.action);
              var taken := Match(Side(old(Contents()), makerSide), makerSide, limit, taker.Remaining(),
                                 taker.reserveBidPrice);
              && Contents() == WithSide(old(Contents()), makerSide, taken.rest)
              && cmd.matcherEvent == taken.events && filled == taker.size - taken.left
    {
      hide NaiveSide.Valid, IndexOk, GoingOrders, BookOk, Match, Ids, Lookup;
      var makers := if taker.action == BID then asks else bids;
      ghost var others := if taker.action == BID then bids else asks;
      ghost var book, l, s := Contents(), makers.list, makers.orders;
      MatchingIndex(makers, others, moving);
      RestIds(s, makers.action, limit, taker.size - taker.filled, taker.reserveBidPrice);
      var events, volume, removed := makers.MatchSide(limit, taker.size - taker.filled, taker.reserveBidPrice);
      IdsLength(s, |s| - |makers.orders|);
      EraseIds(removed, moving, l, s, others.list, others.orders);
      SameIdsIndexed(idMap - moving, makers.list, s[|removed|..], makers.orders, others.list, others.orders);
      IndexSwap(idMap - moving, makers.list, makers.orders, others.list, others.orders);
      MatchedBook(book, taker.action, limit, taker.size - taker.filled, taker.reserveBidPrice, moving);
      cmd.matcherEvent := events;
      filled := taker.filled + volume;
      assert others.Valid();
    }

    lemma MatchingIndex(makers: NaiveSide, others: NaiveSide, moving: set<int>)
      requires MatchReady(moving) && ((makers == asks && others == bids) || (makers == bids && others == asks))
      ensures IndexOk(idMap - moving, makers.list, makers.orders, others.list, others.orders)
              && GoingOrders(makers.orders, others.orders, moving)
      ensures makers.action == (if makers == asks then ASK else BID) && SideOk(makers.orders, makers.action)
    {
      hide NaiveSide.Loose;
      IndexSwap(idMap - moving, asks.list, asks.orders, bids.list, bids.orders);
      forall i | 0 <= i < |makers.orders| ensures makers.orders[i].orderId !in moving {
        HasAt(makers.orders, i);
      }
    }

    lemma IdsLength(s: seq<Order>, k: nat)
      requires k <= |s|
      ensures |Ids(s[..k])| == k
    {
      if k > 0 { IdAt(s[..k], 0); }
    }

    // ----- Orders leaving and joining -----

    /** The order found through the lookup is the one the book's contents hold under the id. */
    lemma FoundOrder(id: int)
      requires Valid()
      ensures id in idMap <==> Lookup(Contents(), id).Some?
      ensures id in idMap ==>
                var order := idMap[id];
                var side := if order.action == ASK then asks else bids;
                var i := Find(side.orders, id);
                && i < |side.list| && side.list[i] == order && order.Value() == side.orders[i] && order.orderId == id
                && Lookup(Contents(), id) == Some(order.Value()) && order in Repr && Live(order.Value(), order.action)
                && side.Valid() && side.action == order.action && order in side.Repr
    {
      hide NaiveSide.Loose;
      if id in idMap {
        IndexFind(idMap, asks.list, asks.orders, bids.list, bids.orders, id);
        if Has(asks.orders, id) {
          asks.ShownAt(Find(asks.orders, id));
        } else {
          bids.ShownAt(Find(bids.orders, id));
        }
      }
    }

    /** Takes an order out of its bucket; its id stays in the lookup. */
    method Lift(order: RestingOrder)
      requires Valid() && order.orderId in idMap && idMap[order.orderId] == order
      modifies Repr
      ensures MatchReady({order.orderId}) && fresh(Repr - old(Repr)) && order !in Repr
      ensures order.Value() == old(order.Value()) && idMap == old(idMap)
      ensures Contents() == Without(old(Contents()), old(order.Value()))
    {
      hide NaiveSide.Valid, NaiveSide.Loose, IndexOk, BookOk, Lookup, Find, Has;
      ghost var id := order.orderId;
      FoundOrder(id);
      LookupIs(Contents(), id);
      WithoutKeeps(Contents(), id);
      var side := if order.action == ASK then asks else bids;
      ghost var other := if order.action == ASK then bids else asks;
      ghost var i := Find(side.orders, id);
      LiftedIndex(idMap, asks.list, asks.orders, bids.list, bids.orders, order.action, i, id);
      side.RemoveOrder(order, i);
      Repr := {this} + asks.Repr + bids.Repr;
      assert other.Valid();
    }

    /** Puts an order whose id is in the lookup into the bucket of its price. */
    method Rest(order: RestingOrder)
      requires MatchReady({order.orderId}) && order !in Repr && order.orderId in idMap && idMap[order.orderId] == order
      requires Live(order.Value(), order.action)
      requires var opposite := Side(Contents(), Opposite(order.action));
               forall i | 0 <= i < |opposite| :: !Crosses(Opposite(order.action), opposite[i].price, Some(order.price))
      modifies Repr, order
      ensures Valid() && fresh(Repr - old(Repr) - {order})
      ensures Contents() == WithOrder(old(Contents()), old(order.Value()))
    {
      hide NaiveSide.Valid, NaiveSide.Loose, IndexOk, BookOk, Find, Has, Place, Crosses, Live;
      WithOrderKeeps(Contents(), order.Value());
      var side := if order.action == ASK then asks else bids;
      ghost var other := if order.action == ASK then bids else asks;
      ghost var p := Place(side.orders, order.action, order.price);
      RestedIndex(idMap, asks.list, asks.orders, bids.list, bids.orders, order.action, p, order, order.Value());
      LiveAction(order.Value(), order.action);
      NewId(side, order.orderId);
      side.PutOrder(order);
      Repr := {this} + asks.Repr + bids.Repr;
      assert other.Valid();
    }

    lemma NewId(side: NaiveSide, id: int)
      requires Lookup(Contents(), id).None? && (side == asks || side == bids)
      ensures forall i | 0 <= i < |side.orders| :: side.orders[i].orderId != id
    {
      NoneHas(side.orders, id);
    }

    // ----- Commands -----

    method NewOrder(cmd: OrderCommand)
      requires Valid() && cmd !in Repr && cmd.matcherEvent == [] && cmd.command == PLACE_ORDER && RequestOk(cmd.Input())
      modifies Repr, cmd`matcherEvent
      ensures Valid() && fresh(Repr - old(Repr))
      ensures var o := BookSpec.NewOrder(old(Contents()), old(cmd.Input()));
              Contents() == o.book && cmd.matcherEvent == o.events
      ensures B.Placed(old(Contents()), old(cmd.Input()),
                       Outcome(Contents(), SUCCESS, cmd.matcherEvent, cmd.action))
    {
      hide Valid, MatchReady, Match, Budget, Lookup, WithOrder, WithSide, B.Placed, BookOk;
      BookIsOk();
      B.PlaceOutcome(Contents(), cmd.Input());
      CodesOf(Contents(), symbolType, cmd.Input());
      if cmd.orderType == GTC {
        NewOrderPlaceGtc(cmd);
      } else if cmd.orderType == IOC {
        NewOrderMatchIoc(cmd);
      } else if cmd.orderType == FOK_BUDGET {
        NewOrderMatchFokBudget(cmd);
      } else {
        AttachRejectEvent(cmd, cmd.size);
      }
    }

    method AttachRejectEvent(cmd: OrderCommand, rejectedSize: int)
      modifies cmd`matcherEvent
      ensures cmd.matcherEvent == [Reject(cmd.price, rejectedSize, cmd.reserveBidPrice)] + old(cmd.matcherEvent)
    {
      cmd.matcherEvent := [Reject(cmd.price, rejectedSize, cmd.reserveBidPrice)] + cmd.matcherEvent;
    }

    lemma ReadyToMatch()
      requires Valid()
      ensures MatchReady({}) && BookOk(Contents()) && Apart()
    {
      hide NaiveSide.Valid, IndexOk, BookOk;
      assert idMap - {} == idMap;
    }

    lemma MatchedAll()
      requires MatchReady({})
      ensures Valid() && Apart()
    {
      hide NaiveSide.Valid, IndexOk, BookOk;
      assert idMap - {} == idMap;
    }

    /** A new order's id enters the lookup before the order is put into its bucket. */
    method Register(orderId: int, order: RestingOrder)
      requires Valid() && orderId !in idMap
      modifies `idMap
      ensures MatchReady({orderId}) && idMap == old(idMap)[orderId := order]
    {
      hide NaiveSide.Valid, IndexOk, BookOk, Lookup;
      FoundOrder(orderId);
      ghost var idx := idMap;
      idMap := idMap[orderId := order];
      assert idMap - {orderId} == idx;
    }

    method NewOrderPlaceGtc(cmd: OrderCommand)
      requires Valid() && cmd !in Repr && cmd.matcherEvent == [] && cmd.command == PLACE_ORDER && cmd.orderType == GTC
               && RequestOk(cmd.Input())
      modifies Repr, cmd`matcherEvent
      ensures Valid() && fresh(Repr - old(Repr))
      ensures var o := BookSpec.NewOrder(old(Contents()), old(cmd.Input()));
              Contents() == o.book && cmd.matcherEvent == o.events
    {
      hide Valid, MatchReady, Match, Lookup, BookOk, WithOrder, WithSide, NaiveSide.Valid;
      var size := cmd.size;
      var taker := Order(cmd.orderId, cmd.price, size, 0, cmd.reserveBidPrice, cmd.action, cmd.uid, cmd.timestamp);
      ReadyToMatch();
      TakerLeft(Contents(), cmd.action, Some(cmd.price), size, cmd.reserveBidPrice);
      var filledSize := TryMatchInstantly(taker, Some(cmd.price), cmd, {});
      MatchedAll();
      if filledSize == size {
        return;
      }
      var newOrderId := cmd.orderId;
      FoundOrder(newOrderId);
      if newOrderId in idMap {
        AttachRejectEvent(cmd, size - filledSize);
        return;
      }
      var orderRecord :=
          new RestingOrder(Order(newOrderId, cmd.price, size, filledSize, cmd.reserveBidPrice, cmd.action, cmd.uid,
                                 cmd.timestamp));
      Register(newOrderId, orderRecord);
      Rest(orderRecord);
    }

    method NewOrderMatchIoc(cmd: OrderCommand)
      requires Valid() && cmd !in Repr && cmd.matcherEvent == [] && cmd.command == PLACE_ORDER && cmd.orderType == IOC
               && RequestOk(cmd.Input())
      modifies Repr, cmd`matcherEvent
      ensures Valid() && fresh(Repr - old(Repr))
      ensures var o := BookSpec.NewOrder(old(Contents()), old(cmd.Input()));
              Contents() == o.book && cmd.matcherEvent == o.events
    {
      hide Valid, MatchReady, Match, BookOk, WithSide, NaiveSide.Valid;
      ReadyToMatch();
      var taker := Order(cmd.orderId, cmd.price, cmd.size, 0, cmd.reserveBidPrice, cmd.action, cmd.uid, cmd.timestamp);
      var filledSize := TryMatchInstantly(taker, Some(cmd.price), cmd, {});
      MatchedAll();
      var rejectedSize := cmd.size - filledSize;
      if rejectedSize != 0 {
        AttachRejectEvent(cmd, rejectedSize);
      }
    }

    predicate IsBudgetLimitSatisfied(action: OrderAction, calculated: int, limit: int) {
      calculated == limit || ((action == BID) != (calculated > limit))
    }

    method NewOrderMatchFokBudget(cmd: OrderCommand)
      requires Valid() && cmd !in Repr && cmd.matcherEvent == [] && cmd.command == PLACE_ORDER
               && cmd.orderType == FOK_BUDGET && RequestOk(cmd.Input())
      modifies Repr, cmd`matcherEvent
      ensures Valid() && fresh(Repr - old(Repr))
      ensures var o := BookSpec.NewOrder(old(Contents()), old(cmd.Input()));
              Contents() == o.book && cmd.matcherEvent == o.events
    {
      hide Valid, MatchReady, Match, BookOk, WithSide, Budget, NaiveSide.Valid, Live;
      ReadyToMatch();
      SidesOf();
      var size := cmd.size;
      var makers := if cmd.action == ASK then bids else asks;
      var enough, budget := makers.CheckBudgetToFill(size);
      if !enough {
        AttachRejectEvent(cmd, size);
        return;
      }
      if IsBudgetLimitSatisfied(cmd.action, budget, cmd.price) {
        var taker := Order(cmd.orderId, cmd.price, size, 0, cmd.reserveBidPrice, cmd.action, cmd.uid, cmd.timestamp);
        var filledSize := TryMatchInstantly(taker, None, cmd, {});
        MatchedAll();
      } else {
        AttachRejectEvent(cmd, size);
      }
    }

    lemma SidesOf()
      requires Valid()
      ensures asks.Valid() && bids.Valid() && asks.action == ASK && bids.action == BID
    {
      hide NaiveSide.Valid, IndexOk;
    }

    method CancelOrder(cmd: OrderCommand) returns (code: ResultCode)
      requires Valid() && cmd !in Repr
      modifies Repr, cmd`matcherEvent, cmd`action
      ensures Valid() && fresh(Repr - old(Repr))
      ensures var o := BookSpec.CancelOrder(old(Contents()), old(cmd.Input()));
              Contents() == o.book && code == o.code && cmd.action == o.action
                  && cmd.matcherEvent == if code == SUCCESS then o.events else old(cmd.matcherEvent)
      ensures old(cmd.matcherEvent) == [] ==>
                B.Cancels(old(Contents()), old(cmd.Input()), Outcome(Contents(), code, cmd.matcherEvent, cmd.action))
    {
      hide Valid, MatchReady, Lookup, Without, WithSide, Find, NaiveSide.Valid, B.Cancels, BookOk;
      BookIsOk();
      ghost var book, r := Contents(), cmd.Input();
      ghost var o := BookSpec.CancelOrder(book, r);
      assert B.Cancels(book, r, o) && (o.code != SUCCESS ==> o.events == []) by {
        B.CancelIs(book, r);
        CodesOf(book, symbolType, r);
      }
      KnownOrder(cmd.orderId);
      if cmd.orderId !in idMap || idMap[cmd.orderId].uid != cmd.uid {
        return MATCHING_UNKNOWN_ORDER_ID;
      }
      var order := idMap[cmd.orderId];
      Withdraw(order);
      cmd.matcherEvent := [Reduce(order.price, order.size - order.filled, order.reserveBidPrice, true)];
      cmd.action := order.action;
      return SUCCESS;
    }

    /** The order with an id, as the index has it. */
    lemma KnownOrder(id: int)
      requires Valid()
      ensures id in idMap <==> Lookup(Contents(), id).Some?
      ensures id in idMap ==>
                var order := idMap[id];
                Lookup(Contents(), id) == Some(order.Value()) && order.orderId == id && order in Repr
                    && 0 <= order.filled < order.size
    {
      hide NaiveSide.Valid, IndexOk, BookOk, Lookup, Find, Has;
      FoundOrder(id);
    }

    /** Takes an order out of the book and forgets its id. */
    method Withdraw(order: RestingOrder)
      requires Valid() && order.orderId in idMap && idMap[order.orderId] == order
      modifies Repr
      ensures Valid() && fresh(Repr - old(Repr)) && order.Value() == old(order.Value())
      ensures Contents() == Without(old(Contents()), old(order.Value()))
    {
      hide Valid, MatchReady, Lookup, Without, NaiveSide.Valid;
      Lift(order);
      Forget(order.orderId);
    }

    /** Drops the id of an order that is in no bucket any more. */
    method Forget(id: int)
      requires MatchReady({id})
      modifies `idMap
      ensures Valid()
    {
      hide NaiveSide.Valid, IndexOk, BookOk, Lookup;
      idMap := idMap - {id};
    }

    method ReduceOrder(cmd: OrderCommand) returns (code: ResultCode)
      requires Valid() && cmd !in Repr
      modifies Repr, cmd`matcherEvent, cmd`action
      ensures Valid() && fresh(Repr - old(Repr))
      ensures var o := BookSpec.ReduceOrder(old(Contents()), old(cmd.Input()));
              Contents() == o.book && code == o.code && cmd.action == o.action
                  && cmd.matcherEvent == if code == SUCCESS then o.events else old(cmd.matcherEvent)
      ensures old(cmd.matcherEvent) == [] ==>
                B.Reduces(old(Contents()), old(cmd.Input()), Outcome(Contents(), code, cmd.matcherEvent, cmd.action))
    {
      hide Valid, MatchReady, Lookup, Without, WithSide, Find, NaiveSide.Valid, B.Reduces, BookOk;
      BookIsOk();
      ghost var book, r := Contents(), cmd.Input();
      ghost var o := BookSpec.ReduceOrder(book, r);
      assert B.Reduces(book, r, o) && (o.code != SUCCESS ==> o.events == []) by {
        B.ReduceIs(book, r);
        CodesOf(book, symbolType, r);
      }
      if cmd.size <= 0 {
        return MATCHING_REDUCE_FAILED_WRONG_SIZE;
      }
      KnownOrder(cmd.orderId);
      if cmd.orderId !in idMap || idMap[cmd.orderId].uid != cmd.uid {
        return MATCHING_UNKNOWN_ORDER_ID;
      }
      var order := idMap[cmd.orderId];
      var remainingSize := order.size - order.filled;
      var reduceBy := Min(remainingSize, cmd.size);
      var canRemove := reduceBy == remainingSize;
      if canRemove {
        Withdraw(order);
      } else {
        Shorten(order, reduceBy);
      }
      cmd.matcherEvent := [Reduce(order.price, reduceBy, order.reserveBidPrice, canRemove)];
      cmd.action := order.action;
      return SUCCESS;
    }

    method Shorten(order: RestingOrder, reduceBy: int)
      requires Valid() && order.orderId in idMap && idMap[order.orderId] == order
               && 0 < reduceBy < order.size - order.filled
      modifies Repr
      ensures Valid() && fresh(Repr - old(Repr)) && unchanged(`Repr)
      ensures order.price == old(order.price)
      ensures var o := old(order.Value());
              var i := Find(Side(old(Contents()), o.action), o.orderId);
              && i < |Side(old(Contents()), o.action)|
              && Contents() == WithSide(old(Contents()), o.action,
                                        Side(old(Contents()), o.action)[i := o.(size := o.size - reduceBy)])
    {
      hide NaiveSide.Valid, NaiveSide.Loose, IndexOk, BookOk, Lookup, Find, Has;
      FoundOrder(order.orderId);
      var side := if order.action == ASK then asks else bids;
      ghost var other := if order.action == ASK then bids else asks;
      ghost var i, o := Find(side.orders, order.orderId), order.Value();
      ReduceKeeps(Contents(), o, reduceBy);
      ShortenedIndex(idMap, asks.list, asks.orders, bids.list, bids.orders, order.action, i,
                     o.(size := o.size - reduceBy));
      side.ReduceInPlace(order, reduceBy, i);
      assert other.Valid();
    }

    /** As specified, except that a refused move has already written the order's side into the command. */
    method MoveOrder(cmd: OrderCommand) returns (code: ResultCode)
      requires Valid() && cmd !in Repr && cmd.matcherEvent == [] && cmd.command == MOVE_ORDER && RequestOk(cmd.Input())
      modifies Repr, cmd`matcherEvent, cmd`action
      ensures Valid() && fresh(Repr - old(Repr))
      ensures var o := BookSpec.MoveOrder(old(Contents()), symbolType, old(cmd.Input()));
              Contents() == o.book && code == o.code && cmd.matcherEvent == o.events
              && cmd.action == if code == MATCHING_MOVE_FAILED_PRICE_OVER_RISK_LIMIT then BID else o.action
      ensures B.Moves(old(Contents()), symbolType, old(cmd.Input()),
                      Outcome(Contents(), code, cmd.matcherEvent,
                              if code == MATCHING_MOVE_FAILED_PRICE_OVER_RISK_LIMIT then old(cmd.action)
                              else cmd.action))
    {
      hide Valid, MatchReady, Lookup, Without, NaiveSide.Valid, Match, WithSide, WithOrder, BookOk, B.Moves;
      BookIsOk();
      ghost var book, r := Contents(), cmd.Input();
      ghost var o := BookSpec.MoveOrder(book, symbolType, r);
      assert B.Moves(book, symbolType, r, o) by { B.MoveIs(book, symbolType, r); }
      assert o.code == MATCHING_MOVE_FAILED_PRICE_OVER_RISK_LIMIT ==> o.action == r.action by {
        RefusedMove(book, symbolType, r);
      }
      KnownOrder(cmd.orderId);
      if cmd.orderId !in idMap || idMap[cmd.orderId].uid != cmd.uid {
        return MATCHING_UNKNOWN_ORDER_ID;
      }
      var order := idMap[cmd.orderId];
      cmd.action := order.action;
      if symbolType == CURRENCY_EXCHANGE_PAIR && order.action == BID && cmd.price > order.reserveBidPrice {
        return MATCHING_MOVE_FAILED_PRICE_OVER_RISK_LIMIT;
      }
      MoveTo(order, cmd);
      return SUCCESS;
    }

    /** Takes an order out and matches it at its new price. */
    method MoveTo(order: RestingOrder, cmd: OrderCommand)
      requires Valid() && cmd !in Repr && cmd.matcherEvent == [] && RequestOk(cmd.Input())
      requires order.orderId in idMap && idMap[order.orderId] == order && order.orderId == cmd.orderId
      modifies Repr, cmd`matcherEvent
      ensures Valid() && fresh(Repr - old(Repr))
      ensures var x := old(order.Value());
              var lifted := Without(old(Contents()), x);
              var taken := Match(Side(lifted, Opposite(x.action)), Opposite(x.action), Some(cmd.price), x.Remaining(),
                                 x.reserveBidPrice);
              var after := WithSide(lifted, Opposite(x.action), taken.rest);
              && cmd.matcherEvent == taken.events
              && Contents() == if taken.left == 0 then after
                               else WithOrder(after, x.(price := cmd.price, filled := x.size - taken.left))
    {
      hide Valid, MatchReady, Lookup, Without, NaiveSide.Valid, Match, WithSide, WithOrder, BookOk;
      KnownOrder(cmd.orderId);
      Lift(order);
      order.price := cmd.price;
      MatchMoved(order, cmd);
    }

    /** Matches an order that has been taken out at its new price, and rests what is left of it. */
    method MatchMoved(order: RestingOrder, cmd: OrderCommand)
      requires MatchReady({order.orderId}) && order !in Repr && cmd !in Repr && cmd.matcherEvent == []
      requires order.orderId in idMap && idMap[order.orderId] == order && Live(order.Value(), order.action)
      modifies Repr, order, cmd`matcherEvent
      ensures Valid() && fresh(Repr - old(Repr) - {order})
      ensures var o, lifted := old(order.Value()), old(Contents());
              var taken := Match(Side(lifted, Opposite(o.action)), Opposite(o.action), Some(o.price), o.Remaining(),
                                 o.reserveBidPrice);
              var after := WithSide(lifted, Opposite(o.action), taken.rest);
              && cmd.matcherEvent == taken.events
              && Contents() == if taken.left == 0 then after else WithOrder(after, o.(filled := o.size - taken.left))
    {
      hide Valid, MatchReady, Lookup, Without, NaiveSide.Valid, Match, WithSide, WithOrder, BookOk;
      ReadyFacts({order.orderId});
      TakerLeft(Contents(), order.action, Some(order.price), order.size - order.filled, order.reserveBidPrice);
      var filled := TryMatchInstantly(order.Value(), Some(order.price), cmd, {order.orderId});
      if filled == order.size {
        Forget(order.orderId);
        return;
      }
      order.filled := filled;
      Rest(order);
    }

    lemma ReadyFacts(moving: set<int>)
      requires MatchReady(moving)
      ensures BookOk(Contents()) && Apart()
    {
    }

    lemma BookIsOk()
      requires Valid()
      ensures BookOk(Contents())
    {
    }

    /** IOrderBook::ProcessCommand on this book does what the specification's step does. */
    method ProcessCommand(cmd: OrderCommand) returns (code: ResultCode)
      requires Valid() && cmd !in Repr && cmd.matcherEvent == [] && RequestOk(cmd.Input())
      modifies Repr, cmd`matcherEvent, cmd`action, cmd`marketData
      ensures Valid() && fresh(Repr - old(Repr))
      ensures var o := Step(old(Contents()), symbolType, old(cmd.Input()));
              Contents() == o.book && code == o.code && cmd.matcherEvent == o.events
              && cmd.action == if code == MATCHING_MOVE_FAILED_PRICE_OVER_RISK_LIMIT && cmd.command == MOVE_ORDER
                 then BID else o.action
      ensures B.Does(old(Contents()), symbolType, old(cmd.Input()),
                     Outcome(Contents(), code, cmd.matcherEvent,
                             if code == MATCHING_MOVE_FAILED_PRICE_OVER_RISK_LIMIT && cmd.command == MOVE_ORDER
                             then old(cmd.action) else cmd.action))
      ensures if cmd.command == ORDER_BOOK_REQUEST
              then cmd.marketData.Some? && MarketDataOf(Contents(), DepthOf(cmd.size), cmd.marketData.value)
              else cmd.marketData == old(cmd.marketData)
    {
      hide Valid, MarketDataOf, DepthOf, BookSpec.NewOrder, BookSpec.CancelOrder, BookSpec.ReduceOrder,
           BookSpec.MoveOrder, B.Does, BookOk;
      BookIsOk();
      B.StepDoes(Contents(), symbolType, cmd.Input());
      CodesOf(Contents(), symbolType, cmd.Input());
      RefusedMove(Contents(), symbolType, cmd.Input());
      if cmd.command == MOVE_ORDER {
        code := MoveOrder(cmd);
      } else if cmd.command == CANCEL_ORDER {
        code := CancelOrder(cmd);
      } else if cmd.command == REDUCE_ORDER {
        code := ReduceOrder(cmd);
      } else if cmd.command == PLACE_ORDER {
        if cmd.resultCode == VALID_FOR_MATCHING_ENGINE {
          NewOrder(cmd);
          code := SUCCESS;
        } else {
          code := cmd.resultCode;
        }
      } else if cmd.command == ORDER_BOOK_REQUEST {
        var data := GetL2MarketDataSnapshot(DepthOf(cmd.size));
        cmd.marketData := Some(data);
        code := SUCCESS;
      } else {
        code := MATCHING_UNSUPPORTED_COMMAND;
      }
    }

    /** Market data: the best `size` levels of each side, aggregated by price. */
    method GetL2MarketDataSnapshot(size: nat) returns (data: MarketData)
      requires Valid()
      ensures MarketDataOf(Contents(), size, data)
    {
      hide NaiveSide.Valid, First, Levels, IndexOk, BookOk;
      SidesOf();
      var asksSize := asks.TotalBuckets(size);
      var bidsSize := bids.TotalBuckets(size);
      var askRows := asks.FillLevels(asksSize);
      var bidRows := bids.FillLevels(bidsSize);
      FirstOfAll(Levels(asks.orders), askRows, asksSize, size, false);
      FirstOfAll(Levels(bids.orders), bidRows, bidsSize, size, true);
      data := MarketData(askRows, bidRows);
    }
  }
}
