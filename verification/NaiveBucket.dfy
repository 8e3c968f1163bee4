/** The reference book's price level: a first-in first-out list with a lookup by order id. */
module NaiveBucket {
  import opened Wrappers
  import opened OrderTypes
  import opened BookSpec
  import opened BookFacts

  class RestingOrder {
    const orderId: int
    const reserveBidPrice: int
    const action: OrderAction
    const uid: int
    const timestamp: int
    var price: int
    var size: int
    var filled: int

    constructor (o: Order)
      ensures Value() == o
    {
      orderId, price, size, filled, reserveBidPrice := o.orderId, o.price, o.size, o.filled, o.reserveBidPrice;
      action, uid, timestamp := o.action, o.uid, o.timestamp;
    }

    function Value(): Order
      reads `price, `size, `filled
    {
      Order(orderId, price, size, filled, reserveBidPrice, action, uid, timestamp)
    }
  }

  /** The list's objects hold these orders. */
  ghost predicate Shows(l: seq<RestingOrder>, orders: seq<Order>)
    reads l`price, l`size, l`filled
  {
    |l| == |orders| && forall i | 0 <= i < |l| :: l[i].Value() == orders[i]
  }

  ghost predicate Unique(l: seq<RestingOrder>) {
    forall i, j | 0 <= i < j < |l| :: l[i] != l[j]
  }

  /** The lookup finds exactly the listed orders. */
  ghost predicate Mapped(m: map<int, RestingOrder>, l: seq<RestingOrder>, orders: seq<Order>) {
    && |l| == |orders| && (forall i | 0 <= i < |orders| :: orders[i].orderId in m && m[orders[i].orderId] == l[i])
    && forall id: int <- m :: Has(orders, id)
  }

  lemma UniqueFrom(l: seq<RestingOrder>, k: nat)
    requires Unique(l) && k <= |l|
    ensures Unique(l[k..])
  {
  }

  lemma MappedFirst(m: map<int, RestingOrder>, l: seq<RestingOrder>, orders: seq<Order>)
    requires Mapped(m, l, orders) && orders != [] && DistinctIds(orders)
    ensures Mapped(m - {orders[0].orderId}, l[1..], orders[1..])
  {
    forall id: int | id in m && id != orders[0].orderId ensures Has(orders[1..], id) {
      assert Find(orders, id) == 1 + Find(orders[1..], id);
    }
  }

  lemma MappedReplaced(m: map<int, RestingOrder>, l: seq<RestingOrder>, orders: seq<Order>, i: nat, o: Order)
    requires Mapped(m, l, orders) && i < |orders| && o.orderId == orders[i].orderId
    ensures Mapped(m, l, orders[i := o])
  {
    var s': seq<Order> := orders[i := o];
    assert forall k | 0 <= k < |orders| :: s'[k].orderId == orders[k].orderId;
    forall id: int | id in m ensures Has(s', id) {
      HasFrom(s', id, Find(orders, id));
    }
  }

  lemma HasFrom(orders: seq<Order>, id: int, i: nat)
    requires i < |orders| && orders[i].orderId == id
    ensures Has(orders, id)
  {
  }

  lemma MappedRemoved(m: map<int, RestingOrder>, l: seq<RestingOrder>, orders: seq<Order>, i: nat)
    requires Mapped(m, l, orders) && i < |orders| && DistinctIds(orders)
    ensures Mapped(m - {orders[i].orderId}, RemoveAt(l, i), RemoveAt(orders, i))
  {
    var s' := RemoveAt(orders, i);
    forall id: int | id in m && id != orders[i].orderId ensures Has(s', id) {
      var j := Find(orders, id);
      HasFrom(s', id, if j < i then j else j - 1);
    }
  }

  lemma MappedAppended(m: map<int, RestingOrder>, l: seq<RestingOrder>, orders: seq<Order>, x: RestingOrder, o: Order)
    requires Mapped(m, l, orders) && forall i | 0 <= i < |orders| :: orders[i].orderId != o.orderId
    ensures Mapped(m[o.orderId := x], l + [x], orders + [o])
  {
    var s' := orders + [o];
    assert s'[|orders|] == o;
    HasFrom(s', o.orderId, |orders|);
    forall id: int | id in m ensures Has(s', id) {
      assert s'[Find(orders, id)] == orders[Find(orders, id)];
      HasFrom(s', id, Find(orders, id));
    }
  }

  lemma {:induction false} VolumeAppended(a: seq<Order>, b: seq<Order>)
    ensures Volume(a + b) == Volume(a) + Volume(b)
  {
    if a == [] {
      assert a + b == b;
    } else {
      VolumeAppended(a[1..], b);
      assert (a + b)[1..] == a[1..] + b;
    }
  }

  lemma VolumeWithout(orders: seq<Order>, i: nat)
    requires i < |orders|
    ensures Volume(RemoveAt(orders, i)) == Volume(orders) - orders[i].Remaining()
  {
    VolumeAppended(orders[..i], orders[i + 1..]);
    VolumeAppended(orders[..i], orders[i..]);
    assert orders == orders[..i] + orders[i..] && orders[i..][1..] == orders[i + 1..];
  }

  lemma VolumeReplacedAt(orders: seq<Order>, i: nat, o: Order)
    requires i < |orders|
    ensures Volume(orders[i := o]) == Volume(orders) - orders[i].Remaining() + o.Remaining()
  {
    VolumeWithout(orders, i);
    VolumeWithout(orders[i := o], i);
    assert RemoveAt(orders, i) == RemoveAt(orders[i := o], i);
  }

  class OrdersBucket {
    const price: int
    var totalVolume: int
    var orderList: seq<RestingOrder>
    var orderMap: map<int, RestingOrder>
    ghost var orders: seq<Order>

    constructor (price: int)
      ensures Valid() && this.price == price && orders == [] && orderList == []
    {
      this.price, totalVolume, orderList, orderMap, orders := price, 0, [], map[], [];
    }

    /** The running total is the volume of the listed orders, and the lookup is that of the list. */
    ghost predicate Valid()
      reads this, orderList`price, orderList`size, orderList`filled
    {
      && Shows(orderList, orders) && Unique(orderList) && DistinctIds(orders)
      && Mapped(orderMap, orderList, orders) && totalVolume == Volume(orders)
    }

    method Put(order: RestingOrder)
      requires Valid() && order !in orderList && forall i | 0 <= i < |orders| :: orders[i].orderId != order.orderId
      modifies this
      ensures Valid() && orders == old(orders) + [order.Value()] && orderList == old(orderList) + [order]
    {
      MappedAppended(orderMap, orderList, orders, order, order.Value());
      VolumeAppended(orders, [order.Value()]);
      orderList := orderList + [order];
      orderMap := orderMap[order.orderId := order];
      totalVolume := totalVolume + (order.size - order.filled);
      orders := orders + [order.Value()];
    }

    /** Removes an order by id if it belongs to the user. */
    method Remove(orderId: int, uid: int) returns (order: RestingOrder?)
      requires Valid()
      modifies this
      ensures Valid()
      ensures var i := Find(old(orders), orderId);
              if i < |old(orders)| && old(orders)[i].uid == uid then
                order == old(orderList)[i] && orders == RemoveAt(old(orders), i)
                    && orderList == RemoveAt(old(orderList), i)
              else order == null && orders == old(orders) && orderList == old(orderList)
    {
      hide Valid, Mapped, Position, Find, RemoveAt;
      LookupListed(orderId);
      if orderId !in orderMap {
        return null;
      }
      var found := orderMap[orderId];
      if found.uid != uid {
        return null;
      }
      ghost var i := Find(orders, orderId);
      PositionIs(orderList, found, i);
      Unlisted(i);
      totalVolume := totalVolume - (found.size - found.filled);
      orderList := RemoveAt(orderList, Position(orderList, found));
      order := found;
      orderMap := orderMap - {orderId};
      orders := RemoveAt(orders, i);
      IsValid();
    }

    lemma IsValid()
      requires Shows(orderList, orders) && Unique(orderList) && DistinctIds(orders)
      requires Mapped(orderMap, orderList, orders) && totalVolume == Volume(orders)
      ensures Valid()
    {
    }

    /** The parts of the invariant for the bucket without the order at position i. */
    lemma Unlisted(i: nat)
      requires Valid() && i < |orders|
      ensures |orders| == |orderList| && Shows(RemoveAt(orderList, i), RemoveAt(orders, i))
              && Unique(RemoveAt(orderList, i)) && DistinctIds(RemoveAt(orders, i))
      ensures Mapped(orderMap - {orders[i].orderId}, RemoveAt(orderList, i), RemoveAt(orders, i))
      ensures totalVolume - orders[i].Remaining() == Volume(RemoveAt(orders, i))
    {
      hide Mapped, Volume;
      MappedRemoved(orderMap, orderList, orders, i);
      VolumeWithout(orders, i);
    }

    lemma LookupListed(orderId: int)
      requires Valid()
      ensures orderId in orderMap <==> Has(orders, orderId)
      ensures |orders| == |orderList| && Unique(orderList)
      ensures orderId in orderMap ==>
                orderMap[orderId] == orderList[Find(orders, orderId)]
                    && orderMap[orderId].Value() == orders[Find(orders, orderId)]
    {
    }

    /** Trades with the eldest order, dropping it once complete. */
    method MatchFirst(volumeToCollect: int, takerReserve: int, ghost makerSide: OrderAction) returns (e: Event)
      requires Valid() && 0 < volumeToCollect && orderList != []
               && forall i | 0 <= i < |orders| :: Live(orders[i], makerSide)
      modifies this, orderList`filled
      ensures Valid() && old(orders) != []
      ensures var o := old(orders)[0];
              var v := Min(volumeToCollect, o.Remaining());
              && e == TradeEvent(o, makerSide, volumeToCollect, takerReserve) && e.Trade? && e.size == v
              && e.makerId == o.orderId && (e.makerCompleted <==> v == o.Remaining())
              && (if v == o.Remaining() then orders == old(orders)[1..] && orderList == old(orderList)[1..]
                  else orders == old(orders)[0 := o.(filled := o.filled + v)] && orderList == old(orderList))
    {
      hide Mapped, DistinctIds;
      var order := orderList[0];
      ghost var o, s, l, m := orders[0], orders, orderList, orderMap;
      var v := Min(volumeToCollect, order.size - order.filled);
      ghost var o' := o.(filled := o.filled + v);
      VolumeReplacedAt(s, 0, o');
      MappedFirst(m, l, s);
      MappedReplaced(m, l, s, 0, o');
      DistinctFrom(s, o');
      order.filled := order.filled + v;
      totalVolume := totalVolume - v;
      var fullMatch := order.size == order.filled;
      var bidderHoldPrice := if order.action == ASK then takerReserve else order.reserveBidPrice;
      e := Trade(order.orderId, order.uid, fullMatch, volumeToCollect == v, order.price, v, bidderHoldPrice);
      if fullMatch {
        orderMap := orderMap - {order.orderId};
        orderList := orderList[1..];
        orders := s[1..];
      } else {
        orders := s[0 := o'];
      }
    }

    /** Matches from the eldest order on; returns the trades, the volume and the ids of completed orders. */
    method Match(volumeToCollect: int, takerReserve: int, ghost makerSide: OrderAction)
      returns (events: seq<Event>, volume: int, ordersToRemove: seq<int>)
      requires Valid() && 0 <= volumeToCollect && forall i | 0 <= i < |orders| :: Live(orders[i], makerSide)
      modifies this, orderList`filled
      ensures Valid()
      ensures var m := BookSpec.Match(old(orders), makerSide, None, volumeToCollect, takerReserve);
              orders == m.rest && events == m.events && volume == volumeToCollect - m.left
      ensures |orders| <= |old(orders)| && orderList == old(orderList)[|old(orders)| - |orders|..]
      ensures ordersToRemove == Ids(old(orders)[..|old(orders)| - |orders|])
    {
      hide Valid, BookSpec.Match, Mapped, Ids;
      var need := volumeToCollect;
      ghost var s0, l0, k := orders, orderList, 0;
      events, volume, ordersToRemove := [], 0, [];
      SameLength();
      NoIds(s0[..0]);
      while orderList != [] && 0 < need
        invariant Valid() && 0 <= need && volume == volumeToCollect - need
        invariant 0 <= k <= |s0| == |l0| && |orders| == |s0| - k && orderList == l0[k..]
        invariant forall i | 0 <= i < |orders| :: Live(orders[i], makerSide) && orders[i].orderId == s0[k + i].orderId
        invariant BookSpec.Match(s0, makerSide, None, volumeToCollect, takerReserve)
               == Prepended(events, BookSpec.Match(orders, makerSide, None, need, takerReserve))
        invariant ordersToRemove == Ids(s0[..k])
        decreases need
      {
        ghost var s, ev := orders, events;
        assert orderList[0] in l0;
        SameLength();
        var e := MatchFirst(need, takerReserve, makerSide);
        TradeStep(s, makerSide, None, need, takerReserve, ev, orders, e);
        events := events + [e];
        volume := volume + e.size;
        need := need - e.size;
        if e.makerCompleted {
          ordersToRemove := ordersToRemove + [e.makerId];
          IdsAppended(s0, k);
          k := k + 1;
        }
      }
      SameLength();
      MatchStep(orders, makerSide, None, need, takerReserve);
      assert events + [] == events;
    }

    lemma SameLength()
      requires Valid()
      ensures |orders| == |orderList|
    {
    }

    /** Lowers the level's total after one of its orders was reduced in place. */
    method ReduceSize(reduceSize: int)
      modifies `totalVolume
      ensures totalVolume == old(totalVolume) - reduceSize
    {
      totalVolume := totalVolume - reduceSize;
    }
  }

  lemma DistinctFrom(orders: seq<Order>, o: Order)
    requires DistinctIds(orders) && orders != [] && o.orderId == orders[0].orderId
    ensures DistinctIds(orders[1..]) && DistinctIds(orders[0 := o])
  {
  }

  lemma NoIds(orders: seq<Order>)
    requires orders == []
    ensures Ids(orders) == []
  {
  }

  lemma {:induction false} IdsAppended(orders: seq<Order>, k: nat)
    requires k < |orders|
    ensures Ids(orders[..k + 1]) == Ids(orders[..k]) + [orders[k].orderId]
  {
    if k > 0 {
      IdsAppended(orders[1..], k - 1);
      assert orders[..k + 1][1..] == orders[1..][..k] && orders[..k][1..] == orders[1..][..k - 1];
    } else {
      assert orders[..1][1..] == [];
    }
  }

  function Ids(orders: seq<Order>): seq<int> {
    if orders == [] then [] else [orders[0].orderId] + Ids(orders[1..])
  }

  function Position<T(==)>(l: seq<T>, x: T): (i: nat)
    ensures i <= |l|
  {
    if l == [] || l[0] == x then 0 else 1 + Position(l[1..], x)
  }

  lemma {:induction false} PositionIs(l: seq<RestingOrder>, x: RestingOrder, i: nat)
    requires Unique(l) && i < |l| && l[i] == x
    ensures Position(l, x) == i
  {
    if i > 0 {
      assert l[0] != l[i];
      UniqueFrom(l, 1);
      PositionIs(l[1..], x, i - 1);
    }
  }
}
