/** An index from order ids to order objects, kept beside the two sides of a book. */
module BookIndex {
  import opened OrderTypes
  import opened BookSpec

  /** The index finds exactly the listed orders. */
  ghost predicate Indexed<T>(idx: map<int, T>, l: seq<T>, orders: seq<Order>) {
    |l| == |orders| && forall i | 0 <= i < |orders| :: orders[i].orderId in idx && idx[orders[i].orderId] == l[i]
  }

  ghost predicate IndexOk<T>(idx: map<int, T>, l: seq<T>, orders: seq<Order>, l2: seq<T>, orders2: seq<Order>) {
    && Indexed(idx, l, orders) && Indexed(idx, l2, orders2)
    && forall id: int <- idx :: Has(orders, id) || Has(orders2, id)
  }

  lemma IndexSwap<T>(idx: map<int, T>, l: seq<T>, orders: seq<Order>, l2: seq<T>, orders2: seq<Order>)
    requires IndexOk(idx, l, orders, l2, orders2)
    ensures IndexOk(idx, l2, orders2, l, orders)
  {
  }

  lemma {:induction false} HasAt(orders: seq<Order>, i: nat)
    requires i < |orders|
    ensures Has(orders, orders[i].orderId)
  {
    assert orders[i].orderId == orders[i].orderId;
  }

  /** Removing position i of one side removes its id from the index. */
  lemma IndexRemoved<T>(idx: map<int, T>, l: seq<T>, orders: seq<Order>, l2: seq<T>, orders2: seq<Order>, i: nat)
    requires IndexOk(idx, l, orders, l2, orders2) && i < |orders| && DistinctIds(orders) && NoSharedIds(orders, orders2)
    ensures IndexOk(idx - {orders[i].orderId}, RemoveAt(l, i), RemoveAt(orders, i), l2, orders2)
  {
    var id := orders[i].orderId;
    var s' := RemoveAt(orders, i);
    forall d: int | d in idx && d != id ensures Has(s', d) || Has(orders2, d) {
      if Has(orders, d) {
        var j := Find(orders, d);
        HasAt(s', if j < i then j else j - 1);
      }
    }
  }

  lemma IndexInserted<T>(idx: map<int, T>, l: seq<T>, orders: seq<Order>, l2: seq<T>, orders2: seq<Order>, p: nat, x: T,
                         o: Order)
    requires IndexOk(idx, l, orders, l2, orders2) && p <= |orders| && !Has(orders, o.orderId)
             && !Has(orders2, o.orderId)
    ensures IndexOk(idx[o.orderId := x], InsertAt(l, p, x), InsertAt(orders, p, o), l2, orders2)
  {
    hide Has;
    var s' := InsertAt(orders, p, o);
    NoneHas(orders, o.orderId);
    NoneHas(orders2, o.orderId);
    assert s'[p] == o;
    HasAt(s', p);
    forall d: int | d in idx && Has(orders, d) ensures Has(s', d) {
      HasIs(orders, d);
      var j :| 0 <= j < |orders| && orders[j].orderId == d;
      assert s'[if j < p then j else j + 1].orderId == d;
      HasAt(s', if j < p then j else j + 1);
    }
  }

  lemma HasIs(orders: seq<Order>, id: int)
    requires Has(orders, id)
    ensures exists j :: 0 <= j < |orders| && orders[j].orderId == id
  {
    assert orders[Find(orders, id)].orderId == id;
  }

  lemma NoneHas(orders: seq<Order>, id: int)
    ensures !Has(orders, id) <==> forall i | 0 <= i < |orders| :: orders[i].orderId != id
  {
  }

  /** Orders that keep their ids keep the index. */
  lemma IndexReplaced<T>(idx: map<int, T>, l: seq<T>, orders: seq<Order>, l2: seq<T>, orders2: seq<Order>, i: nat,
                         o: Order)
    requires IndexOk(idx, l, orders, l2, orders2) && i < |orders| && o.orderId == orders[i].orderId
    ensures IndexOk(idx, l, orders[i := o], l2, orders2)
  {
    var s': seq<Order> := orders[i := o];
    assert forall k | 0 <= k < |orders| :: s'[k].orderId == orders[k].orderId;
    forall d: int | d in idx ensures Has(s', d) || Has(orders2, d) {
      if Has(orders, d) {
        assert s'[Find(orders, d)].orderId == d;
        HasAt(s', Find(orders, d));
      }
    }
  }

  /** A completed first maker leaves the list and the index. */
  lemma FirstDropped<T>(idx: map<int, T>, moving: set<int>, l: seq<T>, s: seq<Order>, l2: seq<T>, s2: seq<Order>)
    requires IndexOk(idx - moving, l, s, l2, s2) && GoingOrders(s, s2, moving) && s != [] && l != []
    ensures IndexOk((idx - {s[0].orderId}) - moving, l[1..], s[1..], l2, s2) && GoingOrders(s[1..], s2, moving)
    ensures s[0].orderId !in moving
  {
    hide IndexOk;
    GoingFacts(s, s2, moving);
    IndexRemoved(idx - moving, l, s, l2, s2, 0);
    GoingTail(s, s2, moving);
    RemoveFirst(l, s);
    assert (idx - {s[0].orderId}) - moving == (idx - moving) - {s[0].orderId};
  }

  lemma FirstRefilled<T>(idx: map<int, T>, moving: set<int>, l: seq<T>, s: seq<Order>, l2: seq<T>, s2: seq<Order>,
                         o: Order)
    requires IndexOk(idx - moving, l, s, l2, s2) && GoingOrders(s, s2, moving) && s != [] && o.orderId == s[0].orderId
    ensures IndexOk(idx - moving, l, s[0 := o], l2, s2) && GoingOrders(s[0 := o], s2, moving)
  {
    hide IndexOk;
    GoingReplaced(s, s2, moving, o);
    IndexReplaced(idx - moving, l, s, l2, s2, 0, o);
  }

  /** The index without an id once the order is out of its side. */
  lemma LiftedIndex<T>(idx: map<int, T>, la: seq<T>, oa: seq<Order>, lb: seq<T>, ob: seq<Order>, action: OrderAction,
                       i: nat, id: int)
    requires IndexOk(idx, la, oa, lb, ob) && BookOk(Book(oa, ob)) && i < |Side(Book(oa, ob), action)|
             && Side(Book(oa, ob), action)[i].orderId == id
    ensures |la| == |oa| && |lb| == |ob|
    ensures action == ASK ==> IndexOk(idx - {id}, RemoveAt(la, i), RemoveAt(oa, i), lb, ob)
    ensures action == BID ==> IndexOk(idx - {id}, la, oa, RemoveAt(lb, i), RemoveAt(ob, i))
  {
    if action == ASK {
      IndexRemoved(idx, la, oa, lb, ob, i);
    } else {
      IndexSwap(idx, la, oa, lb, ob);
      IndexRemoved(idx, lb, ob, la, oa, i);
      IndexSwap(idx - {id}, RemoveAt(lb, i), RemoveAt(ob, i), la, oa);
    }
  }

  lemma RestedIndex<T>(idx: map<int, T>, la: seq<T>, oa: seq<Order>, lb: seq<T>, ob: seq<Order>, action: OrderAction,
                       p: nat, x: T, o: Order)
    requires IndexOk(idx - {o.orderId}, la, oa, lb, ob) && p <= |Side(Book(oa, ob), action)| && o.orderId in idx
             && idx[o.orderId] == x
    requires Lookup(Book(oa, ob), o.orderId).None?
    ensures |la| == |oa| && |lb| == |ob|
    ensures action == ASK ==> IndexOk(idx, InsertAt(la, p, x), InsertAt(oa, p, o), lb, ob)
    ensures action == BID ==> IndexOk(idx, la, oa, InsertAt(lb, p, x), InsertAt(ob, p, o))
  {
    var idx0 := idx - {o.orderId};
    assert idx == idx0[o.orderId := x];
    if action == ASK {
      IndexInserted(idx0, la, oa, lb, ob, p, x, o);
    } else {
      IndexSwap(idx0, la, oa, lb, ob);
      IndexInserted(idx0, lb, ob, la, oa, p, x, o);
      IndexSwap(idx, InsertAt(lb, p, x), InsertAt(ob, p, o), la, oa);
    }
  }

  lemma ShortenedIndex<T>(idx: map<int, T>, la: seq<T>, oa: seq<Order>, lb: seq<T>, ob: seq<Order>, action: OrderAction,
                          i: nat, o: Order)
    requires IndexOk(idx, la, oa, lb, ob) && i < |Side(Book(oa, ob), action)|
             && Side(Book(oa, ob), action)[i].orderId == o.orderId
    ensures action == ASK ==> IndexOk(idx, la, oa[i := o], lb, ob)
    ensures action == BID ==> IndexOk(idx, la, oa, lb, ob[i := o])
  {
    if action == ASK {
      IndexReplaced(idx, la, oa, lb, ob, i, o);
    } else {
      IndexSwap(idx, la, oa, lb, ob);
      IndexReplaced(idx, lb, ob, la, oa, i, o);
      IndexSwap(idx, lb, ob[i := o], la, oa);
    }
  }

  /** An indexed id is that of exactly one listed order. */
  lemma IndexFind<T>(idx: map<int, T>, l: seq<T>, orders: seq<Order>, l2: seq<T>, orders2: seq<Order>, id: int)
    requires IndexOk(idx, l, orders, l2, orders2) && id in idx
    ensures if Has(orders, id) then idx[id] == l[Find(orders, id)]
            else Has(orders2, id) && idx[id] == l2[Find(orders2, id)]
  {
  }

  /** The makers' ids are distinct from each other, from the other side's and from an order on the move. */
  ghost predicate GoingOrders(makers: seq<Order>, others: seq<Order>, moving: set<int>) {
    DistinctIds(makers) && NoSharedIds(makers, others) && forall i | 0 <= i < |makers| :: makers[i].orderId !in moving
  }

  lemma GoingFacts(makers: seq<Order>, others: seq<Order>, moving: set<int>)
    requires GoingOrders(makers, others, moving)
    ensures DistinctIds(makers) && NoSharedIds(makers, others) && (makers != [] ==> makers[0].orderId !in moving)
  {
  }

  lemma GoingTail(makers: seq<Order>, others: seq<Order>, moving: set<int>)
    requires GoingOrders(makers, others, moving) && makers != []
    ensures GoingOrders(makers[1..], others, moving)
  {
  }

  lemma GoingReplaced(makers: seq<Order>, others: seq<Order>, moving: set<int>, o: Order)
    requires GoingOrders(makers, others, moving) && makers != [] && o.orderId == makers[0].orderId
    ensures GoingOrders(makers[0 := o], others, moving)
  {
  }

  lemma RemoveFirst<T>(l: seq<T>, s: seq<Order>)
    requires l != [] && s != []
    ensures RemoveAt(l, 0) == l[1..] && RemoveAt(s, 0) == s[1..]
  {
  }
}
