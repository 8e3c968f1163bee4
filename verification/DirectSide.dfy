/** One side of the fast order book: a doubly linked list in priority order, with a price index over it. */
module DirectSides {
  import opened Wrappers
  import opened OrderTypes
  import opened Keys
  import opened ArtOrder
  import opened ArtMap
  import opened BookSpec
  import opened BookFacts
  import opened BookLevels

  class DirectOrder {
    const orderId: int
    const reserveBidPrice: int
    const action: OrderAction
    const uid: int
    const timestamp: int
    var price: int
    var size: int
    var filled: int
    var next: DirectOrder?
    var prev: DirectOrder?
    var bucket: Bucket?

    constructor (o: Order)
      ensures Value() == o && next == null && prev == null && bucket == null
    {
      orderId, price, size, filled, reserveBidPrice := o.orderId, o.price, o.size, o.filled, o.reserveBidPrice;
      action, uid, timestamp, next, prev, bucket := o.action, o.uid, o.timestamp, null, null, null;
    }

    function Value(): Order
      reads `price, `size, `filled
    {
      Order(orderId, price, size, filled, reserveBidPrice, action, uid, timestamp)
    }
  }

  class Bucket {
    const price: int
    var totalVolume: int
    var numOrders: int
    var lastOrder: DirectOrder

    constructor (price: int, order: DirectOrder)
      ensures this.price == price && numOrders == 1 && lastOrder == order && totalVolume == order.size - order.filled
    {
      this.price, numOrders, lastOrder, totalVolume := price, 1, order, order.size - order.filled;
    }
  }

  /** The list's objects hold these orders. */
  ghost predicate Shows(l: seq<DirectOrder>, orders: seq<Order>)
    reads l`price, l`size, l`filled
  {
    |l| == |orders| && forall i | 0 <= i < |l| :: l[i].Value() == orders[i]
  }

  ghost predicate Unique(l: seq<DirectOrder>) {
    forall i, j | 0 <= i < j < |l| :: l[i] != l[j]
  }

  ghost function After(l: seq<DirectOrder>, i: int): DirectOrder? {
    if -1 <= i < |l| - 1 then l[i + 1] else null
  }

  ghost function Before(l: seq<DirectOrder>, i: int): DirectOrder? {
    if 1 <= i <= |l| then l[i - 1] else null
  }

  /** prev leads to the next worse order, next back towards the head. */
  ghost predicate Chained(l: seq<DirectOrder>)
    reads l`next, l`prev
  {
    && (forall i | 0 <= i < |l| :: l[i].prev == After(l, i))
    && (forall i | 1 <= i < |l| :: l[i].next == Before(l, i))
  }

  /** Every order points to the bucket of its price. */
  ghost predicate InBuckets(l: seq<DirectOrder>, orders: seq<Order>, m: map<int, Bucket>)
    reads l`bucket
  {
    |l| == |orders| && forall i | 0 <= i < |l| :: orders[i].price in m && l[i].bucket == m[orders[i].price]
  }

  /** Every bucket counts exactly the orders at its price. */
  ghost predicate Counted(orders: seq<Order>, m: map<int, Bucket>)
    reads m.Values`totalVolume, m.Values`numOrders
  {
    forall p: int <- m ::
      m[p] in m.Values && m[p].price == p && m[p].totalVolume == VolumeAt(orders, p)
          && m[p].numOrders == CountAt(orders, p) && AtPrice(orders, p)
  }

  /** Every bucket ends at the last order of its price. */
  ghost predicate Tailed(l: seq<DirectOrder>, orders: seq<Order>, m: map<int, Bucket>)
    reads m.Values`lastOrder
  {
    |l| == |orders| && forall i | 0 <= i < |l| :: Tail(orders, i) ==>
        orders[i].price in m && m[orders[i].price] in m.Values && m[orders[i].price].lastOrder == l[i]
  }

  /** List objects, index and buckets agree with the orders; nothing here depends on the links. */
  ghost predicate Booked(l: seq<DirectOrder>, orders: seq<Order>, m: map<int, Bucket>)
    reads l`price, l`size, l`filled, l`bucket, m.Values`totalVolume, m.Values`numOrders, m.Values`lastOrder
  {
    Shows(l, orders) && InBuckets(l, orders, m) && Counted(orders, m) && Tailed(l, orders, m)
  }

  lemma BookedIs(l: seq<DirectOrder>, orders: seq<Order>, m: map<int, Bucket>)
    requires Booked(l, orders, m)
    ensures Shows(l, orders) && InBuckets(l, orders, m) && Counted(orders, m) && Tailed(l, orders, m) && |l| == |orders|
  {
  }

  lemma IsBooked(l: seq<DirectOrder>, orders: seq<Order>, m: map<int, Bucket>)
    requires Shows(l, orders) && InBuckets(l, orders, m) && Counted(orders, m) && Tailed(l, orders, m)
    ensures Booked(l, orders, m)
  {
  }

  // ----- The first order leaves, or is filled further -----

  lemma NextStarts(orders: seq<Order>, i: nat)
    requires i < |orders| && TailOf(orders, i) + 1 < |orders|
    ensures Start(orders, TailOf(orders, i) + 1)
  {
    hide TailOf;
    assert Tail(orders, TailOf(orders, i));
  }

  lemma LevelBucket(l: seq<DirectOrder>, orders: seq<Order>, m: map<int, Bucket>, i: nat)
    requires Shows(l, orders) && InBuckets(l, orders, m) && Counted(orders, m) && Tailed(l, orders, m) && i < |l|
    ensures l[i].bucket != null && l[i].price == orders[i].price
    ensures l[i].bucket.totalVolume == VolumeAt(orders, orders[i].price)
    ensures l[i].bucket.lastOrder == l[TailOf(orders, i)]
  {
    hide VolumeAt, CountAt, TailOf, AtPrice;
    assert l[i].Value() == orders[i];
    assert Tail(orders, TailOf(orders, i));
  }

  lemma ChainedAt(l: seq<DirectOrder>, i: nat)
    requires Chained(l) && i < |l|
    ensures l[i].prev == After(l, i)
    ensures 0 < i ==> l[i].next == Before(l, i)
  {
  }

  lemma Neighbours(l: seq<DirectOrder>, i: nat)
    requires i < |l|
    ensures Before(l, i) == null || Before(l, i) in l
    ensures After(l, i) == null || After(l, i) in l
    ensures Before(l, i) == null <==> i == 0
  {
  }

  lemma AllChained(l: seq<DirectOrder>)
    requires forall i: int | 0 <= i < |l| :: l[i].prev == After(l, i) && (0 < i ==> l[i].next == Before(l, i))
    ensures Chained(l)
  {
  }

  lemma RemovedLength(l: seq<DirectOrder>, i: nat)
    requires i < |l|
    ensures |RemoveAt(l, i)| == |l| - 1
  {
  }

  /** The neighbours of position k in a list without position i, in terms of the whole list. */
  lemma RemovedLinks(l: seq<DirectOrder>, i: nat, k: nat)
    requires i < |l| && k < |l| - 1 && Unique(l)
    ensures var t := RemoveAt(l, i);
            var j := if k < i then k else k + 1;
            && |t| == |l| - 1 && t[k] == l[j]
            && After(t, k) == (if l[j] == Before(l, i) then After(l, i) else After(l, j))
            && (0 < k && l[j] == After(l, i) ==> 0 < i)
            && (0 < k ==> Before(t, k) == if l[j] == After(l, i) then Before(l, i) else Before(l, j))
  {
    var t := RemoveAt(l, i);
    assert forall x | 0 <= x < |t| :: t[x] == l[if x < i then x else x + 1];
  }

  lemma AroundPlace(l: seq<DirectOrder>, p: nat)
    requires p <= |l|
    ensures Before(l, p) == null <==> p == 0
    ensures 0 < p ==> Before(l, p) == l[p - 1] && l[p - 1] in l
    ensures After(l, p - 1) == null || After(l, p - 1) in l
    ensures p == 0 ==> After(l, -1) == if l == [] then null else l[0]
  {
  }

  lemma InsertedLength(l: seq<DirectOrder>, p: nat, order: DirectOrder)
    requires p <= |l|
    ensures |InsertAt(l, p, order)| == |l| + 1
  {
  }

  /** The neighbours of position k in a list with an order added at p, in terms of the list without it. */
  lemma InsertedLinks(l: seq<DirectOrder>, p: nat, order: DirectOrder, k: nat)
    requires p <= |l| && k <= |l| && Unique(l)
    ensures var t := InsertAt(l, p, order);
            var j := if k < p then k else k - 1;
            && |t| == |l| + 1
            && (k == p ==> t[k] == order && After(t, k) == After(l, p - 1) && Before(t, k) == Before(l, p))
            && (k != p ==>
                  && 0 <= j < |l| && t[k] == l[j]
                  && After(t, k) == (if l[j] == Before(l, p) then order else After(l, j))
                  && (0 < k ==> Before(t, k) == if l[j] == After(l, p - 1) then order else Before(l, j))
                  && (0 < k && j == 0 ==> l[j] == After(l, p - 1)))
  {
    var t := InsertAt(l, p, order);
    assert forall x | 0 <= x < |t| :: t[x] == if x < p then l[x] else if x == p then order else l[x - 1];
  }

  lemma FirstOf(l: seq<DirectOrder>)
    ensures After(l, -1) == if l == [] then null else l[0]
    ensures l != [] ==> l[0] in l
  {
  }

  lemma AfterAt(l: seq<DirectOrder>, k: nat)
    requires k <= |l|
    ensures if k < |l| then After(l, k - 1) == l[k] && l[..k + 1] == l[..k] + [l[k]]
            else After(l, k - 1) == null && l[..k] == l
  {
  }

  lemma UniqueAll(l: seq<DirectOrder>)
    requires Unique(l)
    ensures forall i, j | 0 <= i < |l| && 0 <= j < |l| && i != j :: l[i] != l[j]
  {
  }

  lemma UniqueTail(l: seq<DirectOrder>)
    requires Unique(l) && l != []
    ensures Unique(l[1..])
  {
  }

  lemma SideOkTail(orders: seq<Order>, action: OrderAction)
    requires SideOk(orders, action) && orders != []
    ensures SideOk(orders[1..], action)
  {
  }

  lemma ChainedTail(l: seq<DirectOrder>)
    requires Chained(l) && l != []
    ensures Chained(l[1..])
  {
    var t := l[1..];
    forall i: int | 0 <= i < |t| ensures t[i].prev == After(t, i) && (0 < i ==> t[i].next == Before(t, i)) {
      assert t[i] == l[i + 1] && After(t, i) == After(l, i + 1) && (0 < i ==> Before(t, i) == Before(l, i + 1));
      ChainedAt(l, i + 1);
    }
  }

  lemma InBucketsTail(l: seq<DirectOrder>, orders: seq<Order>, m: map<int, Bucket>, action: OrderAction)
    requires InBuckets(l, orders, m) && l != [] && SideOk(orders, action)
    ensures InBuckets(l[1..], orders[1..], if Tail(orders, 0) then m - {orders[0].price} else m)
  {
    if Tail(orders, 0) { AfterTail(orders, action, 0); }
  }

  lemma TailedTail(l: seq<DirectOrder>, orders: seq<Order>, m: map<int, Bucket>, action: OrderAction)
    requires Tailed(l, orders, m) && l != [] && SideOk(orders, action)
    ensures Tailed(l[1..], orders[1..], if Tail(orders, 0) then m - {orders[0].price} else m)
  {
    if Tail(orders, 0) { AfterTail(orders, action, 0); }
    forall i | 0 <= i < |l| - 1 ensures Tail(orders[1..], i) <==> Tail(orders, i + 1) {
    }
  }

  /** The bucket ends at the first order exactly when it is the only one of its price. */
  lemma LastIsFirst(l: seq<DirectOrder>, orders: seq<Order>, m: map<int, Bucket>)
    requires Tailed(l, orders, m) && Unique(l) && l != [] && InBuckets(l, orders, m)
    ensures l[0].bucket in m.Values && (l[0].bucket.lastOrder == l[0] <==> Tail(orders, 0))
  {
    var t := TailOf(orders, 0);
  }

  lemma ReplacedInPlace(l: seq<DirectOrder>, orders: seq<Order>, m: map<int, Bucket>, i: nat, o: Order)
    requires InBuckets(l, orders, m) && Tailed(l, orders, m) && i < |orders| && o.price == orders[i].price
    ensures InBuckets(l, orders[i := o], m) && Tailed(l, orders[i := o], m)
  {
    var orders': seq<Order> := orders[i := o];
    forall k | 0 <= k < |orders| ensures Tail(orders', k) <==> Tail(orders, k) && orders'[k].price == orders[k].price {
      TailReplaced(orders, i, o, k);
    }
  }

  ghost predicate Members(l: seq<DirectOrder>, m: map<int, Bucket>, objs: set<object>) {
    (forall x: DirectOrder <- l :: x in objs) && (forall b: Bucket <- m.Values :: b in objs)
  }

  // ----- An order leaves from anywhere -----

  lemma InBucketsRemoved(l: seq<DirectOrder>, orders: seq<Order>, m: map<int, Bucket>, i: nat)
    requires InBuckets(l, orders, m) && i < |l|
    ensures InBuckets(RemoveAt(l, i), RemoveAt(orders, i),
                      if CountAt(orders, orders[i].price) == 1 then m - {orders[i].price} else m)
  {
    var price := orders[i].price;
    VolumeRemoved(orders, i, price);
    CountIsPositive(RemoveAt(orders, i), price);
  }

  lemma UniqueRemoved(l: seq<DirectOrder>, i: nat)
    requires Unique(l) && i < |l|
    ensures Unique(RemoveAt(l, i)) && l[i] !in RemoveAt(l, i)
    ensures forall x: DirectOrder <- RemoveAt(l, i) :: x in l
  {
  }

  lemma ShowsRemoved(l: seq<DirectOrder>, orders: seq<Order>, i: nat)
    requires Shows(l, orders) && i < |l|
    ensures Shows(RemoveAt(l, i), RemoveAt(orders, i))
  {
  }

  lemma LastAt(l: seq<DirectOrder>, orders: seq<Order>, m: map<int, Bucket>, i: nat)
    requires Tailed(l, orders, m) && Unique(l) && i < |l| && InBuckets(l, orders, m)
    ensures l[i].bucket in m.Values && (l[i].bucket.lastOrder == l[i] <==> Tail(orders, i))
  {
    var t := TailOf(orders, i);
  }

  lemma SideOkLive(orders: seq<Order>, action: OrderAction, i: nat)
    requires SideOk(orders, action) && i < |orders|
    ensures Live(orders[i], action)
  {
  }

  lemma BucketPrices(orders: seq<Order>, m: map<int, Bucket>)
    requires Counted(orders, m)
    ensures forall p, q | p in m && q in m && m[p] == m[q] :: p == q
  {
  }

  lemma StillMembers(l: seq<DirectOrder>, m: map<int, Bucket>, objs: set<object>, i: nat, price: int)
    requires Members(l, m, objs) && i < |l|
    ensures Members(RemoveAt(l, i), m - {price}, objs)
  {
    var m' := m - {price};
    forall b: Bucket <- m'.Values ensures b in m.Values {
    }
  }

  // ----- An order joins -----

  lemma ShowsInserted(l: seq<DirectOrder>, orders: seq<Order>, p: nat, order: DirectOrder)
    requires Shows(l, orders) && p <= |l|
    ensures Shows(InsertAt(l, p, order), InsertAt(orders, p, order.Value()))
  {
  }

  lemma UniqueInserted(l: seq<DirectOrder>, p: nat, order: DirectOrder)
    requires Unique(l) && p <= |l| && order !in l
    ensures Unique(InsertAt(l, p, order))
    ensures forall x: DirectOrder <- InsertAt(l, p, order) :: x in l || x == order
  {
  }

  lemma InBucketsInserted(l: seq<DirectOrder>, orders: seq<Order>, m: map<int, Bucket>, m': map<int, Bucket>, p: nat,
                          order: DirectOrder, o: Order)
    requires InBuckets(l, orders, m) && p <= |l|
    requires forall q: int <- m :: q in m' && m'[q] == m[q]
    requires o.price in m' && order.bucket == m'[o.price]
    ensures InBuckets(InsertAt(l, p, order), InsertAt(orders, p, o), m')
  {
  }

  lemma CountedAdded(orders: seq<Order>, m: map<int, Bucket>, p: nat, o: Order, b: Bucket)
    requires Counted(orders, m) && p <= |orders| && o.price !in m && !AtPrice(orders, o.price)
    requires b.price == o.price && b.totalVolume == o.Remaining() && b.numOrders == 1
    ensures Counted(InsertAt(orders, p, o), m[o.price := b])
  {
    var m' := m[o.price := b];
    var s' := InsertAt(orders, p, o);
    CountIsPositive(orders, o.price);
    VolumeNone(orders, o.price);
    forall q: int <- m'
      ensures m'[q] in m'.Values && m'[q].price == q && m'[q].totalVolume == VolumeAt(s', q)
              && m'[q].numOrders == CountAt(s', q) && AtPrice(s', q)
    {
      VolumeInserted(orders, p, o, q);
      CountIsPositive(s', q);
      CountIsPositive(orders, q);
      if q != o.price { assert m'[q] == m[q] && m[q] in m.Values; }
    }
  }

  lemma TailedAddedAt(l: seq<DirectOrder>, orders: seq<Order>, m: map<int, Bucket>, order: DirectOrder, o: Order,
                      b: Bucket, p: nat, k: nat)
    requires Tailed(l, orders, m) && o.price !in m && b.lastOrder == order
    requires p <= |orders| && k <= |orders| && (k != p ==> Tail(orders, if k < p then k else k - 1))
    ensures var s', m' := InsertAt(orders, p, o), m[o.price := b];
            s'[k].price in m' && m'[s'[k].price] in m'.Values && m'[s'[k].price].lastOrder == InsertAt(l, p, order)[k]
  {
    var l', s', m' := InsertAt(l, p, order), InsertAt(orders, p, o), m[o.price := b];
    if k == p {
      assert s'[k] == o && l'[k] == order && m'[o.price] == b;
    } else {
      var i := if k < p then k else k - 1;
      assert s'[k] == orders[i] && l'[k] == l[i];
      assert m'[s'[k].price] == m[orders[i].price];
    }
  }

  lemma TailedAdded(l: seq<DirectOrder>, orders: seq<Order>, m: map<int, Bucket>, order: DirectOrder, o: Order,
                    b: Bucket)
    requires Tailed(l, orders, m) && SideOk(orders, o.action) && o.price !in m && b.lastOrder == order
    ensures var p := Place(orders, o.action, o.price);
            Tailed(InsertAt(l, p, order), InsertAt(orders, p, o), m[o.price := b])
  {
    hide Place, SideOk;
    var p := Place(orders, o.action, o.price);
    var l', s', m' := InsertAt(l, p, order), InsertAt(orders, p, o), m[o.price := b];
    assert |l'| == |s'| == |orders| + 1;
    forall k: int | 0 <= k < |l'| && Tail(s', k)
      ensures s'[k].price in m' && m'[s'[k].price] in m'.Values && m'[s'[k].price].lastOrder == l'[k]
    {
      TailInserted(orders, o, k);
      TailedAddedAt(l, orders, m, order, o, b, p, k);
    }
  }

  /** The price index's neighbour query finds the bucket of the order the new one goes behind. */
  lemma NeighbourBucket(orders: seq<Order>, action: OrderAction, m: map<int, Bucket>, price: int, v: Option<Bucket>)
    requires SideOk(orders, action) && 0 <= price <= MAX_KEY && !AtPrice(orders, price)
    requires forall q: int :: q in m <==> q == price || AtPrice(orders, q)
    requires if action == ASK then (if price == 0 then v == None else Nearest(m, price - 1, true, v))
             else if price == MAX_KEY then v == None else Nearest(m, price + 1, false, v)
    ensures var p := Place(orders, action, price);
            if p == 0 then v == None else orders[p - 1].price in m && v == Some(m[orders[p - 1].price])
  {
    BetterLevel(orders, action, price);
    var p := Place(orders, action, price);
    var down := action == ASK;
    var key := if down then price - 1 else price + 1;
    forall q: int <- m ensures Past(q, key, down) || (0 < p && !Better(action, orders[p - 1].price, q)) {
      if q != price && Better(action, q, price) {
        var i :| 0 <= i < |orders| && orders[i].price == q;
      }
    }
    if p == 0 {
      assert v.Some? ==> exists k: int :: NearestAt(m, key, down, k);
    } else {
      var k := orders[p - 1].price;
      assert AtPrice(orders, k) && Live(orders[p - 1], action);
      assert NearestAt(m, key, down, k);
      NearestUnique(m, key, down, v, Some(m[k]));
    }
  }

  lemma KeysArePrices(l: seq<DirectOrder>, orders: seq<Order>, m: map<int, Bucket>)
    requires Booked(l, orders, m)
    ensures forall q: int :: q in m <==> AtPrice(orders, q)
  {
    forall q: int ensures q in m <==> AtPrice(orders, q) {
      if AtPrice(orders, q) {
        var i :| 0 <= i < |orders| && orders[i].price == q;
        assert orders[i].price in m;
      }
    }
  }

  lemma NeighbourOrder(l: seq<DirectOrder>, orders: seq<Order>, m: map<int, Bucket>, action: OrderAction, price: int)
    requires Tailed(l, orders, m) && SideOk(orders, action)
    ensures var p := Place(orders, action, price);
            if p == 0 then Before(l, p) == null
            else orders[p - 1].price in m && m[orders[p - 1].price].lastOrder == Before(l, p)
  {
    PlaceIsAfterTail(orders, action, price);
  }

  lemma NewMembersOf(l: seq<DirectOrder>, p: nat, order: DirectOrder)
    requires p <= |l|
    ensures forall x: DirectOrder <- InsertAt(l, p, order) :: x in l || x == order
  {
  }

  lemma NewMembers(l: seq<DirectOrder>, m: map<int, Bucket>, p: nat, order: DirectOrder, b: Bucket)
    requires p <= |l|
    ensures forall x: DirectOrder <- InsertAt(l, p, order) :: x in l || x == order
    ensures forall c: Bucket <- m[order.price := b].Values :: c == b || c in m.Values
  {
  }

  /** A bucket of its own for the first order at a price. */
  lemma NewBucketBooked(l: seq<DirectOrder>, orders: seq<Order>, m: map<int, Bucket>, action: OrderAction,
                        order: DirectOrder, b: Bucket)
    requires Booked(l, orders, m) && SideOk(orders, action) && order.action == action && order.price !in m
             && order.bucket == b
    requires b.price == order.price && b.totalVolume == order.Value().Remaining() && b.numOrders == 1
             && b.lastOrder == order
    ensures var p := Place(orders, action, order.price);
            && p <= |l| && Booked(InsertAt(l, p, order), InsertAt(orders, p, order.Value()), m[order.price := b])
    ensures forall q: int :: q in m <==> AtPrice(orders, q)
  {
    hide Booked, Shows, InBuckets, Counted, Tailed, InsertAt, Place, SideOk;
    BookedIs(l, orders, m);
    KeysArePrices(l, orders, m);
    var p, o := Place(orders, action, order.price), order.Value();
    CountedAdded(orders, m, p, o, b);
    TailedAdded(l, orders, m, order, o, b);
    ShowsInserted(l, orders, p, order);
    InBucketsInserted(l, orders, m, m[order.price := b], p, order, o);
    IsBooked(InsertAt(l, p, order), InsertAt(orders, p, o), m[order.price := b]);
  }

  class DirectSide {
    const action: OrderAction
    const buckets: LongAdaptiveRadixTreeMap<Bucket>
    var best: DirectOrder?
    ghost var list: seq<DirectOrder>
    ghost var orders: seq<Order>
    ghost var Repr: set<object>

    constructor (action: OrderAction)
      ensures Valid() && this.action == action && orders == [] && list == [] && fresh(Repr)
    {
      this.action := action;
      buckets := new LongAdaptiveRadixTreeMap<Bucket>();
      best, list, orders := null, [], [];
      new;
      Repr := {this} + buckets.Repr;
    }

    /** The side's objects, the price index's own objects among them but apart from the others. */
    ghost predicate Apart()
      reads `list, `Repr, buckets, buckets.Repr
    {
      && this in Repr && buckets in Repr && buckets.Repr <= Repr && this !in buckets.Repr && buckets.Valid()
      && (forall x: DirectOrder <- list :: x in Repr && x !in buckets.Repr)
      && (forall b: Bucket <- buckets.m.Values :: b in Repr && b !in buckets.Repr)
    }

    /** The whole invariant except for what points at the head of the list. */
    ghost predicate Sound()
      reads this, Repr
      ensures Sound() ==>
                this in Repr && SideOk(orders, action) && |list| == |orders| && buckets.Valid() && buckets.Repr <= Repr
                    && this !in buckets.Repr
    {
      && this in Repr && buckets in Repr && buckets.Repr <= Repr && Apart()
      && Booked(list, orders, buckets.m) && Unique(list) && Chained(list) && SideOk(orders, action)
    }

    /** The best pointer and the head's next, for a list. */
    ghost predicate HeadOf(l: seq<DirectOrder>)
      reads `best, if l != [] then {l[0]} else {}
    {
      if l == [] then best == null else best == l[0] && l[0].next == null
    }

    ghost predicate Headed()
      reads `list, `best, if list != [] then {list[0]} else {}
    {
      HeadOf(list)
    }

    ghost predicate Valid()
      reads this, Repr
      ensures Valid() ==> this in Repr && |list| == |orders| && buckets.Repr <= Repr && this !in buckets.Repr
    {
      Sound() && Headed()
    }

    // ----- Trading with the head -----

    /** One trade with the first order: fills it, and drops it, with its bucket if it was the last there, once
        complete. */
    method Trade(maker: DirectOrder, tradeSize: int) returns (completed: bool)
      requires Sound() && list != [] && list[0] == maker && 0 < tradeSize <= orders[0].Remaining()
      modifies Repr
      ensures Sound() && fresh(Repr - old(Repr)) && best == old(best)
      ensures completed <==> tradeSize == old(orders[0]).Remaining()
      ensures maker.Value() == old(orders[0]).(filled := old(orders[0]).filled + tradeSize)
      ensures maker.prev == (if 1 < |old(list)| then old(list)[1] else null)
      ensures completed ==> list == old(list)[1..] && orders == old(orders)[1..]
      ensures !completed ==>
                list == old(list)
                    && orders == old(orders)[0 := old(orders[0]).(filled := old(orders[0]).filled + tradeSize)]
    {
      hide Sound, Booked, Apart, Shows, Chained, InBuckets, Counted, Tailed, SideOk, Unique,
           LongAdaptiveRadixTreeMap.Valid;
      ghost var l, s, m := list, orders, buckets.m;
      SoundIs();
      HeadBucket();
      var bucket := maker.bucket;
      maker.filled := maker.filled + tradeSize;
      bucket.totalVolume := bucket.totalVolume - tradeSize;
      completed := maker.size == maker.filled;
      if completed {
        bucket.numOrders := bucket.numOrders - 1;
        CountedDropped();
        ShownTail();
        DropHead(maker, bucket, s);
      } else {
        CountedReplaced(0, maker.Value());
        ShownReplaced(0);
        orders := s[0 := maker.Value()];
        ReplacedInPlace(l, s, m, 0, maker.Value());
        ResizeKeeps(s, action, 0, maker.Value());
        IsBooked(list, orders, buckets.m);
        IsSound();
      }
    }

    /** The buckets keep their prices, and all but one of them their counts. */
    twostate predicate OneBucketChanged(new price: int, new volume: int, new count: int)
      reads `list, `orders, buckets`m, buckets.m.Values
    {
      && unchanged(`orders) && unchanged(buckets`m) && price in buckets.m && buckets.m[price] in buckets.m.Values
      && (forall b: Bucket <- buckets.m.Values :: old(allocated(b)))
      && (forall b: Bucket <- buckets.m.Values :: b != buckets.m[price] ==>
            b.totalVolume == old(b.totalVolume) && b.numOrders == old(b.numOrders))
      && buckets.m[price].totalVolume == old(buckets.m[price].totalVolume) + volume
      && buckets.m[price].numOrders == old(buckets.m[price].numOrders) + count
    }

    twostate lemma CountedDropped()
      requires old(Counted(orders, buckets.m)) && orders != []
               && OneBucketChanged(orders[0].price, -orders[0].Remaining(), -1)
      requires Tail(orders, 0) ==> forall j | 0 < j < |orders| :: orders[j].price != orders[0].price
      ensures Counted(orders[1..], if Tail(orders, 0) then buckets.m - {orders[0].price} else buckets.m)
    {
      ghost var m, price := buckets.m, orders[0].price;
      ghost var m' := if Tail(orders, 0) then m - {price} else m;
      forall p: int <- m'
        ensures m'[p] in m'.Values && m'[p].price == p && m'[p].totalVolume == VolumeAt(orders[1..], p)
                && m'[p].numOrders == CountAt(orders[1..], p) && AtPrice(orders[1..], p)
      {
        assert m[p] in m.Values && m'[p] in m'.Values;
        DropFirst(orders, p);
        if p == price {
          assert orders[1..][0].price == p;
        } else {
          assert old(buckets.m[p].price) != old(buckets.m[price].price);
          AtPriceTail(orders, p);
        }
      }
    }

    twostate lemma CountedReplaced(new i: nat, new o: Order)
      requires old(Counted(orders, buckets.m)) && i < |orders| && o.price == orders[i].price
      requires OneBucketChanged(o.price, o.Remaining() - orders[i].Remaining(), 0)
      ensures Counted(orders[i := o], buckets.m)
    {
      ghost var m := buckets.m;
      forall p: int <- m
        ensures m[p] in m.Values && m[p].price == p && m[p].totalVolume == VolumeAt(orders[i := o], p)
                && m[p].numOrders == CountAt(orders[i := o], p) && AtPrice(orders[i := o], p)
      {
        assert m[p] in m.Values;
        VolumeReplaced(orders, i, o, p);
        CountIsPositive(orders, p);
        CountIsPositive(orders[i := o], p);
        if p != o.price {
          assert old(buckets.m[p].price) != old(buckets.m[o.price].price);
        }
      }
    }

    /** All orders but one hold what they held. */
    twostate predicate OneOrderChanged(new i: nat)
      reads `list, `orders, list
    {
      && unchanged(`list, `orders) && i < |list| == |orders|
      && forall x: DirectOrder <- list :: old(allocated(x)) && (x != list[i] ==> x.Value() == old(x.Value()))
    }

    twostate lemma ShownReplaced(new i: nat)
      requires old(Shows(list, orders)) && Unique(list) && OneOrderChanged(i)
      ensures Shows(list, orders[i := list[i].Value()])
    {
      forall k | 0 <= k < |list| && k != i ensures list[k].Value() == orders[k] {
        assert list[k] != list[i] && list[k] in list;
      }
    }

    twostate lemma ShownTail()
      requires old(Shows(list, orders)) && Unique(list) && OneOrderChanged(0)
      ensures Shows(list[1..], orders[1..])
    {
      forall k | 0 <= k < |list| - 1 ensures list[1..][k].Value() == orders[1..][k] {
        assert list[k + 1] != list[0] && list[k + 1] in list;
      }
    }

    /** Unlinks a completed first order, and its bucket from the index if it was the last one there. */
    method DropHead(maker: DirectOrder, bucket: Bucket, ghost s: seq<Order>)
      requires Apart() && Members(list, buckets.m, Repr - buckets.Repr) && list != [] && maker == list[0] && orders == s
               && |list| == |s|
      requires Shows(list[1..], s[1..]) && Unique(list) && Chained(list) && SideOk(s, action)
               && maker.price == s[0].price && 0 <= maker.price <= MAX_KEY
      requires InBuckets(list, s, buckets.m) && Tailed(list, s, buckets.m) && bucket == maker.bucket
      requires s[0].price in buckets.m && (bucket.lastOrder == maker <==> Tail(s, 0))
      requires Counted(s[1..], if Tail(s, 0) then buckets.m - {s[0].price} else buckets.m)
      modifies buckets.Repr, `list, `orders, `Repr
      ensures Sound() && fresh(Repr - old(Repr)) && list == old(list)[1..] && orders == s[1..]
    {
      hide Sound, Booked, Shows, Chained, InBuckets, Counted, Tailed, SideOk, Unique, LongAdaptiveRadixTreeMap.Valid;
      ghost var l, m := list, buckets.m;
      ghost var m' := if Tail(s, 0) then m - {s[0].price} else m;
      InBucketsTail(l, s, m, action);
      TailedTail(l, s, m, action);
      ChainedTail(l);
      UniqueTail(l);
      SideOkTail(s, action);
      if bucket.lastOrder == maker {
        buckets.Remove(maker.price);
      }
      list, orders, Repr := l[1..], s[1..], Repr + buckets.Repr;
      IsBooked(list, orders, buckets.m);
      IsSound();
    }

    // ----- Removing an order -----

    /** Takes an order out of the list and of its bucket; the bucket goes with it when it was the only one there. */
    method RemoveOrder(order: DirectOrder, ghost i: nat)
      requires Valid() && i < |list| && list[i] == order
      modifies Repr
      ensures Valid() && fresh(Repr - old(Repr)) && order !in Repr && order.Value() == old(orders)[i]
      ensures list == RemoveAt(old(list), i) && orders == RemoveAt(old(orders), i)
    {
      hide Booked, Chained, Unique, LongAdaptiveRadixTreeMap.Valid, RemoveAt, CountAt, Tail, Headed, SideOk, Ranked;
      SoundIs();
      BucketOf(i);
      ghost var l, l', s' := list, RemoveAt(list, i), RemoveAt(orders, i);
      UniqueRemoved(l, i);
      RemoveKeeps(orders, action, i);
      DropFromBucket(order, i);
      Unlink(order, i);
      IsSound();
    }

    lemma StillApart(order: DirectOrder, i: nat)
      requires Apart() && i < |list| && order == list[i] && Unique(list)
      ensures order !in buckets.Repr
              && forall x: DirectOrder <- RemoveAt(list, i) :: x in Repr && x !in buckets.Repr && x != order
    {
      UniqueRemoved(list, i);
    }

    /** The relinking around a removed order, and the best pointer if it was the first. */
    method Unlink(order: DirectOrder, ghost i: nat)
      requires Chained(list) && Unique(list) && Headed() && i < |list| == |orders| && list[i] == order
      requires Booked(RemoveAt(list, i), RemoveAt(orders, i), buckets.m) && Apart()
      modifies list`next, list`prev, `best, `list, `orders, `Repr
      ensures list == RemoveAt(old(list), i) && orders == RemoveAt(old(orders), i) && Repr == old(Repr) - {order}
      ensures Chained(list) && Headed() && Booked(list, orders, buckets.m) && Apart()
    {
      hide Chained, Unique, Booked, RemoveAt, LongAdaptiveRadixTreeMap.Valid, Headed, HeadOf;
      StillApart(order, i);
      ghost var l', s', m' := RemoveAt(list, i), RemoveAt(orders, i), buckets.m;
      assert Booked(l', s', m') && forall x: DirectOrder <- list :: x !in buckets.Repr;
      Relink(order, i);
      assert Booked(l', s', m');
      list, orders, Repr := l', s', Repr - {order};
      IsHeaded();
    }

    lemma IsHeaded()
      requires HeadOf(list)
      ensures Headed()
    {
    }

    method Relink(order: DirectOrder, ghost i: nat)
      requires Chained(list) && Unique(list) && Headed() && i < |list| && list[i] == order
      modifies list`next, list`prev, `best
      ensures Chained(RemoveAt(list, i)) && HeadOf(RemoveAt(list, i))
    {
      hide Chained, Unique, Before, After, RemoveAt;
      ChainedAt(list, i);
      Neighbours(list, i);
      if order.next != null {
        order.next.prev := order.prev;
      }
      if order.prev != null {
        order.prev.next := order.next;
      }
      if order == best {
        best := order.prev;
      }
      ChainedRemoved(i);
      HeadRemoved(i);
    }

    /** Relinking the neighbours of the order at position i chains the list without it. */
    twostate lemma ChainedRemoved(new i: nat)
      requires old(Chained(list)) && unchanged(`list) && Unique(list) && i < |list|
      requires forall x: DirectOrder <- list :: old(allocated(x))
      requires forall x: DirectOrder <- list :: x.prev == old(if x == Before(list, i) then list[i].prev else x.prev)
      requires forall x: DirectOrder <- list :: x.next == old(if x == After(list, i) then list[i].next else x.next)
      requires 0 < i ==> old(list[i].next) == Before(list, i)
      ensures Chained(RemoveAt(list, i))
    {
      hide After, Before, RemoveAt, Unique, Chained;
      ghost var t := RemoveAt(list, i);
      RemovedLength(list, i);
      forall k: int | 0 <= k < |t| ensures t[k].prev == After(t, k) && (0 < k ==> t[k].next == Before(t, k)) {
        RemovedLinks(list, i, k);
        ghost var j: nat := if k < i then k else k + 1;
        assert list[j] in list;
        ChainedBefore(j);
        ChainedBefore(i);
      }
      AllChained(t);
    }

    twostate lemma ChainedBefore(new j: nat)
      requires old(Chained(list)) && unchanged(`list) && j < |list| && old(allocated(list[j]))
      ensures old(list[j].prev) == After(list, j) && (0 < j ==> old(list[j].next) == Before(list, j))
    {
    }

    twostate lemma HeadRemoved(new i: nat)
      requires old(Headed()) && unchanged(`list) && Unique(list) && i < |list|
      requires forall x: DirectOrder <- list :: old(allocated(x))
      requires forall x: DirectOrder <- list :: x.next == old(if x == After(list, i) then list[i].next else x.next)
      requires best == old(if list[i] == best then list[i].prev else best) && old(list[i].prev) == After(list, i)
      ensures HeadOf(RemoveAt(list, i))
    {
      ghost var t := RemoveAt(list, i);
      if t != [] {
        assert t[0] == list[if i == 0 then 1 else 0] && t[0] in list;
        assert i == 0 ==> t[0] == After(list, 0);
        assert 0 < i && i + 1 < |list| ==> t[0] != list[i + 1];
      }
    }

    /** An emptied bucket leaves the index. */
    method EraseBucket(price: int, ghost l: seq<DirectOrder>, ghost s: seq<Order>)
      requires Apart() && buckets.Valid() && 0 <= price <= MAX_KEY && price in buckets.m && buckets.Repr <= Repr
               && this in Repr && this !in buckets.Repr
      requires Booked(l, s, buckets.m - {price}) && Members(l, buckets.m - {price}, Repr - buckets.Repr)
      modifies buckets.Repr, `Repr
      ensures Apart() && fresh(Repr - old(Repr)) && old(Repr) <= Repr
      ensures buckets.m == old(buckets.m) - {price} && Booked(l, s, buckets.m)
    {
      hide Booked, LongAdaptiveRadixTreeMap.Valid;
      ghost var m := buckets.m - {price};
      assert Booked(l, s, m);
      buckets.Remove(price);
      assert Booked(l, s, m);
      Repr := Repr + buckets.Repr;
    }

    method DropFromBucket(order: DirectOrder, ghost i: nat)
      requires Valid() && i < |list| && list[i] == order
      modifies buckets.Repr, order.bucket, `Repr
      ensures Apart() && fresh(Repr - old(Repr)) && old(Repr) <= Repr
      ensures var m' := if CountAt(orders, order.price) == 1 then old(buckets.m) - {order.price} else old(buckets.m);
              buckets.m == m' && Booked(RemoveAt(list, i), RemoveAt(orders, i), m')
    {
      hide Booked, Shows, Chained, InBuckets, Counted, Tailed, Ranked, Unique, LongAdaptiveRadixTreeMap.Valid, RemoveAt,
           CountAt, Tail, Headed;
      SoundIs();
      BucketOf(i);
      var bucket := order.bucket;
      bucket.totalVolume := bucket.totalVolume - (order.size - order.filled);
      bucket.numOrders := bucket.numOrders - 1;
      CountedRemoved(i);
      InBucketsRemoved(list, orders, buckets.m, i);
      ShowsRemoved(list, orders, i);
      ghost var l', s' := RemoveAt(list, i), RemoveAt(orders, i);
      if bucket.lastOrder == order {
        if order.next == null || order.next.bucket != bucket {
          TailedRemoved(i);
          StillMembers(list, buckets.m, Repr - buckets.Repr, i, order.price);
          ghost var m' := buckets.m - {order.price};
          IsBooked(l', s', m');
          EraseBucket(order.price, l', s');
        } else {
          bucket.lastOrder := order.next;
          TailedRemoved(i);
          IsBooked(l', s', buckets.m);
        }
      } else {
        TailedRemoved(i);
        IsBooked(l', s', buckets.m);
      }
    }

    /** The bucket of the order at position i, and how the code tells whether the order is the last and the only one
        there. */
    lemma BucketOf(i: nat)
      requires Valid() && i < |list|
      ensures var b := list[i].bucket;
        && b != null && orders[i].price in buckets.m && b == buckets.m[orders[i].price] && b in buckets.m.Values
        && (b.lastOrder == list[i] <==> Tail(orders, i))
        && list[i].Value() == orders[i] && list[i] in Repr && list[i] !in buckets.Repr && b in Repr
           && b !in buckets.Repr
        && list[i].prev == (if i + 1 < |list| then list[i + 1] else null) && Live(orders[i], action)
        && list[i].next == (if i == 0 then null else list[i - 1])
        && (0 < i ==> (list[i - 1].bucket == b <==> orders[i - 1].price == orders[i].price))
        && (Tail(orders, i) ==> (0 < i && orders[i - 1].price == orders[i].price <==>
                                   CountAt(orders, orders[i].price) != 1))
        && (!Tail(orders, i) ==> CountAt(orders, orders[i].price) != 1)
        && (CountAt(orders, orders[i].price) == 1 ==>
              forall j | 0 <= j < |orders| && j != i :: orders[j].price != orders[i].price)
        && (forall p: int <- buckets.m ::
              buckets.m[p] in buckets.m.Values && (buckets.m[p] == b ==> p == orders[i].price))
    {
      hide Booked, Chained, Counted, Tailed, SideOk, CountAt, Tail;
      SoundIs();
      ChainedAt(list, i);
      LastAt(list, orders, buckets.m, i);
      SideOkLive(orders, action, i);
      CountOfTail(orders, action, i);
      BucketPrices(orders, buckets.m);
    }

    /** After the bookkeeping of one removed order, the buckets end where the remaining list says. */
    twostate lemma TailedRemoved(new i: nat)
      requires old(Tailed(list, orders, buckets.m)) && i < |list| == |orders| && unchanged(`list, `orders)
               && unchanged(buckets`m)
      requires orders[i].price in buckets.m && Ranked(orders, action)
      requires Tail(orders, i) && CountAt(orders, orders[i].price) != 1 ==>
                 0 < i && orders[i - 1].price == orders[i].price
      requires CountAt(orders, orders[i].price) == 1 ==>
                 forall j | 0 <= j < |orders| && j != i :: orders[j].price != orders[i].price
      requires forall p: int <- buckets.m :: old(allocated(buckets.m[p])) &&
                 buckets.m[p].lastOrder == if p == orders[i].price && Tail(orders, i) && CountAt(orders, p) != 1
                     then list[i - 1] else old(buckets.m[p].lastOrder)
      ensures Tailed(RemoveAt(list, i), RemoveAt(orders, i),
                     if CountAt(orders, orders[i].price) == 1 then buckets.m - {orders[i].price} else buckets.m)
    {
      ghost var l', s' := RemoveAt(list, i), RemoveAt(orders, i);
      ghost var m' := if CountAt(orders, orders[i].price) == 1 then buckets.m - {orders[i].price} else buckets.m;
      forall k: int | 0 <= k < |l'| && Tail(s', k)
        ensures s'[k].price in m' && m'[s'[k].price] in m'.Values && m'[s'[k].price].lastOrder == l'[k]
      {
        TailRemoved(orders, i, k);
        ghost var j := if k < i then k else k + 1;
        if Tail(orders, j) { AfterTail(orders, action, j); }
        if Tail(orders, i) { AfterTail(orders, action, i); }
        assert s'[k] == orders[j] && l'[k] == list[j];
      }
    }

    twostate lemma CountedRemoved(new i: nat)
      requires old(Counted(orders, buckets.m)) && i < |orders|
               && OneBucketChanged(orders[i].price, -orders[i].Remaining(), -1)
      ensures Counted(RemoveAt(orders, i),
                      if CountAt(orders, orders[i].price) == 1 then buckets.m - {orders[i].price} else buckets.m)
    {
      ghost var m, price := buckets.m, orders[i].price;
      ghost var m' := if CountAt(orders, price) == 1 then m - {price} else m;
      ghost var s' := RemoveAt(orders, i);
      forall p: int <- m'
        ensures m'[p] in m'.Values && m'[p].price == p && m'[p].totalVolume == VolumeAt(s', p)
                && m'[p].numOrders == CountAt(s', p) && AtPrice(s', p)
      {
        assert m[p] in m.Values && m'[p] in m'.Values;
        VolumeRemoved(orders, i, p);
        CountIsPositive(orders, p);
        CountIsPositive(s', p);
        if p != price {
          assert old(buckets.m[p].price) != old(buckets.m[price].price);
        }
      }
    }

    // ----- Inserting an order -----

    /** Puts an order behind all orders of its price or better, creating the price's bucket if there is none. */
    method InsertOrder(order: DirectOrder)
      requires Valid() && order !in Repr && Live(order.Value(), action)
      modifies Repr, order
      ensures Valid() && fresh(Repr - old(Repr) - {order}) && order.Value() == old(order.Value())
      ensures var p := Place(old(orders), action, old(order.price));
              list == InsertAt(old(list), p, order) && orders == InsertAt(old(orders), p, order.Value())
    {
      hide Sound, Booked, Chained, Unique, LongAdaptiveRadixTreeMap.Valid, InsertAt, Place, Headed, SideOk;
      SoundIs();
      ghost var p := Place(orders, action, order.price);
      InsertKeeps(orders, order.Value());
      UniqueInserted(list, p, order);
      var neighbour := JoinBucket(order, p);
      SpliceIn(order, neighbour, p);
      IsSound();
    }

    method SpliceIn(order: DirectOrder, neighbour: DirectOrder?, ghost p: nat)
      requires Chained(list) && Unique(list) && Headed() && p <= |list| == |orders| && order !in Repr
               && neighbour == Before(list, p)
      requires Booked(InsertAt(list, p, order), InsertAt(orders, p, order.Value()), buckets.m) && Apart()
      modifies list`next, list`prev, `best, order`next, order`prev, `list, `orders, `Repr
      ensures list == InsertAt(old(list), p, order) && orders == InsertAt(old(orders), p, old(order.Value()))
              && Repr == old(Repr) + {order}
      ensures Chained(list) && Headed() && Booked(list, orders, buckets.m) && Apart()
    {
      hide Chained, Unique, Booked, InsertAt, LongAdaptiveRadixTreeMap.Valid, Headed, HeadOf, Before;
      ghost var l', s', m' := InsertAt(list, p, order), InsertAt(orders, p, order.Value()), buckets.m;
      NewMembersOf(list, p, order);
      assert Booked(l', s', m') && order !in list && forall x: DirectOrder <- list :: x !in buckets.Repr;
      Splice(order, neighbour, p);
      assert Booked(l', s', m');
      list, orders, Repr := l', s', Repr + {order};
      IsHeaded();
    }

    /** The bookkeeping of a new order; returns the order it goes behind. */
    method JoinBucket(order: DirectOrder, ghost p: nat) returns (neighbour: DirectOrder?)
      requires Sound() && order !in Repr && Live(order.Value(), action) && p == Place(orders, action, order.price)
      modifies Repr, order`bucket
      ensures Apart() && fresh(Repr - old(Repr)) && neighbour == Before(list, p) && unchanged(`list, `orders, `best)
      ensures Booked(InsertAt(list, p, order), InsertAt(orders, p, order.Value()), buckets.m)
      ensures Chained(list) && order !in Repr && Headed() == old(Headed())
    {
      hide Sound, Booked, Chained, LongAdaptiveRadixTreeMap.Valid, InsertAt, Place, Headed, SideOk;
      SoundIs();
      ghost var l := list;
      var toBucket := buckets.Get(order.price);
      assert Chained(l) && Headed() == old(Headed());
      if toBucket.Some? {
        neighbour := JoinExisting(order, toBucket.value, p);
      } else {
        neighbour := JoinNew(order, p);
      }
      assert list == l && Chained(l);
    }

    method JoinExisting(order: DirectOrder, toBucket: Bucket, ghost p: nat) returns (neighbour: DirectOrder)
      requires Sound() && order !in Repr && Live(order.Value(), action) && p == Place(orders, action, order.price)
      requires order.price in buckets.m && toBucket == buckets.m[order.price]
      modifies toBucket, order`bucket
      ensures Apart() && neighbour == Before(list, p)
      ensures Booked(InsertAt(list, p, order), InsertAt(orders, p, order.Value()), buckets.m)
    {
      hide Sound, Booked, Shows, InBuckets, Counted, Tailed, Chained, LongAdaptiveRadixTreeMap.Valid, InsertAt, Place,
           SideOk, Unique;
      SoundIs();
      ExistingBucket(order.price);
      toBucket.totalVolume := toBucket.totalVolume + (order.size - order.filled);
      toBucket.numOrders := toBucket.numOrders + 1;
      neighbour := toBucket.lastOrder;
      toBucket.lastOrder := order;
      order.bucket := toBucket;
      CountedInserted(p, order.Value());
      TailedInserted(order, order.Value());
      ShowsInserted(list, orders, p, order);
      InBucketsInserted(list, orders, buckets.m, buckets.m, p, order, order.Value());
      IsBooked(InsertAt(list, p, order), InsertAt(orders, p, order.Value()), buckets.m);
    }

    lemma ExistingBucket(price: int)
      requires Sound() && price in buckets.m
      ensures var p := Place(orders, action, price);
        && 0 < p <= |list| && Before(list, p) == buckets.m[price].lastOrder && AtPrice(orders, price)
        && buckets.m[price] in buckets.m.Values && buckets.m[price] in Repr && buckets.m[price] !in buckets.Repr
        && (forall q: int <- buckets.m ::
              buckets.m[q] in buckets.m.Values && (buckets.m[q] == buckets.m[price] ==> q == price))
    {
      hide Booked, Chained, SideOk;
      SoundIs();
      PlaceIsAfterTail(orders, action, price);
      BucketPrices(orders, buckets.m);
    }

    twostate lemma CountedInserted(new p: nat, new o: Order)
      requires old(Counted(orders, buckets.m)) && p <= |orders| && OneBucketChanged(o.price, o.Remaining(), 1)
      ensures Counted(InsertAt(orders, p, o), buckets.m)
    {
      ghost var m, s' := buckets.m, InsertAt(orders, p, o);
      forall q: int <- m
        ensures m[q] in m.Values && m[q].price == q && m[q].totalVolume == VolumeAt(s', q)
                && m[q].numOrders == CountAt(s', q) && AtPrice(s', q)
      {
        assert m[q] in m.Values;
        VolumeInserted(orders, p, o, q);
        CountIsPositive(orders, q);
        CountIsPositive(s', q);
        if q != o.price {
          assert old(buckets.m[q].price) != old(buckets.m[o.price].price);
        }
      }
    }

    twostate lemma TailedInserted(new order: DirectOrder, new o: Order)
      requires old(Tailed(list, orders, buckets.m)) && unchanged(`list, `orders) && unchanged(buckets`m)
               && SideOk(orders, action) && o.action == action
      requires o.price in buckets.m && AtPrice(orders, o.price)
      requires forall q: int <- buckets.m :: old(allocated(buckets.m[q])) && buckets.m[q].lastOrder == if q == o.price
               then order else old(buckets.m[q].lastOrder)
      ensures var p := Place(orders, action, o.price);
              p <= |list| && Tailed(InsertAt(list, p, order), InsertAt(orders, p, o), buckets.m)
    {
      ghost var p, m := Place(orders, action, o.price), buckets.m;
      ghost var l', s' := InsertAt(list, p, order), InsertAt(orders, p, o);
      PlaceIsAfterTail(orders, action, o.price);
      forall k: int | 0 <= k < |l'| && Tail(s', k)
        ensures s'[k].price in m && m[s'[k].price] in m.Values && m[s'[k].price].lastOrder == l'[k]
      {
        TailInserted(orders, o, k);
        if k != p {
          ghost var j: nat := if k < p then k else k - 1;
          assert s'[k] == orders[j] && l'[k] == list[j];
          AfterTail(orders, action, p - 1);
          AfterTail(orders, action, j);
        }
      }
    }

    method JoinNew(order: DirectOrder, ghost p: nat) returns (neighbour: DirectOrder?)
      requires Sound() && order !in Repr && Live(order.Value(), action) && p == Place(orders, action, order.price)
      requires order.price !in buckets.m
      modifies buckets.Repr, `Repr, order`bucket
      ensures Apart() && old(Repr) <= Repr && fresh(Repr - old(Repr)) && neighbour == Before(list, p)
      ensures Booked(InsertAt(list, p, order), InsertAt(orders, p, order.Value()), buckets.m)
    {
      hide Sound, Booked, Shows, InBuckets, Counted, Tailed, Chained, LongAdaptiveRadixTreeMap.Valid, InsertAt, Place,
           SideOk, Unique;
      SoundIs();
      ghost var l, l', s' := list, InsertAt(list, p, order), InsertAt(orders, p, order.Value());
      var newBucket := new Bucket(order.price, order);
      ghost var m, m' := buckets.m, buckets.m[order.price := newBucket];
      assert Booked(l, orders, m) && Tailed(l, orders, m);
      order.bucket := newBucket;
      assert Booked(l, orders, m) && Tailed(l, orders, m);
      NewBucketBooked(l, orders, m, action, order, newBucket);
      NewMembers(l, m, p, order, newBucket);
      assert Booked(l', s', m');
      buckets.Put(order.price, newBucket);
      assert Booked(l', s', m') && Tailed(l, orders, m);
      Repr := Repr + buckets.Repr + {newBucket};
      neighbour := FindNeighbour(order.price, p, m);
    }

    method FindNeighbour(price: int, ghost p: nat, ghost m: map<int, Bucket>) returns (neighbour: DirectOrder?)
      requires buckets.Valid() && 0 <= price <= MAX_KEY && price in buckets.m && price !in m
               && buckets.m == m[price := buckets.m[price]]
      requires Tailed(list, orders, m) && SideOk(orders, action) && p == Place(orders, action, price)
      requires forall q: int :: q in m <==> AtPrice(orders, q)
      ensures neighbour == Before(list, p)
    {
      hide LongAdaptiveRadixTreeMap.Valid, Place, SideOk, Nearest, Tailed, Before;
      var lowerBucket: Option<Bucket>;
      if action == ASK {
        lowerBucket := buckets.GetLowerValue(price);
      } else {
        lowerBucket := buckets.GetHigherValue(price);
      }
      NeighbourBucket(orders, action, buckets.m, price, lowerBucket);
      NeighbourOrder(list, orders, m, action, price);
      neighbour := if lowerBucket.Some? then lowerBucket.value.lastOrder else null;
    }

    /** The linking of a new order behind its neighbour, or at the head. */
    method Splice(order: DirectOrder, neighbour: DirectOrder?, ghost p: nat)
      requires Chained(list) && Unique(list) && Headed() && p <= |list| && order !in list
               && neighbour == Before(list, p)
      modifies list`next, list`prev, `best, order`next, order`prev
      ensures Chained(InsertAt(list, p, order)) && HeadOf(InsertAt(list, p, order))
    {
      hide Chained, Unique, Before, After, InsertAt;
      AroundPlace(list, p);
      if neighbour != null {
        ChainedAt(list, p - 1);
        var prevOrder := neighbour.prev;
        neighbour.prev := order;
        if prevOrder != null {
          prevOrder.next := order;
        }
        order.next := neighbour;
        order.prev := prevOrder;
      } else {
        var oldBestOrder := best;
        if oldBestOrder != null {
          oldBestOrder.next := order;
        }
        best := order;
        order.next := null;
        order.prev := oldBestOrder;
      }
      ChainedInserted(p, order);
      HeadInserted(p, order);
    }

    twostate lemma ChainedInserted(new p: nat, new order: DirectOrder)
      requires old(Chained(list)) && unchanged(`list) && Unique(list) && p <= |list| && order !in list
      requires forall x: DirectOrder <- list :: old(allocated(x))
      requires forall x: DirectOrder <- list :: x.prev == (if x == Before(list, p) then order else old(x.prev))
      requires forall x: DirectOrder <- list :: x.next == (if x == After(list, p - 1) then order else old(x.next))
      requires order.next == Before(list, p) && order.prev == After(list, p - 1)
      ensures Chained(InsertAt(list, p, order))
    {
      hide After, Before, InsertAt, Unique, Chained;
      ghost var t := InsertAt(list, p, order);
      InsertedLength(list, p, order);
      forall k: int | 0 <= k < |t| ensures t[k].prev == After(t, k) && (0 < k ==> t[k].next == Before(t, k)) {
        InsertedLinks(list, p, order, k);
        if k != p {
          ghost var j: nat := if k < p then k else k - 1;
          assert list[j] in list;
          ChainedBefore(j);
        }
      }
      AllChained(t);
    }

    twostate lemma HeadInserted(new p: nat, new order: DirectOrder)
      requires old(Headed()) && unchanged(`list) && Unique(list) && p <= |list| && order !in list
      requires forall x: DirectOrder <- list :: old(allocated(x))
      requires forall x: DirectOrder <- list :: x.next == (if x == After(list, p - 1) then order else old(x.next))
      requires order.next == Before(list, p) && best == if Before(list, p) == null then order else old(best)
      ensures HeadOf(InsertAt(list, p, order))
    {
      ghost var t := InsertAt(list, p, order);
      assert t[0] == if p == 0 then order else list[0];
      if 0 < p {
        assert list[0] in list;
        assert p < |list| ==> list[0] != list[p];
      }
    }

    // ----- Walking the list -----

    /** The orders from the best one on, along prev. */
    method CollectOrders() returns (collected: seq<DirectOrder>)
      requires Valid()
      ensures collected == list
    {
      hide Valid, After;
      ghost var k, l := 0, list;
      Links(0);
      var current := best;
      collected := [];
      AfterAt(l, 0);
      while current != null
        invariant 0 <= k <= |l| && collected == l[..k] && current == After(l, k - 1)
        decreases |l| - k
      {
        AfterAt(l, k);
        Links(k);
        collected := collected + [current];
        current := current.prev;
        k := k + 1;
      }
      AfterAt(l, k);
    }

    /** Following prev from the best order visits the list. */
    lemma Links(i: nat)
      requires Valid()
      ensures best == After(list, -1)
      ensures i < |list| ==> list[i].prev == After(list, i)
    {
      hide Booked, Unique, LongAdaptiveRadixTreeMap.Valid, SideOk, Chained, Sound;
      SoundIs();
      FirstOf(list);
      if i < |list| { ChainedAt(list, i); }
    }

    lemma ShownOrders()
      requires Valid()
      ensures |list| == |orders| && forall i | 0 <= i < |list| :: list[i].Value() == orders[i]
    {
      hide Booked, Unique, LongAdaptiveRadixTreeMap.Valid, SideOk, Chained;
      SoundIs();
    }

    // ----- The rest of the side's operations -----

    /** After matching, the first order left is the new best. */
    method Rebase(head: DirectOrder?)
      requires Sound() && head == After(list, -1)
      modifies `best, list`next
      ensures Valid() && unchanged(`list, `orders, `Repr)
    {
      hide Booked, Unique, LongAdaptiveRadixTreeMap.Valid, SideOk, Chained;
      SoundIs();
      FirstOf(list);
      ghost var l, s, m := list, orders, buckets.m;
      assert Booked(l, s, m) && forall x: DirectOrder <- list :: x !in buckets.Repr;
      if head != null {
        head.next := null;
      }
      best := head;
      assert Booked(l, s, m);
      HeadFreed();
      IsSound();
    }

    twostate lemma HeadFreed()
      requires old(Chained(list)) && unchanged(`list) && Unique(list)
      requires forall x: DirectOrder <- list ::
                 old(allocated(x)) && x.prev == old(x.prev) && (x != list[0] ==> x.next == old(x.next))
      ensures Chained(list)
    {
      hide After, Before, Unique, Chained;
      UniqueAll(list);
      forall k: int | 0 <= k < |list|
        ensures list[k].prev == After(list, k) && (0 < k ==> list[k].next == Before(list, k))
      {
        assert list[k] in list;
        ChainedBefore(k);
      }
      AllChained(list);
    }

    /** Takes part of an order's size away where it rests. */
    method ReduceInPlace(order: DirectOrder, reduceBy: int, ghost i: nat)
      requires Valid() && i < |list| && list[i] == order && 0 < reduceBy < orders[i].Remaining()
      modifies Repr
      ensures Valid() && unchanged(`list, `Repr) && order.price == old(order.price)
      ensures orders == old(orders)[i := old(orders)[i].(size := old(orders)[i].size - reduceBy)]
    {
      hide Booked, Shows, InBuckets, Counted, Tailed, Unique, LongAdaptiveRadixTreeMap.Valid, SideOk, Chained;
      SoundIs();
      BucketOf(i);
      order.size := order.size - reduceBy;
      order.bucket.totalVolume := order.bucket.totalVolume - reduceBy;
      CountedReplaced(i, order.Value());
      ShownReplaced(i);
      ReplacedInPlace(list, orders, buckets.m, i, order.Value());
      ResizeKeeps(orders, action, i, order.Value());
      orders := orders[i := order.Value()];
      IsBooked(list, orders, buckets.m);
      IsSound();
    }

    /** The cost of filling `size` from the best price on, or the sentinel if there is not enough. */
    method CheckBudgetToFill(size: int) returns (budget: int)
      requires Valid()
      ensures budget == if Budget(orders, size).Some? then Budget(orders, size).value else INT64_MAX
    {
      hide Booked, Shows, InBuckets, Counted, Tailed, Unique, LongAdaptiveRadixTreeMap.Valid, SideOk, Chained, Budget,
           VolumeAt, TailOf;
      SoundIs();
      FirstOf(list);
      var makerOrder, need := best, size;
      ghost var i := 0;
      budget := 0;
      assert orders[0..] == orders;
      while makerOrder != null
        invariant 0 <= i <= |list| && makerOrder == After(list, i - 1) && (i < |list| ==> Start(orders, i))
        invariant Budget(orders, size) == AddCost(budget, Budget(orders[i..], need))
        decreases |list| - i
      {
        AtLevel(i);
        var bucket := makerOrder.bucket;
        var availableSize, price := bucket.totalVolume, makerOrder.price;
        BudgetLevel(orders, action, i, need);
        if need > availableSize {
          need := need - availableSize;
          budget := budget + availableSize * price;
        } else {
          return budget + need * price;
        }
        makerOrder := bucket.lastOrder.prev;
        i := TailOf(orders, i) + 1;
      }
      BudgetEmpty(orders[i..], need);
      return INT64_MAX;
    }

    /** What the code reads at the first order of a level. */
    lemma AtLevel(i: nat)
      requires Valid() && i < |list|
      ensures After(list, i - 1) == list[i] && list[i].bucket != null && list[i].price == orders[i].price
      ensures list[i].bucket.totalVolume == VolumeAt(orders, orders[i].price)
      ensures list[i].bucket.lastOrder.prev == After(list, TailOf(orders, i))
      ensures TailOf(orders, i) + 1 < |list| ==> Start(orders, TailOf(orders, i) + 1)
    {
      hide Chained, SideOk, VolumeAt, Booked, Shows, InBuckets, Counted, Tailed, Unique, Sound, Start, Tail;
      SoundIs();
      ChainedAt(list, TailOf(orders, i));
      LevelBucket(list, orders, buckets.m, i);
      if TailOf(orders, i) + 1 < |orders| { NextStarts(orders, i); }
    }

    /** Market data: the first `size` levels, best price first, each with the volume and number of orders resting
        there. */
    method FillLevels(size: nat) returns (rows: seq<(int, Level)>)
      requires Valid()
      ensures First(Levels(orders), rows, size, action == BID)
    {
      hide Booked, Shows, InBuckets, Tailed, Unique, LongAdaptiveRadixTreeMap.Valid, SideOk, Chained, First, VolumeAt,
           CountAt;
      SoundIs();
      var s;
      if action == ASK {
        s := buckets.ForEach(size);
      } else {
        s := buckets.ForEachDesc(size);
      }
      rows := [];
      for i := 0 to |s|
        invariant |rows| == i
        invariant forall k | 0 <= k < i ::
                    s[k].1 in buckets.m.Values && rows[k] == (s[k].1.price, Level(s[k].1.totalVolume, s[k].1.numOrders))
      {
        ListedBucket(s, size, i);
        rows := rows + [(s[i].1.price, Level(s[i].1.totalVolume, s[i].1.numOrders))];
      }
      RowsAreLevels(s, rows, size);
    }

    method TotalBuckets(limit: nat) returns (n: nat)
      requires Valid()
      ensures n == if |Levels(orders)| <= limit then |Levels(orders)| else limit
    {
      hide Booked, Shows, InBuckets, Counted, Tailed, Unique, LongAdaptiveRadixTreeMap.Valid, SideOk, Chained, Levels,
           AtPrice;
      SoundIs();
      KeysArePrices(list, orders, buckets.m);
      LevelCount(orders, buckets.m.Keys);
      n := buckets.Size(limit);
    }

    lemma ListedBucket(s: seq<(int, Bucket)>, size: nat, i: nat)
      requires Valid() && First(buckets.m, s, size, action == BID) && i < |s|
      ensures s[i].0 in buckets.m && s[i].1 == buckets.m[s[i].0] && s[i].1 in buckets.m.Values
      ensures s[i].1.price == s[i].0 && s[i].1.totalVolume == VolumeAt(orders, s[i].0)
              && s[i].1.numOrders == CountAt(orders, s[i].0)
    {
      hide Booked, Shows, InBuckets, Tailed, Unique, LongAdaptiveRadixTreeMap.Valid, SideOk, Chained, VolumeAt, CountAt;
      SoundIs();
    }

    lemma RowsAreLevels(s: seq<(int, Bucket)>, rows: seq<(int, Level)>, size: nat)
      requires Valid() && First(buckets.m, s, size, action == BID) && |rows| == |s|
      requires forall k | 0 <= k < |s| ::
                 s[k].1 in buckets.m.Values && rows[k] == (s[k].1.price, Level(s[k].1.totalVolume, s[k].1.numOrders))
      ensures First(Levels(orders), rows, size, action == BID)
    {
      hide Booked, Shows, InBuckets, Counted, Tailed, Unique, LongAdaptiveRadixTreeMap.Valid, SideOk, Chained, VolumeAt,
           CountAt;
      SoundIs();
      KeysArePrices(list, orders, buckets.m);
      forall k: nat | k < |s|
        ensures rows[k].0 == s[k].0 && rows[k].1 == Level(VolumeAt(orders, s[k].0), CountAt(orders, s[k].0))
      {
        ListedBucket(s, size, k);
      }
      forall p: int <- Levels(orders)
        ensures Listed(rows, p) || (|rows| == size && forall i: nat | i < |rows| :: Ahead(rows[i].0, p, action == BID))
      {
        assert p in buckets.m;
        if Listed(s, p) {
          var i: nat :| i < |s| && s[i].0 == p;
          assert rows[i].0 == p;
        }
      }
    }

    lemma ValidIs()
      requires Valid()
      ensures Sound() && Headed() && |list| == |orders| && SideOk(orders, action) && this in Repr
    {
    }

    lemma ListedOrder(i: nat)
      requires Valid() && i < |list|
      ensures i < |orders| && list[i].Value() == orders[i] && list[i] in Repr && Live(orders[i], action)
              && list[i].action == action
    {
      BucketOf(i);
    }

    lemma IsSound()
      requires Apart() && Booked(list, orders, buckets.m) && Unique(list) && Chained(list) && SideOk(orders, action)
      ensures Sound()
    {
      hide Booked, Chained, SideOk, Unique;
    }

    lemma SoundIs()
      requires Sound()
      ensures Apart() && Booked(list, orders, buckets.m) && Unique(list) && Chained(list) && SideOk(orders, action)
      ensures Shows(list, orders) && InBuckets(list, orders, buckets.m) && Counted(orders, buckets.m)
              && Tailed(list, orders, buckets.m)
      ensures Members(list, buckets.m, Repr - buckets.Repr)
      ensures |list| == |orders| && buckets.Repr <= Repr && this in Repr && this !in buckets.Repr
    {
      hide Booked, Shows, Chained, InBuckets, Counted, Tailed, SideOk, Unique;
      BookedIs(list, orders, buckets.m);
    }

    lemma HeadBucket()
      requires Sound() && list != []
      ensures var b := list[0].bucket;
        && orders[0].price in buckets.m && b == buckets.m[orders[0].price] && b in buckets.m.Values
        && (b.lastOrder == list[0] <==> Tail(orders, 0))
        && list[0].Value() == orders[0] && list[0] in Repr && list[0] !in buckets.Repr && b in Repr
           && b !in buckets.Repr
        && (Tail(orders, 0) ==> forall j | 0 < j < |orders| :: orders[j].price != orders[0].price)
        && list[0].prev == (if 1 < |list| then list[1] else null)
        && Live(orders[0], action)
    {
      hide Booked, Counted, Chained;
      SoundIs();
      ChainedAt(list, 0);
      LastIsFirst(list, orders, buckets.m);
      if Tail(orders, 0) { AfterTail(orders, action, 0); }
    }
  }
}
