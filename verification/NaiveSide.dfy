/** One side of the reference book: a sorted map from prices to first-in first-out buckets. */
module NaiveSides {
  import opened Wrappers
  import opened OrderTypes
  import opened ArtMaps
  import opened ArtOrder
  import opened BookSpec
  import opened BookFacts
  import opened BookLevels
  import opened BookPicks
  import opened NaiveBucket

  /** A bucket that lists exactly these objects and orders. */
  ghost predicate HoldsLevel(b: OrdersBucket, l: seq<RestingOrder>, s: seq<Order>)
    reads b, b.orderList`price, b.orderList`size, b.orderList`filled
  {
    b.Valid() && b.orderList == l && b.orders == s
  }

  lemma {:induction false} PickIn<T>(xs: seq<T>, side: seq<Order>, p: int, x: T)
    requires |xs| == |side| && x in Pick(xs, side, p)
    ensures exists i :: 0 <= i < |xs| && xs[i] == x && side[i].price == p
  {
    if side[0].price == p && x == xs[0] {
    } else {
      PickIn(xs[1..], side[1..], p, x);
      var i :| 0 <= i < |xs[1..]| && xs[1..][i] == x && side[1..][i].price == p;
      assert xs[i + 1] == x && side[i + 1].price == p;
    }
  }

  lemma PickExcludes(l: seq<RestingOrder>, orders: seq<Order>, p: int)
    requires |l| == |orders| && Unique(l)
    ensures forall i | 0 <= i < |l| && orders[i].price != p :: l[i] !in Pick(l, orders, p)
  {
    forall i | 0 <= i < |l| && orders[i].price != p ensures l[i] !in Pick(l, orders, p) {
      if l[i] in Pick(l, orders, p) {
        PickIn(l, orders, p, l[i]);
      }
    }
  }

  /** The state of a scan over the buckets: those still to visit hold orders, those found empty do not. */
  ghost predicate Scanning(keys: set<int>, s: seq<Order>, rest: set<int>, emptied: set<int>, need: int) {
    && rest <= keys && emptied <= keys && rest !! emptied
    && (forall q: int <- rest :: AtPrice(s, q))
    && (forall q: int <- keys :: q in emptied || AtPrice(s, q))
    && (forall q: int <- emptied :: !AtPrice(s, q))
    && (0 < need ==> forall i | 0 <= i < |s| :: s[i].price in rest)
  }

  /** Matching the first level leaves the scan with the other buckets to visit. */
  lemma VisitedScan(s: seq<Order>, s': seq<Order>, action: OrderAction, keys: set<int>, rest: set<int>,
                    emptied: set<int>, need: nat, price: int, takerReserve: int, left: int)
    requires Scanning(keys, s, rest, emptied, need) && price in rest && SideOk(s, action)
             && forall i | 0 < need && 0 <= i < |s| :: !Better(action, s[i].price, price)
    requires need == 0 ==> s' == s && left == 0
    requires 0 < need ==>
               var n := CountAt(s, price);
               var m := Match(s[..n], action, None, need, takerReserve);
               n <= |s| && s' == m.rest + s[n..] && left == m.left
    ensures Scanning(keys, s', rest - {price}, if AtPrice(s', price) then emptied else emptied + {price}, left)
  {
    hide Match, SideOk, CountAt, Live;
    if 0 < need {
      FrontLevel(s, s, action, price);
      var n := CountAt(s, price);
      var m := Match(s[..n], action, None, need, takerReserve);
      LevelLive(s, action, n);
      MatchSuffix(s[..n], action, None, need, takerReserve);
      MatchLevel(s[..n], [], action, None, need, takerReserve);
      forall i | 0 <= i < |m.rest|
        ensures m.rest[i].price == price
      {
        assert SameOrder(m.rest[i], s[..n][n - |m.rest| + i]);
      }
      forall q: int | q != price ensures AtPrice(s', q) <==> AtPrice(s, q) { OtherPrices(s, n, m.rest, price, q); }
      forall i | 0 < left && 0 <= i < |s'| ensures s'[i].price in rest - {price} {
        assert s'[i] == s[n..][i] == s[n + i];
      }
    }
  }

  lemma LevelLive(s: seq<Order>, action: OrderAction, n: nat)
    requires SideOk(s, action) && n <= |s|
    ensures forall i | 0 <= i < n :: Live(s[..n][i], action)
    ensures forall i | 0 <= i < |s| - n :: Live(s[n..][i], action)
  {
  }

  lemma OtherPrices(s: seq<Order>, n: nat, rest: seq<Order>, price: int, q: int)
    requires n <= |s| && q != price && (forall i | 0 <= i < n :: s[i].price == price)
             && forall i | 0 <= i < |rest| :: rest[i].price == price
    ensures AtPrice(rest + s[n..], q) <==> AtPrice(s, q)
  {
    var s' := rest + s[n..];
    if AtPrice(s, q) {
      var i :| 0 <= i < |s| && s[i].price == q;
      assert s'[|rest| + i - n] == s[i];
    }
    if AtPrice(s', q) {
      var i :| 0 <= i < |s'| && s'[i].price == q;
      assert s'[i] == s[n + i - |rest|];
    }
  }

  /** How far matching has come: what is left of the side is a suffix, and the events and removed ids are those of the
      part before. */
  ghost predicate Progress(l0: seq<RestingOrder>, s0: seq<Order>, l: seq<RestingOrder>, s: seq<Order>,
                           action: OrderAction, limit: Option<int>, need: int, takerReserve: int, events: seq<Event>,
                           removed: seq<int>, left: int)
  {
    && |s| <= |s0| == |l0| && l == l0[|s0| - |s|..] && removed == Ids(s0[..|s0| - |s|])
    && (forall i | 0 <= i < |s| :: s[i].orderId == s0[|s0| - |s| + i].orderId)
    && Match(s0, action, limit, need, takerReserve) == Prepended(events, Match(s, action, limit, left, takerReserve))
  }

  lemma VisitedProgress(l0: seq<RestingOrder>, s0: seq<Order>, l: seq<RestingOrder>, s: seq<Order>,
                        l': seq<RestingOrder>, s': seq<Order>, action: OrderAction, limit: Option<int>, need: int,
                        takerReserve: int, events: seq<Event>, removed: seq<int>, left: nat, price: int,
                        bucketEvents: seq<Event>, volume: int, ordersToRemove: seq<int>)
    requires Progress(l0, s0, l, s, action, limit, need, takerReserve, events, removed, left) && SideOk(s, action)
             && Crosses(action, price, limit)
    requires left == 0 ==> bucketEvents == [] && volume == 0 && ordersToRemove == [] && s' == s && l' == l
    requires 0 < left ==> AtPrice(s, price) && forall i | 0 <= i < |s| :: !Better(action, s[i].price, price)
    requires 0 < left ==>
               var n := CountAt(s, price);
               var m := Match(s[..n], action, None, left, takerReserve);
               && |m.rest| <= n <= |s| <= |l| && s' == m.rest + s[n..] && l' == l[n - |m.rest|..]
               && bucketEvents == m.events && volume == left - m.left && ordersToRemove == Ids(s[..n - |m.rest|])
    ensures Progress(l0, s0, l', s', action, limit, need, takerReserve, events + bucketEvents, removed + ordersToRemove,
                     left - volume)
    ensures volume <= left
  {
    hide Match, SideOk, CountAt, Ids, Live, AtPrice;
    if left == 0 {
      assert events + [] == events && removed + [] == removed;
    } else {
      FrontLevel(s, s, action, price);
      var n := CountAt(s, price);
      var m := Match(s[..n], action, None, left, takerReserve);
      LevelTaken(s, action, limit, left, takerReserve, n, m, s', price, events);
      SuffixProgress(l0, s0, l, s, action, removed, n, left, takerReserve);
    }
  }

  /** Matching goes on behind the level as if the level had been matched alone. */
  lemma LevelTaken(s: seq<Order>, action: OrderAction, limit: Option<int>, left: nat, takerReserve: int, n: nat,
                   m: Matching, s': seq<Order>, price: int, events: seq<Event>)
    requires SideOk(s, action) && n <= |s| && m == Match(s[..n], action, None, left, takerReserve)
             && s' == m.rest + s[n..]
    requires Crosses(action, price, limit) && forall i | 0 <= i < n :: s[i].price == price
    ensures (forall i | 0 <= i < n :: Live(s[..n][i], action)) && 0 <= m.left
    ensures Prepended(events, Match(s, action, limit, left, takerReserve))
            == Prepended(events + m.events, Match(s', action, limit, m.left, takerReserve))
  {
    hide Match, SideOk, Live;
    LevelLive(s, action, n);
    MatchLeft(s[..n], action, None, left, takerReserve);
    MatchLevel(s[..n], s[n..], action, limit, left, takerReserve);
    assert s == s[..n] + s[n..];
    PrependTwice(events, m.events, Match(s', action, limit, m.left, takerReserve));
  }

  lemma SuffixProgress(l0: seq<RestingOrder>, s0: seq<Order>, l: seq<RestingOrder>, s: seq<Order>, action: OrderAction,
                       removed: seq<int>, n: nat, left: nat, takerReserve: int)
    requires |s| <= |s0| == |l0| && l == l0[|s0| - |s|..] && removed == Ids(s0[..|s0| - |s|]) && n <= |s|
    requires forall i | 0 <= i < |s| :: s[i].orderId == s0[|s0| - |s| + i].orderId
    requires forall i | 0 <= i < n :: Live(s[..n][i], action)
    ensures var rest := Match(s[..n], action, None, left, takerReserve).rest;
            && |rest| <= n
            && var s' := rest + s[n..];
               && l[n - |rest|..] == l0[|s0| - |s'|..] && removed + Ids(s[..n - |rest|]) == Ids(s0[..|s0| - |s'|])
               && forall i | 0 <= i < |s'| :: s'[i].orderId == s0[|s0| - |s'| + i].orderId
  {
    hide Match, Ids, Live;
    MatchSuffix(s[..n], action, None, left, takerReserve);
    var rest := Match(s[..n], action, None, left, takerReserve).rest;
    var s' := rest + s[n..];
    var k, g := |s0| - |s|, n - |rest|;
    IdsSuffix(s0, s, k, g);
    assert l0[k..][g..] == l0[k + g..];
    forall i | 0 <= i < |s'| ensures s'[i].orderId == s0[k + g + i].orderId {
      if i < |rest| {
        assert SameOrder(rest[i], s[..n][g + i]);
        assert s'[i].orderId == s[g + i].orderId;
      } else {
        assert s'[i] == s[g + i];
      }
    }
  }

  lemma PrependTwice(a: seq<Event>, b: seq<Event>, r: Matching)
    ensures Prepended(a, Matching(r.rest, b + r.events, r.left)) == Prepended(a + b, r)
  {
    assert a + (b + r.events) == (a + b) + r.events;
  }

  /** The ids of a prefix, in two pieces. */
  lemma {:induction false} IdsSuffix(s0: seq<Order>, s: seq<Order>, k: nat, g: nat)
    requires k + |s| == |s0| && g <= |s| && forall i | 0 <= i < |s| :: s[i].orderId == s0[k + i].orderId
    ensures Ids(s0[..k + g]) == Ids(s0[..k]) + Ids(s[..g])
  {
    if g == 0 {
      NoIds(s[..0]);
      assert Ids(s0[..k]) + [] == Ids(s0[..k]);
    } else {
      IdsSuffix(s0, s, k, g - 1);
      IdsAppended(s0, k + g - 1);
      IdsAppended(s, g - 1);
      assert (Ids(s0[..k]) + Ids(s[..g - 1])) + [s[g - 1].orderId]
             == Ids(s0[..k]) + (Ids(s[..g - 1]) + [s[g - 1].orderId]);
    }
  }

  lemma ProgressDone(l0: seq<RestingOrder>, s0: seq<Order>, l: seq<RestingOrder>, s: seq<Order>, action: OrderAction,
                     limit: Option<int>, need: int, takerReserve: int, events: seq<Event>, removed: seq<int>, left: nat)
    requires Progress(l0, s0, l, s, action, limit, need, takerReserve, events, removed, left)
    requires left == 0 || s == [] || !Crosses(action, s[0].price, limit)
    ensures |s| <= |s0| == |l0| && l == l0[|s0| - |s|..] && removed == Ids(s0[..|s0| - |s|])
    ensures Match(s0, action, limit, need, takerReserve) == Matching(s, events, left)
  {
    hide Ids, Match;
    MatchStep(s, action, limit, left, takerReserve);
    assert events + [] == events;
  }

  /** One level of the cost: it covers the size, or is used up and the others follow. */
  lemma BudgetFront(s: seq<Order>, action: OrderAction, price: int, size: int)
    requires SideOk(s, action) && AtPrice(s, price) && forall i | 0 <= i < |s| :: !Better(action, s[i].price, price)
    ensures var n := CountAt(s, price);
            && n <= |s| && SideOk(s[n..], action)
            && Budget(s, size)
               == (if size <= VolumeAt(s, price) then Some(size * price)
                   else AddCost(VolumeAt(s, price) * price, Budget(s[n..], size - VolumeAt(s, price))))
            && (forall q: int :: AtPrice(s[n..], q) <==> AtPrice(s, q) && q != price)
            && (forall q: int | q != price :: VolumeAt(s[n..], q) == VolumeAt(s, q))
  {
    hide Budget, VolumeAt, CountAt, AtPrice;
    FrontLevel(s, s, action, price);
    var n := CountAt(s, price);
    LevelLive(s, action, n);
    FrontNonEmpty(s, price);
    assert s == s[..n] + s[n..];
    PickVolume(s, price);
    assert forall k | 0 <= k < n :: 0 < s[..n][k].Remaining();
    BudgetGroup(s[..n], s[n..], price, size);
    SuffixOk(s, action, n);
    forall q: int ensures AtPrice(s[n..], q) <==> AtPrice(s, q) && q != price { SuffixPrices(s, n, price, q); }
    forall q: int | q != price ensures VolumeAt(s[n..], q) == VolumeAt(s, q) {
      VolumeConcat(s[..n], s[n..], q);
      VolumeAbsent(s[..n], q);
    }
  }

  lemma FrontNonEmpty(s: seq<Order>, price: int)
    requires AtPrice(s, price)
    ensures 0 < CountAt(s, price)
  {
    CountIsPositive(s, price);
  }

  lemma SuffixOk(s: seq<Order>, action: OrderAction, n: nat)
    requires SideOk(s, action) && n <= |s|
    ensures SideOk(s[n..], action)
  {
  }

  lemma SuffixPrices(s: seq<Order>, n: nat, price: int, q: int)
    requires n <= |s| && (forall i | 0 <= i < n :: s[i].price == price)
             && forall i | n <= i < |s| :: s[i].price != price
    ensures AtPrice(s[n..], q) <==> AtPrice(s, q) && q != price
  {
    if AtPrice(s, q) && q != price {
      var i :| 0 <= i < |s| && s[i].price == q;
      assert s[n..][i - n].price == q;
    }
    if AtPrice(s[n..], q) {
      var i :| 0 <= i < |s[n..]| && s[n..][i].price == q;
      assert s[n + i].price == q;
    }
  }

  class NaiveSide {
    const action: OrderAction
    var buckets: map<int, OrdersBucket>
    ghost var list: seq<RestingOrder>
    ghost var orders: seq<Order>
    ghost var Repr: set<object>

    constructor (action: OrderAction)
      ensures Valid() && this.action == action && orders == [] && list == [] && fresh(Repr)
    {
      this.action, buckets, list, orders, Repr := action, map[], [], [], {this};
    }

    /** The bucket at p holds the part of a list that rests there. */
    ghost predicate LevelHolds(p: int, l: seq<RestingOrder>, s: seq<Order>)
      requires p in buckets && |l| == |s|
      reads `buckets, buckets[p], buckets[p].orderList`price, buckets[p].orderList`size, buckets[p].orderList`filled
    {
      buckets[p].price == p && HoldsLevel(buckets[p], Pick(l, s, p), Pick(s, s, p))
    }

    ghost predicate LevelOk(p: int)
      requires p in buckets && |list| == |orders|
      reads `buckets, `list, `orders, buckets[p], buckets[p].orderList`price, buckets[p].orderList`size,
            buckets[p].orderList`filled
    {
      LevelHolds(p, list, orders)
    }

    /** What is true of a side's list and orders by themselves. */
    ghost predicate Listing(l: seq<RestingOrder>, s: seq<Order>, objs: set<object>)
      reads `buckets
    {
      && |l| == |s| && Unique(l) && DistinctIds(s) && SideOk(s, action)
      && (forall x: RestingOrder <- l :: x in objs)
      && (forall i | 0 <= i < |s| :: s[i].price in buckets)
      && (forall p: int <- buckets :: buckets[p] in objs)
    }

    /** The buckets split the side by price; some of them may be empty. */
    ghost predicate Loose()
      reads this, Repr
      ensures Loose() ==> this in Repr && |list| == |orders| && SideOk(orders, action)
    {
      && this in Repr && Listing(list, orders, Repr)
      && (forall p: int <- buckets :: (forall x: RestingOrder <- buckets[p].orderList :: x in Repr) && LevelOk(p))
    }

    lemma IsLoose()
      requires this in Repr && Listing(list, orders, Repr) && forall p: int <- buckets :: LevelHolds(p, list, orders)
      ensures Loose()
    {
      hide Pick, Mapped, SideOk, DistinctIds, OrdersBucket.Valid;
      forall p: int, x: RestingOrder | p in buckets && x in buckets[p].orderList ensures x in Repr {
        PickIn(list, orders, p, x);
      }
    }

    lemma LooseIs()
      requires Loose()
      ensures this in Repr && Listing(list, orders, Repr) && forall p: int <- buckets :: LevelHolds(p, list, orders)
    {
    }

    /** And none of them is empty. */
    ghost predicate Valid()
      reads this, Repr
      ensures Valid() ==> this in Repr && |list| == |orders| && SideOk(orders, action)
    {
      Loose() && forall p: int <- buckets :: AtPrice(orders, p)
    }

    lemma ShownAt(i: nat)
      requires Loose() && i < |list|
      ensures orders[i].price in buckets && LevelOk(orders[i].price) && list[i] in Repr && Live(orders[i], action)
      ensures buckets[orders[i].price].price == orders[i].price
      ensures list[i].Value() == orders[i]
      ensures var b := buckets[orders[i].price];
              Rank(orders, i) < |b.orderList| == |b.orders| && b.orderList[Rank(orders, i)] == list[i]
                  && b.orders[Rank(orders, i)] == orders[i]
    {
      hide Pick, Rank;
      RankAt(list, orders, i);
      RankAt(orders, orders, i);
      PickLength(orders, orders, orders[i].price);
      PickLength(list, orders, orders[i].price);
      assert buckets[orders[i].price].Valid();
    }

    /** Only the level at p has been touched. */
    twostate predicate OnlyLevel(new p: int)
      reads this, list, buckets.Values
    {
      && unchanged(this) && |list| == |orders|
      && (forall q: int <- buckets :: buckets[q] in buckets.Values && old(allocated(buckets[q])))
      && (forall q: int <- buckets :: q != p ==>
            buckets[q].totalVolume == old(buckets[q].totalVolume) && buckets[q].orderList == old(buckets[q].orderList))
      && (forall q: int <- buckets :: q != p ==>
            buckets[q].orderMap == old(buckets[q].orderMap) && buckets[q].orders == old(buckets[q].orders))
      && (forall i | 0 <= i < |list| ::
            list[i] in list && old(allocated(list[i]))
                && (orders[i].price != p ==> list[i].Value() == old(list[i].Value())))
    }

    twostate lemma OthersKept(new p: int)
      requires old(Loose()) && OnlyLevel(p)
      ensures forall q: int <- buckets :: q != p ==> LevelOk(q)
    {
      hide Pick, Mapped, SideOk, DistinctIds;
      forall q: int | q in buckets && q != p ensures LevelOk(q) {
        assert old(LevelOk(q));
        LevelKept(p, q);
      }
    }

    twostate lemma LevelKept(new p: int, new q: int)
      requires old(Loose()) && OnlyLevel(p) && q in buckets && q != p && old(LevelOk(q))
      ensures LevelOk(q)
    {
      hide Pick, Mapped;
      ghost var b := buckets[q];
      forall k: int | 0 <= k < |b.orderList| ensures b.orderList[k].Value() == b.orders[k] {
        PickIn(list, orders, q, b.orderList[k]);
        ghost var i :| 0 <= i < |list| && list[i] == b.orderList[k] && orders[i].price == q;
        assert old(b.orderList[k].Value() == b.orders[k]);
      }
    }

    /** What an operation on one bucket sees of it. */
    lemma BucketAt(p: int)
      requires Loose() && p in buckets
      ensures var b := buckets[p];
              && b.price == p && b.Valid() && b.orderList == Pick(list, orders, p)
                 && b.orders == Pick(orders, orders, p) && b in Repr
              && b.totalVolume == VolumeAt(orders, p) && 0 <= b.totalVolume
                 && (0 < b.totalVolume <==> AtPrice(orders, p))
              && (forall x: RestingOrder <- b.orderList :: x in list && x in Repr)
              && (forall i | 0 <= i < |b.orders| ::
                    Live(b.orders[i], action) && b.orders[i].price == p && b.orders[i] in orders)
              && (forall q: int <- buckets :: q != p ==> buckets[q] != b)
      ensures forall q: int <- buckets :: buckets[q] in buckets.Values && buckets[q] in Repr
      ensures forall i | 0 <= i < |list| ::
                list[i] in list && list[i] in Repr && (orders[i].price != p ==> list[i] !in buckets[p].orderList)
    {
      hide Pick, Mapped, Valid;
      assert LevelOk(p);
      PickVolume(orders, p);
      VolumeIsPositive(orders, action, p);
      PickExcludes(list, orders, p);
      forall x: RestingOrder <- buckets[p].orderList ensures x in list {
        PickIn(list, orders, p, x);
      }
      forall i | 0 <= i < |buckets[p].orders|
        ensures Live(buckets[p].orders[i], action) && buckets[p].orders[i].price == p && buckets[p].orders[i] in orders
      {
        PickIn(orders, orders, p, buckets[p].orders[i]);
      }
      forall q: int | q in buckets && q != p ensures buckets[q] != buckets[p] {
        assert LevelOk(q);
      }
    }

    /** Finds the price's bucket, creating it if there is none. */
    method FindOrEmplace(price: int) returns (bucket: OrdersBucket)
      requires Loose()
      modifies `buckets, `Repr
      ensures Loose() && fresh(Repr - old(Repr)) && old(Repr) <= Repr && price in buckets && buckets[price] == bucket
              && bucket in Repr
      ensures unchanged(`list, `orders) && forall q: int <- buckets :: q == price || q in old(buckets)
    {
      hide Pick, Mapped, SideOk, DistinctIds;
      if price !in buckets {
        bucket := new OrdersBucket(price);
        EmptyLevel(price);
        assert forall q: int <- buckets :: LevelOk(q);
        buckets, Repr := buckets[price := bucket], Repr + {bucket};
        assert forall q: int <- buckets :: LevelOk(q);
      } else {
        bucket := buckets[price];
      }
    }

    lemma EmptyLevel(price: int)
      requires Loose() && price !in buckets
      ensures Pick(list, orders, price) == [] && Pick(orders, orders, price) == []
    {
      PickNone(list, orders, price);
      PickNone(orders, orders, price);
    }

    method PutOrder(order: RestingOrder)
      requires Valid() && order !in Repr && Live(order.Value(), action)
               && forall i | 0 <= i < |orders| :: orders[i].orderId != order.orderId
      modifies Repr
      ensures Valid() && fresh(Repr - old(Repr) - {order}) && order.Value() == old(order.Value())
      ensures var p := Place(old(orders), action, old(order.price));
              list == InsertAt(old(list), p, order) && orders == InsertAt(old(orders), p, order.Value())
    {
      hide Pick, Mapped, SideOk, DistinctIds, Loose, InsertAt, OrdersBucket.Valid;
      var bucket := FindOrEmplace(order.price);
      PutInto(bucket, order);
    }

    method PutInto(bucket: OrdersBucket, order: RestingOrder)
      requires Loose() && order.price in buckets && buckets[order.price] == bucket
      requires order !in Repr && Live(order.Value(), action)
               && forall i | 0 <= i < |orders| :: orders[i].orderId != order.orderId
      requires forall q: int <- buckets :: q == order.price || AtPrice(orders, q)
      modifies bucket, `list, `orders, `Repr
      ensures Valid() && Repr == old(Repr) + {order}
      ensures var p := Place(old(orders), action, order.price);
              list == InsertAt(old(list), p, order) && orders == InsertAt(old(orders), p, order.Value())
    {
      hide Pick, Mapped, SideOk, DistinctIds, Loose, InsertAt, OrdersBucket.Valid, Listing, LevelHolds;
      LooseIs();
      BucketAt(order.price);
      ghost var l', s' :=
          InsertAt(list, Place(orders, action, order.price), order),
              InsertAt(orders, Place(orders, action, order.price), order.Value());
      JoinedListing(order);
      bucket.Put(order);
      OthersKept(order.price);
      JoinedLevels(order);
      Adopt(l', s', Repr + {order});
    }

    /** The ghost side of a change: the list and orders the buckets now split. */
    ghost method Adopt(l: seq<RestingOrder>, s: seq<Order>, objs: set<object>)
      requires this in objs && Listing(l, s, objs) && forall q: int <- buckets :: LevelHolds(q, l, s)
      modifies `list, `orders, `Repr
      ensures Loose() && list == l && orders == s && Repr == objs
    {
      hide Listing, HoldsLevel, Pick;
      list, orders, Repr := l, s, objs;
      IsLoose();
    }

    lemma JoinedListing(order: RestingOrder)
      requires Loose() && order.price in buckets && order !in Repr && Live(order.Value(), action)
      requires forall i | 0 <= i < |orders| :: orders[i].orderId != order.orderId
      requires forall q: int <- buckets :: q == order.price || AtPrice(orders, q)
      ensures var p := Place(orders, action, order.price);
              && p <= |list| && Listing(InsertAt(list, p, order), InsertAt(orders, p, order.Value()), Repr + {order})
              && forall q: int <- buckets :: AtPrice(InsertAt(orders, p, order.Value()), q)
    {
      hide Pick, SideOk, LevelOk, Live, AtPrice, Place;
      var p, o := Place(orders, action, order.price), order.Value();
      assert o.action == action by { LiveIs(o, action); }
      var s' := InsertAt(orders, p, o);
      InsertKeeps(orders, o);
      JoinedPrices(order);
    }

    lemma LiveIs(o: Order, side: OrderAction)
      requires Live(o, side)
      ensures o.action == side
    {
    }

    lemma JoinedPrices(order: RestingOrder)
      requires Loose() && forall q: int <- buckets :: q == order.price || AtPrice(orders, q)
      ensures forall q: int <- buckets ::
                AtPrice(InsertAt(orders, Place(orders, action, order.price), order.Value()), q)
    {
      hide Pick, SideOk, LevelOk, Place;
      var p, o := Place(orders, action, order.price), order.Value();
      var s' := InsertAt(orders, p, o);
      forall q: int | q in buckets ensures AtPrice(s', q) {
        if q == order.price {
          assert s'[p].price == q;
        } else {
          var i :| 0 <= i < |orders| && orders[i].price == q;
          assert s'[if i < p then i else i + 1].price == q;
        }
      }
    }

    lemma JoinedLevels(order: RestingOrder)
      requires |list| == |orders| && SideOk(orders, action) && order.price in buckets && order.action == action
               && buckets[order.price].price == order.price
      requires forall q: int <- buckets :: q != order.price ==> LevelOk(q)
      requires HoldsLevel(buckets[order.price], Pick(list, orders, order.price) + [order],
                          Pick(orders, orders, order.price) + [order.Value()])
      ensures var p := Place(orders, action, order.price);
              forall q: int <- buckets :: LevelHolds(q, InsertAt(list, p, order), InsertAt(orders, p, order.Value()))
    {
      hide Pick, SideOk, Place, HoldsLevel;
      var p, o := Place(orders, action, order.price), order.Value();
      forall q: int | q in buckets ensures LevelHolds(q, InsertAt(list, p, order), InsertAt(orders, p, o)) {
        PickInserted(list, orders, order, o, q);
        PickInserted(orders, orders, o, o, q);
        assert q != order.price ==> LevelOk(q);
        assert Pick(list, orders, q) + [] == Pick(list, orders, q)
               && Pick(orders, orders, q) + [] == Pick(orders, orders, q);
      }
    }

    // ----- Removing and reducing an order -----

    /** Takes an order out of its bucket, and erases the bucket once nothing is left in it. */
    method RemoveOrder(order: RestingOrder, ghost i: nat)
      requires Valid() && i < |list| && list[i] == order
      modifies Repr
      ensures Valid() && fresh(Repr - old(Repr)) && order !in Repr && order.Value() == old(orders)[i]
      ensures list == RemoveAt(old(list), i) && orders == RemoveAt(old(orders), i)
    {
      hide Pick, Mapped, SideOk, DistinctIds, Loose, RemoveAt, OrdersBucket.Valid, Listing, LevelHolds, Rank, VolumeAt,
           Find;
      LooseIs();
      ShownAt(i);
      RemovedParts(i);
      var price := order.price;
      var bucket := buckets[price];
      ghost var l', s', objs := RemoveAt(list, i), RemoveAt(orders, i), Repr - {order};
      TakeFrom(bucket, order, i);
      LevelVolumes(l', s', price);
      if bucket.totalVolume == 0 {
        Erase(price, l', s', objs);
      }
      Adopt(l', s', objs);
    }

    method TakeFrom(bucket: OrdersBucket, order: RestingOrder, ghost i: nat)
      requires Valid() && i < |list| && list[i] == order && orders[i].price in buckets
               && buckets[orders[i].price] == bucket
      modifies bucket
      ensures |list| == |orders| && |RemoveAt(list, i)| == |RemoveAt(orders, i)|
              && forall q: int <- buckets :: LevelHolds(q, RemoveAt(list, i), RemoveAt(orders, i))
    {
      hide Pick, Mapped, SideOk, DistinctIds, Loose, RemoveAt, OrdersBucket.Valid, Listing, LevelHolds, Rank, VolumeAt,
           Find;
      LooseIs();
      ShownAt(i);
      BucketAt(order.price);
      FindInLevel(i);
      var removed := bucket.Remove(order.orderId, order.uid);
      OthersKept(order.price);
      RemovedLevels(i);
      SameRemoved(list, orders, i);
    }

    lemma SameRemoved(l: seq<RestingOrder>, s: seq<Order>, i: nat)
      requires |l| == |s| && i < |l|
      ensures |RemoveAt(l, i)| == |RemoveAt(s, i)|
    {
    }

    /** Erasing a price at which nothing rests. */
    method Erase(price: int, ghost l: seq<RestingOrder>, ghost s: seq<Order>, ghost objs: set<object>)
      requires Listing(l, s, objs) && price in buckets && !AtPrice(s, price)
               && forall q: int <- buckets :: LevelHolds(q, l, s)
      modifies `buckets
      ensures buckets == old(buckets) - {price} && Listing(l, s, objs)
              && forall q: int <- buckets :: LevelHolds(q, l, s)
    {
      hide Pick, SideOk, DistinctIds, HoldsLevel;
      ghost var before := buckets;
      assert forall q: int <- buckets :: buckets[q].price == q && HoldsLevel(buckets[q], Pick(l, s, q), Pick(s, s, q));
      buckets := buckets - {price};
      assert forall q: int <- buckets :: q in before && buckets[q] == before[q];
      assert forall q: int <- buckets :: buckets[q].price == q && HoldsLevel(buckets[q], Pick(l, s, q), Pick(s, s, q));
    }

    lemma LevelVolumes(l: seq<RestingOrder>, s: seq<Order>, price: int)
      requires price in buckets && |l| == |s| && LevelHolds(price, l, s) && SideOk(s, action)
      ensures buckets[price].totalVolume == VolumeAt(s, price)
              && (buckets[price].totalVolume == 0 <==> !AtPrice(s, price))
    {
      hide Pick, Mapped, SideOk;
      PickVolume(s, price);
      VolumeIsPositive(s, action, price);
    }

    lemma FindInLevel(i: nat)
      requires Loose() && i < |list|
      ensures orders[i].price in buckets
      ensures var b := buckets[orders[i].price]; Find(b.orders, orders[i].orderId) == Rank(orders, i) < |b.orders|
    {
      hide Pick, Mapped, Rank, Volume;
      ShownAt(i);
      var b := buckets[orders[i].price];
      assert LevelOk(orders[i].price) && b.Valid();
      FindIs(b.orders, Rank(orders, i));
    }

    lemma RemovedParts(i: nat)
      requires Valid() && i < |list|
      ensures Listing(RemoveAt(list, i), RemoveAt(orders, i), Repr - {list[i]}) && this in Repr - {list[i]}
              && SideOk(RemoveAt(orders, i), action)
      ensures forall q: int <- buckets :: q != orders[i].price ==> AtPrice(RemoveAt(orders, i), q)
    {
      hide Pick, Mapped, LevelOk;
      var l', s' := RemoveAt(list, i), RemoveAt(orders, i);
      RemoveKeeps(orders, action, i);
      forall q: int | q in buckets && q != orders[i].price ensures AtPrice(s', q) {
        var j :| 0 <= j < |orders| && orders[j].price == q;
        assert s'[if j < i then j else j - 1].price == q;
      }
    }

    lemma RemovedLevels(i: nat)
      requires |list| == |orders| && i < |list| && orders[i].price in buckets
               && buckets[orders[i].price].price == orders[i].price
      requires forall q: int <- buckets :: q != orders[i].price ==> LevelOk(q)
      requires var price := orders[i].price;
               && Rank(orders, i) < |Pick(list, orders, price)| && Rank(orders, i) < |Pick(orders, orders, price)|
               && HoldsLevel(buckets[price], RemoveAt(Pick(list, orders, price), Rank(orders, i)),
                             RemoveAt(Pick(orders, orders, price), Rank(orders, i)))
      ensures forall q: int <- buckets :: LevelHolds(q, RemoveAt(list, i), RemoveAt(orders, i))
    {
      hide Pick, SideOk, HoldsLevel, Rank;
      forall q: int | q in buckets ensures LevelHolds(q, RemoveAt(list, i), RemoveAt(orders, i)) {
        PickRemoved(list, orders, i, q);
        PickRemoved(orders, orders, i, q);
        assert q != orders[i].price ==> LevelOk(q);
      }
    }

    /** Lowers an order's size where it rests, and its bucket's total. */
    method ReduceInPlace(order: RestingOrder, reduceBy: int, ghost i: nat)
      requires Valid() && i < |list| && list[i] == order && 0 < reduceBy < orders[i].Remaining()
      modifies Repr
      ensures Valid() && unchanged(`list, `Repr, `buckets) && order.price == old(order.price)
      ensures orders == old(orders)[i := old(orders)[i].(size := old(orders)[i].size - reduceBy)]
    {
      hide Pick, Mapped, SideOk, DistinctIds, Loose, OrdersBucket.Valid, Listing, LevelHolds, HoldsLevel, Rank;
      LooseIs();
      ShownAt(i);
      ghost var s' := orders[i := orders[i].(size := orders[i].size - reduceBy)];
      ReducedParts(i, s'[i]);
      ShrinkIn(buckets[order.price], order, reduceBy, i);
      ReducedLevels(i, s'[i]);
      Adopt(list, s', Repr);
    }

    method Resize(bucket: OrdersBucket, order: RestingOrder, reduceBy: int, ghost r: nat, ghost o: Order)
      requires r < |bucket.orders|
      modifies order`size, bucket`totalVolume, bucket`orders
      ensures order.size == old(order.size) - reduceBy && bucket.totalVolume == old(bucket.totalVolume) - reduceBy
      ensures bucket.orders == old(bucket.orders)[r := o]
    {
      order.size := order.size - reduceBy;
      bucket.ReduceSize(reduceBy);
      bucket.orders := bucket.orders[r := o];
    }

    method ShrinkIn(bucket: OrdersBucket, order: RestingOrder, reduceBy: int, ghost i: nat)
      requires Valid() && i < |list| && list[i] == order && 0 < reduceBy < orders[i].Remaining()
               && orders[i].price in buckets && buckets[orders[i].price] == bucket
      modifies order`size, bucket`totalVolume, bucket`orders
      ensures |list| == |orders| && (forall q: int <- buckets :: q != orders[i].price ==> LevelOk(q))
              && bucket.price == orders[i].price
      ensures var r, price := Rank(orders, i), orders[i].price;
              && r < |Pick(list, orders, price)| && r < |Pick(orders, orders, price)|
              && HoldsLevel(bucket, Pick(list, orders, price),
                            Pick(orders, orders, price)[r := orders[i].(size := orders[i].size - reduceBy)])
    {
      hide Pick, Mapped, SideOk, DistinctIds, Loose, OrdersBucket.Valid, Listing, LevelHolds, Rank, VolumeAt, OnlyLevel;
      LooseIs();
      ShownAt(i);
      ResizeAlone(bucket, order, reduceBy, i);
      OthersKept(orders[i].price);
      ReducedBucket(i, reduceBy);
    }

    method ResizeAlone(bucket: OrdersBucket, order: RestingOrder, reduceBy: int, ghost i: nat)
      requires Valid() && i < |list| && list[i] == order && orders[i].price in buckets
               && buckets[orders[i].price] == bucket
      requires Rank(orders, i) < |bucket.orders|
      modifies order`size, bucket`totalVolume, bucket`orders
      ensures OnlyLevel(orders[i].price) && unchanged(this) && unchanged(bucket`orderList, bucket`orderMap)
      ensures order.size == old(order.size) - reduceBy && bucket.totalVolume == old(bucket.totalVolume) - reduceBy
      ensures bucket.orders == old(bucket.orders)[Rank(orders, i) := orders[i].(size := orders[i].size - reduceBy)]
      ensures forall x: RestingOrder <- bucket.orderList ::
                old(allocated(x)) && (x != order ==> x.Value() == old(x.Value()))
    {
      hide Pick, Mapped, SideOk, DistinctIds, Loose, OrdersBucket.Valid, Listing, LevelHolds, Rank, VolumeAt, AtPrice;
      LooseIs();
      ShownAt(i);
      BucketAt(order.price);
      Resize(bucket, order, reduceBy, Rank(orders, i), orders[i].(size := orders[i].size - reduceBy));
    }

    lemma ReducedParts(i: nat, o: Order)
      requires Valid() && i < |list| && o.price == orders[i].price && o.orderId == orders[i].orderId && Live(o, action)
      ensures Listing(list, orders[i := o], Repr)
      ensures forall q: int <- buckets :: AtPrice(orders[i := o], q)
    {
      hide Pick, Mapped, LevelOk, SideOk;
      ResizeKeeps(orders, action, i, o);
      var s': seq<Order> := orders[i := o];
      assert forall k | 0 <= k < |orders| :: s'[k].price == orders[k].price && s'[k].orderId == orders[k].orderId;
      forall q: int | q in buckets ensures AtPrice(s', q) {
        var j :| 0 <= j < |orders| && orders[j].price == q;
        assert s'[j].price == q;
      }
    }

    /** The bucket after the in-place reduction of the order at position i. */
    twostate lemma ReducedBucket(new i: nat, new reduceBy: int)
      requires old(Loose()) && i < old(|list|) && unchanged(this)
      requires orders[i].price in buckets && old(allocated(buckets[orders[i].price])) && old(allocated(list[i]))
      requires old(LevelOk(orders[i].price))
      requires var b := buckets[orders[i].price];
               var o' := orders[i].(size := orders[i].size - reduceBy);
               && b.orderList == old(b.orderList) && b.orderMap == old(b.orderMap)
                  && b.totalVolume == old(b.totalVolume) - reduceBy
               && Rank(orders, i) < old(|b.orders|) && b.orders == old(b.orders)[Rank(orders, i) := o']
               && (forall x: RestingOrder <- b.orderList ::
                     old(allocated(x)) && (x != list[i] ==> x.Value() == old(x.Value())))
               && list[i].Value() == o' && old(b.orderList[Rank(orders, i)]) == list[i]
                  && old(b.orders[Rank(orders, i)]) == orders[i]
      ensures var r := Rank(orders, i);
              var o' := orders[i].(size := orders[i].size - reduceBy);
              && r < |Pick(list, orders, orders[i].price)| && r < |Pick(orders, orders, orders[i].price)|
              && HoldsLevel(buckets[orders[i].price], Pick(list, orders, orders[i].price),
                            Pick(orders, orders, orders[i].price)[r := o'])
    {
      hide Pick, SideOk, Rank, Mapped, Volume;
      ghost var b, r := buckets[orders[i].price], Rank(orders, i);
      ghost var o' := orders[i].(size := orders[i].size - reduceBy);
      assert old(b.Valid());
      VolumeReplacedAt(old(b.orders), r, o');
      MappedReplaced(b.orderMap, b.orderList, old(b.orders), r, o');
      forall k: int | 0 <= k < |b.orderList| ensures b.orderList[k].Value() == b.orders[k] {
        assert old(b.orderList[k].Value() == b.orders[k]) && (k != r ==> b.orderList[k] != b.orderList[r]);
      }
      assert DistinctIds(b.orders) by {
        assert forall k | 0 <= k < |b.orders| :: b.orders[k].orderId == old(b.orders)[k].orderId;
      }
    }

    lemma ReducedLevels(i: nat, o: Order)
      requires |list| == |orders| && i < |list| && o.price == orders[i].price && o.price in buckets
               && buckets[o.price].price == o.price
      requires forall q: int <- buckets :: q != o.price ==> LevelOk(q)
      requires Rank(orders, i) < |Pick(orders, orders, o.price)|
      requires HoldsLevel(buckets[o.price], Pick(list, orders, o.price),
                          Pick(orders, orders, o.price)[Rank(orders, i) := o])
      ensures forall q: int <- buckets :: LevelHolds(q, list, orders[i := o])
    {
      hide Pick, SideOk, HoldsLevel, Rank;
      forall q: int | q in buckets ensures LevelHolds(q, list, orders[i := o]) {
        PickReplaced(orders, orders, i, o, o, q);
        PickSamePrices(list, orders, orders[i := o], q);
        assert q != o.price ==> LevelOk(q);
      }
    }

    // ----- Matching -----

    /** The best of some prices: the next one in the map's order. */
    method BestPrice(prices: set<int>) returns (price: int)
      requires prices != {}
      ensures price in prices && forall q: int <- prices :: !Better(action, q, price)
    {
      HasElement(prices);
      price :| price in prices;
      var rest := prices - {price};
      while rest != {}
        invariant price in prices && rest <= prices && forall q: int <- prices :: q in rest || !Better(action, q, price)
        decreases |rest|
      {
        HasElement(rest);
        var next: int :| next in rest;
        if Better(action, next, price) {
          price := next;
        }
        rest := rest - {next};
      }
    }

    /** Matches one bucket; with nothing left to collect it does nothing. */
    method MatchBucket(price: int, need: int, takerReserve: int)
      returns (events: seq<Event>, volume: int, ordersToRemove: seq<int>)
      requires Loose() && price in buckets && 0 <= need
      requires 0 < need ==>
                 AtPrice(orders, price) && forall i | 0 <= i < |orders| :: !Better(action, orders[i].price, price)
      modifies Repr
      ensures Loose() && unchanged(`buckets, `Repr)
      ensures buckets[price].price == price && buckets[price].totalVolume == VolumeAt(orders, price)
      ensures need == 0 ==> events == [] && volume == 0 && ordersToRemove == [] && unchanged(`list, `orders)
      ensures 0 < need ==>
                var n := CountAt(old(orders), price);
                var m := Match(old(orders)[..n], action, None, need, takerReserve);
                && |m.rest| <= n <= |old(orders)|
                && orders == m.rest + old(orders)[n..] && list == old(list)[n - |m.rest|..]
                && events == m.events && volume == need - m.left && ordersToRemove == Ids(old(orders)[..n - |m.rest|])
    {
      hide Pick, Mapped, SideOk, DistinctIds, Loose, OrdersBucket.Valid, Listing, LevelHolds, VolumeAt, CountAt, Match,
           AtPrice;
      if need == 0 {
        events, volume, ordersToRemove := MatchNothing(price, takerReserve);
      } else {
        events, volume, ordersToRemove := MatchFront(price, need, takerReserve);
      }
      BucketAt(price);
    }

    method MatchNothing(price: int, takerReserve: int)
      returns (events: seq<Event>, volume: int, ordersToRemove: seq<int>)
      requires Loose() && price in buckets
      modifies Repr
      ensures Loose() && unchanged(`buckets, `Repr, `list, `orders) && events == [] && volume == 0
              && ordersToRemove == []
    {
      hide Pick, Mapped, SideOk, DistinctIds, Loose, OrdersBucket.Valid, Listing, LevelHolds, VolumeAt, CountAt, Match;
      LooseIs();
      BucketAt(price);
      var bucket := buckets[price];
      MatchStep(bucket.orders, action, None, 0, takerReserve);
      events, volume, ordersToRemove := bucket.Match(0, takerReserve, action);
      OthersKept(price);
      SameLevels(price);
      NoIds([]);
      Adopt(list, orders, Repr);
    }

    method MatchFront(price: int, need: int, takerReserve: int)
      returns (events: seq<Event>, volume: int, ordersToRemove: seq<int>)
      requires Loose() && price in buckets && 0 < need
      requires AtPrice(orders, price) && forall i | 0 <= i < |orders| :: !Better(action, orders[i].price, price)
      modifies Repr
      ensures Loose() && unchanged(`buckets, `Repr)
      ensures var n := CountAt(old(orders), price);
              var m := Match(old(orders)[..n], action, None, need, takerReserve);
              && |m.rest| <= n <= |old(orders)|
              && orders == m.rest + old(orders)[n..] && list == old(list)[n - |m.rest|..]
              && events == m.events && volume == need - m.left && ordersToRemove == Ids(old(orders)[..n - |m.rest|])
    {
      hide Pick, Mapped, SideOk, DistinctIds, Loose, OrdersBucket.Valid, Listing, LevelHolds, VolumeAt, CountAt, Match,
           AtPrice, Ids, Better, Live;
      LooseIs();
      BucketAt(price);
      var bucket := buckets[price];
      FrontLevel(list, orders, action, price);
      FrontLevel(orders, orders, action, price);
      ghost var n := CountAt(orders, price);
      ghost var m := Match(orders[..n], action, None, need, takerReserve);
      MatchedListing(price, n, m.rest, need, takerReserve);
      ghost var l', s' := list[n - |m.rest|..], m.rest + orders[n..];
      assert orders[..n][..n - |m.rest|] == orders[..n - |m.rest|];
      events, volume, ordersToRemove := bucket.Match(need, takerReserve, action);
      OthersKept(price);
      MatchedLevels(price, n, m.rest);
      Adopt(l', s', Repr);
    }

    lemma SameLevels(price: int)
      requires |list| == |orders| && price in buckets && buckets[price].price == price
      requires forall q: int <- buckets :: q != price ==> LevelOk(q)
      requires HoldsLevel(buckets[price], Pick(list, orders, price), Pick(orders, orders, price))
      ensures forall q: int <- buckets :: LevelHolds(q, list, orders)
    {
      hide Pick, HoldsLevel;
      forall q: int | q in buckets ensures LevelHolds(q, list, orders) {
        assert q != price ==> LevelOk(q);
      }
    }

    lemma MatchedListing(price: int, n: nat, rest: seq<Order>, need: nat, takerReserve: int)
      requires Loose() && n <= |orders| && rest == Match(orders[..n], action, None, need, takerReserve).rest
      requires forall i | 0 <= i < n :: orders[i].price == price
      ensures |rest| <= n && Listing(list[n - |rest|..], rest + orders[n..], Repr)
      ensures forall i | 0 <= i < |rest| :: rest[i].price == price
    {
      hide Pick, LevelOk, Match, Live;
      var level := orders[..n];
      assert forall i | 0 <= i < n :: Live(level[i], action);
      MatchSuffix(level, action, None, need, takerReserve);
      var s' := rest + orders[n..];
      forall i | 0 <= i < |s'|
        ensures s'[i].price == orders[n - |rest| + i].price && s'[i].orderId == orders[n - |rest| + i].orderId
                && Live(s'[i], action)
      {
        if i < |rest| {
          assert SameOrder(rest[i], level[n - |rest| + i]);
        } else {
          assert s'[i] == orders[n - |rest| + i];
        }
      }
      UniqueFrom(list, n - |rest|);
    }

    lemma MatchedLevels(price: int, n: nat, rest: seq<Order>)
      requires |list| == |orders| && |rest| <= n <= |orders| && price in buckets && buckets[price].price == price
      requires forall i | 0 <= i < |rest| :: rest[i].price == price
      requires forall i | n <= i < |orders| :: orders[i].price != price
      requires Pick(list, orders, price) == list[..n]
      requires forall q: int | q != price :: Pick(list, orders, q) == Pick(list[n..], orders[n..], q)
      requires forall q: int | q != price :: Pick(orders, orders, q) == Pick(orders[n..], orders[n..], q)
      requires forall q: int <- buckets :: q != price ==> LevelOk(q)
      requires HoldsLevel(buckets[price], list[..n][n - |rest|..], rest)
      ensures |list[n - |rest|..]| == |rest + orders[n..]|
              && forall q: int <- buckets :: LevelHolds(q, list[n - |rest|..], rest + orders[n..])
    {
      hide Pick, HoldsLevel;
      var l', s' := list[n - |rest|..], rest + orders[n..];
      assert l' == list[n - |rest|..n] + list[n..] && list[..n][n - |rest|..] == list[n - |rest|..n];
      forall q: int | q in buckets ensures LevelHolds(q, l', s') {
        PickConcat(list[n - |rest|..n], list[n..], rest, orders[n..], q);
        PickConcat(rest, orders[n..], rest, orders[n..], q);
        if q == price {
          PickAll(list[n - |rest|..n], rest, price);
          PickAll(rest, rest, price);
          PickNone(list[n..], orders[n..], price);
          PickNone(orders[n..], orders[n..], price);
          assert list[n - |rest|..n] + [] == list[n - |rest|..n] && rest + [] == rest;
        } else {
          PickNone(list[n - |rest|..n], rest, q);
          PickNone(rest, rest, q);
          assert [] + Pick(list[n..], orders[n..], q) == Pick(list[n..], orders[n..], q);
          assert [] + Pick(orders[n..], orders[n..], q) == Pick(orders[n..], orders[n..], q);
          assert LevelOk(q);
        }
      }
    }

    predicate ShouldContinue(price: int, limit: Option<int>) {
      limit.None? || (if action == ASK then price <= limit.value else limit.value <= price)
    }

    /** One round of the scan: the next bucket is matched with what the taker still wants. */
    method VisitBucket(price: int, sizeLeft: int, takerReserve: int, limit: Option<int>, ghost l0: seq<RestingOrder>,
                       ghost s0: seq<Order>, ghost need: int, ghost events: seq<Event>, ghost removed: seq<int>,
                       ghost rest: set<int>, ghost emptied: set<int>)
      returns (bucketEvents: seq<Event>, volume: int, ordersToRemove: seq<int>)
      requires Loose() && 0 <= sizeLeft && Scanning(buckets.Keys, orders, rest, emptied, sizeLeft)
      requires price in rest && (forall q: int <- rest :: !Better(action, q, price)) && ShouldContinue(price, limit)
      requires Progress(l0, s0, list, orders, action, limit, need, takerReserve, events, removed, sizeLeft)
      modifies Repr
      ensures Loose() && unchanged(`buckets, `Repr) && price in buckets && volume <= sizeLeft
      ensures Scanning(buckets.Keys, orders, rest - {price},
                       if buckets[price].totalVolume != 0 then emptied else emptied + {price}, sizeLeft - volume)
      ensures Progress(l0, s0, list, orders, action, limit, need, takerReserve, events + bucketEvents,
                       removed + ordersToRemove, sizeLeft - volume)
    {
      hide Loose, Match, AtPrice, Listing, LevelHolds, Ids, Scanning, Progress, SideOk, VolumeAt, CountAt, Live;
      ghost var l, s := list, orders;
      Visiting(rest, emptied, sizeLeft, price);
      bucketEvents, volume, ordersToRemove := MatchBucket(price, sizeLeft, takerReserve);
      VisitedScan(s, orders, action, buckets.Keys, rest, emptied, sizeLeft, price, takerReserve, sizeLeft - volume);
      VisitedProgress(l0, s0, l, s, list, orders, action, limit, need, takerReserve, events, removed, sizeLeft, price,
                      bucketEvents, volume, ordersToRemove);
      VolumeIsPositive(orders, action, price);
    }

    /** Matches bucket by bucket from the best price on while the price is within the limit, then erases the emptied
        ones. */
    method MatchSide(limit: Option<int>, need: int, takerReserve: int)
      returns (events: seq<Event>, filled: int, removed: seq<int>)
      requires Valid() && 0 <= need
      modifies Repr
      ensures Valid() && unchanged(`Repr)
      ensures var m := Match(old(orders), action, limit, need, takerReserve);
              && orders == m.rest && events == m.events && filled == need - m.left
              && |orders| <= |old(orders)| && list == old(list)[|old(orders)| - |orders|..]
              && removed == Ids(old(orders)[..|old(orders)| - |orders|])
    {
      hide Loose, Match, AtPrice, Listing, LevelHolds, Ids, Scanning, Progress, SideOk, VolumeAt, CountAt, Live;
      ghost var s0, l0 := orders, list;
      var rest, sizeLeft := buckets.Keys, need;
      var emptyBuckets: set<int> := {};
      events, filled, removed := [], 0, [];
      StartScan(l0, s0, limit, need, takerReserve);
      while rest != {}
        invariant Loose() && unchanged(`Repr, `buckets) && 0 <= sizeLeft && filled == need - sizeLeft
        invariant Scanning(buckets.Keys, orders, rest, emptyBuckets, sizeLeft)
        invariant Progress(l0, s0, list, orders, action, limit, need, takerReserve, events, removed, sizeLeft)
        decreases |rest|
      {
        var bucketPrice := BestPrice(rest);
        if !ShouldContinue(bucketPrice, limit) {
          PastLimit(rest, emptyBuckets, sizeLeft, bucketPrice, limit);
          break;
        }
        var bucketEvents, volume, ordersToRemove :=
            VisitBucket(bucketPrice, sizeLeft, takerReserve, limit, l0, s0, need, events, removed, rest, emptyBuckets);
        removed := removed + ordersToRemove;
        filled := filled + volume;
        events := events + bucketEvents;
        if buckets[bucketPrice].totalVolume == 0 {
          emptyBuckets := emptyBuckets + {bucketPrice};
        }
        sizeLeft := sizeLeft - volume;
        rest := rest - {bucketPrice};
      }
      assert !(0 < sizeLeft && orders != [] && Crosses(action, orders[0].price, limit)) by {
        ScanEnded(rest, emptyBuckets, sizeLeft, limit);
      }
      EraseAll(emptyBuckets, rest, sizeLeft);
      ProgressDone(l0, s0, list, orders, action, limit, need, takerReserve, events, removed, sizeLeft);
    }

    lemma StartScan(l0: seq<RestingOrder>, s0: seq<Order>, limit: Option<int>, need: nat, takerReserve: int)
      requires Valid() && l0 == list && s0 == orders
      ensures Loose() && Scanning(buckets.Keys, orders, buckets.Keys, {}, need)
      ensures Progress(l0, s0, list, orders, action, limit, need, takerReserve, [], [], need)
    {
      hide Match, Ids, LevelOk;
      NoIds(s0[..0]);
      assert l0[0..] == l0;
      assert [] + Match(s0, action, limit, need, takerReserve).events
             == Match(s0, action, limit, need, takerReserve).events;
    }

    lemma Visiting(rest: set<int>, emptied: set<int>, need: int, price: int)
      requires Loose() && Scanning(buckets.Keys, orders, rest, emptied, need) && price in rest
               && forall q: int <- rest :: !Better(action, q, price)
      ensures price in buckets && AtPrice(orders, price)
              && (0 < need ==> forall i | 0 <= i < |orders| :: !Better(action, orders[i].price, price))
    {
      hide LevelOk, Listing;
    }

    lemma PastLimit(rest: set<int>, emptied: set<int>, need: int, price: int, limit: Option<int>)
      requires Loose() && Scanning(buckets.Keys, orders, rest, emptied, need) && price in rest
               && forall q: int <- rest :: !Better(action, q, price)
      requires !ShouldContinue(price, limit)
      ensures 0 < need && orders != [] ==> !Crosses(action, orders[0].price, limit)
    {
      hide LevelOk, Listing;
    }

    lemma ScanEnded(rest: set<int>, emptied: set<int>, need: int, limit: Option<int>)
      requires Scanning(buckets.Keys, orders, rest, emptied, need)
      requires rest == {} || (0 < need && orders != [] ==> !Crosses(action, orders[0].price, limit))
      ensures !(0 < need && orders != [] && Crosses(action, orders[0].price, limit))
    {
    }

    /** Erases the prices at which nothing rests any more. */
    method EraseAll(prices: set<int>, ghost rest: set<int>, ghost need: int)
      requires Loose() && Scanning(buckets.Keys, orders, rest, prices, need)
      modifies `buckets
      ensures Valid()
    {
      hide LevelHolds, AtPrice, SideOk;
      LooseIs();
      ghost var before := buckets;
      assert forall q: int <- buckets ::
               buckets[q].price == q && HoldsLevel(buckets[q], Pick(list, orders, q), Pick(orders, orders, q)) by {
        AllLevels();
      }
      Standing();
      buckets := buckets - prices;
      assert forall q: int <- buckets :: q in before && buckets[q] == before[q];
      assert forall q: int <- buckets :: LevelHolds(q, list, orders) by { IsLevels(); }
      IsLoose();
    }

    lemma AllLevels()
      requires |list| == |orders| && forall q: int <- buckets :: LevelHolds(q, list, orders)
      ensures forall q: int <- buckets ::
                buckets[q].price == q && HoldsLevel(buckets[q], Pick(list, orders, q), Pick(orders, orders, q))
    {
    }

    lemma IsLevels()
      requires |list| == |orders|
               && forall q: int <- buckets ::
                    buckets[q].price == q && HoldsLevel(buckets[q], Pick(list, orders, q), Pick(orders, orders, q))
      ensures forall q: int <- buckets :: LevelHolds(q, list, orders)
    {
    }

    lemma Standing()
      ensures forall i | 0 <= i < |orders| :: AtPrice(orders, orders[i].price)
    {
    }

    // ----- Cost and market data -----

    /** Whether `size` can be filled from this side, and at what cost. */
    method CheckBudgetToFill(size: int) returns (found: bool, budgetOut: int)
      requires Valid()
      ensures found <==> Budget(orders, size).Some?
      ensures found ==> budgetOut == Budget(orders, size).value
    {
      hide Budget, Loose, Valid, VolumeAt, CountAt, AtPrice, SideOk;
      var rest, budget, remainingSize := buckets.Keys, 0, size;
      ghost var s := orders;
      found, budgetOut := false, 0;
      PricesAre();
      while rest != {}
        invariant rest <= buckets.Keys && SideOk(s, action)
        invariant !found ==> forall q: int :: q in rest <==> AtPrice(s, q)
        invariant !found ==> forall q: int <- rest :: VolumeAt(s, q) == VolumeAt(orders, q)
        invariant !found ==> Budget(orders, size) == AddCost(budget, Budget(s, remainingSize))
        invariant found ==> Budget(orders, size) == Some(budgetOut)
        decreases |rest|
      {
        var price := BestPrice(rest);
        if !found {
          BucketAt(price);
          Standing();
          var availableSize := buckets[price].totalVolume;
          assert forall i | 0 <= i < |s| :: !Better(action, s[i].price, price) by { SuffixStanding(s); }
          BudgetFront(s, action, price, remainingSize);
          s := s[CountAt(s, price)..];
          if remainingSize > availableSize {
            remainingSize := remainingSize - availableSize;
            budget := budget + availableSize * price;
          } else {
            budgetOut := budget + remainingSize * price;
            found := true;
          }
        }
        rest := rest - {price};
      }
      if !found {
        FirstStands(s);
        assert s == [];
        BudgetEmpty(s, remainingSize);
      }
    }

    lemma SuffixStanding(s: seq<Order>)
      ensures forall i | 0 <= i < |s| :: AtPrice(s, s[i].price)
    {
    }

    lemma FirstStands(s: seq<Order>)
      ensures s != [] ==> AtPrice(s, s[0].price)
    {
    }

    lemma PricesAre()
      requires Valid()
      ensures Loose() && forall q: int :: q in buckets <==> AtPrice(orders, q)
    {
      hide LevelOk;
    }

    /** Market data: the first `size` levels, best price first. */
    method FillLevels(size: nat) returns (rows: seq<(int, Level)>)
      requires Valid()
      ensures First(Levels(orders), rows, size, action == BID)
    {
      hide Loose, Valid, VolumeAt, CountAt, AtPrice, SideOk, Levels;
      rows := [];
      var rest := buckets.Keys;
      PricesAre();
      ghost var m := Levels(orders);
      while rest != {} && |rows| < size
        invariant rest <= buckets.Keys && |rows| <= size
        invariant EntriesOf(m, rows) && InOrder(rows, action == BID)
        invariant forall q: int <- m :: q in rest || Listed(rows, q)
        invariant forall i: nat, q: int | i < |rows| && q in rest :: Ahead(rows[i].0, q, action == BID)
        decreases |rest|
      {
        var price := BestPrice(rest);
        BucketAt(price);
        LevelAt(price);
        RowAdded(m, rows, rest, price, action == BID);
        rows := rows + [(price, Level(buckets[price].totalVolume, |buckets[price].orderList|))];
        rest := rest - {price};
      }
    }

    /** The best price left comes next. */
    lemma RowAdded(m: map<int, Level>, rows: seq<(int, Level)>, rest: set<int>, price: int, desc: bool)
      requires EntriesOf(m, rows) && InOrder(rows, desc) && price in rest && price in m
      requires forall q: int <- m :: q in rest || Listed(rows, q)
      requires forall i: nat, q: int | i < |rows| && q in rest :: Ahead(rows[i].0, q, desc)
      requires forall q: int <- rest | q != price :: Ahead(price, q, desc)
      ensures var more := rows + [(price, m[price])];
              && EntriesOf(m, more) && InOrder(more, desc)
              && (forall q: int <- m :: q in rest - {price} || Listed(more, q))
              && forall i: nat, q: int | i < |more| && q in rest - {price} :: Ahead(more[i].0, q, desc)
    {
      var more := rows + [(price, m[price])];
      StillListed(rows, more);
      assert more[|rows|].0 == price;
    }

    method TotalBuckets(limit: nat) returns (n: nat)
      requires Valid()
      ensures n == if |Levels(orders)| <= limit then |Levels(orders)| else limit
    {
      hide Loose, Valid, Levels, AtPrice;
      PricesAre();
      LevelCount(orders, buckets.Keys);
      n := Min(limit, |buckets|);
    }

    lemma LevelAt(price: int)
      requires Loose() && price in buckets
      ensures AtPrice(orders, price) ==>
                price in Levels(orders)
                    && Levels(orders)[price] == Level(buckets[price].totalVolume, |buckets[price].orderList|)
    {
      hide Pick, VolumeAt, AtPrice;
      BucketAt(price);
      PickLength(list, orders, price);
    }

    lemma StillListed(before: seq<(int, Level)>, rows: seq<(int, Level)>)
      requires before <= rows
      ensures forall q: int :: Listed(before, q) ==> Listed(rows, q)
    {
      forall q: int | Listed(before, q) ensures Listed(rows, q) {
        var i: nat :| i < |before| && before[i].0 == q;
        assert rows[i].0 == q;
      }
    }
  }
}
