/** The part of a side that rests at one price, in order. */
module BookPicks {
  import opened Wrappers
  import opened OrderTypes
  import opened BookSpec
  import opened BookFacts
  import opened BookLevels

  /** The elements of xs standing where the side's price is p. */
  function Pick<T>(xs: seq<T>, side: seq<Order>, p: int): seq<T>
    requires |xs| == |side|
  {
    if side == [] then [] else if side[0].price == p then [xs[0]] + Pick(xs[1..], side[1..], p)
    else Pick(xs[1..], side[1..], p)
  }

  lemma {:induction false} PickConcat<T>(xs: seq<T>, ys: seq<T>, a: seq<Order>, b: seq<Order>, p: int)
    requires |xs| == |a| && |ys| == |b|
    ensures Pick(xs + ys, a + b, p) == Pick(xs, a, p) + Pick(ys, b, p)
  {
    if a == [] {
      assert a + b == b && xs + ys == ys;
    } else {
      PickConcat(xs[1..], ys, a[1..], b, p);
      assert (a + b)[1..] == a[1..] + b && (xs + ys)[1..] == xs[1..] + ys;
      if a[0].price == p {
        assert [xs[0]] + (Pick(xs[1..], a[1..], p) + Pick(ys, b, p))
               == ([xs[0]] + Pick(xs[1..], a[1..], p)) + Pick(ys, b, p);
      }
    }
  }

  lemma PickOne<T>(x: T, o: Order, p: int)
    ensures Pick([x], [o], p) == if o.price == p then [x] else []
  {
    assert Pick([x][1..], [o][1..], p) == [];
  }

  lemma {:induction false} PickNone<T>(xs: seq<T>, side: seq<Order>, p: int)
    requires |xs| == |side| && forall i | 0 <= i < |side| :: side[i].price != p
    ensures Pick(xs, side, p) == []
  {
    if side != [] { PickNone(xs[1..], side[1..], p); }
  }

  lemma {:induction false} PickAll<T>(xs: seq<T>, side: seq<Order>, p: int)
    requires |xs| == |side| && forall i | 0 <= i < |side| :: side[i].price == p
    ensures Pick(xs, side, p) == xs
  {
    if side != [] { PickAll(xs[1..], side[1..], p); }
  }

  lemma {:induction false} PickLength<T>(xs: seq<T>, side: seq<Order>, p: int)
    requires |xs| == |side|
    ensures |Pick(xs, side, p)| == CountAt(side, p)
  {
    if side != [] { PickLength(xs[1..], side[1..], p); }
  }

  /** Only prices matter to what is picked. */
  lemma {:induction false} PickSamePrices<T>(xs: seq<T>, a: seq<Order>, b: seq<Order>, p: int)
    requires |xs| == |a| == |b| && forall i | 0 <= i < |a| :: a[i].price == b[i].price
    ensures Pick(xs, a, p) == Pick(xs, b, p)
  {
    if a != [] { PickSamePrices(xs[1..], a[1..], b[1..], p); }
  }

  lemma {:induction false} PickVolume(side: seq<Order>, p: int)
    ensures Volume(Pick(side, side, p)) == VolumeAt(side, p)
  {
    if side != [] {
      PickVolume(side[1..], p);
      if side[0].price == p { assert Pick(side, side, p)[1..] == Pick(side[1..], side[1..], p); }
    }
  }

  /** Position of the i-th order within its own level. */
  function Rank(side: seq<Order>, i: nat): nat
    requires i < |side|
  {
    CountAt(side[..i], side[i].price)
  }

  lemma PickAround<T>(xs: seq<T>, side: seq<Order>, i: nat, p: int)
    requires |xs| == |side| && i < |side|
    ensures Pick(xs, side, p)
            == Pick(xs[..i], side[..i], p) + (if side[i].price == p then [xs[i]] else [])
                + Pick(xs[i + 1..], side[i + 1..], p)
  {
    hide Pick;
    PickOne(xs[i], side[i], p);
    PickConcat([xs[i]], xs[i + 1..], [side[i]], side[i + 1..], p);
    PickConcat(xs[..i], [xs[i]] + xs[i + 1..], side[..i], [side[i]] + side[i + 1..], p);
    assert xs == xs[..i] + ([xs[i]] + xs[i + 1..]) && side == side[..i] + ([side[i]] + side[i + 1..]);
  }

  lemma RankAt<T>(xs: seq<T>, side: seq<Order>, i: nat)
    requires |xs| == |side| && i < |side|
    ensures Rank(side, i) < |Pick(xs, side, side[i].price)| && Pick(xs, side, side[i].price)[Rank(side, i)] == xs[i]
  {
    PickAround(xs, side, i, side[i].price);
    PickLength(xs[..i], side[..i], side[i].price);
  }

  lemma PickRemoved<T>(xs: seq<T>, side: seq<Order>, i: nat, p: int)
    requires |xs| == |side| && i < |side|
    ensures Rank(side, i) < |Pick(xs, side, side[i].price)|
    ensures Pick(RemoveAt(xs, i), RemoveAt(side, i), p)
         == if side[i].price == p then RemoveAt(Pick(xs, side, p), Rank(side, i)) else Pick(xs, side, p)
  {
    hide Pick;
    RankAt(xs, side, i);
    PickAround(xs, side, i, p);
    PickConcat(xs[..i], xs[i + 1..], side[..i], side[i + 1..], p);
    PickLength(xs[..i], side[..i], p);
  }

  lemma PickReplaced<T>(xs: seq<T>, side: seq<Order>, i: nat, x: T, o: Order, p: int)
    requires |xs| == |side| && i < |side| && o.price == side[i].price
    ensures Rank(side, i) < |Pick(xs, side, side[i].price)|
    ensures Pick(xs[i := x], side[i := o], p) == if o.price == p then Pick(xs, side, p)[Rank(side, i) := x]
            else Pick(xs, side, p)
  {
    hide Pick;
    RankAt(xs, side, i);
    PickAround(xs, side, i, p);
    PickAround(xs[i := x], side[i := o], i, p);
    PickLength(xs[..i], side[..i], p);
    assert xs[i := x][..i] == xs[..i] && xs[i := x][i + 1..] == xs[i + 1..];
    assert side[i := o][..i] == side[..i] && side[i := o][i + 1..] == side[i + 1..];
  }

  /** A new order is the last of its level. */
  lemma PickInserted<T>(xs: seq<T>, side: seq<Order>, x: T, o: Order, p: int)
    requires |xs| == |side| && SideOk(side, o.action)
    ensures var k := Place(side, o.action, o.price);
            Pick(InsertAt(xs, k, x), InsertAt(side, k, o), p) == Pick(xs, side, p) + if o.price == p then [x] else []
  {
    hide Pick;
    var k := Place(side, o.action, o.price);
    PlaceIsAfterTail(side, o.action, o.price);
    PickConcat(xs[..k], xs[k..], side[..k], side[k..], p);
    PickOne(x, o, p);
    PickConcat(xs[..k] + [x], xs[k..], side[..k] + [o], side[k..], p);
    PickConcat(xs[..k], [x], side[..k], [o], p);
    assert xs == xs[..k] + xs[k..] && side == side[..k] + side[k..];
    if o.price == p {
      assert forall i | 0 <= i < |side[k..]| :: side[k..][i].price != p;
      PickNone(xs[k..], side[k..], p);
    }
  }

  /** The best level stands at the front. */
  lemma FrontLevel<T>(xs: seq<T>, side: seq<Order>, action: OrderAction, p: int)
    requires |xs| == |side| && SideOk(side, action) && AtPrice(side, p)
             && forall i | 0 <= i < |side| :: !Better(action, side[i].price, p)
    ensures var n := CountAt(side, p);
            && n <= |side| && Pick(xs, side, p) == xs[..n] && (forall i | 0 <= i < n :: side[i].price == p)
            && (forall i | n <= i < |side| :: side[i].price != p)
    ensures forall q: int | q != p :: Pick(xs, side, q) == Pick(xs[CountAt(side, p)..], side[CountAt(side, p)..], q)
  {
    hide Pick, CountAt;
    FrontIsLevel(side, action, p);
    var n := TailOf(side, 0) + 1;
    assert side == side[..n] + side[n..] && xs == xs[..n] + xs[n..];
    VolumeConcat(side[..n], side[n..], p);
    CountWhole(side[..n], p);
    CountAbsent(side[n..], p);
    PickConcat(xs[..n], xs[n..], side[..n], side[n..], p);
    PickAll(xs[..n], side[..n], p);
    PickNone(xs[n..], side[n..], p);
    forall q: int | q != p ensures Pick(xs, side, q) == Pick(xs[n..], side[n..], q) {
      PickConcat(xs[..n], xs[n..], side[..n], side[n..], q);
      PickNone(xs[..n], side[..n], q);
    }
  }

  lemma FrontIsLevel(side: seq<Order>, action: OrderAction, p: int)
    requires SideOk(side, action) && AtPrice(side, p) && forall i | 0 <= i < |side| :: !Better(action, side[i].price, p)
    ensures side != []
    ensures forall i | 0 <= i <= TailOf(side, 0) :: side[i].price == p
    ensures forall i | TailOf(side, 0) < i < |side| :: side[i].price != p
  {
    var k :| 0 <= k < |side| && side[k].price == p;
    assert k == 0 || !Better(action, side[k].price, side[0].price);
    assert side[0].price == p;
    AfterTail(side, action, TailOf(side, 0));
    forall i | 0 <= i <= TailOf(side, 0) ensures side[i].price == p { WithinLevel(side, 0, i); }
  }

  lemma {:induction false} CountWhole(side: seq<Order>, p: int)
    requires forall i | 0 <= i < |side| :: side[i].price == p
    ensures CountAt(side, p) == |side|
  {
    if side != [] { CountWhole(side[1..], p); }
  }

  lemma {:induction false} CountAbsent(side: seq<Order>, p: int)
    requires forall i | 0 <= i < |side| :: side[i].price != p
    ensures CountAt(side, p) == 0
  {
    if side != [] { CountAbsent(side[1..], p); }
  }

  /** Matching level by level is matching the whole: the first level is matched without a limit, the rest with what is
      left. */
  lemma {:induction false} MatchLevel(level: seq<Order>, others: seq<Order>, makerSide: OrderAction, limit: Option<int>,
                                      need: nat, reserve: int)
    requires forall i | 0 <= i < |level| :: Live(level[i], makerSide) && Crosses(makerSide, level[i].price, limit)
    ensures var m := Match(level, makerSide, None, need, reserve);
            && (0 < m.left ==> m.rest == []) && 0 <= m.left
            && Match(level + others, makerSide, limit, need, reserve)
               == (var r := Match(m.rest + others, makerSide, limit, m.left, reserve);
                   Matching(r.rest, m.events + r.events, r.left))
    decreases |level|
  {
    hide Match;
    MatchStep(level, makerSide, None, need, reserve);
    MatchStep(level + others, makerSide, limit, need, reserve);
    if level == [] {
      assert level + others == others;
      assert Match(others, makerSide, limit, need, reserve).events
             == [] + Match(others, makerSide, limit, need, reserve).events;
    } else if 0 < need {
      var v := Min(need, level[0].Remaining());
      var e := TradeEvent(level[0], makerSide, need, reserve);
      assert (level + others)[1..] == level[1..] + others;
      if v == level[0].Remaining() {
        MatchLevel(level[1..], others, makerSide, limit, need - v, reserve);
        var m1 := Match(level[1..], makerSide, None, need - v, reserve);
        var r1 := Match(m1.rest + others, makerSide, limit, m1.left, reserve);
        assert [e] + (m1.events + r1.events) == ([e] + m1.events) + r1.events;
      } else {
        var rest := [level[0].(filled := level[0].filled + v)] + level[1..];
        MatchStep(rest + others, makerSide, limit, 0, reserve);
        assert rest + others == [level[0].(filled := level[0].filled + v)] + (level[1..] + others);
        assert [e] + [] == [e];
      }
    } else {
      assert [] + Match(level + others, makerSide, limit, need, reserve).events == [];
    }
  }
}
