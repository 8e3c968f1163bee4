/** Properties of the order book's specification, for every book and every command. */
module BookFacts {
  import opened Wrappers
  import opened OrderTypes
  import opened Keys
  import opened BookSpec

  // ----- Inserting and removing -----

  lemma {:induction false} PlaceSplits(side: seq<Order>, action: OrderAction, price: int)
    requires Ranked(side, action)
    ensures var p := Place(side, action, price);
            && (forall i | 0 <= i < p :: !Better(action, price, side[i].price))
            && (forall i | p <= i < |side| :: Better(action, price, side[i].price))
  {
    if side != [] && !Better(action, price, side[0].price) {
      PlaceSplits(side[1..], action, price);
    }
  }

  lemma InsertKeeps(side: seq<Order>, o: Order)
    requires SideOk(side, o.action) && Live(o, o.action)
    ensures SideOk(Insert(side, o), o.action) && |Insert(side, o)| == |side| + 1
    ensures DistinctIds(side) && (forall i | 0 <= i < |side| :: side[i].orderId != o.orderId) ==>
              DistinctIds(Insert(side, o))
    ensures forall i | 0 <= i < |Insert(side, o)| :: Insert(side, o)[i] == o || Insert(side, o)[i] in side
  {
    hide Live, Place;
    var p := Place(side, o.action, o.price);
    PlaceSplits(side, o.action, o.price);
    InsertedAt(side, p, o);
    InsertRanked(side, p, o);
  }

  lemma InsertedAt<T>(s: seq<T>, p: nat, x: T)
    requires p <= |s|
    ensures |InsertAt(s, p, x)| == |s| + 1
    ensures forall i | 0 <= i <= |s| :: InsertAt(s, p, x)[i] == if i < p then s[i] else if i == p then x else s[i - 1]
  {
  }

  lemma InsertRanked(side: seq<Order>, p: nat, o: Order)
    requires Ranked(side, o.action) && p <= |side|
    requires (forall i | 0 <= i < p :: !Better(o.action, o.price, side[i].price))
             && (forall i | p <= i < |side| :: Better(o.action, o.price, side[i].price))
    ensures Ranked(InsertAt(side, p, o), o.action)
  {
    InsertedAt(side, p, o);
  }

  lemma RemoveKeeps(side: seq<Order>, action: OrderAction, i: nat)
    requires SideOk(side, action) && i < |side|
    ensures SideOk(RemoveAt(side, i), action)
    ensures DistinctIds(side) ==>
              DistinctIds(RemoveAt(side, i))
                  && forall j | 0 <= j < |side| - 1 :: RemoveAt(side, i)[j].orderId != side[i].orderId
    ensures forall j | 0 <= j < |side| - 1 :: RemoveAt(side, i)[j] in side
  {
  }

  lemma FindIs(side: seq<Order>, i: nat)
    requires DistinctIds(side) && i < |side|
    ensures Find(side, side[i].orderId) == i
  {
    var f := Find(side, side[i].orderId);
    assert !(i < f);
  }

  // ----- Matching: price-time priority and maximality -----

  function Traded(events: seq<Event>): int {
    if events == [] then 0 else events[0].size + Traded(events[1..])
  }

  function Volume(side: seq<Order>): int {
    if side == [] then 0 else side[0].Remaining() + Volume(side[1..])
  }

  /** e is a trade with this maker, at the maker's price, for no more than the maker has left. */
  ghost predicate TradeOf(maker: Order, makerSide: OrderAction, takerReserve: int, e: Event) {
    && e.Trade? && 0 < e.size <= maker.Remaining()
    && e.makerId == maker.orderId && e.makerUid == maker.uid
    && e.price == maker.price && e.bidderHoldPrice == HoldPrice(makerSide, takerReserve, maker)
    && (e.makerCompleted <==> e.size == maker.Remaining())
  }

  /** The makers not consumed, the last one traded with its remaining size reduced. */
  ghost function Leftover(makers: seq<Order>, events: seq<Event>): seq<Order>
    requires |events| <= |makers|
  {
    var n := |events|;
    if 0 < n && events[n - 1].Trade? && !events[n - 1].makerCompleted
    then [makers[n - 1].(filled := makers[n - 1].filled + events[n - 1].size)] + makers[n..]
    else makers[n..]
  }

  /** The trades consume a prefix of the makers: all but the last maker fully, each at its own price. */
  ghost predicate ConsumesPrefix(makers: seq<Order>, makerSide: OrderAction, takerReserve: int, r: Matching) {
    var n := |r.events|;
    && n <= |makers|
    && (forall i | 0 <= i < n :: TradeOf(makers[i], makerSide, takerReserve, r.events[i]))
    && (forall i | 0 <= i < n - 1 :: r.events[i].Trade? && r.events[i].makerCompleted && !r.events[i].takerCompleted)
    && (0 < n ==> r.events[n - 1].Trade? && (r.events[n - 1].takerCompleted <==> r.left == 0))
    && r.rest == Leftover(makers, r.events)
  }

  lemma ConsumesOneMore(maker: Order, makers: seq<Order>, makerSide: OrderAction, takerReserve: int, e: Event,
                        r: Matching)
    requires ConsumesPrefix(makers, makerSide, takerReserve, r) && TradeOf(maker, makerSide, takerReserve, e)
             && e.makerCompleted
    requires if r.events == [] then e.takerCompleted <==> r.left == 0 else !e.takerCompleted
    ensures ConsumesPrefix([maker] + makers, makerSide, takerReserve, r.(events := [e] + r.events))
  {
    hide TradeOf;
    var events, all := [e] + r.events, [maker] + makers;
    assert e.Trade? by { TradeOfIs(maker, makerSide, takerReserve, e); }
    forall i | 0 <= i < |events| ensures TradeOf(all[i], makerSide, takerReserve, events[i]) {
      if 0 < i { assert all[i] == makers[i - 1] && events[i] == r.events[i - 1]; }
    }
    forall i | 0 <= i < |events| - 1 ensures events[i].Trade? && events[i].makerCompleted && !events[i].takerCompleted {
      if 0 < i { assert events[i] == r.events[i - 1]; }
    }
    assert all[|events|..] == makers[|r.events|..];
    assert events[|events| - 1] == if r.events == [] then e else r.events[|r.events| - 1];
  }

  lemma TradeOfIs(maker: Order, makerSide: OrderAction, takerReserve: int, e: Event)
    requires TradeOf(maker, makerSide, takerReserve, e)
    ensures e.Trade? && 0 < e.size <= maker.Remaining() && e.price == maker.price
    ensures e.makerId == maker.orderId && e.makerUid == maker.uid
            && e.bidderHoldPrice == HoldPrice(makerSide, takerReserve, maker)
    ensures e.makerCompleted <==> e.size == maker.Remaining()
  {
  }

  /** One step of matching: stop, consume the first maker, or fill it partially. */
  lemma MatchStep(makers: seq<Order>, makerSide: OrderAction, limit: Option<int>, need: nat, takerReserve: int)
    ensures var r := Match(makers, makerSide, limit, need, takerReserve);
            if need == 0 || makers == [] || !Crosses(makerSide, makers[0].price, limit)
            then r == Matching(makers, [], need)
            else
              var v := Min(need, makers[0].Remaining());
              var e := TradeEvent(makers[0], makerSide, need, takerReserve);
              if v == makers[0].Remaining() then
                var r1 := Match(makers[1..], makerSide, limit, need - v, takerReserve);
                r == Matching(r1.rest, [e] + r1.events, r1.left)
              else r == Matching([makers[0].(filled := makers[0].filled + v)] + makers[1..], [e], need - v)
  {
  }

  lemma {:induction false} MatchConsumesPrefix(makers: seq<Order>, makerSide: OrderAction, limit: Option<int>,
                                               need: nat, takerReserve: int)
    requires forall i | 0 <= i < |makers| :: Live(makers[i], makerSide)
    ensures ConsumesPrefix(makers, makerSide, takerReserve, Match(makers, makerSide, limit, need, takerReserve))
    decreases |makers|
  {
    hide Match, ConsumesPrefix;
    MatchStep(makers, makerSide, limit, need, takerReserve);
    if need == 0 || makers == [] || !Crosses(makerSide, makers[0].price, limit) {
      ConsumesNone(makers, makerSide, takerReserve, need);
    } else {
      var v := Min(need, makers[0].Remaining());
      var e := TradeEvent(makers[0], makerSide, need, takerReserve);
      if v == makers[0].Remaining() {
        MatchConsumesPrefix(makers[1..], makerSide, limit, need - v, takerReserve);
        MatchLeft(makers[1..], makerSide, limit, need - v, takerReserve);
        ConsumesOneMore(makers[0], makers[1..], makerSide, takerReserve, e,
                        Match(makers[1..], makerSide, limit, need - v, takerReserve));
        assert makers == [makers[0]] + makers[1..];
      } else {
        ConsumesPart(makers, makerSide, takerReserve, need);
      }
    }
  }

  lemma ConsumesNone(makers: seq<Order>, makerSide: OrderAction, takerReserve: int, need: nat)
    ensures ConsumesPrefix(makers, makerSide, takerReserve, Matching(makers, [], need))
  {
  }

  lemma ConsumesPart(makers: seq<Order>, makerSide: OrderAction, takerReserve: int, need: nat)
    requires makers != [] && 0 < need < makers[0].Remaining()
    ensures var e := TradeEvent(makers[0], makerSide, need, takerReserve);
            ConsumesPrefix(makers, makerSide, takerReserve,
                           Matching([makers[0].(filled := makers[0].filled + need)] + makers[1..], [e], 0))
  {
  }

  lemma {:induction false} MatchLeft(makers: seq<Order>, makerSide: OrderAction, limit: Option<int>, need: nat,
                                     takerReserve: int)
    requires forall i | 0 <= i < |makers| :: Live(makers[i], makerSide)
    ensures 0 <= Match(makers, makerSide, limit, need, takerReserve).left <= need
    ensures need == 0 ==> Match(makers, makerSide, limit, need, takerReserve).events == []
    ensures 0 < need && Match(makers, makerSide, limit, need, takerReserve).left == 0 ==>
              Match(makers, makerSide, limit, need, takerReserve).events != []
    decreases |makers|
  {
    if 0 < need && makers != [] && Crosses(makerSide, makers[0].price, limit) {
      var v := Min(need, makers[0].Remaining());
      if v == makers[0].Remaining() {
        MatchLeft(makers[1..], makerSide, limit, need - v, takerReserve);
      }
    }
  }

  /** Every unit the taker asked for is traded or left. */
  lemma {:induction false} MatchAccounts(makers: seq<Order>, makerSide: OrderAction, limit: Option<int>, need: nat,
                                         takerReserve: int)
    requires forall i | 0 <= i < |makers| :: Live(makers[i], makerSide)
    ensures var r := Match(makers, makerSide, limit, need, takerReserve);
            r.left + Traded(r.events) == need
    decreases |makers|
  {
    var r := Match(makers, makerSide, limit, need, takerReserve);
    if 0 < need && makers != [] && Crosses(makerSide, makers[0].price, limit) {
      var v := Min(need, makers[0].Remaining());
      if v == makers[0].Remaining() {
        MatchAccounts(makers[1..], makerSide, limit, need - v, takerReserve);
        assert r.events[1..] == Match(makers[1..], makerSide, limit, need - v, takerReserve).events;
      } else {
        assert Traded(r.events[1..]) == 0;
      }
    }
  }

  /** Every maker traded with is within the taker's limit. */
  lemma {:induction false} MatchWithinLimit(makers: seq<Order>, makerSide: OrderAction, limit: Option<int>, need: nat,
                                            takerReserve: int)
    ensures var r := Match(makers, makerSide, limit, need, takerReserve);
            |r.events| <= |makers| && forall i | 0 <= i < |r.events| :: Crosses(makerSide, makers[i].price, limit)
    decreases |makers|
  {
    if 0 < need && makers != [] && Crosses(makerSide, makers[0].price, limit) {
      var v := Min(need, makers[0].Remaining());
      if v == makers[0].Remaining() {
        MatchWithinLimit(makers[1..], makerSide, limit, need - v, takerReserve);
        var n := |Match(makers[1..], makerSide, limit, need - v, takerReserve).events|;
        forall i | 0 < i < n + 1 ensures Crosses(makerSide, makers[i].price, limit) {
          assert makers[i] == makers[1..][i - 1];
        }
      }
    }
  }

  /** If the taker is left with something, no remaining maker crosses its limit. */
  lemma {:induction false} MatchIsMaximal(makers: seq<Order>, makerSide: OrderAction, limit: Option<int>, need: nat,
                                          takerReserve: int)
    requires SideOk(makers, makerSide) && 0 < Match(makers, makerSide, limit, need, takerReserve).left
    ensures forall i | 0 <= i < |Match(makers, makerSide, limit, need, takerReserve).rest| ::
              !Crosses(makerSide, Match(makers, makerSide, limit, need, takerReserve).rest[i].price, limit)
    decreases |makers|
  {
    if 0 < need && makers != [] && Crosses(makerSide, makers[0].price, limit) {
      var v := Min(need, makers[0].Remaining());
      assert v == makers[0].Remaining();
      assert SideOk(makers[1..], makerSide);
      MatchIsMaximal(makers[1..], makerSide, limit, need - v, takerReserve);
    }
  }

  /** What is taken from the makers is what is traded. */
  lemma {:induction false} MatchConserves(makers: seq<Order>, makerSide: OrderAction, limit: Option<int>, need: nat,
                                          takerReserve: int)
    requires forall i | 0 <= i < |makers| :: Live(makers[i], makerSide)
    ensures var r := Match(makers, makerSide, limit, need, takerReserve);
            Volume(makers) == Volume(r.rest) + need - r.left
    decreases |makers|
  {
    if 0 < need && makers != [] && Crosses(makerSide, makers[0].price, limit) {
      var v := Min(need, makers[0].Remaining());
      if v == makers[0].Remaining() {
        MatchConserves(makers[1..], makerSide, limit, need - v, takerReserve);
      } else {
        var r := Match(makers, makerSide, limit, need, takerReserve);
        assert r.rest[1..] == makers[1..];
      }
    }
  }

  predicate SameOrder(a: Order, b: Order) {
    a == b.(filled := a.filled)
  }

  /** The remaining makers are the last ones, the first of them possibly filled further. */
  lemma MatchSuffix(makers: seq<Order>, makerSide: OrderAction, limit: Option<int>, need: nat, takerReserve: int)
    requires forall i | 0 <= i < |makers| :: Live(makers[i], makerSide)
    ensures var rest := Match(makers, makerSide, limit, need, takerReserve).rest;
            && |rest| <= |makers|
            && (forall i | 0 <= i < |rest| ::
                  SameOrder(rest[i], makers[|makers| - |rest| + i]) && Live(rest[i], makerSide))
  {
    hide Match;
    MatchConsumesPrefix(makers, makerSide, limit, need, takerReserve);
    var r := Match(makers, makerSide, limit, need, takerReserve);
    LeftoverSuffix(makers, makerSide, takerReserve, r);
  }

  lemma LeftoverSuffix(makers: seq<Order>, makerSide: OrderAction, takerReserve: int, r: Matching)
    requires (forall i | 0 <= i < |makers| :: Live(makers[i], makerSide))
             && ConsumesPrefix(makers, makerSide, takerReserve, r)
    ensures |r.rest| <= |makers|
    ensures forall i | 0 <= i < |r.rest| ::
              SameOrder(r.rest[i], makers[|makers| - |r.rest| + i]) && Live(r.rest[i], makerSide)
  {
    var n := |r.events|;
    if 0 < n {
      TradeOfIs(makers[n - 1], makerSide, takerReserve, r.events[n - 1]);
    }
  }

  /** Matching leaves a side in order. */
  lemma MatchKeeps(makers: seq<Order>, makerSide: OrderAction, limit: Option<int>, need: nat, takerReserve: int)
    requires SideOk(makers, makerSide)
    ensures SideOk(Match(makers, makerSide, limit, need, takerReserve).rest, makerSide)
    ensures DistinctIds(makers) ==> DistinctIds(Match(makers, makerSide, limit, need, takerReserve).rest)
  {
    hide Match, Live;
    MatchSuffix(makers, makerSide, limit, need, takerReserve);
  }

  // ----- Every command keeps the book's invariant -----

  lemma MatchKeepsBook(book: Book, taker: OrderAction, limit: Option<int>, need: nat, takerReserve: int)
    requires BookOk(book)
    ensures BookOk(WithSide(book, Opposite(taker),
                            Match(Side(book, Opposite(taker)), Opposite(taker), limit, need, takerReserve).rest))
  {
    hide Match, Live, SideOk, Ranked;
    var makers := Side(book, Opposite(taker));
    MatchKeeps(makers, Opposite(taker), limit, need, takerReserve);
    SideLive(makers, Opposite(taker));
    MatchSuffix(makers, Opposite(taker), limit, need, takerReserve);
  }

  lemma SideLive(side: seq<Order>, action: OrderAction)
    requires SideOk(side, action)
    ensures forall i | 0 <= i < |side| :: Live(side[i], action)
  {
  }

  lemma LookupIs(book: Book, orderId: int)
    requires BookOk(book) && Lookup(book, orderId).Some?
    ensures var o := Lookup(book, orderId).value;
            && o.orderId == orderId && Live(o, o.action) && Has(Side(book, o.action), orderId)
            && o == Side(book, o.action)[Find(Side(book, o.action), orderId)]
  {
  }

  lemma WithoutKeeps(book: Book, orderId: int)
    requires BookOk(book) && Lookup(book, orderId).Some?
    ensures BookOk(Without(book, Lookup(book, orderId).value))
    ensures Lookup(Without(book, Lookup(book, orderId).value), orderId).None?
  {
    hide Live, SideOk, Ranked, RemoveAt;
    LookupIs(book, orderId);
    var o := Lookup(book, orderId).value;
    var side := Side(book, o.action);
    RemoveKeeps(side, o.action, Find(side, orderId));
    RemoveFrom(side, Find(side, orderId));
    NotFound(RemoveAt(side, Find(side, orderId)), orderId);
    OtherSideLacks(book, o);
  }

  lemma RemoveFrom(side: seq<Order>, i: nat)
    requires i < |side|
    ensures |RemoveAt(side, i)| == |side| - 1
    ensures forall j | 0 <= j < |side| - 1 :: RemoveAt(side, i)[j] == side[if j < i then j else j + 1]
  {
  }

  lemma {:induction false} NotFound(side: seq<Order>, orderId: int)
    requires forall j | 0 <= j < |side| :: side[j].orderId != orderId
    ensures !Has(side, orderId)
  {
  }

  lemma OtherSideLacks(book: Book, o: Order)
    requires BookOk(book) && Has(Side(book, o.action), o.orderId)
    ensures !Has(Side(book, Opposite(o.action)), o.orderId)
  {
    var f := Find(Side(book, Opposite(o.action)), o.orderId);
    assert Side(book, o.action)[Find(Side(book, o.action), o.orderId)].orderId == o.orderId;
  }

  lemma WithOrderKeeps(book: Book, o: Order)
    requires BookOk(book) && Live(o, o.action) && Lookup(book, o.orderId).None?
    requires forall i | 0 <= i < |Side(book, Opposite(o.action))| ::
               !Crosses(Opposite(o.action), Side(book, Opposite(o.action))[i].price, Some(o.price))
    ensures BookOk(WithOrder(book, o))
  {
    hide Live, SideOk, Ranked, Insert;
    var side, other := Side(book, o.action), Side(book, Opposite(o.action));
    InsertKeeps(side, o);
    var side' := Insert(side, o);
    forall i, j | 0 <= i < |side'| && 0 <= j < |other|
      ensures side'[i].orderId != other[j].orderId
      ensures if o.action == ASK then other[j].price < side'[i].price else side'[i].price < other[j].price
    {
      if side'[i] != o {
        var k :| 0 <= k < |side| && side[k] == side'[i];
      }
    }
  }

  /** Nothing that matching leaves behind has an id the book did not have. */
  lemma MatchNoNewIds(book: Book, taker: OrderAction, limit: Option<int>, need: nat, takerReserve: int, orderId: int)
    requires BookOk(book) && Lookup(book, orderId).None?
    ensures Lookup(WithSide(book, Opposite(taker),
                            Match(Side(book, Opposite(taker)), Opposite(taker), limit, need, takerReserve).rest),
                                orderId).None?
  {
    hide Match, Live, Ranked;
    MatchSuffix(Side(book, Opposite(taker)), Opposite(taker), limit, need, takerReserve);
  }

  lemma ReduceKeeps(book: Book, o: Order, reduceBy: int)
    requires BookOk(book) && Lookup(book, o.orderId) == Some(o) && 0 < reduceBy < o.Remaining()
    ensures BookOk(WithSide(book, o.action,
                            Side(book, o.action)[Find(Side(book, o.action), o.orderId) :=
                                                 o.(size := o.size - reduceBy)]))
  {
    hide Find, Ranked, Lookup, SideOk;
    LookupIs(book, o.orderId);
    var side, i := Side(book, o.action), Find(Side(book, o.action), o.orderId);
    var o' := o.(size := o.size - reduceBy);
    var side': seq<Order> := side[i := o'];
    assert forall j | 0 <= j < |side| :: side'[j].price == side[j].price && side'[j].orderId == side[j].orderId;
    ResizeKeeps(side, o.action, i, o');
  }

  lemma ResizeKeeps(side: seq<Order>, action: OrderAction, i: nat, o: Order)
    requires SideOk(side, action) && i < |side| && Live(o, action) && o.price == side[i].price
    ensures SideOk(side[i := o], action)
  {
    var side': seq<Order> := side[i := o];
    assert forall j | 0 <= j < |side| :: side'[j].price == side[j].price;
  }

  /** Invariant of every step: sorted sides, live orders, unique ids, and never crossed. */
  lemma StepKeeps(book: Book, symbol: SymbolType, r: Request)
    requires BookOk(book) && RequestOk(r)
    ensures BookOk(Step(book, symbol, r).book)
  {
    hide BookOk, Match, Live, Without, WithOrder, WithSide, Lookup, Budget, NewOrder;
    match r.command
    case PLACE_ORDER => NewOrderKeeps(book, r);
    case CANCEL_ORDER =>
      if Lookup(book, r.orderId).Some? { WithoutKeeps(book, r.orderId); }
    case REDUCE_ORDER => ReduceOrderKeeps(book, r);
    case MOVE_ORDER => MoveOrderKeeps(book, symbol, r);
    case ORDER_BOOK_REQUEST =>
    case OTHER_COMMAND =>
  }

  lemma NewOrderKeeps(book: Book, r: Request)
    requires BookOk(book) && RequestOk(r) && 0 < r.size
    ensures BookOk(NewOrder(book, r).book)
  {
    hide BookOk, Match, Live, WithOrder, WithSide, Lookup, Budget;
    MatchKeepsBook(book, r.action, Some(r.price), r.size, r.reserveBidPrice);
    MatchKeepsBook(book, r.action, None, r.size, r.reserveBidPrice);
    var taken := Match(Side(book, Opposite(r.action)), Opposite(r.action), Some(r.price), r.size, r.reserveBidPrice);
    var after := WithSide(book, Opposite(r.action), taken.rest);
    if r.orderType == GTC && taken.left != 0 && Lookup(after, r.orderId).None? {
      TakerLeft(book, r.action, Some(r.price), r.size, r.reserveBidPrice);
      var o := Order(r.orderId, r.price, r.size, r.size - taken.left, r.reserveBidPrice, r.action, r.uid, r.timestamp);
      assert Live(o, o.action) by { LiveOrder(o); }
      WithOrderKeeps(after, o);
    }
  }

  lemma LiveOrder(o: Order)
    requires 0 <= o.filled < o.size && 0 <= o.price <= MAX_KEY
    ensures Live(o, o.action)
  {
  }

  /** What is left of a taker rests in front of no maker it could trade with. */
  lemma TakerLeft(book: Book, taker: OrderAction, limit: Option<int>, need: nat, takerReserve: int)
    requires BookOk(book) && 0 < need
    ensures var makers := Side(book, Opposite(taker));
            var taken := Match(makers, Opposite(taker), limit, need, takerReserve);
            && 0 <= taken.left <= need
            && Side(WithSide(book, Opposite(taker), taken.rest), Opposite(taker)) == taken.rest
            && Side(WithSide(book, Opposite(taker), taken.rest), taker) == Side(book, taker)
            && (0 < taken.left ==> forall i | 0 <= i < |taken.rest| ::
                  !Crosses(Opposite(taker), taken.rest[i].price, limit))
  {
    hide Match, Live, Ranked, SideOk;
    var makers := Side(book, Opposite(taker));
    SideLive(makers, Opposite(taker));
    MatchLeft(makers, Opposite(taker), limit, need, takerReserve);
    if 0 < Match(makers, Opposite(taker), limit, need, takerReserve).left {
      MatchIsMaximal(makers, Opposite(taker), limit, need, takerReserve);
    }
  }

  lemma ReduceOrderKeeps(book: Book, r: Request)
    requires BookOk(book) && RequestOk(r)
    ensures BookOk(ReduceOrder(book, r).book)
  {
    hide BookOk, Match, Without, WithOrder, WithSide, Lookup;
    var found := Lookup(book, r.orderId);
    if found.Some? {
      LookupIs(book, r.orderId);
      WithoutKeeps(book, r.orderId);
      var o := found.value;
      if 0 < r.size < o.Remaining() {
        ReduceKeeps(book, o, r.size);
      }
    }
  }

  lemma MoveOrderKeeps(book: Book, symbol: SymbolType, r: Request)
    requires BookOk(book) && RequestOk(r)
    ensures BookOk(MoveOrder(book, symbol, r).book)
  {
    hide BookOk, Match, Without, WithOrder, WithSide, Lookup;
    var found := Lookup(book, r.orderId);
    if found.Some? {
      LookupIs(book, r.orderId);
      WithoutKeeps(book, r.orderId);
      var o := found.value;
      var lifted := Without(book, o);
      MatchKeepsBook(lifted, o.action, Some(r.price), o.Remaining(), o.reserveBidPrice);
      TakerLeft(lifted, o.action, Some(r.price), o.Remaining(), o.reserveBidPrice);
      MatchNoNewIds(lifted, o.action, Some(r.price), o.Remaining(), o.reserveBidPrice, r.orderId);
      var taken := Match(Side(lifted, Opposite(o.action)), Opposite(o.action), Some(r.price), o.Remaining(),
                         o.reserveBidPrice);
      if taken.left != 0 {
        WithOrderKeeps(WithSide(lifted, Opposite(o.action), taken.rest),
                       o.(price := r.price, filled := o.size - taken.left));
      }
    }
  }

  // ----- Runs -----

  /** The book after a sequence of commands. */
  function BookAfter(book: Book, symbol: SymbolType, requests: seq<Request>): Book {
    if requests == [] then book
    else Step(BookAfter(book, symbol, requests[..|requests| - 1]), symbol, requests[|requests| - 1]).book
  }

  /** In every reachable state the invariant holds. */
  lemma {:induction false} RunKeeps(book: Book, symbol: SymbolType, requests: seq<Request>)
    requires BookOk(book) && forall i | 0 <= i < |requests| :: RequestOk(requests[i])
    ensures BookOk(BookAfter(book, symbol, requests))
    decreases |requests|
  {
    hide BookOk, Step, RequestOk;
    if requests != [] {
      RunKeeps(book, symbol, requests[..|requests| - 1]);
      StepKeeps(BookAfter(book, symbol, requests[..|requests| - 1]), symbol, requests[|requests| - 1]);
    }
  }

  // ----- Matching as a loop -----

  ghost function Prepended(events: seq<Event>, r: Matching): Matching {
    r.(events := events + r.events)
  }

  /** One trade of the loop is one step of matching. */
  lemma TradeStep(s: seq<Order>, makerSide: OrderAction, limit: Option<int>, need: nat, reserve: int,
                  events: seq<Event>, s': seq<Order>, e: Event)
    requires 0 < need && s != [] && Crosses(makerSide, s[0].price, limit)
             && e == TradeEvent(s[0], makerSide, need, reserve) && 0 < s[0].Remaining()
    requires var v := Min(need, s[0].Remaining());
             s' == if v == s[0].Remaining() then s[1..] else s[0 := s[0].(filled := s[0].filled + v)]
    ensures Prepended(events, Match(s, makerSide, limit, need, reserve))
         == Prepended(events + [e], Match(s', makerSide, limit, need - Min(need, s[0].Remaining()), reserve))
  {
    hide Match;
    var v := Min(need, s[0].Remaining());
    MatchStep(s, makerSide, limit, need, reserve);
    MatchStep(s', makerSide, limit, need - v, reserve);
    var r := Match(s', makerSide, limit, need - v, reserve);
    assert events + ([e] + r.events) == (events + [e]) + r.events;
    assert v != s[0].Remaining() ==> s' == [s[0].(filled := s[0].filled + v)] + s[1..];
  }

  lemma NothingMore(s: seq<Order>, makerSide: OrderAction, limit: Option<int>, need: nat, reserve: int,
                    events: seq<Event>)
    requires need == 0 || s == [] || !Crosses(makerSide, s[0].price, limit)
    ensures Prepended(events, Match(s, makerSide, limit, need, reserve)) == Matching(s, events, need)
  {
    assert events + [] == events;
  }

  lemma MatchedBook(book: Book, taker: OrderAction, limit: Option<int>, need: nat, reserve: int, moving: set<int>)
    requires BookOk(book) && forall id: int <- moving :: Lookup(book, id).None?
    ensures var after :=
            WithSide(book, Opposite(taker), Match(Side(book, Opposite(taker)), Opposite(taker), limit, need,
                                                  reserve).rest);
            BookOk(after) && forall id: int <- moving :: Lookup(after, id).None?
  {
    hide Match, BookOk, Lookup;
    MatchKeepsBook(book, taker, limit, need, reserve);
    forall id: int <- moving
      ensures Lookup(WithSide(book, Opposite(taker),
                              Match(Side(book, Opposite(taker)), Opposite(taker), limit, need, reserve).rest), id).None?
    {
      MatchNoNewIds(book, taker, limit, need, reserve, id);
    }
  }

  /** Refused commands leave no events; new orders always report success. */
  lemma CodesOf(book: Book, symbol: SymbolType, r: Request)
    ensures BookSpec.NewOrder(book, r).code == SUCCESS && BookSpec.NewOrder(book, r).action == r.action
    ensures BookSpec.CancelOrder(book, r).code != SUCCESS ==> BookSpec.CancelOrder(book, r).events == []
    ensures BookSpec.ReduceOrder(book, r).code != SUCCESS ==> BookSpec.ReduceOrder(book, r).events == []
  {
    hide Match, Lookup, WithOrder, WithSide, Without, Budget;
  }

  lemma RefusedMove(book: Book, symbol: SymbolType, r: Request)
    ensures BookSpec.MoveOrder(book, symbol, r).code == MATCHING_MOVE_FAILED_PRICE_OVER_RISK_LIMIT ==>
              BookSpec.MoveOrder(book, symbol, r).action == r.action
  {
    hide Match, Lookup, WithOrder, WithSide, Without;
  }

  lemma LiveAction(o: Order, action: OrderAction)
    requires Live(o, action)
    ensures o.action == action
  {
  }
}
