/** Every quantity that is linear in the remaining sizes of orders is conserved by every command:
    what a place command brings in, less what the events take out, is what the book holds more. */
module BookWeights {
  import opened Wrappers
  import opened OrderTypes
  import opened BookSpec
  import opened BookFacts
  import BookTheorems

  /** A weight for each unit of remaining size: for a bid by its owner and reserved price, for an ask by its owner. */
  datatype Weight = Weight(bid: (int, int) -> int, ask: int -> int)
  {
    function Of(action: OrderAction, uid: int, reserve: int): int {
      if action == BID then bid(uid, reserve) else ask(uid)
    }
  }

  function Weigh(side: seq<Order>, w: Weight): int {
    if side == [] then 0
    else side[0].Remaining() * w.Of(side[0].action, side[0].uid, side[0].reserveBidPrice) + Weigh(side[1..], w)
  }

  function WeighBook(book: Book, w: Weight): int {
    Weigh(book.asks, w) + Weigh(book.bids, w)
  }

  /** What one event takes out: a trade takes from the buyer and from the seller, a reduce or reject from the taker
      alone. */
  function TakenOut(e: Event, action: OrderAction, uid: int, w: Weight): int {
    match e
    case Trade(_, makerUid, _, _, _, size, hold) =>
      size * (w.Of(action, uid, hold) + w.Of(Opposite(action), makerUid, hold))
    case Reduce(_, size, hold, _) => size * w.Of(action, uid, hold)
    case Reject(_, size, hold) => size * w.Of(action, uid, hold)
  }

  function AllTakenOut(events: seq<Event>, action: OrderAction, uid: int, w: Weight): int {
    if events == [] then 0 else TakenOut(events[0], action, uid, w) + AllTakenOut(events[1..], action, uid, w)
  }

  /** A place command that reaches the book brings in its full size. */
  function BroughtIn(r: Request, w: Weight): int {
    if r.command == PLACE_ORDER && r.resultCode == VALID_FOR_MATCHING_ENGINE
    then r.size * w.Of(r.action, r.uid, r.reserveBidPrice) else 0
  }

  // ----- Sides -----

  lemma {:induction false} WeighInsert(side: seq<Order>, p: nat, o: Order, w: Weight)
    requires p <= |side|
    ensures Weigh(InsertAt(side, p, o), w) == Weigh(side, w) + o.Remaining() * w.Of(o.action, o.uid, o.reserveBidPrice)
  {
    if p == 0 {
      assert InsertAt(side, 0, o) == [o] + side && ([o] + side)[1..] == side;
    } else {
      WeighInsert(side[1..], p - 1, o, w);
      assert InsertAt(side, p, o)[1..] == InsertAt(side[1..], p - 1, o) && InsertAt(side, p, o)[0] == side[0];
    }
  }

  lemma WeighRemove(side: seq<Order>, i: nat, w: Weight)
    requires i < |side|
    ensures Weigh(RemoveAt(side, i), w)
            == Weigh(side, w) - side[i].Remaining() * w.Of(side[i].action, side[i].uid, side[i].reserveBidPrice)
  {
    WeighInsert(RemoveAt(side, i), i, side[i], w);
    assert InsertAt(RemoveAt(side, i), i, side[i]) == side;
  }

  lemma WeighReplace(side: seq<Order>, i: nat, o: Order, w: Weight)
    requires i < |side|
    ensures Weigh(side[i := o], w)
            == Weigh(side, w) - side[i].Remaining() * w.Of(side[i].action, side[i].uid, side[i].reserveBidPrice)
                                      + o.Remaining() * w.Of(o.action, o.uid, o.reserveBidPrice)
  {
    WeighRemove(side, i, w);
    WeighInsert(RemoveAt(side, i), i, o, w);
    assert InsertAt(RemoveAt(side, i), i, o) == side[i := o];
  }

  lemma WeighSide(book: Book, action: OrderAction, side: seq<Order>, w: Weight)
    ensures WeighBook(WithSide(book, action, side), w)
            == WeighBook(book, w) - Weigh(Side(book, action), w) + Weigh(side, w)
  {
  }

  // ----- Matching -----

  /** The weight of one trade of the first maker is linear in the size, so the part it keeps weighs the rest. */
  lemma TradeWeighs(maker: Order, makerSide: OrderAction, need: int, takerReserve: int, uid: int, w: Weight)
    requires maker.action == makerSide
    ensures var v := Min(need, maker.Remaining());
            TakenOut(TradeEvent(maker, makerSide, need, takerReserve), Opposite(makerSide), uid, w)
            == v * w.Of(makerSide, maker.uid, maker.reserveBidPrice) + v * w.Of(Opposite(makerSide), uid, takerReserve)
  {
    var v := Min(need, maker.Remaining());
    var hold := HoldPrice(makerSide, takerReserve, maker);
    var mine, theirs := w.Of(Opposite(makerSide), uid, hold), w.Of(makerSide, maker.uid, hold);
    assert mine == w.Of(Opposite(makerSide), uid, takerReserve)
           && theirs == w.Of(makerSide, maker.uid, maker.reserveBidPrice);
    assert v * (mine + theirs) == v * theirs + v * mine;
  }

  lemma PartWeighs(maker: Order, makers: seq<Order>, v: int, w: Weight)
    ensures Weigh([maker.(filled := maker.filled + v)] + makers, w)
            == (maker.Remaining() - v) * w.Of(maker.action, maker.uid, maker.reserveBidPrice) + Weigh(makers, w)
  {
    var all := [maker.(filled := maker.filled + v)] + makers;
    assert all[1..] == makers;
  }

  lemma Distribute(a: int, b: int, x: int)
    ensures (a - b) * x == a * x - b * x
  {
  }

  lemma OneTakenOut(e: Event, action: OrderAction, uid: int, w: Weight)
    ensures AllTakenOut([e], action, uid, w) == TakenOut(e, action, uid, w)
  {
    assert [e][1..] == [];
    assert AllTakenOut([], action, uid, w) == 0;
  }

  lemma FirstTakenOut(e: Event, events: seq<Event>, action: OrderAction, uid: int, w: Weight)
    ensures AllTakenOut([e] + events, action, uid, w)
            == TakenOut(e, action, uid, w) + AllTakenOut(events, action, uid, w)
  {
    assert ([e] + events)[1..] == events;
  }

  lemma {:induction false} MatchWeighs(makers: seq<Order>, makerSide: OrderAction, limit: Option<int>, need: int,
                                       takerReserve: int, uid: int, w: Weight)
    requires forall i | 0 <= i < |makers| :: Live(makers[i], makerSide)
    ensures var m := Match(makers, makerSide, limit, need, takerReserve);
            AllTakenOut(m.events, Opposite(makerSide), uid, w)
            == Weigh(makers, w) - Weigh(m.rest, w) + (need - m.left) * w.Of(Opposite(makerSide), uid, takerReserve)
    decreases |makers|
  {
    var x := w.Of(Opposite(makerSide), uid, takerReserve);
    if need <= 0 || makers == [] || !Crosses(makerSide, makers[0].price, limit) {
      assert (need - need) * x == 0;
    } else {
      var maker := makers[0];
      assert Live(maker, makerSide);
      var v := Min(need, maker.Remaining());
      var y := w.Of(makerSide, maker.uid, maker.reserveBidPrice);
      var e := TradeEvent(maker, makerSide, need, takerReserve);
      TradeWeighs(maker, makerSide, need, takerReserve, uid, w);
      if v == maker.Remaining() {
        MatchWeighs(makers[1..], makerSide, limit, need - v, takerReserve, uid, w);
        var r := Match(makers[1..], makerSide, limit, need - v, takerReserve);
        FirstTakenOut(e, r.events, Opposite(makerSide), uid, w);
        Distribute(need - r.left, v, x);
      } else {
        OneTakenOut(e, Opposite(makerSide), uid, w);
        PartWeighs(maker, makers[1..], v, w);
        Distribute(maker.Remaining(), v, y);
        assert [maker.(filled := maker.filled + v)] + makers[1..]
               == Match(makers, makerSide, limit, need, takerReserve).rest;
      }
    }
  }

  // ----- Commands -----

  /** The conservation law: for every weight, what the book held and the command brought is what it holds now and the
      events took out. */
  ghost predicate Balanced(book: Book, r: Request, o: Outcome, w: Weight) {
    WeighBook(book, w) + BroughtIn(r, w) == WeighBook(o.book, w) + AllTakenOut(o.events, o.action, r.uid, w)
  }

  lemma RejectBalanced(book: Book, r: Request, w: Weight)
    requires r.command == PLACE_ORDER && r.resultCode == VALID_FOR_MATCHING_ENGINE
    ensures Balanced(book, r, Outcome(book, SUCCESS, [Reject(r.price, r.size, r.reserveBidPrice)], r.action), w)
  {
    OneTakenOut(Reject(r.price, r.size, r.reserveBidPrice), r.action, r.uid, w);
  }

  /** Matching changes one side by what the events take out, less the taker's part. */
  lemma MatchBalances(book: Book, taker: OrderAction, limit: Option<int>, need: int, reserve: int, uid: int, w: Weight)
    requires BookOk(book)
    ensures var side := Opposite(taker);
            var m := Match(Side(book, side), side, limit, need, reserve);
            WeighBook(book, w) + (need - m.left) * w.Of(taker, uid, reserve)
                == WeighBook(WithSide(book, side, m.rest), w) + AllTakenOut(m.events, taker, uid, w)
  {
    hide Match, Live, Weigh, AllTakenOut;
    var side := Opposite(taker);
    SideLive(Side(book, side), side);
    MatchWeighs(Side(book, side), side, limit, need, reserve, uid, w);
    WeighSide(book, side, Match(Side(book, side), side, limit, need, reserve).rest, w);
  }

  lemma WithOrderWeighs(book: Book, o: Order, w: Weight)
    ensures WeighBook(WithOrder(book, o), w)
            == WeighBook(book, w) + o.Remaining() * w.Of(o.action, o.uid, o.reserveBidPrice)
  {
    hide Weigh;
    var side := Side(book, o.action);
    WeighInsert(side, Place(side, o.action, o.price), o, w);
  }

  lemma WithoutWeighs(book: Book, orderId: int, w: Weight)
    requires BookOk(book) && Lookup(book, orderId).Some?
    ensures var o := Lookup(book, orderId).value;
            WeighBook(Without(book, o), w)
                == WeighBook(book, w) - o.Remaining() * w.Of(o.action, o.uid, o.reserveBidPrice)
  {
    hide Weigh, BookOk, Find;
    LookupIs(book, orderId);
    var o := Lookup(book, orderId).value;
    WeighRemove(Side(book, o.action), Find(Side(book, o.action), orderId), w);
  }

  lemma NewOrderBalances(book: Book, r: Request, w: Weight)
    requires BookOk(book) && r.command == PLACE_ORDER && r.resultCode == VALID_FOR_MATCHING_ENGINE && 0 < r.size
    ensures Balanced(book, r, NewOrder(book, r), w)
  {
    hide Match, BookOk, WeighBook, AllTakenOut, WithOrder, WithSide, Budget, Lookup, Weight.Of;
    var side := Opposite(r.action);
    var x := w.Of(r.action, r.uid, r.reserveBidPrice);
    MatchBalances(book, r.action, Some(r.price), r.size, r.reserveBidPrice, r.uid, w);
    MatchBalances(book, r.action, None, r.size, r.reserveBidPrice, r.uid, w);
    RejectBalanced(book, r, w);
    var m := Match(Side(book, side), side, Some(r.price), r.size, r.reserveBidPrice);
    var f := Match(Side(book, side), side, None, r.size, r.reserveBidPrice);
    FirstTakenOut(Reject(r.price, m.left, r.reserveBidPrice), m.events, r.action, r.uid, w);
    Distribute(r.size, m.left, x);
    Distribute(r.size, f.left, x);
    var after := WithSide(book, side, m.rest);
    WithOrderWeighs(after, Order(r.orderId, r.price, r.size, r.size - m.left, r.reserveBidPrice, r.action, r.uid,
                                 r.timestamp), w);
    assert [] + m.events == m.events;
    if r.orderType == FOK_BUDGET {
      FokFilled(book, r);
    }
  }

  lemma FokFilled(book: Book, r: Request)
    requires BookOk(book) && 0 < r.size
    ensures Budget(Side(book, Opposite(r.action)), r.size).Some? ==>
              Match(Side(book, Opposite(r.action)), Opposite(r.action), None, r.size, r.reserveBidPrice).left == 0
  {
    hide Live;
    SideLive(Side(book, Opposite(r.action)), Opposite(r.action));
    BookTheorems.BudgetIsCost(Side(book, Opposite(r.action)), Opposite(r.action), r.size, r.reserveBidPrice);
  }

  lemma CancelBalances(book: Book, r: Request, w: Weight)
    requires BookOk(book) && r.command == CANCEL_ORDER
    ensures Balanced(book, r, CancelOrder(book, r), w)
  {
    hide BookOk, WeighBook, Without, Lookup;
    var found := Lookup(book, r.orderId);
    if found.Some? && found.value.uid == r.uid {
      var o := found.value;
      WithoutWeighs(book, r.orderId, w);
      OneTakenOut(Reduce(o.price, o.Remaining(), o.reserveBidPrice, true), o.action, r.uid, w);
    }
  }

  lemma ReduceBalances(book: Book, r: Request, w: Weight)
    requires BookOk(book) && r.command == REDUCE_ORDER
    ensures Balanced(book, r, ReduceOrder(book, r), w)
  {
    hide BookOk, Weigh, Without, Lookup, Find, AllTakenOut;
    assert AllTakenOut([], r.action, r.uid, w) == 0 by { NothingTakenOut(r.action, r.uid, w); }
    var found := Lookup(book, r.orderId);
    if found.Some? && found.value.uid == r.uid && 0 < r.size {
      LookupIs(book, r.orderId);
      var o := found.value;
      var part := Min(o.Remaining(), r.size);
      if part == o.Remaining() {
        WithoutWeighs(book, r.orderId, w);
        OneTakenOut(Reduce(o.price, part, o.reserveBidPrice, true), o.action, r.uid, w);
      } else {
        var side := Side(book, o.action);
        var i := Find(side, o.orderId);
        OneTakenOut(Reduce(o.price, part, o.reserveBidPrice, false), o.action, r.uid, w);
        WeighReplace(side, i, o.(size := o.size - part), w);
        WeighSide(book, o.action, side[i := o.(size := o.size - part)], w);
        Distribute(o.Remaining(), part, w.Of(o.action, o.uid, o.reserveBidPrice));
      }
    }
  }

  lemma NothingTakenOut(action: OrderAction, uid: int, w: Weight)
    ensures AllTakenOut([], action, uid, w) == 0
  {
  }

  lemma MoveBalances(book: Book, symbol: SymbolType, r: Request, w: Weight)
    requires BookOk(book) && r.command == MOVE_ORDER
    ensures Balanced(book, r, MoveOrder(book, symbol, r), w)
  {
    hide Match, BookOk, WeighBook, AllTakenOut, WithOrder, WithSide, Without, Lookup, Weight.Of;
    NothingTakenOut(r.action, r.uid, w);
    var found := Lookup(book, r.orderId);
    if found.Some? && found.value.uid == r.uid {
      var o := found.value;
      var side := Opposite(o.action);
      LookupIs(book, r.orderId);
      WithoutKeeps(book, r.orderId);
      WithoutWeighs(book, r.orderId, w);
      var lifted := Without(book, o);
      MatchBalances(lifted, o.action, Some(r.price), o.Remaining(), o.reserveBidPrice, r.uid, w);
      var m := Match(Side(lifted, side), side, Some(r.price), o.Remaining(), o.reserveBidPrice);
      WithOrderWeighs(WithSide(lifted, side, m.rest), o.(price := r.price, filled := o.size - m.left), w);
      Distribute(o.Remaining(), m.left, w.Of(o.action, o.uid, o.reserveBidPrice));
    }
  }

  /** Every command conserves every weight. */
  lemma StepBalances(book: Book, symbol: SymbolType, r: Request, w: Weight)
    requires BookOk(book) && RequestOk(r)
    ensures Balanced(book, r, Step(book, symbol, r), w)
  {
    hide BookOk, NewOrder, CancelOrder, ReduceOrder, MoveOrder, WeighBook;
    match r.command
    case PLACE_ORDER => if r.resultCode == VALID_FOR_MATCHING_ENGINE { NewOrderBalances(book, r, w); }
    case CANCEL_ORDER => CancelBalances(book, r, w);
    case REDUCE_ORDER => ReduceBalances(book, r, w);
    case MOVE_ORDER => MoveBalances(book, symbol, r, w);
    case ORDER_BOOK_REQUEST =>
    case OTHER_COMMAND =>
  }
}
