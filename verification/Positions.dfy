/** Positions on futures contracts: what a trade does to one, and what it needs as margin. */
module Positions {
  import opened OrderTypes
  import opened BookSpec

  datatype Direction = LONG | SHORT | EMPTY

  function Multiplier(d: Direction): int {
    match d case LONG => 1 case SHORT => -1 case EMPTY => 0
  }

  function DirectionOf(action: OrderAction): Direction {
    if action == BID then LONG else SHORT
  }

  datatype Position = Position(currency: int, direction: Direction, openVolume: int, openPriceSum: int, profit: int,
                               pendingSellSize: int, pendingBuySize: int)
  {
    predicate IsEmpty() { direction == EMPTY && pendingSellSize == 0 && pendingBuySize == 0 }

    function Pending(action: OrderAction): int { if action == ASK then pendingSellSize else pendingBuySize }

    function Held(action: OrderAction, size: int): Position {
      if action == ASK then this.(pendingSellSize := pendingSellSize + size)
      else this.(pendingBuySize := pendingBuySize + size)
    }

    /** Trading against an open position of the other direction: it shrinks, or closes and fixes its profit. */
    function Closed(action: OrderAction, size: int, price: int): (Position, int) {
      if direction == EMPTY || direction == DirectionOf(action) then (this, size)
      else if openVolume > size
      then (this.(openVolume := openVolume - size, openPriceSum := openPriceSum - size * price), 0)
      else (this.(profit := profit + (openVolume * price - openPriceSum) * Multiplier(direction),
                  openPriceSum := 0, direction := EMPTY, openVolume := 0), size - openVolume)
    }

    function Opened(action: OrderAction, size: int, price: int): Position {
      this.(openVolume := openVolume + size, openPriceSum := openPriceSum + price * size,
            direction := DirectionOf(action))
    }

    function AfterTrade(action: OrderAction, size: int, price: int): (Position, int) {
      var (closed, left) := Held(action, -size).Closed(action, size, price);
      (if left > 0 then closed.Opened(action, left, price) else closed, left)
    }

    /** Margin the position needs together with its pending orders and `buy`, `sell` more. */
    function MarginFor(spec: Symbol, buy: int, sell: int): int {
      Max(spec.marginBuy * (pendingBuySize + openVolume * Multiplier(direction) + buy),
          spec.marginSell * (pendingSellSize - openVolume * Multiplier(direction) + sell))
    }
  }

  function Max(a: int, b: int): int { if a < b then b else a }

  datatype Symbol = Symbol(kind: SymbolType, baseCurrency: int, quoteCurrency: int, baseScaleK: int, quoteScaleK: int,
                           takerFee: int, makerFee: int, marginBuy: int, marginSell: int)

  /** An open position has a direction, a flat one has no volume and no price sum. */
  predicate PositionOk(p: Position) {
    && (p.direction == EMPTY ==> p.openVolume == 0 && p.openPriceSum == 0)
    && (p.direction != EMPTY ==> 0 < p.openVolume)
  }

  /** What a position is worth when its symbol is marked at a price. */
  function Equity(p: Position, mark: int): int {
    p.profit + Multiplier(p.direction) * (p.openVolume * mark - p.openPriceSum)
  }

  // ----- A record updated in place -----

  class SymbolPositionRecord {
    const uid: int
    const symbol: int
    const currency: int
    var direction: Direction
    var openVolume: int
    var openPriceSum: int
    var profit: int
    var pendingSellSize: int
    var pendingBuySize: int

    constructor (uid: int, symbol: int, currency: int)
      ensures this.uid == uid && this.symbol == symbol && Value() == Position(currency, EMPTY, 0, 0, 0, 0, 0)
    {
      this.uid, this.symbol, this.currency := uid, symbol, currency;
      direction, openVolume, openPriceSum, profit, pendingSellSize, pendingBuySize := EMPTY, 0, 0, 0, 0, 0;
    }

    function Value(): Position
      reads this
    {
      Position(currency, direction, openVolume, openPriceSum, profit, pendingSellSize, pendingBuySize)
    }

    method IsEmpty() returns (empty: bool)
      ensures empty <==> Value().IsEmpty()
    {
      empty := direction == EMPTY && pendingSellSize == 0 && pendingBuySize == 0;
    }

    method PendingHold(action: OrderAction, size: int)
      modifies this
      ensures Value() == old(Value()).Held(action, size)
    {
      if action == ASK {
        pendingSellSize := pendingSellSize + size;
      } else {
        pendingBuySize := pendingBuySize + size;
      }
    }

    method PendingRelease(action: OrderAction, size: int)
      modifies this
      ensures Value() == old(Value()).Held(action, -size)
    {
      if action == ASK {
        pendingSellSize := pendingSellSize - size;
      } else {
        pendingBuySize := pendingBuySize - size;
      }
    }

    method CloseCurrentPositionFutures(action: OrderAction, size: int, price: int) returns (sizeToOpen: int)
      modifies this
      ensures (Value(), sizeToOpen) == old(Value()).Closed(action, size, price)
    {
      if direction == EMPTY || direction == DirectionOf(action) {
        return size;
      }
      if openVolume > size {
        openVolume := openVolume - size;
        openPriceSum := openPriceSum - size * price;
        return 0;
      }
      profit := profit + (openVolume * price - openPriceSum) * Multiplier(direction);
      openPriceSum := 0;
      direction := EMPTY;
      sizeToOpen := size - openVolume;
      openVolume := 0;
    }

    method OpenPositionMargin(action: OrderAction, size: int, price: int)
      modifies this
      ensures Value() == old(Value()).Opened(action, size, price)
    {
      openVolume := openVolume + size;
      openPriceSum := openPriceSum + price * size;
      direction := DirectionOf(action);
    }

    /** A trade releases the pending size, closes against the open position and opens what is left: for every mark price
        the worth of the record moves by the size times the difference between the mark and the trade price. */
    method UpdatePositionForMarginTrade(action: OrderAction, size: int, price: int) returns (sizeOpened: int)
      modifies this
      ensures (Value(), sizeOpened) == old(Value()).AfterTrade(action, size, price)
      ensures old(PositionOk(Value())) && 0 < size ==>
                && PositionOk(Value())
                && forall mark: int ::
                     Equity(Value(), mark)
                         == Equity(old(Value()), mark) + Multiplier(DirectionOf(action)) * (size * (mark - price))
    {
      if PositionOk(Value()) && 0 < size {
        TradeKeeps(Value(), action, size, price);
        forall mark: int
          ensures Equity(Value().AfterTrade(action, size, price).0, mark)
                  == Equity(Value(), mark) + Multiplier(DirectionOf(action)) * (size * (mark - price))
        {
          EquityLaw(Value(), action, size, price, mark);
        }
      }
      PendingRelease(action, size);
      sizeOpened := CloseCurrentPositionFutures(action, size, price);
      if sizeOpened > 0 {
        OpenPositionMargin(action, sizeOpened, price);
      }
    }

    /** Margin needed for one more order, or -1 if the order does not raise what the position needs. */
    method CalculateRequiredMarginForOrder(spec: Symbol, action: OrderAction, size: int) returns (margin: int)
      ensures margin == MarginForOrder(Value(), spec, action, size)
    {
      var signedPosition := openVolume * Multiplier(direction);
      var currentRiskBuySize := pendingBuySize + signedPosition;
      var currentRiskSellSize := pendingSellSize - signedPosition;
      var marginBuy := spec.marginBuy * currentRiskBuySize;
      var marginSell := spec.marginSell * currentRiskSellSize;
      var currentMargin := Max(marginBuy, marginSell);
      MarginSums(spec.marginBuy, currentRiskBuySize, size);
      MarginSums(spec.marginSell, currentRiskSellSize, size);
      if action == BID {
        marginBuy := marginBuy + spec.marginBuy * size;
      } else {
        marginSell := marginSell + spec.marginSell * size;
      }
      var newMargin := Max(marginBuy, marginSell);
      margin := if newMargin <= currentMargin then -1 else newMargin;
    }
  }

  lemma MarginSums(m: int, a: int, b: int)
    ensures m * (a + b) == m * a + m * b && m * (a + 0) == m * a
  {
  }

  function MarginForOrder(p: Position, spec: Symbol, action: OrderAction, size: int): int {
    var before := p.MarginFor(spec, 0, 0);
    var after := if action == BID then p.MarginFor(spec, size, 0) else p.MarginFor(spec, 0, size);
    if after <= before then -1 else after
  }

  /** The margin needed is never negative, so -1 says exactly that the order does not raise it. */
  lemma MarginForOrderIs(p: Position, spec: Symbol, action: OrderAction, size: int)
    requires 0 <= p.pendingBuySize && 0 <= p.pendingSellSize && 0 <= spec.marginBuy && 0 <= spec.marginSell
    ensures var before := p.MarginFor(spec, 0, 0);
            var after := if action == BID then p.MarginFor(spec, size, 0) else p.MarginFor(spec, 0, size);
            && 0 <= before
            && (MarginForOrder(p, spec, action, size) == -1 <==> after <= before)
            && (MarginForOrder(p, spec, action, size) != -1 ==> MarginForOrder(p, spec, action, size) == after > before)
  {
    var buy := p.pendingBuySize + p.openVolume * Multiplier(p.direction);
    var sell := p.pendingSellSize - p.openVolume * Multiplier(p.direction);
    assert 0 <= buy || 0 <= sell;
    NonNegativeProduct(spec.marginBuy, buy);
    NonNegativeProduct(spec.marginSell, sell);
    assert p.MarginFor(spec, 0, 0) == Max(spec.marginBuy * buy, spec.marginSell * sell) by {
      MarginSums(spec.marginBuy, buy, 0);
      MarginSums(spec.marginSell, sell, 0);
    }
  }

  lemma NonNegativeProduct(a: int, b: int)
    ensures 0 <= a && 0 <= b ==> 0 <= a * b
  {
  }

  // ----- The equity law -----

  lemma TradeKeeps(p: Position, action: OrderAction, size: int, price: int)
    requires PositionOk(p) && 0 < size
    ensures PositionOk(p.AfterTrade(action, size, price).0)
    ensures var (q, left) := p.AfterTrade(action, size, price);
            && 0 <= left <= size
            && q.currency == p.currency
            && q.Pending(action) == p.Pending(action) - size
               && q.Pending(Opposite(action)) == p.Pending(Opposite(action))
  {
  }

  /** Reducing, closing exactly, flipping and opening all move the worth of a position by the same amount,
      whatever the mark: the size times the mark less the trade price for a buyer, the opposite for a seller. */
  lemma EquityLaw(p: Position, action: OrderAction, size: int, price: int, mark: int)
    requires PositionOk(p) && 0 < size
    ensures Equity(p.AfterTrade(action, size, price).0, mark)
            == Equity(p, mark) + Multiplier(DirectionOf(action)) * (size * (mark - price))
  {
    var (c, left) := p.Held(action, -size).Closed(action, size, price);
    ClosedEquity(p.Held(action, -size), action, size, price, mark);
    if left > 0 {
      OpenedEquity(c, action, left, price, mark);
      Split(size, left, mark, price);
    }
  }

  lemma Split(size: int, left: int, mark: int, price: int)
    ensures (size - left) * (mark - price) + left * (mark - price) == size * (mark - price)
  {
  }

  lemma OpenedEquity(p: Position, action: OrderAction, size: int, price: int, mark: int)
    requires PositionOk(p) && (p.direction == EMPTY || p.direction == DirectionOf(action))
    ensures Equity(p.Opened(action, size, price), mark)
            == Equity(p, mark) + Multiplier(DirectionOf(action)) * (size * (mark - price))
  {
    assert (p.openVolume + size) * mark == p.openVolume * mark + size * mark;
    assert size * (mark - price) == size * mark - price * size;
  }

  lemma ClosedEquity(p: Position, action: OrderAction, size: int, price: int, mark: int)
    requires PositionOk(p) && 0 < size
    ensures var (c, left) := p.Closed(action, size, price);
            && PositionOk(c) && 0 <= left <= size
               && (0 < left ==> c.direction == EMPTY || c.direction == DirectionOf(action))
            && Equity(c, mark) == Equity(p, mark) + Multiplier(DirectionOf(action)) * ((size - left) * (mark - price))
  {
    var v := p.openVolume;
    if p.direction == EMPTY || p.direction == DirectionOf(action) {
    } else if v > size {
      assert (v - size) * mark == v * mark - size * mark;
      assert size * (mark - price) == size * mark - size * price;
    } else {
      assert v * (mark - price) == v * mark - v * price;
    }
  }

  /** An empty record is worth exactly its profit, which is what removing it pays to the account. */
  lemma EmptyEquity(p: Position, mark: int)
    requires PositionOk(p) && p.IsEmpty()
    ensures Equity(p, mark) == p.profit
  {
  }

  /** A trade moves worth between buyer and seller and creates none. */
  lemma TradeIsZeroSum(buyer: Position, seller: Position, size: int, price: int, mark: int)
    requires PositionOk(buyer) && PositionOk(seller) && 0 < size
    ensures Equity(buyer.AfterTrade(BID, size, price).0, mark) + Equity(seller.AfterTrade(ASK, size, price).0, mark)
            == Equity(buyer, mark) + Equity(seller, mark)
  {
    EquityLaw(buyer, BID, size, price, mark);
    EquityLaw(seller, ASK, size, price, mark);
  }
}
