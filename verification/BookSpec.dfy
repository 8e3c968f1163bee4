/** What an order book promises, over two sequences of orders in priority order. */
module BookSpec {
  import opened Wrappers
  import opened OrderTypes
  import opened Keys

  const INT64_MAX: int := 0x7FFF_FFFF_FFFF_FFFF

  datatype Book = Book(asks: seq<Order>, bids: seq<Order>)

  function Side(book: Book, action: OrderAction): seq<Order> {
    if action == ASK then book.asks else book.bids
  }

  function WithSide(book: Book, action: OrderAction, side: seq<Order>): Book {
    if action == ASK then book.(asks := side) else book.(bids := side)
  }

  function Opposite(action: OrderAction): OrderAction {
    if action == ASK then BID else ASK
  }

  /** Price a is strictly better than price b for orders of the given side. */
  predicate Better(side: OrderAction, a: int, b: int) {
    if side == ASK then a < b else b < a
  }

  /** A taker with this limit trades with a maker at this price; no limit trades at any price. */
  predicate Crosses(makerSide: OrderAction, price: int, limit: Option<int>) {
    limit.None? || !Better(makerSide, limit.value, price)
  }

  // ----- Matching -----

  datatype Matching = Matching(rest: seq<Order>, events: seq<Event>, left: int)

  function HoldPrice(makerSide: OrderAction, takerReserve: int, maker: Order): int {
    if makerSide == ASK then takerReserve else maker.reserveBidPrice
  }

  function TradeEvent(maker: Order, makerSide: OrderAction, need: int, takerReserve: int): Event {
    var v := Min(need, maker.Remaining());
    Trade(maker.orderId, maker.uid, v == maker.Remaining(), v == need, maker.price, v,
          HoldPrice(makerSide, takerReserve, maker))
  }

  /** Makers are consumed from the front while the taker needs more and the price crosses. */
  function Match(makers: seq<Order>, makerSide: OrderAction, limit: Option<int>, need: int,
                 takerReserve: int): Matching {
    if need <= 0 || makers == [] || !Crosses(makerSide, makers[0].price, limit) then
      Matching(makers, [], need)
    else
      var maker := makers[0];
      var v := Min(need, maker.Remaining());
      var event := TradeEvent(maker, makerSide, need, takerReserve);
      if v == maker.Remaining() then
        var r := Match(makers[1..], makerSide, limit, need - v, takerReserve);
        r.(events := [event] + r.events)
      else
        Matching([maker.(filled := maker.filled + v)] + makers[1..], [event], need - v)
  }

  /** Cost of filling `size` from the front, if there is enough. */
  function Budget(makers: seq<Order>, size: int): Option<int> {
    if makers == [] then None
    else if size <= makers[0].Remaining() then Some(size * makers[0].price)
    else
      var rest := Budget(makers[1..], size - makers[0].Remaining());
      if rest.None? then None else Some(makers[0].Remaining() * makers[0].price + rest.value)
  }

  predicate BudgetSatisfied(action: OrderAction, cost: int, limit: int) {
    cost == limit || ((action == BID) != (cost > limit))
  }

  // ----- Changing a side -----

  /** Where an order of this price is inserted: after every order that is not worse. */
  function Place(side: seq<Order>, action: OrderAction, price: int): (p: nat)
    ensures p <= |side|
  {
    if side == [] || Better(action, price, side[0].price) then 0 else 1 + Place(side[1..], action, price)
  }

  function InsertAt<T>(s: seq<T>, p: nat, x: T): seq<T>
    requires p <= |s|
  {
    s[..p] + [x] + s[p..]
  }

  function RemoveAt<T>(s: seq<T>, i: nat): seq<T>
    requires i < |s|
  {
    s[..i] + s[i + 1..]
  }

  function Insert(side: seq<Order>, o: Order): seq<Order> {
    InsertAt(side, Place(side, o.action, o.price), o)
  }

  /** Position of the order with an id, |side| if there is none. */
  function Find(side: seq<Order>, orderId: int): (i: nat)
    ensures i <= |side|
    ensures i < |side| ==> side[i].orderId == orderId
    ensures forall j | 0 <= j < i :: side[j].orderId != orderId
  {
    if side == [] || side[0].orderId == orderId then 0 else 1 + Find(side[1..], orderId)
  }

  predicate Has(side: seq<Order>, orderId: int) {
    Find(side, orderId) < |side|
  }

  function Lookup(book: Book, orderId: int): Option<Order> {
    if Has(book.asks, orderId) then Some(book.asks[Find(book.asks, orderId)])
    else if Has(book.bids, orderId) then Some(book.bids[Find(book.bids, orderId)])
    else None
  }

  function Without(book: Book, o: Order): Book {
    var side := Side(book, o.action);
    if Has(side, o.orderId) then WithSide(book, o.action, RemoveAt(side, Find(side, o.orderId))) else book
  }

  function WithOrder(book: Book, o: Order): Book {
    WithSide(book, o.action, Insert(Side(book, o.action), o))
  }

  // ----- Commands -----

  datatype Outcome = Outcome(book: Book, code: ResultCode, events: seq<Event>, action: OrderAction)

  function NewOrder(book: Book, r: Request): Outcome {
    var makers := Side(book, Opposite(r.action));
    match r.orderType
    case GTC =>
      var taken := Match(makers, Opposite(r.action), Some(r.price), r.size, r.reserveBidPrice);
      var after := WithSide(book, Opposite(r.action), taken.rest);
      if taken.left == 0 then Outcome(after, SUCCESS, taken.events, r.action)
      else if Lookup(after, r.orderId).Some? then
        Outcome(after, SUCCESS, [Reject(r.price, taken.left, r.reserveBidPrice)] + taken.events, r.action)
      else
        var o := Order(r.orderId, r.price, r.size, r.size - taken.left, r.reserveBidPrice, r.action, r.uid,
                       r.timestamp);
        Outcome(WithOrder(after, o), SUCCESS, taken.events, r.action)
    case IOC =>
      var taken := Match(makers, Opposite(r.action), Some(r.price), r.size, r.reserveBidPrice);
      var rejected := if taken.left == 0 then [] else [Reject(r.price, taken.left, r.reserveBidPrice)];
      Outcome(WithSide(book, Opposite(r.action), taken.rest), SUCCESS, rejected + taken.events, r.action)
    case FOK_BUDGET =>
      var cost := Budget(makers, r.size);
      if cost.Some? && BudgetSatisfied(r.action, cost.value, r.price) then
        var taken := Match(makers, Opposite(r.action), None, r.size, r.reserveBidPrice);
        Outcome(WithSide(book, Opposite(r.action), taken.rest), SUCCESS, taken.events, r.action)
      else
        Outcome(book, SUCCESS, [Reject(r.price, r.size, r.reserveBidPrice)], r.action)
    case _ =>
      Outcome(book, SUCCESS, [Reject(r.price, r.size, r.reserveBidPrice)], r.action)
  }

  function CancelOrder(book: Book, r: Request): Outcome {
    var found := Lookup(book, r.orderId);
    if found.None? || found.value.uid != r.uid then Outcome(book, MATCHING_UNKNOWN_ORDER_ID, [], r.action)
    else
      var o := found.value;
      Outcome(Without(book, o), SUCCESS, [Reduce(o.price, o.Remaining(), o.reserveBidPrice, true)], o.action)
  }

  function ReduceOrder(book: Book, r: Request): Outcome {
    var found := Lookup(book, r.orderId);
    if r.size <= 0 then Outcome(book, MATCHING_REDUCE_FAILED_WRONG_SIZE, [], r.action)
    else if found.None? || found.value.uid != r.uid then Outcome(book, MATCHING_UNKNOWN_ORDER_ID, [], r.action)
    else
      var o := found.value;
      var reduceBy := Min(o.Remaining(), r.size);
      if reduceBy == o.Remaining() then
        Outcome(Without(book, o), SUCCESS, [Reduce(o.price, reduceBy, o.reserveBidPrice, true)], o.action)
      else
        var side := Side(book, o.action);
        var i := Find(side, o.orderId);
        Outcome(if i < |side| then WithSide(book, o.action, side[i := o.(size := o.size - reduceBy)]) else book,
                SUCCESS, [Reduce(o.price, reduceBy, o.reserveBidPrice, false)], o.action)
  }

  function MoveOrder(book: Book, symbol: SymbolType, r: Request): Outcome {
    var found := Lookup(book, r.orderId);
    if found.None? || found.value.uid != r.uid then Outcome(book, MATCHING_UNKNOWN_ORDER_ID, [], r.action)
    else
      var o := found.value;
      if symbol == CURRENCY_EXCHANGE_PAIR && o.action == BID && r.price > o.reserveBidPrice then
        Outcome(book, MATCHING_MOVE_FAILED_PRICE_OVER_RISK_LIMIT, [], r.action)
      else
        var lifted := Without(book, o);
        var taken := Match(Side(lifted, Opposite(o.action)), Opposite(o.action), Some(r.price), o.Remaining(),
                           o.reserveBidPrice);
        var after := WithSide(lifted, Opposite(o.action), taken.rest);
        if taken.left == 0 then Outcome(after, SUCCESS, taken.events, o.action)
        else Outcome(WithOrder(after, o.(price := r.price, filled := o.size - taken.left)), SUCCESS, taken.events,
                     o.action)
  }

  /** Dispatch of one command; a place command is executed only if it passed the risk check. */
  function Step(book: Book, symbol: SymbolType, r: Request): Outcome {
    match r.command
    case MOVE_ORDER => MoveOrder(book, symbol, r)
    case CANCEL_ORDER => CancelOrder(book, r)
    case REDUCE_ORDER => ReduceOrder(book, r)
    case PLACE_ORDER =>
      if r.resultCode == VALID_FOR_MATCHING_ENGINE then NewOrder(book, r) else Outcome(book, r.resultCode, [], r.action)
    case ORDER_BOOK_REQUEST => Outcome(book, SUCCESS, [], r.action)
    case OTHER_COMMAND => Outcome(book, MATCHING_UNSUPPORTED_COMMAND, [], r.action)
  }

  // ----- The invariant -----

  predicate Live(o: Order, side: OrderAction) {
    o.action == side && 0 <= o.filled < o.size && 0 <= o.price <= MAX_KEY
  }

  ghost predicate Ranked(side: seq<Order>, action: OrderAction) {
    forall i, j | 0 <= i < j < |side| :: !Better(action, side[j].price, side[i].price)
  }

  ghost predicate SideOk(side: seq<Order>, action: OrderAction) {
    (forall i | 0 <= i < |side| :: Live(side[i], action)) && Ranked(side, action)
  }

  ghost predicate DistinctIds(side: seq<Order>) {
    forall i, j | 0 <= i < j < |side| :: side[i].orderId != side[j].orderId
  }

  ghost predicate NoSharedIds(a: seq<Order>, b: seq<Order>) {
    forall i, j | 0 <= i < |a| && 0 <= j < |b| :: a[i].orderId != b[j].orderId
  }

  /** The book is never crossed: every bid is strictly below every ask. */
  ghost predicate NotCrossed(asks: seq<Order>, bids: seq<Order>) {
    forall i, j | 0 <= i < |asks| && 0 <= j < |bids| :: bids[j].price < asks[i].price
  }

  ghost predicate BookOk(book: Book) {
    && SideOk(book.asks, ASK) && SideOk(book.bids, BID)
    && DistinctIds(book.asks) && DistinctIds(book.bids) && NoSharedIds(book.asks, book.bids)
    && NotCrossed(book.asks, book.bids)
  }

  /** What the exchange demands of a command: prices in range, and a positive size for a new order. */
  predicate RequestOk(r: Request) {
    && 0 <= r.price <= MAX_KEY
    && (r.command == PLACE_ORDER ==> 0 < r.size)
  }

  /** A fill-or-kill cost is never the sentinel that stands for "not enough". */
  ghost predicate Representable(book: Book, r: Request) {
    r.command == PLACE_ORDER && r.orderType == FOK_BUDGET ==>
        Budget(Side(book, Opposite(r.action)), r.size) != Some(INT64_MAX)
  }
}
