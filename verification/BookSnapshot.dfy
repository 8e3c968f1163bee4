/** The snapshot of the fast book, field by field, and its restoration by repeated insertion. */
module BookSnapshot {
  import opened Wrappers
  import opened OrderTypes
  import opened BookSpec
  import opened BookIndex
  import opened DirectSides
  import opened DirectBook

  // ----- The fields of an order -----

  const ORDER_FIELDS: nat := 8
  const DIRECT_CODE: int := 2

  function ActionCode(action: OrderAction): int {
    match action case ASK => 0 case BID => 1
  }

  function ActionFromCode(code: int): Option<OrderAction> {
    if code == 0 then Some(ASK) else if code == 1 then Some(BID) else None
  }

  function SymbolCode(symbol: SymbolType): int {
    match symbol case CURRENCY_EXCHANGE_PAIR => 0 case FUTURES_CONTRACT => 1 case OPTION => 2
  }

  function SymbolFromCode(code: int): Option<SymbolType> {
    if code == 0 then Some(CURRENCY_EXCHANGE_PAIR) else if code == 1 then Some(FUTURES_CONTRACT) else if code == 2
    then Some(OPTION) else None
  }

  function OrderFields(o: Order): (f: seq<int>)
    ensures |f| == ORDER_FIELDS
  {
    [o.orderId, o.price, o.size, o.filled, o.reserveBidPrice, ActionCode(o.action), o.uid, o.timestamp]
  }

  /** Reads one order; an unknown action code is an error. */
  function ReadOrder(f: seq<int>): Option<Order>
    requires |f| == ORDER_FIELDS
  {
    var action := ActionFromCode(f[5]);
    if action.None? then None else Some(Order(f[0], f[1], f[2], f[3], f[4], action.value, f[6], f[7]))
  }

  function OrdersFields(orders: seq<Order>): (f: seq<int>)
    ensures |f| == ORDER_FIELDS * |orders|
  {
    if orders == [] then [] else OrderFields(orders[0]) + OrdersFields(orders[1..])
  }

  /** The whole snapshot: implementation type, symbol, number of orders, then asks and bids from the best price on. */
  function BookFields(symbol: SymbolType, book: Book): seq<int> {
    [DIRECT_CODE, SymbolCode(symbol), |book.asks| + |book.bids|] + OrdersFields(book.asks + book.bids)
  }

  lemma {:induction false} FieldsAt(orders: seq<Order>, i: nat)
    requires i < |orders|
    ensures ORDER_FIELDS * i + ORDER_FIELDS <= |OrdersFields(orders)|
    ensures OrdersFields(orders)[ORDER_FIELDS * i..ORDER_FIELDS * i + ORDER_FIELDS] == OrderFields(orders[i])
    ensures ReadOrder(OrderFields(orders[i])) == Some(orders[i])
  {
    if i > 0 {
      FieldsAt(orders[1..], i - 1);
      var rest := OrdersFields(orders[1..]);
      assert OrdersFields(orders) == OrderFields(orders[0]) + rest;
      assert OrdersFields(orders)[ORDER_FIELDS * i..ORDER_FIELDS * i + ORDER_FIELDS]
             == rest[ORDER_FIELDS * (i - 1)..ORDER_FIELDS * (i - 1) + ORDER_FIELDS];
    }
  }

  lemma {:induction false} FieldsConcat(a: seq<Order>, b: seq<Order>)
    ensures OrdersFields(a + b) == OrdersFields(a) + OrdersFields(b)
  {
    if a == [] {
      assert a + b == b;
    } else {
      FieldsConcat(a[1..], b);
      assert (a + b)[1..] == a[1..] + b;
      assert OrderFields(a[0]) + (OrdersFields(a[1..]) + OrdersFields(b))
             == (OrderFields(a[0]) + OrdersFields(a[1..])) + OrdersFields(b);
    }
  }

  // ----- Restoring inserts the orders in the order they were written -----

  /** The first n orders of a book, asks before bids. */
  function FirstOrders(book: Book, n: nat): Book
    requires n <= |book.asks| + |book.bids|
  {
    if n <= |book.asks| then Book(book.asks[..n], []) else Book(book.asks, book.bids[..n - |book.asks|])
  }

  /** The next order continues its side; the other side is written before it or still empty. */
  lemma NextSide(book: Book, n: nat)
    requires BookOk(book) && n < |book.asks| + |book.bids|
    ensures var o, before := (book.asks + book.bids)[n], FirstOrders(book, n);
            var k := |Side(before, o.action)|;
            && Live(o, o.action) && k < |Side(book, o.action)| && Side(book, o.action)[k] == o
               && Side(before, o.action) == Side(book, o.action)[..k]
            && FirstOrders(book, n + 1) == WithSide(before, o.action, Side(before, o.action) + [o])
            && Side(before, Opposite(o.action)) == if o.action == ASK then [] else book.asks
  {
    hide Ranked, DistinctIds, NoSharedIds, NotCrossed;
    var o := (book.asks + book.bids)[n];
    var action := if n < |book.asks| then ASK else BID;
    var k := if n < |book.asks| then n else n - |book.asks|;
    assert o == Side(book, action)[k] && Live(o, action);
    assert Side(book, action)[..k + 1] == Side(book, action)[..k] + [o];
  }

  lemma NextIsNew(book: Book, o: Order, k: nat)
    requires BookOk(book) && k < |Side(book, o.action)| && Side(book, o.action)[k] == o
    ensures !Has(Side(book, o.action)[..k], o.orderId) && !Has(Side(book, Opposite(o.action)), o.orderId)
            && !Has([], o.orderId)
    ensures Place(Side(book, o.action)[..k], o.action, o.price) == k
    ensures forall i | 0 <= i < |book.asks| :: o.action == BID ==> o.price < book.asks[i].price
  {
    hide Has, Place, Live;
    PlaceAtEnd(Side(book, o.action)[..k], o.action, o.price);
    NoneHas(Side(book, o.action)[..k], o.orderId);
    NoneHas(Side(book, Opposite(o.action)), o.orderId);
    NoneHas([], o.orderId);
  }

  /** The next order is inserted at the end of its side. */
  lemma NextOrder(book: Book, n: nat)
    requires BookOk(book) && n < |book.asks| + |book.bids|
    ensures var o, before := (book.asks + book.bids)[n], FirstOrders(book, n);
            && Live(o, o.action) && Lookup(before, o.orderId).None?
            && WithOrder(before, o) == FirstOrders(book, n + 1)
            && (var opposite := Side(before, Opposite(o.action));
                forall i | 0 <= i < |opposite| :: !Crosses(Opposite(o.action), opposite[i].price, Some(o.price)))
  {
    hide Has, Place, BookOk, FirstOrders, Live;
    NextSide(book, n);
    var o, before := (book.asks + book.bids)[n], FirstOrders(book, n);
    var side := Side(before, o.action);
    NextIsNew(book, o, |side|);
    assert Insert(side, o) == side + [o];
  }

  lemma {:induction false} PlaceAtEnd(side: seq<Order>, action: OrderAction, price: int)
    requires forall i | 0 <= i < |side| :: !Better(action, price, side[i].price)
    ensures Place(side, action, price) == |side|
  {
    if side != [] { PlaceAtEnd(side[1..], action, price); }
  }

  /** Writes the book: asks and then bids, each from the best order along the list. */
  method WriteMarshallable(book: OrderBookDirectImpl) returns (data: seq<int>)
    requires book.Valid()
    ensures data == BookFields(book.symbolType, book.Contents())
  {
    hide DirectSide.Valid, BookOk, Live;
    var askOrders := book.asks.CollectOrders();
    var bidOrders := book.bids.CollectOrders();
    data := [DIRECT_CODE, SymbolCode(book.symbolType), |askOrders| + |bidOrders|];
    book.asks.ShownOrders();
    book.bids.ShownOrders();
    var askData := WriteOrders(askOrders, book.asks.orders);
    var bidData := WriteOrders(bidOrders, book.bids.orders);
    FieldsConcat(book.asks.orders, book.bids.orders);
    data := data + (askData + bidData);
  }

  method WriteOrders(l: seq<DirectOrder>, ghost orders: seq<Order>) returns (data: seq<int>)
    requires |l| == |orders| && forall i | 0 <= i < |l| :: l[i].Value() == orders[i]
    ensures data == OrdersFields(orders)
  {
    hide OrdersFields, OrderFields;
    data := [];
    NoFields();
    for i := 0 to |l|
      invariant data == OrdersFields(orders[..i])
    {
      data := data + OrderFields(l[i].Value());
      FieldsConcat(orders[..i], [orders[i]]);
      OneOrder(orders[i]);
      assert orders[..i + 1] == orders[..i] + [orders[i]];
    }
    assert orders[..|l|] == orders;
  }

  lemma NoFields()
    ensures OrdersFields([]) == []
  {
  }

  lemma OneOrder(o: Order)
    ensures OrdersFields([o]) == OrderFields(o)
  {
    assert [o][1..] == [];
  }

  /** Reads a snapshot back: the restored book satisfies the whole invariant and holds the same orders in the same
      order. */
  method Restore(data: seq<int>, ghost symbol: SymbolType, ghost book: Book) returns (restored: OrderBookDirectImpl)
    requires BookOk(book) && data == BookFields(symbol, book)
    ensures restored.Valid() && fresh(restored.Repr) && restored.Contents() == book && restored.symbolType == symbol
  {
    hide OrderBookDirectImpl.Valid, BookOk, OrdersFields, OrderFields, WithOrder, Lookup, ReadOrder;
    var symbolType := SymbolFromCode(data[1]);
    restored := new OrderBookDirectImpl(symbolType.value);
    var size := data[2];
    for i := 0 to size
      invariant restored.Valid() && fresh(restored.Repr) && restored.Contents() == FirstOrders(book, i)
    {
      FieldsAt(book.asks + book.bids, i);
      NextOrder(book, i);
      var at := 3 + ORDER_FIELDS * i;
      assert data[at..at + ORDER_FIELDS] == data[3..][ORDER_FIELDS * i..ORDER_FIELDS * i + ORDER_FIELDS];
      var order := new DirectOrder(ReadOrder(data[at..at + ORDER_FIELDS]).value);
      restored.Restore(order);
    }
  }
}
