/** Orders, commands and matcher events of one symbol. */
module OrderTypes {
  import opened Wrappers

  datatype OrderAction = ASK | BID

  datatype OrderType = GTC | IOC | IOC_BUDGET | FOK | FOK_BUDGET

  datatype SymbolType = CURRENCY_EXCHANGE_PAIR | FUTURES_CONTRACT | OPTION

  datatype CommandType = PLACE_ORDER | CANCEL_ORDER | MOVE_ORDER | REDUCE_ORDER | ORDER_BOOK_REQUEST | OTHER_COMMAND

  datatype ResultCode =
    | VALID_FOR_MATCHING_ENGINE
    | SUCCESS
    | MATCHING_UNKNOWN_ORDER_ID
    | MATCHING_MOVE_FAILED_PRICE_OVER_RISK_LIMIT
    | MATCHING_REDUCE_FAILED_WRONG_SIZE
    | MATCHING_UNSUPPORTED_COMMAND
    | MATCHING_INVALID_ORDER_BOOK_ID
    | AUTH_INVALID_USER
    | INVALID_SYMBOL
    | UNSUPPORTED_SYMBOL_TYPE
    | RISK_NSF
    | RISK_INVALID_RESERVE_BID_PRICE
    | RISK_ASK_PRICE_LOWER_THAN_FEE
    | RISK_MARGIN_TRADING_DISABLED
    | USER_MGMT_USER_NOT_FOUND
    | USER_MGMT_USER_ALREADY_EXISTS
    | USER_MGMT_USER_ALREADY_SUSPENDED
    | USER_MGMT_USER_NOT_SUSPENDED
    | USER_MGMT_USER_NOT_SUSPENDABLE_HAS_POSITIONS
    | USER_MGMT_USER_NOT_SUSPENDABLE_NON_EMPTY_ACCOUNTS
    | USER_MGMT_ACCOUNT_BALANCE_ADJUSTMENT_ALREADY_APPLIED_SAME
    | USER_MGMT_ACCOUNT_BALANCE_ADJUSTMENT_ALREADY_APPLIED_MANY
    | USER_MGMT_ACCOUNT_BALANCE_ADJUSTMENT_NSF

  /** A resting order. */
  datatype Order = Order(orderId: int, price: int, size: int, filled: int, reserveBidPrice: int, action: OrderAction,
                         uid: int, timestamp: int)
  {
    function Remaining(): int { size - filled }
  }

  /** A matcher event, with the fields the matching engine sets for its type. */
  datatype Event =
    | Trade(makerId: int, makerUid: int, makerCompleted: bool, takerCompleted: bool, price: int, size: int,
            bidderHoldPrice: int)
    | Reduce(price: int, size: int, bidderHoldPrice: int, completed: bool)
    | Reject(price: int, size: int, bidderHoldPrice: int)

  /** One price level as market data shows it. */
  datatype Level = Level(volume: int, orders: int)

  /** The best levels of both sides, best first. */
  datatype MarketData = MarketData(asks: seq<(int, Level)>, bids: seq<(int, Level)>)

  /** What a command asks for. */
  datatype Request = Request(command: CommandType, orderId: int, price: int, size: int, reserveBidPrice: int,
                             action: OrderAction, orderType: OrderType, uid: int, timestamp: int,
                                 resultCode: ResultCode)

  /** A command in the ring buffer: the request and what the matching engine writes back. */
  class OrderCommand {
    const command: CommandType
    const orderId: int
    const price: int
    const size: int
    const reserveBidPrice: int
    const orderType: OrderType
    const uid: int
    const timestamp: int
    var action: OrderAction
    var resultCode: ResultCode
    var matcherEvent: seq<Event>
    var marketData: Option<MarketData>

    constructor (r: Request)
      ensures Input() == r && matcherEvent == [] && marketData == None
    {
      command, orderId, price, size, reserveBidPrice := r.command, r.orderId, r.price, r.size, r.reserveBidPrice;
      orderType, uid, timestamp, action, resultCode, matcherEvent, marketData :=
          r.orderType, r.uid, r.timestamp, r.action, r.resultCode, [], None;
    }

    function Input(): Request
      reads this
    {
      Request(command, orderId, price, size, reserveBidPrice, action, orderType, uid, timestamp, resultCode)
    }
  }

  function Min(a: int, b: int): int {
    if a <= b then a else b
  }
}
