/** What a risk shard is worth in one currency: accounts, positions at their marks, fees, adjustments and suspends;
    and how each operation of the shard moves it. */
module Worth {
  import opened OrderTypes
  import opened BookFacts
  import opened BookTheorems
  import opened Positions
  import opened RiskSpec
  import opened Sums

  /** A mark price for every symbol. */
  type Marks = int -> int

  ghost function EquityIn(c: int, marks: Marks): (int, Position) -> int {
    (symbol: int, q: Position) => if q.currency == c then Equity(q, marks(symbol)) else 0
  }

  ghost function ProfileWorth(p: Profile, c: int, marks: Marks): int {
    Balance(p.accounts, c) + Total(p.positions, EquityIn(c, marks))
  }

  ghost function WorthIn(c: int, marks: Marks): (int, Profile) -> int {
    (uid: int, p: Profile) => ProfileWorth(p, c, marks)
  }

  ghost function ShardWorth(sh: Shard, c: int, marks: Marks): int {
    Total(sh.profiles, WorthIn(c, marks)) + Balance(sh.fees, c) + Balance(sh.adjustments, c) + Balance(sh.suspends, c)
  }

  /** x when the currency asked for is d. */
  function At(c: int, d: int, x: int): int { if c == d then x else 0 }

  // ----- Parts -----

  lemma ProfileSet(sh: Shard, uid: int, p: Profile, c: int, marks: Marks)
    ensures ShardWorth(sh.(profiles := sh.profiles[uid := p]), c, marks)
            == ShardWorth(sh, c, marks) + ProfileWorth(p, c, marks)
                - (if uid in sh.profiles then ProfileWorth(sh.profiles[uid], c, marks) else 0)
  {
    TotalUpdate(sh.profiles, uid, p, WorthIn(c, marks));
  }

  lemma NewProfileWorth(status: UserStatus, c: int, marks: Marks)
    ensures ProfileWorth(Profile(status, 0, map[], map[]), c, marks) == 0
  {
    TotalZero<Position>(map[], EquityIn(c, marks));
  }

  lemma KnownWorth(sh: Shard, uid: int, c: int, marks: Marks)
    ensures ShardWorth(Known(sh, uid), c, marks) == ShardWorth(sh, c, marks) && uid in Known(sh, uid).profiles
  {
    NewProfileWorth(SUSPENDED, c, marks);
    ProfileSet(sh, uid, Profile(SUSPENDED, 0, map[], map[]), c, marks);
  }

  lemma AccountsWorth(p: Profile, d: int, x: int, c: int, marks: Marks)
    ensures ProfileWorth(p.(accounts := Plus(p.accounts, d, x)), c, marks) == ProfileWorth(p, c, marks) + At(c, d, x)
  {
  }

  lemma CreditWorth(sh: Shard, uid: int, d: int, x: int, c: int, marks: Marks)
    requires uid in sh.profiles
    ensures ShardWorth(Credit(sh, uid, d, x), c, marks) == ShardWorth(sh, c, marks) + At(c, d, x)
  {
    var p := sh.profiles[uid];
    AccountsWorth(p, d, x, c, marks);
    ProfileSet(sh, uid, p.(accounts := Plus(p.accounts, d, x)), c, marks);
  }

  lemma FeesWorth(sh: Shard, d: int, x: int, c: int, marks: Marks)
    ensures ShardWorth(sh.(fees := Plus(sh.fees, d, x)), c, marks) == ShardWorth(sh, c, marks) + At(c, d, x)
  {
  }

  lemma FeesTakenWorth(sh: Shard, s: Symbol, takerSize: int, makerSize: int, c: int, marks: Marks)
    ensures ShardWorth(FeesTaken(sh, s, takerSize, makerSize), c, marks)
            == ShardWorth(sh, c, marks) + At(c, s.quoteCurrency, s.takerFee * takerSize + s.makerFee * makerSize)
  {
    FeesWorth(sh, s.quoteCurrency, s.takerFee * takerSize + s.makerFee * makerSize, c, marks);
  }

  lemma PositionSet(p: Profile, symbol: int, q: Position, c: int, marks: Marks)
    ensures ProfileWorth(p.(positions := p.positions[symbol := q]), c, marks)
            == ProfileWorth(p, c, marks) + At(c, q.currency, Equity(q, marks(symbol)))
               - (if symbol in p.positions
                  then At(c, p.positions[symbol].currency, Equity(p.positions[symbol], marks(symbol))) else 0)
  {
    TotalUpdate(p.positions, symbol, q, EquityIn(c, marks));
  }

  /** Replacing a record moves the worth of a profile by the change in equity, also when the record is removed. */
  lemma WithPositionWorth(p: Profile, symbol: int, q: Position, c: int, marks: Marks)
    requires PositionOk(q)
    ensures ProfileWorth(WithPosition(p, symbol, q), c, marks)
            == ProfileWorth(p, c, marks) + At(c, q.currency, Equity(q, marks(symbol)))
               - (if symbol in p.positions
                  then At(c, p.positions[symbol].currency, Equity(p.positions[symbol], marks(symbol))) else 0)
  {
    if q.IsEmpty() {
      EmptyEquity(q, marks(symbol));
      AccountsWorth(p, q.currency, q.profit, c, marks);
      if symbol in p.positions {
        TotalRemove(p.positions, symbol, EquityIn(c, marks));
      } else {
        assert p.positions - {symbol} == p.positions;
      }
    } else {
      PositionSet(p, symbol, q, c, marks);
    }
  }

  // ----- Invariant of a shard -----

  /** Every record belongs to a futures symbol, is kept in its currency and is not empty. */
  ghost predicate RecordsOk(p: Profile, specs: map<int, Symbol>) {
    forall symbol: int <- p.positions ::
      && symbol in specs && specs[symbol].kind == FUTURES_CONTRACT
      && PositionOk(p.positions[symbol]) && !p.positions[symbol].IsEmpty()
      && p.positions[symbol].currency == specs[symbol].quoteCurrency
  }

  ghost predicate ShardOk(sh: Shard, specs: map<int, Symbol>) {
    forall uid: int <- sh.profiles :: RecordsOk(sh.profiles[uid], specs)
  }

  lemma RecordIs(sh: Shard, specs: map<int, Symbol>, uid: int, symbol: int)
    requires ShardOk(sh, specs) && uid in sh.profiles && symbol in sh.profiles[uid].positions
    ensures symbol in specs && specs[symbol].kind == FUTURES_CONTRACT && PositionOk(sh.profiles[uid].positions[symbol])
    ensures !sh.profiles[uid].positions[symbol].IsEmpty()
            && sh.profiles[uid].positions[symbol].currency == specs[symbol].quoteCurrency
  {
    assert RecordsOk(sh.profiles[uid], specs);
  }

  lemma ProfileSetOk(sh: Shard, specs: map<int, Symbol>, uid: int, p: Profile)
    requires ShardOk(sh, specs) && RecordsOk(p, specs)
    ensures ShardOk(sh.(profiles := sh.profiles[uid := p]), specs)
  {
  }

  lemma WithPositionOk(p: Profile, specs: map<int, Symbol>, symbol: int, q: Position)
    requires RecordsOk(p, specs) && PositionOk(q)
    requires symbol in specs && specs[symbol].kind == FUTURES_CONTRACT && q.currency == specs[symbol].quoteCurrency
    ensures RecordsOk(WithPosition(p, symbol, q), specs)
  {
  }

  // ----- Hold before matching -----

  /** A hold takes exactly its amount from the account, a refused order takes nothing; futures orders move nothing. */
  lemma PlaceExchangeWorth(p: Profile, s: Symbol, r: Request, c: int, marks: Marks)
    ensures var (q, code) := PlaceExchangeOrder(p, s, r);
            && ProfileWorth(q, c, marks)
               == ProfileWorth(p, c, marks)
                   - (if code == VALID_FOR_MATCHING_ENGINE then At(c, HoldCurrency(s, r), HoldAmount(s, r)) else 0)
            && q.positions == p.positions
            && (code == VALID_FOR_MATCHING_ENGINE ==>
                  PriceCheck(s, r) == VALID_FOR_MATCHING_ENGINE && 0 <= Balance(q.accounts, HoldCurrency(s, r)))
  {
    AccountsWorth(p, HoldCurrency(s, r), 0, c, marks);
    AccountsWorth(p, HoldCurrency(s, r), -HoldAmount(s, r), c, marks);
  }

  lemma HeldKeeps(q: Position, action: OrderAction, size: int, mark: int)
    requires PositionOk(q)
    ensures PositionOk(q.Held(action, size)) && Equity(q.Held(action, size), mark) == Equity(q, mark)
            && q.Held(action, size).currency == q.currency
  {
  }

  lemma PlaceMarginWorth(p: Profile, specs: map<int, Symbol>, symbol: int, r: Request, freeMargin: int, c: int,
                         marks: Marks)
    requires RecordsOk(p, specs) && symbol in specs && specs[symbol].kind == FUTURES_CONTRACT
    ensures ProfileWorth(PlaceMarginOrder(p, symbol, specs[symbol], r, freeMargin).0, c, marks)
            == ProfileWorth(p, c, marks)
  {
    hide ProfileWorth;
    var s := specs[symbol];
    var q := PositionOf(p, symbol, s);
    var asked := p.(accounts := Plus(p.accounts, q.currency, 0));
    AccountsWorth(p, q.currency, 0, c, marks);
    HeldKeeps(q, r.action, r.size, marks(symbol));
    PositionSet(p, symbol, q.Held(r.action, r.size), c, marks);
    PositionSet(asked, symbol, q.Held(r.action, r.size), c, marks);
    WithPositionWorth(asked, symbol, q, c, marks);
  }

  // ----- Settlement of an exchange pair -----

  /** What one event moves: to the shard of the taker and to the shard of the maker, fees included. */
  datatype Share = Share(taker: int, maker: int)

  function Shares(s: Symbol, r: Request, action: OrderAction, e: Event, c: int, mark: int): Share {
    match s.kind
    case CURRENCY_EXCHANGE_PAIR =>
      if !e.Trade?
      then Share(At(c, if action == ASK then s.baseCurrency else s.quoteCurrency, Refund(s, r, action, e)), 0)
      else if action == ASK then
        Share(At(c, s.quoteCurrency, e.price * e.size * s.quoteScaleK),
              At(c, s.quoteCurrency, AmountBidTakerFee(s, e.size, e.bidderHoldPrice - e.price))
                  + At(c, s.baseCurrency, e.size * s.baseScaleK))
      else
        Share(At(c, s.quoteCurrency, (e.size * e.bidderHoldPrice - e.price * e.size) * s.quoteScaleK
                 + s.takerFee * e.size) + At(c, s.baseCurrency, e.size * s.baseScaleK),
              At(c, s.quoteCurrency, AmountBid(s, e.size, e.price)))
    case FUTURES_CONTRACT =>
      if !e.Trade? then Share(0, 0)
      else
        var x := Multiplier(DirectionOf(action)) * (e.size * (mark - e.price));
        Share(At(c, s.quoteCurrency, x), At(c, s.quoteCurrency, -x))
    case OPTION => Share(0, 0)
  }

  function OwnShare(h: Handler, uid: int, e: Event, x: Share): int {
    (if h.Owns(uid) then x.taker else 0) + (if e.Trade? && h.Owns(e.makerUid) then x.maker else 0)
  }

  /** What a chain of events moves into one shard. */
  function ChainShare(h: Handler, s: Symbol, r: Request, action: OrderAction, events: seq<Event>, c: int,
                      mark: int): int {
    if events == [] then 0
    else OwnShare(h, r.uid, events[0], Shares(s, r, action, events[0], c, mark))
           + ChainShare(h, s, r, action, events[1..], c, mark)
  }

  /** A fill-or-kill bid was held at its budget, not at a price per unit. */
  function BudgetCorrection(s: Symbol, r: Request, action: OrderAction, events: seq<Event>, c: int): int {
    if s.kind == CURRENCY_EXCHANGE_PAIR && action == BID && IsFokPlace(r) && events != []
    then At(c, s.quoteCurrency, (r.price - HeldCost(events)) * s.quoteScaleK) else 0
  }

  /** The trades of a chain: a reject or reduce comes first if there is one. */
  function TradesOf(events: seq<Event>): seq<Event> {
    if events == [] || events[0].Trade? then events else events[1..]
  }

  function SettlementShare(h: Handler, s: Symbol, r: Request, action: OrderAction, events: seq<Event>, c: int,
                           mark: int): int {
    ChainShare(h, s, r, action, events, c, mark)
        + (if h.Owns(r.uid) then BudgetCorrection(s, r, action, TradesOf(events), c) else 0)
  }

  ghost predicate TradesOnlyIn(events: seq<Event>) {
    forall i | 0 <= i < |events| :: events[i].Trade?
  }

  /** The first event of a chain may reject or reduce; every other is a trade. */
  ghost predicate ChainOk(events: seq<Event>) {
    (forall i | 0 < i < |events| :: events[i].Trade?) && forall i | 0 <= i < |events| :: 0 < events[i].size
  }

  // One trade of a selling taker, the maker fee and the taker's proceeds counted in.
  lemma SellEventWorth(sh: Shard, h: Handler, s: Symbol, r: Request, e: Event, c: int, marks: Marks, mark: int)
    requires e.Trade? && s.kind == CURRENCY_EXCHANGE_PAIR
    ensures ShardWorth(SellMaker(sh, h, s, e), c, marks) + At(c, s.quoteCurrency, s.makerFee * OwnSizeOf(h, e))
            + (if h.Owns(r.uid) then At(c, s.quoteCurrency, e.price * e.size * s.quoteScaleK) else 0)
            == ShardWorth(sh, c, marks) + OwnShare(h, r.uid, e, Shares(s, r, ASK, e, c, mark))
  {
    hide ShardWorth, SellMaker;
    SellMakerWorth(sh, h, s, e, c, marks);
  }

  function OwnSizeOf(h: Handler, e: Event): int {
    if e.Trade? && h.Owns(e.makerUid) then e.size else 0
  }

  lemma OwnSizeStep(h: Handler, events: seq<Event>)
    requires events != []
    ensures OwnSize(h, events) == OwnSizeOf(h, events[0]) + OwnSize(h, events[1..])
  {
  }

  lemma AtSum(c: int, d: int, x: int, y: int)
    ensures At(c, d, x + y) == At(c, d, x) + At(c, d, y)
  {
  }

  // What the makers of a selling taker get over a chain of trades, the maker fees and the taker's proceeds counted in.
  lemma {:induction false} SellMakersWorth(sh: Shard, h: Handler, s: Symbol, r: Request, events: seq<Event>, c: int,
                                           marks: Marks, mark: int)
    requires TradesOnlyIn(events) && s.kind == CURRENCY_EXCHANGE_PAIR
    ensures ShardWorth(SellMakers(sh, h, s, events), c, marks) + At(c, s.quoteCurrency, s.makerFee * OwnSize(h, events))
            + (if h.Owns(r.uid) then At(c, s.quoteCurrency, Cost(events) * s.quoteScaleK) else 0)
            == ShardWorth(sh, c, marks) + ChainShare(h, s, r, ASK, events, c, mark)
    decreases |events|
  {
    hide ShardWorth, Shares, OwnShare, SellMaker, OwnSizeOf, Handler.Owns;
    if events != [] {
      hide At, OwnSize;
      var e := events[0];
      assert e.Trade?;
      SellEventWorth(sh, h, s, r, e, c, marks, mark);
      SellMakersWorth(SellMaker(sh, h, s, e), h, s, r, events[1..], c, marks, mark);
      OwnSizeStep(h, events);
      Products(s, e, Cost(events[1..]), OwnSizeOf(h, e), OwnSize(h, events[1..]));
      AtSum(c, s.quoteCurrency, e.price * e.size * s.quoteScaleK, Cost(events[1..]) * s.quoteScaleK);
      AtSum(c, s.quoteCurrency, s.makerFee * OwnSizeOf(h, e), s.makerFee * OwnSize(h, events[1..]));
    }
  }

  lemma Products(s: Symbol, e: Event, cost: int, own: int, owns: int)
    ensures (e.price * e.size + cost) * s.quoteScaleK == e.price * e.size * s.quoteScaleK + cost * s.quoteScaleK
    ensures s.makerFee * (own + owns) == s.makerFee * own + s.makerFee * owns
  {
  }

  lemma SellMakerWorth(sh: Shard, h: Handler, s: Symbol, e: Event, c: int, marks: Marks)
    requires e.Trade?
    ensures ShardWorth(SellMaker(sh, h, s, e), c, marks)
            + (if h.Owns(e.makerUid) then At(c, s.quoteCurrency, s.makerFee * e.size) else 0)
            == ShardWorth(sh, c, marks) + if h.Owns(e.makerUid)
                then At(c, s.quoteCurrency, AmountBidTakerFee(s, e.size, e.bidderHoldPrice - e.price))
                       + At(c, s.baseCurrency, e.size * s.baseScaleK) else 0
  {
    hide ShardWorth;
    if h.Owns(e.makerUid) {
      var k := Known(sh, e.makerUid);
      KnownWorth(sh, e.makerUid, c, marks);
      var x := AmountBidReleaseCorrMaker(s, e.size, e.bidderHoldPrice - e.price);
      CreditWorth(k, e.makerUid, s.quoteCurrency, x, c, marks);
      CreditWorth(Credit(k, e.makerUid, s.quoteCurrency, x), e.makerUid, s.baseCurrency, AmountAsk(s, e.size), c,
                  marks);
      MakerFeeIn(s, e.size, e.bidderHoldPrice - e.price);
    }
  }

  lemma MakerFeeIn(s: Symbol, size: int, diff: int)
    ensures AmountBidReleaseCorrMaker(s, size, diff) + s.makerFee * size == AmountBidTakerFee(s, size, diff)
  {
    var a := diff * s.quoteScaleK;
    assert size * (a + (s.takerFee - s.makerFee)) + s.makerFee * size == size * (a + s.takerFee);
  }

  // One trade of a buying taker, the maker fee, the taker's release and its proceeds counted in.
  lemma BuyEventWorth(sh: Shard, h: Handler, s: Symbol, r: Request, e: Event, c: int, marks: Marks, mark: int)
    requires e.Trade? && s.kind == CURRENCY_EXCHANGE_PAIR
    ensures ShardWorth(BuyMaker(sh, h, s, e), c, marks) + At(c, s.quoteCurrency, s.makerFee * OwnSizeOf(h, e))
            + (if h.Owns(r.uid) then TakerBuys(s, e.size * e.bidderHoldPrice, e.price * e.size, e.size, c) else 0)
            == ShardWorth(sh, c, marks) + OwnShare(h, r.uid, e, Shares(s, r, BID, e, c, mark))
  {
    hide ShardWorth, BuyMaker;
    BuyMakerWorth(sh, h, s, e, c, marks);
  }

  function TakerBuys(s: Symbol, held: int, cost: int, size: int, c: int): int {
    At(c, s.quoteCurrency, (held - cost) * s.quoteScaleK + s.takerFee * size)
        + At(c, s.baseCurrency, size * s.baseScaleK)
  }

  lemma {:induction false} BuyMakersWorth(sh: Shard, h: Handler, s: Symbol, r: Request, events: seq<Event>, c: int,
                                          marks: Marks, mark: int)
    requires TradesOnlyIn(events) && s.kind == CURRENCY_EXCHANGE_PAIR
    ensures ShardWorth(BuyMakers(sh, h, s, events), c, marks) + At(c, s.quoteCurrency, s.makerFee * OwnSize(h, events))
            + (if h.Owns(r.uid) then TakerBuys(s, HeldCost(events), Cost(events), Traded(events), c) else 0)
            == ShardWorth(sh, c, marks) + ChainShare(h, s, r, BID, events, c, mark)
    decreases |events|
  {
    hide ShardWorth, Shares, OwnShare, BuyMaker, OwnSizeOf, Handler.Owns;
    if events != [] {
      hide At, OwnSize, TakerBuys;
      var e := events[0];
      assert e.Trade?;
      BuyEventWorth(sh, h, s, r, e, c, marks, mark);
      BuyMakersWorth(BuyMaker(sh, h, s, e), h, s, r, events[1..], c, marks, mark);
      OwnSizeStep(h, events);
      Products(s, e, 0, OwnSizeOf(h, e), OwnSize(h, events[1..]));
      AtSum(c, s.quoteCurrency, s.makerFee * OwnSizeOf(h, e), s.makerFee * OwnSize(h, events[1..]));
      TakerBuysSum(s, e.size * e.bidderHoldPrice, e.price * e.size, e.size, HeldCost(events[1..]), Cost(events[1..]),
                   Traded(events[1..]), c);
    }
  }

  lemma TakerBuysSum(s: Symbol, held: int, cost: int, size: int, held': int, cost': int, size': int, c: int)
    ensures TakerBuys(s, held + held', cost + cost', size + size', c)
            == TakerBuys(s, held, cost, size, c) + TakerBuys(s, held', cost', size', c)
  {
    assert (held + held' - (cost + cost')) * s.quoteScaleK
           == (held - cost) * s.quoteScaleK + (held' - cost') * s.quoteScaleK;
    assert s.takerFee * (size + size') == s.takerFee * size + s.takerFee * size';
    assert (size + size') * s.baseScaleK == size * s.baseScaleK + size' * s.baseScaleK;
  }

  lemma BuyMakerWorth(sh: Shard, h: Handler, s: Symbol, e: Event, c: int, marks: Marks)
    requires e.Trade?
    ensures ShardWorth(BuyMaker(sh, h, s, e), c, marks)
            + (if h.Owns(e.makerUid) then At(c, s.quoteCurrency, s.makerFee * e.size) else 0)
            == ShardWorth(sh, c, marks) + if h.Owns(e.makerUid)
                then At(c, s.quoteCurrency, AmountBid(s, e.size, e.price)) else 0
  {
    hide ShardWorth;
    if h.Owns(e.makerUid) {
      KnownWorth(sh, e.makerUid, c, marks);
      CreditWorth(Known(sh, e.makerUid), e.makerUid, s.quoteCurrency,
                  AmountBid(s, e.size, e.price) - s.makerFee * e.size, c, marks);
    }
  }

  lemma SellWorth(sh: Shard, h: Handler, s: Symbol, r: Request, events: seq<Event>, c: int, marks: Marks, mark: int)
    requires TradesOnlyIn(events) && s.kind == CURRENCY_EXCHANGE_PAIR
    ensures ShardWorth(ExchangeSell(sh, h, s, r.uid, events), c, marks)
            == ShardWorth(sh, c, marks) + ChainShare(h, s, r, ASK, events, c, mark)
  {
    hide ShardWorth, ChainShare, SellMakers, OwnSize, Cost, Traded, FeesTaken;
    var a := SellMakers(sh, h, s, events);
    var own := OwnSize(h, events);
    SellMakersWorth(sh, h, s, r, events, c, marks, mark);
    KnownWorth(a, r.uid, c, marks);
    var x := Cost(events) * s.quoteScaleK - s.takerFee * Traded(events);
    CreditWorth(Known(a, r.uid), r.uid, s.quoteCurrency, x, c, marks);
    FeesTakenWorth(Credit(Known(a, r.uid), r.uid, s.quoteCurrency, x), s, Traded(events), own, c, marks);
    FeesTakenWorth(a, s, 0, own, c, marks);
  }

  lemma BuyWorth(sh: Shard, h: Handler, s: Symbol, r: Request, events: seq<Event>, c: int, marks: Marks, mark: int)
    requires TradesOnlyIn(events) && s.kind == CURRENCY_EXCHANGE_PAIR && events != []
    ensures ShardWorth(ExchangeBuy(sh, h, s, r, events), c, marks)
            == ShardWorth(sh, c, marks) + SettlementShare(h, s, r, BID, events, c, mark)
  {
    hide ShardWorth, ChainShare, BuyMakers, OwnSize, Cost, Traded, HeldCost, FeesTaken;
    var a := BuyMakers(sh, h, s, events);
    var own := OwnSize(h, events);
    var held := if IsFokPlace(r) then r.price else HeldCost(events);
    BuyMakersWorth(sh, h, s, r, events, c, marks, mark);
    KnownWorth(a, r.uid, c, marks);
    var x := (held - Cost(events)) * s.quoteScaleK;
    var b := Credit(Known(a, r.uid), r.uid, s.quoteCurrency, x);
    CreditWorth(Known(a, r.uid), r.uid, s.quoteCurrency, x, c, marks);
    CreditWorth(b, r.uid, s.baseCurrency, Traded(events) * s.baseScaleK, c, marks);
    FeesTakenWorth(Credit(b, r.uid, s.baseCurrency, Traded(events) * s.baseScaleK), s, Traded(events), own, c, marks);
    FeesTakenWorth(a, s, 0, own, c, marks);
    assert events[0].Trade?;
    Differ(r.price, HeldCost(events), Cost(events), s.quoteScaleK);
  }

  lemma Differ(a: int, b: int, x: int, k: int)
    ensures (a - x) * k == (b - x) * k + (a - b) * k
  {
  }

  /** Settling a chain moves exactly its share into the shard. */
  lemma SettleExchangeWorth(sh: Shard, h: Handler, s: Symbol, r: Request, action: OrderAction, events: seq<Event>,
                            c: int, marks: Marks, mark: int)
    requires ChainOk(events) && events != [] && s.kind == CURRENCY_EXCHANGE_PAIR
    ensures ShardWorth(SettleExchange(sh, h, s, r, action, events), c, marks)
            == ShardWorth(sh, c, marks) + SettlementShare(h, s, r, action, events, c, mark)
  {
    hide ShardWorth, ExchangeSell, ExchangeBuy, ChainOk, Shares, TradesOnlyIn, Credit, Refund, At, ChainShare,
         BudgetCorrection;
    var a := if h.Owns(r.uid) then Known(sh, r.uid) else sh;
    KnownWorth(sh, r.uid, c, marks);
    var first := events[0];
    RestTrades(events);
    if first.Trade? {
      TradesWorth(a, h, s, r, action, events, c, marks, mark);
    } else {
      var cur := if action == ASK then s.baseCurrency else s.quoteCurrency;
      if h.Owns(r.uid) { CreditWorth(a, r.uid, cur, Refund(s, r, action, first), c, marks); }
      var b := if h.Owns(r.uid) then Credit(a, r.uid, cur, Refund(s, r, action, first)) else a;
      RefundShare(s, r, action, first, c, mark);
      FirstShare(h, s, r, action, events, c, mark);
      if events[1..] != [] {
        TradesWorth(b, h, s, r, action, events[1..], c, marks, mark);
      } else {
        NoShare(h, s, r, action, c, mark);
      }
    }
  }

  lemma TradesWorth(sh: Shard, h: Handler, s: Symbol, r: Request, action: OrderAction, trades: seq<Event>, c: int,
                    marks: Marks, mark: int)
    requires TradesOnlyIn(trades) && trades != [] && s.kind == CURRENCY_EXCHANGE_PAIR
    ensures TradesOf(trades) == trades
    ensures ShardWorth(if action == ASK then ExchangeSell(sh, h, s, r.uid, trades)
                       else ExchangeBuy(sh, h, s, r, trades), c, marks)
            == ShardWorth(sh, c, marks) + SettlementShare(h, s, r, action, trades, c, mark)
  {
    hide ShardWorth, ExchangeSell, ExchangeBuy;
    assert trades[0].Trade?;
    if action == ASK {
      SellWorth(sh, h, s, r, trades, c, marks, mark);
    } else {
      BuyWorth(sh, h, s, r, trades, c, marks, mark);
    }
  }

  lemma FirstShare(h: Handler, s: Symbol, r: Request, action: OrderAction, events: seq<Event>, c: int, mark: int)
    requires events != [] && !events[0].Trade? && s.kind == CURRENCY_EXCHANGE_PAIR
    ensures ChainShare(h, s, r, action, events, c, mark)
            == (if h.Owns(r.uid)
                then At(c, if action == ASK then s.baseCurrency else s.quoteCurrency, Refund(s, r, action, events[0]))
                else 0)
               + ChainShare(h, s, r, action, events[1..], c, mark)
  {
  }

  lemma NoShare(h: Handler, s: Symbol, r: Request, action: OrderAction, c: int, mark: int)
    ensures ChainShare(h, s, r, action, [], c, mark) == 0 && BudgetCorrection(s, r, action, [], c) == 0
  {
  }

  lemma RestTrades(events: seq<Event>)
    requires ChainOk(events) && events != []
    ensures TradesOnlyIn(events[1..]) && ChainOk(events[1..]) && (events[0].Trade? ==> TradesOnlyIn(events))
            && (|events| > 1 ==> events[1].Trade?) && 0 < events[0].size
  {
  }

  lemma RefundShare(s: Symbol, r: Request, action: OrderAction, e: Event, c: int, mark: int)
    requires !e.Trade? && s.kind == CURRENCY_EXCHANGE_PAIR
    ensures Shares(s, r, action, e, c, mark)
            == Share(At(c, if action == ASK then s.baseCurrency else s.quoteCurrency, Refund(s, r, action, e)), 0)
  {
  }
}
