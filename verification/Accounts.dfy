/** What holding and settling do to each account, record and fee, written out per user, side and order type. */
module Accounts {
  import opened OrderTypes
  import opened BookSpec
  import opened BookFacts
  import opened BookTheorems
  import opened Positions
  import opened RiskSpec
  import opened Worth

  // ----- Holding for an order on an exchange pair -----

  /** A seller's price pays the fee; a buyer reserves its price, at least or, for a budget, exactly. */
  predicate PriceFits(s: Symbol, r: Request) {
    if r.action == ASK then s.takerFee <= r.price * s.quoteScaleK
    else if r.orderType == FOK_BUDGET || r.orderType == IOC_BUDGET then r.reserveBidPrice == r.price
    else r.price <= r.reserveBidPrice
  }

  function NeededCurrency(s: Symbol, r: Request): int {
    match r.action case ASK => s.baseCurrency case BID => s.quoteCurrency
  }

  function Needed(s: Symbol, r: Request): int {
    if r.action == ASK then r.size * s.baseScaleK
    else if r.orderType == FOK_BUDGET || r.orderType == IOC_BUDGET then r.price * s.quoteScaleK + r.size * s.takerFee
    else r.size * (r.reserveBidPrice * s.quoteScaleK + s.takerFee)
  }

  predicate Covers(accounts: map<int, int>, s: Symbol, r: Request) {
    Needed(s, r) <= Balance(accounts, NeededCurrency(s, r))
  }

  predicate OnlyAccounts(p: Profile, q: Profile) {
    q.status == p.status && q.adjustmentsCounter == p.adjustmentsCounter && q.positions == p.positions
  }

  /** An order of an exchange pair passes exactly if its price fits and the account covers what it needs, which then is
      taken from it; every refusal has its own condition and takes nothing. */
  ghost predicate PairHeld(p: Profile, q: Profile, code: ResultCode, s: Symbol, r: Request) {
    && (code == VALID_FOR_MATCHING_ENGINE <==> PriceFits(s, r) && Covers(p.accounts, s, r))
    && (code == RISK_NSF <==> PriceFits(s, r) && !Covers(p.accounts, s, r))
    && (code == RISK_ASK_PRICE_LOWER_THAN_FEE <==> r.action == ASK && !PriceFits(s, r))
    && (code == RISK_INVALID_RESERVE_BID_PRICE <==> r.action == BID && !PriceFits(s, r))
    && OnlyAccounts(p, q)
    && forall c ::
         Balance(q.accounts, c)
           == Balance(p.accounts, c)
              - if code == VALID_FOR_MATCHING_ENGINE then At(c, NeededCurrency(s, r), Needed(s, r)) else 0
  }

  /** So it is held. */
  lemma HoldIff(p: Profile, s: Symbol, r: Request)
    ensures var (q, code) := PlaceExchangeOrder(p, s, r);
            PairHeld(p, q, code, s, r)
  {
    if r.action == ASK {
    } else if IsBudget(r.orderType) {
    }
  }

  // ----- Holding for an order on a futures contract -----

  /** What a record needs as margin with all pending orders of one side filled, for the side that needs more. */
  function MarginNeed(s: Symbol, q: Position): int {
    var signed := if q.direction == LONG then q.openVolume else if q.direction == SHORT then -q.openVolume else 0;
    var buy := s.marginBuy * (q.pendingBuySize + signed);
    var sell := s.marginSell * (q.pendingSellSize - signed);
    if sell < buy then buy else sell
  }

  function WithPending(q: Position, action: OrderAction, size: int): Position {
    match action
    case ASK => q.(pendingSellSize := q.pendingSellSize + size)
    case BID => q.(pendingBuySize := q.pendingBuySize + size)
  }

  /** A user's record for a symbol; one that is missing has nothing in it. */
  function Record(p: Profile, symbol: int, s: Symbol): Position {
    if symbol in p.positions then p.positions[symbol]
    else Position(s.quoteCurrency, EMPTY, 0, 0, 0, 0, 0)
  }

  predicate NothingIn(q: Position) { q.direction == EMPTY && q.pendingSellSize == 0 && q.pendingBuySize == 0 }

  /** The order does not raise the margin, or account and free margin cover all of it. */
  predicate MarginFits(p: Profile, s: Symbol, q: Position, r: Request, freeMargin: int) {
    var need := MarginNeed(s, WithPending(q, r.action, r.size));
    need <= MarginNeed(s, q) || need <= Balance(p.accounts, q.currency) + freeMargin
  }

  /** The record of a symbol has become q, or, if nothing is in it, is gone with its profit paid to the account; x was
      paid into another currency. */
  ghost predicate Rerecorded(p: Profile, p': Profile, symbol: int, q: Position, d: int, x: int) {
    && p'.status == p.status && p'.adjustmentsCounter == p.adjustmentsCounter
    && p'.positions == (if NothingIn(q) then p.positions - {symbol} else p.positions[symbol := q])
    && forall c :: Balance(p'.accounts, c)
                     == Balance(p.accounts, c) + At(c, d, x) + if NothingIn(q) then At(c, q.currency, q.profit) else 0
  }

  predicate MarginsOk(s: Symbol, q: Position) {
    0 <= s.marginBuy && 0 <= s.marginSell && 0 <= q.pendingBuySize && 0 <= q.pendingSellSize
  }

  lemma NeedIs(q: Position, s: Symbol, action: OrderAction, size: int)
    ensures MarginNeed(s, q) == q.MarginFor(s, 0, 0)
    ensures MarginNeed(s, WithPending(q, action, size))
            == if action == BID then q.MarginFor(s, size, 0) else q.MarginFor(s, 0, size)
  {
    var v := q.openVolume * Multiplier(q.direction);
    assert q.pendingBuySize + size + v == q.pendingBuySize + v + size;
    assert q.pendingSellSize + size - v == q.pendingSellSize - v + size;
  }

  /** An order of a futures contract passes exactly if its margin fits, and then its size is pending; otherwise the
      record is as it was, or gone if nothing is in it. */
  lemma MarginHoldIff(p: Profile, symbol: int, s: Symbol, r: Request, freeMargin: int)
    requires MarginsOk(s, Record(p, symbol, s)) && 0 < r.size
    ensures var q := Record(p, symbol, s);
            var (p', code) := PlaceMarginOrder(p, symbol, s, r, freeMargin);
            if MarginFits(p, s, q, r, freeMargin)
            then code == VALID_FOR_MATCHING_ENGINE
                 && Rerecorded(p, p', symbol, WithPending(q, r.action, r.size), 0, 0)
            else code == RISK_NSF && Rerecorded(p, p', symbol, q, 0, 0)
  {
    var q := Record(p, symbol, s);
    NeedIs(q, s, r.action, r.size);
    MarginForOrderIs(q, s, r.action, r.size);
  }

  /** The check of an order: who may not send it, what is not listed, and else whether it is covered; only the sender's
      profile is touched. */
  lemma HoldChecked(sh: Shard, specs: map<int, Symbol>, marginEnabled: bool, symbol: int, r: Request, freeMargin: int)
    requires CanCheck(sh, specs, symbol, r)
    ensures var (sh', code) := PlaceOrderRiskCheck(sh, specs, marginEnabled, symbol, r, freeMargin);
            Held(sh, sh', code, specs, marginEnabled, symbol, r, freeMargin)
  {
    hide PlaceExchangeOrder, PlaceMarginOrder, PriceFits, Covers, MarginFits, Rerecorded, MarginsOk, Record, Needed;
    if r.uid in sh.profiles && symbol in specs {
      var p, s := sh.profiles[r.uid], specs[symbol];
      HoldIff(p, s, r);
      if s.kind == FUTURES_CONTRACT { MarginHoldIff(p, symbol, s, r, freeMargin); }
      assert sh.profiles[r.uid := p] == sh.profiles;
    }
  }

  predicate CanCheck(sh: Shard, specs: map<int, Symbol>, symbol: int, r: Request) {
    r.uid in sh.profiles && symbol in specs && specs[symbol].kind == FUTURES_CONTRACT ==>
      MarginsOk(specs[symbol], Record(sh.profiles[r.uid], symbol, specs[symbol])) && 0 < r.size
  }

  ghost predicate Held(sh: Shard, sh': Shard, code: ResultCode, specs: map<int, Symbol>, marginEnabled: bool,
                       symbol: int,
                       r: Request, freeMargin: int) {
    if r.uid !in sh.profiles then sh' == sh && code == AUTH_INVALID_USER
    else if symbol !in specs then sh' == sh && code == INVALID_SYMBOL
    else
      && r.uid in sh'.profiles && sh' == sh.(profiles := sh.profiles[r.uid := sh'.profiles[r.uid]])
      && Checked(sh.profiles[r.uid], sh'.profiles[r.uid], code, specs[symbol], marginEnabled, symbol, r, freeMargin)
  }

  ghost predicate Checked(p: Profile, p': Profile, code: ResultCode, s: Symbol, marginEnabled: bool, symbol: int,
                          r: Request, freeMargin: int) {
    match s.kind
    case CURRENCY_EXCHANGE_PAIR =>
      && code == (if PriceFits(s, r) && Covers(p.accounts, s, r) then VALID_FOR_MATCHING_ENGINE else RISK_NSF)
      && OnlyAccounts(p, p')
      && forall c :: Balance(p'.accounts, c)
                       == Balance(p.accounts, c)
                          - if code == VALID_FOR_MATCHING_ENGINE then At(c, NeededCurrency(s, r), Needed(s, r)) else 0
    case FUTURES_CONTRACT =>
      var q := Record(p, symbol, s);
      if !marginEnabled then p' == p && code == RISK_NSF
      else if MarginFits(p, s, q, r, freeMargin)
      then code == VALID_FOR_MATCHING_ENGINE && Rerecorded(p, p', symbol, WithPending(q, r.action, r.size), 0, 0)
      else code == RISK_NSF && Rerecorded(p, p', symbol, q, 0, 0)
    case OPTION => p' == p && code == RISK_NSF
  }

  // ----- Settling trades of an exchange pair -----

  /** The hold of a fill-or-kill order named what the whole fill may cost, not a price for each unit. */
  predicate HeldAsBudget(r: Request) { r.command == PLACE_ORDER && r.orderType == FOK_BUDGET }

  /** What one event gives its taker, fees paid: what was held for what is rejected or reduced; the price of what it
      sold; what was held beyond the price of what it bought, and what it bought. */
  function TakerGets(s: Symbol, r: Request, action: OrderAction, e: Event, c: int): int {
    match action
    case ASK =>
      if e.Trade? then At(c, s.quoteCurrency, e.price * e.size * s.quoteScaleK - s.takerFee * e.size)
      else At(c, s.baseCurrency, e.size * s.baseScaleK)
    case BID =>
      if e.Trade? then
        At(c, s.quoteCurrency,
           (if HeldAsBudget(r) then 0 else e.size * e.bidderHoldPrice * s.quoteScaleK)
               - e.price * e.size * s.quoteScaleK)
        + At(c, s.baseCurrency, e.size * s.baseScaleK)
      else if HeldAsBudget(r) then At(c, s.quoteCurrency, e.price * s.quoteScaleK + e.size * s.takerFee)
      else At(c, s.quoteCurrency, e.size * (e.bidderHoldPrice * s.quoteScaleK + s.takerFee))
  }

  /** What a trade gives its maker, who buys from a selling taker: what it reserved beyond the price and the fee of a
      maker, and what it bought; or sells to a buying one: the price less the fee. */
  function MakerGets(s: Symbol, action: OrderAction, e: Event, c: int): int
    requires e.Trade?
  {
    match action
    case ASK =>
      At(c, s.quoteCurrency, e.size * ((e.bidderHoldPrice - e.price) * s.quoteScaleK + (s.takerFee - s.makerFee)))
      + At(c, s.baseCurrency, e.size * s.baseScaleK)
    case BID => At(c, s.quoteCurrency, e.size * (e.price * s.quoteScaleK) - s.makerFee * e.size)
  }

  function EventGives(s: Symbol, r: Request, action: OrderAction, e: Event, u: int, c: int): int {
    (if u == r.uid then TakerGets(s, r, action, e, c) else 0)
    + (if e.Trade? && u == e.makerUid then MakerGets(s, action, e, c) else 0)
  }

  function ChainGives(s: Symbol, r: Request, action: OrderAction, events: seq<Event>, u: int, c: int): int {
    if events == [] then 0 else EventGives(s, r, action, events[0], u, c) + ChainGives(s, r, action, events[1..], u, c)
  }

  /** The budget of a fill-or-kill bid is given back once, if it traded. */
  function BudgetGives(s: Symbol, r: Request, action: OrderAction, traded: bool, u: int, c: int): int {
    if action == BID && HeldAsBudget(r) && traded && u == r.uid then At(c, s.quoteCurrency, r.price * s.quoteScaleK)
    else 0
  }

  /** The fees a shard takes for its users. */
  function ChainFees(h: Handler, s: Symbol, uid: int, events: seq<Event>): int {
    if events == [] then 0
    else
      var e := events[0];
      (if e.Trade? && h.Owns(uid) then s.takerFee * e.size else 0)
      + (if e.Trade? && h.Owns(e.makerUid) then s.makerFee * e.size else 0)
      + ChainFees(h, s, uid, events[1..])
  }

  ghost predicate HasTrade(events: seq<Event>) {
    exists i | 0 <= i < |events| :: events[i].Trade?
  }

  ghost predicate Makes(events: seq<Event>, u: int) {
    exists i | 0 <= i < |events| :: events[i].Trade? && events[i].makerUid == u
  }

  /** Accounts of these users have changed, who are there now, suspended if they were gone, and nothing else but
      fees. */
  ghost predicate Touched(sh: Shard, sh': Shard, who: int -> bool) {
    && sh'.adjustments == sh.adjustments && sh'.suspends == sh.suspends
    && (forall u :: u in sh'.profiles <==> u in sh.profiles || who(u))
    && forall u <- sh'.profiles ::
         if u in sh.profiles then OnlyAccounts(sh.profiles[u], sh'.profiles[u])
         else OnlyAccounts(Profile(SUSPENDED, 0, map[], map[]), sh'.profiles[u])
  }

  /** A shard settles a chain of an exchange pair: each of its users gets what the events give it, in every currency,
      and the shard takes their fees. */
  ghost predicate Settled(sh: Shard, sh': Shard, h: Handler, s: Symbol, r: Request, action: OrderAction,
                          events: seq<Event>) {
    && (forall u, c ::
          BalanceOf(sh', u, c)
            == BalanceOf(sh, u, c)
               + if h.Owns(u) then ChainGives(s, r, action, events, u, c)
                                   + BudgetGives(s, r, action, HasTrade(events), u, c)
                 else 0)
    && (forall c ::
          Balance(sh'.fees, c) == Balance(sh.fees, c) + At(c, s.quoteCurrency, ChainFees(h, s, r.uid, events)))
    && Touched(sh, sh', u => h.Owns(u) && (u == r.uid || Makes(events, u)))
  }

  // ----- Steps of a settlement -----

  type Gifts = (int, int) -> int

  type Users = int -> bool

  ghost predicate Paid(sh: Shard, sh': Shard, gives: Gifts, who: Users) {
    && (forall u, c :: BalanceOf(sh', u, c) == BalanceOf(sh, u, c) + gives(u, c))
    && sh'.fees == sh.fees
    && Touched(sh, sh', who)
  }

  function ToOne(uid: int, d: int, x: int): Gifts { (u: int, c: int) => if u == uid then At(c, d, x) else 0 }

  function One(uid: int): Users { u => u == uid }

  function Nobody(): Users { u => false }

  function Nothing(): Gifts { (u, c) => 0 }

  function Both(f: Gifts, g: Gifts): Gifts { (u, c) => f(u, c) + g(u, c) }

  function Either(f: Users, g: Users): Users { u => f(u) || g(u) }

  lemma NothingPaid(sh: Shard)
    ensures Paid(sh, sh, Nothing(), Nobody())
  {
  }

  lemma KnownPaid(sh: Shard, uid: int)
    ensures Paid(sh, Known(sh, uid), Nothing(), One(uid)) && uid in Known(sh, uid).profiles
  {
  }

  lemma CreditPaid(sh: Shard, uid: int, d: int, x: int)
    requires uid in sh.profiles
    ensures Paid(sh, Credit(sh, uid, d, x), ToOne(uid, d, x), One(uid)) && uid in Credit(sh, uid, d, x).profiles
  {
  }

  lemma PaidThen(a: Shard, b: Shard, c: Shard, f: Gifts, g: Gifts, v: Users, w: Users)
    requires Paid(a, b, f, v) && Paid(b, c, g, w)
    ensures Paid(a, c, Both(f, g), Either(v, w))
  {
    hide BalanceOf;
    assert forall u :: u in b.profiles ==> u in c.profiles;
  }

  lemma PaidAs(a: Shard, b: Shard, f: Gifts, g: Gifts, v: Users, w: Users)
    requires Paid(a, b, f, v) && (forall u, c :: f(u, c) == g(u, c)) && forall u :: v(u) == w(u)
    ensures Paid(a, b, g, w)
  {
    hide BalanceOf;
  }

  // A user gets x in one currency, after its profile was made if it was gone.
  lemma KnownCredit(sh: Shard, uid: int, d: int, x: int)
    ensures uid in Known(sh, uid).profiles
            && Paid(sh, Credit(Known(sh, uid), uid, d, x), ToOne(uid, d, x), One(uid))
            && uid in Credit(Known(sh, uid), uid, d, x).profiles
  {
    hide Paid, Credit, Known;
    KnownPaid(sh, uid);
    var k := Known(sh, uid);
    CreditPaid(k, uid, d, x);
    PaidThen(sh, k, Credit(k, uid, d, x), Nothing(), ToOne(uid, d, x), One(uid), One(uid));
    PaidAs(sh, Credit(k, uid, d, x), Both(Nothing(), ToOne(uid, d, x)), ToOne(uid, d, x), Either(One(uid), One(uid)),
           One(uid));
  }

  lemma TwoCredits(sh: Shard, uid: int, d: int, x: int, d': int, y: int)
    ensures uid in Known(sh, uid).profiles && uid in Credit(Known(sh, uid), uid, d, x).profiles
            && Paid(sh, Credit(Credit(Known(sh, uid), uid, d, x), uid, d', y),
                    Both(ToOne(uid, d, x), ToOne(uid, d', y)), One(uid))
  {
    hide Paid, Credit, Known;
    KnownCredit(sh, uid, d, x);
    var a := Credit(Known(sh, uid), uid, d, x);
    CreditPaid(a, uid, d', y);
    var f := Both(ToOne(uid, d, x), ToOne(uid, d', y));
    PaidThen(sh, a, Credit(a, uid, d', y), ToOne(uid, d, x), ToOne(uid, d', y), One(uid), One(uid));
    PaidAs(sh, Credit(a, uid, d', y), f, f, Either(One(uid), One(uid)), One(uid));
  }

  // ----- Makers -----

  function MakersGive(h: Handler, s: Symbol, action: OrderAction, events: seq<Event>, u: int, c: int): int {
    if events == [] then 0
    else
      (if events[0].Trade? && u == events[0].makerUid && h.Owns(u) then MakerGets(s, action, events[0], c) else 0)
      + MakersGive(h, s, action, events[1..], u, c)
  }

  function ToMakers(h: Handler, s: Symbol, action: OrderAction, events: seq<Event>): Gifts {
    (u, c) => MakersGive(h, s, action, events, u, c)
  }

  ghost function OwnMakers(h: Handler, events: seq<Event>): Users { u => h.Owns(u) && Makes(events, u) }

  function MakerPaid(sh: Shard, h: Handler, s: Symbol, action: OrderAction, e: Event): Shard {
    if action == ASK then SellMaker(sh, h, s, e) else BuyMaker(sh, h, s, e)
  }

  function MakersPaid(sh: Shard, h: Handler, s: Symbol, action: OrderAction, events: seq<Event>): Shard {
    if action == ASK then SellMakers(sh, h, s, events) else BuyMakers(sh, h, s, events)
  }

  lemma FirstGives(h: Handler, s: Symbol, action: OrderAction, events: seq<Event>)
    requires events != []
    ensures forall u, c ::
              ToMakers(h, s, action, events)(u, c)
                == Both(ToMakers(h, s, action, [events[0]]), ToMakers(h, s, action, events[1..]))(u, c)
    ensures forall u, c ::
              ToMakers(h, s, action, [events[0]])(u, c)
                == if events[0].Trade? && u == events[0].makerUid && h.Owns(u) then MakerGets(s, action, events[0], c)
                    else 0
  {
    hide MakerGets, Handler.Owns;
    assert [events[0]][1..] == [];
    forall u, c
      ensures ToMakers(h, s, action, [events[0]])(u, c)
              == if events[0].Trade? && u == events[0].makerUid && h.Owns(u) then MakerGets(s, action, events[0], c)
                  else 0
    {
      assert MakersGive(h, s, action, [events[0]][1..], u, c) == 0;
    }
  }

  lemma OneMakes(h: Handler, e: Event)
    ensures forall u :: OwnMakers(h, [e])(u) <==> e.Trade? && e.makerUid == u && h.Owns(u)
  {
    hide Handler.Owns;
    assert [e][0] == e;
  }

  lemma OneMaker(sh: Shard, h: Handler, s: Symbol, action: OrderAction, e: Event)
    ensures Paid(sh, MakerPaid(sh, h, s, action, e), ToMakers(h, s, action, [e]), OwnMakers(h, [e]))
  {
    hide Paid, Credit, Known, Handler.Owns, ToMakers, OwnMakers;
    FirstGives(h, s, action, [e]);
    OneMakes(h, e);
    var sh' := MakerPaid(sh, h, s, action, e);
    if !e.Trade? || !h.Owns(e.makerUid) {
      NothingPaid(sh);
      PaidAs(sh, sh', Nothing(), ToMakers(h, s, action, [e]), Nobody(), OwnMakers(h, [e]));
    } else {
      var uid, q := e.makerUid, s.quoteCurrency;
      if action == ASK {
        var x := AmountBidReleaseCorrMaker(s, e.size, e.bidderHoldPrice - e.price);
        TwoCredits(sh, uid, q, x, s.baseCurrency, AmountAsk(s, e.size));
        PaidAs(sh, sh', Both(ToOne(uid, q, x), ToOne(uid, s.baseCurrency, AmountAsk(s, e.size))),
               ToMakers(h, s, action, [e]), One(uid), OwnMakers(h, [e]));
      } else {
        var x := AmountBid(s, e.size, e.price) - s.makerFee * e.size;
        KnownCredit(sh, uid, q, x);
        PaidAs(sh, sh', ToOne(uid, q, x), ToMakers(h, s, action, [e]), One(uid), OwnMakers(h, [e]));
      }
    }
  }

  lemma {:induction false} AllMakers(sh: Shard, h: Handler, s: Symbol, action: OrderAction, events: seq<Event>)
    ensures Paid(sh, MakersPaid(sh, h, s, action, events), ToMakers(h, s, action, events), OwnMakers(h, events))
    decreases |events|
  {
    hide Paid, SellMaker, BuyMaker, Handler.Owns, ToMakers, Makes;
    if events == [] {
      NothingPaid(sh);
      NoMakers(h, s, action);
      PaidAs(sh, sh, Nothing(), ToMakers(h, s, action, events), Nobody(), OwnMakers(h, events));
    } else {
      var e, rest := events[0], events[1..];
      var a := MakerPaid(sh, h, s, action, e);
      OneMaker(sh, h, s, action, e);
      AllMakers(a, h, s, action, rest);
      var sh' := MakersPaid(sh, h, s, action, events);
      PaidThen(sh, a, sh', ToMakers(h, s, action, [e]), ToMakers(h, s, action, rest), OwnMakers(h, [e]),
               OwnMakers(h, rest));
      FirstGives(h, s, action, events);
      MakesFirst(events);
      PaidAs(sh, sh', Both(ToMakers(h, s, action, [e]), ToMakers(h, s, action, rest)), ToMakers(h, s, action, events),
             Either(OwnMakers(h, [e]), OwnMakers(h, rest)), OwnMakers(h, events));
    }
  }

  lemma NoMakers(h: Handler, s: Symbol, action: OrderAction)
    ensures forall u, c :: ToMakers(h, s, action, [])(u, c) == 0
    ensures forall u :: !OwnMakers(h, [])(u)
  {
  }

  lemma MakesFirst(events: seq<Event>)
    requires events != []
    ensures forall u :: Makes(events, u) <==> Makes([events[0]], u) || Makes(events[1..], u)
  {
    forall u ensures Makes(events, u) <==> Makes([events[0]], u) || Makes(events[1..], u) {
      if Makes(events, u) {
        var i :| 0 <= i < |events| && events[i].Trade? && events[i].makerUid == u;
        if i == 0 { assert [events[0]][0] == events[0]; } else { assert events[1..][i - 1] == events[i]; }
      }
      if Makes([events[0]], u) { assert events[0].Trade?; }
      if Makes(events[1..], u) {
        var i :| 0 <= i < |events[1..]| && events[1..][i].Trade? && events[1..][i].makerUid == u;
        assert events[i + 1] == events[1..][i];
      }
    }
  }

  // ----- The taker and the fees -----

  ghost predicate PaidFees(sh: Shard, sh': Shard, gives: Gifts, who: Users, d: int, fee: int) {
    && (forall u, c :: BalanceOf(sh', u, c) == BalanceOf(sh, u, c) + gives(u, c))
    && (forall c :: Balance(sh'.fees, c) == Balance(sh.fees, c) + At(c, d, fee))
    && Touched(sh, sh', who)
  }

  lemma FeesPaid(sh: Shard, b: Shard, s: Symbol, takerSize: int, makerSize: int, gives: Gifts, who: Users)
    requires Paid(sh, b, gives, who)
    ensures PaidFees(sh, FeesTaken(b, s, takerSize, makerSize), gives, who, s.quoteCurrency,
                     s.takerFee * takerSize + s.makerFee * makerSize)
  {
    hide Touched;
    var b' := FeesTaken(b, s, takerSize, makerSize);
    assert Touched(sh, b', who) by { FeesOnly(sh, b, b', who); }
  }

  lemma FeesOnly(sh: Shard, b: Shard, b': Shard, who: Users)
    requires Touched(sh, b, who) && b' == b.(fees := b'.fees)
    ensures Touched(sh, b', who)
  {
  }

  lemma PaidThenFees(a: Shard, b: Shard, c: Shard, f: Gifts, g: Gifts, v: Users, w: Users, d: int, fee: int)
    requires Paid(a, b, f, v) && PaidFees(b, c, g, w, d, fee)
    ensures PaidFees(a, c, Both(f, g), Either(v, w), d, fee)
  {
    hide BalanceOf, Balance;
    assert forall u :: u in b.profiles ==> u in c.profiles;
  }

  lemma PaidNoFees(a: Shard, b: Shard, f: Gifts, v: Users, d: int)
    requires Paid(a, b, f, v)
    ensures PaidFees(a, b, f, v, d, 0)
  {
    hide BalanceOf, Touched, Balance;
  }

  lemma PaidFeesAs(a: Shard, b: Shard, f: Gifts, g: Gifts, v: Users, w: Users, d: int, x: int)
    requires PaidFees(a, b, f, v, d, x) && (forall u, c :: f(u, c) == g(u, c)) && forall u :: v(u) == w(u)
    ensures PaidFees(a, b, g, w, d, x)
  {
    hide BalanceOf, Balance;
  }

  function TakersGive(s: Symbol, r: Request, action: OrderAction, events: seq<Event>, c: int): int {
    if events == [] then 0
    else TakerGets(s, r, action, events[0], c) + TakersGive(s, r, action, events[1..], c)
  }

  lemma {:induction false} GivesSplit(h: Handler, s: Symbol, r: Request, action: OrderAction, events: seq<Event>,
                                      u: int, c: int)
    requires h.Owns(u)
    ensures ChainGives(s, r, action, events, u, c)
            == (if u == r.uid then TakersGive(s, r, action, events, c) else 0)
               + MakersGive(h, s, action, events, u, c)
    decreases |events|
  {
    hide TakerGets, MakerGets;
    if events != [] { GivesSplit(h, s, r, action, events[1..], u, c); }
  }

  lemma {:induction false} NotOwnGives(h: Handler, s: Symbol, action: OrderAction, events: seq<Event>, u: int, c: int)
    requires !h.Owns(u)
    ensures MakersGive(h, s, action, events, u, c) == 0
    decreases |events|
  {
    if events != [] { NotOwnGives(h, s, action, events[1..], u, c); }
  }

  /** What a seller gets for its trades in all. */
  lemma {:induction false} SellerGets(s: Symbol, r: Request, events: seq<Event>, c: int)
    requires TradesOnlyIn(events)
    ensures TakersGive(s, r, ASK, events, c)
            == At(c, s.quoteCurrency, Cost(events) * s.quoteScaleK - s.takerFee * Traded(events))
    decreases |events|
  {
    if events != [] {
      var e, rest := events[0], events[1..];
      SellerGets(s, r, rest, c);
      assert e.Trade?;
      Products(s, e, Cost(rest), 0, 0);
      Distribute(s.takerFee, e.size, Traded(rest));
    }
  }

  lemma Distribute(k: int, a: int, b: int)
    ensures k * (a + b) == k * a + k * b && (a + b) * k == a * k + b * k && (a - b) * k == a * k - b * k
  {
  }

  /** What a buyer gets for its trades in all. */
  lemma {:induction false} BuyerGets(s: Symbol, r: Request, events: seq<Event>, c: int)
    requires TradesOnlyIn(events)
    ensures TakersGive(s, r, BID, events, c)
            == At(c, s.quoteCurrency, ((if HeldAsBudget(r) then 0 else HeldCost(events))
                                       - Cost(events)) * s.quoteScaleK)
               + At(c, s.baseCurrency, Traded(events) * s.baseScaleK)
    decreases |events|
  {
    if events != [] {
      var e, rest := events[0], events[1..];
      BuyerGets(s, r, rest, c);
      assert e.Trade?;
      Distribute(s.quoteScaleK, e.price * e.size, Cost(rest));
      Distribute(s.quoteScaleK, e.size * e.bidderHoldPrice, HeldCost(rest));
      Distribute(s.quoteScaleK, HeldCost(rest), Cost(rest));
      Distribute(s.quoteScaleK, HeldCost(events), Cost(events));
      Distribute(s.quoteScaleK, 0, Cost(rest));
      Distribute(s.baseScaleK, e.size, Traded(rest));
    }
  }

  lemma {:induction false} FeesInAll(h: Handler, s: Symbol, uid: int, events: seq<Event>)
    requires TradesOnlyIn(events)
    ensures ChainFees(h, s, uid, events)
            == (if h.Owns(uid) then s.takerFee * Traded(events) else 0) + s.makerFee * OwnSize(h, events)
    decreases |events|
  {
    hide Handler.Owns;
    if events != [] {
      var e, rest := events[0], events[1..];
      FeesInAll(h, s, uid, rest);
      assert e.Trade?;
      Distribute(s.takerFee, e.size, Traded(rest));
      Distribute(s.makerFee, if h.Owns(e.makerUid) then e.size else 0, OwnSize(h, rest));
    }
  }

  // ----- The whole chain -----

  ghost function ToAll(h: Handler, s: Symbol, r: Request, action: OrderAction, events: seq<Event>): Gifts {
    (u, c) => if h.Owns(u) then ChainGives(s, r, action, events, u, c)
                                  + BudgetGives(s, r, action, HasTrade(events), u, c) else 0
  }

  ghost function Participants(h: Handler, uid: int, events: seq<Event>): Users {
    u => h.Owns(u) && (u == uid || Makes(events, u))
  }

  function ToTaker(s: Symbol, r: Request, action: OrderAction, events: seq<Event>): Gifts {
    (u, c) => if u == r.uid then TakersGive(s, r, action, events, c) + BudgetGives(s, r, action, true, u, c) else 0
  }

  // Makers and taker together are all.
  lemma AllTogether(h: Handler, s: Symbol, r: Request, action: OrderAction, trades: seq<Event>)
    requires TradesOnlyIn(trades) && trades != []
    ensures forall u, c ::
              ToAll(h, s, r, action, trades)(u, c)
                == if h.Owns(r.uid) then Both(ToMakers(h, s, action, trades), ToTaker(s, r, action, trades))(u, c)
                   else ToMakers(h, s, action, trades)(u, c)
    ensures forall u ::
              Participants(h, r.uid, trades)(u)
                == if h.Owns(r.uid) then Either(OwnMakers(h, trades), One(r.uid))(u) else OwnMakers(h, trades)(u)
  {
    hide MakersGive, TakersGive, ChainGives, BudgetGives, Handler.Owns, Makes;
    assert trades[0].Trade?;
    forall u, c
      ensures ToAll(h, s, r, action, trades)(u, c)
              == if h.Owns(r.uid) then Both(ToMakers(h, s, action, trades), ToTaker(s, r, action, trades))(u, c)
                 else ToMakers(h, s, action, trades)(u, c)
    {
      if h.Owns(u) { GivesSplit(h, s, r, action, trades, u, c); } else { NotOwnGives(h, s, action, trades, u, c); }
      if u != r.uid { OthersNoBudget(s, r, action, HasTrade(trades), u, c); }
    }
  }

  lemma OthersNoBudget(s: Symbol, r: Request, action: OrderAction, traded: bool, u: int, c: int)
    requires u != r.uid
    ensures BudgetGives(s, r, action, traded, u, c) == 0
  {
  }

  lemma SellPaid(sh: Shard, h: Handler, s: Symbol, r: Request, trades: seq<Event>)
    requires TradesOnlyIn(trades) && trades != []
    ensures PaidFees(sh, ExchangeSell(sh, h, s, r.uid, trades), ToAll(h, s, r, ASK, trades),
                     Participants(h, r.uid, trades), s.quoteCurrency, ChainFees(h, s, r.uid, trades))
  {
    hide Paid, PaidFees, Known, Credit, SellMakers, Handler.Owns, TradesOnlyIn, ToMakers, OwnMakers, Participants,
         ToAll,
         ChainFees, FeesTaken, Cost, Traded, OwnSize, TakersGive;
    var a := SellMakers(sh, h, s, trades);
    var q, uid, own := s.quoteCurrency, r.uid, OwnSize(h, trades);
    var sh' := ExchangeSell(sh, h, s, uid, trades);
    AllMakers(sh, h, s, ASK, trades);
    AllTogether(h, s, r, ASK, trades);
    FeesInAll(h, s, uid, trades);
    if h.Owns(uid) {
      var x := Cost(trades) * s.quoteScaleK - s.takerFee * Traded(trades);
      KnownCredit(a, uid, q, x);
      var b := Credit(Known(a, uid), uid, q, x);
      SellerTaken(s, r, trades);
      PaidThen(sh, a, b, ToMakers(h, s, ASK, trades), ToOne(uid, q, x), OwnMakers(h, trades), One(uid));
      var f := Both(ToMakers(h, s, ASK, trades), ToOne(uid, q, x));
      FeesPaid(sh, b, s, Traded(trades), own, f, Either(OwnMakers(h, trades), One(uid)));
      PaidFeesAs(sh, sh', f, ToAll(h, s, r, ASK, trades), Either(OwnMakers(h, trades), One(uid)),
                 Participants(h, uid, trades), q, ChainFees(h, s, uid, trades));
    } else {
      FeesPaid(sh, a, s, 0, own, ToMakers(h, s, ASK, trades), OwnMakers(h, trades));
      PaidFeesAs(sh, sh', ToMakers(h, s, ASK, trades), ToAll(h, s, r, ASK, trades), OwnMakers(h, trades),
                 Participants(h, uid, trades), q, ChainFees(h, s, uid, trades));
    }
  }

  lemma SellerTaken(s: Symbol, r: Request, trades: seq<Event>)
    requires TradesOnlyIn(trades)
    ensures forall u, c ::
              ToTaker(s, r, ASK, trades)(u, c)
                == ToOne(r.uid, s.quoteCurrency, Cost(trades) * s.quoteScaleK - s.takerFee * Traded(trades))(u, c)
  {
    hide TakersGive, Cost, Traded;
    forall c ensures TakersGive(s, r, ASK, trades, c)
                     == At(c, s.quoteCurrency, Cost(trades) * s.quoteScaleK - s.takerFee * Traded(trades))
    {
      SellerGets(s, r, trades, c);
    }
  }

  lemma BuyerTaken(s: Symbol, r: Request, trades: seq<Event>)
    requires TradesOnlyIn(trades)
    ensures var held := if HeldAsBudget(r) then r.price else HeldCost(trades);
            forall u, c ::
              ToTaker(s, r, BID, trades)(u, c)
                == Both(ToOne(r.uid, s.quoteCurrency, (held - Cost(trades)) * s.quoteScaleK),
                        ToOne(r.uid, s.baseCurrency, Traded(trades) * s.baseScaleK))(u, c)
  {
    hide TakersGive, Cost, Traded, HeldCost;
    Distribute(s.quoteScaleK, r.price, Cost(trades));
    Distribute(s.quoteScaleK, 0, Cost(trades));
    forall c ensures TakersGive(s, r, BID, trades, c)
                     == At(c, s.quoteCurrency,
                           ((if HeldAsBudget(r) then 0 else HeldCost(trades)) - Cost(trades)) * s.quoteScaleK)
                        + At(c, s.baseCurrency, Traded(trades) * s.baseScaleK)
    {
      BuyerGets(s, r, trades, c);
    }
  }

  lemma BuyPaid(sh: Shard, h: Handler, s: Symbol, r: Request, trades: seq<Event>)
    requires TradesOnlyIn(trades) && trades != []
    ensures PaidFees(sh, ExchangeBuy(sh, h, s, r, trades), ToAll(h, s, r, BID, trades), Participants(h, r.uid, trades),
                     s.quoteCurrency, ChainFees(h, s, r.uid, trades))
  {
    hide Paid, PaidFees, Known, Credit, BuyMakers, Handler.Owns, TradesOnlyIn, ToMakers, OwnMakers, Participants, ToAll,
         ChainFees, FeesTaken, Cost, Traded, HeldCost, OwnSize, TakersGive;
    var a := BuyMakers(sh, h, s, trades);
    var q, uid, own := s.quoteCurrency, r.uid, OwnSize(h, trades);
    var sh' := ExchangeBuy(sh, h, s, r, trades);
    AllMakers(sh, h, s, BID, trades);
    AllTogether(h, s, r, BID, trades);
    FeesInAll(h, s, uid, trades);
    if h.Owns(uid) {
      var held := if HeldAsBudget(r) then r.price else HeldCost(trades);
      var x, y := (held - Cost(trades)) * s.quoteScaleK, Traded(trades) * s.baseScaleK;
      TwoCredits(a, uid, q, x, s.baseCurrency, y);
      BuyerTaken(s, r, trades);
      var b := Credit(Credit(Known(a, uid), uid, q, x), uid, s.baseCurrency, y);
      var g := Both(ToOne(uid, q, x), ToOne(uid, s.baseCurrency, y));
      PaidThen(sh, a, b, ToMakers(h, s, BID, trades), g, OwnMakers(h, trades), One(uid));
      var f := Both(ToMakers(h, s, BID, trades), g);
      FeesPaid(sh, b, s, Traded(trades), own, f, Either(OwnMakers(h, trades), One(uid)));
      PaidFeesAs(sh, sh', f, ToAll(h, s, r, BID, trades), Either(OwnMakers(h, trades), One(uid)),
                 Participants(h, uid, trades), q, ChainFees(h, s, uid, trades));
    } else {
      FeesPaid(sh, a, s, 0, own, ToMakers(h, s, BID, trades), OwnMakers(h, trades));
      PaidFeesAs(sh, sh', ToMakers(h, s, BID, trades), ToAll(h, s, r, BID, trades), OwnMakers(h, trades),
                 Participants(h, uid, trades), q, ChainFees(h, s, uid, trades));
    }
  }

  lemma TradesPaid(sh: Shard, h: Handler, s: Symbol, r: Request, action: OrderAction, trades: seq<Event>)
    requires TradesOnlyIn(trades) && trades != []
    ensures PaidFees(sh, if action == ASK then ExchangeSell(sh, h, s, r.uid, trades)
                     else ExchangeBuy(sh, h, s, r, trades),
                     ToAll(h, s, r, action, trades), Participants(h, r.uid, trades), s.quoteCurrency,
                     ChainFees(h, s, r.uid, trades))
  {
    hide PaidFees, ExchangeSell, ExchangeBuy;
    if action == ASK { SellPaid(sh, h, s, r, trades); } else { BuyPaid(sh, h, s, r, trades); }
  }

  // What is rejected or reduced goes back to the taker.
  lemma RefundPaid(sh: Shard, h: Handler, s: Symbol, r: Request, action: OrderAction, first: Event)
    requires h.Owns(r.uid) && !first.Trade?
    ensures var cur := if action == ASK then s.baseCurrency else s.quoteCurrency;
            r.uid in Known(sh, r.uid).profiles
            && Paid(sh, Credit(Known(sh, r.uid), r.uid, cur, Refund(s, r, action, first)),
                    (u, c) => if u == r.uid then TakerGets(s, r, action, first, c) else 0, One(r.uid))
  {
    hide Paid, Known, Credit;
    var cur := if action == ASK then s.baseCurrency else s.quoteCurrency;
    var x := Refund(s, r, action, first);
    KnownCredit(sh, r.uid, cur, x);
    PaidAs(sh, Credit(Known(sh, r.uid), r.uid, cur, x), ToOne(r.uid, cur, x),
           (u, c) => if u == r.uid then TakerGets(s, r, action, first, c) else 0, One(r.uid), One(r.uid));
  }

  lemma FirstIs(h: Handler, s: Symbol, r: Request, action: OrderAction, events: seq<Event>)
    requires ChainOk(events) && events != [] && !events[0].Trade?
    ensures forall u, c ::
              ToAll(h, s, r, action, events)(u, c)
                == (if h.Owns(r.uid) && u == r.uid then TakerGets(s, r, action, events[0], c) else 0)
                   + ToAll(h, s, r, action, events[1..])(u, c)
    ensures forall u ::
              Participants(h, r.uid, events)(u) <==>
              (h.Owns(r.uid) && u == r.uid) || Participants(h, r.uid, events[1..])(u)
    ensures ChainFees(h, s, r.uid, events) == ChainFees(h, s, r.uid, events[1..])
  {
    hide ChainOk, Handler.Owns, TakerGets, MakerGets, Makes;
    RestTrades(events);
    MakesFirst(events);
    assert forall u :: !Makes([events[0]], u) by { NotAMaker(events[0]); }
    assert HasTrade(events) <==> HasTrade(events[1..]) by {
      assert forall i | 0 < i < |events| :: events[i] == events[1..][i - 1];
      if HasTrade(events[1..]) {
        var i :| 0 <= i < |events[1..]| && events[1..][i].Trade?;
        assert events[i + 1].Trade?;
      }
    }
  }

  lemma NotAMaker(e: Event)
    requires !e.Trade?
    ensures forall u :: !Makes([e], u)
  {
  }

  lemma NothingLeft(h: Handler, s: Symbol, r: Request, action: OrderAction)
    ensures forall u, c :: ToAll(h, s, r, action, [])(u, c) == 0
    ensures forall u :: Participants(h, r.uid, [])(u) <==> h.Owns(u) && u == r.uid
    ensures ChainFees(h, s, r.uid, []) == 0
  {
    hide Handler.Owns;
    assert !HasTrade([]) && forall u :: !Makes([], u);
  }

  lemma SettledIs(sh: Shard, sh': Shard, h: Handler, s: Symbol, r: Request, action: OrderAction, events: seq<Event>)
    requires PaidFees(sh, sh', ToAll(h, s, r, action, events), Participants(h, r.uid, events), s.quoteCurrency,
                      ChainFees(h, s, r.uid, events))
    ensures Settled(sh, sh', h, s, r, action, events)
  {
    hide BalanceOf, Balance, ChainGives, BudgetGives, ChainFees, Makes, HasTrade, Handler.Owns;
    var who: Users := u => h.Owns(u) && (u == r.uid || Makes(events, u));
    assert forall u :: Participants(h, r.uid, events)(u) == who(u);
  }

  /** Selling or buying to makers settles the trades. */
  lemma TradesSettled(sh: Shard, h: Handler, s: Symbol, r: Request, action: OrderAction, trades: seq<Event>)
    requires TradesOnlyIn(trades) && trades != []
    ensures Settled(sh, if action == ASK then ExchangeSell(sh, h, s, r.uid, trades)
                        else ExchangeBuy(sh, h, s, r, trades), h, s, r, action, trades)
  {
    hide Settled, PaidFees, ExchangeSell, ExchangeBuy;
    TradesPaid(sh, h, s, r, action, trades);
    SettledIs(sh, if action == ASK then ExchangeSell(sh, h, s, r.uid, trades) else ExchangeBuy(sh, h, s, r, trades), h,
              s,
              r, action, trades);
  }

  /** Settling a chain of an exchange pair gives each user of the shard what the events give it and takes the fees. */
  lemma ExchangeSettled(sh: Shard, h: Handler, symbol: int, s: Symbol, r: Request, action: OrderAction,
                        events: seq<Event>)
    requires ChainOk(events) && s.kind == CURRENCY_EXCHANGE_PAIR
    ensures var after := Settle(sh, h, symbol, s, r, action, events);
            after.Some? && if events == [] then after.value == sh else Settled(sh, after.value, h, s, r, action, events)
  {
    hide ChainOk, Settled, PaidFees, SettleExchange;
    if events != [] {
      ChainPaid(sh, h, s, r, action, events);
      SettledIs(sh, SettleExchange(sh, h, s, r, action, events), h, s, r, action, events);
    }
  }

  lemma ChainPaid(sh: Shard, h: Handler, s: Symbol, r: Request, action: OrderAction, events: seq<Event>)
    requires ChainOk(events) && events != [] && s.kind == CURRENCY_EXCHANGE_PAIR
    ensures PaidFees(sh, SettleExchange(sh, h, s, r, action, events), ToAll(h, s, r, action, events),
                     Participants(h, r.uid, events), s.quoteCurrency, ChainFees(h, s, r.uid, events))
  {
    hide ChainOk, Paid, PaidFees, ExchangeSell, ExchangeBuy, Known, Credit, Handler.Owns, ToAll, ChainFees, TakerGets,
         Refund;
    RestTrades(events);
    var uid, q := r.uid, s.quoteCurrency;
    var sh' := SettleExchange(sh, h, s, r, action, events);
    NothingPaid(sh);
    if events[0].Trade? {
      var a, w := if h.Owns(uid) then Known(sh, uid) else sh, if h.Owns(uid) then One(uid) else Nobody();
      KnownPaid(sh, uid);
      TradesPaid(a, h, s, r, action, events);
      PaidThenFees(sh, a, sh', Nothing(), ToAll(h, s, r, action, events), w, Participants(h, uid, events), q,
                   ChainFees(h, s, uid, events));
      PaidFeesAs(sh, sh', Both(Nothing(), ToAll(h, s, r, action, events)), ToAll(h, s, r, action, events),
                 Either(w, Participants(h, uid, events)), Participants(h, uid, events), q,
                     ChainFees(h, s, uid, events));
    } else {
      RefundThen(sh, h, s, r, action, events);
    }
  }

  lemma RefundThen(sh: Shard, h: Handler, s: Symbol, r: Request, action: OrderAction, events: seq<Event>)
    requires ChainOk(events) && events != [] && s.kind == CURRENCY_EXCHANGE_PAIR && !events[0].Trade?
    ensures PaidFees(sh, SettleExchange(sh, h, s, r, action, events), ToAll(h, s, r, action, events),
                     Participants(h, r.uid, events), s.quoteCurrency, ChainFees(h, s, r.uid, events))
  {
    hide ChainOk, Paid, PaidFees, ExchangeSell, ExchangeBuy, Known, Credit, Handler.Owns, ToAll, ChainFees, TakerGets,
         Refund, Participants;
    RestTrades(events);
    var uid, q, trades, first := r.uid, s.quoteCurrency, events[1..], events[0];
    var sh' := SettleExchange(sh, h, s, r, action, events);
    NothingPaid(sh);
    if h.Owns(uid) { RefundPaid(sh, h, s, r, action, first); }
    var f: Gifts := if h.Owns(uid) then (u, c) => if u == uid then TakerGets(s, r, action, first, c) else 0
        else Nothing();
    var w := if h.Owns(uid) then One(uid) else Nobody();
    var b := if h.Owns(uid)
             then Credit(Known(sh, uid), uid, if action == ASK then s.baseCurrency else s.quoteCurrency,
                         Refund(s, r, action, first))
             else sh;
    FirstIs(h, s, r, action, events);
    if trades == [] {
      NothingLeft(h, s, r, action);
      PaidNoFees(sh, b, f, w, q);
      PaidFeesAs(sh, sh', f, ToAll(h, s, r, action, events), w, Participants(h, uid, events), q, 0);
    } else {
      TradesPaid(b, h, s, r, action, trades);
      PaidThenFees(sh, b, sh', f, ToAll(h, s, r, action, trades), w, Participants(h, uid, trades), q,
                   ChainFees(h, s, uid, trades));
      PaidFeesAs(sh, sh', Both(f, ToAll(h, s, r, action, trades)), ToAll(h, s, r, action, events),
                 Either(w, Participants(h, uid, trades)), Participants(h, uid, events), q,
                     ChainFees(h, s, uid, events));
    }
  }

  // ----- Settling events of a futures contract -----

  /** A record after a trade, and how much of the trade lots a position: a trade in its direction adds to it, one in the
      other takes from it, and one that takes all fixes the profit and opens what is left. */
  function Netted(q: Position, action: OrderAction, size: int, price: int): (Position, int) {
    var d := if action == BID then LONG else SHORT;
    var released := WithPending(q, action, -size);
    if q.direction == EMPTY || q.direction == d then
      (released.(direction := d, openVolume := q.openVolume + size, openPriceSum := q.openPriceSum + price * size),
       size)
    else if size < q.openVolume then
      (released.(openVolume := q.openVolume - size, openPriceSum := q.openPriceSum - price * size), 0)
    else
      var lots := size - q.openVolume;
      var gain := q.openVolume * price - q.openPriceSum;
      (released.(direction := if lots == 0 then EMPTY else d, openVolume := lots, openPriceSum := price * lots,
                 profit := if q.direction == LONG then q.profit + gain else q.profit - gain), lots)
  }

  predicate HasRecord(sh: Shard, uid: int, symbol: int) {
    uid in sh.profiles && symbol in sh.profiles[uid].positions
  }

  /** A user's record becomes q, a fee goes from its account to the fees, and nothing else changes. */
  ghost predicate Booked(sh: Shard, sh': Shard, uid: int, symbol: int, s: Symbol, q: Position, fee: int) {
    && uid in sh.profiles && uid in sh'.profiles
    && sh' == sh.(profiles := sh.profiles[uid := sh'.profiles[uid]], fees := sh'.fees)
    && Rerecorded(sh.profiles[uid], sh'.profiles[uid], symbol, q, s.quoteCurrency, -fee)
    && forall c :: Balance(sh'.fees, c) == Balance(sh.fees, c) + At(c, s.quoteCurrency, fee)
  }

  /** One side of a trade: the record is netted, and what was lots pays the fee rate of that side. */
  ghost predicate SideBooked(sh: Shard, sh': Shard, uid: int, symbol: int, s: Symbol, action: OrderAction, e: Event,
                             rate: int) {
    && HasRecord(sh, uid, symbol)
    && var (q, lots) := Netted(sh.profiles[uid].positions[symbol], action, e.size, e.price);
       Booked(sh, sh', uid, symbol, s, q, rate * lots)
  }

  /** A taker of this shard trades, or what was rejected or reduced is no longer pending. */
  ghost predicate TakerBooked(sh: Shard, sh': Shard, h: Handler, symbol: int, s: Symbol, uid: int, action: OrderAction,
                              e: Event) {
    if !h.Owns(uid) then sh' == sh
    else if e.Trade? then SideBooked(sh, sh', uid, symbol, s, action, e, s.takerFee)
    else HasRecord(sh, uid, symbol)
         && Booked(sh, sh', uid, symbol, s, WithPending(sh.profiles[uid].positions[symbol], action, -e.size), 0)
  }

  ghost predicate MakerBooked(sh: Shard, sh': Shard, h: Handler, symbol: int, s: Symbol, action: OrderAction,
                              e: Event) {
    if e.Trade? && h.Owns(e.makerUid)
    then SideBooked(sh, sh', e.makerUid, symbol, s, if action == ASK then BID else ASK, e, s.makerFee)
    else sh' == sh
  }

  /** Each event of a chain is booked for its taker and then for its maker. */
  ghost predicate ChainBooked(sh: Shard, sh': Shard, h: Handler, symbol: int, s: Symbol, uid: int, action: OrderAction,
                              events: seq<Event>)
    decreases |events|
  {
    if events == [] then sh' == sh
    else exists a, b ::
           TakerBooked(sh, a, h, symbol, s, uid, action, events[0])
               && MakerBooked(a, b, h, symbol, s, action, events[0])
           && ChainBooked(b, sh', h, symbol, s, uid, action, events[1..])
  }

  lemma NettedIs(q: Position, action: OrderAction, size: int, price: int)
    requires 0 < size
    ensures q.AfterTrade(action, size, price) == Netted(q, action, size, price)
  {
  }

  lemma RerecordedIs(p: Profile, symbol: int, q: Position, d: int, x: int)
    ensures Rerecorded(p, WithPosition(p.(accounts := Plus(p.accounts, d, x)), symbol, q), symbol, q, d, x)
    ensures Rerecorded(p, WithPosition(p, symbol, q), symbol, q, d, 0)
  {
  }

  lemma FeesBooked(fees: map<int, int>, d: int, x: int)
    ensures forall c :: Balance(Plus(fees, d, x), c) == Balance(fees, c) + At(c, d, x)
  {
  }

  lemma SideIs(sh: Shard, uid: int, symbol: int, s: Symbol, action: OrderAction, e: Event, rate: int)
    requires 0 < e.size
    ensures var a := MarginTrade(sh, uid, symbol, s, action, e, rate);
            if HasRecord(sh, uid, symbol) then a.Some? && SideBooked(sh, a.value, uid, symbol, s, action, e, rate)
            else a.None?
  {
    hide Rerecorded, Position.AfterTrade, Netted, WithPosition, Plus;
    if HasRecord(sh, uid, symbol) {
      var p := sh.profiles[uid];
      NettedIs(p.positions[symbol], action, e.size, e.price);
      var (q, lots) := Netted(p.positions[symbol], action, e.size, e.price);
      RerecordedIs(p, symbol, q, s.quoteCurrency, -(rate * lots));
      FeesBooked(sh.fees, s.quoteCurrency, rate * lots);
    }
  }

  lemma ReleaseIs(sh: Shard, uid: int, symbol: int, s: Symbol, action: OrderAction, e: Event)
    ensures var a := MarginRelease(sh, uid, symbol, action, e);
            if HasRecord(sh, uid, symbol)
            then a.Some? && Booked(sh, a.value, uid, symbol, s, WithPending(sh.profiles[uid].positions[symbol], action,
                                                                           -e.size), 0)
            else a.None?
  {
    hide Rerecorded, WithPosition;
    if HasRecord(sh, uid, symbol) {
      var p := sh.profiles[uid];
      RerecordedIs(p, symbol, WithPending(p.positions[symbol], action, -e.size), s.quoteCurrency, 0);
    }
  }

  lemma TakerIs(sh: Shard, h: Handler, symbol: int, s: Symbol, uid: int, action: OrderAction, e: Event)
    requires 0 < e.size
    ensures var a := MarginTaker(sh, h, symbol, s, uid, action, e);
            if h.Owns(uid) && !HasRecord(sh, uid, symbol) then a.None?
            else a.Some? && TakerBooked(sh, a.value, h, symbol, s, uid, action, e)
  {
    hide Booked, SideBooked, MarginTrade, MarginRelease, Handler.Owns;
    SideIs(sh, uid, symbol, s, action, e, s.takerFee);
    ReleaseIs(sh, uid, symbol, s, action, e);
  }

  lemma MakerIs(sh: Shard, h: Handler, symbol: int, s: Symbol, action: OrderAction, e: Event)
    requires 0 < e.size
    ensures var a := MarginMaker(sh, h, symbol, s, action, e);
            if e.Trade? && h.Owns(e.makerUid) && !HasRecord(sh, e.makerUid, symbol) then a.None?
            else a.Some? && MakerBooked(sh, a.value, h, symbol, s, action, e)
  {
    hide Booked, SideBooked, MarginTrade, Handler.Owns;
    if e.Trade? && h.Owns(e.makerUid) {
      KnownRecords(sh, e.makerUid, symbol);
      SideIs(Known(sh, e.makerUid), e.makerUid, symbol, s, Opposite(action), e, s.makerFee);
    }
  }

  lemma KnownRecords(sh: Shard, uid: int, symbol: int)
    ensures HasRecord(Known(sh, uid), uid, symbol) <==> HasRecord(sh, uid, symbol)
    ensures HasRecord(sh, uid, symbol) ==> Known(sh, uid) == sh
  {
  }

  ghost predicate Sizes(events: seq<Event>) {
    forall i | 0 <= i < |events| :: 0 < events[i].size
  }

  /** What is settled is what is booked. */
  lemma {:induction false} MarginBooked(sh: Shard, h: Handler, symbol: int, s: Symbol, uid: int, action: OrderAction,
                                        events: seq<Event>)
    requires Sizes(events)
    ensures var after := SettleMargin(sh, h, symbol, s, uid, action, events);
            after.Some? ==> ChainBooked(sh, after.value, h, symbol, s, uid, action, events)
    decreases |events|
  {
    hide MarginTaker, MarginMaker, TakerBooked, MakerBooked, Handler.Owns;
    if events != [] {
      var e := events[0];
      var a := MarginTaker(sh, h, symbol, s, uid, action, e);
      TakerIs(sh, h, symbol, s, uid, action, e);
      if a.Some? {
        var b := MarginMaker(a.value, h, symbol, s, action, e);
        MakerIs(a.value, h, symbol, s, action, e);
        if b.Some? { MarginBooked(b.value, h, symbol, s, uid, action, events[1..]); }
      }
    }
  }

  /** Users and records are the same. */
  ghost predicate Alike(sh: Shard, t: Shard) {
    && (forall u :: u in sh.profiles <==> u in t.profiles)
    && forall u <- sh.profiles :: sh.profiles[u].positions == t.profiles[u].positions
  }

  lemma BookedAlike(sh: Shard, sh': Shard, t: Shard, t': Shard, uid: int, symbol: int, s: Symbol, q: Position, fee: int)
    requires Alike(sh, t) && Booked(sh, sh', uid, symbol, s, q, fee) && Booked(t, t', uid, symbol, s, q, fee)
    ensures Alike(sh', t')
  {
  }

  lemma TakerAlike(sh: Shard, sh': Shard, t: Shard, t': Shard, h: Handler, symbol: int, s: Symbol, uid: int,
                   action: OrderAction, e: Event)
    requires Alike(sh, t) && TakerBooked(sh, sh', h, symbol, s, uid, action, e)
             && TakerBooked(t, t', h, symbol, s, uid, action, e)
    ensures Alike(sh', t')
  {
    hide Booked, Netted, Handler.Owns;
    if h.Owns(uid) {
      var q := sh.profiles[uid].positions[symbol];
      assert q == t.profiles[uid].positions[symbol];
      if e.Trade? {
        var (q', lots) := Netted(q, action, e.size, e.price);
        BookedAlike(sh, sh', t, t', uid, symbol, s, q', s.takerFee * lots);
      } else {
        BookedAlike(sh, sh', t, t', uid, symbol, s, WithPending(q, action, -e.size), 0);
      }
    }
  }

  lemma MakerAlike(sh: Shard, sh': Shard, t: Shard, t': Shard, h: Handler, symbol: int, s: Symbol, action: OrderAction,
                   e: Event)
    requires Alike(sh, t) && MakerBooked(sh, sh', h, symbol, s, action, e)
             && MakerBooked(t, t', h, symbol, s, action, e)
    ensures Alike(sh', t')
  {
    hide Booked, Netted, Handler.Owns;
    if e.Trade? && h.Owns(e.makerUid) {
      var q := sh.profiles[e.makerUid].positions[symbol];
      assert q == t.profiles[e.makerUid].positions[symbol];
      var (q', lots) := Netted(q, if action == ASK then BID else ASK, e.size, e.price);
      BookedAlike(sh, sh', t, t', e.makerUid, symbol, s, q', s.makerFee * lots);
    }
  }

  lemma {:induction false} BookedIsSettled(sh: Shard, t: Shard, t': Shard, h: Handler, symbol: int, s: Symbol, uid: int,
                                           action: OrderAction, events: seq<Event>)
    requires Sizes(events) && Alike(sh, t) && ChainBooked(t, t', h, symbol, s, uid, action, events)
    ensures SettleMargin(sh, h, symbol, s, uid, action, events).Some?
    decreases |events|
  {
    hide MarginTaker, MarginMaker, Booked, Handler.Owns;
    if events != [] {
      var e := events[0];
      var a, b :| TakerBooked(t, a, h, symbol, s, uid, action, e) && MakerBooked(a, b, h, symbol, s, action, e)
                  && ChainBooked(b, t', h, symbol, s, uid, action, events[1..]);
      TakerIs(sh, h, symbol, s, uid, action, e);
      var a' := MarginTaker(sh, h, symbol, s, uid, action, e).value;
      TakerAlike(sh, a', t, a, h, symbol, s, uid, action, e);
      MakerIs(a', h, symbol, s, action, e);
      var b' := MarginMaker(a', h, symbol, s, action, e).value;
      MakerAlike(a', b', a, b, h, symbol, s, action, e);
      BookedIsSettled(b', b, t', h, symbol, s, uid, action, events[1..]);
    }
  }

  /** A settlement makes its taker's profile, suspended, if it is gone. */
  function WithUser(sh: Shard, h: Handler, uid: int): Shard {
    if h.Owns(uid) && uid !in sh.profiles
    then sh.(profiles := sh.profiles[uid := Profile(SUSPENDED, 0, map[], map[])]) else sh
  }

  /** Settling a chain of a futures contract books each of its events, and fails exactly if one cannot be booked because
      a record is missing. */
  lemma FuturesSettled(sh: Shard, h: Handler, symbol: int, s: Symbol, r: Request, action: OrderAction,
                       events: seq<Event>)
    requires ChainOk(events) && s.kind == FUTURES_CONTRACT && events != []
    ensures var after := Settle(sh, h, symbol, s, r, action, events);
            var start := WithUser(sh, h, r.uid);
            && (after.Some? ==> ChainBooked(start, after.value, h, symbol, s, r.uid, action, events))
            && (after.Some? <==> exists sh' :: ChainBooked(start, sh', h, symbol, s, r.uid, action, events))
  {
    hide ChainBooked, SettleMargin, Handler.Owns;
    var start := if h.Owns(r.uid) then Known(sh, r.uid) else sh;
    assert Sizes(events);
    MarginBooked(start, h, symbol, s, r.uid, action, events);
    if sh' :| ChainBooked(start, sh', h, symbol, s, r.uid, action, events) {
      BookedIsSettled(start, start, sh', h, symbol, s, r.uid, action, events);
    }
  }
}
