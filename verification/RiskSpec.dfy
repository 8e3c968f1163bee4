/** What a risk shard does to accounts, positions and fees: the hold before matching and the settlement after it. */
module RiskSpec {
  import opened Wrappers
  import opened OrderTypes
  import opened BookSpec
  import opened BookFacts
  import opened BookTheorems
  import opened Positions

  datatype UserStatus = ACTIVE | SUSPENDED

  datatype Profile = Profile(status: UserStatus, adjustmentsCounter: int, accounts: map<int, int>, positions: map<int,
                             Position>)

  datatype Shard = Shard(profiles: map<int, Profile>, fees: map<int, int>, adjustments: map<int, int>,
                         suspends: map<int, int>)

  datatype AdjustmentType = ADJUSTMENT | SUSPEND

  /** Which of `count` shards this is; a user belongs to the shard of the remainder of its id. */
  datatype Handler = Handler(index: nat, count: nat)
  {
    predicate Owns(uid: int) { count <= 1 || uid % count == index }
  }

  function Balance(m: map<int, int>, c: int): int {
    if c in m then m[c] else 0
  }

  function Plus(m: map<int, int>, c: int, x: int): map<int, int> {
    m[c := Balance(m, c) + x]
  }

  // ----- Amounts -----

  function AmountAsk(s: Symbol, size: int): int { size * s.baseScaleK }

  function AmountBid(s: Symbol, size: int, price: int): int { size * (price * s.quoteScaleK) }

  function AmountBidTakerFee(s: Symbol, size: int, price: int): int { size * (price * s.quoteScaleK + s.takerFee) }

  function AmountBidReleaseCorrMaker(s: Symbol, size: int, priceDiff: int): int {
    size * (priceDiff * s.quoteScaleK + (s.takerFee - s.makerFee))
  }

  function AmountBidTakerFeeForBudget(s: Symbol, size: int, budget: int): int {
    budget * s.quoteScaleK + size * s.takerFee
  }

  // ----- Hold before matching -----

  predicate IsBudget(t: OrderType) { t == FOK_BUDGET || t == IOC_BUDGET }

  function HoldCurrency(s: Symbol, r: Request): int {
    if r.action == BID then s.quoteCurrency else s.baseCurrency
  }

  function HoldAmount(s: Symbol, r: Request): int {
    if r.action == ASK then AmountAsk(s, r.size)
    else if IsBudget(r.orderType) then AmountBidTakerFeeForBudget(s, r.size, r.price)
    else AmountBidTakerFee(s, r.size, r.reserveBidPrice)
  }

  function PriceCheck(s: Symbol, r: Request): ResultCode {
    if r.action == ASK
    then (if r.price * s.quoteScaleK < s.takerFee then RISK_ASK_PRICE_LOWER_THAN_FEE else VALID_FOR_MATCHING_ENGINE)
    else if (if IsBudget(r.orderType) then r.reserveBidPrice != r.price else r.reserveBidPrice < r.price)
    then RISK_INVALID_RESERVE_BID_PRICE
    else VALID_FOR_MATCHING_ENGINE
  }

  function PlaceExchangeOrder(p: Profile, s: Symbol, r: Request): (Profile, ResultCode) {
    if PriceCheck(s, r) != VALID_FOR_MATCHING_ENGINE then (p, PriceCheck(s, r))
    else
      var c := HoldCurrency(s, r);
      if Balance(p.accounts, c) < HoldAmount(s, r) then (p.(accounts := Plus(p.accounts, c, 0)), RISK_NSF)
      else (p.(accounts := Plus(p.accounts, c, -HoldAmount(s, r))), VALID_FOR_MATCHING_ENGINE)
  }

  /** A record that has become empty is removed, its profit paid to the account. */
  function WithPosition(p: Profile, symbol: int, q: Position): Profile {
    if q.IsEmpty() then p.(accounts := Plus(p.accounts, q.currency, q.profit), positions := p.positions - {symbol})
    else p.(positions := p.positions[symbol := q])
  }

  function PositionOf(p: Profile, symbol: int, s: Symbol): Position {
    if symbol in p.positions then p.positions[symbol] else Position(s.quoteCurrency, EMPTY, 0, 0, 0, 0, 0)
  }

  function PlaceMarginOrder(p: Profile, symbol: int, s: Symbol, r: Request, freeMargin: int): (Profile, ResultCode) {
    var q := PositionOf(p, symbol, s);
    var margin := MarginForOrder(q, s, r.action, r.size);
    if margin == -1 then (p.(positions := p.positions[symbol := q.Held(r.action, r.size)]), VALID_FOR_MATCHING_ENGINE)
    else
      var asked := p.(accounts := Plus(p.accounts, q.currency, 0));
      if margin <= Balance(p.accounts, q.currency) + freeMargin
      then (asked.(positions := p.positions[symbol := q.Held(r.action, r.size)]), VALID_FOR_MATCHING_ENGINE)
      else (WithPosition(asked, symbol, q), RISK_NSF)
  }

  function PlaceOrder(p: Profile, symbol: int, s: Symbol, marginEnabled: bool, r: Request, freeMargin: int): (Profile,
          ResultCode) {
    match s.kind
    case CURRENCY_EXCHANGE_PAIR => PlaceExchangeOrder(p, s, r)
    case FUTURES_CONTRACT => if marginEnabled then PlaceMarginOrder(p, symbol, s, r, freeMargin)
      else (p, RISK_MARGIN_TRADING_DISABLED)
    case OPTION => (p, UNSUPPORTED_SYMBOL_TYPE)
  }

  function PlaceOrderRiskCheck(sh: Shard, specs: map<int, Symbol>, marginEnabled: bool, symbol: int, r: Request,
                               freeMargin: int): (Shard, ResultCode) {
    if r.uid !in sh.profiles then (sh, AUTH_INVALID_USER)
    else if symbol !in specs then (sh, INVALID_SYMBOL)
    else
      var (p, code) := PlaceOrder(sh.profiles[r.uid], symbol, specs[symbol], marginEnabled, r, freeMargin);
      (sh.(profiles := sh.profiles[r.uid := p]), if code != VALID_FOR_MATCHING_ENGINE then RISK_NSF else code)
  }

  // ----- Settlement after matching -----

  /** A user's profile is created, suspended, when a settlement needs it and it is gone. */
  function Known(sh: Shard, uid: int): Shard {
    if uid in sh.profiles then sh else sh.(profiles := sh.profiles[uid := Profile(SUSPENDED, 0, map[], map[])])
  }

  function Credit(sh: Shard, uid: int, c: int, x: int): Shard
    requires uid in sh.profiles
  {
    var p := sh.profiles[uid];
    sh.(profiles := sh.profiles[uid := p.(accounts := Plus(p.accounts, c, x))])
  }

  function HeldCost(events: seq<Event>): int {
    if events == [] then 0 else events[0].size * events[0].bidderHoldPrice + HeldCost(events[1..])
  }

  /** The size traded by makers of this shard. */
  function OwnSize(h: Handler, events: seq<Event>): int {
    if events == [] then 0
    else (if events[0].Trade? && h.Owns(events[0].makerUid) then events[0].size else 0) + OwnSize(h, events[1..])
  }

  function SellMaker(sh: Shard, h: Handler, s: Symbol, e: Event): Shard {
    if e.Trade? && h.Owns(e.makerUid) then
      var paid := Credit(Known(sh, e.makerUid), e.makerUid, s.quoteCurrency,
                         AmountBidReleaseCorrMaker(s, e.size, e.bidderHoldPrice - e.price));
      Credit(paid, e.makerUid, s.baseCurrency, AmountAsk(s, e.size))
    else sh
  }

  function SellMakers(sh: Shard, h: Handler, s: Symbol, events: seq<Event>): Shard
    decreases |events|
  {
    if events == [] then sh else SellMakers(SellMaker(sh, h, s, events[0]), h, s, events[1..])
  }

  function BuyMaker(sh: Shard, h: Handler, s: Symbol, e: Event): Shard {
    if e.Trade? && h.Owns(e.makerUid) then
      Credit(Known(sh, e.makerUid), e.makerUid, s.quoteCurrency, AmountBid(s, e.size, e.price) - s.makerFee * e.size)
    else sh
  }

  function BuyMakers(sh: Shard, h: Handler, s: Symbol, events: seq<Event>): Shard
    decreases |events|
  {
    if events == [] then sh else BuyMakers(BuyMaker(sh, h, s, events[0]), h, s, events[1..])
  }

  function FeesTaken(sh: Shard, s: Symbol, takerSize: int, makerSize: int): Shard {
    if takerSize != 0 || makerSize != 0
    then sh.(fees := Plus(sh.fees, s.quoteCurrency, s.takerFee * takerSize + s.makerFee * makerSize))
    else sh
  }

  function ExchangeSell(sh: Shard, h: Handler, s: Symbol, uid: int, events: seq<Event>): Shard
  {
    var a := SellMakers(sh, h, s, events);
    if h.Owns(uid)
    then FeesTaken(Credit(Known(a, uid), uid, s.quoteCurrency,
                          Cost(events) * s.quoteScaleK - s.takerFee * Traded(events)), s, Traded(events),
                              OwnSize(h, events))
    else FeesTaken(a, s, 0, OwnSize(h, events))
  }

  predicate IsFokPlace(r: Request) { r.command == PLACE_ORDER && r.orderType == FOK_BUDGET }

  function ExchangeBuy(sh: Shard, h: Handler, s: Symbol, r: Request, events: seq<Event>): Shard
  {
    var a := BuyMakers(sh, h, s, events);
    if h.Owns(r.uid) then
      var held := if IsFokPlace(r) then r.price else HeldCost(events);
      var b := Credit(Known(a, r.uid), r.uid, s.quoteCurrency, (held - Cost(events)) * s.quoteScaleK);
      var c := Credit(b, r.uid, s.baseCurrency, Traded(events) * s.baseScaleK);
      FeesTaken(c, s, Traded(events), OwnSize(h, events))
    else FeesTaken(a, s, 0, OwnSize(h, events))
  }

  /** What a reject or reduce gives back to its taker. */
  function Refund(s: Symbol, r: Request, action: OrderAction, e: Event): int {
    if action == ASK then AmountAsk(s, e.size)
    else if IsFokPlace(r) then AmountBidTakerFeeForBudget(s, e.size, e.price)
    else AmountBidTakerFee(s, e.size, e.bidderHoldPrice)
  }

  function SettleExchange(sh: Shard, h: Handler, s: Symbol, r: Request, action: OrderAction, events: seq<Event>): Shard
    requires events != []
  {
    var a := if h.Owns(r.uid) then Known(sh, r.uid) else sh;
    var first := events[0];
    var b := if !first.Trade? && h.Owns(r.uid)
             then Credit(a, r.uid, if action == ASK then s.baseCurrency else s.quoteCurrency,
                         Refund(s, r, action, first)) else a;
    var trades := if first.Trade? then events else events[1..];
    if trades == [] then b
    else if action == ASK then ExchangeSell(b, h, s, r.uid, trades)
    else ExchangeBuy(b, h, s, r, trades)
  }

  /** One side of a futures trade; there must be a position record. */
  function MarginTrade(sh: Shard, uid: int, symbol: int, s: Symbol, action: OrderAction, e: Event,
                       fee: int): Option<Shard> {
    if uid !in sh.profiles || symbol !in sh.profiles[uid].positions then None
    else
      var p := sh.profiles[uid];
      var (q, lots) := p.positions[symbol].AfterTrade(action, e.size, e.price);
      var charged := p.(accounts := Plus(p.accounts, s.quoteCurrency, -(fee * lots)));
      Some(sh.(profiles := sh.profiles[uid := WithPosition(charged, symbol, q)],
               fees := Plus(sh.fees, s.quoteCurrency, fee * lots)))
  }

  function MarginRelease(sh: Shard, uid: int, symbol: int, action: OrderAction, e: Event): Option<Shard> {
    if uid !in sh.profiles || symbol !in sh.profiles[uid].positions then None
    else
      var p := sh.profiles[uid];
      Some(sh.(profiles := sh.profiles[uid := WithPosition(p, symbol, p.positions[symbol].Held(action, -e.size))]))
  }

  function MarginTaker(sh: Shard, h: Handler, symbol: int, s: Symbol, uid: int, action: OrderAction,
                       e: Event): Option<Shard> {
    if !h.Owns(uid) then Some(sh)
    else if e.Trade? then MarginTrade(sh, uid, symbol, s, action, e, s.takerFee)
    else MarginRelease(sh, uid, symbol, action, e)
  }

  function MarginMaker(sh: Shard, h: Handler, symbol: int, s: Symbol, action: OrderAction, e: Event): Option<Shard> {
    if e.Trade? && h.Owns(e.makerUid)
    then MarginTrade(Known(sh, e.makerUid), e.makerUid, symbol, s, Opposite(action), e, s.makerFee)
    else Some(sh)
  }

  function MarginEvent(sh: Shard, h: Handler, symbol: int, s: Symbol, uid: int, action: OrderAction,
                       e: Event): Option<Shard> {
    var a := MarginTaker(sh, h, symbol, s, uid, action, e);
    if a.None? then None else MarginMaker(a.value, h, symbol, s, action, e)
  }

  /** A chain of events of a futures symbol; None stands for the exception raised when a record is missing. */
  function SettleMargin(sh: Shard, h: Handler, symbol: int, s: Symbol, uid: int, action: OrderAction,
                        events: seq<Event>): Option<Shard>
    decreases |events|
  {
    if events == [] then Some(sh)
    else
      var a := MarginEvent(sh, h, symbol, s, uid, action, events[0]);
      if a.None? then None else SettleMargin(a.value, h, symbol, s, uid, action, events[1..])
  }

  function Settle(sh: Shard, h: Handler, symbol: int, s: Symbol, r: Request, action: OrderAction,
                  events: seq<Event>): Option<Shard> {
    if events == [] then Some(sh)
    else
      match s.kind
      case CURRENCY_EXCHANGE_PAIR => Some(SettleExchange(sh, h, s, r, action, events))
      case FUTURES_CONTRACT =>
        SettleMargin(if h.Owns(r.uid) then Known(sh, r.uid) else sh, h, symbol, s, r.uid, action, events)
      case OPTION => Some(sh)
  }

  // ----- Users and balances -----

  function BalanceAdjustment(sh: Shard, uid: int, c: int, amount: int, txid: int): (Shard, ResultCode) {
    if uid !in sh.profiles then (sh, USER_MGMT_USER_NOT_FOUND)
    else
      var p := sh.profiles[uid];
      if p.adjustmentsCounter == txid then (sh, USER_MGMT_ACCOUNT_BALANCE_ADJUSTMENT_ALREADY_APPLIED_SAME)
      else if p.adjustmentsCounter > txid then (sh, USER_MGMT_ACCOUNT_BALANCE_ADJUSTMENT_ALREADY_APPLIED_MANY)
      else if amount < 0 && Balance(p.accounts, c) + amount < 0 then (sh, USER_MGMT_ACCOUNT_BALANCE_ADJUSTMENT_NSF)
      else (sh.(profiles := sh.profiles[uid :=
                                        p.(adjustmentsCounter := txid, accounts := Plus(p.accounts, c, amount))]),
                                            SUCCESS)
  }

  function AdjustBalance(sh: Shard, uid: int, c: int, amount: int, txid: int, t: AdjustmentType): (Shard, ResultCode) {
    var (a, code) := BalanceAdjustment(sh, uid, c, amount, txid);
    if code != SUCCESS then (a, code)
    else if t == ADJUSTMENT then (a.(adjustments := Plus(a.adjustments, c, -amount)), code)
    else (a.(suspends := Plus(a.suspends, c, -amount)), code)
  }

  function AddUser(sh: Shard, uid: int): (Shard, ResultCode) {
    if uid in sh.profiles then (sh, USER_MGMT_USER_ALREADY_EXISTS)
    else (sh.(profiles := sh.profiles[uid := Profile(ACTIVE, 0, map[], map[])]), SUCCESS)
  }

  ghost predicate HasPositions(p: Profile) { exists s: int <- p.positions :: !p.positions[s].IsEmpty() }

  ghost predicate HasFunds(p: Profile) { exists c: int <- p.accounts :: p.accounts[c] != 0 }

  ghost function SuspendUser(sh: Shard, uid: int): (Shard, ResultCode) {
    if uid !in sh.profiles then (sh, USER_MGMT_USER_NOT_FOUND)
    else if sh.profiles[uid].status == SUSPENDED then (sh, USER_MGMT_USER_ALREADY_SUSPENDED)
    else if HasPositions(sh.profiles[uid]) then (sh, USER_MGMT_USER_NOT_SUSPENDABLE_HAS_POSITIONS)
    else if HasFunds(sh.profiles[uid]) then (sh, USER_MGMT_USER_NOT_SUSPENDABLE_NON_EMPTY_ACCOUNTS)
    else (sh.(profiles := sh.profiles - {uid}), SUCCESS)
  }

  function ResumeUser(sh: Shard, uid: int): (Shard, ResultCode) {
    if uid !in sh.profiles then (sh.(profiles := sh.profiles[uid := Profile(ACTIVE, 0, map[], map[])]), SUCCESS)
    else if sh.profiles[uid].status != SUSPENDED then (sh, USER_MGMT_USER_NOT_SUSPENDED)
    else (sh.(profiles := sh.profiles[uid := sh.profiles[uid].(status := ACTIVE)]), SUCCESS)
  }

  // ----- Symbols -----

  /** A symbol is added once; symbols with margin are refused unless margin trading is on. */
  function AddedTo(known: map<int, Symbol>, symbols: seq<(int, Symbol)>, marginEnabled: bool): map<int, Symbol>
    decreases |symbols|
  {
    if symbols == [] then known
    else
      var (id, s) := symbols[0];
      var refused := id in known || !(s.kind == CURRENCY_EXCHANGE_PAIR || marginEnabled);
      AddedTo(if refused then known else known[id := s], symbols[1..], marginEnabled)
  }

  /** A shard after a reset. */
  function NoUsers(): Shard { Shard(map[], map[], map[], map[]) }

  // ----- Accounts in batches -----

  /** A user of a batch, with its first balances in the order in which they are listed. */
  datatype Account = Account(uid: int, balances: seq<(int, int)>)

  function BatchTxid(c: int): int { 1_000_000_000 + c }

  function Fund(sh: Shard, uid: int, balances: seq<(int, int)>): Shard
    decreases |balances|
  {
    if balances == [] then sh
    else
      var (c, amount) := balances[0];
      Fund(AdjustBalance(sh, uid, c, amount, BatchTxid(c), ADJUSTMENT).0, uid, balances[1..])
  }

  /** Every shard takes in every account of a batch, also those of users of other shards. */
  function AddAccounts(sh: Shard, accounts: seq<Account>): Shard
    decreases |accounts|
  {
    if accounts == [] then sh
    else
      var (added, code) := AddUser(sh, accounts[0].uid);
      AddAccounts(if code == SUCCESS then Fund(added, accounts[0].uid, accounts[0].balances) else added, accounts[1..])
  }

  function BalanceOf(sh: Shard, u: int, c: int): int {
    if u in sh.profiles then Balance(sh.profiles[u].accounts, c) else 0
  }

  /** No currency is listed twice. */
  predicate EachOnce(balances: seq<(int, int)>) {
    forall j, k | 0 <= j < k < |balances| :: balances[j].0 != balances[k].0
  }

  /** No amount is negative, and every currency with an amount stands behind smaller ones only. */
  predicate InOrder(balances: seq<(int, int)>, counter: int) {
    forall k | 0 <= k < |balances| ::
      && 0 <= balances[k].1
      && (balances[k].1 != 0 ==>
            counter < BatchTxid(balances[k].0) && forall j | 0 <= j < k :: balances[j].0 < balances[k].0)
  }

  lemma {:induction false} FundOther(sh: Shard, uid: int, balances: seq<(int, int)>, u: int, c: int)
    requires u != uid || forall k | 0 <= k < |balances| :: balances[k].0 != c
    ensures BalanceOf(Fund(sh, uid, balances), u, c) == BalanceOf(sh, u, c)
    ensures uid in sh.profiles ==> uid in Fund(sh, uid, balances).profiles
    decreases |balances|
  {
    if balances != [] {
      var first := balances[0];
      FundOther(AdjustBalance(sh, uid, first.0, first.1, BatchTxid(first.0), ADJUSTMENT).0, uid, balances[1..], u, c);
    }
  }

  lemma FirstInOrder(balances: seq<(int, int)>, counter: int)
    requires balances != [] && 0 <= balances[0].1
    ensures var (c, amount) := balances[0];
            InOrder(balances, counter) <==>
              (amount != 0 ==> counter < BatchTxid(c))
                  && InOrder(balances[1..], if counter < BatchTxid(c) then BatchTxid(c) else counter)
  {
    var rest := balances[1..];
    assert forall k | 0 < k < |balances| :: balances[k] == rest[k - 1];
    if InOrder(rest, if counter < BatchTxid(balances[0].0) then BatchTxid(balances[0].0) else counter) {
      forall k, j | 0 <= j < k < |balances| && balances[k].1 != 0 ensures balances[j].0 < balances[k].0 {
        assert rest[k - 1].1 != 0;
        if 0 < j { assert rest[j - 1].0 < rest[k - 1].0; }
      }
    }
    if InOrder(balances, counter) {
      forall k, j | 0 <= j < k < |rest| && rest[k].1 != 0 ensures rest[j].0 < rest[k].0 {
        assert balances[k + 1].1 != 0 && balances[j + 1].0 < balances[k + 1].0;
      }
    }
  }

  /** A batch gives a user the balances it lists if and only if they are listed in order: the transaction id of an
      adjustment is made from its currency, so one listed behind a greater currency counts as applied already. */
  lemma {:induction false} FundedAsListed(sh: Shard, uid: int, balances: seq<(int, int)>)
    requires uid in sh.profiles && EachOnce(balances)
             && forall k | 0 <= k < |balances| :: BalanceOf(sh, uid, balances[k].0) == 0
    ensures (forall k | 0 <= k < |balances| :: BalanceOf(Fund(sh, uid, balances), uid, balances[k].0) == balances[k].1)
            <==> InOrder(balances, sh.profiles[uid].adjustmentsCounter)
    decreases |balances|
  {
    if balances != [] {
      var (c, amount) := balances[0];
      var counter := sh.profiles[uid].adjustmentsCounter;
      var next := AdjustBalance(sh, uid, c, amount, BatchTxid(c), ADJUSTMENT).0;
      var rest := balances[1..];
      assert forall k | 0 <= k < |rest| :: rest[k] == balances[k + 1];
      assert BalanceOf(next, uid, c) == if counter < BatchTxid(c) && 0 <= amount then amount else 0;
      FundOther(next, uid, rest, uid, c);
      FundedAsListed(next, uid, rest);
      assert Fund(sh, uid, balances) == Fund(next, uid, rest);
      if 0 <= amount { FirstInOrder(balances, counter); }
      var after := Fund(sh, uid, balances);
      assert (forall k | 0 <= k < |balances| :: BalanceOf(after, uid, balances[k].0) == balances[k].1) <==>
               BalanceOf(after, uid, c) == amount
               && forall k | 0 <= k < |rest| :: BalanceOf(after, uid, rest[k].0) == rest[k].1 by {
        assert balances[0] == (c, amount);
        assert forall k | 0 < k < |balances| :: balances[k] == rest[k - 1];
      }
    }
  }

  /** Whatever shard it is, a new user of a batch gets an account in it, with the balances listed if and only if they
      are in order. */
  lemma BatchAccount(sh: Shard, account: Account)
    requires account.uid !in sh.profiles && EachOnce(account.balances)
    ensures var after := AddAccounts(sh, [account]);
            && account.uid in after.profiles
            && ((forall k | 0 <= k < |account.balances| ::
                   BalanceOf(after, account.uid, account.balances[k].0) == account.balances[k].1)
                <==> InOrder(account.balances, 0))
  {
    hide InOrder, Fund;
    var added := AddUser(sh, account.uid).0;
    FundedAsListed(added, account.uid, account.balances);
    FundOther(added, account.uid, account.balances, account.uid + 1, 0);
    assert [account][1..] == [];
    assert AddAccounts(sh, [account]) == AddAccounts(Fund(added, account.uid, account.balances), []);
  }
}
