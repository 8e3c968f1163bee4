/** How each operation of a risk shard moves its worth and its users' pending sizes. */
module ShardSteps {
  import opened OrderTypes
  import opened BookSpec
  import opened BookFacts
  import opened BookTheorems
  import opened Positions
  import opened RiskSpec
  import opened Sums
  import opened Worth
  import opened MarginWorth
  import opened Ledger

  ghost predicate SamePending(sh: Shard, sh': Shard) {
    forall u: int, y: int, a: OrderAction :: PendingIn(sh', u, y, a) == PendingIn(sh, u, y, a)
  }

  lemma ProfilePending(sh: Shard, uid: int, p: Profile)
    requires uid in sh.profiles && p.positions == sh.profiles[uid].positions
    ensures SamePending(sh, sh.(profiles := sh.profiles[uid := p]))
  {
  }

  lemma ProfileOk(sh: Shard, specs: map<int, Symbol>, uid: int)
    requires ShardOk(sh, specs) && uid in sh.profiles
    ensures RecordsOk(sh.profiles[uid], specs)
  {
  }

  // ----- Hold -----

  lemma PlaceExchangeMoves(sh: Shard, specs: map<int, Symbol>, symbol: int, r: Request, c: int, marks: Marks)
    requires ShardOk(sh, specs) && r.uid in sh.profiles && symbol in specs
             && specs[symbol].kind == CURRENCY_EXCHANGE_PAIR
    ensures var (p, code) := PlaceExchangeOrder(sh.profiles[r.uid], specs[symbol], r);
            var sh' := sh.(profiles := sh.profiles[r.uid := p]);
            && ShardOk(sh', specs) && SamePending(sh, sh')
            && ShardWorth(sh', c, marks)
               == ShardWorth(sh, c, marks)
                   - (if code == VALID_FOR_MATCHING_ENGINE
                      then At(c, HoldCurrency(specs[symbol], r), HoldAmount(specs[symbol], r)) else 0)
            && (code == VALID_FOR_MATCHING_ENGINE ==> PriceCheck(specs[symbol], r) == VALID_FOR_MATCHING_ENGINE)
  {
    hide ShardWorth, ProfileWorth, ShardOk, PlaceExchangeOrder, SamePending;
    var (p, code) := PlaceExchangeOrder(sh.profiles[r.uid], specs[symbol], r);
    PlaceExchangeWorth(sh.profiles[r.uid], specs[symbol], r, c, marks);
    ProfileSet(sh, r.uid, p, c, marks);
    ProfilePending(sh, r.uid, p);
    ProfileOk(sh, specs, r.uid);
    ProfileSetOk(sh, specs, r.uid, p);
  }

  lemma PlaceMarginMoves(sh: Shard, specs: map<int, Symbol>, symbol: int, r: Request, freeMargin: int, c: int,
                         marks: Marks)
    requires ShardOk(sh, specs) && r.uid in sh.profiles && symbol in specs && specs[symbol].kind == FUTURES_CONTRACT
             && 0 < r.size
    requires forall a: OrderAction :: 0 <= PendingIn(sh, r.uid, symbol, a)
    ensures var (p, code) := PlaceMarginOrder(sh.profiles[r.uid], symbol, specs[symbol], r, freeMargin);
            var sh' := sh.(profiles := sh.profiles[r.uid := p]);
            && ShardOk(sh', specs)
            && ShardWorth(sh', c, marks) == ShardWorth(sh, c, marks)
            && Released(sh, sh', r.uid, symbol, r.action, if code == VALID_FOR_MATCHING_ENGINE then -r.size else 0)
  {
    hide ShardWorth, ProfileWorth, ShardOk, RecordsOk, WithPosition, PendingIn, PositionOk, MarginForOrder;
    var p := sh.profiles[r.uid];
    var s := specs[symbol];
    var q := PositionOf(p, symbol, s);
    var (p', code) := PlaceMarginOrder(p, symbol, s, r, freeMargin);
    ProfileOk(sh, specs, r.uid);
    PlaceMarginWorth(p, specs, symbol, r, freeMargin, c, marks);
    ProfileSet(sh, r.uid, p', c, marks);
    assert PositionOk(q) && q.currency == s.quoteCurrency by {
      if symbol in p.positions { RecordIs(sh, specs, r.uid, symbol); } else { FreshOk(s); }
    }
    HeldKeeps(q, r.action, r.size, 0);
    PendingOfPosition(sh, r.uid, symbol, s);
    var asked := p.(accounts := Plus(p.accounts, q.currency, 0));
    AccountsOk(p, asked, sh, specs, r.uid);
    var held := q.Held(r.action, r.size);
    HeldPending(q, r.action, r.size);
    if code == VALID_FOR_MATCHING_ENGINE {
      assert !held.IsEmpty() by { assert 0 < held.Pending(r.action); }
      WithPositionIs(p, symbol, held);
      WithPositionIs(asked, symbol, held);
      WithPositionOk(p, specs, symbol, held);
      WithPositionOk(asked, specs, symbol, held);
      WithPositionPending(sh, r.uid, symbol, held, p);
      WithPositionPending(sh, r.uid, symbol, held, asked);
    } else {
      WithPositionOk(asked, specs, symbol, q);
      WithPositionPending(sh, r.uid, symbol, q, asked);
    }
    ProfileSetOk(sh, specs, r.uid, p');
    BothSides(r.action);
  }

  lemma FreshOk(s: Symbol)
    ensures PositionOk(Position(s.quoteCurrency, EMPTY, 0, 0, 0, 0, 0))
  {
  }

  lemma PendingOfPosition(sh: Shard, uid: int, symbol: int, s: Symbol)
    requires uid in sh.profiles
    ensures forall a: OrderAction :: PendingIn(sh, uid, symbol, a) == PositionOf(sh.profiles[uid], symbol, s).Pending(a)
  {
  }

  lemma HeldPending(q: Position, action: OrderAction, size: int)
    ensures q.Held(action, size).Pending(action) == q.Pending(action) + size
            && q.Held(action, size).Pending(Opposite(action)) == q.Pending(Opposite(action))
    ensures q.Held(action, size).IsEmpty() ==> q.Held(action, size).Pending(action) == 0
  {
  }

  lemma WithPositionIs(p: Profile, symbol: int, q: Position)
    requires !q.IsEmpty()
    ensures WithPosition(p, symbol, q) == p.(positions := p.positions[symbol := q])
  {
  }

  /** A place command that passes takes its hold from the account of an exchange pair, or adds its size to the pending
      size of a futures position; one that is refused changes neither. */
  lemma PlaceMoves(sh: Shard, specs: map<int, Symbol>, marginEnabled: bool, symbol: int, r: Request, freeMargin: int,
                   c: int, marks: Marks)
    requires ShardOk(sh, specs) && r.command == PLACE_ORDER && 0 < r.size
    requires forall a: OrderAction :: 0 <= PendingIn(sh, r.uid, symbol, a)
    ensures var (sh', code) := PlaceOrderRiskCheck(sh, specs, marginEnabled, symbol, r, freeMargin);
            var passed := code == VALID_FOR_MATCHING_ENGINE;
            && ShardOk(sh', specs)
            && (passed ==> symbol in specs && (specs[symbol].kind == CURRENCY_EXCHANGE_PAIR ==>
                                                 PriceCheck(specs[symbol], r) == VALID_FOR_MATCHING_ENGINE))
            && ShardWorth(sh', c, marks)
               == ShardWorth(sh, c, marks)
                   - (if symbol in specs then Hold(specs[symbol], r.(resultCode := code), c) else 0)
            && Released(sh, sh', r.uid, symbol, r.action,
                        if passed && specs[symbol].kind == FUTURES_CONTRACT then -r.size else 0)
  {
    hide ShardWorth, ShardOk, PlaceExchangeOrder, PlaceMarginOrder, PendingIn, PriceCheck;
    if r.uid in sh.profiles && symbol in specs {
      match specs[symbol].kind
      case CURRENCY_EXCHANGE_PAIR => PlaceExchangeMoves(sh, specs, symbol, r, c, marks);
      case FUTURES_CONTRACT =>
        PlaceMarginMoves(sh, specs, symbol, r, freeMargin, c, marks);
        if !marginEnabled { assert sh.profiles[r.uid := sh.profiles[r.uid]] == sh.profiles; }
      case OPTION => assert sh.profiles[r.uid := sh.profiles[r.uid]] == sh.profiles;
    }
  }

  // ----- Settlement -----

  lemma CreditKeeps(sh: Shard, specs: map<int, Symbol>, uid: int, c: int, x: int)
    requires ShardOk(sh, specs) && uid in sh.profiles
    ensures ShardOk(Credit(sh, uid, c, x), specs) && SamePending(sh, Credit(sh, uid, c, x))
  {
    hide ShardOk, SamePending;
    var p := sh.profiles[uid];
    ProfileOk(sh, specs, uid);
    ProfilePending(sh, uid, p.(accounts := Plus(p.accounts, c, x)));
    AccountsOk(p, p.(accounts := Plus(p.accounts, c, x)), sh, specs, uid);
    ProfileSetOk(sh, specs, uid, p.(accounts := Plus(p.accounts, c, x)));
  }

  lemma KnownCreditKeeps(sh: Shard, specs: map<int, Symbol>, uid: int, c: int, x: int)
    requires ShardOk(sh, specs)
    ensures uid in Known(sh, uid).profiles
    ensures ShardOk(Credit(Known(sh, uid), uid, c, x), specs) && SamePending(sh, Credit(Known(sh, uid), uid, c, x))
  {
    hide ShardOk, PendingIn;
    KnownKeeps(sh, specs, uid);
    CreditKeeps(Known(sh, uid), specs, uid, c, x);
  }

  lemma FeesTakenKeeps(sh: Shard, specs: map<int, Symbol>, s: Symbol, a: int, b: int)
    requires ShardOk(sh, specs)
    ensures ShardOk(FeesTaken(sh, s, a, b), specs) && SamePending(sh, FeesTaken(sh, s, a, b))
  {
  }

  lemma {:induction false} SellMakersKeep(sh: Shard, h: Handler, specs: map<int, Symbol>, s: Symbol, events: seq<Event>)
    requires ShardOk(sh, specs)
    ensures ShardOk(SellMakers(sh, h, s, events), specs) && SamePending(sh, SellMakers(sh, h, s, events))
    decreases |events|
  {
    hide ShardOk, PendingIn, Credit, Known;
    if events != [] {
      var e := events[0];
      var next := SellMaker(sh, h, s, e);
      if e.Trade? && h.Owns(e.makerUid) {
        var x := AmountBidReleaseCorrMaker(s, e.size, e.bidderHoldPrice - e.price);
        KnownCreditKeeps(sh, specs, e.makerUid, s.quoteCurrency, x);
        var paid := Credit(Known(sh, e.makerUid), e.makerUid, s.quoteCurrency, x);
        CreditKnows(Known(sh, e.makerUid), e.makerUid, s.quoteCurrency, x);
        CreditKeeps(paid, specs, e.makerUid, s.baseCurrency, AmountAsk(s, e.size));
      }
      SellMakersKeep(next, h, specs, s, events[1..]);
    }
  }

  lemma CreditKnows(sh: Shard, uid: int, c: int, x: int)
    requires uid in sh.profiles
    ensures uid in Credit(sh, uid, c, x).profiles
  {
  }

  lemma {:induction false} BuyMakersKeep(sh: Shard, h: Handler, specs: map<int, Symbol>, s: Symbol, events: seq<Event>)
    requires ShardOk(sh, specs)
    ensures ShardOk(BuyMakers(sh, h, s, events), specs) && SamePending(sh, BuyMakers(sh, h, s, events))
    decreases |events|
  {
    hide ShardOk, PendingIn, Credit, Known;
    if events != [] {
      var e := events[0];
      if e.Trade? && h.Owns(e.makerUid) {
        KnownCreditKeeps(sh, specs, e.makerUid, s.quoteCurrency, AmountBid(s, e.size, e.price) - s.makerFee * e.size);
      }
      BuyMakersKeep(BuyMaker(sh, h, s, e), h, specs, s, events[1..]);
    }
  }

  lemma SettleExchangeKeeps(sh: Shard, h: Handler, specs: map<int, Symbol>, s: Symbol, r: Request, action: OrderAction,
                            events: seq<Event>)
    requires ShardOk(sh, specs) && events != []
    ensures ShardOk(SettleExchange(sh, h, s, r, action, events), specs)
            && SamePending(sh, SettleExchange(sh, h, s, r, action, events))
  {
    hide ShardOk, PendingIn, Credit, Known, SellMakers, BuyMakers, FeesTaken;
    KnownKeeps(sh, specs, r.uid);
    var a := if h.Owns(r.uid) then Known(sh, r.uid) else sh;
    var first := events[0];
    var cur := if action == ASK then s.baseCurrency else s.quoteCurrency;
    if h.Owns(r.uid) { CreditKeeps(a, specs, r.uid, cur, Refund(s, r, action, first)); }
    var b := if !first.Trade? && h.Owns(r.uid) then Credit(a, r.uid, cur, Refund(s, r, action, first)) else a;
    var trades := if first.Trade? then events else events[1..];
    if trades != [] {
      if action == ASK {
        SellKeeps(b, h, specs, s, r.uid, trades);
      } else {
        BuyKeeps(b, h, specs, s, r, trades);
      }
    }
  }

  lemma SellKeeps(sh: Shard, h: Handler, specs: map<int, Symbol>, s: Symbol, uid: int, events: seq<Event>)
    requires ShardOk(sh, specs)
    ensures ShardOk(ExchangeSell(sh, h, s, uid, events), specs) && SamePending(sh, ExchangeSell(sh, h, s, uid, events))
  {
    hide ShardOk, PendingIn, Credit, Known, SellMakers, FeesTaken;
    SellMakersKeep(sh, h, specs, s, events);
    var a := SellMakers(sh, h, s, events);
    var x := Cost(events) * s.quoteScaleK - s.takerFee * Traded(events);
    KnownCreditKeeps(a, specs, uid, s.quoteCurrency, x);
    FeesTakenKeeps(Credit(Known(a, uid), uid, s.quoteCurrency, x), specs, s, Traded(events), OwnSize(h, events));
    FeesTakenKeeps(a, specs, s, 0, OwnSize(h, events));
  }

  lemma BuyKeeps(sh: Shard, h: Handler, specs: map<int, Symbol>, s: Symbol, r: Request, events: seq<Event>)
    requires ShardOk(sh, specs)
    ensures ShardOk(ExchangeBuy(sh, h, s, r, events), specs) && SamePending(sh, ExchangeBuy(sh, h, s, r, events))
  {
    hide ShardOk, PendingIn, Credit, Known, BuyMakers, FeesTaken;
    BuyMakersKeep(sh, h, specs, s, events);
    var a := BuyMakers(sh, h, s, events);
    var x := ((if IsFokPlace(r) then r.price else HeldCost(events)) - Cost(events)) * s.quoteScaleK;
    KnownCreditKeeps(a, specs, r.uid, s.quoteCurrency, x);
    var b := Credit(Known(a, r.uid), r.uid, s.quoteCurrency, x);
    CreditKnows(Known(a, r.uid), r.uid, s.quoteCurrency, x);
    CreditKeeps(b, specs, r.uid, s.baseCurrency, Traded(events) * s.baseScaleK);
    FeesTakenKeeps(Credit(b, r.uid, s.baseCurrency, Traded(events) * s.baseScaleK), specs, s, Traded(events),
                   OwnSize(h, events));
    FeesTakenKeeps(a, specs, s, 0, OwnSize(h, events));
  }

  /** The pending sizes a settlement releases: those of futures orders. */
  function SettlementReleases(h: Handler, symbol: int, s: Symbol, uid: int, action: OrderAction, events: seq<Event>,
                              u: int, y: int, a: OrderAction): int {
    if s.kind == FUTURES_CONTRACT then ChainReleases(h, symbol, uid, action, events, u, y, a) else 0
  }

  /** Settling a chain in a shard never fails to find a record, moves exactly its share, and releases exactly its
      pending sizes. */
  lemma SettleMoves(sh: Shard, h: Handler, specs: map<int, Symbol>, symbol: int, r: Request, action: OrderAction,
                    events: seq<Event>, c: int, marks: Marks)
    requires ShardOk(sh, specs) && symbol in specs && ChainOk(events)
    requires specs[symbol].kind == FUTURES_CONTRACT ==>
               forall u: int, a: OrderAction ::
                   ChainReleases(h, symbol, r.uid, action, events, u, symbol, a) <= PendingIn(sh, u, symbol, a)
                       || !h.Owns(u)
    ensures var x := Settle(sh, h, symbol, specs[symbol], r, action, events);
            && x.Some? && ShardOk(x.value, specs)
            && ShardWorth(x.value, c, marks)
               == ShardWorth(sh, c, marks) + SettlementShare(h, specs[symbol], r, action, events, c, marks(symbol))
            && forall u: int, y: int, a: OrderAction ::
                 PendingIn(x.value, u, y, a)
                     == PendingIn(sh, u, y, a)
                         - SettlementReleases(h, symbol, specs[symbol], r.uid, action, events, u, y, a)
  {
    hide ShardOk, PendingIn, ShardWorth, SettleExchange, SettleMargin, Known, ChainOk, ChainReleases, Handler.Owns;
    var s := specs[symbol];
    if events == [] {
      NoEventsShare(h, symbol, s, r, action, c, marks(symbol));
    } else {
      match s.kind
      case CURRENCY_EXCHANGE_PAIR =>
        SettleExchangeKeeps(sh, h, specs, s, r, action, events);
        SettleExchangeWorth(sh, h, s, r, action, events, c, marks, marks(symbol));
      case FUTURES_CONTRACT =>
        KnownKeeps(sh, specs, r.uid);
        KnownWorth(sh, r.uid, c, marks);
        var k := if h.Owns(r.uid) then Known(sh, r.uid) else sh;
        assert forall i | 0 <= i < |events| :: 0 < events[i].size by { SizesOf(events); }
        SettleMarginMoves(k, h, specs, symbol, r, action, events, c, marks);
      case OPTION => OptionShare(h, s, r, action, events, c, marks(symbol));
    }
  }

  lemma SizesOf(events: seq<Event>)
    requires ChainOk(events)
    ensures forall i | 0 <= i < |events| :: 0 < events[i].size
  {
  }

  lemma NoEventsShare(h: Handler, symbol: int, s: Symbol, r: Request, action: OrderAction, c: int, mark: int)
    ensures SettlementShare(h, s, r, action, [], c, mark) == 0
    ensures forall u: int, y: int, a: OrderAction :: SettlementReleases(h, symbol, s, r.uid, action, [], u, y, a) == 0
  {
  }

  lemma {:induction false} OptionShare(h: Handler, s: Symbol, r: Request, action: OrderAction, events: seq<Event>,
                                       c: int, mark: int)
    requires s.kind == OPTION
    ensures SettlementShare(h, s, r, action, events, c, mark) == 0
  {
    if events != [] {
      OptionShare(h, s, r, action, events[1..], c, mark);
    }
  }

  // ----- Users and balances -----

  /** An operation of the user service: nothing is created or lost, no pending size changes. */
  ghost predicate Neutral(sh: Shard, sh': Shard, specs: map<int, Symbol>, c: int, marks: Marks) {
    ShardOk(sh', specs) && ShardWorth(sh', c, marks) == ShardWorth(sh, c, marks) && SamePending(sh, sh')
  }

  lemma AdjustMoves(sh: Shard, specs: map<int, Symbol>, uid: int, d: int, amount: int, txid: int, t: AdjustmentType,
                    c: int, marks: Marks)
    requires ShardOk(sh, specs)
    ensures Neutral(sh, AdjustBalance(sh, uid, d, amount, txid, t).0, specs, c, marks)
  {
    hide ShardOk, SamePending, ProfileWorth, PendingIn;
    if BalanceAdjustment(sh, uid, d, amount, txid).1 == SUCCESS {
      var p := sh.profiles[uid];
      var q := p.(adjustmentsCounter := txid, accounts := Plus(p.accounts, d, amount));
      ProfileOk(sh, specs, uid);
      AccountsOk(p, q, sh, specs, uid);
      ProfileSetOk(sh, specs, uid, q);
      ProfilePending(sh, uid, q);
      ProfileSet(sh, uid, q, c, marks);
      CounterWorth(p, txid, c, marks);
      AccountsWorth(p.(adjustmentsCounter := txid), d, amount, c, marks);
      var b := sh.(profiles := sh.profiles[uid := q]);
      BooksOnly(b, Plus(b.adjustments, d, -amount), b.suspends, specs);
      BooksOnly(b, b.adjustments, Plus(b.suspends, d, -amount), specs);
      SameTransitive(sh, b, AdjustBalance(sh, uid, d, amount, txid, t).0);
    } else {
      SameRefl(sh);
    }
  }

  lemma SameRefl(sh: Shard)
    ensures SamePending(sh, sh)
  {
  }

  lemma SameTransitive(a: Shard, b: Shard, c: Shard)
    requires SamePending(a, b) && SamePending(b, c)
    ensures SamePending(a, c)
  {
  }

  lemma CounterWorth(p: Profile, txid: int, c: int, marks: Marks)
    ensures ProfileWorth(p.(adjustmentsCounter := txid), c, marks) == ProfileWorth(p, c, marks)
  {
  }

  lemma BooksOnly(sh: Shard, adjustments: map<int, int>, suspends: map<int, int>, specs: map<int, Symbol>)
    requires ShardOk(sh, specs)
    ensures ShardOk(sh.(adjustments := adjustments, suspends := suspends), specs)
            && SamePending(sh, sh.(adjustments := adjustments, suspends := suspends))
    ensures sh.(adjustments := adjustments) == sh.(adjustments := adjustments, suspends := sh.suspends)
    ensures sh.(suspends := suspends) == sh.(adjustments := sh.adjustments, suspends := suspends)
  {
  }

  lemma NewUserMoves(sh: Shard, specs: map<int, Symbol>, uid: int, c: int, marks: Marks)
    requires ShardOk(sh, specs) && uid !in sh.profiles
    ensures Neutral(sh, sh.(profiles := sh.profiles[uid := Profile(ACTIVE, 0, map[], map[])]), specs, c, marks)
  {
    hide ShardWorth;
    NewProfileWorth(ACTIVE, c, marks);
    ProfileSet(sh, uid, Profile(ACTIVE, 0, map[], map[]), c, marks);
  }

  lemma AddUserMoves(sh: Shard, specs: map<int, Symbol>, uid: int, c: int, marks: Marks)
    requires ShardOk(sh, specs)
    ensures Neutral(sh, AddUser(sh, uid).0, specs, c, marks)
  {
    hide ShardWorth, ShardOk, PendingIn;
    if uid !in sh.profiles { NewUserMoves(sh, specs, uid, c, marks); }
  }

  lemma ResumeUserMoves(sh: Shard, specs: map<int, Symbol>, uid: int, c: int, marks: Marks)
    requires ShardOk(sh, specs)
    ensures Neutral(sh, ResumeUser(sh, uid).0, specs, c, marks)
  {
    hide ShardWorth, ShardOk, PendingIn, ProfileWorth;
    if uid !in sh.profiles {
      NewUserMoves(sh, specs, uid, c, marks);
    } else {
      var p := sh.profiles[uid];
      var q := p.(status := ACTIVE);
      assert ProfileWorth(q, c, marks) == ProfileWorth(p, c, marks) by { StatusWorth(p, c, marks); }
      ProfileOk(sh, specs, uid);
      AccountsOk(p, q, sh, specs, uid);
      ProfileSetOk(sh, specs, uid, q);
      ProfilePending(sh, uid, q);
      ProfileSet(sh, uid, q, c, marks);
    }
  }

  lemma StatusWorth(p: Profile, c: int, marks: Marks)
    ensures ProfileWorth(p.(status := ACTIVE), c, marks) == ProfileWorth(p, c, marks)
  {
  }

  /** Deleting a user loses nothing: it has no balance in any currency and, since no record is ever empty, no
      position. */
  lemma SuspendUserMoves(sh: Shard, specs: map<int, Symbol>, uid: int, c: int, marks: Marks)
    requires ShardOk(sh, specs)
    ensures Neutral(sh, SuspendUser(sh, uid).0, specs, c, marks)
  {
    if uid in sh.profiles && SuspendUser(sh, uid).1 == SUCCESS {
      var p := sh.profiles[uid];
      assert RecordsOk(p, specs);
      NothingLeft(p, specs, c, marks);
      TotalRemove(sh.profiles, uid, WorthIn(c, marks));
    }
  }

  lemma NothingLeft(p: Profile, specs: map<int, Symbol>, c: int, marks: Marks)
    requires RecordsOk(p, specs) && !HasPositions(p) && !HasFunds(p)
    ensures p.positions == map[] && ProfileWorth(p, c, marks) == 0
  {
    forall y: int ensures y !in p.positions {
      if y in p.positions { assert !p.positions[y].IsEmpty(); assert HasPositions(p); }
    }
    TotalZero(p.positions, EquityIn(c, marks));
  }

  // ----- Accounts in batches -----

  lemma {:induction false} FundMoves(sh: Shard, specs: map<int, Symbol>, uid: int, balances: seq<(int, int)>, c: int,
                                     marks: Marks)
    requires ShardOk(sh, specs)
    ensures Neutral(sh, Fund(sh, uid, balances), specs, c, marks)
    decreases |balances|
  {
    hide ShardWorth, ShardOk, PendingIn, AdjustBalance;
    if balances != [] {
      var (d, amount) := balances[0];
      var next := AdjustBalance(sh, uid, d, amount, BatchTxid(d), ADJUSTMENT).0;
      AdjustMoves(sh, specs, uid, d, amount, BatchTxid(d), ADJUSTMENT, c, marks);
      FundMoves(next, specs, uid, balances[1..], c, marks);
    }
  }

  /** A batch of accounts creates and loses nothing in any shard. */
  lemma {:induction false} AddAccountsMoves(sh: Shard, specs: map<int, Symbol>, accounts: seq<Account>, c: int,
                                            marks: Marks)
    requires ShardOk(sh, specs)
    ensures Neutral(sh, AddAccounts(sh, accounts), specs, c, marks)
    decreases |accounts|
  {
    hide ShardWorth, ShardOk, PendingIn, AddUser, Fund;
    if accounts != [] {
      var (added, code) := AddUser(sh, accounts[0].uid);
      AddUserMoves(sh, specs, accounts[0].uid, c, marks);
      FundMoves(added, specs, accounts[0].uid, accounts[0].balances, c, marks);
      AddAccountsMoves(if code == SUCCESS then Fund(added, accounts[0].uid, accounts[0].balances) else added, specs,
                       accounts[1..], c, marks);
    }
  }
}
