/** A risk shard updated in place: profiles with their accounts and position records, proved to do what RiskSpec
    says. */
module RiskEngines {
  import opened Wrappers
  import opened OrderTypes
  import opened Keys
  import opened BookSpec
  import opened BookFacts
  import opened BookTheorems
  import opened Positions
  import opened RiskSpec
  import opened Worth
  import A = Accounts

  class UserProfile {
    const uid: int
    var userStatus: UserStatus
    var adjustmentsCounter: int
    var accounts: map<int, int>
    var positions: map<int, SymbolPositionRecord>

    constructor (uid: int, status: UserStatus)
      ensures this.uid == uid && positions == map[] && Valid() && Value() == Profile(status, 0, map[], map[])
    {
      this.uid, userStatus, adjustmentsCounter, accounts, positions := uid, status, 0, map[], map[];
    }

    /** Records know their owner and symbol, so no two entries of any two users share one. */
    ghost predicate Valid()
      reads this`positions
    {
      forall y: int <- positions :: positions[y].uid == uid && positions[y].symbol == y
    }

    ghost function Value(): Profile
      reads this, positions.Values
    {
      Profile(userStatus, adjustmentsCounter, accounts, map y: int | y in positions :: positions[y].Value())
    }

    lemma ValueIs()
      ensures Value().positions.Keys == positions.Keys
              && forall y: int <- positions :: y in Value().positions && Value().positions[y] == positions[y].Value()
    {
    }

    method AddToAccount(c: int, x: int)
      modifies this`accounts
      ensures Value() == old(Value()).(accounts := Plus(old(Value()).accounts, c, x))
    {
      accounts := accounts[c := (if c in accounts then accounts[c] else 0) + x];
    }

    /** An emptied record is dropped and its profit paid out. */
    method RemovePositionRecord(record: SymbolPositionRecord)
      requires Valid() && record.symbol in positions && positions[record.symbol] == record
      modifies this`accounts, this`positions
      ensures Valid() && positions == old(positions) - {record.symbol}
      ensures var p := old(Value()); var q := record.Value();
              Value() == p.(accounts := Plus(p.accounts, q.currency, q.profit),
                            positions := p.positions - {record.symbol})
    {
      AddToAccount(record.currency, record.profit);
      positions := positions - {record.symbol};
      assert Value().positions == old(Value()).positions - {record.symbol};
    }

    /** After a record changed, it stays or, if it is empty, it is removed. */
    method KeepOrRemove(record: SymbolPositionRecord, ghost before: Profile)
      requires Valid() && record.symbol in positions && positions[record.symbol] == record
      requires Value() == before.(positions := before.positions[record.symbol := record.Value()])
      modifies this`accounts, this`positions
      ensures Valid() && positions == if record.Value().IsEmpty() then old(positions) - {record.symbol}
              else old(positions)
      ensures Value() == WithPosition(before, record.symbol, record.Value())
    {
      var empty := record.IsEmpty();
      if empty {
        RemovePositionRecord(record);
        assert before.positions[record.symbol := record.Value()] - {record.symbol}
               == before.positions - {record.symbol};
      }
    }

    /** A change of one record shows in the profile's value at its symbol alone. */
    twostate lemma RecordChanged(new record: SymbolPositionRecord)
      requires old(allocated(record)) && Valid() && record.symbol in positions && positions[record.symbol] == record
      requires positions == old(positions) && accounts == old(accounts) && userStatus == old(userStatus)
               && adjustmentsCounter == old(adjustmentsCounter)
      requires forall y: int <- positions | y != record.symbol :: positions[y].Value() == old(positions[y].Value())
      ensures Value() == old(Value()).(positions := old(Value()).positions[record.symbol := record.Value()])
    {
      var m, m' := old(Value()).positions[record.symbol := record.Value()], Value().positions;
      assert forall y: int :: y in m <==> y in m';
      forall y: int <- m ensures m[y] == m'[y] {
        if y != record.symbol { assert positions[y].Value() == old(positions[y].Value()); }
      }
      assert m == m';
    }

    method MarginTrade(record: SymbolPositionRecord, c: int, action: OrderAction, size: int, price: int, feePerLot: int)
      returns (fee: int)
      requires Valid() && record.symbol in positions && positions[record.symbol] == record
      modifies this`accounts, this`positions, record
      ensures Valid() && forall y: int <- positions :: y in old(positions) && positions[y] == old(positions[y])
      ensures var p := old(Value());
              var (q, lots) := p.positions[record.symbol].AfterTrade(action, size, price);
              && fee == feePerLot * lots
              && Value() == WithPosition(p.(accounts := Plus(p.accounts, c, -fee)), record.symbol, q)
    {
      var lots := record.UpdatePositionForMarginTrade(action, size, price);
      RecordChanged(record);
      fee := feePerLot * lots;
      AddToAccount(c, -fee);
      KeepOrRemove(record, old(Value()).(accounts := Plus(old(Value()).accounts, c, -fee)));
    }

    method MarginRelease(record: SymbolPositionRecord, action: OrderAction, size: int)
      requires Valid() && record.symbol in positions && positions[record.symbol] == record
      modifies this`accounts, this`positions, record
      ensures Valid() && forall y: int <- positions :: y in old(positions) && positions[y] == old(positions[y])
      ensures var p := old(Value());
              Value() == WithPosition(p, record.symbol, p.positions[record.symbol].Held(action, -size))
    {
      record.PendingRelease(action, size);
      RecordChanged(record);
      KeepOrRemove(record, old(Value()));
    }

    /** Adds a record for a symbol that has none. */
    method NewRecord(symbol: int, currency: int) returns (record: SymbolPositionRecord)
      requires Valid() && symbol !in positions
      modifies this`positions
      ensures Valid() && fresh(record) && record.symbol == symbol && record.uid == uid
              && positions == old(positions)[symbol := record]
      ensures Value() == old(Value()).(positions :=
                                       old(Value()).positions[symbol := Position(currency, EMPTY, 0, 0, 0, 0, 0)])
      ensures record.Value() == Position(currency, EMPTY, 0, 0, 0, 0, 0)
    {
      record := new SymbolPositionRecord(uid, symbol, currency);
      positions := positions[symbol := record];
    }
  }

  /** The best prices of a symbol in its latest market data. */
  datatype LastPrice = LastPrice(askPrice: int, bidPrice: int)

  class RiskEngine {
    const shardId: nat
    const numShards: nat
    const marginEnabled: bool
    var specs: map<int, Symbol>
    var userProfiles: map<int, UserProfile>
    var fees: map<int, int>
    var adjustments: map<int, int>
    var suspends: map<int, int>
    var lastPriceCache: map<int, LastPrice>

    constructor (shardId: nat, numShards: nat, specs: map<int, Symbol>, marginEnabled: bool)
      ensures this.shardId == shardId && this.numShards == numShards && this.specs == specs
              && this.marginEnabled == marginEnabled
      ensures Valid() && Value() == Shard(map[], map[], map[], map[])
    {
      this.shardId, this.numShards, this.specs, this.marginEnabled := shardId, numShards, specs, marginEnabled;
      userProfiles, fees, adjustments, suspends, lastPriceCache := map[], map[], map[], map[], map[];
    }

    ghost predicate Valid()
      reads this`userProfiles, userProfiles.Values`positions
    {
      forall u: int <- userProfiles ::
          userProfiles[u].uid == u && userProfiles[u] in userProfiles.Values && userProfiles[u].Valid()
    }

    /** All position records of this shard. */
    ghost function Records(): set<SymbolPositionRecord>
      reads this`userProfiles, userProfiles.Values`positions
    {
      set p: UserProfile, q: SymbolPositionRecord | p in userProfiles.Values && q in p.positions.Values :: q
    }

    ghost function Value(): Shard
      reads this`userProfiles, this`fees, this`adjustments, this`suspends, userProfiles.Values, Records()
    {
      Shard(map u: int | u in userProfiles :: userProfiles[u].Value(), fees, adjustments, suspends)
    }

    function Self(): Handler {
      Handler(shardId, numShards)
    }

    /** A change of one profile shows in the shard's value at its user alone. */
    twostate lemma ProfileChanged(new p: UserProfile)
      requires old(allocated(p)) && Valid() && p.uid in userProfiles && userProfiles[p.uid] == p
      requires userProfiles == old(userProfiles) && fees == old(fees) && adjustments == old(adjustments)
               && suspends == old(suspends)
      requires forall u: int <- userProfiles | u != p.uid :: userProfiles[u].Value() == old(userProfiles[u].Value())
      ensures Value() == old(Value()).(profiles := old(Value()).profiles[p.uid := p.Value()])
    {
      var m, m' := old(Value()).profiles[p.uid := p.Value()], Value().profiles;
      assert forall u: int :: u in m <==> u in m';
      forall u: int <- m ensures m[u] == m'[u] {
        if u != p.uid { assert userProfiles[u].Value() == old(userProfiles[u].Value()); }
      }
      assert m == m';
    }

    predicate UidForThisHandler(uid: int)
      ensures UidForThisHandler(uid) <==> Self().Owns(uid)
    {
      numShards <= 1 || uid % numShards == shardId
    }

    // ----- User profiles -----

    method GetUserProfile(uid: int) returns (p: UserProfile?)
      requires Valid()
      ensures uid !in userProfiles ==> p == null
      ensures uid in userProfiles ==> p == userProfiles[uid]
    {
      p := if uid in userProfiles then userProfiles[uid] else null;
    }

    method NewProfile(uid: int, status: UserStatus) returns (p: UserProfile)
      requires Valid() && uid !in userProfiles
      modifies this`userProfiles
      ensures Valid() && fresh(p) && p.uid == uid && userProfiles == old(userProfiles)[uid := p]
              && Records() == old(Records())
      ensures Value() == old(Value()).(profiles := old(Value()).profiles[uid := Profile(status, 0, map[], map[])])
    {
      hide Value, UserProfile.Value, Records;
      p := new UserProfile(uid, status);
      userProfiles := userProfiles[uid := p];
      ProfileAdded(p);
    }

    /** A new profile without positions shows in the shard's value at its user alone. */
    twostate lemma ProfileAdded(new p: UserProfile)
      requires old(Valid()) && Valid() && p.uid !in old(userProfiles) && userProfiles == old(userProfiles)[p.uid := p]
               && p.positions == map[]
      requires fees == old(fees) && adjustments == old(adjustments) && suspends == old(suspends)
      requires forall u: int <- old(userProfiles) ::
                 userProfiles[u].positions == old(userProfiles[u].positions)
                     && userProfiles[u].Value() == old(userProfiles[u].Value())
      ensures Records() == old(Records())
              && Value() == old(Value()).(profiles := old(Value()).profiles[p.uid := p.Value()])
    {
      hide UserProfile.Value;
      forall u: int <- old(userProfiles)
        ensures userProfiles[u] == old(userProfiles[u]) && userProfiles[u] in userProfiles.Values {}
      ValuesUpdated(old(userProfiles), p.uid, p);
      forall q: UserProfile <- old(userProfiles).Values
        ensures q in userProfiles.Values && q.positions == old(q.positions)
      {
        if forall u: int <- old(userProfiles) :: old(userProfiles)[u] != q { assert false; }
      }
      assert forall q: SymbolPositionRecord :: q in Records() <==> q in old(Records());
      var m, m' := old(Value()).profiles[p.uid := p.Value()], Value().profiles;
      assert forall u: int :: u in m <==> u in m';
      forall u: int <- m ensures m[u] == m'[u] {
        if u != p.uid { assert userProfiles[u].Value() == old(userProfiles[u].Value()); }
      }
      assert m == m';
    }

    lemma ValuesUpdated(m: map<int, UserProfile>, u: int, p: UserProfile)
      ensures forall q: UserProfile <- m[u := p].Values :: q == p || q in m.Values
    {
      forall q: UserProfile <- m[u := p].Values ensures q == p || q in m.Values {
        var m' := m[u := p];
        if forall y: int <- m' :: m'[y] != q { assert false; }
      }
    }

    method GetUserProfileOrAddSuspended(uid: int) returns (p: UserProfile)
      requires Valid()
      modifies this`userProfiles
      ensures Valid() && Value() == Known(old(Value()), uid) && Grown()
      ensures uid in userProfiles && userProfiles[uid] == p && p.uid == uid
      ensures userProfiles == old(userProfiles)[uid := p] && Records() == old(Records())
      ensures if uid in old(userProfiles) then old(userProfiles)[uid] == p else fresh(p)
    {
      if uid in userProfiles {
        p := userProfiles[uid];
      } else {
        p := NewProfile(uid, SUSPENDED);
        ValuesUpdated(old(userProfiles), uid, p);
      }
    }

    /** Adds an amount to an account of a user of this shard. */
    method AddTo(p: UserProfile, c: int, x: int)
      requires Valid() && p.uid in userProfiles && userProfiles[p.uid] == p
      modifies p`accounts
      ensures Valid() && p.uid in old(Value()).profiles && Value() == Credit(old(Value()), p.uid, c, x)
              && Records() == old(Records())
    {
      p.AddToAccount(c, x);
      ProfileChanged(p);
    }

    method TakeFee(c: int, fee: int)
      requires Valid()
      modifies this`fees
      ensures Valid() && Records() == old(Records())
              && Value() == old(Value()).(fees := Plus(old(Value()).fees, c, fee))
    {
      fees := fees[c := (if c in fees then fees[c] else 0) + fee];
      assert Value().profiles == old(Value()).profiles;
    }

    // ----- Hold before matching -----

    method PlaceExchangeOrder(cmd: OrderCommand, p: UserProfile, spec: Symbol) returns (code: ResultCode)
      modifies p`accounts
      ensures (p.Value(), code) == RiskSpec.PlaceExchangeOrder(old(p.Value()), spec, cmd.Input())
      ensures A.PairHeld(old(p.Value()), p.Value(), code, spec, cmd.Input())
    {
      hide A.PairHeld;
      A.HoldIff(p.Value(), spec, cmd.Input());
      var currency := if cmd.action == BID then spec.quoteCurrency else spec.baseCurrency;
      var orderHoldAmount: int;
      if cmd.action == BID {
        if cmd.orderType == FOK_BUDGET || cmd.orderType == IOC_BUDGET {
          if cmd.reserveBidPrice != cmd.price { return RISK_INVALID_RESERVE_BID_PRICE; }
          orderHoldAmount := AmountBidTakerFeeForBudget(spec, cmd.size, cmd.price);
        } else {
          if cmd.reserveBidPrice < cmd.price { return RISK_INVALID_RESERVE_BID_PRICE; }
          orderHoldAmount := AmountBidTakerFee(spec, cmd.size, cmd.reserveBidPrice);
        }
      } else {
        if cmd.price * spec.quoteScaleK < spec.takerFee { return RISK_ASK_PRICE_LOWER_THAN_FEE; }
        orderHoldAmount := AmountAsk(spec, cmd.size);
      }
      var currentBalance := if currency in p.accounts then p.accounts[currency] else 0;
      p.accounts := p.accounts[currency := currentBalance];
      assert p.accounts == Plus(old(p.accounts), currency, 0) && p.Value() == old(p.Value()).(accounts := p.accounts);
      if currentBalance < orderHoldAmount { return RISK_NSF; }
      p.accounts := p.accounts[currency := currentBalance - orderHoldAmount];
      assert p.accounts == Plus(old(p.accounts), currency, -orderHoldAmount)
             && p.Value() == old(p.Value()).(accounts := p.accounts);
      return VALID_FOR_MATCHING_ENGINE;
    }

    /** Enough margin for the order, given what the user's other positions leave free. */
    method CanPlaceMarginOrder(cmd: OrderCommand, p: UserProfile, spec: Symbol, record: SymbolPositionRecord,
                               freeMargin: int)
      returns (can: bool)
      modifies p`accounts
      ensures var margin := MarginForOrder(record.Value(), spec, cmd.action, cmd.size);
              var q := old(p.Value());
              && (can <==> margin == -1 || margin <= Balance(q.accounts, record.currency) + freeMargin)
              && p.Value() == if margin == -1 then q else q.(accounts := Plus(q.accounts, record.currency, 0))
    {
      var margin := record.CalculateRequiredMarginForOrder(spec, cmd.action, cmd.size);
      if margin == -1 { return true; }
      p.AddToAccount(record.currency, 0);
      can := margin <= p.accounts[record.currency] + freeMargin;
    }

    method PlaceMarginOrder(cmd: OrderCommand, p: UserProfile, symbol: int, spec: Symbol, freeMargin: int)
      returns (code: ResultCode)
      requires p.Valid()
      modifies p`accounts, p`positions, p.positions.Values
      ensures p.Valid()
              && forall y: int <- p.positions ::
                   fresh(p.positions[y]) || (y in old(p.positions) && p.positions[y] == old(p.positions[y]))
      ensures (p.Value(), code) == RiskSpec.PlaceMarginOrder(old(p.Value()), symbol, spec, cmd.Input(), freeMargin)
    {
      hide UserProfile.Value, UserProfile.Valid, MarginForOrder, Position.Held, WithPosition;
      ghost var p0 := p.Value();
      p.ValueIs();
      ghost var q := PositionOf(p0, symbol, spec);
      var record := FindRecord(p, symbol, spec.quoteCurrency);
      var can := CanPlaceMarginOrder(cmd, p, spec, record, freeMargin);
      ghost var asked := if MarginForOrder(q, spec, cmd.action, cmd.size) == -1 then p0
          else p0.(accounts := Plus(p0.accounts, q.currency, 0));
      if can {
        Hold(p, record, cmd.action, cmd.size, asked);
        return VALID_FOR_MATCHING_ENGINE;
      } else {
        p.KeepOrRemove(record, asked);
        return RISK_NSF;
      }
    }

    /** The position record of a symbol, a new one if there is none. */
    method FindRecord(p: UserProfile, symbol: int, currency: int) returns (record: SymbolPositionRecord)
      requires p.Valid()
      modifies p`positions
      ensures p.Valid() && symbol in p.positions && p.positions[symbol] == record && record.symbol == symbol
      ensures p.positions == old(p.positions)[symbol := record]
              && (fresh(record) || (symbol in old(p.positions) && record == old(p.positions[symbol])))
      ensures var q := if symbol in old(p.Value()).positions then old(p.Value()).positions[symbol]
              else Position(currency, EMPTY, 0, 0, 0, 0, 0);
              record.Value() == q && p.Value() == old(p.Value()).(positions := old(p.Value()).positions[symbol := q])
    {
      if symbol in p.positions {
        record := p.positions[symbol];
        assert p.Value().positions == p.Value().positions[symbol := record.Value()];
      } else {
        record := p.NewRecord(symbol, currency);
      }
    }

    method Hold(p: UserProfile, record: SymbolPositionRecord, action: OrderAction, size: int, ghost before: Profile)
      requires p.Valid() && record.symbol in p.positions && p.positions[record.symbol] == record
      requires p.Value() == before.(positions := before.positions[record.symbol := record.Value()])
      modifies record
      ensures p.Valid()
              && p.Value() == before.(positions :=
                                      before.positions[record.symbol := old(record.Value()).Held(action, size)])
    {
      record.PendingHold(action, size);
      p.RecordChanged(record);
      assert before.positions[record.symbol := old(record.Value())][record.symbol := record.Value()]
             == before.positions[record.symbol := record.Value()];
    }

    method PlaceOrder(cmd: OrderCommand, p: UserProfile, symbol: int, spec: Symbol, freeMargin: int)
      returns (code: ResultCode)
      requires p.Valid()
      modifies p`accounts, p`positions, p.positions.Values
      ensures p.Valid()
              && forall y: int <- p.positions ::
                   fresh(p.positions[y]) || (y in old(p.positions) && p.positions[y] == old(p.positions[y]))
      ensures (p.Value(), code)
              == RiskSpec.PlaceOrder(old(p.Value()), symbol, spec, marginEnabled, cmd.Input(), freeMargin)
    {
      match spec.kind {
        case CURRENCY_EXCHANGE_PAIR =>
          code := PlaceExchangeOrder(cmd, p, spec);
        case FUTURES_CONTRACT =>
          if !marginEnabled { return RISK_MARGIN_TRADING_DISABLED; }
          code := PlaceMarginOrder(cmd, p, symbol, spec, freeMargin);
        case OPTION =>
          code := UNSUPPORTED_SYMBOL_TYPE;
      }
    }

    lemma RecordOwner(p: UserProfile, q: SymbolPositionRecord)
      requires p.Valid() && q in p.positions.Values
      ensures q.uid == p.uid
    {
      if forall y: int <- p.positions :: p.positions[y] != q { assert false; }
    }

    /** No two users share a record. */
    lemma OthersRecords(p: UserProfile)
      requires Valid() && p.uid in userProfiles && userProfiles[p.uid] == p
      ensures forall u: int <- userProfiles | u != p.uid ::
                userProfiles[u] != p
                    && forall q: SymbolPositionRecord <- userProfiles[u].positions.Values :: q !in p.positions.Values
      ensures forall q: SymbolPositionRecord <- p.positions.Values :: q in Records()
    {
      forall u: int <- userProfiles, q: SymbolPositionRecord <- userProfiles[u].positions.Values | u != p.uid
        ensures q !in p.positions.Values
      {
        RecordOwner(userProfiles[u], q);
        if q in p.positions.Values { RecordOwner(p, q); }
      }
    }

    /** The check of one user's order: the user's profile changes, no other. */
    method PlaceFor(symbol: int, cmd: OrderCommand, p: UserProfile, spec: Symbol, freeMargin: int)
      returns (code: ResultCode)
      requires Valid() && p.uid in userProfiles && userProfiles[p.uid] == p
      modifies p`accounts, p`positions, p.positions.Values
      ensures Valid() && fresh(Records() - old(Records())) && p.uid in old(Value()).profiles
      ensures var r :=
              RiskSpec.PlaceOrder(old(Value()).profiles[p.uid], symbol, spec, marginEnabled, cmd.Input(), freeMargin);
              Value() == old(Value()).(profiles := old(Value()).profiles[p.uid := r.0]) && code == r.1
    {
      hide RiskSpec.PlaceOrder, UserProfile.Value;
      OthersRecords(p);
      code := PlaceOrder(cmd, p, symbol, spec, freeMargin);
      ProfileChanged(p);
      forall q: SymbolPositionRecord <- Records() ensures fresh(q) || q in old(Records()) {
        var owner: UserProfile :| owner in userProfiles.Values && q in owner.positions.Values;
        if forall y: int <- owner.positions :: owner.positions[y] != q { assert false; }
        if !fresh(q) { assert q in old(owner.positions).Values; }
      }
    }

    method PlaceOrderRiskCheck(symbol: int, cmd: OrderCommand, freeMargin: int) returns (code: ResultCode)
      requires Valid()
      modifies userProfiles.Values, Records()
      ensures Valid() && fresh(Records() - old(Records()))
      ensures (Value(), code)
              == RiskSpec.PlaceOrderRiskCheck(old(Value()), specs, marginEnabled, symbol, cmd.Input(), freeMargin)
    {
      hide RiskSpec.PlaceOrder, UserProfile.Value;
      var p := GetUserProfile(cmd.uid);
      if p == null { return AUTH_INVALID_USER; }
      if symbol !in specs { return INVALID_SYMBOL; }
      OthersRecords(p);
      code := PlaceFor(symbol, cmd, p, specs[symbol], freeMargin);
      if code != VALID_FOR_MATCHING_ENGINE { code := RISK_NSF; }
    }

    /** The hold before matching: only new orders of this shard's users are checked. */
    method PreProcessCommand(symbol: int, cmd: OrderCommand, freeMargin: int)
      requires Valid()
      modifies cmd`resultCode, userProfiles.Values, Records()
      ensures Valid() && fresh(Records() - old(Records()))
      ensures if cmd.command == PLACE_ORDER && Self().Owns(cmd.uid)
              then (Value(), cmd.resultCode)
                     == RiskSpec.PlaceOrderRiskCheck(old(Value()), specs, marginEnabled, symbol, old(cmd.Input()),
                                                     freeMargin)
              else Value() == old(Value()) && cmd.resultCode == old(cmd.resultCode)
      ensures cmd.command == PLACE_ORDER && Self().Owns(cmd.uid)
              && A.CanCheck(old(Value()), specs, symbol, old(cmd.Input())) ==>
                A.Held(old(Value()), Value(), cmd.resultCode, specs, marginEnabled, symbol, old(cmd.Input()),
                       freeMargin)
    {
      hide RiskSpec.PlaceOrderRiskCheck, UserProfile.Value, A.CanCheck, A.Held;
      if A.CanCheck(Value(), specs, symbol, cmd.Input()) {
        A.HoldChecked(Value(), specs, marginEnabled, symbol, cmd.Input(), freeMargin);
      }
      if cmd.command == PLACE_ORDER {
        if UidForThisHandler(cmd.uid) {
          var code := PlaceOrderRiskCheck(symbol, cmd, freeMargin);
          cmd.resultCode := code;
        }
      }
    }

    // ----- Settlement of exchange pairs -----

    method HandleMatcherRejectReduceEventExchange(cmd: OrderCommand, e: Event, spec: Symbol, takerSell: bool,
                                                  taker: UserProfile)
      requires Valid() && taker.uid in userProfiles && userProfiles[taker.uid] == taker
      modifies taker`accounts
      ensures Valid() && Records() == old(Records()) && taker.uid in old(Value()).profiles
      ensures var action := if takerSell then ASK else BID;
              Value() == Credit(old(Value()), taker.uid, if takerSell then spec.baseCurrency else spec.quoteCurrency,
                                Refund(spec, cmd.Input(), action, e))
    {
      if takerSell {
        AddTo(taker, spec.baseCurrency, AmountAsk(spec, e.size));
      } else if cmd.command == PLACE_ORDER && cmd.orderType == FOK_BUDGET {
        AddTo(taker, spec.quoteCurrency, AmountBidTakerFeeForBudget(spec, e.size, e.price));
      } else {
        AddTo(taker, spec.quoteCurrency, AmountBidTakerFee(spec, e.size, e.bidderHoldPrice));
      }
    }

    /** A buying maker of this shard: the release and what it bought. */
    method PayBuyer(e: Event, spec: Symbol)
      requires Valid() && e.Trade? && Self().Owns(e.makerUid)
      modifies this`userProfiles, userProfiles.Values
      ensures Valid() && Records() == old(Records()) && Grown() && fees == old(fees)
      ensures Value() == SellMaker(old(Value()), Self(), spec, e)
    {
      hide Value, UserProfile.Value, Records, Valid, UserProfile.Valid, Credit, Known;
      var maker := GetUserProfileOrAddSuspended(e.makerUid);
      var priceDiff := e.bidderHoldPrice - e.price;
      AddTo(maker, spec.quoteCurrency, AmountBidReleaseCorrMaker(spec, e.size, priceDiff));
      AddTo(maker, spec.baseCurrency, AmountAsk(spec, e.size));
    }

    /** A selling maker of this shard: the proceeds less the maker fee. */
    method PaySeller(e: Event, spec: Symbol)
      requires Valid() && e.Trade? && Self().Owns(e.makerUid)
      modifies this`userProfiles, userProfiles.Values
      ensures Valid() && Records() == old(Records()) && Grown() && fees == old(fees)
      ensures Value() == BuyMaker(old(Value()), Self(), spec, e)
    {
      hide Value, UserProfile.Value, Records, Valid, UserProfile.Valid, Credit, Known;
      var maker := GetUserProfileOrAddSuspended(e.makerUid);
      AddTo(maker, spec.quoteCurrency, AmountBid(spec, e.size, e.price) - spec.makerFee * e.size);
    }

    method TakeFees(spec: Symbol, takerSize: int, makerSize: int)
      requires Valid()
      modifies this`fees
      ensures Valid() && Records() == old(Records()) && Value() == FeesTaken(old(Value()), spec, takerSize, makerSize)
    {
      if takerSize != 0 || makerSize != 0 {
        TakeFee(spec.quoteCurrency, spec.takerFee * takerSize + spec.makerFee * makerSize);
      }
    }

    /** The user whose order was the taker, if it belongs to this shard. */
    predicate TakerIs(taker: UserProfile?, uid: int)
      reads this`userProfiles
    {
      if taker == null then !Self().Owns(uid)
      else Self().Owns(uid) && uid in userProfiles && userProfiles[uid] == taker && taker.uid == uid
    }

    lemma SellSettles(uid: int, trades: seq<Event>, spec: Symbol)
      requires Valid() && TradesOnlyIn(trades)
      ensures trades != [] ==> forall r: Request | r.uid == uid ::
                A.Settled(Value(), ExchangeSell(Value(), Self(), spec, uid, trades), Self(), spec, r, ASK, trades)
    {
      hide Valid, TradesOnlyIn, A.Settled, ExchangeSell, Value;
      if trades != [] {
        forall r: Request | r.uid == uid
          ensures A.Settled(Value(), ExchangeSell(Value(), Self(), spec, uid, trades), Self(), spec, r, ASK, trades)
        {
          A.TradesSettled(Value(), Self(), spec, r, ASK, trades);
        }
      }
    }

    method HandleMatcherEventsExchangeSell(uid: int, trades: seq<Event>, spec: Symbol, taker: UserProfile?)
      requires Valid() && TakerIs(taker, uid) && TradesOnlyIn(trades)
      modifies this`userProfiles, this`fees, userProfiles.Values
      ensures Valid() && Records() == old(Records()) && Grown()
      ensures Value() == ExchangeSell(old(Value()), Self(), spec, uid, trades)
      ensures trades != [] ==> forall r: Request | r.uid == uid ::
                A.Settled(old(Value()), Value(), Self(), spec, r, ASK, trades)
    {
      hide Value, UserProfile.Value, Records, Valid, UserProfile.Valid, Credit, SellMaker, FeesTaken, A.Settled;
      SellSettles(uid, trades, spec);
      var takerSize, makerSize, takerSizePrice := 0, 0, 0;
      var i := 0;
      assert trades[0..] == trades;
      while i < |trades|
        invariant 0 <= i <= |trades| && Valid() && Records() == old(Records()) && Grown() && TakerIs(taker, uid)
                  && fees == old(fees)
        invariant SellMakers(Value(), Self(), spec, trades[i..]) == SellMakers(old(Value()), Self(), spec, trades)
        invariant makerSize + OwnSize(Self(), trades[i..]) == OwnSize(Self(), trades)
        invariant taker != null ==>
                    takerSize + Traded(trades[i..]) == Traded(trades)
                        && takerSizePrice + Cost(trades[i..]) == Cost(trades)
        invariant taker == null ==> takerSize == 0
      {
        var e := trades[i];
        ghost var v := Value();
        assert trades[i..][0] == e && trades[i..][1..] == trades[i + 1..];
        assert SellMakers(v, Self(), spec, trades[i..])
               == SellMakers(SellMaker(v, Self(), spec, e), Self(), spec, trades[i + 1..]);
        if taker != null {
          takerSizePrice := takerSizePrice + e.size * e.price;
          takerSize := takerSize + e.size;
        }
        if UidForThisHandler(e.makerUid) {
          PayBuyer(e, spec);
          makerSize := makerSize + e.size;
        } else {
          NotMine(v, e, spec);
        }
        assert Value() == SellMaker(v, Self(), spec, e);
        i := i + 1;
      }
      assert trades[i..] == [];
      if taker != null {
        AddTo(taker, spec.quoteCurrency, takerSizePrice * spec.quoteScaleK - spec.takerFee * takerSize);
      }
      TakeFees(spec, takerSize, makerSize);
    }

    lemma NotMine(sh: Shard, e: Event, spec: Symbol)
      requires e.Trade? && !Self().Owns(e.makerUid)
      ensures SellMaker(sh, Self(), spec, e) == sh && BuyMaker(sh, Self(), spec, e) == sh
    {
    }

    method HandleMatcherEventsExchangeBuy(cmd: OrderCommand, trades: seq<Event>, spec: Symbol, taker: UserProfile?)
      requires Valid() && TakerIs(taker, cmd.uid) && TradesOnlyIn(trades)
      modifies this`userProfiles, this`fees, userProfiles.Values
      ensures Valid() && Records() == old(Records()) && Grown()
      ensures Value() == ExchangeBuy(old(Value()), Self(), spec, cmd.Input(), trades)
      ensures trades != [] ==> A.Settled(old(Value()), Value(), Self(), spec, cmd.Input(), BID, trades)
    {
      hide Value, UserProfile.Value, Records, Valid, UserProfile.Valid, Credit, BuyMaker, FeesTaken, A.Settled;
      if trades != [] { A.TradesSettled(Value(), Self(), spec, cmd.Input(), BID, trades); }
      var takerSize, makerSize, takerSizePriceSum, takerSizePriceHeldSum := 0, 0, 0, 0;
      var i := 0;
      assert trades[0..] == trades;
      while i < |trades|
        invariant 0 <= i <= |trades| && Valid() && Records() == old(Records()) && Grown() && TakerIs(taker, cmd.uid)
                  && fees == old(fees)
        invariant BuyMakers(Value(), Self(), spec, trades[i..]) == BuyMakers(old(Value()), Self(), spec, trades)
        invariant makerSize + OwnSize(Self(), trades[i..]) == OwnSize(Self(), trades)
        invariant taker != null ==>
                    takerSize + Traded(trades[i..]) == Traded(trades)
                        && takerSizePriceSum + Cost(trades[i..]) == Cost(trades)
                                    && takerSizePriceHeldSum + HeldCost(trades[i..]) == HeldCost(trades)
        invariant taker == null ==> takerSize == 0
      {
        var e := trades[i];
        ghost var v := Value();
        assert trades[i..][0] == e && trades[i..][1..] == trades[i + 1..];
        assert BuyMakers(v, Self(), spec, trades[i..])
               == BuyMakers(BuyMaker(v, Self(), spec, e), Self(), spec, trades[i + 1..]);
        if taker != null {
          takerSizePriceSum := takerSizePriceSum + e.size * e.price;
          takerSizePriceHeldSum := takerSizePriceHeldSum + e.size * e.bidderHoldPrice;
          takerSize := takerSize + e.size;
        }
        if UidForThisHandler(e.makerUid) {
          PaySeller(e, spec);
          makerSize := makerSize + e.size;
        } else {
          NotMine(v, e, spec);
        }
        assert Value() == BuyMaker(v, Self(), spec, e);
        i := i + 1;
      }
      assert trades[i..] == [];
      if taker != null {
        if cmd.command == PLACE_ORDER && cmd.orderType == FOK_BUDGET {
          takerSizePriceHeldSum := cmd.price;
        }
        AddTo(taker, spec.quoteCurrency, (takerSizePriceHeldSum - takerSizePriceSum) * spec.quoteScaleK);
        AddTo(taker, spec.baseCurrency, takerSize * spec.baseScaleK);
      }
      TakeFees(spec, takerSize, makerSize);
    }

    method SettleExchangePair(cmd: OrderCommand, spec: Symbol)
      requires Valid() && cmd.matcherEvent != [] && ChainOk(cmd.matcherEvent)
      modifies this`userProfiles, this`fees, userProfiles.Values
      ensures Valid() && Records() == old(Records()) && Grown()
      ensures Value() == SettleExchange(old(Value()), Self(), spec, cmd.Input(), cmd.action, cmd.matcherEvent)
    {
      hide Value, UserProfile.Value, Records, Valid, UserProfile.Valid, Credit, Known, ExchangeSell, ExchangeBuy,
           ChainOk, Refund;
      var takerSell := cmd.action == ASK;
      var taker: UserProfile? := null;
      if UidForThisHandler(cmd.uid) {
        taker := GetUserProfileOrAddSuspended(cmd.uid);
      }
      var mte := cmd.matcherEvent;
      RestTrades(mte);
      if !mte[0].Trade? {
        if taker != null {
          HandleMatcherRejectReduceEventExchange(cmd, mte[0], spec, takerSell, taker);
        }
        mte := mte[1..];
      }
      if mte != [] {
        if takerSell {
          HandleMatcherEventsExchangeSell(cmd.uid, mte, spec, taker);
        } else {
          HandleMatcherEventsExchangeBuy(cmd, mte, spec, taker);
        }
      }
    }

    // ----- Settlement of futures -----

    lemma RecordsShrink(p: UserProfile, before: map<int, SymbolPositionRecord>)
      requires forall y: int <- p.positions :: y in before && p.positions[y] == before[y]
      ensures forall q: SymbolPositionRecord <- p.positions.Values :: q in before.Values
    {
      forall q: SymbolPositionRecord <- p.positions.Values ensures q in before.Values {
        if forall y: int <- p.positions :: p.positions[y] != q { assert false; }
      }
    }

    method TradeFor(p: UserProfile, record: SymbolPositionRecord, c: int, action: OrderAction, e: Event, feePerLot: int)
      returns (fee: int)
      requires Valid() && p.uid in userProfiles && userProfiles[p.uid] == p
      requires record.symbol in p.positions && p.positions[record.symbol] == record
      modifies p`accounts, p`positions, record
      ensures Valid() && Records() <= old(Records())
              && forall y: int <- p.positions :: y in old(p.positions) && p.positions[y] == old(p.positions[y])
      ensures p.uid in old(Value()).profiles && record.symbol in old(Value()).profiles[p.uid].positions
      ensures var q := old(Value()).profiles[p.uid];
              var (after, lots) := q.positions[record.symbol].AfterTrade(action, e.size, e.price);
              && fee == feePerLot * lots
              && Value() == old(Value()).(profiles :=
                                          old(Value()).profiles[p.uid := WithPosition(q.(accounts :=
                                                                                         Plus(q.accounts, c, -fee)),
                                                                                             record.symbol, after)])
    {
      hide UserProfile.Value, WithPosition, Position.AfterTrade;
      OthersRecords(p);
      p.ValueIs();
      fee := p.MarginTrade(record, c, action, e.size, e.price, feePerLot);
      ProfileChanged(p);
      RecordsShrink(p, old(p.positions));
    }

    method TradeOn(p: UserProfile, record: SymbolPositionRecord, spec: Symbol, action: OrderAction, e: Event,
                   feePerLot: int)
      requires Valid() && p.uid in userProfiles && userProfiles[p.uid] == p && e.Trade?
      requires record.symbol in p.positions && p.positions[record.symbol] == record
      modifies p`accounts, p`positions, record, this`fees
      ensures Valid() && Records() <= old(Records())
              && forall y: int <- p.positions :: y in old(p.positions) && p.positions[y] == old(p.positions[y])
      ensures Some(Value()) == RiskSpec.MarginTrade(old(Value()), p.uid, record.symbol, spec, action, e, feePerLot)
    {
      hide Value, UserProfile.Value, Records, Valid, WithPosition, Position.AfterTrade;
      var fee := TradeFor(p, record, spec.quoteCurrency, action, e, feePerLot);
      TakeFee(spec.quoteCurrency, fee);
    }

    method ReleaseOn(p: UserProfile, record: SymbolPositionRecord, action: OrderAction, e: Event)
      requires Valid() && p.uid in userProfiles && userProfiles[p.uid] == p
      requires record.symbol in p.positions && p.positions[record.symbol] == record
      modifies p`accounts, p`positions, record
      ensures Valid() && Records() <= old(Records())
              && forall y: int <- p.positions :: y in old(p.positions) && p.positions[y] == old(p.positions[y])
      ensures Some(Value()) == RiskSpec.MarginRelease(old(Value()), p.uid, record.symbol, action, e)
    {
      hide UserProfile.Value, WithPosition, Position.Held;
      OthersRecords(p);
      p.ValueIs();
      p.MarginRelease(record, action, e.size);
      ProfileChanged(p);
      RecordsShrink(p, old(p.positions));
    }

    /** The taker's record, as found when the chain started; it leaves the profile only when it is emptied. */
    ghost predicate TakersRecord(taker: UserProfile?, record: SymbolPositionRecord?, symbol: int)
      reads taker
    {
      taker != null ==>
          record != null && record.symbol == symbol && (symbol in taker.positions ==> taker.positions[symbol] == record)
    }

    method HandleMatcherEventMargin(e: Event, symbol: int, spec: Symbol, takerAction: OrderAction, uid: int,
                                    takerUp: UserProfile?, takerSpr: SymbolPositionRecord?)
      requires Valid() && TakerIs(takerUp, uid) && TakersRecord(takerUp, takerSpr, symbol)
      requires MarginEvent(Value(), Self(), symbol, spec, uid, takerAction, e).Some?
      modifies this`userProfiles, this`fees, userProfiles.Values, Records()
      ensures Valid() && Records() <= old(Records()) && Grown() && TakerIs(takerUp, uid)
              && TakersRecord(takerUp, takerSpr, symbol)
      ensures Some(Value()) == MarginEvent(old(Value()), Self(), symbol, spec, uid, takerAction, e)
    {
      TakerEvent(e, symbol, spec, takerAction, uid, takerUp, takerSpr);
      MakerEvent(e, symbol, spec, takerAction, uid, takerUp, takerSpr);
    }

    method TakerEvent(e: Event, symbol: int, spec: Symbol, takerAction: OrderAction, uid: int, takerUp: UserProfile?,
                      takerSpr: SymbolPositionRecord?)
      requires Valid() && TakerIs(takerUp, uid) && TakersRecord(takerUp, takerSpr, symbol)
      requires MarginTaker(Value(), Self(), symbol, spec, uid, takerAction, e).Some?
      modifies this`fees, userProfiles.Values, Records()
      ensures Valid() && Records() <= old(Records()) && TakersRecord(takerUp, takerSpr, symbol)
      ensures Some(Value()) == MarginTaker(old(Value()), Self(), symbol, spec, uid, takerAction, e)
    {
      hide UserProfile.Value, RiskSpec.MarginTrade, RiskSpec.MarginRelease;
      if takerUp != null && takerSpr != null {
        OthersRecords(takerUp);
        RecordExists(takerUp, symbol, spec, takerAction, e);
        if e.Trade? {
          TradeOn(takerUp, takerSpr, spec, takerAction, e, spec.takerFee);
        } else {
          ReleaseOn(takerUp, takerSpr, takerAction, e);
        }
      }
    }

    lemma RecordExists(p: UserProfile, symbol: int, spec: Symbol, action: OrderAction, e: Event)
      requires Valid() && p.uid in userProfiles && userProfiles[p.uid] == p
      ensures p.uid in Value().profiles
      ensures symbol in Value().profiles[p.uid].positions ==> symbol in p.positions
      ensures forall fee: int ::
                e.Trade? && RiskSpec.MarginTrade(Value(), p.uid, symbol, spec, action, e, fee).Some? ==>
                    symbol in p.positions
      ensures RiskSpec.MarginRelease(Value(), p.uid, symbol, action, e).Some? ==> symbol in p.positions
    {
    }

    method MakerEvent(e: Event, symbol: int, spec: Symbol, takerAction: OrderAction, uid: int, takerUp: UserProfile?,
                      takerSpr: SymbolPositionRecord?)
      requires Valid() && TakerIs(takerUp, uid) && TakersRecord(takerUp, takerSpr, symbol)
      requires MarginMaker(Value(), Self(), symbol, spec, takerAction, e).Some?
      modifies this`userProfiles, this`fees, userProfiles.Values, Records()
      ensures Valid() && Records() <= old(Records()) && Grown() && TakerIs(takerUp, uid)
              && TakersRecord(takerUp, takerSpr, symbol)
      ensures Some(Value()) == MarginMaker(old(Value()), Self(), symbol, spec, takerAction, e)
    {
      hide UserProfile.Value, RiskSpec.MarginTrade, Known;
      if e.Trade? && UidForThisHandler(e.makerUid) {
        var maker := GetUserProfileOrAddSuspended(e.makerUid);
        OthersRecords(maker);
        RecordExists(maker, symbol, spec, Opposite(takerAction), e);
        TradeOn(maker, maker.positions[symbol], spec, Opposite(takerAction), e, spec.makerFee);
      }
    }

    method SettleFutures(symbol: int, cmd: OrderCommand, spec: Symbol)
      requires Valid() && cmd.matcherEvent != []
      requires SettleMargin(if Self().Owns(cmd.uid) then Known(Value(), cmd.uid) else Value(), Self(), symbol, spec,
                            cmd.uid, cmd.action, cmd.matcherEvent).Some?
      modifies this`userProfiles, this`fees, userProfiles.Values, Records()
      ensures Valid() && Records() <= old(Records()) && Grown()
      ensures Some(Value())
              == SettleMargin(if Self().Owns(cmd.uid) then Known(old(Value()), cmd.uid) else old(Value()), Self(),
                              symbol, spec, cmd.uid, cmd.action, cmd.matcherEvent)
    {
      hide Value, UserProfile.Value, Records, Valid, UserProfile.Valid, MarginEvent, Known;
      var takerUp: UserProfile? := null;
      var takerSpr: SymbolPositionRecord? := null;
      var mte := cmd.matcherEvent;
      ghost var target :=
          SettleMargin(if Self().Owns(cmd.uid) then Known(Value(), cmd.uid) else Value(), Self(), symbol, spec, cmd.uid,
                       cmd.action, mte);
      if UidForThisHandler(cmd.uid) {
        takerUp := GetUserProfileOrAddSuspended(cmd.uid);
        TakerFound(takerUp, symbol, spec, cmd.action, mte[0]);
        takerSpr := takerUp.positions[symbol];
      }
      assert TakersRecord(takerUp, takerSpr, symbol) by { TakerPosition(takerUp, takerSpr, symbol, cmd.uid); }
      while mte != []
        invariant Valid() && Records() <= old(Records()) && Grown() && TakerIs(takerUp, cmd.uid)
                  && TakersRecord(takerUp, takerSpr, symbol)
        invariant SettleMargin(Value(), Self(), symbol, spec, cmd.uid, cmd.action, mte) == target
        decreases |mte|
      {
        HandleMatcherEventMargin(mte[0], symbol, spec, cmd.action, cmd.uid, takerUp, takerSpr);
        mte := mte[1..];
      }
    }

    lemma TakerFound(taker: UserProfile, symbol: int, spec: Symbol, action: OrderAction, e: Event)
      requires Valid() && TakerIs(taker, taker.uid)
               && MarginEvent(Value(), Self(), symbol, spec, taker.uid, action, e).Some?
      ensures symbol in taker.positions
    {
      RecordExists(taker, symbol, spec, action, e);
    }

    lemma TakerPosition(taker: UserProfile?, record: SymbolPositionRecord?, symbol: int, uid: int)
      requires Valid() && TakerIs(taker, uid)
      requires taker != null ==> symbol in taker.positions && record == taker.positions[symbol]
      ensures TakersRecord(taker, record, symbol)
    {
      if taker != null { assert userProfiles[uid].Valid(); }
    }

    /** The settlement after matching: the shard's part of the chain, and nothing else, reaches its accounts, positions
        and fees. Market data, if there are any and margin trading is on, renew the last prices of the symbol. */
    method PostProcessCommand(symbol: int, cmd: OrderCommand)
      requires Valid() && ChainOk(cmd.matcherEvent)
               && (cmd.matcherEvent != [] || cmd.marketData.Some? ==> symbol in specs)
      requires cmd.matcherEvent != [] ==>
                 Settle(Value(), Self(), symbol, specs[symbol], cmd.Input(), cmd.action, cmd.matcherEvent).Some?
      modifies this`userProfiles, this`fees, this`lastPriceCache, userProfiles.Values, Records()
      ensures Valid() && Records() <= old(Records()) && Grown()
      ensures if cmd.matcherEvent == [] then Value() == old(Value())
              else Some(Value())
                     == Settle(old(Value()), Self(), symbol, specs[symbol], cmd.Input(), cmd.action, cmd.matcherEvent)
      ensures cmd.matcherEvent != [] && specs[symbol].kind == CURRENCY_EXCHANGE_PAIR ==>
                A.Settled(old(Value()), Value(), Self(), specs[symbol], cmd.Input(), cmd.action, cmd.matcherEvent)
      ensures cmd.matcherEvent != [] && specs[symbol].kind == FUTURES_CONTRACT ==>
                A.ChainBooked(A.WithUser(old(Value()), Self(), cmd.uid), Value(), Self(), symbol, specs[symbol],
                              cmd.uid,
                              cmd.action, cmd.matcherEvent)
      ensures lastPriceCache == if cmd.marketData.Some? && marginEnabled
              then old(lastPriceCache)[symbol := BestOf(cmd.marketData.value)]
                                else old(lastPriceCache)
    {
      hide A.Settled, A.ChainBooked, ChainOk, Settle, Value, Records, Valid, Grown;
      ghost var before := Value();
      if cmd.matcherEvent != [] {
        var spec := specs[symbol];
        if spec.kind == CURRENCY_EXCHANGE_PAIR {
          A.ExchangeSettled(before, Self(), symbol, spec, cmd.Input(), cmd.action, cmd.matcherEvent);
        }
        if spec.kind == FUTURES_CONTRACT {
          A.FuturesSettled(before, Self(), symbol, spec, cmd.Input(), cmd.action, cmd.matcherEvent);
        }
      }
      SettleChain(symbol, cmd);
      if cmd.marketData.Some? && marginEnabled {
        var data := cmd.marketData.value;
        lastPriceCache := lastPriceCache[symbol := LastPrice(if data.asks != [] then data.asks[0].0 else MAX_KEY,
                                                             if data.bids != [] then data.bids[0].0 else 0)];
      }
    }

    static function BestOf(data: MarketData): LastPrice {
      LastPrice(if data.asks == [] then MAX_KEY else data.asks[0].0, if data.bids == [] then 0 else data.bids[0].0)
    }

    method SettleChain(symbol: int, cmd: OrderCommand)
      requires Valid() && ChainOk(cmd.matcherEvent) && (cmd.matcherEvent != [] ==> symbol in specs)
      requires cmd.matcherEvent != [] ==>
                 Settle(Value(), Self(), symbol, specs[symbol], cmd.Input(), cmd.action, cmd.matcherEvent).Some?
      modifies this`userProfiles, this`fees, userProfiles.Values, Records()
      ensures Valid() && Records() <= old(Records()) && Grown()
      ensures if cmd.matcherEvent == [] then Value() == old(Value())
              else Some(Value())
                     == Settle(old(Value()), Self(), symbol, specs[symbol], cmd.Input(), cmd.action, cmd.matcherEvent)
    {
      hide Value, UserProfile.Value, Records, Valid, UserProfile.Valid, SettleMargin, SettleExchange, Known, ChainOk;
      if cmd.matcherEvent == [] { return; }
      var spec := specs[symbol];
      match spec.kind {
        case CURRENCY_EXCHANGE_PAIR => SettleExchangePair(cmd, spec);
        case FUTURES_CONTRACT => SettleFutures(symbol, cmd, spec);
        case OPTION =>
      }
    }

    // ----- Users and balances -----

    method BalanceAdjustment(uid: int, currency: int, amount: int, txid: int) returns (code: ResultCode)
      requires Valid()
      modifies userProfiles.Values
      ensures Valid() && Records() == old(Records())
      ensures (Value(), code) == RiskSpec.BalanceAdjustment(old(Value()), uid, currency, amount, txid)
    {
      var p := GetUserProfile(uid);
      if p == null { return USER_MGMT_USER_NOT_FOUND; }
      if p.adjustmentsCounter == txid { return USER_MGMT_ACCOUNT_BALANCE_ADJUSTMENT_ALREADY_APPLIED_SAME; }
      if p.adjustmentsCounter > txid { return USER_MGMT_ACCOUNT_BALANCE_ADJUSTMENT_ALREADY_APPLIED_MANY; }
      var currentBalance := if currency in p.accounts then p.accounts[currency] else 0;
      if amount < 0 && currentBalance + amount < 0 { return USER_MGMT_ACCOUNT_BALANCE_ADJUSTMENT_NSF; }
      SetBalance(p, currency, amount, txid);
      return SUCCESS;
    }

    method SetBalance(p: UserProfile, currency: int, amount: int, txid: int)
      requires Valid() && p.uid in userProfiles && userProfiles[p.uid] == p
      modifies p`adjustmentsCounter, p`accounts
      ensures Valid() && Records() == old(Records()) && p.uid in old(Value()).profiles
      ensures var q := old(Value()).profiles[p.uid];
              Value() == old(Value()).(profiles :=
                                       old(Value()).profiles[p.uid := q.(adjustmentsCounter := txid,
                                                                         accounts := Plus(q.accounts, currency,
                                                                                          amount))])
    {
      ghost var q := p.Value();
      p.adjustmentsCounter := txid;
      assert p.Value() == q.(adjustmentsCounter := txid) by { assert p.Value().positions == q.positions; }
      p.AddToAccount(currency, amount);
      ProfileChanged(p);
    }

    method AdjustBalance(uid: int, currency: int, amount: int, txid: int, kind: AdjustmentType)
      returns (code: ResultCode)
      requires Valid()
      modifies this`adjustments, this`suspends, userProfiles.Values
      ensures Valid() && Records() == old(Records())
      ensures (Value(), code) == RiskSpec.AdjustBalance(old(Value()), uid, currency, amount, txid, kind)
    {
      hide RiskSpec.BalanceAdjustment, UserProfile.Value, Records;
      code := BalanceAdjustment(uid, currency, amount, txid);
      ghost var v := Value();
      if code == SUCCESS {
        if kind == ADJUSTMENT {
          adjustments := adjustments[currency := (if currency in adjustments then adjustments[currency] else 0)
                                     - amount];
        } else {
          suspends := suspends[currency := (if currency in suspends then suspends[currency] else 0) - amount];
        }
        assert Value().profiles == v.profiles;
      }
    }

    method AddUser(uid: int) returns (code: ResultCode)
      requires Valid()
      modifies this`userProfiles
      ensures Valid() && Records() == old(Records()) && Grown()
              && (Value(), code) == RiskSpec.AddUser(old(Value()), uid)
    {
      var p := GetUserProfile(uid);
      if p != null { return USER_MGMT_USER_ALREADY_EXISTS; }
      p := NewProfile(uid, ACTIVE);
      ValuesUpdated(old(userProfiles), uid, p);
      return SUCCESS;
    }

    // ----- Symbols and accounts in batches, and reset -----

    /** SymbolSpecificationProvider::AddSymbol for each symbol of a batch that may be traded here. */
    method AddSymbols(symbols: seq<(int, Symbol)>)
      modifies this`specs
      ensures specs == AddedTo(old(specs), symbols, marginEnabled)
    {
      hide AddedTo;
      assert symbols[0..] == symbols;
      for i := 0 to |symbols|
        invariant AddedTo(specs, symbols[i..], marginEnabled) == AddedTo(old(specs), symbols, marginEnabled)
      {
        var (id, spec) := symbols[i];
        AddedNext(specs, symbols[i..], marginEnabled);
        assert symbols[i..][1..] == symbols[i + 1..];
        if spec.kind == CURRENCY_EXCHANGE_PAIR || marginEnabled {
          if id !in specs { specs := specs[id := spec]; }
        }
      }
      AddedNext(specs, symbols[|symbols|..], marginEnabled);
    }

    method FundUser(uid: int, balances: seq<(int, int)>)
      requires Valid()
      modifies this`adjustments, this`suspends, userProfiles.Values
      ensures Valid() && Records() == old(Records()) && Value() == Fund(old(Value()), uid, balances)
    {
      hide RiskSpec.AdjustBalance, Fund, Value, Records, Valid;
      assert balances[0..] == balances;
      for i := 0 to |balances|
        invariant Valid() && Records() == old(Records())
        invariant Fund(Value(), uid, balances[i..]) == Fund(old(Value()), uid, balances)
      {
        assert balances[i..][1..] == balances[i + 1..];
        FundNext(Value(), uid, balances[i..]);
        var (currency, balance) := balances[i];
        var code := AdjustBalance(uid, currency, balance, 1_000_000_000 + currency, ADJUSTMENT);
      }
      FundNext(Value(), uid, balances[|balances|..]);
    }

    lemma FundNext(sh: Shard, uid: int, balances: seq<(int, int)>)
      ensures balances == [] ==> Fund(sh, uid, balances) == sh
      ensures balances != [] ==>
                var (c, amount) := balances[0];
                Fund(sh, uid, balances)
                    == Fund(RiskSpec.AdjustBalance(sh, uid, c, amount, 1_000_000_000 + c, ADJUSTMENT).0, uid,
                            balances[1..])
    {
      hide RiskSpec.AdjustBalance;
    }

    lemma AccountsNext(sh: Shard, accounts: seq<Account>)
      ensures accounts == [] ==> RiskSpec.AddAccounts(sh, accounts) == sh
      ensures accounts != [] ==>
                var (added, code) := RiskSpec.AddUser(sh, accounts[0].uid);
                RiskSpec.AddAccounts(sh, accounts)
                == RiskSpec.AddAccounts(if code == SUCCESS then Fund(added, accounts[0].uid, accounts[0].balances)
                                        else added, accounts[1..])
    {
      hide RiskSpec.AddUser, Fund;
    }

    lemma AddedNext(known: map<int, Symbol>, symbols: seq<(int, Symbol)>, marginEnabled: bool)
      ensures symbols == [] ==> AddedTo(known, symbols, marginEnabled) == known
      ensures symbols != [] ==>
                var (id, s) := symbols[0];
                AddedTo(known, symbols, marginEnabled)
                == AddedTo(if id in known || !(s.kind == CURRENCY_EXCHANGE_PAIR || marginEnabled) then known
                           else known[id := s], symbols[1..],
                           marginEnabled)
    {
    }

    /** Every user of the batch that is new here gets a profile and its balances, whichever shard it belongs to. */
    method AddAccounts(accounts: seq<Account>)
      requires Valid()
      modifies this`userProfiles, this`adjustments, this`suspends, userProfiles.Values
      ensures Valid() && Records() == old(Records()) && Value() == RiskSpec.AddAccounts(old(Value()), accounts)
    {
      hide RiskSpec.AddAccounts, RiskSpec.AddUser, Fund, Value, Records, Valid;
      assert accounts[0..] == accounts;
      for i := 0 to |accounts|
        invariant Valid() && Records() == old(Records()) && Grown()
        invariant RiskSpec.AddAccounts(Value(), accounts[i..]) == RiskSpec.AddAccounts(old(Value()), accounts)
      {
        assert accounts[i..][1..] == accounts[i + 1..];
        AccountsNext(Value(), accounts[i..]);
        var code := AddUser(accounts[i].uid);
        if code == SUCCESS { FundUser(accounts[i].uid, accounts[i].balances); }
      }
      AccountsNext(Value(), accounts[|accounts|..]);
    }

    /** Everything is dropped. */
    method Reset()
      modifies this`specs, this`userProfiles, this`fees, this`adjustments, this`suspends, this`lastPriceCache
      ensures Valid() && specs == map[] && Value() == NoUsers() && Records() == {} && lastPriceCache == map[]
    {
      specs, userProfiles, fees, adjustments, suspends, lastPriceCache := map[], map[], map[], map[], map[], map[];
    }

    lemma SomeOf(s: set<int>)
      requires s != {}
      ensures exists y: int :: y in s
    {
      if forall y: int :: y !in s { assert false; }
    }

    /** Whether some position record is not empty. */
    method HasOpenPosition(p: UserProfile) returns (open: bool)
      ensures open <==> HasPositions(p.Value())
    {
      var left := p.positions.Keys;
      while left != {}
        invariant left <= p.positions.Keys
                  && forall y: int <- p.positions :: y in left || p.positions[y].Value().IsEmpty()
      {
        SomeOf(left);
        var y: int :| y in left;
        var empty := p.positions[y].IsEmpty();
        if !empty {
          p.ValueIs();
          assert y in p.Value().positions && !p.Value().positions[y].IsEmpty();
          return true;
        }
        left := left - {y};
      }
      p.ValueIs();
      return false;
    }

    /** Whether some account is not zero. */
    method HasNonZeroAccount(p: UserProfile) returns (nonZero: bool)
      ensures nonZero <==> HasFunds(p.Value())
    {
      var left := p.accounts.Keys;
      while left != {}
        invariant left <= p.accounts.Keys && forall c: int <- p.accounts :: c in left || p.accounts[c] == 0
      {
        SomeOf(left);
        var c: int :| c in left;
        if p.accounts[c] != 0 {
          assert c in p.Value().accounts && p.Value().accounts[c] != 0;
          return true;
        }
        left := left - {c};
      }
      return false;
    }

    lemma ProfileIs(uid: int)
      requires Valid()
      ensures uid in Value().profiles <==> uid in userProfiles
      ensures uid in userProfiles ==>
                Value().profiles[uid] == userProfiles[uid].Value()
                    && userProfiles[uid].Value().status == userProfiles[uid].userStatus
    {
    }

    method SuspendUser(uid: int) returns (code: ResultCode)
      requires Valid()
      modifies this`userProfiles
      ensures Valid() && Records() <= old(Records()) && (Value(), code) == RiskSpec.SuspendUser(old(Value()), uid)
    {
      hide Value, UserProfile.Value, HasPositions, HasFunds;
      ProfileIs(uid);
      var p := GetUserProfile(uid);
      if p == null { return USER_MGMT_USER_NOT_FOUND; }
      if p.userStatus == SUSPENDED { return USER_MGMT_USER_ALREADY_SUSPENDED; }
      var open := HasOpenPosition(p);
      if open { return USER_MGMT_USER_NOT_SUSPENDABLE_HAS_POSITIONS; }
      var nonZero := HasNonZeroAccount(p);
      if nonZero { return USER_MGMT_USER_NOT_SUSPENDABLE_NON_EMPTY_ACCOUNTS; }
      Erase(uid);
      return SUCCESS;
    }

    method Erase(uid: int)
      requires Valid() && uid in userProfiles
      modifies this`userProfiles
      ensures Valid() && Records() <= old(Records())
              && Value() == old(Value()).(profiles := old(Value()).profiles - {uid})
    {
      userProfiles := userProfiles - {uid};
      forall p: UserProfile <- userProfiles.Values ensures p in old(userProfiles).Values {
        if forall u: int <- userProfiles :: userProfiles[u] != p { assert false; }
      }
      assert Value().profiles == old(Value()).profiles - {uid};
    }

    method ResumeUser(uid: int) returns (code: ResultCode)
      requires Valid()
      modifies this`userProfiles, userProfiles.Values
      ensures Valid() && Records() == old(Records()) && (Value(), code) == RiskSpec.ResumeUser(old(Value()), uid)
    {
      var p := GetUserProfile(uid);
      if p == null {
        p := NewProfile(uid, ACTIVE);
        return SUCCESS;
      }
      if p.userStatus != SUSPENDED { return USER_MGMT_USER_NOT_SUSPENDED; }
      Activate(p);
      return SUCCESS;
    }

    method Activate(p: UserProfile)
      requires Valid() && p.uid in userProfiles && userProfiles[p.uid] == p
      modifies p`userStatus
      ensures Valid() && Records() == old(Records()) && p.uid in old(Value()).profiles
      ensures Value() == old(Value()).(profiles :=
                                       old(Value()).profiles[p.uid := old(Value()).profiles[p.uid].(status := ACTIVE)])
    {
      ghost var q := p.Value();
      p.userStatus := ACTIVE;
      assert p.Value() == q.(status := ACTIVE) by { assert p.Value().positions == q.positions; }
      ProfileChanged(p);
    }

    /** Profiles are only added, never exchanged. */
    twostate predicate Grown()
      reads this`userProfiles
    {
      && (forall u: int <- old(userProfiles) :: u in userProfiles && userProfiles[u] == old(userProfiles)[u])
      && (forall p: UserProfile <- userProfiles.Values :: p in old(userProfiles).Values || fresh(p))
    }
  }
}
