/** Settlement of futures trades: it finds every position record, moves exactly its share of worth, and releases exactly
    the pending sizes the events take out. */
module MarginWorth {
  import opened Wrappers
  import opened OrderTypes
  import opened BookSpec
  import opened BookWeights
  import opened Positions
  import opened RiskSpec
  import opened Worth

  /** A user's pending size on a symbol; none without a record. */
  function PendingIn(sh: Shard, uid: int, symbol: int, action: OrderAction): int {
    if uid in sh.profiles && symbol in sh.profiles[uid].positions
    then sh.profiles[uid].positions[symbol].Pending(action) else 0
  }

  /** Counts the remaining sizes of one user on one side. */
  function PendingWeight(uid: int, action: OrderAction): Weight {
    Weight((u: int, reserve: int) => if u == uid && action == BID then 1 else 0,
           (u: int) => if u == uid && action == ASK then 1 else 0)
  }

  /** sh' has the pending sizes of sh, less `size` on one side of one record. */
  ghost predicate Released(sh: Shard, sh': Shard, uid: int, symbol: int, action: OrderAction, size: int) {
    forall u: int, y: int, a: OrderAction ::
      PendingIn(sh', u, y, a) == PendingIn(sh, u, y, a) - (if u == uid && y == symbol && a == action then size else 0)
  }

  lemma WithPositionPending(sh: Shard, uid: int, symbol: int, q: Position, p: Profile)
    requires uid in sh.profiles && p.positions == sh.profiles[uid].positions
    ensures var sh' := sh.(profiles := sh.profiles[uid := WithPosition(p, symbol, q)]);
            forall u: int, y: int, a: OrderAction :: PendingIn(sh', u, y, a) == if u == uid && y == symbol
                then q.Pending(a) else PendingIn(sh, u, y, a)
  {
  }

  lemma PendingOfFees(sh: Shard, fees: map<int, int>)
    ensures forall u: int, y: int, a: OrderAction :: PendingIn(sh.(fees := fees), u, y, a) == PendingIn(sh, u, y, a)
  {
  }

  lemma RecordAt(sh: Shard, specs: map<int, Symbol>, uid: int, symbol: int)
    requires uid in sh.profiles && symbol in sh.profiles[uid].positions
    ensures forall a: OrderAction :: PendingIn(sh, uid, symbol, a) == sh.profiles[uid].positions[symbol].Pending(a)
  {
  }

  lemma MarginTradeMoves(sh: Shard, specs: map<int, Symbol>, uid: int, symbol: int, action: OrderAction, e: Event,
                         fee: int, c: int, marks: Marks)
    requires ShardOk(sh, specs) && uid in sh.profiles && symbol in sh.profiles[uid].positions && symbol in specs
             && e.Trade? && 0 < e.size
    ensures var r := MarginTrade(sh, uid, symbol, specs[symbol], action, e, fee);
            && r.Some? && ShardOk(r.value, specs)
            && ShardWorth(r.value, c, marks)
               == ShardWorth(sh, c, marks)
                   + At(c, specs[symbol].quoteCurrency,
                        Multiplier(DirectionOf(action)) * (e.size * (marks(symbol) - e.price)))
            && Released(sh, r.value, uid, symbol, action, e.size)
  {
    hide ShardWorth, ProfileWorth, ShardOk, RecordsOk, PositionOk, PendingIn, Position.AfterTrade, Equity, WithPosition,
         Position.IsEmpty;
    var s := specs[symbol];
    var p := sh.profiles[uid];
    var q := p.positions[symbol];
    RecordIs(sh, specs, uid, symbol);
    TradeKeeps(q, action, e.size, e.price);
    EquityLaw(q, action, e.size, e.price, marks(symbol));
    var q' := q.AfterTrade(action, e.size, e.price).0;
    var lots := q.AfterTrade(action, e.size, e.price).1;
    var charged := p.(accounts := Plus(p.accounts, s.quoteCurrency, -(fee * lots)));
    AccountsWorth(p, s.quoteCurrency, -(fee * lots), c, marks);
    WithPositionWorth(charged, symbol, q', c, marks);
    ProfileSet(sh, uid, WithPosition(charged, symbol, q'), c, marks);
    var sh' := sh.(profiles := sh.profiles[uid := WithPosition(charged, symbol, q')]);
    FeesWorth(sh', s.quoteCurrency, fee * lots, c, marks);
    AtSum(c, s.quoteCurrency, fee * lots, -(fee * lots));
    AtSum(c, s.quoteCurrency, Equity(q, marks(symbol)),
          Multiplier(DirectionOf(action)) * (e.size * (marks(symbol) - e.price)));
    assert RecordsOk(charged, specs) by { AccountsOk(p, charged, sh, specs, uid); }
    WithPositionOk(charged, specs, symbol, q');
    ProfileSetOk(sh, specs, uid, WithPosition(charged, symbol, q'));
    FeesOk(sh', specs, Plus(sh'.fees, s.quoteCurrency, fee * lots));
    WithPositionPending(sh, uid, symbol, q', charged);
    PendingOfFees(sh', Plus(sh'.fees, s.quoteCurrency, fee * lots));
    RecordAt(sh, specs, uid, symbol);
    BothSides(action);
  }

  lemma BothSides(action: OrderAction)
    ensures Opposite(action) != action && Opposite(Opposite(action)) == action && (action == ASK || action == BID)
  {
  }

  lemma AccountsOk(p: Profile, p': Profile, sh: Shard, specs: map<int, Symbol>, uid: int)
    requires ShardOk(sh, specs) && uid in sh.profiles && sh.profiles[uid] == p && p'.positions == p.positions
    ensures RecordsOk(p', specs)
  {
  }

  lemma FeesOk(sh: Shard, specs: map<int, Symbol>, fees: map<int, int>)
    requires ShardOk(sh, specs)
    ensures ShardOk(sh.(fees := fees), specs)
  {
  }

  lemma MarginReleaseMoves(sh: Shard, specs: map<int, Symbol>, uid: int, symbol: int, action: OrderAction, e: Event,
                           c: int, marks: Marks)
    requires ShardOk(sh, specs) && uid in sh.profiles && symbol in sh.profiles[uid].positions
    ensures var r := MarginRelease(sh, uid, symbol, action, e);
            && r.Some? && ShardOk(r.value, specs)
            && ShardWorth(r.value, c, marks) == ShardWorth(sh, c, marks)
            && Released(sh, r.value, uid, symbol, action, e.size)
  {
    hide ShardWorth, ProfileWorth, ShardOk, RecordsOk, PositionOk, PendingIn, Equity, WithPosition, Position.IsEmpty;
    var p := sh.profiles[uid];
    var q := p.positions[symbol];
    RecordIs(sh, specs, uid, symbol);
    HeldKeeps(q, action, -e.size, marks(symbol));
    var q' := q.Held(action, -e.size);
    WithPositionWorth(p, symbol, q', c, marks);
    ProfileSet(sh, uid, WithPosition(p, symbol, q'), c, marks);
    assert RecordsOk(p, specs) by { AccountsOk(p, p, sh, specs, uid); }
    WithPositionOk(p, specs, symbol, q');
    ProfileSetOk(sh, specs, uid, WithPosition(p, symbol, q'));
    WithPositionPending(sh, uid, symbol, q', p);
    RecordAt(sh, specs, uid, symbol);
  }

  lemma KnownKeeps(sh: Shard, specs: map<int, Symbol>, uid: int)
    requires ShardOk(sh, specs)
    ensures ShardOk(Known(sh, uid), specs)
    ensures forall u: int, y: int, a: OrderAction :: PendingIn(Known(sh, uid), u, y, a) == PendingIn(sh, u, y, a)
    ensures uid in Known(sh, uid).profiles && forall u: int <- sh.profiles :: u in Known(sh, uid).profiles
  {
  }

  lemma PendingMeansRecord(sh: Shard, uid: int, symbol: int, action: OrderAction)
    requires 0 < PendingIn(sh, uid, symbol, action)
    ensures uid in sh.profiles && symbol in sh.profiles[uid].positions
  {
  }

  // ----- One event -----

  /** How much an event releases of a user's pending size in a shard. */
  function ReleasedBy(h: Handler, symbol: int, uid: int, action: OrderAction, e: Event, u: int, y: int,
                      a: OrderAction): int {
    if h.Owns(u) && y == symbol then TakenOut(e, action, uid, PendingWeight(u, a)) else 0
  }

  lemma ReleasedByIs(h: Handler, symbol: int, uid: int, action: OrderAction, e: Event, u: int, y: int, a: OrderAction)
    ensures ReleasedBy(h, symbol, uid, action, e, u, y, a)
            == (if h.Owns(u) && y == symbol && u == uid && a == action then e.size else 0)
               + (if e.Trade? && h.Owns(u) && y == symbol && u == e.makerUid && a == Opposite(action) then e.size
                  else 0)
  {
    var w := PendingWeight(u, a);
    assert w.Of(action, uid, e.bidderHoldPrice) == if u == uid && a == action then 1 else 0;
    if e.Trade? {
      assert w.Of(Opposite(action), e.makerUid, e.bidderHoldPrice) == if u == e.makerUid && a == Opposite(action) then 1
             else 0;
    }
  }

  ghost predicate EventReleases(sh: Shard, sh': Shard, h: Handler, symbol: int, uid: int, action: OrderAction,
                                e: Event) {
    forall u: int, y: int, a: OrderAction ::
        PendingIn(sh', u, y, a) == PendingIn(sh, u, y, a) - ReleasedBy(h, symbol, uid, action, e, u, y, a)
  }

  lemma MarginTakerMoves(sh: Shard, h: Handler, specs: map<int, Symbol>, symbol: int, uid: int, action: OrderAction,
                         e: Event, c: int, marks: Marks)
    requires ShardOk(sh, specs) && symbol in specs && 0 < e.size
    requires h.Owns(uid) ==> e.size <= PendingIn(sh, uid, symbol, action)
    ensures var r := MarginTaker(sh, h, symbol, specs[symbol], uid, action, e);
            && r.Some? && ShardOk(r.value, specs)
            && ShardWorth(r.value, c, marks) == ShardWorth(sh, c, marks)
               + (if h.Owns(uid) && e.Trade?
                  then At(c, specs[symbol].quoteCurrency,
                          Multiplier(DirectionOf(action)) * (e.size * (marks(symbol) - e.price))) else 0)
            && Released(sh, r.value, uid, symbol, action, if h.Owns(uid) then e.size else 0)
  {
    hide ShardWorth, ShardOk, PendingIn, MarginTrade, MarginRelease;
    if h.Owns(uid) {
      PendingMeansRecord(sh, uid, symbol, action);
      if e.Trade? {
        MarginTradeMoves(sh, specs, uid, symbol, action, e, specs[symbol].takerFee, c, marks);
      } else {
        MarginReleaseMoves(sh, specs, uid, symbol, action, e, c, marks);
      }
    }
  }

  lemma MarginMakerMoves(sh: Shard, h: Handler, specs: map<int, Symbol>, symbol: int, action: OrderAction, e: Event,
                         c: int, marks: Marks)
    requires ShardOk(sh, specs) && symbol in specs && 0 < e.size && e.Trade?
    requires h.Owns(e.makerUid) ==> e.size <= PendingIn(sh, e.makerUid, symbol, Opposite(action))
    ensures var r := MarginMaker(sh, h, symbol, specs[symbol], action, e);
            && r.Some? && ShardOk(r.value, specs)
            && ShardWorth(r.value, c, marks) == ShardWorth(sh, c, marks)
               + (if h.Owns(e.makerUid)
                  then At(c, specs[symbol].quoteCurrency,
                          Multiplier(DirectionOf(Opposite(action))) * (e.size * (marks(symbol) - e.price))) else 0)
            && Released(sh, r.value, e.makerUid, symbol, Opposite(action), if h.Owns(e.makerUid) then e.size else 0)
  {
    hide ShardWorth, ShardOk, PendingIn, MarginTrade;
    if h.Owns(e.makerUid) {
      KnownWorth(sh, e.makerUid, c, marks);
      KnownKeeps(sh, specs, e.makerUid);
      PendingMeansRecord(sh, e.makerUid, symbol, Opposite(action));
      var k := Known(sh, e.makerUid);
      PendingMeansRecord(k, e.makerUid, symbol, Opposite(action));
      MarginTradeMoves(k, specs, e.makerUid, symbol, Opposite(action), e, specs[symbol].makerFee, c, marks);
    }
  }

  lemma MarginEventMoves(sh: Shard, h: Handler, specs: map<int, Symbol>, symbol: int, r: Request, action: OrderAction,
                         e: Event, c: int, marks: Marks)
    requires ShardOk(sh, specs) && symbol in specs && specs[symbol].kind == FUTURES_CONTRACT && 0 < e.size
    requires forall u: int, a: OrderAction ::
               ReleasedBy(h, symbol, r.uid, action, e, u, symbol, a) <= PendingIn(sh, u, symbol, a) || !h.Owns(u)
    ensures var x := MarginEvent(sh, h, symbol, specs[symbol], r.uid, action, e);
            && x.Some? && ShardOk(x.value, specs)
            && ShardWorth(x.value, c, marks)
               == ShardWorth(sh, c, marks)
                   + OwnShare(h, r.uid, e, Shares(specs[symbol], r, action, e, c, marks(symbol)))
            && EventReleases(sh, x.value, h, symbol, r.uid, action, e)
  {
    hide ShardWorth, ShardOk, PendingIn, ReleasedBy, MarginTaker, MarginMaker;
    BothSides(action);
    ReleasedByIs(h, symbol, r.uid, action, e, r.uid, symbol, action);
    MarginTakerMoves(sh, h, specs, symbol, r.uid, action, e, c, marks);
    var a := MarginTaker(sh, h, symbol, specs[symbol], r.uid, action, e).value;
    if e.Trade? {
      ReleasedByIs(h, symbol, r.uid, action, e, e.makerUid, symbol, Opposite(action));
      assert PendingIn(a, e.makerUid, symbol, Opposite(action)) == PendingIn(sh, e.makerUid, symbol, Opposite(action));
      MarginMakerMoves(a, h, specs, symbol, action, e, c, marks);
    } else {
      assert MarginMaker(a, h, symbol, specs[symbol], action, e) == Some(a) by {
        NoMaker(a, h, symbol, specs[symbol], action, e);
      }
    }
    var b := MarginMaker(a, h, symbol, specs[symbol], action, e).value;
    forall u: int, y: int, x: OrderAction
      ensures PendingIn(b, u, y, x) == PendingIn(sh, u, y, x) - ReleasedBy(h, symbol, r.uid, action, e, u, y, x)
    {
      ReleasedByIs(h, symbol, r.uid, action, e, u, y, x);
    }
    Signs(action, e.size * (marks(symbol) - e.price));
  }

  lemma Signs(action: OrderAction, x: int)
    ensures Multiplier(DirectionOf(Opposite(action))) * x == -(Multiplier(DirectionOf(action)) * x)
  {
  }

  lemma NoMaker(sh: Shard, h: Handler, symbol: int, s: Symbol, action: OrderAction, e: Event)
    requires !e.Trade?
    ensures MarginMaker(sh, h, symbol, s, action, e) == Some(sh)
  {
  }

  // ----- A chain of events -----

  /** Every event takes a non-negative part of every pending size. */
  lemma {:induction false} TakenOutNonNegative(events: seq<Event>, action: OrderAction, uid: int, u: int,
                                               a: OrderAction)
    requires forall i | 0 <= i < |events| :: 0 < events[i].size
    ensures 0 <= AllTakenOut(events, action, uid, PendingWeight(u, a))
  {
    if events != [] {
      assert 0 < events[0].size;
      ReleasedByIs(Handler(0, 1), 0, uid, action, events[0], u, 0, a);
      TakenOutNonNegative(events[1..], action, uid, u, a);
    }
  }

  function ChainReleases(h: Handler, symbol: int, uid: int, action: OrderAction, events: seq<Event>, u: int, y: int,
                         a: OrderAction): int {
    if h.Owns(u) && y == symbol then AllTakenOut(events, action, uid, PendingWeight(u, a)) else 0
  }

  ghost predicate Releases(sh: Shard, sh': Shard, h: Handler, symbol: int, uid: int, action: OrderAction,
                           events: seq<Event>) {
    forall u: int, y: int, a: OrderAction ::
        PendingIn(sh', u, y, a) == PendingIn(sh, u, y, a) - ChainReleases(h, symbol, uid, action, events, u, y, a)
  }

  lemma ChainReleasesStep(h: Handler, symbol: int, uid: int, action: OrderAction, events: seq<Event>, u: int, y: int,
                          a: OrderAction)
    requires events != []
    ensures ChainReleases(h, symbol, uid, action, events, u, y, a)
            == ReleasedBy(h, symbol, uid, action, events[0], u, y, a)
                + ChainReleases(h, symbol, uid, action, events[1..], u, y, a)
    ensures (forall i | 0 <= i < |events| :: 0 < events[i].size) ==>
              0 <= ChainReleases(h, symbol, uid, action, events[1..], u, y, a)
  {
    if forall i | 0 <= i < |events| :: 0 < events[i].size {
      TakenOutNonNegative(events[1..], action, uid, u, a);
    }
  }

  /** As long as pending sizes cover what the chain takes out, every record is found, also when the chain empties
      some. */
  lemma {:induction false} SettleMarginMoves(sh: Shard, h: Handler, specs: map<int, Symbol>, symbol: int, r: Request,
                                             action: OrderAction, events: seq<Event>, c: int, marks: Marks)
    requires ShardOk(sh, specs) && symbol in specs && specs[symbol].kind == FUTURES_CONTRACT
    requires forall i | 0 <= i < |events| :: 0 < events[i].size
    requires forall u: int, a: OrderAction ::
               ChainReleases(h, symbol, r.uid, action, events, u, symbol, a) <= PendingIn(sh, u, symbol, a)
                   || !h.Owns(u)
    ensures var x := SettleMargin(sh, h, symbol, specs[symbol], r.uid, action, events);
            && x.Some? && ShardOk(x.value, specs)
            && ShardWorth(x.value, c, marks)
               == ShardWorth(sh, c, marks) + ChainShare(h, specs[symbol], r, action, events, c, marks(symbol))
            && Releases(sh, x.value, h, symbol, r.uid, action, events)
    decreases |events|
  {
    hide ShardWorth, ShardOk, PendingIn, ReleasedBy, MarginEvent, OwnShare, Shares, Handler.Owns, AllTakenOut;
    if events == [] {
      forall u: int, a: OrderAction ensures AllTakenOut(events, action, r.uid, PendingWeight(u, a)) == 0 {
        NothingTakenOut(action, r.uid, PendingWeight(u, a));
      }
    } else {
      hide ChainReleases;
      var e := events[0];
      forall u: int, a: OrderAction
        ensures ReleasedBy(h, symbol, r.uid, action, e, u, symbol, a) <= PendingIn(sh, u, symbol, a) || !h.Owns(u)
      {
        ChainReleasesStep(h, symbol, r.uid, action, events, u, symbol, a);
      }
      MarginEventMoves(sh, h, specs, symbol, r, action, e, c, marks);
      var b := MarginEvent(sh, h, symbol, specs[symbol], r.uid, action, e).value;
      forall u: int, a: OrderAction
        ensures ChainReleases(h, symbol, r.uid, action, events[1..], u, symbol, a) <= PendingIn(b, u, symbol, a)
                || !h.Owns(u)
      {
        ChainReleasesStep(h, symbol, r.uid, action, events, u, symbol, a);
      }
      SettleMarginMoves(b, h, specs, symbol, r, action, events[1..], c, marks);
      var x := SettleMargin(b, h, symbol, specs[symbol], r.uid, action, events[1..]).value;
      forall u: int, y: int, a: OrderAction
        ensures PendingIn(x, u, y, a)
                == PendingIn(sh, u, y, a) - ChainReleases(h, symbol, r.uid, action, events, u, y, a)
      {
        ChainReleasesStep(h, symbol, r.uid, action, events, u, y, a);
      }
    }
  }
}
