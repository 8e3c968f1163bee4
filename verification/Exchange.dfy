/** The whole exchange: risk shards, order books, and commands in flight between them, over every run.
    A step is the hold of one command in its shard, the matching of one held command, or its settlement in one shard;
    they may interleave freely, which covers every order in which the pipeline can run its stages. */
module Exchange {
  import opened Wrappers
  import opened OrderTypes
  import opened BookSpec
  import opened BookFacts
  import opened BookWeights
  import opened Positions
  import opened RiskSpec
  import opened Sums
  import opened Worth
  import opened MarginWorth
  import opened Ledger
  import opened ShardSteps

  /** A command past its hold, waiting for its order book. */
  datatype Inflight = Inflight(symbol: int, r: Request)

  /** A matched command, with the shards that have not settled it yet. */
  datatype Settling = Settling(symbol: int, r: Request, action: OrderAction, events: seq<Event>, left: set<nat>)

  datatype State = State(specs: map<int, Symbol>, marginEnabled: bool, shards: seq<Shard>, books: map<int, Book>,
                         inflight: seq<Inflight>, settling: seq<Settling>)

  datatype Action =
    | Submit(symbol: int, r: Request, freeMargin: int)
    | MatchOne(i: nat)
    | SettleOne(j: nat, k: nat)
    | Adjust(uid: int, currency: int, amount: int, txid: int, kind: AdjustmentType)
    | CreateUser(uid: int)
    | Suspend(uid: int)
    | Resume(uid: int)
    | Batch(k: nat, accounts: seq<Account>)

  ghost function Next(x: State, a: Action): Option<State>
    requires x.shards != []
  {
    var n := |x.shards|;
    match a
    case Submit(symbol, r, freeMargin) =>
      if !RequestOk(r) then Some(x)
      else if r.command != PLACE_ORDER then Some(x.(inflight := x.inflight + [Inflight(symbol, r)]))
      else
        var k := ShardOf(r.uid, n);
        var (sh, code) := PlaceOrderRiskCheck(x.shards[k], x.specs, x.marginEnabled, symbol, r, freeMargin);
        Some(x.(shards := x.shards[k := sh], inflight := x.inflight + [Inflight(symbol, r.(resultCode := code))]))
    case MatchOne(i) =>
      if i >= |x.inflight| then Some(x)
      else
        var f := x.inflight[i];
        var waiting := x.(inflight := x.inflight[..i] + x.inflight[i + 1..]);
        if f.symbol !in x.specs || f.symbol !in x.books then Some(waiting)
        else
          var o := Step(x.books[f.symbol], x.specs[f.symbol].kind, f.r);
          Some(waiting.(books := x.books[f.symbol := o.book],
                        settling := x.settling + [Settling(f.symbol, f.r, o.action, o.events, AllOf(n))]))
    case SettleOne(j, k) =>
      if j >= |x.settling| || k >= n || k !in x.settling[j].left || x.settling[j].symbol !in x.specs then Some(x)
      else
        var z := x.settling[j];
        var sh := Settle(x.shards[k], Handler(k, n), z.symbol, x.specs[z.symbol], z.r, z.action, z.events);
        if sh.None? then None
        else Some(x.(shards := x.shards[k := sh.value], settling := x.settling[j := z.(left := z.left - {k})]))
    case Adjust(uid, currency, amount, txid, kind) =>
      var k := ShardOf(uid, n);
      Some(x.(shards := x.shards[k := AdjustBalance(x.shards[k], uid, currency, amount, txid, kind).0]))
    case CreateUser(uid) =>
      var k := ShardOf(uid, n);
      Some(x.(shards := x.shards[k := AddUser(x.shards[k], uid).0]))
    case Suspend(uid) =>
      var k := ShardOf(uid, n);
      Some(x.(shards := x.shards[k := SuspendUser(x.shards[k], uid).0]))
    case Resume(uid) =>
      var k := ShardOf(uid, n);
      Some(x.(shards := x.shards[k := ResumeUser(x.shards[k], uid).0]))
    case Batch(k, accounts) => if k >= n then Some(x)
      else Some(x.(shards := x.shards[k := AddAccounts(x.shards[k], accounts)]))
  }

  /** The indices of n shards. */
  function AllOf(n: nat): (all: set<nat>)
    ensures forall k: nat :: k in all <==> k < n
  {
    if n == 0 then {} else AllOf(n - 1) + {n - 1}
  }

  /** An exchange with no users yet: empty books for the known symbols. */
  ghost function Start(specs: map<int, Symbol>, marginEnabled: bool, count: nat): State {
    State(specs, marginEnabled, seq(count, _ => Shard(map[], map[], map[], map[])),
          map symbol: int | symbol in specs :: Book([], []), [], [])
  }

  ghost function Exec(x: State, actions: seq<Action>): Option<State>
    requires x.shards != []
    ensures Exec(x, actions).Some? ==> |Exec(x, actions).value.shards| == |x.shards|
    decreases |actions|
  {
    if actions == [] then Some(x)
    else
      var y := Next(x, actions[0]);
      if y.None? then None else Exec(y.value, actions[1..])
  }

  lemma NoAction(x: State)
    requires x.shards != []
    ensures Exec(x, []) == Some(x)
  {
  }

  lemma OneAction(x: State, a: Action)
    requires x.shards != []
    ensures Exec(x, [a]) == Next(x, a)
  {
    hide Next;
    assert [a][1..] == [];
  }

  /** A run and one more behind it. */
  lemma {:induction false} ExecThen(x: State, actions: seq<Action>, more: seq<Action>)
    requires x.shards != [] && Exec(x, actions).Some?
    ensures Exec(x, actions + more) == Exec(Exec(x, actions).value, more)
    decreases |actions|
  {
    hide Next;
    if actions == [] {
      assert actions + more == more;
    } else {
      assert (actions + more)[1..] == actions[1..] + more;
      ExecThen(Next(x, actions[0]).value, actions[1..], more);
    }
  }

  // ----- What is held where -----

  ghost function WorthOf(c: int, marks: Marks): Shard -> int { (sh: Shard) => ShardWorth(sh, c, marks) }

  ghost function ClaimsOf(specs: map<int, Symbol>, c: int): (int, Book) -> int {
    (symbol: int, book: Book) => if symbol in specs then WeighBook(book, ClaimWeight(specs[symbol], c)) else 0
  }

  ghost function HoldOf(specs: map<int, Symbol>, c: int): Inflight -> int {
    (f: Inflight) => if f.symbol in specs then Hold(specs[f.symbol], f.r, c) else 0
  }

  ghost function UnsettledOf(specs: map<int, Symbol>, count: nat, c: int, marks: Marks): Settling -> int {
    (z: Settling) => if z.symbol in specs
        then LeftShare(z.left, count, count, specs[z.symbol], z.r, z.action, z.events, c, marks(z.symbol)) else 0
  }

  /** What the refund of a budget bid that is not filled or killed gives beyond its hold. */
  function Overpaid(s: Symbol, r: Request, c: int): int {
    if r.command == PLACE_ORDER && r.resultCode == VALID_FOR_MATCHING_ENGINE && r.orderType == IOC_BUDGET
    then BudgetSlack(s, r, c) else 0
  }

  ghost function OverpaidOf(specs: map<int, Symbol>, c: int): Settling -> int {
    (z: Settling) => if z.symbol in specs then Overpaid(specs[z.symbol], z.r, c) else 0
  }

  /** Everything there is of one currency: in the shards, held by resting orders, held by commands in flight, not
      settled yet. */
  ghost function Grand(x: State, c: int, marks: Marks): int {
    Sum(x.shards, WorthOf(c, marks)) + Total(x.books, ClaimsOf(x.specs, c)) + Sum(x.inflight, HoldOf(x.specs, c))
    + Sum(x.settling, UnsettledOf(x.specs, |x.shards|, c, marks))
  }

  ghost predicate Conserved(x: State) {
    forall c: int, marks: Marks :: Grand(x, c, marks) == Sum(x.settling, OverpaidOf(x.specs, c))
  }

  // ----- Pending sizes -----

  ghost function ComingOf(symbol: int, u: int, a: OrderAction): Inflight -> int {
    (f: Inflight) => if f.symbol == symbol then BroughtIn(f.r, PendingWeight(u, a)) else 0
  }

  ghost function GoingOf(count: nat, symbol: int, u: int, a: OrderAction): Settling -> int
    requires 0 < count
  {
    (z: Settling) => if z.symbol == symbol && ShardOf(u, count) in z.left
        then AllTakenOut(z.events, z.action, z.r.uid, PendingWeight(u, a)) else 0
  }

  /** A user's open size on one side of a futures symbol: resting, in flight, and matched but not settled with this
      user. */
  ghost function OpenSize(x: State, symbol: int, u: int, a: OrderAction): int
    requires x.shards != [] && symbol in x.books
  {
    WeighBook(x.books[symbol], PendingWeight(u, a)) + Sum(x.inflight, ComingOf(symbol, u, a))
        + Sum(x.settling, GoingOf(|x.shards|, symbol, u, a))
  }

  /** The pending size of every position record mirrors the open size of its owner. */
  ghost predicate Mirrored(x: State)
    requires x.shards != []
  {
    forall symbol: int, u: int, a: OrderAction ::
      symbol in x.specs && KindOf(x, symbol) == FUTURES_CONTRACT && symbol in x.books ==>
        PendingIn(x.shards[ShardOf(u, |x.shards|)], u, symbol, a) == OpenSize(x, symbol, u, a)
  }

  function KindOf(x: State, symbol: int): SymbolType
    requires symbol in x.specs
  {
    x.specs[symbol].kind
  }

  // ----- The invariant -----

  ghost predicate InflightOk(specs: map<int, Symbol>, f: Inflight) {
    && RequestOk(f.r)
    && (f.r.command == PLACE_ORDER && f.r.resultCode == VALID_FOR_MATCHING_ENGINE ==>
          f.symbol in specs
              && (specs[f.symbol].kind == CURRENCY_EXCHANGE_PAIR ==>
                    PriceCheck(specs[f.symbol], f.r) == VALID_FOR_MATCHING_ENGINE))
  }

  ghost predicate Sound(x: State) {
    && x.shards != []
    && (forall k | 0 <= k < |x.shards| :: ShardOk(x.shards[k], x.specs))
    && (forall symbol: int :: symbol in x.books <==> symbol in x.specs)
    && (forall symbol: int <- x.books :: BookOk(x.books[symbol]))
    && (forall i | 0 <= i < |x.inflight| :: InflightOk(x.specs, x.inflight[i]))
    && (forall j | 0 <= j < |x.settling| ::
          x.settling[j].symbol in x.specs && RequestOk(x.settling[j].r) && ChainOk(x.settling[j].events))
  }

  ghost predicate Invariant(x: State) {
    Sound(x) && Conserved(x) && Mirrored(x)
  }

  // ----- What is open is never negative -----

  lemma {:induction false} WeighNonNegative(side: seq<Order>, action: OrderAction, u: int, a: OrderAction)
    requires forall i | 0 <= i < |side| :: Live(side[i], action)
    ensures 0 <= Weigh(side, PendingWeight(u, a))
  {
    if side != [] {
      assert Live(side[0], action);
      WeighNonNegative(side[1..], action, u, a);
    }
  }

  lemma OpenParts(x: State, symbol: int, u: int, a: OrderAction)
    requires Sound(x) && symbol in x.books
    ensures 0 <= OpenSize(x, symbol, u, a)
    ensures forall j | 0 <= j < |x.settling| ::
              GoingOf(|x.shards|, symbol, u, a)(x.settling[j]) <= OpenSize(x, symbol, u, a)
  {
    hide Live, Weigh;
    var book := x.books[symbol];
    assert BookOk(book);
    SideLive(book.asks, ASK);
    SideLive(book.bids, BID);
    WeighNonNegative(book.asks, ASK, u, a);
    WeighNonNegative(book.bids, BID, u, a);
    forall i | 0 <= i < |x.inflight| ensures 0 <= ComingOf(symbol, u, a)(x.inflight[i]) {
      assert InflightOk(x.specs, x.inflight[i]);
      BroughtInNonNegative(x.inflight[i].r, u, a);
    }
    SumNonNegative(x.inflight, ComingOf(symbol, u, a));
    forall j | 0 <= j < |x.settling| ensures 0 <= GoingOf(|x.shards|, symbol, u, a)(x.settling[j]) {
      var z := x.settling[j];
      assert ChainOk(z.events);
      TakenOutNonNegative(z.events, z.action, z.r.uid, u, a);
    }
    SumNonNegative(x.settling, GoingOf(|x.shards|, symbol, u, a));
  }

  lemma BroughtInNonNegative(r: Request, u: int, a: OrderAction)
    requires RequestOk(r)
    ensures 0 <= BroughtIn(r, PendingWeight(u, a))
  {
  }

  lemma PendingNonNegative(x: State, symbol: int, u: int, a: OrderAction)
    requires Sound(x) && Mirrored(x)
    ensures 0 <= PendingIn(x.shards[ShardOf(u, |x.shards|)], u, symbol, a)
  {
    hide BookOk, OpenSize;
    var sh := x.shards[ShardOf(u, |x.shards|)];
    assert ShardOk(sh, x.specs);
    if u in sh.profiles && symbol in sh.profiles[u].positions {
      RecordIs(sh, x.specs, u, symbol);
      assert KindOf(x, symbol) == FUTURES_CONTRACT;
      OpenParts(x, symbol, u, a);
    }
  }

  // ----- Operations inside one shard -----

  lemma ShardSet(x: State, k: nat, sh: Shard, c: int, marks: Marks)
    requires k < |x.shards|
    ensures Grand(x.(shards := x.shards[k := sh]), c, marks)
            == Grand(x, c, marks) - ShardWorth(x.shards[k], c, marks) + ShardWorth(sh, c, marks)
  {
    SumUpdate(x.shards, k, sh, WorthOf(c, marks));
  }

  lemma NeutralKeeps(x: State, k: nat, sh: Shard)
    requires Invariant(x) && k < |x.shards|
             && forall c: int, marks: Marks :: Neutral(x.shards[k], sh, x.specs, c, marks)
    ensures Invariant(x.(shards := x.shards[k := sh]))
  {
    hide BookOk, Grand, ShardOk, OpenSize, ShardWorth, PendingIn, ChainOk, InflightOk;
    var y := x.(shards := x.shards[k := sh]);
    var marks0: Marks := _ => 0;
    assert Neutral(x.shards[k], sh, x.specs, 0, marks0);
    forall c: int, marks: Marks ensures Grand(y, c, marks) == Sum(y.settling, OverpaidOf(y.specs, c)) {
      assert Neutral(x.shards[k], sh, x.specs, c, marks);
      ShardSet(x, k, sh, c, marks);
      assert Grand(x, c, marks) == Sum(x.settling, OverpaidOf(x.specs, c));
    }
    forall symbol: int, u: int, a: OrderAction
        | symbol in y.specs && KindOf(y, symbol) == FUTURES_CONTRACT && symbol in y.books
      ensures PendingIn(y.shards[ShardOf(u, |y.shards|)], u, symbol, a) == OpenSize(y, symbol, u, a)
    {
      assert KindOf(x, symbol) == FUTURES_CONTRACT;
      SameOpenSize(x, y, symbol, u, a);
      assert PendingIn(x.shards[ShardOf(u, |x.shards|)], u, symbol, a) == OpenSize(x, symbol, u, a);
    }
  }

  lemma SameOpenSize(x: State, y: State, symbol: int, u: int, a: OrderAction)
    requires x.shards != [] && |x.shards| == |y.shards| && symbol in x.books && x.books == y.books
             && x.inflight == y.inflight && x.settling == y.settling
    ensures OpenSize(x, symbol, u, a) == OpenSize(y, symbol, u, a)
  {
  }

  // ----- Holding -----

  lemma SubmitConserves(x: State, symbol: int, r: Request, freeMargin: int, c: int, marks: Marks)
    requires Sound(x) && Mirrored(x) && r.command == PLACE_ORDER && RequestOk(r)
    ensures Grand(Next(x, Submit(symbol, r, freeMargin)).value, c, marks) == Grand(x, c, marks)
  {
    hide BookOk, OpenSize, PendingIn, ShardOk, ChainOk, InflightOk, PlaceOrderRiskCheck, Mirrored;
    var k := ShardOf(r.uid, |x.shards|);
    forall a: OrderAction
      ensures 0 <= PendingIn(x.shards[k], r.uid, symbol, a)
    {
      PendingNonNegative(x, symbol, r.uid, a);
    }
    assert ShardOk(x.shards[k], x.specs);
    PlaceMoves(x.shards[k], x.specs, x.marginEnabled, symbol, r, freeMargin, c, marks);
    var (sh, code) := PlaceOrderRiskCheck(x.shards[k], x.specs, x.marginEnabled, symbol, r, freeMargin);
    var f := Inflight(symbol, r.(resultCode := code));
    SumUpdate(x.shards, k, sh, WorthOf(c, marks));
    SumAppend(x.inflight, f, HoldOf(x.specs, c));
  }

  lemma QueueMirrors(x: State, f: Inflight, symbol: int, u: int, a: OrderAction)
    requires x.shards != [] && symbol in x.books
    ensures OpenSize(x.(inflight := x.inflight + [f]), symbol, u, a)
            == OpenSize(x, symbol, u, a) + ComingOf(symbol, u, a)(f)
  {
    SumAppend(x.inflight, f, ComingOf(symbol, u, a));
  }

  lemma BroughtInIs(r: Request, code: ResultCode, u: int, a: OrderAction)
    requires r.command == PLACE_ORDER
    ensures BroughtIn(r.(resultCode := code), PendingWeight(u, a)) == if code == VALID_FOR_MATCHING_ENGINE && u == r.uid
            && a == r.action then r.size else 0
  {
  }

  lemma SubmitKeeps(x: State, symbol: int, r: Request, freeMargin: int)
    requires Invariant(x) && r.command == PLACE_ORDER && RequestOk(r)
    ensures Invariant(Next(x, Submit(symbol, r, freeMargin)).value)
  {
    hide BookOk, Grand, ShardOk, OpenSize, PendingIn, ChainOk, PlaceOrderRiskCheck, PriceCheck, BroughtIn;
    var y := Next(x, Submit(symbol, r, freeMargin)).value;
    var k := ShardOf(r.uid, |x.shards|);
    forall a: OrderAction
      ensures 0 <= PendingIn(x.shards[k], r.uid, symbol, a)
    {
      PendingNonNegative(x, symbol, r.uid, a);
    }
    PlaceMoves(x.shards[k], x.specs, x.marginEnabled, symbol, r, freeMargin, 0, _ => 0);
    var (sh, code) := PlaceOrderRiskCheck(x.shards[k], x.specs, x.marginEnabled, symbol, r, freeMargin);
    var f := Inflight(symbol, r.(resultCode := code));
    assert y == x.(shards := x.shards[k := sh], inflight := x.inflight + [f]);
    assert InflightOk(x.specs, f) by { CheckedIsOk(x.specs, symbol, r, code); }
    forall c: int, marks: Marks ensures Grand(y, c, marks) == Sum(y.settling, OverpaidOf(y.specs, c)) {
      SubmitConserves(x, symbol, r, freeMargin, c, marks);
      assert Grand(x, c, marks) == Sum(x.settling, OverpaidOf(x.specs, c));
    }
    forall s: int, u: int, a: OrderAction | s in y.specs && KindOf(y, s) == FUTURES_CONTRACT && s in y.books
      ensures PendingIn(y.shards[ShardOf(u, |y.shards|)], u, s, a) == OpenSize(y, s, u, a)
    {
      assert KindOf(x, s) == FUTURES_CONTRACT;
      assert PendingIn(x.shards[ShardOf(u, |x.shards|)], u, s, a) == OpenSize(x, s, u, a);
      QueueMirrors(x, f, s, u, a);
      SameOpenSize(x.(inflight := x.inflight + [f]), y, s, u, a);
      BroughtInIs(r, code, u, a);
    }
  }

  lemma CheckedIsOk(specs: map<int, Symbol>, symbol: int, r: Request, code: ResultCode)
    requires RequestOk(r)
    requires code == VALID_FOR_MATCHING_ENGINE ==>
               symbol in specs && (specs[symbol].kind == CURRENCY_EXCHANGE_PAIR ==>
                                     PriceCheck(specs[symbol], r) == VALID_FOR_MATCHING_ENGINE)
    ensures InflightOk(specs, Inflight(symbol, r.(resultCode := code)))
  {
  }

  lemma QueueKeeps(x: State, symbol: int, r: Request)
    requires Invariant(x) && r.command != PLACE_ORDER && RequestOk(r)
    ensures Invariant(x.(inflight := x.inflight + [Inflight(symbol, r)]))
  {
    hide BookOk, ShardOk, OpenSize, PendingIn, ChainOk, ShardWorth;
    var f := Inflight(symbol, r);
    var y := x.(inflight := x.inflight + [f]);
    forall c: int, marks: Marks ensures Grand(y, c, marks) == Sum(y.settling, OverpaidOf(y.specs, c)) {
      SumAppend(x.inflight, f, HoldOf(x.specs, c));
      assert Grand(x, c, marks) == Sum(x.settling, OverpaidOf(x.specs, c));
    }
    forall s: int, u: int, a: OrderAction | s in y.specs && KindOf(y, s) == FUTURES_CONTRACT && s in y.books
      ensures PendingIn(y.shards[ShardOf(u, |y.shards|)], u, s, a) == OpenSize(y, s, u, a)
    {
      assert KindOf(x, s) == FUTURES_CONTRACT;
      assert PendingIn(x.shards[ShardOf(u, |x.shards|)], u, s, a) == OpenSize(x, s, u, a);
      QueueMirrors(x, f, s, u, a);
    }
  }

  // ----- Matching -----

  /** What a command held is what it adds to the claims in the book and to what is to be settled. */
  lemma MatchedClaims(s: Symbol, book: Book, r: Request, count: nat, c: int, mark: int)
    requires BookOk(book) && RequestOk(r) && 0 < count
    requires s.kind == CURRENCY_EXCHANGE_PAIR && r.command == PLACE_ORDER && r.resultCode == VALID_FOR_MATCHING_ENGINE
             ==> PriceCheck(s, r) == VALID_FOR_MATCHING_ENGINE
    ensures var o := Step(book, s.kind, r);
            WeighBook(o.book, ClaimWeight(s, c))
                + LeftShare(AllOf(count), count, count, s, r, o.action, o.events, c, mark)
            == WeighBook(book, ClaimWeight(s, c)) + Hold(s, r, c) + Overpaid(s, r, c)
  {
    hide BookOk, Step, ChainTotal, BudgetCorrection, ClaimWeight, LeftShare, WeighBook, AllTakenOut, PriceCheck,
         BudgetSlack, TradesOf, BroughtIn, Hold;
    var o := Step(book, s.kind, r);
    StepTotals(book, s, r, c, mark);
    StepBalances(book, s.kind, r, ClaimWeight(s, c));
    AllShards(AllOf(count), count, s, r, o.action, o.events, c, mark);
    HoldIsBroughtIn(s, r, c);
    if !IsBudget(r.orderType) { NoSlack(s, r, c); }
    assert r.command == PLACE_ORDER && r.resultCode == VALID_FOR_MATCHING_ENGINE ==>
             IsBudget(r.orderType) == (r.orderType == FOK_BUDGET || r.orderType == IOC_BUDGET);
  }

  lemma MatchConserves(x: State, i: nat, c: int, marks: Marks)
    requires Sound(x) && i < |x.inflight|
    ensures var y := Next(x, MatchOne(i)).value;
            Grand(y, c, marks) - Sum(y.settling, OverpaidOf(y.specs, c))
                == Grand(x, c, marks) - Sum(x.settling, OverpaidOf(x.specs, c))
  {
    hide BookOk, ShardOk, PendingIn, ChainOk, ShardWorth, Step, LeftShare, WeighBook, ClaimWeight, Hold, Overpaid;
    var f := x.inflight[i];
    var y := Next(x, MatchOne(i)).value;
    SumRemove(x.inflight, i, HoldOf(x.specs, c));
    if f.symbol in x.specs {
      var s := x.specs[f.symbol];
      var book := x.books[f.symbol];
      assert InflightOk(x.specs, f) && BookOk(book);
      var o := Step(book, s.kind, f.r);
      var z := Settling(f.symbol, f.r, o.action, o.events, AllOf(|x.shards|));
      MatchedClaims(s, book, f.r, |x.shards|, c, marks(f.symbol));
      TotalUpdate(x.books, f.symbol, o.book, ClaimsOf(x.specs, c));
      SumAppend(x.settling, z, UnsettledOf(x.specs, |x.shards|, c, marks));
      SumAppend(x.settling, z, OverpaidOf(x.specs, c));
    }
  }

  lemma MatchMirrors(x: State, i: nat, symbol: int, u: int, a: OrderAction)
    requires Sound(x) && i < |x.inflight| && symbol in x.books
    ensures symbol in Next(x, MatchOne(i)).value.books
            && OpenSize(Next(x, MatchOne(i)).value, symbol, u, a) == OpenSize(x, symbol, u, a)
  {
    hide BookOk, ShardOk, PendingIn, ChainOk, Step, WeighBook, AllTakenOut, BroughtIn, PendingWeight;
    var f := x.inflight[i];
    SumRemove(x.inflight, i, ComingOf(symbol, u, a));
    if f.symbol in x.specs {
      var book := x.books[f.symbol];
      assert InflightOk(x.specs, f) && BookOk(book);
      var o := Step(book, x.specs[f.symbol].kind, f.r);
      var z := Settling(f.symbol, f.r, o.action, o.events, AllOf(|x.shards|));
      StepBalances(book, x.specs[f.symbol].kind, f.r, PendingWeight(u, a));
      SumAppend(x.settling, z, GoingOf(|x.shards|, symbol, u, a));
    }
  }

  lemma MatchSound(x: State, i: nat)
    requires Sound(x) && i < |x.inflight|
    ensures Sound(Next(x, MatchOne(i)).value)
  {
    hide BookOk, ShardOk, ChainOk, Step, InflightOk;
    var f := x.inflight[i];
    var y := Next(x, MatchOne(i)).value;
    var rest := x.inflight[..i] + x.inflight[i + 1..];
    forall j | 0 <= j < |rest| ensures InflightOk(x.specs, rest[j]) {
      assert rest[j] == x.inflight[if j < i then j else j + 1];
    }
    if f.symbol in x.specs {
      var book := x.books[f.symbol];
      assert RequestOk(f.r) by { assert InflightOk(x.specs, f); InflightIs(x.specs, f); }
      StepKeeps(book, x.specs[f.symbol].kind, f.r);
      StepChainOk(book, x.specs[f.symbol].kind, f.r);
    }
  }

  lemma InflightIs(specs: map<int, Symbol>, f: Inflight)
    requires InflightOk(specs, f)
    ensures RequestOk(f.r)
  {
  }

  lemma MatchOneKeeps(x: State, i: nat)
    requires Invariant(x) && i < |x.inflight|
    ensures Invariant(Next(x, MatchOne(i)).value)
  {
    hide Grand, OpenSize, PendingIn, Step, Sound;
    SoundShape(x);
    var y := Next(x, MatchOne(i)).value;
    MatchSound(x, i);
    SoundShape(y);
    assert y.shards == x.shards && y.specs == x.specs;
    forall c: int, marks: Marks ensures Grand(y, c, marks) == Sum(y.settling, OverpaidOf(y.specs, c)) {
      MatchConserves(x, i, c, marks);
      assert Grand(x, c, marks) == Sum(x.settling, OverpaidOf(x.specs, c));
    }
    forall s: int, u: int, a: OrderAction | s in y.specs && KindOf(y, s) == FUTURES_CONTRACT && s in y.books
      ensures PendingIn(y.shards[ShardOf(u, |y.shards|)], u, s, a) == OpenSize(y, s, u, a)
    {
      assert KindOf(x, s) == FUTURES_CONTRACT;
      MatchMirrors(x, i, s, u, a);
      assert PendingIn(x.shards[ShardOf(u, |x.shards|)], u, s, a) == OpenSize(x, s, u, a);
    }
  }

  lemma SoundShape(x: State)
    requires Sound(x)
    ensures x.shards != [] && forall symbol: int :: symbol in x.books <==> symbol in x.specs
  {
  }

  // ----- Settling -----

  /** Pending sizes cover every chain still to be settled, so settlement finds every record. */
  lemma Covered(x: State, j: nat, k: nat, u: int, a: OrderAction)
    requires Sound(x) && Mirrored(x) && j < |x.settling| && k < |x.shards| && k in x.settling[j].left
    requires x.specs[x.settling[j].symbol].kind == FUTURES_CONTRACT
    ensures var z := x.settling[j];
            var h := Handler(k, |x.shards|);
            !h.Owns(u) || ChainReleases(h, z.symbol, z.r.uid, z.action, z.events, u, z.symbol, a)
                <= PendingIn(x.shards[k], u, z.symbol, a)
  {
    hide BookOk, ShardOk, PendingIn, ChainOk, AllTakenOut, OpenSize;
    var z := x.settling[j];
    if Handler(k, |x.shards|).Owns(u) {
      assert KindOf(x, z.symbol) == FUTURES_CONTRACT;
      assert PendingIn(x.shards[ShardOf(u, |x.shards|)], u, z.symbol, a) == OpenSize(x, z.symbol, u, a);
      OpenParts(x, z.symbol, u, a);
      assert GoingOf(|x.shards|, z.symbol, u, a)(x.settling[j]) <= OpenSize(x, z.symbol, u, a);
    }
  }

  /** Settlement in a shard always succeeds, moves exactly its share and releases exactly its pending sizes. */
  lemma SettleOneMoves(x: State, j: nat, k: nat, c: int, marks: Marks)
    requires Sound(x) && Mirrored(x) && j < |x.settling| && k < |x.shards| && k in x.settling[j].left
    ensures var z := x.settling[j];
            var h := Handler(k, |x.shards|);
            var s := x.specs[z.symbol];
            var sh := Settle(x.shards[k], h, z.symbol, s, z.r, z.action, z.events);
            && sh.Some? && ShardOk(sh.value, x.specs)
            && ShardWorth(sh.value, c, marks)
               == ShardWorth(x.shards[k], c, marks) + SettlementShare(h, s, z.r, z.action, z.events, c, marks(z.symbol))
            && forall u: int, y: int, a: OrderAction ::
                 PendingIn(sh.value, u, y, a)
                     == PendingIn(x.shards[k], u, y, a)
                         - SettlementReleases(h, z.symbol, s, z.r.uid, z.action, z.events, u, y, a)
  {
    hide BookOk, ShardOk, PendingIn, ChainOk, OpenSize, Mirrored, ChainReleases, InflightOk, Handler.Owns;
    var z := x.settling[j];
    var h := Handler(k, |x.shards|);
    if x.specs[z.symbol].kind == FUTURES_CONTRACT {
      forall u: int, a: OrderAction
        ensures ChainReleases(h, z.symbol, z.r.uid, z.action, z.events, u, z.symbol, a)
                <= PendingIn(x.shards[k], u, z.symbol, a) || !h.Owns(u)
      {
        Covered(x, j, k, u, a);
      }
    }
    SettleMoves(x.shards[k], h, x.specs, z.symbol, z.r, z.action, z.events, c, marks);
  }

  lemma SettleConserves(x: State, j: nat, k: nat, c: int, marks: Marks)
    requires Sound(x) && Mirrored(x) && j < |x.settling| && k < |x.shards| && k in x.settling[j].left
    ensures Next(x, SettleOne(j, k)).Some?
    ensures var y := Next(x, SettleOne(j, k)).value;
            Grand(y, c, marks) == Grand(x, c, marks)
                && Sum(y.settling, OverpaidOf(y.specs, c)) == Sum(x.settling, OverpaidOf(x.specs, c))
  {
    hide BookOk, ShardOk, PendingIn, ChainOk, OpenSize, Mirrored, InflightOk, Settle, ShardWorth, SettlementShare,
         LeftShare, Overpaid;
    SettleOneMoves(x, j, k, c, marks);
    var z := x.settling[j];
    var s := x.specs[z.symbol];
    var sh := Settle(x.shards[k], Handler(k, |x.shards|), z.symbol, s, z.r, z.action, z.events).value;
    var z' := z.(left := z.left - {k});
    SumUpdate(x.shards, k, sh, WorthOf(c, marks));
    SumUpdate(x.settling, j, z', UnsettledOf(x.specs, |x.shards|, c, marks));
    SumUpdate(x.settling, j, z', OverpaidOf(x.specs, c));
    LeftShareSettled(z.left, k, |x.shards|, |x.shards|, s, z.r, z.action, z.events, c, marks(z.symbol));
  }

  lemma SettleOpenSize(x: State, j: nat, k: nat, sh: Shard, symbol: int, u: int, a: OrderAction)
    requires Sound(x) && j < |x.settling| && k < |x.shards| && k in x.settling[j].left && symbol in x.books
    ensures var z := x.settling[j];
            OpenSize(x.(shards := x.shards[k := sh], settling := x.settling[j := z.(left := z.left - {k})]), symbol, u,
                     a)
            == OpenSize(x, symbol, u, a)
                - ChainReleases(Handler(k, |x.shards|), z.symbol, z.r.uid, z.action, z.events, u, symbol, a)
  {
    hide BookOk, ShardOk, PendingIn, ChainOk, InflightOk, AllTakenOut, WeighBook;
    var z := x.settling[j];
    SumUpdate(x.settling, j, z.(left := z.left - {k}), GoingOf(|x.shards|, symbol, u, a));
  }

  lemma SettleOneKeeps(x: State, j: nat, k: nat)
    requires Invariant(x) && j < |x.settling| && k < |x.shards| && k in x.settling[j].left
    ensures Next(x, SettleOne(j, k)).Some? && Invariant(Next(x, SettleOne(j, k)).value)
  {
    hide BookOk, ShardOk, PendingIn, ChainOk, OpenSize, InflightOk, Settle, ShardWorth, Grand, ChainReleases;
    SettleOneMoves(x, j, k, 0, _ => 0);
    SettleConserves(x, j, k, 0, _ => 0);
    var y := Next(x, SettleOne(j, k)).value;
    forall c: int, marks: Marks ensures Grand(y, c, marks) == Sum(y.settling, OverpaidOf(y.specs, c)) {
      SettleConserves(x, j, k, c, marks);
      assert Grand(x, c, marks) == Sum(x.settling, OverpaidOf(x.specs, c));
    }
    forall s: int, u: int, a: OrderAction | s in y.specs && KindOf(y, s) == FUTURES_CONTRACT && s in y.books
      ensures PendingIn(y.shards[ShardOf(u, |y.shards|)], u, s, a) == OpenSize(y, s, u, a)
    {
      assert KindOf(x, s) == FUTURES_CONTRACT;
      assert PendingIn(x.shards[ShardOf(u, |x.shards|)], u, s, a) == OpenSize(x, s, u, a);
      SettleOpenSize(x, j, k, y.shards[k], s, u, a);
      OthersRelease(x, j, k, s, u, a);
    }
  }

  lemma OthersRelease(x: State, j: nat, k: nat, symbol: int, u: int, a: OrderAction)
    requires Sound(x) && j < |x.settling| && k < |x.shards|
    ensures var z := x.settling[j];
            var h := Handler(k, |x.shards|);
            && (symbol != z.symbol || k != ShardOf(u, |x.shards|) ==>
                  ChainReleases(h, z.symbol, z.r.uid, z.action, z.events, u, symbol, a) == 0)
            && (symbol in x.specs && x.specs[symbol].kind == FUTURES_CONTRACT ==>
                  SettlementReleases(h, z.symbol, x.specs[z.symbol], z.r.uid, z.action, z.events, u, symbol, a)
                  == ChainReleases(h, z.symbol, z.r.uid, z.action, z.events, u, symbol, a))
  {
    hide BookOk, ShardOk, ChainOk, InflightOk, AllTakenOut;
  }

  // ----- Runs -----

  lemma NextKeeps(x: State, a: Action)
    requires Invariant(x)
    ensures Next(x, a).Some? && Invariant(Next(x, a).value)
  {
    hide Invariant, Sound, AdjustBalance, AddUser, SuspendUser, ResumeUser, AddAccounts, PlaceOrderRiskCheck, Settle,
         Step;
    InvariantShape(x);
    match a
    case Submit(symbol, r, freeMargin) =>
      if RequestOk(r) {
        if r.command == PLACE_ORDER { SubmitKeeps(x, symbol, r, freeMargin); } else { QueueKeeps(x, symbol, r); }
      }
    case MatchOne(i) => if i < |x.inflight| { MatchOneKeeps(x, i); }
    case SettleOne(j, k) =>
      if j < |x.settling| && k < |x.shards| && k in x.settling[j].left { SettleOneKeeps(x, j, k); }
    case Adjust(uid, currency, amount, txid, kind) =>
      var k := ShardOf(uid, |x.shards|);
      forall c: int, marks: Marks
        ensures Neutral(x.shards[k], AdjustBalance(x.shards[k], uid, currency, amount, txid, kind).0, x.specs, c, marks)
      {
        AdjustMoves(x.shards[k], x.specs, uid, currency, amount, txid, kind, c, marks);
      }
      NeutralKeeps(x, k, AdjustBalance(x.shards[k], uid, currency, amount, txid, kind).0);
    case CreateUser(uid) =>
      var k := ShardOf(uid, |x.shards|);
      forall c: int, marks: Marks ensures Neutral(x.shards[k], AddUser(x.shards[k], uid).0, x.specs, c, marks) {
        AddUserMoves(x.shards[k], x.specs, uid, c, marks);
      }
      NeutralKeeps(x, k, AddUser(x.shards[k], uid).0);
    case Suspend(uid) =>
      var k := ShardOf(uid, |x.shards|);
      forall c: int, marks: Marks ensures Neutral(x.shards[k], SuspendUser(x.shards[k], uid).0, x.specs, c, marks) {
        SuspendUserMoves(x.shards[k], x.specs, uid, c, marks);
      }
      NeutralKeeps(x, k, SuspendUser(x.shards[k], uid).0);
    case Resume(uid) =>
      var k := ShardOf(uid, |x.shards|);
      forall c: int, marks: Marks ensures Neutral(x.shards[k], ResumeUser(x.shards[k], uid).0, x.specs, c, marks) {
        ResumeUserMoves(x.shards[k], x.specs, uid, c, marks);
      }
      NeutralKeeps(x, k, ResumeUser(x.shards[k], uid).0);
    case Batch(k, accounts) =>
      if k < |x.shards| {
        forall c: int, marks: Marks
          ensures Neutral(x.shards[k], AddAccounts(x.shards[k], accounts), x.specs, c, marks)
        {
          AddAccountsMoves(x.shards[k], x.specs, accounts, c, marks);
        }
        NeutralKeeps(x, k, AddAccounts(x.shards[k], accounts));
      }
  }

  lemma InvariantShape(x: State)
    requires Invariant(x)
    ensures x.shards != [] && forall k | 0 <= k < |x.shards| :: ShardOk(x.shards[k], x.specs)
  {
  }

  lemma StartKeeps(specs: map<int, Symbol>, marginEnabled: bool, count: nat)
    requires 0 < count
    ensures Invariant(Start(specs, marginEnabled, count))
  {
    hide Grand, ShardWorth;
    var x := Start(specs, marginEnabled, count);
    forall c: int, marks: Marks ensures Grand(x, c, marks) == Sum(x.settling, OverpaidOf(x.specs, c)) {
      StartConserves(specs, marginEnabled, count, c, marks);
    }
  }

  lemma StartConserves(specs: map<int, Symbol>, marginEnabled: bool, count: nat, c: int, marks: Marks)
    requires 0 < count
    ensures Grand(Start(specs, marginEnabled, count), c, marks) == 0
  {
    var x := Start(specs, marginEnabled, count);
    forall k | 0 <= k < count ensures WorthOf(c, marks)(x.shards[k]) == NoWorth(x.shards[k]) {
      TotalZero<Profile>(map[], WorthIn(c, marks));
    }
    SumSame(x.shards, WorthOf(c, marks), NoWorth);
    SumZero(x.shards);
    TotalZero(x.books, ClaimsOf(x.specs, c));
  }

  function NoWorth(sh: Shard): int { 0 }

  lemma {:induction false} SumZero(shards: seq<Shard>)
    ensures Sum(shards, NoWorth) == 0
  {
    if shards != [] { SumZero(shards[1..]); }
  }

  /** Over every run, however the stages of commands interleave and however many shards there are: settlement never
      fails, nothing is created or lost in any currency at any mark prices beyond what refunds of budget bids that are
      not fill-or-kill give too much, and every pending size is the open size of its owner. */
  lemma {:induction false} EveryRun(x: State, actions: seq<Action>)
    requires Invariant(x)
    ensures Exec(x, actions).Some? && Invariant(Exec(x, actions).value)
    decreases |actions|
  {
    hide Invariant, Next;
    InvariantShape(x);
    if actions != [] {
      NextKeeps(x, actions[0]);
      InvariantShape(Next(x, actions[0]).value);
      EveryRun(Next(x, actions[0]).value, actions[1..]);
    }
  }

  // ----- Exactly when nothing is lost -----

  ghost predicate ScalesOk(specs: map<int, Symbol>) {
    forall symbol: int <- specs :: 0 <= specs[symbol].quoteScaleK
  }

  /** A budget bid is refunded too much unless it is fill-or-kill, has one unit, or costs nothing. */
  lemma OverpaidIs(s: Symbol, r: Request, c: int)
    requires RequestOk(r) && 0 <= s.quoteScaleK
    ensures 0 <= Overpaid(s, r, c)
    ensures Overpaid(s, r, c) == 0 <==>
              !(s.kind == CURRENCY_EXCHANGE_PAIR && c == s.quoteCurrency && r.command == PLACE_ORDER
                && r.resultCode == VALID_FOR_MATCHING_ENGINE
                && r.action == BID && r.orderType == IOC_BUDGET && r.size != 1 && r.price != 0 && s.quoteScaleK != 0)
  {
    var amount := r.price * s.quoteScaleK;
    assert amount == 0 <==> r.price == 0 || s.quoteScaleK == 0 by { ProductZero(r.price, s.quoteScaleK); }
    if r.command == PLACE_ORDER { ProductZero(r.size - 1, amount); }
  }

  lemma ProductZero(a: int, b: int)
    requires 0 <= a && 0 <= b
    ensures 0 <= a * b && (a * b == 0 <==> a == 0 || b == 0)
  {
  }

  /** Every immediate-or-cancel budget bid is rejected, and the refund holds its price once for each unit. */
  lemma IocBudgetRefund(book: Book, s: Symbol, r: Request)
    requires r.orderType == IOC_BUDGET && r.action == BID && PriceCheck(s, r) == VALID_FOR_MATCHING_ENGINE
    ensures NewOrder(book, r).book == book && NewOrder(book, r).events == [Reject(r.price, r.size, r.reserveBidPrice)]
    ensures Refund(s, r, BID, Reject(r.price, r.size, r.reserveBidPrice)) - HoldAmount(s, r)
            == (r.size - 1) * (r.price * s.quoteScaleK)
  {
    hide Match, Budget, Lookup, WithOrder;
    var x := r.price * s.quoteScaleK;
    assert r.size * (x + s.takerFee) - (x + r.size * s.takerFee) == (r.size - 1) * x;
  }

  /** Two units at a price of one: the refund is more than the hold. */
  lemma IocBudgetOverpays(s: Symbol, r: Request)
    requires s == Symbol(CURRENCY_EXCHANGE_PAIR, 1, 2, 1, 1, 0, 0, 0, 0)
    requires r == Request(PLACE_ORDER, 7, 1, 2, 1, BID, IOC_BUDGET, 5, 0, VALID_FOR_MATCHING_ENGINE)
    ensures PriceCheck(s, r) == VALID_FOR_MATCHING_ENGINE && HoldAmount(s, r) == 1
    ensures var o := NewOrder(Book([], []), r);
            |o.events| == 1 && Refund(s, r, BID, o.events[0]) == 2
  {
    hide NewOrder;
    IocBudgetRefund(Book([], []), s, r);
  }

  /** A reachable exchange conserves a currency exactly if and only if no immediate-or-cancel budget bid was refunded
      too much. */
  lemma ConservedExactly(x: State, c: int, marks: Marks)
    requires Invariant(x) && ScalesOk(x.specs)
    ensures Grand(x, c, marks) == 0 <==> forall j | 0 <= j < |x.settling| :: OverpaidOf(x.specs, c)(x.settling[j]) == 0
    ensures 0 <= Grand(x, c, marks)
  {
    hide Grand, Mirrored, BookOk, ShardOk, InflightOk, ChainOk, Overpaid, RequestOk;
    assert Grand(x, c, marks) == Sum(x.settling, OverpaidOf(x.specs, c));
    forall j | 0 <= j < |x.settling| ensures 0 <= OverpaidOf(x.specs, c)(x.settling[j]) {
      OverpaidIs(x.specs[x.settling[j].symbol], x.settling[j].r, c);
    }
    SumIsZero(x.settling, OverpaidOf(x.specs, c));
    SumNonNegative(x.settling, OverpaidOf(x.specs, c));
  }
}
