/** The exchange run by the pipeline: what each handler call does to balances, symbols and books, and that every
    schedule of the pipeline without a reset is a run of the exchange. */
module Deployment {
  import opened Wrappers
  import opened OrderTypes
  import opened BookSpec
  import opened Positions
  import opened RiskSpec
  import opened Sums
  import opened Worth
  import opened Ledger
  import opened Grouping
  import P = Pipeline
  import X = Exchange

  /** What a binary command says once its last frame is in. */
  datatype Message = AddSymbols(symbols: seq<(int, Symbol)>) | AddAccountsOf(accounts: seq<Account>)

  /** What is in the ring buffer. Of the control commands a reset drops all state; the others, with queries and all but
      the last frame of a binary command, change no balance, symbol or book. */
  datatype Command =
    | Trading(symbol: int, r: Request, freeMargin: int)
    | Money(uid: int, currency: int, amount: int, txid: int, kind: AdjustmentType)
    | NewUser(uid: int)
    | SuspendOne(uid: int)
    | ResumeOne(uid: int)
    | Binary(message: Message)
    | Control(control: Kind)

  datatype Setup = Setup(marginEnabled: bool, commands: seq<Command>, engines: nat)

  /** What a matching shard has written into a command. */
  datatype Matched = Matched(r: Request, action: OrderAction, events: seq<Event>)

  /** Risk shards, each with the symbols it knows; order books, each with the symbol it was made for; and the commands
      of the ring buffer as changed by holding and by matching. */
  datatype World = World(shards: seq<Shard>, known: seq<map<int, Symbol>>, listed: map<int, Symbol>, books: map<int,
                         Book>,
                         held: map<int, Request>, matched: map<int, Matched>)

  ghost predicate SetupOk(c: Setup) {
    && 0 < c.engines
    && forall s: nat | s < |c.commands| && c.commands[s].Trading? :: RequestOk(c.commands[s].r)
  }

  ghost predicate NoReset(c: Setup) {
    forall s: nat | s < |c.commands| :: c.commands[s] != Control(RESET)
  }

  function IsPlace(c: Command): bool { c.Trading? && c.r.command == PLACE_ORDER }

  /** The book of a symbol is kept by the matching shard of the remainder of its id. */
  function EngineOf(c: Setup, symbol: int): nat {
    if c.engines == 0 then 0 else symbol % c.engines
  }

  /** How the grouping stage sees a command. */
  function KindOf(c: Command): Kind {
    match c
    case Binary(_) => BINARY(true)
    case Control(control) => control
    case _ => ORDINARY
  }

  // ----- Symbols -----

  function KnownAfter(c: Setup, known: map<int, Symbol>, cmd: Command): map<int, Symbol> {
    match cmd
    case Binary(AddSymbols(symbols)) => AddedTo(known, symbols, c.marginEnabled)
    case Control(control) => if control == RESET then map[] else known
    case _ => known
  }

  /** The symbols known after the first t commands. */
  function KnownAt(c: Setup, t: nat): map<int, Symbol> {
    if t == 0 then map[]
    else if t <= |c.commands| then KnownAfter(c, KnownAt(c, t - 1), c.commands[t - 1])
    else KnownAt(c, t - 1)
  }

  function AllKnown(c: Setup): map<int, Symbol> { KnownAt(c, |c.commands|) }

  lemma {:induction false} AddedKeeps(known: map<int, Symbol>, symbols: seq<(int, Symbol)>, marginEnabled: bool, y: int)
    requires y in known
    ensures y in AddedTo(known, symbols, marginEnabled) && AddedTo(known, symbols, marginEnabled)[y] == known[y]
    decreases |symbols|
  {
    if symbols != [] {
      var (id, s) := symbols[0];
      var refused := id in known || !(s.kind == CURRENCY_EXCHANGE_PAIR || marginEnabled);
      AddedKeeps(if refused then known else known[id := s], symbols[1..], marginEnabled, y);
    }
  }

  /** Whether and as what a symbol is added depends only on what is known of its own id. */
  lemma {:induction false} AddedAlike(known: map<int, Symbol>, known': map<int, Symbol>, symbols: seq<(int, Symbol)>,
                                      marginEnabled: bool, y: int)
    requires (y in known <==> y in known') && (y in known ==> known[y] == known'[y])
    ensures var a, b := AddedTo(known, symbols, marginEnabled), AddedTo(known', symbols, marginEnabled);
            (y in a <==> y in b) && (y in a ==> a[y] == b[y])
    decreases |symbols|
  {
    if symbols != [] {
      var (id, s) := symbols[0];
      var allowed := s.kind == CURRENCY_EXCHANGE_PAIR || marginEnabled;
      AddedAlike(if id in known || !allowed then known else known[id := s],
                 if id in known' || !allowed then known' else known'[id := s],
                 symbols[1..], marginEnabled, y);
    }
  }

  /** Without a reset no symbol is forgotten or changed. */
  lemma {:induction false} KnownGrows(c: Setup, t: nat, u: nat, y: int)
    requires NoReset(c) && t <= u && y in KnownAt(c, t)
    ensures y in KnownAt(c, u) && KnownAt(c, u)[y] == KnownAt(c, t)[y]
  {
    if t < u {
      KnownGrows(c, t, u - 1, y);
      if u <= |c.commands| {
        match c.commands[u - 1] {
          case Binary(AddSymbols(symbols)) => AddedKeeps(KnownAt(c, u - 1), symbols, c.marginEnabled, y);
          case _ =>
        }
      }
    }
  }

  lemma {:induction false} KnownEnds(c: Setup, t: nat)
    requires |c.commands| <= t
    ensures KnownAt(c, t) == AllKnown(c)
  {
    if |c.commands| < t { KnownEnds(c, t - 1); }
  }

  lemma KnownIsAll(c: Setup, t: nat, y: int)
    requires NoReset(c) && y in KnownAt(c, t)
    ensures y in AllKnown(c) && KnownAt(c, t)[y] == AllKnown(c)[y]
  {
    if t <= |c.commands| { KnownGrows(c, t, |c.commands|, y); } else { KnownEnds(c, t); }
  }

  // ----- What a call does -----

  /** A risk shard and the symbols it knows after a hold, and the command if the hold has changed it. */
  datatype Hold = Hold(shard: Shard, known: map<int, Symbol>, r: Option<Request>)

  ghost function HoldOf(c: Setup, sh: Shard, known: map<int, Symbol>, i: nat, shards: nat, s: nat): Hold
    requires i < shards && s < |c.commands|
  {
    match c.commands[s]
    case Trading(symbol, r, freeMargin) =>
      if r.command == PLACE_ORDER && ShardOf(r.uid, shards) == i then
        var (after, code) := PlaceOrderRiskCheck(sh, known, c.marginEnabled, symbol, r, freeMargin);
        Hold(after, known, Some(r.(resultCode := code)))
      else Hold(sh, known, None)
    case Money(uid, currency, amount, txid, kind) =>
      Hold(if ShardOf(uid, shards) == i then AdjustBalance(sh, uid, currency, amount, txid, kind).0 else sh, known,
           None)
    case NewUser(uid) => Hold(if ShardOf(uid, shards) == i then AddUser(sh, uid).0 else sh, known, None)
    case SuspendOne(uid) => Hold(if ShardOf(uid, shards) == i then SuspendUser(sh, uid).0 else sh, known, None)
    case ResumeOne(uid) => Hold(if ShardOf(uid, shards) == i then ResumeUser(sh, uid).0 else sh, known, None)
    case Binary(AddSymbols(symbols)) => Hold(sh, AddedTo(known, symbols, c.marginEnabled), None)
    case Binary(AddAccountsOf(accounts)) => Hold(AddAccounts(sh, accounts), known, None)
    case Control(control) => if control == RESET then Hold(NoUsers(), map[], None) else Hold(sh, known, None)
  }

  ghost function HoldCall(c: Setup, w: World, i: nat, s: nat): World
    requires i < |w.shards| == |w.known| && s < |c.commands|
  {
    var o := HoldOf(c, w.shards[i], w.known[i], i, |w.shards|, s);
    w.(shards := w.shards[i := o.shard], known := w.known[i := o.known],
       held := if o.r.Some? then w.held[s := o.r.value] else w.held)
  }

  /** The request as the matching shard finds it: a new order with the code of its hold. */
  function RequestAt(c: Setup, w: World, s: nat): Request
    requires s < |c.commands| && c.commands[s].Trading?
  {
    if IsPlace(c.commands[s]) && s in w.held then w.held[s] else c.commands[s].r
  }

  /** The symbols with a book after matching shard j has listed some. */
  function ListedBy(c: Setup, w: World, j: nat, symbols: seq<(int, Symbol)>): map<int, Symbol> {
    var more := AddedTo(w.listed, symbols, c.marginEnabled);
    map y: int | y in more && (y in w.listed || EngineOf(c, y) == j) :: more[y]
  }

  function NewBooks(w: World, listed: map<int, Symbol>): map<int, Book> {
    map y: int | y in listed && y !in w.listed :: Book([], [])
  }

  function BookIn(w: World, y: int): Book {
    if y in w.books then w.books[y] else Book([], [])
  }

  /** Matching, listing or dropping by matching shard j; a command whose symbol has no book is refused. */
  function MatchCall(c: Setup, w: World, j: nat, s: nat): World
    requires s < |c.commands|
  {
    match c.commands[s]
    case Trading(symbol, _, _) =>
      if EngineOf(c, symbol) == j && symbol in w.books && symbol in w.listed then
        var r := RequestAt(c, w, s);
        var o := Step(w.books[symbol], w.listed[symbol].kind, r);
        w.(books := w.books[symbol := o.book], matched := w.matched[s := Matched(r, o.action, o.events)])
      else w
    case Binary(AddSymbols(symbols)) =>
      var listed := ListedBy(c, w, j, symbols);
      w.(listed := listed, books := w.books + NewBooks(w, listed))
    case Control(control) =>
      if control == RESET then
        w.(listed := map y: int | y in w.listed && EngineOf(c, y) != j :: w.listed[y],
           books := map y: int | y in w.books && EngineOf(c, y) != j :: w.books[y])
      else w
    case _ => w
  }

  /** What a matched command makes of a shard; None stands for the exception raised when its symbol or a record is
      missing. */
  ghost function SettleOf(c: Setup, sh: Shard, known: map<int, Symbol>, i: nat, shards: nat, symbol: int,
                          m: Matched): Option<Shard> {
    if symbol in known then Settle(sh, Handler(i, shards), symbol, known[symbol], m.r, m.action, m.events) else None
  }

  ghost predicate SettleFails(c: Setup, w: World, i: nat, s: nat)
    requires i < |w.shards| == |w.known| && s < |c.commands|
  {
    && s in w.matched && c.commands[s].Trading?
    && SettleOf(c, w.shards[i], w.known[i], i, |w.shards|, c.commands[s].symbol, w.matched[s]).None?
  }

  ghost function SettleCall(c: Setup, w: World, i: nat, s: nat): World
    requires i < |w.shards| == |w.known| && s < |c.commands|
  {
    if s in w.matched && c.commands[s].Trading? && !SettleFails(c, w, i, s) then
      var after := SettleOf(c, w.shards[i], w.known[i], i, |w.shards|, c.commands[s].symbol, w.matched[s]);
      w.(shards := w.shards[i := after.value])
    else w
  }

  ghost function Effect(c: Setup, w: World, x: P.Handled): (w': World)
    requires |w.shards| == |w.known|
    ensures |w'.shards| == |w'.known| == |w.shards|
  {
    if x.s >= |c.commands| then w
    else
      match x.stage
      case R1(i) => if i < |w.shards| then HoldCall(c, w, i, x.s) else w
      case ME(j) => MatchCall(c, w, j, x.s)
      case R2(i) => if i < |w.shards| then SettleCall(c, w, i, x.s) else w
  }

  /** Nobody is known and nothing is listed. */
  function Begin(shards: nat): World {
    World(seq(shards, _ => NoUsers()), seq(shards, _ => map[]), map[], map[], map[], map[])
  }

  /** The world after the calls of a history. */
  ghost function After(c: Setup, shards: nat, h: seq<P.Handled>): (w: World)
    ensures |w.shards| == |w.known| == shards
  {
    if h == [] then Begin(shards) else Effect(c, After(c, shards, h[..|h| - 1]), h[|h| - 1])
  }

  lemma AfterOne(c: Setup, shards: nat, h: seq<P.Handled>, x: P.Handled)
    ensures After(c, shards, h + [x]) == Effect(c, After(c, shards, h), x)
  {
    assert (h + [x])[..|h|] == h;
  }

  // ----- Every schedule of the pipeline is a run of the exchange -----

  /** The commands that wait for their book, and those matched, in the order in which the exchange keeps them. */
  datatype Queues = Queues(waiting: seq<nat>, done: seq<nat>)

  ghost function OverpaidBy(c: Setup, cur: int): (int, Matched) -> int {
    (s: int, m: Matched) =>
      if 0 <= s < |c.commands| && c.commands[s].Trading? && c.commands[s].symbol in AllKnown(c)
      then X.Overpaid(AllKnown(c)[c.commands[s].symbol], m.r, cur) else 0
  }

  ghost predicate Distinct(q: seq<nat>) {
    forall k, l | 0 <= k < l < |q| :: q[k] != q[l]
  }

  /** A command for a symbol that was listed before it. */
  ghost predicate Listed(c: Setup, s: nat)
    requires s < |c.commands|
  {
    c.commands[s].Trading? && c.commands[s].symbol in KnownAt(c, s)
  }

  /** The calls made for command s by the stage that holds it and by the stage that matches it. */
  ghost predicate IsHeld(c: Setup, h: seq<P.Handled>, shards: nat, s: nat)
    requires s < |c.commands| && 0 < shards
  {
    IsPlace(c.commands[s]) && s < P.Done(h, P.R1(ShardOf(c.commands[s].r.uid, shards)))
  }

  ghost predicate IsSeen(c: Setup, h: seq<P.Handled>, s: nat)
    requires s < |c.commands| && c.commands[s].Trading?
  {
    s < P.Done(h, P.ME(EngineOf(c, c.commands[s].symbol)))
  }

  /** The commands waiting in the exchange are those held, for a symbol that was listed, and not yet seen by their
      matching shard. */
  ghost predicate WaitingIs(c: Setup, w: World, h: seq<P.Handled>, x: X.State, waiting: seq<nat>)
    requires x.shards != []
  {
    && |waiting| == |x.inflight| && Distinct(waiting)
    && (forall k | 0 <= k < |waiting| ::
          && waiting[k] < |c.commands| && IsPlace(c.commands[waiting[k]]) && waiting[k] in w.held
          && x.inflight[k] == X.Inflight(c.commands[waiting[k]].symbol, w.held[waiting[k]]))
    && (forall s: int :: s in w.held <==> 0 <= s < |c.commands| && IsHeld(c, h, |x.shards|, s))
    && (forall s: nat :: s in waiting <==>
          s < |c.commands| && s in w.held && IsPlace(c.commands[s]) && Listed(c, s) && !IsSeen(c, h, s))
  }

  ghost predicate Unsettled(h: seq<P.Handled>, x: X.State, s: nat, left: set<nat>) {
    forall i: nat :: i in left <==> i < |x.shards| && P.Done(h, P.R2(i)) <= s
  }

  /** The commands the exchange has still to settle are those matched, with the shards that have not settled them. */
  ghost predicate DoneIs(c: Setup, w: World, h: seq<P.Handled>, x: X.State, done: seq<nat>) {
    && |done| == |x.settling| && Distinct(done)
    && (forall k | 0 <= k < |done| ::
          && done[k] < |c.commands| && Listed(c, done[k]) && done[k] in w.matched && IsSeen(c, h, done[k])
          && x.settling[k].symbol == c.commands[done[k]].symbol
          && Matched(x.settling[k].r, x.settling[k].action, x.settling[k].events) == w.matched[done[k]]
          && Unsettled(h, x, done[k], x.settling[k].left))
    && (forall s: int <- w.matched :: 0 <= s && s in done)
  }

  ghost predicate OverpaidIs(c: Setup, w: World, x: X.State) {
    forall cur: int :: Sum(x.settling, X.OverpaidOf(AllKnown(c), cur)) == Total(w.matched, OverpaidBy(c, cur))
  }

  /** A risk shard knows the symbols of the commands it has held. */
  ghost predicate KnownIs(c: Setup, w: World, h: seq<P.Handled>) {
    forall i: nat | i < |w.known| :: w.known[i] == KnownAt(c, P.Done(h, P.R1(i)))
  }

  /** A matching shard has a book for every symbol of the commands it has seen; the exchange has one, empty as yet, for
      the others. */
  ghost predicate BooksIs(c: Setup, w: World, h: seq<P.Handled>, x: X.State) {
    && (forall y: int :: y in w.listed <==> y in w.books)
    && (forall y: int :: y in w.books <==> y in KnownAt(c, P.Done(h, P.ME(EngineOf(c, y)))))
    && (forall y: int <- w.listed :: y in AllKnown(c) && w.listed[y] == AllKnown(c)[y])
    && (forall y: int <- x.books :: x.books[y] == BookIn(w, y))
  }

  ghost predicate Simulates(c: Setup, w: World, h: seq<P.Handled>, x: X.State, q: Queues) {
    && X.Invariant(x) && x.specs == AllKnown(c) && x.marginEnabled == c.marginEnabled
    && x.shards == w.shards && |w.known| == |w.shards| && x.shards != []
    && KnownIs(c, w, h) && BooksIs(c, w, h, x)
    && WaitingIs(c, w, h, x, q.waiting) && DoneIs(c, w, h, x, q.done) && OverpaidIs(c, w, x)
  }

  // ----- Stages follow each other in a history -----

  lemma {:induction false} MatchedAfterHeld(h: seq<P.Handled>, shards: nat, engines: nat, groups: seq<int>, j: nat,
                                            i: nat)
    requires P.HistoryOk(h, shards, engines, groups) && i < shards
    ensures P.Done(h, P.ME(j)) <= P.Done(h, P.R1(i))
  {
    if h != [] {
      var n := |h| - 1;
      assert P.CallOk(h[..n], h[n], shards, engines, groups);
      P.PrefixOk(h, n, shards, engines, groups);
      MatchedAfterHeld(h[..n], shards, engines, groups, j, i);
    }
  }

  lemma {:induction false} SettledAfterMatched(h: seq<P.Handled>, shards: nat, engines: nat, groups: seq<int>, i: nat,
                                               j: nat)
    requires P.HistoryOk(h, shards, engines, groups) && j < engines
    ensures P.Done(h, P.R2(i)) <= P.Done(h, P.ME(j))
  {
    if h != [] {
      var n := |h| - 1;
      assert P.CallOk(h[..n], h[n], shards, engines, groups);
      P.PrefixOk(h, n, shards, engines, groups);
      SettledAfterMatched(h[..n], shards, engines, groups, i, j);
    }
  }

  // ----- Holding -----

  /** A call of a hold stage moves no count but its own. */
  lemma HoldCounts(c: Setup, h: seq<P.Handled>, i: nat, s: nat, shards: nat)
    requires s == P.Done(h, P.R1(i)) && 0 < shards
    ensures var h' := h + [P.Handled(P.R1(i), s)];
            && (forall t: nat | t < |c.commands| && c.commands[t].Trading? :: IsSeen(c, h', t) <==> IsSeen(c, h, t))
            && (forall t: nat | t < |c.commands| :: IsHeld(c, h', shards, t) <==>
                  IsHeld(c, h, shards, t)
                      || (t == s && IsPlace(c.commands[t]) && ShardOf(c.commands[t].r.uid, shards) == i))
            && (forall k: nat :: P.Done(h', P.R2(k)) == P.Done(h, P.R2(k)) && P.Done(h', P.ME(k)) == P.Done(h, P.ME(k)))
            && forall k: nat :: P.Done(h', P.R1(k)) == P.Done(h, P.R1(k)) + if k == i then 1 else 0
  {
    hide P.Done;
    var x := P.Handled(P.R1(i), s);
    forall stage: P.Stage ensures P.Done(h + [x], stage) == P.Done(h, stage) + if stage == P.R1(i) then 1 else 0 {
      P.DoneAppend(h, x, stage);
    }
  }

  lemma SameDone(c: Setup, w: World, h: seq<P.Handled>, x: X.State, done: seq<nat>, w': World, h': seq<P.Handled>,
                 x': X.State)
    requires DoneIs(c, w, h, x, done) && w'.matched == w.matched && x'.settling == x.settling
             && |x'.shards| == |x.shards|
    requires forall t: nat | t < |c.commands| && c.commands[t].Trading? :: IsSeen(c, h', t) <==> IsSeen(c, h, t)
    requires forall k: nat :: P.Done(h', P.R2(k)) == P.Done(h, P.R2(k))
    ensures DoneIs(c, w', h', x', done)
  {
    hide P.Done, IsSeen, KnownAt;
    forall k | 0 <= k < |done| ensures Unsettled(h', x', done[k], x'.settling[k].left) {
      assert Unsettled(h, x, done[k], x.settling[k].left);
    }
  }

  lemma SameBooks(c: Setup, w: World, h: seq<P.Handled>, x: X.State, w': World, h': seq<P.Handled>, x': X.State)
    requires BooksIs(c, w, h, x) && w'.books == w.books && w'.listed == w.listed && x'.books == x.books
    requires forall k: nat :: P.Done(h', P.ME(k)) == P.Done(h, P.ME(k))
    ensures BooksIs(c, w', h', x')
  {
    hide P.Done, KnownAt;
    forall y: int ensures y in w'.books <==> y in KnownAt(c, P.Done(h', P.ME(EngineOf(c, y)))) {
      assert P.Done(h', P.ME(EngineOf(c, y))) == P.Done(h, P.ME(EngineOf(c, y)));
    }
  }

  lemma SameKnown(c: Setup, w: World, h: seq<P.Handled>, w': World, h': seq<P.Handled>)
    requires KnownIs(c, w, h) && w'.known == w.known
    requires forall k: nat :: P.Done(h', P.R1(k)) == P.Done(h, P.R1(k))
    ensures KnownIs(c, w', h')
  {
    hide P.Done, KnownAt;
    forall i: nat | i < |w'.known| ensures w'.known[i] == KnownAt(c, P.Done(h', P.R1(i))) {
      assert P.Done(h', P.R1(i)) == P.Done(h, P.R1(i));
    }
  }

  /** A hold gives its shard the symbols of one more command. */
  lemma HeldKnown(c: Setup, w: World, h: seq<P.Handled>, i: nat, s: nat)
    requires KnownIs(c, w, h) && i < |w.shards| == |w.known| && s < |c.commands| && s == P.Done(h, P.R1(i))
    ensures KnownIs(c, HoldCall(c, w, i, s), h + [P.Handled(P.R1(i), s)])
  {
    hide P.Done, AddedTo, PlaceOrderRiskCheck, AdjustBalance, AddUser, SuspendUser, ResumeUser, AddAccounts;
    var w', h' := HoldCall(c, w, i, s), h + [P.Handled(P.R1(i), s)];
    HoldCounts(c, h, i, s, |w.shards|);
    assert w'.known[i] == KnownAt(c, s + 1);
    forall k: nat | k < |w'.known| ensures w'.known[k] == KnownAt(c, P.Done(h', P.R1(k))) {
      assert P.Done(h', P.R1(k)) == P.Done(h, P.R1(k)) + if k == i then 1 else 0;
      if k != i { assert w'.known[k] == w.known[k]; }
    }
  }

  /** The check reads nothing of the symbols but the order's own. */
  lemma CheckReads(sh: Shard, known: map<int, Symbol>, all: map<int, Symbol>, marginEnabled: bool, symbol: int,
                   r: Request, freeMargin: int)
    ensures symbol in known && symbol in all && known[symbol] == all[symbol] ==>
              PlaceOrderRiskCheck(sh, known, marginEnabled, symbol, r, freeMargin)
              == PlaceOrderRiskCheck(sh, all, marginEnabled, symbol, r, freeMargin)
    ensures symbol !in known ==> PlaceOrderRiskCheck(sh, known, marginEnabled, symbol, r, freeMargin).0 == sh
  {
    hide PlaceOrder;
  }

  /** A hold in shard i, of an order for a symbol that is listed, is a submission to the exchange. */
  lemma PlaceHeld(c: Setup, w: World, h: seq<P.Handled>, x: X.State, q: Queues, i: nat, s: nat) returns (x': X.State)
    requires SetupOk(c) && NoReset(c) && Simulates(c, w, h, x, q) && s < |c.commands| && i < |x.shards|
             && s == P.Done(h, P.R1(i))
    requires IsPlace(c.commands[s]) && Listed(c, s) && ShardOf(c.commands[s].r.uid, |x.shards|) == i && !IsSeen(c, h, s)
    ensures Simulates(c, HoldCall(c, w, i, s), h + [P.Handled(P.R1(i), s)], x', Queues(q.waiting + [s], q.done))
    ensures X.Next(x, X.Submit(c.commands[s].symbol, c.commands[s].r, c.commands[s].freeMargin)) == Some(x')
  {
    hide X.Invariant, P.Done, IsSeen, IsHeld, PlaceOrderRiskCheck, OverpaidIs, DoneIs, KnownIs, BooksIs, KnownAt;
    var cmd := c.commands[s];
    var w', h' := HoldCall(c, w, i, s), h + [P.Handled(P.R1(i), s)];
    HoldCounts(c, h, i, s, |x.shards|);
    HeldKnown(c, w, h, i, s);
    assert w.known[i] == KnownAt(c, s) by { KnownHere(c, w, h, i); }
    KnownIsAll(c, s, cmd.symbol);
    CheckReads(w.shards[i], w.known[i], AllKnown(c), c.marginEnabled, cmd.symbol, cmd.r, cmd.freeMargin);
    var a := X.Submit(cmd.symbol, cmd.r, cmd.freeMargin);
    X.NextKeeps(x, a);
    x' := X.Next(x, a).value;
    SameDone(c, w, h, x, q.done, w', h', x');
    SameBooks(c, w, h, x, w', h', x');
    assert OverpaidIs(c, w', x') by { SameOverpaid(c, w, x, w', x'); }
    PlaceWaits(c, w, h, x, q.waiting, i, s, w', h', x');
  }

  lemma PlaceWaits(c: Setup, w: World, h: seq<P.Handled>, x: X.State, waiting: seq<nat>, i: nat, s: nat, w': World,
                   h': seq<P.Handled>, x': X.State)
    requires x.shards != [] && WaitingIs(c, w, h, x, waiting) && s < |c.commands| && s == P.Done(h, P.R1(i))
             && |x'.shards| == |x.shards|
    requires IsPlace(c.commands[s]) && Listed(c, s) && ShardOf(c.commands[s].r.uid, |x.shards|) == i && !IsSeen(c, h, s)
    requires h' == h + [P.Handled(P.R1(i), s)] && s in w'.held && w'.held == w.held[s := w'.held[s]]
    requires x'.inflight == x.inflight + [X.Inflight(c.commands[s].symbol, w'.held[s])]
    ensures WaitingIs(c, w', h', x', waiting + [s])
  {
    hide P.Done, IsSeen, IsHeld, Listed;
    HoldCounts(c, h, i, s, |x.shards|);
    NotHeldYet(c, h, i, s, |x.shards|);
    assert s !in waiting;
    var more := waiting + [s];
    forall t: nat
      ensures t in more <==>
                t < |c.commands| && t in w'.held && IsPlace(c.commands[t]) && Listed(c, t) && !IsSeen(c, h', t)
    {
      assert t in more <==> t == s || t in waiting;
    }
  }

  lemma KnownHere(c: Setup, w: World, h: seq<P.Handled>, i: nat)
    requires KnownIs(c, w, h) && i < |w.known|
    ensures w.known[i] == KnownAt(c, P.Done(h, P.R1(i)))
  {
  }

  lemma NotHeldYet(c: Setup, h: seq<P.Handled>, i: nat, s: nat, shards: nat)
    requires s < |c.commands| && 0 < shards && s == P.Done(h, P.R1(i)) && IsPlace(c.commands[s])
    requires ShardOf(c.commands[s].r.uid, shards) == i
    ensures !IsHeld(c, h, shards, s)
  {
  }

  lemma SameOverpaid(c: Setup, w: World, x: X.State, w': World, x': X.State)
    requires OverpaidIs(c, w, x) && w'.matched == w.matched && x'.settling == x.settling
    ensures OverpaidIs(c, w', x')
  {
  }

  lemma Adjusted(x: X.State, uid: int, currency: int, amount: int, txid: int, kind: AdjustmentType)
    requires X.Invariant(x) && x.shards != []
    ensures var k := ShardOf(uid, |x.shards|);
            var y := x.(shards := x.shards[k := AdjustBalance(x.shards[k], uid, currency, amount, txid, kind).0]);
            X.Invariant(y) && X.Next(x, X.Adjust(uid, currency, amount, txid, kind)) == Some(y)
  {
    hide X.Invariant, AdjustBalance;
    X.NextKeeps(x, X.Adjust(uid, currency, amount, txid, kind));
  }

  lemma UserChanged(x: X.State, uid: int)
    requires X.Invariant(x) && x.shards != []
    ensures var k := ShardOf(uid, |x.shards|);
            var added := x.(shards := x.shards[k := AddUser(x.shards[k], uid).0]);
            var suspended := x.(shards := x.shards[k := SuspendUser(x.shards[k], uid).0]);
            var resumed := x.(shards := x.shards[k := ResumeUser(x.shards[k], uid).0]);
            && X.Invariant(added) && X.Next(x, X.CreateUser(uid)) == Some(added)
            && X.Invariant(suspended) && X.Next(x, X.Suspend(uid)) == Some(suspended)
            && X.Invariant(resumed) && X.Next(x, X.Resume(uid)) == Some(resumed)
  {
    hide X.Invariant, AddUser, SuspendUser, ResumeUser;
    X.NextKeeps(x, X.CreateUser(uid));
    X.NextKeeps(x, X.Suspend(uid));
    X.NextKeeps(x, X.Resume(uid));
  }

  lemma Batched(x: X.State, i: nat, accounts: seq<Account>)
    requires X.Invariant(x) && i < |x.shards|
    ensures var y := x.(shards := x.shards[i := AddAccounts(x.shards[i], accounts)]);
            X.Invariant(y) && X.Next(x, X.Batch(i, accounts)) == Some(y)
  {
    hide X.Invariant, AddAccounts;
    X.NextKeeps(x, X.Batch(i, accounts));
  }

  /** The step of the exchange for a call of shard i on users or balances. */
  ghost function AdminOf(cmd: Command, i: nat, shards: nat): Option<X.Action>
    requires i < shards
  {
    match cmd
    case Money(uid, currency, amount, txid, kind) =>
      if ShardOf(uid, shards) == i then Some(X.Adjust(uid, currency, amount, txid, kind)) else None
    case NewUser(uid) => if ShardOf(uid, shards) == i then Some(X.CreateUser(uid)) else None
    case SuspendOne(uid) => if ShardOf(uid, shards) == i then Some(X.Suspend(uid)) else None
    case ResumeOne(uid) => if ShardOf(uid, shards) == i then Some(X.Resume(uid)) else None
    case Binary(AddAccountsOf(accounts)) => Some(X.Batch(i, accounts))
    case _ => None
  }

  /** An operation on users or balances is the exchange's; a call for a command of another shard, or for an order whose
      symbol is not listed, changes no account. */
  lemma Administered(c: Setup, w: World, x: X.State, i: nat, s: nat) returns (x': X.State)
    requires X.Invariant(x) && x.shards == w.shards && i < |x.shards| == |w.known| && s < |c.commands|
             && c.commands[s] != Control(RESET)
    requires IsPlace(c.commands[s]) && ShardOf(c.commands[s].r.uid, |x.shards|) == i ==>
               c.commands[s].symbol !in w.known[i]
    ensures X.Invariant(x') && HoldCall(c, w, i, s).shards == x'.shards && x' == x.(shards := x'.shards)
            && |x'.shards| == |x.shards|
    ensures var a := AdminOf(c.commands[s], i, |x.shards|); if a.Some? then X.Next(x, a.value) == Some(x') else x' == x
  {
    hide X.Invariant, X.Next, AdjustBalance, AddUser, SuspendUser, ResumeUser, AddAccounts, PlaceOrderRiskCheck;
    x' := x.(shards := HoldCall(c, w, i, s).shards);
    assert x.shards[i := x.shards[i]] == x.shards;
    match c.commands[s] {
      case Trading(symbol, r, freeMargin) =>
        CheckReads(w.shards[i], w.known[i], map[], c.marginEnabled, symbol, r, freeMargin);
      case Money(uid, currency, amount, txid, kind) => Adjusted(x, uid, currency, amount, txid, kind);
      case NewUser(uid) => UserChanged(x, uid);
      case SuspendOne(uid) => UserChanged(x, uid);
      case ResumeOne(uid) => UserChanged(x, uid);
      case Binary(AddAccountsOf(accounts)) => Batched(x, i, accounts);
      case _ =>
    }
  }

  /** Nothing is queued by them. */
  lemma OtherHeld(c: Setup, w: World, h: seq<P.Handled>, x: X.State, q: Queues, i: nat, s: nat) returns (x': X.State)
    requires SetupOk(c) && NoReset(c) && Simulates(c, w, h, x, q) && s < |c.commands| && i < |x.shards|
             && s == P.Done(h, P.R1(i))
    requires IsPlace(c.commands[s]) && ShardOf(c.commands[s].r.uid, |x.shards|) == i ==> !Listed(c, s)
    ensures Simulates(c, HoldCall(c, w, i, s), h + [P.Handled(P.R1(i), s)], x', q)
    ensures var a := AdminOf(c.commands[s], i, |x.shards|); if a.Some? then X.Next(x, a.value) == Some(x') else x' == x
  {
    hide X.Invariant, X.Next, P.Done, IsSeen, IsHeld, OverpaidIs, DoneIs, HoldCall, KnownIs, BooksIs, KnownAt,
         WaitingIs,
         AdminOf;
    var w', h' := HoldCall(c, w, i, s), h + [P.Handled(P.R1(i), s)];
    assert w.known[i] == KnownAt(c, s) by { KnownHere(c, w, h, i); }
    x' := Administered(c, w, x, i, s);
    HoldCounts(c, h, i, s, |x.shards|);
    HeldKnown(c, w, h, i, s);
    HoldLeaves(c, w, i, s);
    SameDone(c, w, h, x, q.done, w', h', x');
    SameBooks(c, w, h, x, w', h', x');
    SameOverpaid(c, w, x, w', x');
    OtherWaits(c, w, h, x, q.waiting, i, s, w', h', x');
  }

  lemma HoldLeaves(c: Setup, w: World, i: nat, s: nat)
    requires i < |w.shards| == |w.known| && s < |c.commands|
    ensures var w' := HoldCall(c, w, i, s);
            && w'.matched == w.matched && w'.books == w.books && w'.listed == w.listed && |w'.known| == |w.known|
            && (if IsPlace(c.commands[s]) && ShardOf(c.commands[s].r.uid, |w.shards|) == i
                then s in w'.held && w'.held == w.held[s := w'.held[s]] else w'.held == w.held)
  {
    hide PlaceOrderRiskCheck, AddedTo, AdjustBalance, AddUser, SuspendUser, ResumeUser, AddAccounts;
  }

  lemma OtherWaits(c: Setup, w: World, h: seq<P.Handled>, x: X.State, waiting: seq<nat>, i: nat, s: nat, w': World,
                   h': seq<P.Handled>, x': X.State)
    requires x.shards != [] && WaitingIs(c, w, h, x, waiting) && s < |c.commands| && s == P.Done(h, P.R1(i))
             && |x'.shards| == |x.shards|
    requires IsPlace(c.commands[s]) && ShardOf(c.commands[s].r.uid, |x.shards|) == i ==> !Listed(c, s)
    requires h' == h + [P.Handled(P.R1(i), s)] && x'.inflight == x.inflight
    requires if IsPlace(c.commands[s]) && ShardOf(c.commands[s].r.uid, |x.shards|) == i
             then s in w'.held && w'.held == w.held[s := w'.held[s]] else w'.held == w.held
    ensures WaitingIs(c, w', h', x', waiting)
  {
    hide P.Done, IsSeen, IsHeld, Listed;
    HoldCounts(c, h, i, s, |x.shards|);
  }

  // ----- Matching -----

  lemma MatchCounts(c: Setup, h: seq<P.Handled>, j: nat, s: nat, shards: nat)
    requires s == P.Done(h, P.ME(j)) && 0 < shards
    ensures var h' := h + [P.Handled(P.ME(j), s)];
            && (forall t: nat | t < |c.commands| && c.commands[t].Trading? :: IsSeen(c, h', t) <==>
                  IsSeen(c, h, t) || (t == s && EngineOf(c, c.commands[t].symbol) == j))
            && (forall t: nat | t < |c.commands| :: IsHeld(c, h', shards, t) <==> IsHeld(c, h, shards, t))
            && (forall k: nat :: P.Done(h', P.R2(k)) == P.Done(h, P.R2(k)) && P.Done(h', P.R1(k)) == P.Done(h, P.R1(k)))
            && (forall k: nat :: P.Done(h', P.ME(k)) == P.Done(h, P.ME(k)) + if k == j then 1 else 0)
    ensures s < |c.commands| && c.commands[s].Trading? && EngineOf(c, c.commands[s].symbol) == j ==> !IsSeen(c, h, s)
  {
    hide P.Done;
    var x := P.Handled(P.ME(j), s);
    forall stage: P.Stage ensures P.Done(h + [x], stage) == P.Done(h, stage) + if stage == P.ME(j) then 1 else 0 {
      P.DoneAppend(h, x, stage);
    }
  }

  /** A matching shard has a book for the symbol of the command it is called for exactly when the symbol is listed. */
  lemma BookThere(c: Setup, w: World, h: seq<P.Handled>, x: X.State, j: nat, s: nat)
    requires NoReset(c) && BooksIs(c, w, h, x) && x.specs == AllKnown(c)
    requires s < |c.commands| && s == P.Done(h, P.ME(j)) && c.commands[s].Trading?
             && EngineOf(c, c.commands[s].symbol) == j
    ensures var y := c.commands[s].symbol;
            && (Listed(c, s) <==> y in w.books) && (y in w.books <==> y in w.listed)
            && (y in w.listed ==> y in x.specs && w.listed[y] == x.specs[y])
  {
    hide P.Done, KnownAt;
  }

  /** Matching a command with one book changed keeps the books those of the exchange. */
  lemma BooksMatched(c: Setup, w: World, h: seq<P.Handled>, x: X.State, j: nat, s: nat, book: Book, w': World,
                     x': X.State)
    requires BooksIs(c, w, h, x) && s < |c.commands| && s == P.Done(h, P.ME(j)) && c.commands[s].Trading?
    requires KnownAt(c, s + 1) == KnownAt(c, s) && c.commands[s].symbol in w.books && w'.listed == w.listed
    requires w'.books == w.books[c.commands[s].symbol := book]
    requires x'.books == x.books[c.commands[s].symbol := book]
    ensures BooksIs(c, w', h + [P.Handled(P.ME(j), s)], x')
  {
    hide P.Done, KnownAt, AllKnown;
    var h' := h + [P.Handled(P.ME(j), s)];
    MatchCounts(c, h, j, s, 1);
    forall y: int ensures y in w'.books <==> y in KnownAt(c, P.Done(h', P.ME(EngineOf(c, y)))) {
      assert P.Done(h', P.ME(EngineOf(c, y))) == P.Done(h, P.ME(EngineOf(c, y))) + if EngineOf(c, y) == j then 1 else 0;
      assert y in w.books <==> y in KnownAt(c, P.Done(h, P.ME(EngineOf(c, y))));
    }
  }

  /** So does a command that changes no book. */
  lemma BooksSeen(c: Setup, w: World, h: seq<P.Handled>, x: X.State, j: nat, s: nat, x': X.State)
    requires BooksIs(c, w, h, x) && s < |c.commands| && s == P.Done(h, P.ME(j)) && KnownAt(c, s + 1) == KnownAt(c, s)
             && x'.books == x.books
    ensures BooksIs(c, w, h + [P.Handled(P.ME(j), s)], x')
  {
    hide P.Done, KnownAt;
    var h' := h + [P.Handled(P.ME(j), s)];
    MatchCounts(c, h, j, s, 1);
    forall y: int ensures y in w.books <==> y in KnownAt(c, P.Done(h', P.ME(EngineOf(c, y)))) {
      assert P.Done(h', P.ME(EngineOf(c, y))) == P.Done(h, P.ME(EngineOf(c, y))) + if EngineOf(c, y) == j then 1 else 0;
      assert y in w.books <==> y in KnownAt(c, P.Done(h, P.ME(EngineOf(c, y))));
    }
  }

  /** And listing gives the matching shard the books of the symbols that are then known. */
  lemma BooksListed(c: Setup, w: World, h: seq<P.Handled>, x: X.State, j: nat, s: nat, symbols: seq<(int, Symbol)>)
    requires NoReset(c) && BooksIs(c, w, h, x) && s < |c.commands| && s == P.Done(h, P.ME(j))
    requires c.commands[s] == Binary(AddSymbols(symbols))
    ensures BooksIs(c, MatchCall(c, w, j, s), h + [P.Handled(P.ME(j), s)], x)
  {
    hide P.Done, AddedTo, KnownAt, AllKnown, ListedBy;
    var w', h' := MatchCall(c, w, j, s), h + [P.Handled(P.ME(j), s)];
    MatchCounts(c, h, j, s, 1);
    KnownNext(c, s, symbols);
    forall y: int
      ensures y in w'.listed <==> y in KnownAt(c, P.Done(h', P.ME(EngineOf(c, y))))
      ensures y in w'.listed ==> y in AllKnown(c) && w'.listed[y] == AllKnown(c)[y]
    {
      ListedOne(c, w, h, x, j, s, symbols, y);
      assert P.Done(h', P.ME(EngineOf(c, y))) == P.Done(h, P.ME(EngineOf(c, y))) + if EngineOf(c, y) == j then 1 else 0;
    }
    BooksStay(c, w, h, x, j, symbols, w');
    BooksAgain(c, w', h', x);
  }

  lemma KnownNext(c: Setup, s: nat, symbols: seq<(int, Symbol)>)
    requires s < |c.commands| && c.commands[s] == Binary(AddSymbols(symbols))
    ensures KnownAt(c, s + 1) == AddedTo(KnownAt(c, s), symbols, c.marginEnabled)
  {
    hide AddedTo;
  }

  lemma BooksAgain(c: Setup, w: World, h: seq<P.Handled>, x: X.State)
    requires forall y: int :: y in w.listed <==> y in w.books
    requires forall y: int :: y in w.listed <==> y in KnownAt(c, P.Done(h, P.ME(EngineOf(c, y))))
    requires forall y: int <- w.listed :: y in AllKnown(c) && w.listed[y] == AllKnown(c)[y]
    requires forall y: int <- x.books :: x.books[y] == BookIn(w, y)
    ensures BooksIs(c, w, h, x)
  {
    hide P.Done, KnownAt, AllKnown;
  }

  lemma BooksStay(c: Setup, w: World, h: seq<P.Handled>, x: X.State, j: nat, symbols: seq<(int, Symbol)>, w': World)
    requires BooksIs(c, w, h, x) && w'.listed == ListedBy(c, w, j, symbols)
    requires w'.books == w.books + NewBooks(w, w'.listed)
    ensures forall y: int <- x.books :: x.books[y] == BookIn(w', y)
    ensures forall y: int :: y in w'.listed <==> y in w'.books
  {
    hide P.Done, AddedTo, KnownAt, AllKnown;
    forall y: int ensures y in w.listed ==> y in w'.listed {
      if y in w.listed { AddedKeeps(w.listed, symbols, c.marginEnabled, y); }
    }
  }

  lemma ListedOne(c: Setup, w: World, h: seq<P.Handled>, x: X.State, j: nat, s: nat, symbols: seq<(int, Symbol)>,
                  y: int)
    requires NoReset(c) && BooksIs(c, w, h, x) && s < |c.commands| && s == P.Done(h, P.ME(j))
    requires KnownAt(c, s + 1) == AddedTo(KnownAt(c, s), symbols, c.marginEnabled)
    ensures var listed := ListedBy(c, w, j, symbols);
            && (y in listed <==> y in KnownAt(c,
                                              if EngineOf(c, y) == j then s + 1 else P.Done(h, P.ME(EngineOf(c, y)))))
            && (y in listed ==> y in AllKnown(c) && listed[y] == AllKnown(c)[y])
  {
    hide P.Done, AddedTo, KnownAt;
    assert y in w.listed <==> y in KnownAt(c, P.Done(h, P.ME(EngineOf(c, y))));
    if y in w.listed { AddedKeeps(w.listed, symbols, c.marginEnabled, y); }
    if EngineOf(c, y) == j {
      if y in KnownAt(c, s) { KnownIsAll(c, s, y); }
      AddedAlike(w.listed, KnownAt(c, s), symbols, c.marginEnabled, y);
      if y in KnownAt(c, s + 1) { KnownIsAll(c, s + 1, y); }
    }
  }

  lemma IndexOf(q: seq<nat>, s: nat) returns (k: nat)
    requires s in q
    ensures k < |q| && q[k] == s
  {
    k :| k < |q| && q[k] == s;
  }

  lemma LessIs(q: seq<nat>, k: nat)
    requires Distinct(q) && k < |q|
    ensures var less := q[..k] + q[k + 1..];
            && |less| == |q| - 1 && Distinct(less)
               && (forall l | 0 <= l < |less| :: less[l] == q[if l < k then l else l + 1])
            && forall t: nat :: t in less <==> t in q && t != q[k]
  {
    var less := q[..k] + q[k + 1..];
    forall t: nat ensures t in less <==> t in q && t != q[k] {
      if t in q && t != q[k] {
        var l := IndexOf(q, t);
        assert less[if l < k then l else l - 1] == t;
      }
      if t in less {
        var l := IndexOf(less, t);
        assert q[if l < k then l else l + 1] == t;
      }
    }
  }

  /** What taking a command out of the queue leaves. */
  lemma WaitingLess(c: Setup, w: World, h: seq<P.Handled>, x: X.State, waiting: seq<nat>, k: nat, w': World,
                    h': seq<P.Handled>, x': X.State)
    requires x.shards != [] && WaitingIs(c, w, h, x, waiting) && k < |waiting| && x'.shards == x.shards
             && w'.held == w.held
    requires x'.inflight == x.inflight[..k] + x.inflight[k + 1..]
    requires forall t: nat | t < |c.commands| && c.commands[t].Trading? :: IsSeen(c, h', t) <==>
               IsSeen(c, h, t) || t == waiting[k]
    requires forall t: nat | t < |c.commands| :: IsHeld(c, h', |x.shards|, t) <==> IsHeld(c, h, |x.shards|, t)
    ensures WaitingIs(c, w', h', x', waiting[..k] + waiting[k + 1..])
  {
    hide IsSeen, IsHeld, Distinct, Listed;
    LessIs(waiting, k);
    InflightLess(x, k, x');
  }

  lemma InflightLess(x: X.State, k: nat, x': X.State)
    requires k < |x.inflight| && x'.inflight == x.inflight[..k] + x.inflight[k + 1..]
    ensures forall l | 0 <= l < |x'.inflight| :: x'.inflight[l] == x.inflight[if l < k then l else l + 1]
  {
  }

  /** What a new entry adds to the commands still to be settled. */
  lemma DoneMore(c: Setup, w: World, h: seq<P.Handled>, x: X.State, done: seq<nat>, s: nat, m: Matched, w': World,
                 h': seq<P.Handled>, x': X.State)
    requires DoneIs(c, w, h, x, done) && s < |c.commands| && Listed(c, s) && !IsSeen(c, h, s)
    requires w'.matched == w.matched[s := m] && |x'.shards| == |x.shards|
    requires x'.settling
             == x.settling + [X.Settling(c.commands[s].symbol, m.r, m.action, m.events, X.AllOf(|x.shards|))]
    requires forall t: nat | t < |c.commands| && c.commands[t].Trading? :: IsSeen(c, h, t) || t == s ==>
               IsSeen(c, h', t)
    requires forall i: nat :: P.Done(h', P.R2(i)) == P.Done(h, P.R2(i))
    requires forall i: nat | i < |x.shards| :: P.Done(h, P.R2(i)) <= s
    ensures DoneIs(c, w', h', x', done + [s]) && s !in w.matched
  {
    hide IsSeen, P.Done, KnownAt, Distinct;
    var more := done + [s];
    assert Distinct(more) && s !in done by { DistinctMore(c, w, h, x, done, s); }
    UnsettledMore(h, x, done, s, h', x');
    hide Unsettled;
    forall k | 0 <= k < |done| ensures more[k] == done[k] && x'.settling[k] == x.settling[k] {}
    assert more[|done|] == s;
    forall t: int <- w'.matched ensures 0 <= t && t in more {
      if t != s { assert t in w.matched; }
    }
  }

  lemma DistinctMore(c: Setup, w: World, h: seq<P.Handled>, x: X.State, done: seq<nat>, s: nat)
    requires DoneIs(c, w, h, x, done) && s < |c.commands| && c.commands[s].Trading? && !IsSeen(c, h, s)
    ensures Distinct(done + [s]) && s !in done
  {
    hide P.Done, KnownAt, IsSeen;
  }

  lemma UnsettledMore(h: seq<P.Handled>, x: X.State, done: seq<nat>, s: nat, h': seq<P.Handled>, x': X.State)
    requires |done| == |x.settling| && forall k | 0 <= k < |done| :: Unsettled(h, x, done[k], x.settling[k].left)
    requires |x'.shards| == |x.shards| && |x'.settling| == |done| + 1 && x'.settling[..|done|] == x.settling
    requires x'.settling[|done|].left == X.AllOf(|x.shards|)
    requires forall i: nat :: P.Done(h', P.R2(i)) == P.Done(h, P.R2(i))
    requires forall i: nat | i < |x.shards| :: P.Done(h, P.R2(i)) <= s
    ensures forall k | 0 <= k <= |done| :: Unsettled(h', x', (done + [s])[k], x'.settling[k].left)
  {
    hide P.Done;
    forall k | 0 <= k <= |done| ensures Unsettled(h', x', (done + [s])[k], x'.settling[k].left) {
      if k < |done| {
        assert x'.settling[k] == x.settling[k] && Unsettled(h, x, done[k], x.settling[k].left);
      }
    }
  }

  lemma OverpaidMore(c: Setup, w: World, x: X.State, s: nat, m: Matched, z: X.Settling, w': World, x': X.State)
    requires OverpaidIs(c, w, x) && s !in w.matched && w'.matched == w.matched[s := m]
             && x'.settling == x.settling + [z]
    requires s < |c.commands| && c.commands[s].Trading? && z.symbol == c.commands[s].symbol && z.r == m.r
    ensures OverpaidIs(c, w', x')
  {
    hide KnownAt;
    forall cur: int ensures Sum(x'.settling, X.OverpaidOf(AllKnown(c), cur)) == Total(w'.matched, OverpaidBy(c, cur)) {
      assert Sum(x.settling, X.OverpaidOf(AllKnown(c), cur)) == Total(w.matched, OverpaidBy(c, cur));
      SumAppend(x.settling, z, X.OverpaidOf(AllKnown(c), cur));
      TotalUpdate(w.matched, s, m, OverpaidBy(c, cur));
    }
  }

  /** A call of the matching shard for a command that is not for its books, or whose symbol is not listed. */
  lemma OtherMatched(c: Setup, w: World, h: seq<P.Handled>, x: X.State, q: Queues, j: nat, s: nat)
    requires NoReset(c) && Simulates(c, w, h, x, q) && s < |c.commands| && s == P.Done(h, P.ME(j))
    requires !(EngineTakes(c, j, s) && Listed(c, s))
    ensures Simulates(c, MatchCall(c, w, j, s), h + [P.Handled(P.ME(j), s)], x, q)
  {
    hide X.Invariant, P.Done, IsSeen, IsHeld, OverpaidIs, DoneIs, KnownIs, BooksIs, WaitingIs, KnownAt, AddedTo, Step;
    var w', h' := MatchCall(c, w, j, s), h + [P.Handled(P.ME(j), s)];
    MatchCounts(c, h, j, s, |x.shards|);
    SameKnown(c, w, h, w', h');
    if EngineTakes(c, j, s) { BookThere(c, w, h, x, j, s); }
    SeenMore(c, w, h, x, q.done, w', h', x);
    assert OverpaidIs(c, w', x) by { SameOverpaid(c, w, x, w', x); }
    assert BooksIs(c, w', h', x) by {
      match c.commands[s] {
        case Binary(AddSymbols(symbols)) => BooksListed(c, w, h, x, j, s, symbols);
        case _ =>
          KnownStays(c, s);
          BooksSeen(c, w, h, x, j, s, x);
      }
    }
    OtherSeen(c, w, h, x, q.waiting, j, s, w', h');
  }

  ghost predicate EngineTakes(c: Setup, j: nat, s: nat)
    requires s < |c.commands|
  {
    c.commands[s].Trading? && EngineOf(c, c.commands[s].symbol) == j
  }

  lemma KnownStays(c: Setup, s: nat)
    requires NoReset(c) && s < |c.commands| && !(c.commands[s].Binary? && c.commands[s].message.AddSymbols?)
    ensures KnownAt(c, s + 1) == KnownAt(c, s)
  {
  }

  lemma OtherSeen(c: Setup, w: World, h: seq<P.Handled>, x: X.State, waiting: seq<nat>, j: nat, s: nat, w': World,
                  h': seq<P.Handled>)
    requires x.shards != [] && WaitingIs(c, w, h, x, waiting) && s < |c.commands| && s == P.Done(h, P.ME(j))
    requires !(EngineTakes(c, j, s) && Listed(c, s)) && h' == h + [P.Handled(P.ME(j), s)] && w'.held == w.held
    ensures WaitingIs(c, w', h', x, waiting)
  {
    hide P.Done, IsSeen, IsHeld, KnownAt;
    MatchCounts(c, h, j, s, |x.shards|);
  }

  lemma BooksAre(x: X.State)
    requires X.Invariant(x)
    ensures x.shards != [] && forall symbol: int :: symbol in x.books <==> symbol in x.specs
  {
  }

  lemma BookHere(c: Setup, w: World, h: seq<P.Handled>, x: X.State, y: int)
    requires BooksIs(c, w, h, x) && y in x.books && y in w.books
    ensures x.books[y] == w.books[y]
  {
  }

  /** Matching a new order takes it out of the exchange's queue. */
  lemma PlaceMatched(c: Setup, w: World, h: seq<P.Handled>, x: X.State, q: Queues, j: nat, s: nat)
    returns (x': X.State, q': Queues, k: nat)
    requires NoReset(c) && Simulates(c, w, h, x, q) && s < |c.commands| && s == P.Done(h, P.ME(j))
    requires IsPlace(c.commands[s]) && EngineTakes(c, j, s) && Listed(c, s) && IsHeld(c, h, |x.shards|, s)
    requires forall i: nat | i < |x.shards| :: P.Done(h, P.R2(i)) <= s
    ensures Simulates(c, MatchCall(c, w, j, s), h + [P.Handled(P.ME(j), s)], x', q')
    ensures k < |q.waiting| && q.waiting[k] == s && X.Next(x, X.MatchOne(k)) == Some(x')
  {
    hide X.Invariant, P.Done, IsSeen, IsHeld, OverpaidIs, DoneIs, KnownIs, BooksIs, KnownAt, Step;
    var symbol := c.commands[s].symbol;
    var w', h' := MatchCall(c, w, j, s), h + [P.Handled(P.ME(j), s)];
    MatchCounts(c, h, j, s, |x.shards|);
    BookThere(c, w, h, x, j, s);
    BooksAre(x);
    BookHere(c, w, h, x, symbol);
    SameKnown(c, w, h, w', h');
    assert s in w.held && s in q.waiting;
    k := IndexOf(q.waiting, s);
    X.NextKeeps(x, X.MatchOne(k));
    x' := X.Next(x, X.MatchOne(k)).value;
    WaitingLess(c, w, h, x, q.waiting, k, w', h', x');
    var m := w'.matched[s];
    DoneMore(c, w, h, x, q.done, s, m, w', h', x');
    OverpaidMore(c, w, x, s, m, X.Settling(symbol, m.r, m.action, m.events, X.AllOf(|x.shards|)), w', x');
    KnownStays(c, s);
    BooksMatched(c, w, h, x, j, s, w'.books[symbol], w', x');
    q' := Queues(q.waiting[..k] + q.waiting[k + 1..], q.done + [s]);
  }

  lemma SeenMore(c: Setup, w: World, h: seq<P.Handled>, x: X.State, done: seq<nat>, w': World, h': seq<P.Handled>,
                 x': X.State)
    requires DoneIs(c, w, h, x, done) && w'.matched == w.matched && x'.settling == x.settling
             && |x'.shards| == |x.shards|
    requires forall t: nat | t < |c.commands| && c.commands[t].Trading? :: IsSeen(c, h, t) ==> IsSeen(c, h', t)
    requires forall k: nat :: P.Done(h', P.R2(k)) == P.Done(h, P.R2(k))
    ensures DoneIs(c, w', h', x', done)
  {
    hide P.Done, IsSeen, KnownAt;
    forall k | 0 <= k < |done| ensures Unsettled(h', x', done[k], x'.settling[k].left) {
      assert Unsettled(h, x, done[k], x.settling[k].left);
    }
  }

  /** A cancel, move, reduce or request is submitted and matched at once: it needs no hold. */
  lemma OtherOrderMatched(c: Setup, w: World, h: seq<P.Handled>, x: X.State, q: Queues, j: nat, s: nat)
    returns (x': X.State, q': Queues)
    requires SetupOk(c) && NoReset(c) && Simulates(c, w, h, x, q) && s < |c.commands| && s == P.Done(h, P.ME(j))
    requires !IsPlace(c.commands[s]) && EngineTakes(c, j, s) && Listed(c, s)
    requires forall i: nat | i < |x.shards| :: P.Done(h, P.R2(i)) <= s
    ensures Simulates(c, MatchCall(c, w, j, s), h + [P.Handled(P.ME(j), s)], x', q')
    ensures var y := X.Next(x, X.Submit(c.commands[s].symbol, c.commands[s].r, 0));
            y.Some? && y.value.shards != [] && X.Next(y.value, X.MatchOne(|x.inflight|)) == Some(x')
  {
    hide X.Invariant, P.Done, IsSeen, IsHeld, OverpaidIs, DoneIs, KnownIs, BooksIs, KnownAt, Step;
    var symbol, r := c.commands[s].symbol, c.commands[s].r;
    var w', h' := MatchCall(c, w, j, s), h + [P.Handled(P.ME(j), s)];
    MatchCounts(c, h, j, s, |x.shards|);
    BookThere(c, w, h, x, j, s);
    BooksAre(x);
    BookHere(c, w, h, x, symbol);
    SameKnown(c, w, h, w', h');
    X.NextKeeps(x, X.Submit(symbol, r, 0));
    var y := X.Next(x, X.Submit(symbol, r, 0)).value;
    var k := |x.inflight|;
    assert y == x.(inflight := x.inflight + [X.Inflight(symbol, r)]);
    X.NextKeeps(y, X.MatchOne(k));
    x' := X.Next(y, X.MatchOne(k)).value;
    assert y.inflight[..k] + y.inflight[k + 1..] == x.inflight;
    assert WaitingIs(c, w', h', x', q.waiting);
    var m := w'.matched[s];
    DoneMore(c, w, h, x, q.done, s, m, w', h', x');
    OverpaidMore(c, w, x, s, m, X.Settling(symbol, m.r, m.action, m.events, X.AllOf(|x.shards|)), w', x');
    KnownStays(c, s);
    BooksMatched(c, w, h, x, j, s, w'.books[symbol], w', x');
    q' := Queues(q.waiting, q.done + [s]);
  }

  // ----- Settling -----

  lemma SettleCounts(c: Setup, h: seq<P.Handled>, i: nat, s: nat, shards: nat)
    requires s == P.Done(h, P.R2(i)) && 0 < shards
    ensures var h' := h + [P.Handled(P.R2(i), s)];
            && (forall t: nat | t < |c.commands| && c.commands[t].Trading? :: IsSeen(c, h', t) <==> IsSeen(c, h, t))
            && (forall t: nat | t < |c.commands| :: IsHeld(c, h', shards, t) <==> IsHeld(c, h, shards, t))
            && (forall k: nat :: P.Done(h', P.R1(k)) == P.Done(h, P.R1(k)) && P.Done(h', P.ME(k)) == P.Done(h, P.ME(k)))
            && forall k: nat :: P.Done(h', P.R2(k)) == P.Done(h, P.R2(k)) + if k == i then 1 else 0
  {
    hide P.Done;
    var x := P.Handled(P.R2(i), s);
    forall stage: P.Stage ensures P.Done(h + [x], stage) == P.Done(h, stage) + if stage == P.R2(i) then 1 else 0 {
      P.DoneAppend(h, x, stage);
    }
  }

  /** A shard that settles a command has held it, so it knows the symbol as it was listed. */
  lemma KnownToSettle(c: Setup, w: World, h: seq<P.Handled>, i: nat, s: nat)
    requires NoReset(c) && KnownIs(c, w, h) && i < |w.known| && s < |c.commands| && Listed(c, s)
             && s < P.Done(h, P.R1(i))
    ensures var y := c.commands[s].symbol; y in w.known[i] && y in AllKnown(c) && w.known[i][y] == AllKnown(c)[y]
  {
    hide P.Done, KnownAt;
    var y := c.commands[s].symbol;
    KnownGrows(c, s, P.Done(h, P.R1(i)), y);
    KnownIsAll(c, P.Done(h, P.R1(i)), y);
  }

  /** A settlement in shard i is a settlement of the exchange in that shard; it never fails. */
  lemma Settled(c: Setup, w: World, h: seq<P.Handled>, x: X.State, q: Queues, i: nat, s: nat)
    returns (x': X.State, k: nat)
    requires NoReset(c) && Simulates(c, w, h, x, q) && s < |c.commands| && i < |x.shards|
             && s == P.Done(h, P.R2(i)) < P.Done(h, P.R1(i))
    ensures !SettleFails(c, w, i, s)
    ensures Simulates(c, SettleCall(c, w, i, s), h + [P.Handled(P.R2(i), s)], x', q)
    ensures if s in w.matched then k < |q.done| && q.done[k] == s && X.Next(x, X.SettleOne(k, i)) == Some(x')
            else x' == x
  {
    hide X.Invariant, P.Done, IsSeen, IsHeld, OverpaidIs, Settle, KnownIs, BooksIs, KnownAt, WaitingIs;
    k := 0;
    var w', h' := SettleCall(c, w, i, s), h + [P.Handled(P.R2(i), s)];
    SettleCounts(c, h, i, s, |x.shards|);
    if s in w.matched {
      k := IndexOf(q.done, s);
      assert Unsettled(h, x, q.done[k], x.settling[k].left);
      KnownToSettle(c, w, h, i, s);
      X.NextKeeps(x, X.SettleOne(k, i));
      x' := X.Next(x, X.SettleOne(k, i)).value;
      assert x'.settling == x.settling[k := x.settling[k].(left := x.settling[k].left - {i})];
      OverpaidSame(c, w, x, k, i, w', x');
      forall l | 0 <= l < |q.done| ensures Unsettled(h', x', q.done[l], x'.settling[l].left) {
        assert Unsettled(h, x, q.done[l], x.settling[l].left);
      }
    } else {
      x' := x;
      forall l | 0 <= l < |q.done| ensures Unsettled(h', x', q.done[l], x'.settling[l].left) {
        assert Unsettled(h, x, q.done[l], x.settling[l].left) && q.done[l] != s;
      }
    }
    SettledRest(c, w, h, x, q, i, s, w', h', x');
  }

  lemma SettledRest(c: Setup, w: World, h: seq<P.Handled>, x: X.State, q: Queues, i: nat, s: nat, w': World,
                    h': seq<P.Handled>, x': X.State)
    requires Simulates(c, w, h, x, q) && s < |c.commands| && i < |x.shards| && s == P.Done(h, P.R2(i))
    requires h' == h + [P.Handled(P.R2(i), s)] && w' == w.(shards := w'.shards)
             && x' == x.(shards := x'.shards, settling := x'.settling)
    requires |x'.shards| == |x.shards| && |x'.settling| == |x.settling|
    ensures KnownIs(c, w', h') && BooksIs(c, w', h', x') && WaitingIs(c, w', h', x', q.waiting)
  {
    hide X.Invariant, P.Done, IsSeen, IsHeld, OverpaidIs, DoneIs, KnownIs, BooksIs, KnownAt, Listed;
    SettleCounts(c, h, i, s, |x.shards|);
    SameKnown(c, w, h, w', h');
    SameBooks(c, w, h, x, w', h', x');
  }

  lemma OverpaidSame(c: Setup, w: World, x: X.State, k: nat, i: nat, w': World, x': X.State)
    requires OverpaidIs(c, w, x) && w'.matched == w.matched && k < |x.settling|
             && x'.settling == x.settling[k := x.settling[k].(left := x.settling[k].left - {i})]
    ensures OverpaidIs(c, w', x')
  {
    forall cur: int ensures Sum(x'.settling, X.OverpaidOf(AllKnown(c), cur)) == Total(w'.matched, OverpaidBy(c, cur)) {
      assert Sum(x.settling, X.OverpaidOf(AllKnown(c), cur)) == Total(w.matched, OverpaidBy(c, cur));
      SumUpdate(x.settling, k, x'.settling[k], X.OverpaidOf(AllKnown(c), cur));
    }
  }

  // ----- Every history -----

  /** The history of a pipeline run with these commands. */
  ghost predicate Schedule(c: Setup, shards: nat, groups: seq<int>, h: seq<P.Handled>) {
    SetupOk(c) && NoReset(c) && 0 < shards && |groups| <= |c.commands| && P.HistoryOk(h, shards, c.engines, groups)
  }

  /** Each handler call is a run of the exchange of no step, of one, or, for a cancel, move, reduce or request, which is
      submitted when it is matched, of two; and no settlement fails. */
  lemma OneCall(c: Setup, shards: nat, groups: seq<int>, h: seq<P.Handled>, e: P.Handled, x: X.State, q: Queues)
    returns (x': X.State, q': Queues, actions: seq<X.Action>)
    requires Schedule(c, shards, groups, h) && P.CallOk(h, e, shards, c.engines, groups)
    requires Simulates(c, After(c, shards, h), h, x, q) && |x.shards| == shards
    ensures Simulates(c, Effect(c, After(c, shards, h), e), h + [e], x', q') && |x'.shards| == shards
    ensures X.Exec(x, actions) == Some(x') && |actions| <= if e.stage.ME? then 2 else 1
    ensures e.stage.R2? ==> !SettleFails(c, After(c, shards, h), e.stage.shard, e.s)
  {
    hide Simulates, HoldCall, MatchCall, SettleCall, SettleFails, P.Done, P.HistoryOk, IsSeen, IsHeld, P.NewGroup,
         KnownAt;
    var w, s := After(c, shards, h), e.s;
    SimulatesShape(c, w, h, x, q);
    match e.stage {
      case R1(i) => x', q', actions := HoldIsARun(c, shards, groups, h, x, q, i, s);
      case ME(j) => x', q', actions := MatchIsARun(c, shards, groups, h, x, q, j, s);
      case R2(i) => x', q', actions := SettleIsARun(c, shards, groups, h, x, q, i, s);
    }
    SimulatesShape(c, Effect(c, w, e), h + [e], x', q');
  }

  lemma HoldIsARun(c: Setup, shards: nat, groups: seq<int>, h: seq<P.Handled>, x: X.State, q: Queues, i: nat, s: nat)
    returns (x': X.State, q': Queues, actions: seq<X.Action>)
    requires Schedule(c, shards, groups, h) && P.CallOk(h, P.Handled(P.R1(i), s), shards, c.engines, groups)
    requires Simulates(c, After(c, shards, h), h, x, q) && |x.shards| == shards
    ensures Simulates(c, HoldCall(c, After(c, shards, h), i, s), h + [P.Handled(P.R1(i), s)], x', q')
    ensures X.Exec(x, actions) == Some(x') && |actions| <= 1
  {
    hide Simulates, HoldCall, P.Done, P.HistoryOk, IsSeen, IsHeld, P.NewGroup, KnownAt, X.Next, AdminOf;
    var w := After(c, shards, h);
    var cmd := c.commands[s];
    if IsPlace(cmd) && Listed(c, s) && ShardOf(cmd.r.uid, shards) == i {
      MatchedAfterHeld(h, shards, c.engines, groups, EngineOf(c, cmd.symbol), i);
      assert !IsSeen(c, h, s) by { NotSeen(c, h, s); }
      x' := PlaceHeld(c, w, h, x, q, i, s);
      q', actions := Queues(q.waiting + [s], q.done), [X.Submit(cmd.symbol, cmd.r, cmd.freeMargin)];
      X.OneAction(x, actions[0]);
    } else {
      x' := OtherHeld(c, w, h, x, q, i, s);
      var a := AdminOf(cmd, i, shards);
      q', actions := q, if a.Some? then [a.value] else [];
      if a.Some? { X.OneAction(x, a.value); }
    }
  }

  lemma MatchIsARun(c: Setup, shards: nat, groups: seq<int>, h: seq<P.Handled>, x: X.State, q: Queues, j: nat, s: nat)
    returns (x': X.State, q': Queues, actions: seq<X.Action>)
    requires Schedule(c, shards, groups, h) && P.CallOk(h, P.Handled(P.ME(j), s), shards, c.engines, groups)
    requires Simulates(c, After(c, shards, h), h, x, q) && |x.shards| == shards
    ensures Simulates(c, MatchCall(c, After(c, shards, h), j, s), h + [P.Handled(P.ME(j), s)], x', q')
    ensures X.Exec(x, actions) == Some(x') && |actions| <= 2
  {
    hide Simulates, MatchCall, P.Done, P.HistoryOk, IsSeen, IsHeld, P.NewGroup, KnownAt, X.Next;
    var w := After(c, shards, h);
    forall i: nat | i < shards
      ensures P.Done(h, P.R2(i)) <= s
    {
      SettledAfterMatched(h, shards, c.engines, groups, i, j);
    }
    if !(EngineTakes(c, j, s) && Listed(c, s)) {
      OtherMatched(c, w, h, x, q, j, s);
      x', q', actions := x, q, [];
    } else if IsPlace(c.commands[s]) {
      assert IsHeld(c, h, shards, s) by { HeldNow(c, h, shards, s); }
      var k;
      x', q', k := PlaceMatched(c, w, h, x, q, j, s);
      actions := [X.MatchOne(k)];
      X.OneAction(x, actions[0]);
    } else {
      x', q' := OtherOrderMatched(c, w, h, x, q, j, s);
      var a, b := X.Submit(c.commands[s].symbol, c.commands[s].r, 0), X.MatchOne(|x.inflight|);
      actions := [a] + [b];
      X.OneAction(x, a);
      X.OneAction(X.Next(x, a).value, b);
      X.ExecThen(x, [a], [b]);
    }
  }

  lemma SettleIsARun(c: Setup, shards: nat, groups: seq<int>, h: seq<P.Handled>, x: X.State, q: Queues, i: nat, s: nat)
    returns (x': X.State, q': Queues, actions: seq<X.Action>)
    requires Schedule(c, shards, groups, h) && P.CallOk(h, P.Handled(P.R2(i), s), shards, c.engines, groups)
    requires Simulates(c, After(c, shards, h), h, x, q) && |x.shards| == shards
    ensures Simulates(c, SettleCall(c, After(c, shards, h), i, s), h + [P.Handled(P.R2(i), s)], x', q')
    ensures X.Exec(x, actions) == Some(x') && |actions| <= 1 && !SettleFails(c, After(c, shards, h), i, s)
  {
    hide Simulates, SettleCall, SettleFails, P.Done, P.HistoryOk, P.NewGroup, KnownAt, X.Next;
    var w := After(c, shards, h);
    var k;
    x', k := Settled(c, w, h, x, q, i, s);
    q', actions := q, if s in w.matched then [X.SettleOne(k, i)] else [];
    if s in w.matched { X.OneAction(x, actions[0]); }
  }

  lemma NotSeen(c: Setup, h: seq<P.Handled>, s: nat)
    requires s < |c.commands| && c.commands[s].Trading? && P.Done(h, P.ME(EngineOf(c, c.commands[s].symbol))) <= s
    ensures !IsSeen(c, h, s)
  {
  }

  lemma HeldNow(c: Setup, h: seq<P.Handled>, shards: nat, s: nat)
    requires s < |c.commands| && IsPlace(c.commands[s]) && 0 < shards
             && forall i: nat | i < shards :: s < P.Done(h, P.R1(i))
    ensures IsHeld(c, h, shards, s)
  {
  }

  lemma SimulatesShape(c: Setup, w: World, h: seq<P.Handled>, x: X.State, q: Queues)
    requires Simulates(c, w, h, x, q)
    ensures |x.shards| == |w.shards| && x.shards != []
  {
  }

  lemma BeginSimulates(c: Setup, shards: nat)
    requires 0 < shards
    ensures Simulates(c, Begin(shards), [], X.Start(AllKnown(c), c.marginEnabled, shards), Queues([], []))
  {
    hide X.Invariant;
    var x, w := X.Start(AllKnown(c), c.marginEnabled, shards), Begin(shards);
    X.StartKeeps(AllKnown(c), c.marginEnabled, shards);
    forall cur: int ensures Sum(x.settling, X.OverpaidOf(AllKnown(c), cur)) == Total(w.matched, OverpaidBy(c, cur)) {
      TotalZero(w.matched, OverpaidBy(c, cur));
    }
    forall i: nat | i < |w.known| ensures w.known[i] == KnownAt(c, P.Done([], P.R1(i))) {}
  }

  /** Whatever the schedule, the shards and books are those a run of the exchange reaches from its start. */
  lemma {:induction false} EverySchedule(c: Setup, shards: nat, groups: seq<int>, h: seq<P.Handled>)
    returns (x: X.State, q: Queues, actions: seq<X.Action>)
    requires Schedule(c, shards, groups, h)
    ensures Simulates(c, After(c, shards, h), h, x, q) && |x.shards| == shards
    ensures X.Start(AllKnown(c), c.marginEnabled, shards).shards != []
    ensures X.Exec(X.Start(AllKnown(c), c.marginEnabled, shards), actions) == Some(x) && |actions| <= 2 * |h|
    decreases |h|
  {
    hide Simulates, Effect, P.CallOk, X.Exec;
    var start := X.Start(AllKnown(c), c.marginEnabled, shards);
    if h == [] {
      BeginSimulates(c, shards);
      x, q, actions := start, Queues([], []), [];
      assert X.Exec(start, []) == Some(start) by { X.NoAction(start); }
    } else {
      var n := |h| - 1;
      P.PrefixOk(h, n, shards, c.engines, groups);
      assert P.CallOk(h[..n], h[n], shards, c.engines, groups);
      var y, p, before := EverySchedule(c, shards, groups, h[..n]);
      var more;
      x, q, more := OneCall(c, shards, groups, h[..n], h[n], y, p);
      actions := before + more;
      X.ExecThen(start, before, more);
      assert h[..n] + [h[n]] == h;
    }
  }

  lemma {:induction false} NothingLeft(k: nat, count: nat, s: Symbol, r: Request, action: OrderAction,
                                       events: seq<Event>, cur: int, mark: int)
    ensures LeftShare({}, k, count, s, r, action, events, cur, mark) == 0
  {
    if k != 0 { NothingLeft(k - 1, count, s, r, action, events, cur, mark); }
  }

  /** All money of a currency that is not in flight: in the shards and held by resting orders. */
  ghost function Stored(w: World, cur: int, marks: Marks): int {
    Sum(w.shards, X.WorthOf(cur, marks)) + Total(w.books, X.ClaimsOf(w.listed, cur))
  }

  lemma FirstIn(q: seq<nat>)
    requires q != []
    ensures exists t: nat :: t in q
  {
    assert q[0] in q;
  }

  /** A command that is held by all shards up to n and seen by all matching shards up to n is not waiting. */
  lemma NoneWaits(c: Setup, w: World, h: seq<P.Handled>, x: X.State, waiting: seq<nat>, n: nat, t: nat)
    requires x.shards != [] && WaitingIs(c, w, h, x, waiting) && 0 < c.engines
    requires (forall i: nat | i < |x.shards| :: P.Done(h, P.R1(i)) == n)
             && forall j: nat | j < c.engines :: P.Done(h, P.ME(j)) == n
    ensures t !in waiting
  {
    hide P.Done, KnownAt;
  }

  /** Once every matching shard has seen every command, the books are those of the exchange. */
  lemma AllListed(c: Setup, w: World, h: seq<P.Handled>, x: X.State)
    requires BooksIs(c, w, h, x) && X.Invariant(x) && x.specs == AllKnown(c) && 0 < c.engines
    requires forall j: nat | j < c.engines :: P.Done(h, P.ME(j)) == |c.commands|
    ensures w.books == x.books && w.listed == x.specs
  {
    hide P.Done, KnownAt, X.Mirrored, X.Conserved;
    BooksAre(x);
    forall y: int ensures y in w.books <==> y in x.books {
      assert P.Done(h, P.ME(EngineOf(c, y))) == |c.commands|;
    }
    assert forall y: int <- x.books :: y in w.books && w.books[y] == x.books[y];
    assert forall y: int <- w.books :: y in x.books;
    assert w.books == x.books;
    assert forall y: int <- x.specs :: y in w.listed && w.listed[y] == x.specs[y];
    assert forall y: int <- w.listed :: y in x.specs;
    assert w.listed == x.specs;
  }

  /** Nothing is left to settle. */
  lemma AllSettled(c: Setup, w: World, h: seq<P.Handled>, x: X.State, done: seq<nat>, cur: int, marks: Marks)
    requires DoneIs(c, w, h, x, done) && forall i: nat | i < |x.shards| :: P.Done(h, P.R2(i)) == |c.commands|
    ensures Sum(x.settling, X.UnsettledOf(x.specs, |x.shards|, cur, marks)) == 0
  {
    hide P.Done, KnownAt, IsSeen;
    forall k | 0 <= k < |x.settling| ensures X.UnsettledOf(x.specs, |x.shards|, cur, marks)(x.settling[k]) == 0 {
      var z := x.settling[k];
      assert Unsettled(h, x, done[k], z.left);
      assert forall i: nat :: i !in z.left;
      assert z.left == {};
      if z.symbol in x.specs {
        NothingLeft(|x.shards|, |x.shards|, x.specs[z.symbol], z.r, z.action, z.events, cur, marks(z.symbol));
      }
    }
    SumOfZeros(x.settling, X.UnsettledOf(x.specs, |x.shards|, cur, marks));
  }

  /** When every stage has been called for every command, nothing is in flight: what the shards and books hold is zero
      in every currency at any mark prices, but for what refunds of immediate-or-cancel budget bids gave too much. */
  lemma DrainedConserves(c: Setup, shards: nat, groups: seq<int>, h: seq<P.Handled>, cur: int, marks: Marks)
    requires Schedule(c, shards, groups, h)
    requires forall i: nat | i < shards :: P.Done(h, P.R1(i)) == |c.commands| && P.Done(h, P.R2(i)) == |c.commands|
    requires forall j: nat | j < c.engines :: P.Done(h, P.ME(j)) == |c.commands|
    ensures Stored(After(c, shards, h), cur, marks) == Total(After(c, shards, h).matched, OverpaidBy(c, cur))
  {
    hide P.Done, P.HistoryOk, X.Mirrored, X.Sound, After, BooksIs, KnownIs, KnownAt, DoneIs;
    var x, q, actions := EverySchedule(c, shards, groups, h);
    var w := After(c, shards, h);
    AllListed(c, w, h, x);
    assert X.Grand(x, cur, marks) == Sum(x.settling, X.OverpaidOf(x.specs, cur));
    forall t: nat ensures t !in q.waiting {
      NoneWaits(c, w, h, x, q.waiting, |c.commands|, t);
    }
    if q.waiting != [] { FirstIn(q.waiting); }
    assert Sum(x.inflight, X.HoldOf(x.specs, cur)) == 0;
    AllSettled(c, w, h, x, q.done, cur, marks);
  }
}
