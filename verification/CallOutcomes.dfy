/** What each handler call of the pipeline does to balances, users and books, in the words of `BookOutcomes`, `Accounts`
    and `UserOutcomes`. */
module CallOutcomes {
  import opened OrderTypes
  import opened BookSpec
  import opened BookOutcomes
  import opened RiskSpec
  import opened Worth
  import opened Ledger
  import A = Accounts
  import U = UserOutcomes
  import opened Deployment

  /** Shard i alone may differ. */
  ghost predicate OnlyShard(w: World, w': World, i: nat)
    requires i < |w.shards|
  {
    i < |w'.shards| && w' == w.(shards := w.shards[i := w'.shards[i]])
  }

  /** Called for a new order of its user, a shard checks it against the account and leaves the code in the command; for
      every other order or command on an order it does nothing. */
  lemma HoldCallChecks(c: Setup, w: World, i: nat, s: nat)
    requires i < |w.shards| == |w.known| && s < |c.commands| && c.commands[s].Trading?
             && A.CanCheck(w.shards[i], w.known[i], c.commands[s].symbol, c.commands[s].r)
    ensures var w' := HoldCall(c, w, i, s);
            var r := c.commands[s].r;
            if r.command == PLACE_ORDER && ShardOf(r.uid, |w.shards|) == i then
              && s in w'.held && w'.held == w.held[s := r.(resultCode := w'.held[s].resultCode)]
              && OnlyShard(w, w'.(held := w.held), i)
              && A.Held(w.shards[i], w'.shards[i], w'.held[s].resultCode, w.known[i], c.marginEnabled,
                      c.commands[s].symbol, r, c.commands[s].freeMargin)
            else w' == w
  {
    hide PlaceOrderRiskCheck, A.Held;
    var cmd := c.commands[s];
    A.HoldChecked(w.shards[i], w.known[i], c.marginEnabled, cmd.symbol, cmd.r, cmd.freeMargin);
    assert w.shards[i := w.shards[i]] == w.shards && w.known[i := w.known[i]] == w.known;
  }

  /** Called for a command on users or money, the user's shard carries it out, and no other does anything. */
  lemma HoldCallAdmits(c: Setup, w: World, i: nat, s: nat)
    requires i < |w.shards| == |w.known| && s < |c.commands|
    ensures var w', n := HoldCall(c, w, i, s), |w.shards|;
            match c.commands[s]
            case Money(uid, currency, amount, txid, kind) =>
              if ShardOf(uid, n) == i && U.Fresh(w.shards[i], uid, txid)
                 && (0 <= amount || 0 <= BalanceOf(w.shards[i], uid, currency) + amount)
              then OnlyShard(w, w', i) && U.Adjusted(w.shards[i], w'.shards[i], uid, currency, amount, txid, kind)
              else w' == w
            case NewUser(uid) =>
              if ShardOf(uid, n) == i && uid !in w.shards[i].profiles
              then w' == w.(shards := w.shards[i := w.shards[i].(profiles := w.shards[i].profiles[
                                                                   uid := Profile(ACTIVE, 0, map[], map[])])])
              else w' == w
            case ResumeOne(uid) =>
              if ShardOf(uid, n) == i && (uid in w.shards[i].profiles ==> w.shards[i].profiles[uid].status == SUSPENDED)
              then w' == w.(shards := w.shards[i := w.shards[i].(profiles := w.shards[i].profiles[
                                                                   uid := if uid in w.shards[i].profiles
                                                                          then w.shards[i].profiles[uid].(status :=
                                                                                                          ACTIVE)
                                                                          else Profile(ACTIVE, 0, map[], map[])])])
              else w' == w
            case SuspendOne(uid) =>
              if ShardOf(uid, n) == i && uid in w.shards[i].profiles && w.shards[i].profiles[uid].status == ACTIVE
                 && U.Flat(w.shards[i].profiles[uid])
              then w' == w.(shards := w.shards[i := w.shards[i].(profiles := w.shards[i].profiles - {uid})])
              else w' == w
            case _ => true
  {
    hide AdjustBalance, SuspendUser, PlaceOrderRiskCheck, AddedTo, AddAccounts, U.Fresh, BalanceOf, U.Adjusted, U.Flat;
    var sh := w.shards[i];
    assert w.shards[i := w.shards[i]] == w.shards && w.known[i := w.known[i]] == w.known;
    match c.commands[s] {
      case Money(uid, currency, amount, txid, kind) => U.AdjustIff(sh, uid, currency, amount, txid, kind);
      case SuspendOne(uid) => U.SuspendIff(sh, uid);
      case _ =>
    }
  }

  /** Called for a command of a symbol with a book of its own, a matching shard does to the book what the command says,
      with a new order's code as its hold left it; for every other order it does nothing. */
  lemma MatchCallDoes(c: Setup, w: World, j: nat, s: nat)
    requires s < |c.commands| && c.commands[s].Trading? && RequestOk(RequestAt(c, w, s))
             && forall y: int <- w.books :: BookOk(w.books[y])
    ensures var w' := MatchCall(c, w, j, s);
            var y, r := c.commands[s].symbol, RequestAt(c, w, s);
            if EngineOf(c, y) == j && y in w.books && y in w.listed then
              exists o: Outcome ::
                && Does(w.books[y], w.listed[y].kind, r, o)
                && w' == w.(books := w.books[y := o.book], matched := w.matched[s := Matched(r, o.action, o.events)])
            else w' == w
  {
    hide BookOk, Does, Step, RequestOk;
    var y, r := c.commands[s].symbol, RequestAt(c, w, s);
    if y in w.books && y in w.listed { StepDoes(w.books[y], w.listed[y].kind, r); }
  }

  /** Called for a matched command, a shard gives its users what the events give them, books the events of a futures
      contract, or fails because the symbol or a record is missing. */
  lemma SettleCallSettles(c: Setup, w: World, i: nat, s: nat)
    requires i < |w.shards| == |w.known| && s < |c.commands| && c.commands[s].Trading? && s in w.matched
             && w.matched[s].events != [] && ChainOk(w.matched[s].events)
    ensures var w', m, y := SettleCall(c, w, i, s), w.matched[s], c.commands[s].symbol;
            var h := Handler(i, |w.shards|);
            if y !in w.known[i] then SettleFails(c, w, i, s) && w' == w
            else
              var spec := w.known[i][y];
              && OnlyShard(w, w', i)
              && (spec.kind == CURRENCY_EXCHANGE_PAIR ==>
                    !SettleFails(c, w, i, s) && A.Settled(w.shards[i], w'.shards[i], h, spec, m.r, m.action, m.events))
              && (spec.kind == FUTURES_CONTRACT ==>
                    if SettleFails(c, w, i, s)
                    then w' == w && forall sh ::
                           !A.ChainBooked(A.WithUser(w.shards[i], h, m.r.uid), sh, h, y, spec, m.r.uid,
                                                              m.action, m.events)
                    else A.ChainBooked(A.WithUser(w.shards[i], h, m.r.uid), w'.shards[i], h, y, spec, m.r.uid, m.action,
                                     m.events))
  {
    hide Settle, ChainOk, A.Settled, A.ChainBooked, A.WithUser;
    var m, y, h := w.matched[s], c.commands[s].symbol, Handler(i, |w.shards|);
    assert w.shards[i := w.shards[i]] == w.shards;
    if y in w.known[i] {
      var spec := w.known[i][y];
      if spec.kind == CURRENCY_EXCHANGE_PAIR { A.ExchangeSettled(w.shards[i], h, y, spec, m.r, m.action, m.events); }
      if spec.kind == FUTURES_CONTRACT { A.FuturesSettled(w.shards[i], h, y, spec, m.r, m.action, m.events); }
    }
  }
}
