/** Buyers on the pipeline: in every schedule, with any number of resets, a settlement of an exchange pair lowers no
    balance of anyone who does not sell in it. */
module Debits {
  import opened OrderTypes
  import opened Positions
  import opened RiskSpec
  import opened Buyers
  import opened Deployment
  import opened Epochs
  import P = Pipeline
  import X = Exchange

  // ----- Fees -----

  ghost predicate Fair(known: map<int, Symbol>) {
    forall y: int <- known :: FeesOrdered(known[y])
  }

  /** Every symbol that is listed has a taker fee no smaller than its maker fee, and no negative fee or scale. */
  ghost predicate FeesFair(c: Setup) {
    forall s: nat, k: nat | s < |c.commands| && c.commands[s].Binary? && c.commands[s].message.AddSymbols?
                            && k < |c.commands[s].message.symbols| ::
      FeesOrdered(c.commands[s].message.symbols[k].1)
  }

  lemma {:induction false} AddedFair(known: map<int, Symbol>, symbols: seq<(int, Symbol)>, marginEnabled: bool)
    requires Fair(known) && forall k: nat | k < |symbols| :: FeesOrdered(symbols[k].1)
    ensures Fair(AddedTo(known, symbols, marginEnabled))
    decreases |symbols|
  {
    hide FeesOrdered;
    if symbols != [] {
      var (id, s) := symbols[0];
      var refused := id in known || !(s.kind == CURRENCY_EXCHANGE_PAIR || marginEnabled);
      assert FeesOrdered(symbols[0].1);
      forall k: nat | k < |symbols[1..]|
        ensures FeesOrdered(symbols[1..][k].1)
      {
        assert symbols[1..][k] == symbols[k + 1];
      }
      AddedFair(if refused then known else known[id := s], symbols[1..], marginEnabled);
    }
  }

  lemma {:induction false} KnownFair(c: Setup, t: nat)
    requires FeesFair(c)
    ensures Fair(KnownAt(c, t))
  {
    hide FeesOrdered, AddedTo;
    if 0 < t {
      KnownFair(c, t - 1);
      if t <= |c.commands| {
        match c.commands[t - 1] {
          case Binary(AddSymbols(symbols)) => AddedFair(KnownAt(c, t - 1), symbols, c.marginEnabled);
          case _ =>
        }
      }
    }
  }

  lemma PartFair(c: Setup, a: nat, b: nat)
    requires FeesFair(c) && a <= b <= |c.commands|
    ensures FeesFair(Part(c, a, b))
  {
    hide FeesOrdered;
    var part := Part(c, a, b);
    forall s: nat, k: nat | s < |part.commands| && part.commands[s].Binary? && part.commands[s].message.AddSymbols?
                            && k < |part.commands[s].message.symbols|
      ensures FeesOrdered(part.commands[s].message.symbols[k].1)
    {
      assert part.commands[s] == c.commands[a + s];
    }
  }

  // ----- Settlement -----

  /** If command s was matched on an exchange pair and u sells nothing in it, its settlement in shard i lowers no
      balance of u. */
  ghost predicate DebitsOnlySellers(c: Setup, w: World, i: nat, s: nat, u: int, cur: int)
    requires i < |w.shards| == |w.known| && s < |c.commands|
  {
    s in w.matched && c.commands[s].Trading? && OnPair(w.known[i], c.commands[s].symbol)
    && !Sells(u, w.matched[s].r.uid, w.matched[s].action, w.matched[s].events) ==>
      BalanceOf(w.shards[i], u, cur) <= BalanceOf(SettleCall(c, w, i, s).shards[i], u, cur)
  }

  predicate OnPair(known: map<int, Symbol>, symbol: int) {
    symbol in known && known[symbol].kind == CURRENCY_EXCHANGE_PAIR
  }

  /** So it is when the world is that of a state of the exchange which is safe for buyers. */
  lemma StateDebits(c: Setup, w: World, h: seq<P.Handled>, x: X.State, q: Queues, i: nat, s: nat, u: int, cur: int)
    requires NoReset(c) && Simulates(c, w, h, x, q) && BuyersSafe(x)
    requires s < |c.commands| && i < |x.shards| && s == P.Done(h, P.R2(i)) < P.Done(h, P.R1(i))
    ensures DebitsOnlySellers(c, w, i, s, u, cur)
  {
    hide X.Invariant, BuyersSafe, P.Done, IsSeen, IsHeld, OverpaidIs, Settle, KnownIs, BooksIs, KnownAt, WaitingIs,
         Sells, BalanceOf;
    if s in w.matched && OnPair(w.known[i], c.commands[s].symbol)
       && !Sells(u, w.matched[s].r.uid, w.matched[s].action, w.matched[s].events) {
      var k := IndexOf(q.done, s);
      assert Unsettled(h, x, q.done[k], x.settling[k].left);
      KnownToSettle(c, w, h, i, s);
      SettlementDebitsOnlySellers(x, k, i, u, cur);
    }
  }

  lemma ScheduleDebits(c: Setup, shards: nat, groups: seq<int>, h: seq<P.Handled>, e: P.Handled, i: nat, u: int,
                       cur: int)
    requires Schedule(c, shards, groups, h) && P.CallOk(h, e, shards, c.engines, groups) && FeesFair(c)
             && e.stage == P.R2(i)
    ensures DebitsOnlySellers(c, After(c, shards, h), i, e.s, u, cur)
  {
    hide X.Invariant, X.Exec, BuyersSafe, P.Done, P.HistoryOk, After, Simulates, DebitsOnlySellers, KnownAt;
    var x, q, actions := EverySchedule(c, shards, groups, h);
    KnownFair(c, |c.commands|);
    EveryReachableIsSafe(AllKnown(c), c.marginEnabled, shards, actions);
    StateDebits(c, After(c, shards, h), h, x, q, i, e.s, u, cur);
  }

  lemma DebitsAgree(c: Setup, w: World, s: nat, c': Setup, v: World, t: nat, i: nat, u: int, cur: int)
    requires SameSetup(c, s, c', t) && SameShard(w, v, i) && SameCommand(w, s, v, t)
             && DebitsOnlySellers(c', v, i, t, u, cur)
    ensures DebitsOnlySellers(c, w, i, s, u, cur)
  {
    hide SettleCall, Sells, BalanceOf;
    SettleAgrees(c, w, s, c', v, t, i);
  }

  /** In every history, however many resets there are, if each starts a group. */
  lemma HistoryDebits(c: Setup, shards: nat, groups: seq<int>, h: seq<P.Handled>, q: nat, i: nat, u: int, cur: int)
    requires SetupOk(c) && FeesFair(c) && ResetsGrouped(c, groups) && P.HistoryOk(h, shards, c.engines, groups)
    requires q < |h| && h[q].stage == P.R2(i)
    ensures i < shards && h[q].s < |c.commands| && DebitsOnlySellers(c, After(c, shards, h[..q]), i, h[q].s, u, cur)
  {
    hide After, Calls, P.Done, P.HistoryOk, P.NewGroup, FeesFair, SetupOk, SettleFails, SameShard, SameCommand;
    var x, before := h[q], h[..q];
    assert P.CallOk(before, x, shards, c.engines, groups) by { HistoryAt(h, q, shards, c.engines, groups); }
    P.PrefixOk(h, q, shards, c.engines, groups);
    if c.commands[x.s].Trading? {
      var a, b := Since(c, x.s), Until(c, x.s);
      UntilIs(c, x.s);
      EpochSince(c, groups, x.s, b);
      EveryHistory(c, shards, groups, before, a, b);
      InsideAgrees(c, shards, groups, before, x, a, b);
      PartIsPlain(c, shards, groups, before, a, b);
      PartFair(c, a, b);
      CallOkWithin(before, x, a, b, shards, c.engines, groups);
      var w, v := After(c, shards, before), Own(c, shards, before, a, b);
      ScheduleDebits(Part(c, a, b), shards, PartGroups(groups, a, b), Calls(before, a, b), P.Handled(x.stage, x.s - a),
                     i, u, cur);
      assert ShardIn(c, shards, before, a, b, w, v, i) && CommandIn(w, v, a, x.s);
      DebitsAgree(c, w, x.s, Part(c, a, b), v, x.s - a, i, u, cur);
    }
  }

  /** On the pipeline a buyer is never debited after placement, whatever the schedule: so is every settlement call
      made. */
  lemma PipelineDebitsOnlySellers(c: Setup, p: P.Pipe, q: nat, i: nat, u: int, cur: int)
    requires Deployed(c, p) && FeesFair(c) && q < |p.history| && p.history[q].stage == P.R2(i)
    ensures i < |p.risks| && p.history[q].s < |c.commands|
    ensures DebitsOnlySellers(c, After(c, |p.risks|, p.history[..q]), i, p.history[q].s, u, cur)
  {
    hide After, P.Done, P.HistoryOk, P.NewGroup, FeesFair, SetupOk, Deployed, DebitsOnlySellers;
    DeployedIs(c, p);
    assert SetupOk(c) by { DeployedSetup(c, p); }
    HistoryDebits(c, |p.risks|, p.groups, p.history, q, i, u, cur);
  }
}
