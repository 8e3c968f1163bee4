/** Resets and snapshots. A command that starts a group is a cut: each shard comes to it with everything before it
    settled. So the commands between two resets run as on an exchange of their own, what a reset drops is a state that
    holds all the money there is, and so is what a snapshot stores. */
module Epochs {
  import opened Wrappers
  import opened OrderTypes
  import opened BookSpec
  import opened Positions
  import opened Keys
  import opened RiskSpec
  import opened Sums
  import opened Worth
  import opened Grouping
  import opened Deployment
  import P = Pipeline
  import X = Exchange

  // ----- The commands from a up to b -----

  function Part(c: Setup, a: nat, b: nat): Setup
    requires a <= b <= |c.commands|
  {
    c.(commands := c.commands[a..b])
  }

  function PartGroups(groups: seq<int>, a: nat, b: nat): seq<int>
    requires a <= b
  {
    if |groups| <= a then [] else groups[a..if b <= |groups| then b else |groups|]
  }

  /** The calls for them, counted from the first of them. */
  ghost function Calls(h: seq<P.Handled>, a: nat, b: nat): seq<P.Handled> {
    if h == [] then []
    else
      var x := h[|h| - 1];
      Calls(h[..|h| - 1], a, b) + if a <= x.s < b then [P.Handled(x.stage, x.s - a)] else []
  }

  lemma CallsStep(h: seq<P.Handled>, x: P.Handled, a: nat, b: nat)
    ensures Calls(h + [x], a, b) == if a <= x.s < b then Calls(h, a, b) + [P.Handled(x.stage, x.s - a)]
            else Calls(h, a, b)
  {
    assert (h + [x])[..|h|] == h;
    assert Calls(h, a, b) + [] == Calls(h, a, b);
  }

  /** A count, cut to the commands from a up to b. */
  function Within(d: nat, a: nat, b: nat): nat
    requires a <= b
  {
    if d <= a then 0 else if d <= b then d - a else b - a
  }

  lemma {:induction false} CallsDone(h: seq<P.Handled>, a: nat, b: nat, shards: nat, engines: nat, groups: seq<int>,
                                     stage: P.Stage)
    requires P.HistoryOk(h, shards, engines, groups) && a <= b
    ensures P.Done(Calls(h, a, b), stage) == Within(P.Done(h, stage), a, b)
  {
    hide P.HistoryOk, P.CallOk, P.NewGroup;
    if h != [] {
      var n := |h| - 1;
      P.PrefixOk(h, n, shards, engines, groups);
      HistoryAt(h, n, shards, engines, groups);
      CallsDone(h[..n], a, b, shards, engines, groups, stage);
      CallCounts(h[..n], h[n], shards, engines, groups);
      assert h[..n] + [h[n]] == h;
      CallsStep(h[..n], h[n], a, b);
      P.DoneAppend(h[..n], h[n], stage);
      if a <= h[n].s < b { P.DoneAppend(Calls(h[..n], a, b), P.Handled(h[n].stage, h[n].s - a), stage); }
    }
  }

  lemma CallCounts(h: seq<P.Handled>, x: P.Handled, shards: nat, engines: nat, groups: seq<int>)
    requires P.CallOk(h, x, shards, engines, groups)
    ensures x.s == P.Done(h, x.stage) < |groups|
  {
  }

  /** They are called as the history of a pipeline with these commands only. */
  lemma {:induction false} CallsOk(h: seq<P.Handled>, a: nat, b: nat, shards: nat, engines: nat, groups: seq<int>)
    requires P.HistoryOk(h, shards, engines, groups) && a <= b
    ensures P.HistoryOk(Calls(h, a, b), shards, engines, PartGroups(groups, a, b))
  {
    hide P.CallOk, PartGroups;
    if h != [] {
      var n := |h| - 1;
      P.PrefixOk(h, n, shards, engines, groups);
      assert P.CallOk(h[..n], h[n], shards, engines, groups);
      CallsOk(h[..n], a, b, shards, engines, groups);
      assert h[..n] + [h[n]] == h;
      CallsStep(h[..n], h[n], a, b);
      if a <= h[n].s < b {
        CallOkWithin(h[..n], h[n], a, b, shards, engines, groups);
        P.HistoryAppend(Calls(h[..n], a, b), P.Handled(h[n].stage, h[n].s - a), shards, engines,
                        PartGroups(groups, a, b));
      }
    }
  }

  lemma CallOkWithin(h: seq<P.Handled>, x: P.Handled, a: nat, b: nat, shards: nat, engines: nat, groups: seq<int>)
    requires P.HistoryOk(h, shards, engines, groups) && P.CallOk(h, x, shards, engines, groups) && a <= x.s < b
    ensures P.CallOk(Calls(h, a, b), P.Handled(x.stage, x.s - a), shards, engines, PartGroups(groups, a, b))
  {
    hide P.Done, P.HistoryOk;
    forall stage: P.Stage ensures P.Done(Calls(h, a, b), stage) == Within(P.Done(h, stage), a, b) {
      CallsDone(h, a, b, shards, engines, groups, stage);
    }
    if x.stage.R1? { P.SettledAfterHeld(h, shards, engines, groups, x.stage.shard); }
  }

  lemma {:induction false} DoneBound(h: seq<P.Handled>, shards: nat, engines: nat, groups: seq<int>, stage: P.Stage)
    requires P.HistoryOk(h, shards, engines, groups)
    ensures P.Done(h, stage) <= |groups|
  {
    hide P.CallOk, P.NewGroup;
    if h != [] {
      var n := |h| - 1;
      P.PrefixOk(h, n, shards, engines, groups);
      assert P.CallOk(h[..n], h[n], shards, engines, groups);
      CallCounts(h[..n], h[n], shards, engines, groups);
      DoneBound(h[..n], shards, engines, groups, stage);
    }
  }

  // ----- An epoch -----

  /** No reset among the commands from a up to b, a reset that started a group just before them, and a group start right
      behind them. */
  ghost predicate Epoch(c: Setup, groups: seq<int>, a: nat, b: nat) {
    && a <= b <= |c.commands| && |groups| <= |c.commands|
    && (a == 0 || (a <= |groups| && c.commands[a - 1] == Control(RESET) && P.NewGroup(groups, a - 1)))
    && (b < |groups| ==> P.NewGroup(groups, b))
    && forall s: nat | a <= s < b :: c.commands[s] != Control(RESET)
  }

  /** A hold for the command behind the epoch that changes nothing still belongs to it. */
  function End(c: Setup, b: nat): nat {
    if b < |c.commands| && c.commands[b].Control? && c.commands[b] != Control(RESET) then b + 1 else b
  }

  /** The world in which a call was made. */
  ghost function AtCall(c: Setup, shards: nat, h: seq<P.Handled>, e: P.Handled): (w: World)
    ensures |w.shards| == |w.known| == shards
  {
    if h == [] then Begin(shards)
    else if h[|h| - 1] == e then After(c, shards, h[..|h| - 1])
    else AtCall(c, shards, h[..|h| - 1], e)
  }

  lemma AtCallStep(c: Setup, shards: nat, h: seq<P.Handled>, x: P.Handled, e: P.Handled)
    ensures AtCall(c, shards, h + [x], e) == if x == e then After(c, shards, h) else AtCall(c, shards, h, e)
  {
    assert (h + [x])[..|h|] == h;
  }

  ghost predicate SameShard(w: World, u: World, i: nat) {
    i < |w.shards| == |w.known| == |u.shards| == |u.known| && w.shards[i] == u.shards[i] && w.known[i] == u.known[i]
  }

  ghost predicate SameBook(w: World, u: World, y: int) {
    && (y in w.books <==> y in u.books) && (y in w.books ==> w.books[y] == u.books[y])
    && (y in w.listed <==> y in u.listed) && (y in w.listed ==> w.listed[y] == u.listed[y])
  }

  /** Command t of one world is command v of the other. */
  ghost predicate SameCommand(w: World, t: nat, u: World, v: nat) {
    && (t in w.held <==> v in u.held) && (t in w.held ==> w.held[t] == u.held[v])
    && (t in w.matched <==> v in u.matched) && (t in w.matched ==> w.matched[t] == u.matched[v])
  }

  ghost predicate CommandIn(w: World, u: World, a: nat, t: nat)
    requires a <= t
  {
    SameCommand(w, t, u, t - a)
  }

  /** The world of the epoch's own exchange. */
  ghost function Own(c: Setup, shards: nat, h: seq<P.Handled>, a: nat, b: nat): (u: World)
    requires a <= b <= |c.commands|
    ensures |u.shards| == |u.known| == shards
  {
    After(Part(c, a, b), shards, Calls(h, a, b))
  }

  /** A shard that has not come to the epoch is unused in its own exchange; while it is in the epoch it is the same in
      both; and when it leaves the epoch it is what it stays in the epoch's own exchange. */
  ghost predicate ShardIn(c: Setup, shards: nat, h: seq<P.Handled>, a: nat, b: nat, w: World, u: World, i: nat) {
    var d, e := P.Done(h, P.R1(i)), End(c, b);
    && (d <= a ==> SameShard(u, Begin(shards), i))
    && (a <= d <= e ==> SameShard(w, u, i))
    && (e < d ==> SameShard(AtCall(c, shards, h, P.Handled(P.R1(i), e)), u, i))
  }

  /** The same for the books of a matching shard. */
  ghost predicate BookOf(c: Setup, shards: nat, h: seq<P.Handled>, a: nat, b: nat, w: World, u: World, y: int) {
    var d := P.Done(h, P.ME(EngineOf(c, y)));
    && (d <= a ==> SameBook(u, Begin(shards), y))
    && (a <= d <= b ==> SameBook(w, u, y))
    && (b < d ==> SameBook(AtCall(c, shards, h, P.Handled(P.ME(EngineOf(c, y)), b)), u, y))
  }

  ghost predicate InEpoch(c: Setup, shards: nat, h: seq<P.Handled>, a: nat, b: nat)
    requires a <= b <= |c.commands|
  {
    var w, u := After(c, shards, h), Own(c, shards, h, a, b);
    && (forall i: nat | i < shards :: ShardIn(c, shards, h, a, b, w, u, i))
    && (forall y: int :: BookOf(c, shards, h, a, b, w, u, y))
    && forall t: nat | a <= t < b :: CommandIn(w, u, a, t)
  }

  // ----- What a call changes -----

  lemma EffectLocal(c: Setup, w: World, x: P.Handled)
    requires |w.shards| == |w.known|
    ensures var w' := Effect(c, w, x);
            && (forall i: nat | i < |w.shards| && !(x.stage == P.R1(i) || x.stage == P.R2(i)) :: SameShard(w', w, i))
            && (forall y: int | x.stage != P.ME(EngineOf(c, y)) :: SameBook(w', w, y))
            && forall t: nat | t != x.s :: SameCommand(w', t, w, t)
  {
    hide HoldCall, MatchCall, SettleCall;
    match x.stage {
      case R1(i) => if i < |w.shards| && x.s < |c.commands| { HoldLocal(c, w, i, x.s); }
      case ME(j) => if x.s < |c.commands| { MatchLocal(c, w, j, x.s); }
      case R2(i) => if i < |w.shards| && x.s < |c.commands| { SettleLocal(c, w, i, x.s); }
    }
  }

  lemma HoldLocal(c: Setup, w: World, i: nat, s: nat)
    requires i < |w.shards| == |w.known| && s < |c.commands|
    ensures var w' := HoldCall(c, w, i, s);
            && (forall k: nat | k < |w.shards| && k != i :: SameShard(w', w, k))
            && (forall y: int :: SameBook(w', w, y)) && forall t: nat | t != s :: SameCommand(w', t, w, t)
  {
    hide HoldOf;
  }

  lemma SettleLocal(c: Setup, w: World, i: nat, s: nat)
    requires i < |w.shards| == |w.known| && s < |c.commands|
    ensures var w' := SettleCall(c, w, i, s);
            && (forall k: nat | k < |w.shards| && k != i :: SameShard(w', w, k))
            && (forall y: int :: SameBook(w', w, y)) && forall t: nat :: SameCommand(w', t, w, t)
  {
    hide SettleFails, SettleOf;
  }

  lemma MatchLocal(c: Setup, w: World, j: nat, s: nat)
    requires |w.shards| == |w.known| && s < |c.commands|
    ensures var w' := MatchCall(c, w, j, s);
            && w'.shards == w.shards && w'.known == w.known
            && (forall y: int | EngineOf(c, y) != j :: SameBook(w', w, y))
               && forall t: nat | t != s :: SameCommand(w', t, w, t)
  {
    hide Step, AddedTo;
    if c.commands[s].Binary? && c.commands[s].message.AddSymbols? {
      var symbols := c.commands[s].message.symbols;
      forall y: int | EngineOf(c, y) != j ensures SameBook(MatchCall(c, w, j, s), w, y) {
        if y in w.listed { AddedKeeps(w.listed, symbols, c.marginEnabled, y); }
      }
    }
  }

  /** A call for a command that changes nothing. */
  lemma SilentCall(c: Setup, w: World, x: P.Handled)
    requires |w.shards| == |w.known| && x.s < |c.commands| && c.commands[x.s].Control?
             && c.commands[x.s] != Control(RESET)
    ensures Effect(c, w, x) == w
  {
  }

  lemma SilentSettle(c: Setup, w: World, i: nat, s: nat)
    requires i < |w.shards| == |w.known| && s < |c.commands| && c.commands[s].Control?
    ensures Effect(c, w, P.Handled(P.R2(i), s)) == w
  {
  }

  /** A reset leaves a shard unused and a matching shard without books. */
  lemma ResetCall(c: Setup, w: World, x: P.Handled)
    requires |w.shards| == |w.known| && x.s < |c.commands| && c.commands[x.s] == Control(RESET)
    ensures var w' := Effect(c, w, x);
            && (forall i: nat | i < |w.shards| && x.stage == P.R1(i) :: SameShard(w', Begin(|w.shards|), i))
            && (forall i: nat | x.stage == P.R2(i) :: w' == w)
            && forall y: int | x.stage == P.ME(EngineOf(c, y)) :: SameBook(w', Begin(|w.shards|), y)
  {
  }

  // ----- The same call in two worlds that agree on what it reads -----

  ghost predicate SameSetup(c: Setup, s: nat, c': Setup, v: nat) {
    && s < |c.commands| && v < |c'.commands| && c.commands[s] == c'.commands[v]
    && c.marginEnabled == c'.marginEnabled && c.engines == c'.engines
  }

  lemma HoldAgrees(c: Setup, w: World, s: nat, c': Setup, u: World, v: nat, i: nat)
    requires SameSetup(c, s, c', v) && SameShard(w, u, i) && SameCommand(w, s, u, v)
    ensures SameShard(HoldCall(c, w, i, s), HoldCall(c', u, i, v), i)
    ensures SameCommand(HoldCall(c, w, i, s), s, HoldCall(c', u, i, v), v)
  {
    hide PlaceOrderRiskCheck, AddedTo, AdjustBalance, AddUser, SuspendUser, ResumeUser, AddAccounts;
  }

  lemma SettleAgrees(c: Setup, w: World, s: nat, c': Setup, u: World, v: nat, i: nat)
    requires SameSetup(c, s, c', v) && SameShard(w, u, i) && SameCommand(w, s, u, v)
    ensures SettleFails(c, w, i, s) <==> SettleFails(c', u, i, v)
    ensures SameShard(SettleCall(c, w, i, s), SettleCall(c', u, i, v), i)
    ensures SameCommand(SettleCall(c, w, i, s), s, SettleCall(c', u, i, v), v)
  {
    hide Settle;
  }

  lemma MatchAgrees(c: Setup, w: World, s: nat, c': Setup, u: World, v: nat, j: nat)
    requires SameSetup(c, s, c', v) && SameCommand(w, s, u, v)
    requires forall y: int | EngineOf(c, y) == j :: SameBook(w, u, y)
    ensures forall y: int | EngineOf(c, y) == j :: SameBook(MatchCall(c, w, j, s), MatchCall(c', u, j, v), y)
    ensures SameCommand(MatchCall(c, w, j, s), s, MatchCall(c', u, j, v), v)
  {
    hide MatchCall;
    match c.commands[s] {
      case Binary(AddSymbols(symbols)) => ListAgrees(c, w, s, c', u, v, j, symbols);
      case Trading(symbol, _, _) => TradeAgrees(c, w, s, c', u, v, j);
      case _ => OtherAgrees(c, w, s, c', u, v, j);
    }
  }

  lemma OtherAgrees(c: Setup, w: World, s: nat, c': Setup, u: World, v: nat, j: nat)
    requires SameSetup(c, s, c', v) && SameCommand(w, s, u, v)
    requires !c.commands[s].Trading? && !(c.commands[s].Binary? && c.commands[s].message.AddSymbols?)
    requires forall y: int | EngineOf(c, y) == j :: SameBook(w, u, y)
    ensures forall y: int | EngineOf(c, y) == j :: SameBook(MatchCall(c, w, j, s), MatchCall(c', u, j, v), y)
    ensures SameCommand(MatchCall(c, w, j, s), s, MatchCall(c', u, j, v), v)
  {
    forall y: int | EngineOf(c, y) == j ensures SameBook(MatchCall(c, w, j, s), MatchCall(c', u, j, v), y) {
      assert SameBook(w, u, y);
      if c.commands[s] == Control(RESET) {
        assert y !in MatchCall(c, w, j, s).books && y !in MatchCall(c', u, j, v).books;
        assert y !in MatchCall(c, w, j, s).listed && y !in MatchCall(c', u, j, v).listed;
      }
    }
  }

  lemma ListAgrees(c: Setup, w: World, s: nat, c': Setup, u: World, v: nat, j: nat, symbols: seq<(int, Symbol)>)
    requires SameSetup(c, s, c', v) && SameCommand(w, s, u, v) && c.commands[s] == Binary(AddSymbols(symbols))
    requires forall y: int | EngineOf(c, y) == j :: SameBook(w, u, y)
    ensures forall y: int | EngineOf(c, y) == j :: SameBook(MatchCall(c, w, j, s), MatchCall(c', u, j, v), y)
    ensures SameCommand(MatchCall(c, w, j, s), s, MatchCall(c', u, j, v), v)
  {
    hide ListedBy;
    forall y: int | EngineOf(c, y) == j ensures SameBook(MatchCall(c, w, j, s), MatchCall(c', u, j, v), y) {
      assert SameBook(w, u, y);
      ListedAlike(c, w, c', u, j, symbols, y);
    }
  }

  lemma ListedAlike(c: Setup, w: World, c': Setup, u: World, j: nat, symbols: seq<(int, Symbol)>, y: int)
    requires c.marginEnabled == c'.marginEnabled && c.engines == c'.engines && SameBook(w, u, y) && EngineOf(c, y) == j
    ensures var a, b := ListedBy(c, w, j, symbols), ListedBy(c', u, j, symbols);
            (y in a <==> y in b) && (y in a ==> a[y] == b[y])
  {
    hide AddedTo;
    AddedAlike(w.listed, u.listed, symbols, c.marginEnabled, y);
  }

  lemma TradeAgrees(c: Setup, w: World, s: nat, c': Setup, u: World, v: nat, j: nat)
    requires SameSetup(c, s, c', v) && SameCommand(w, s, u, v) && c.commands[s].Trading?
    requires forall y: int | EngineOf(c, y) == j :: SameBook(w, u, y)
    ensures forall y: int | EngineOf(c, y) == j :: SameBook(MatchCall(c, w, j, s), MatchCall(c', u, j, v), y)
    ensures SameCommand(MatchCall(c, w, j, s), s, MatchCall(c', u, j, v), v)
  {
    hide Step;
    var symbol := c.commands[s].symbol;
    assert RequestAt(c, w, s) == RequestAt(c', u, v);
    hide RequestAt;
    if EngineOf(c, symbol) == j { assert SameBook(w, u, symbol); }
    forall y: int | EngineOf(c, y) == j ensures SameBook(MatchCall(c, w, j, s), MatchCall(c', u, j, v), y) {
      assert SameBook(w, u, y);
    }
  }

  // ----- Every history -----

  lemma SettledBeforeGroup(h: seq<P.Handled>, shards: nat, engines: nat, groups: seq<int>, i: nat, s: nat)
    requires P.HistoryOk(h, shards, engines, groups) && s < |groups| && P.NewGroup(groups, s) && s < P.Done(h, P.R1(i))
    ensures s <= P.Done(h, P.R2(i))
  {
    var q := P.CallExists(h, shards, engines, groups, P.R1(i), s);
    assert P.CallOk(h[..q], h[q], shards, engines, groups);
    P.DoneMonotone(h, q, P.R2(i));
  }

  /** A shard that settles a command of an epoch is in the epoch, and one that settles an earlier command has not come
      to it. */
  lemma SettlesWhere(c: Setup, shards: nat, groups: seq<int>, h: seq<P.Handled>, a: nat, b: nat, i: nat, s: nat)
    requires P.HistoryOk(h, shards, c.engines, groups) && Epoch(c, groups, a, b)
             && s == P.Done(h, P.R2(i)) < P.Done(h, P.R1(i))
    ensures a <= s < b ==> a <= P.Done(h, P.R1(i)) <= b
    ensures s + 1 < a ==> P.Done(h, P.R1(i)) < a
  {
    hide P.Done, P.HistoryOk, P.NewGroup;
    DoneBound(h, shards, c.engines, groups, P.R1(i));
    if s < b && b < P.Done(h, P.R1(i)) { SettledBeforeGroup(h, shards, c.engines, groups, i, b); }
    if s + 1 < a && a <= P.Done(h, P.R1(i)) { SettledBeforeGroup(h, shards, c.engines, groups, i, a - 1); }
  }

  /** A call for a command of the epoch reads the same in both worlds, so it does the same. */
  lemma InsideAgrees(c: Setup, shards: nat, groups: seq<int>, h: seq<P.Handled>, x: P.Handled, a: nat, b: nat)
    requires P.HistoryOk(h, shards, c.engines, groups) && P.CallOk(h, x, shards, c.engines, groups)
             && Epoch(c, groups, a, b)
    requires a <= x.s < b && InEpoch(c, shards, h, a, b)
    ensures var w, u := After(c, shards, h), Own(c, shards, h, a, b);
            var w', u' := Effect(c, w, x), Effect(Part(c, a, b), u, P.Handled(x.stage, x.s - a));
            && CommandIn(w', u', a, x.s)
            && (forall i: nat | x.stage == P.R1(i) || x.stage == P.R2(i) ::
                  i < shards && a <= P.Done(h, P.R1(i)) <= b && (x.stage.R1? ==> P.Done(h, P.R1(i)) < b)
                      && SameShard(w', u', i))
            && (forall y: int | x.stage == P.ME(EngineOf(c, y)) :: SameBook(w', u', y))
            && (forall i: nat | x.stage == P.R2(i) :: SettleFails(c, w, i, x.s) <==>
                  SettleFails(Part(c, a, b), u, i, x.s - a))
  {
    hide P.Done, P.HistoryOk, P.NewGroup, After, AtCall, Calls, HoldCall, MatchCall, SettleCall, SettleFails,
         SameCommand, SameShard, SameBook;
    var w, u := After(c, shards, h), Own(c, shards, h, a, b);
    assert CommandIn(w, u, a, x.s);
    assert SameSetup(c, x.s, Part(c, a, b), x.s - a);
    match x.stage {
      case R1(i) =>
        assert ShardIn(c, shards, h, a, b, w, u, i);
        HoldAgrees(c, w, x.s, Part(c, a, b), u, x.s - a, i);
      case ME(j) =>
        forall y: int | EngineOf(c, y) == j ensures SameBook(w, u, y) { assert BookOf(c, shards, h, a, b, w, u, y); }
        MatchAgrees(c, w, x.s, Part(c, a, b), u, x.s - a, j);
      case R2(i) =>
        SettlesWhere(c, shards, groups, h, a, b, i, x.s);
        assert ShardIn(c, shards, h, a, b, w, u, i);
        SettleAgrees(c, w, x.s, Part(c, a, b), u, x.s - a, i);
    }
  }

  lemma Counts(h: seq<P.Handled>, x: P.Handled)
    ensures forall stage: P.Stage :: P.Done(h + [x], stage) == P.Done(h, stage) + if x.stage == stage then 1 else 0
  {
    hide P.Done;
    forall stage: P.Stage ensures P.Done(h + [x], stage) == P.Done(h, stage) + if x.stage == stage then 1 else 0 {
      P.DoneAppend(h, x, stage);
    }
  }

  lemma InsideCall(c: Setup, shards: nat, groups: seq<int>, h: seq<P.Handled>, x: P.Handled, a: nat, b: nat)
    requires P.HistoryOk(h, shards, c.engines, groups) && P.CallOk(h, x, shards, c.engines, groups)
             && Epoch(c, groups, a, b)
    requires a <= x.s < b && InEpoch(c, shards, h, a, b)
    ensures InEpoch(c, shards, h + [x], a, b)
  {
    hide P.Done, P.HistoryOk, P.NewGroup, After, AtCall, Calls, Effect, SameShard, SameBook, SameCommand;
    var w, u := After(c, shards, h), Own(c, shards, h, a, b);
    var v := P.Handled(x.stage, x.s - a);
    var w', u' := Effect(c, w, x), Effect(Part(c, a, b), u, v);
    AfterOne(c, shards, h, x);
    CallsStep(h, x, a, b);
    AfterOne(Part(c, a, b), shards, Calls(h, a, b), v);
    EffectLocal(c, w, x);
    EffectLocal(Part(c, a, b), u, v);
    InsideAgrees(c, shards, groups, h, x, a, b);
    Counts(h, x);
    forall i: nat | i < shards ensures ShardIn(c, shards, h + [x], a, b, w', u', i) {
      assert ShardIn(c, shards, h, a, b, w, u, i);
      AtCallStep(c, shards, h, x, P.Handled(P.R1(i), End(c, b)));
      if !(x.stage == P.R1(i) || x.stage == P.R2(i)) { ShardUntouched(w, u, w', u', i); }
    }
    forall y: int ensures BookOf(c, shards, h + [x], a, b, w', u', y) {
      assert BookOf(c, shards, h, a, b, w, u, y);
      AtCallStep(c, shards, h, x, P.Handled(P.ME(EngineOf(c, y)), b));
      if x.stage != P.ME(EngineOf(c, y)) { BookUntouched(w, u, w', u', y); }
    }
    forall t: nat | a <= t < b ensures CommandIn(w', u', a, t) {
      assert CommandIn(w, u, a, t);
      if t != x.s { CommandUntouched(w, u, w', u', t, t - a); }
    }
  }

  lemma ShardUntouched(w: World, u: World, w': World, u': World, i: nat)
    requires SameShard(w', w, i) && SameShard(u', u, i)
    ensures forall v: World :: SameShard(v, u, i) ==> SameShard(v, u', i)
    ensures forall v: World :: SameShard(u, v, i) ==> SameShard(u', v, i)
    ensures SameShard(w, u, i) ==> SameShard(w', u', i)
  {
  }

  lemma BookUntouched(w: World, u: World, w': World, u': World, y: int)
    requires SameBook(w', w, y) && SameBook(u', u, y)
    ensures forall v: World :: SameBook(v, u, y) ==> SameBook(v, u', y)
    ensures forall v: World :: SameBook(u, v, y) ==> SameBook(u', v, y)
    ensures SameBook(w, u, y) ==> SameBook(w', u', y)
  {
  }

  lemma CommandUntouched(w: World, u: World, w': World, u': World, t: nat, v: nat)
    requires SameCommand(w', t, w, t) && SameCommand(u', v, u, v) && SameCommand(w, t, u, v)
    ensures SameCommand(w', t, u', v)
  {
  }

  /** Other calls change nothing of the epoch: a reset just before it leaves what it starts from. */
  lemma OutsideCall(c: Setup, shards: nat, groups: seq<int>, h: seq<P.Handled>, x: P.Handled, a: nat, b: nat)
    requires P.HistoryOk(h, shards, c.engines, groups) && P.CallOk(h, x, shards, c.engines, groups)
             && Epoch(c, groups, a, b)
    requires !(a <= x.s < b) && InEpoch(c, shards, h, a, b)
    ensures InEpoch(c, shards, h + [x], a, b)
  {
    hide P.Done, P.HistoryOk, P.NewGroup, After, AtCall, Calls, Effect, SameShard, SameBook, SameCommand;
    var w, u := After(c, shards, h), Own(c, shards, h, a, b);
    var w' := Effect(c, w, x);
    AfterOne(c, shards, h, x);
    CallsStep(h, x, a, b);
    EffectLocal(c, w, x);
    forall i: nat | i < shards ensures ShardIn(c, shards, h + [x], a, b, w', u, i) {
      assert ShardIn(c, shards, h, a, b, w, u, i);
      OutsideShard(c, shards, groups, h, x, a, b, w, u, w', i);
    }
    forall y: int ensures BookOf(c, shards, h + [x], a, b, w', u, y) {
      assert BookOf(c, shards, h, a, b, w, u, y);
      OutsideBook(c, shards, groups, h, x, a, b, w, u, w', y);
    }
    forall t: nat | a <= t < b ensures CommandIn(w', u, a, t) {
      assert CommandIn(w, u, a, t);
      Itself(u, t - a);
      CommandUntouched(w, u, w', u, t, t - a);
    }
  }

  lemma Itself(u: World, v: nat)
    ensures SameCommand(u, v, u, v)
  {
  }

  lemma OutsideShard(c: Setup, shards: nat, groups: seq<int>, h: seq<P.Handled>, x: P.Handled, a: nat, b: nat, w: World,
                     u: World, w': World, i: nat)
    requires P.HistoryOk(h, shards, c.engines, groups) && P.CallOk(h, x, shards, c.engines, groups)
             && Epoch(c, groups, a, b)
    requires !(a <= x.s < b) && w == After(c, shards, h) && w' == Effect(c, w, x)
             && ShardIn(c, shards, h, a, b, w, u, i) && i < shards
    ensures ShardIn(c, shards, h + [x], a, b, w', u, i)
  {
    hide P.Done, P.HistoryOk, P.NewGroup, After, AtCall, Effect, SameShard;
    Counts(h, x);
    AtCallStep(c, shards, h, x, P.Handled(P.R1(i), End(c, b)));
    if x.stage == P.R1(i) {
      if x.s + 1 == a { ResetCall(c, w, x); ShardReset(shards, w', u, i); }
      if x.s == b && End(c, b) == b + 1 { SilentCall(c, w, x); }
    } else if x.stage == P.R2(i) {
      SettlesWhere(c, shards, groups, h, a, b, i, x.s);
      if x.s + 1 == a || (x.s == b && End(c, b) == b + 1) { SilentSettle(c, w, i, x.s); }
    } else {
      EffectLocal(c, w, x);
      ShardMoved(w, u, w', i);
    }
  }

  lemma ShardMoved(w: World, u: World, w': World, i: nat)
    requires SameShard(w', w, i)
    ensures SameShard(w, u, i) ==> SameShard(w', u, i)
  {
  }

  lemma ShardReset(shards: nat, w': World, u: World, i: nat)
    requires SameShard(w', Begin(shards), i) && SameShard(u, Begin(shards), i)
    ensures SameShard(w', u, i)
  {
  }

  lemma OutsideBook(c: Setup, shards: nat, groups: seq<int>, h: seq<P.Handled>, x: P.Handled, a: nat, b: nat, w: World,
                    u: World, w': World, y: int)
    requires P.HistoryOk(h, shards, c.engines, groups) && P.CallOk(h, x, shards, c.engines, groups)
             && Epoch(c, groups, a, b)
    requires !(a <= x.s < b) && w == After(c, shards, h) && w' == Effect(c, w, x) && BookOf(c, shards, h, a, b, w, u, y)
    ensures BookOf(c, shards, h + [x], a, b, w', u, y)
  {
    hide P.Done, P.HistoryOk, P.NewGroup, After, AtCall, Effect, SameBook;
    Counts(h, x);
    AtCallStep(c, shards, h, x, P.Handled(P.ME(EngineOf(c, y)), b));
    if x.stage == P.ME(EngineOf(c, y)) {
      if x.s + 1 == a { ResetCall(c, w, x); BookReset(shards, w', u, y); }
    } else {
      EffectLocal(c, w, x);
      BookMoved(w, u, w', y);
    }
  }

  lemma BookMoved(w: World, u: World, w': World, y: int)
    requires SameBook(w', w, y)
    ensures SameBook(w, u, y) ==> SameBook(w', u, y)
  {
  }

  lemma BookReset(shards: nat, w': World, u: World, y: int)
    requires SameBook(w', Begin(shards), y) && SameBook(u, Begin(shards), y)
    ensures SameBook(w', u, y)
  {
  }

  /** In every history every epoch runs as on an exchange of its own. */
  lemma {:induction false} EveryHistory(c: Setup, shards: nat, groups: seq<int>, h: seq<P.Handled>, a: nat, b: nat)
    requires P.HistoryOk(h, shards, c.engines, groups) && Epoch(c, groups, a, b)
    ensures InEpoch(c, shards, h, a, b)
    decreases |h|
  {
    hide InEpoch, P.CallOk, Epoch;
    if h == [] {
      EpochBegins(c, shards, groups, a, b);
    } else {
      var n := |h| - 1;
      P.PrefixOk(h, n, shards, c.engines, groups);
      assert P.CallOk(h[..n], h[n], shards, c.engines, groups);
      EveryHistory(c, shards, groups, h[..n], a, b);
      if a <= h[n].s < b {
        InsideCall(c, shards, groups, h[..n], h[n], a, b);
      } else {
        OutsideCall(c, shards, groups, h[..n], h[n], a, b);
      }
      assert h[..n] + [h[n]] == h;
    }
  }

  lemma EpochBegins(c: Setup, shards: nat, groups: seq<int>, a: nat, b: nat)
    requires Epoch(c, groups, a, b)
    ensures InEpoch(c, shards, [], a, b)
  {
    assert Calls([], a, b) == [];
  }

  // ----- Where the epochs are -----

  /** The place behind the last reset before command n. */
  function Since(c: Setup, n: nat): (a: nat)
    ensures a <= n
  {
    if n == 0 then 0 else if n <= |c.commands| && c.commands[n - 1] == Control(RESET) then n else Since(c, n - 1)
  }

  /** The place of the first reset from command n on. */
  function Until(c: Setup, n: nat): (b: nat)
    ensures n <= |c.commands| ==> n <= b <= |c.commands|
    decreases if n < |c.commands| then |c.commands| - n else 0
  {
    if n < |c.commands| then (if c.commands[n] == Control(RESET) then n else Until(c, n + 1)) else n
  }

  lemma {:induction false} SinceIs(c: Setup, n: nat)
    requires n <= |c.commands|
    ensures var a := Since(c, n);
            (a == 0 || c.commands[a - 1] == Control(RESET))
                && forall s: nat | a <= s < n :: c.commands[s] != Control(RESET)
  {
    if 0 < n && c.commands[n - 1] != Control(RESET) { SinceIs(c, n - 1); }
  }

  lemma {:induction false} UntilIs(c: Setup, n: nat)
    requires n <= |c.commands|
    ensures var b := Until(c, n);
            (b == |c.commands| || c.commands[b] == Control(RESET))
                && forall s: nat | n <= s < b :: c.commands[s] != Control(RESET)
    decreases |c.commands| - n
  {
    if n < |c.commands| && c.commands[n] != Control(RESET) { UntilIs(c, n + 1); }
  }

  /** Every reset starts a group. */
  ghost predicate ResetsGrouped(c: Setup, groups: seq<int>) {
    |groups| <= |c.commands| && forall s: nat | s < |groups| :: c.commands[s] == Control(RESET) ==>
        P.NewGroup(groups, s)
  }

  lemma EpochSince(c: Setup, groups: seq<int>, n: nat, b: nat)
    requires ResetsGrouped(c, groups) && n <= |groups| && n <= b <= |c.commands|
             && (b < |groups| ==> P.NewGroup(groups, b))
    requires forall s: nat | n <= s < b :: c.commands[s] != Control(RESET)
    ensures Epoch(c, groups, Since(c, n), b)
  {
    hide P.NewGroup;
    SinceIs(c, n);
  }

  // ----- Each epoch is a run of the exchange -----

  lemma PartIsPlain(c: Setup, shards: nat, groups: seq<int>, h: seq<P.Handled>, a: nat, b: nat)
    requires SetupOk(c) && 0 < shards && P.HistoryOk(h, shards, c.engines, groups) && Epoch(c, groups, a, b)
    ensures Schedule(Part(c, a, b), shards, PartGroups(groups, a, b), Calls(h, a, b))
  {
    hide P.HistoryOk, P.NewGroup, Calls;
    CallsOk(h, a, b, shards, c.engines, groups);
    var part := Part(c, a, b);
    forall s: nat | s < |part.commands|
      ensures part.commands[s] != Control(RESET)
    {
      assert part.commands[s] == c.commands[a + s];
    }
  }

  /** The shards and books of an epoch are those a run of the exchange reaches from its start. */
  lemma EpochIsARun(c: Setup, shards: nat, groups: seq<int>, h: seq<P.Handled>, a: nat, b: nat)
    returns (x: X.State, q: Queues, actions: seq<X.Action>)
    requires SetupOk(c) && 0 < shards && P.HistoryOk(h, shards, c.engines, groups) && Epoch(c, groups, a, b)
    ensures InEpoch(c, shards, h, a, b)
    ensures Simulates(Part(c, a, b), Own(c, shards, h, a, b), Calls(h, a, b), x, q) && |x.shards| == shards
    ensures X.Start(AllKnown(Part(c, a, b)), c.marginEnabled, shards).shards != []
    ensures X.Exec(X.Start(AllKnown(Part(c, a, b)), c.marginEnabled, shards), actions) == Some(x)
  {
    hide InEpoch, Simulates, After, Calls, Epoch, P.HistoryOk;
    EveryHistory(c, shards, groups, h, a, b);
    PartIsPlain(c, shards, groups, h, a, b);
    assert a <= b <= |c.commands| by { EpochRange(c, groups, a, b); }
    x, q, actions := EverySchedule(Part(c, a, b), shards, PartGroups(groups, a, b), Calls(h, a, b));
  }

  lemma EpochRange(c: Setup, groups: seq<int>, a: nat, b: nat)
    requires Epoch(c, groups, a, b)
    ensures a <= b <= |c.commands| && |groups| <= |c.commands|
  {
  }

  /** However many resets there are, if each starts a group no settlement fails: the symbol is known and every record is
      there. */
  lemma NoSettlementFails(c: Setup, shards: nat, groups: seq<int>, h: seq<P.Handled>, q: nat, i: nat)
    requires SetupOk(c) && ResetsGrouped(c, groups) && P.HistoryOk(h, shards, c.engines, groups)
    requires q < |h| && h[q].stage == P.R2(i)
    ensures i < shards && h[q].s < |c.commands| && !SettleFails(c, After(c, shards, h[..q]), i, h[q].s)
  {
    hide After, Calls, P.Done, P.HistoryOk, P.NewGroup, Simulates, InEpoch, Epoch, SettleOf;
    var x, before := h[q], h[..q];
    assert P.CallOk(before, x, shards, c.engines, groups) by { HistoryAt(h, q, shards, c.engines, groups); }
    P.PrefixOk(h, q, shards, c.engines, groups);
    if c.commands[x.s].Trading? {
      var a, b := Since(c, x.s), Until(c, x.s);
      UntilIs(c, x.s);
      EpochSince(c, groups, x.s, b);
      var state, queues, run := EpochIsARun(c, shards, groups, before, a, b);
      InsideAgrees(c, shards, groups, before, x, a, b);
      PartIsPlain(c, shards, groups, before, a, b);
      CallOkWithin(before, x, a, b, shards, c.engines, groups);
      var e := P.Handled(x.stage, x.s - a);
      var state', queues', more :=
          OneCall(Part(c, a, b), shards, PartGroups(groups, a, b), Calls(before, a, b), e, state, queues);
    }
  }

  lemma HistoryAt(h: seq<P.Handled>, q: nat, shards: nat, engines: nat, groups: seq<int>)
    requires P.HistoryOk(h, shards, engines, groups) && q < |h|
    ensures P.CallOk(h[..q], h[q], shards, engines, groups)
  {
  }

  /** Once every stage has been called for every command of an epoch, the shards and books of its exchange hold all the
      money there is. */
  lemma EpochConserves(c: Setup, shards: nat, groups: seq<int>, h: seq<P.Handled>, a: nat, b: nat, cur: int,
                       marks: Marks)
    requires SetupOk(c) && 0 < shards && P.HistoryOk(h, shards, c.engines, groups) && Epoch(c, groups, a, b)
    requires forall i: nat | i < shards :: b <= P.Done(h, P.R1(i)) && b <= P.Done(h, P.R2(i))
    requires forall j: nat | j < c.engines :: b <= P.Done(h, P.ME(j))
    ensures var u := Own(c, shards, h, a, b); Stored(u, cur, marks) == Total(u.matched, OverpaidBy(Part(c, a, b), cur))
    ensures forall i: nat | i < shards :: P.Done(Calls(h, a, b), P.R1(i)) == P.Done(Calls(h, a, b), P.R2(i)) == b - a
    ensures forall j: nat | j < c.engines :: P.Done(Calls(h, a, b), P.ME(j)) == b - a
  {
    hide After, Calls, P.Done, P.HistoryOk, Stored, P.NewGroup;
    PartIsPlain(c, shards, groups, h, a, b);
    forall stage: P.Stage ensures P.Done(Calls(h, a, b), stage) == Within(P.Done(h, stage), a, b) {
      CallsDone(h, a, b, shards, c.engines, groups, stage);
    }
    hide Schedule;
    DrainedConserves(Part(c, a, b), shards, PartGroups(groups, a, b), Calls(h, a, b), cur, marks);
  }

  // ----- The pipeline -----

  /** A pipeline run with these commands, in which grouping is on at every reset. */
  ghost predicate Deployed(c: Setup, p: P.Pipe) {
    && P.Invariant(p) && SetupOk(c) && |p.engines| == c.engines && |p.kinds| <= |c.commands|
    && (forall s: nat | s < |p.kinds| :: p.kinds[s] == KindOf(c.commands[s]))
    && forall s: nat | s < |p.groups| && p.kinds[s] == RESET :: p.marked[s]
  }

  lemma DeployedIs(c: Setup, p: P.Pipe)
    requires Deployed(c, p)
    ensures 0 < |p.risks| && P.HistoryOk(p.history, |p.risks|, c.engines, p.groups) && ResetsGrouped(c, p.groups)
    ensures |p.groups| <= |p.kinds| <= |c.commands| && |p.marked| == |p.groups| && |p.engines| == c.engines
    ensures forall i: nat | i < |p.risks| ::
              P.Done(p.history, P.R1(i)) == p.risks[i].next && P.Done(p.history, P.R2(i)) == p.risks[i].slaveNext
    ensures forall j: nat | j < c.engines :: P.Done(p.history, P.ME(j)) == p.engines[j].next
    ensures forall s: nat | s < |p.groups| && p.marked[s] && StartsGroup(p.kinds[s]) && !p.kinds[s].GROUPING_CONTROL? ::
              P.NewGroup(p.groups, s)
  {
    hide P.HistoryOk, P.NewGroup, P.RiskOk, P.EngineOk, P.MatchedUpTo, P.Done;
    forall s: nat | s < |p.groups| && c.commands[s] == Control(RESET) ensures P.NewGroup(p.groups, s) {
      assert p.kinds[s] == KindOf(c.commands[s]) == RESET;
    }
  }

  /** When the pipeline has drained, the live state is that of an exchange that has run only the commands behind the
      last reset, and it holds all the money there is, whatever the schedule was. */
  lemma FinishedConserves(c: Setup, p: P.Pipe, cur: int, marks: Marks)
    requires Deployed(c, p) && P.Finished(p)
    ensures var n := |p.kinds|;
            var a := Since(c, n);
            var w, u := After(c, |p.risks|, p.history), Own(c, |p.risks|, p.history, a, n);
            && w.shards == u.shards && w.known == u.known && w.books == u.books && w.listed == u.listed
            && Stored(w, cur, marks) == Total(u.matched, OverpaidBy(Part(c, a, n), cur))
  {
    hide After, Calls, P.Done, P.HistoryOk, P.NewGroup, Stored, Deployed, P.Invariant, Epoch, SetupOk;
    var n, h, shards := |p.kinds|, p.history, |p.risks|;
    var a := Since(c, n);
    DeployedIs(c, p);
    EpochSince(c, p.groups, n, n);
    EveryHistory(c, shards, p.groups, h, a, n);
    assert SetupOk(c) by { DeployedSetup(c, p); }
    EpochConserves(c, shards, p.groups, h, a, n, cur, marks);
    var w, u := After(c, shards, h), Own(c, shards, h, a, n);
    forall i: nat | i < shards ensures SameShard(w, u, i) { assert ShardIn(c, shards, h, a, n, w, u, i); }
    forall y: int ensures SameBook(w, u, y) { BookAtEnd(c, p, h, a, n, w, u, y); }
    AllSame(w, u);
    assert Stored(w, cur, marks) == Stored(u, cur, marks) by { StoredSame(w, u, cur, marks); }
  }

  lemma DeployedSetup(c: Setup, p: P.Pipe)
    requires Deployed(c, p)
    ensures SetupOk(c) && |p.engines| == c.engines
  {
  }

  lemma EngineInRange(c: Setup, y: int)
    requires 0 < c.engines
    ensures EngineOf(c, y) < c.engines
  {
  }

  lemma BookAtEnd(c: Setup, p: P.Pipe, h: seq<P.Handled>, a: nat, n: nat, w: World, u: World, y: int)
    requires Deployed(c, p) && P.Finished(p) && h == p.history && n == |p.kinds| && a <= n
             && BookOf(c, |p.risks|, h, a, n, w, u, y)
    ensures SameBook(w, u, y)
  {
    hide P.Done, AtCall, SameBook, Deployed;
    DeployedIs(c, p);
    DeployedSetup(c, p);
    EngineInRange(c, y);
  }

  lemma AllSame(w: World, u: World)
    requires |w.shards| == |w.known| == |u.shards| == |u.known|
    requires (forall i: nat | i < |w.shards| :: SameShard(w, u, i)) && forall y: int :: SameBook(w, u, y)
    ensures w.shards == u.shards && w.known == u.known && w.books == u.books && w.listed == u.listed
  {
    forall i: nat | i < |w.shards|
      ensures w.shards[i] == u.shards[i] && w.known[i] == u.known[i]
    {
      assert SameShard(w, u, i);
    }
    assert w.shards == u.shards && w.known == u.known;
    forall y: int
      ensures (y in w.books <==> y in u.books) && (y in w.books ==> w.books[y] == u.books[y])
    {
      assert SameBook(w, u, y);
    }
    assert w.books == u.books;
    forall y: int
      ensures (y in w.listed <==> y in u.listed) && (y in w.listed ==> w.listed[y] == u.listed[y])
    {
      assert SameBook(w, u, y);
    }
    assert w.listed == u.listed;
  }

  lemma StoredSame(w: World, u: World, cur: int, marks: Marks)
    requires w.shards == u.shards && w.books == u.books && w.listed == u.listed
    ensures Stored(w, cur, marks) == Stored(u, cur, marks)
  {
  }

  // ----- Resets and snapshots -----

  /** What the shards and the matching shards had when they were called for a command that starts a group is one
      conserving state: the world after every stage of exactly the commands since the last reset and before this one. */
  lemma GroupStartIsCut(c: Setup, p: P.Pipe, s: nat, cur: int, marks: Marks)
    requires Deployed(c, p) && s < |p.groups| && P.NewGroup(p.groups, s)
    requires (forall i: nat | i < |p.risks| :: End(c, s) < p.risks[i].next)
             && forall j: nat | j < |p.engines| :: s < p.engines[j].next
    ensures var h, n, a := p.history, |p.risks|, Since(c, s);
            var v := Own(c, n, h, a, s);
            && (forall i: nat | i < n :: SameShard(AtCall(c, n, h, P.Handled(P.R1(i), End(c, s))), v, i))
            && (forall y: int :: SameBook(AtCall(c, n, h, P.Handled(P.ME(EngineOf(c, y)), s)), v, y))
            && (forall i: nat | i < n :: P.Done(Calls(h, a, s), P.R1(i)) == P.Done(Calls(h, a, s), P.R2(i)) == s - a)
            && (forall j: nat | j < c.engines :: P.Done(Calls(h, a, s), P.ME(j)) == s - a)
            && Stored(v, cur, marks) == Total(v.matched, OverpaidBy(Part(c, a, s), cur))
  {
    hide After, AtCall, Calls, P.Done, P.HistoryOk, P.NewGroup, Stored, Deployed, P.Invariant, Epoch, SetupOk,
         SameShard, SameBook;
    var h, n, a := p.history, |p.risks|, Since(c, s);
    DeployedIs(c, p);
    DeployedSetup(c, p);
    EpochSince(c, p.groups, s, s);
    EveryHistory(c, n, p.groups, h, a, s);
    forall i: nat | i < n ensures s <= P.Done(h, P.R2(i)) { SettledBeforeGroup(h, n, c.engines, p.groups, i, s); }
    EpochConserves(c, n, p.groups, h, a, s, cur, marks);
    var w, v := After(c, n, h), Own(c, n, h, a, s);
    forall i: nat | i < n
      ensures SameShard(AtCall(c, n, h, P.Handled(P.R1(i), End(c, s))), v, i)
    {
      assert ShardIn(c, n, h, a, s, w, v, i);
    }
    forall y: int ensures SameBook(AtCall(c, n, h, P.Handled(P.ME(EngineOf(c, y)), s)), v, y) {
      assert BookOf(c, n, h, a, s, w, v, y);
      EnginePositive(c, p);
      EngineInRange(c, y);
    }
  }

  lemma EnginePositive(c: Setup, p: P.Pipe)
    requires Deployed(c, p)
    ensures 0 < c.engines
  {
  }

  /** A reset is a clean cut. What it drops is a state that holds all the money there is, after exactly the commands
      before it. And from then on every shard and every book is that of an exchange that starts empty and runs only the
      commands behind the reset. */
  lemma ResetIsCut(c: Setup, p: P.Pipe, s: nat, cur: int, marks: Marks)
    requires Deployed(c, p) && s < |p.groups| && c.commands[s] == Control(RESET)
    requires (forall i: nat | i < |p.risks| :: s < p.risks[i].next)
             && forall j: nat | j < |p.engines| :: s < p.engines[j].next
    ensures var h, n, a, b := p.history, |p.risks|, Since(c, s), Until(c, s + 1);
            var w, v, u := After(c, n, h), Own(c, n, h, a, s), Own(c, n, h, s + 1, b);
            && (forall i: nat | i < n :: SameShard(AtCall(c, n, h, P.Handled(P.R1(i), s)), v, i))
            && (forall y: int :: SameBook(AtCall(c, n, h, P.Handled(P.ME(EngineOf(c, y)), s)), v, y))
            && Stored(v, cur, marks) == Total(v.matched, OverpaidBy(Part(c, a, s), cur))
            && (forall i: nat | i < n && p.risks[i].next <= b :: SameShard(w, u, i))
            && (forall y: int | P.Done(h, P.ME(EngineOf(c, y))) <= b :: SameBook(w, u, y))
  {
    hide After, AtCall, Calls, P.Done, P.HistoryOk, P.NewGroup, Stored, Deployed, P.Invariant, SameShard, SameBook, Own;
    DeployedIs(c, p);
    GroupStartIsCut(c, p, s, cur, marks);
    BehindReset(c, p, s);
    EnginePositive(c, p);
    forall y: int ensures EngineOf(c, y) < c.engines { EngineInRange(c, y); }
  }

  lemma BehindReset(c: Setup, p: P.Pipe, s: nat)
    requires Deployed(c, p) && s < |p.groups| && c.commands[s] == Control(RESET)
    ensures var h, n, b := p.history, |p.risks|, Until(c, s + 1);
            var w, u := After(c, n, h), Own(c, n, h, s + 1, b);
            && (forall i: nat | i < n && s < p.risks[i].next <= b :: SameShard(w, u, i))
            && (forall y: int | s < P.Done(h, P.ME(EngineOf(c, y))) <= b :: SameBook(w, u, y))
  {
    hide After, AtCall, Calls, P.Done, P.HistoryOk, P.NewGroup, Deployed, P.Invariant, Epoch, SameShard, SameBook;
    var h, n, b := p.history, |p.risks|, Until(c, s + 1);
    DeployedIs(c, p);
    UntilIs(c, s + 1);
    assert Since(c, s + 1) == s + 1;
    EpochSince(c, p.groups, s + 1, b);
    EveryHistory(c, n, p.groups, h, s + 1, b);
    var w, u := After(c, n, h), Own(c, n, h, s + 1, b);
    forall i: nat | i < n && s < p.risks[i].next <= b
      ensures SameShard(w, u, i)
    {
      assert ShardIn(c, n, h, s + 1, b, w, u, i);
    }
    forall y: int | s < P.Done(h, P.ME(EngineOf(c, y))) <= b
      ensures SameBook(w, u, y)
    {
      assert BookOf(c, n, h, s + 1, b, w, u, y);
    }
  }

  /** The snapshot is consistent: the state each risk shard stores when called for the second snapshot command, and the
      books each matching shard stores when called for the first, are together the world after every stage of exactly
      the commands since the last reset and before the snapshot, so they hold all the money there is. It does not matter
      whether the two commands share a group. */
  lemma SnapshotIsConsistent(c: Setup, p: P.Pipe, s: nat, cur: int, marks: Marks)
    requires Deployed(c, p) && s + 1 < |p.groups| && p.marked[s]
    requires c.commands[s] == Control(PERSIST_STATE_MATCHING) && c.commands[s + 1] == Control(PERSIST_STATE_RISK)
    requires (forall i: nat | i < |p.risks| :: s + 1 < p.risks[i].next)
             && forall j: nat | j < |p.engines| :: s < p.engines[j].next
    ensures var h, n, a := p.history, |p.risks|, Since(c, s);
            var v := Own(c, n, h, a, s);
            && (forall i: nat | i < n :: SameShard(AtCall(c, n, h, P.Handled(P.R1(i), s + 1)), v, i))
            && (forall y: int :: SameBook(AtCall(c, n, h, P.Handled(P.ME(EngineOf(c, y)), s)), v, y))
            && (forall i: nat | i < n :: P.Done(Calls(h, a, s), P.R1(i)) == P.Done(Calls(h, a, s), P.R2(i)) == s - a)
            && (forall j: nat | j < c.engines :: P.Done(Calls(h, a, s), P.ME(j)) == s - a)
            && Stored(v, cur, marks) == Total(v.matched, OverpaidBy(Part(c, a, s), cur))
  {
    hide After, AtCall, Calls, P.Done, Stored, P.Invariant, SameShard, SameBook, Own, Deployed, P.NewGroup;
    DeployedIs(c, p);
    SnapshotStarts(c, p, s);
    GroupStartIsCut(c, p, s, cur, marks);
  }

  lemma SnapshotStarts(c: Setup, p: P.Pipe, s: nat)
    requires Deployed(c, p) && s < |p.groups| <= |c.commands| && |p.marked| == |p.groups| && p.marked[s]
             && c.commands[s] == Control(PERSIST_STATE_MATCHING)
    ensures P.NewGroup(p.groups, s)
  {
    hide P.Done, P.NewGroup, P.HistoryOk;
    DeployedIs(c, p);
    assert p.kinds[s] == KindOf(c.commands[s]);
  }

  // ----- A reset with grouping off -----

  /** Grouping is turned off, a symbol is listed, its book is requested, and the exchange is reset. */
  function Ungrouped(symbol: Symbol, request: Request): Setup {
    Setup(false, [Control(GROUPING_CONTROL(false)), Binary(AddSymbols([(1, symbol)])), Trading(1, request, 0),
                  Control(RESET)], 1)
  }

  /** The calls of a pipeline with one shard of each kind that has all four commands in one batch. */
  ghost function OneBatch(): seq<P.Handled> {
    [P.Handled(P.R1(0), 0), P.Handled(P.R1(0), 1), P.Handled(P.R1(0), 2), P.Handled(P.R1(0), 3),
     P.Handled(P.ME(0), 0), P.Handled(P.ME(0), 1), P.Handled(P.ME(0), 2), P.Handled(P.ME(0), 3),
     P.Handled(P.R2(0), 0), P.Handled(P.R2(0), 1)]
  }

  /** The four commands are published and grouped: with grouping off each keeps the group its slot held before. */
  lemma Published(limit: int) returns (actions: seq<P.Action>, q: P.Pipe)
    ensures P.Runs(P.Start(limit, 1, 1), actions, q)
    ensures q == P.Pipe([GROUPING_CONTROL(false), BINARY(true), ORDINARY, RESET], limit, GroupState(0, 0, false),
                        [0, 0, 0, 0],
                        [false, false, false, false], [P.Risk(P.Fetch, 0, 0, 0, 0, 0, 0)], [P.Engine(0, 0, 0)], [])
  {
    hide P.Runs;
    var p := P.Start(limit, 1, 1);
    P.NoStep(p);
    actions, q := P.OneStep(p, [], p, P.Publish(GROUPING_CONTROL(false)));
    actions, q := P.OneStep(p, actions, q, P.Publish(BINARY(true)));
    actions, q := P.OneStep(p, actions, q, P.Publish(ORDINARY));
    actions, q := P.OneStep(p, actions, q, P.Publish(RESET));
    actions, q := P.OneStep(p, actions, q, P.Group(0));
    actions, q := P.OneStep(p, actions, q, P.Group(0));
    actions, q := P.OneStep(p, actions, q, P.Group(0));
    actions, q := P.OneStep(p, actions, q, P.Group(0));
  }

  lemma AllHeld(p: P.Pipe, actions: seq<P.Action>, q: P.Pipe) returns (actions': seq<P.Action>, q': P.Pipe)
    requires P.Runs(p, actions, q) && q.history == [] && q.groups == [0, 0, 0, 0]
    requires q.kinds == [GROUPING_CONTROL(false), BINARY(true), ORDINARY, RESET]
             && q.risks == [P.Risk(P.Fetch, 0, 0, 0, 0, 0, 0)]
    ensures P.Runs(p, actions', q') && q'.history == OneBatch()[..4]
    ensures q' == q.(risks := [P.Risk(P.Cycle(4, false), 4, 4, 4, 0, 0, 0)], history := q'.history)
  {
    hide P.Runs;
    actions', q' := P.OneStep(p, actions, q, P.FetchR1(0, 4));
    for k := 0 to 4
      invariant P.Runs(p, actions', q') && q'.history == OneBatch()[..k]
      invariant q' == q.(risks := [P.Risk(P.Loop, k, 4, 0, 0, 0, 0)], history := q'.history)
    {
      actions', q' := P.OneStep(p, actions', q', P.GoR1(0));
      assert OneBatch()[..k + 1] == OneBatch()[..k] + [P.Handled(P.R1(0), k)];
    }
    actions', q' := P.OneStep(p, actions', q', P.GoR1(0));
  }

  /** So the risk shard holds all four in one batch, the reset included, before anything is matched or settled. */
  lemma OneBatchRuns(limit: int) returns (actions: seq<P.Action>, q: P.Pipe)
    ensures P.Runs(P.Start(limit, 1, 1), actions, q) && q.history == OneBatch()
    ensures q.kinds == [GROUPING_CONTROL(false), BINARY(true), ORDINARY, RESET] && |q.groups| == 4
    ensures P.Enabled(q, P.SettleR2(0)) && |q.risks| == 1 && q.risks[0].slaveNext == 2
  {
    hide P.Runs;
    var p := P.Start(limit, 1, 1);
    actions, q := Published(limit);
    actions, q := AllHeld(p, actions, q);
    actions, q := Caught(p, actions, q);
  }

  lemma Caught(p: P.Pipe, actions: seq<P.Action>, q: P.Pipe) returns (actions': seq<P.Action>, q': P.Pipe)
    requires P.Runs(p, actions, q) && q.history == OneBatch()[..4]
    requires q.kinds == [GROUPING_CONTROL(false), BINARY(true), ORDINARY, RESET] && q.groups == [0, 0, 0, 0]
    requires q.risks == [P.Risk(P.Cycle(4, false), 4, 4, 4, 0, 0, 0)] && q.engines == [P.Engine(0, 0, 0)]
    ensures P.Runs(p, actions', q') && q'.history == OneBatch()
    ensures q'.kinds == q.kinds && q'.groups == q.groups && P.Enabled(q', P.SettleR2(0)) && |q'.risks| == 1
            && q'.risks[0].slaveNext == 2
  {
    hide P.Runs, P.Enabled, P.Next;
    actions', q' := AllMatched(p, actions, q);
    actions', q' := SettleOne(p, actions', q', 0);
    actions', q' := SettleOne(p, actions', q', 1);
    CanSettle(q');
  }

  /** The matching shard takes in the four commands one after the other. */
  lemma AllMatched(p: P.Pipe, actions: seq<P.Action>, q: P.Pipe) returns (actions': seq<P.Action>, q': P.Pipe)
    requires P.Runs(p, actions, q) && q.groups == [0, 0, 0, 0] && |q.kinds| == 4
    requires q.risks == [P.Risk(P.Cycle(4, false), 4, 4, 4, 0, 0, 0)] && q.engines == [P.Engine(0, 0, 0)]
    ensures P.Runs(p, actions', q') && q' == q.(engines := [P.Engine(4, 4, 4)], history := q'.history)
    ensures q'.history
            == q.history + [P.Handled(P.ME(0), 0), P.Handled(P.ME(0), 1), P.Handled(P.ME(0), 2), P.Handled(P.ME(0), 3)]
  {
    hide P.Runs;
    actions', q' := P.OneStep(p, actions, q, P.FetchME(0, 4));
    for k := 0 to 4
      invariant P.Runs(p, actions', q') && q' == q.(engines := [P.Engine(k, 4, 0)], history := q'.history)
      invariant q'.history
                == q.history + [P.Handled(P.ME(0), 0), P.Handled(P.ME(0), 1), P.Handled(P.ME(0), 2),
                                P.Handled(P.ME(0), 3)][..k]
    {
      actions', q' := P.OneStep(p, actions', q', P.HandleME(0));
    }
    actions', q' := P.OneStep(p, actions', q', P.PublishME(0));
  }

  lemma CanSettle(q: P.Pipe)
    requires |q.groups| <= |q.kinds| && q.engines == [P.Engine(4, 4, 4)] && |q.risks| == 1
    requires q.risks[0].pc == P.Cycle(4, false) && q.risks[0].slaveNext < 4
    ensures P.Enabled(q, P.SettleR2(0))
  {
  }

  lemma SettleOne(p: P.Pipe, actions: seq<P.Action>, q: P.Pipe, s: nat) returns (actions': seq<P.Action>, q': P.Pipe)
    requires P.Runs(p, actions, q) && |q.groups| <= |q.kinds| && q.engines == [P.Engine(4, 4, 4)] && s < 4
    requires q.risks == [P.Risk(P.Cycle(4, false), 4, 4, 4, 0, 0, s)]
    ensures P.Runs(p, actions', q')
            && q' == q.(risks := [P.Risk(P.Cycle(4, false), 4, 4, 4, 0, 0, s + 1)], history := q'.history)
    ensures q'.history == q.history + [P.Handled(P.R2(0), s)]
  {
    hide P.Runs;
    CanSettle(q);
    actions', q' := P.OneStep(p, actions, q, P.SettleR2(0));
  }

  lemma ListsOne(c: Setup, symbol: Symbol, w: World)
    requires symbol.kind == CURRENCY_EXCHANGE_PAIR && w.listed == map[] && c.engines == 1
    ensures AddedTo(map[], [(1, symbol)], false) == map[1 := symbol]
    ensures !c.marginEnabled ==> ListedBy(c, w, 0, [(1, symbol)]) == map[1 := symbol]
  {
    assert [(1, symbol)][1..] == [];
  }

  ghost function Batch(k: nat): seq<P.Handled>
    requires k <= 10
  {
    OneBatch()[..k]
  }

  lemma BatchStep(c: Setup, k: nat)
    requires k < 10
    ensures After(c, 1, Batch(k + 1)) == Effect(c, After(c, 1, Batch(k)), OneBatch()[k])
  {
    hide Effect, After;
    var h := OneBatch();
    assert h[..k + 1] == h[..k] + [h[k]];
    AfterOne(c, 1, h[..k], h[k]);
  }

  lemma ControlHeld(c: Setup, w: World, k: nat)
    requires k < |c.commands| && |w.shards| == |w.known| == 1 && w.held == map[]
    requires c.commands[k] == Control(GROUPING_CONTROL(false))
             || (c.commands[k].Trading? && c.commands[k].r.command == ORDER_BOOK_REQUEST)
    ensures Effect(c, w, P.Handled(P.R1(0), k)) == w
  {
  }

  lemma ListingHeld(c: Setup, symbol: Symbol, k: nat)
    requires k < |c.commands| && symbol.kind == CURRENCY_EXCHANGE_PAIR && c.engines == 1 && !c.marginEnabled
    requires c.commands[k] == Binary(AddSymbols([(1, symbol)]))
    ensures Effect(c, Begin(1), P.Handled(P.R1(0), k)) == Begin(1).(known := [map[1 := symbol]])
  {
    hide AddedTo;
    ListsOne(c, symbol, Begin(1));
  }

  lemma ResetHeld(c: Setup, w: World, k: nat)
    requires k < |c.commands| && c.commands[k] == Control(RESET) && w == Begin(1).(known := w.known) && |w.known| == 1
    ensures Effect(c, w, P.Handled(P.R1(0), k)) == Begin(1)
  {
  }

  lemma FourHeld(symbol: Symbol, request: Request)
    requires symbol.kind == CURRENCY_EXCHANGE_PAIR && request.command == ORDER_BOOK_REQUEST
    ensures After(Ungrouped(symbol, request), 1, Batch(4)) == Begin(1)
  {
    hide After, Batch, Effect;
    var c := Ungrouped(symbol, request);
    assert After(c, 1, Batch(0)) == Begin(1) by { NoCalls(c); }
    var w := Begin(1).(known := [map[1 := symbol]]);
    BatchStep(c, 0);
    ControlHeld(c, Begin(1), 0);
    BatchStep(c, 1);
    ListingHeld(c, symbol, 1);
    BatchStep(c, 2);
    ControlHeld(c, w, 2);
    BatchStep(c, 3);
    ResetHeld(c, w, 3);
  }

  lemma NoCalls(c: Setup)
    ensures After(c, 1, Batch(0)) == Begin(1)
  {
  }

  lemma RequestMatched(c: Setup, symbol: Symbol, w: World, k: nat)
    requires k < |c.commands| && c.engines == 1 && c.commands[k].Trading? && c.commands[k].symbol == 1
    requires w.listed == map[1 := symbol] && 1 in w.books && |w.shards| == |w.known|
    ensures var w' := Effect(c, w, P.Handled(P.ME(0), k)); k in w'.matched && w'.known == w.known
  {
    hide BookSpec.Step;
  }

  lemma ListingMatched(c: Setup, symbol: Symbol, k: nat)
    requires k < |c.commands| && symbol.kind == CURRENCY_EXCHANGE_PAIR && c.engines == 1 && !c.marginEnabled
    requires c.commands[k] == Binary(AddSymbols([(1, symbol)]))
    ensures var w' := Effect(c, Begin(1), P.Handled(P.ME(0), k));
            w'.listed == map[1 := symbol] && 1 in w'.books && w'.known == [map[]]
  {
    hide AddedTo;
    ListsOne(c, symbol, Begin(1));
  }

  lemma FourMatched(symbol: Symbol, request: Request)
    requires symbol.kind == CURRENCY_EXCHANGE_PAIR && request.command == ORDER_BOOK_REQUEST
    ensures var w := After(Ungrouped(symbol, request), 1, Batch(8)); w.known == [map[]] && 2 in w.matched
  {
    hide After, Batch, Effect;
    var c := Ungrouped(symbol, request);
    FourHeld(symbol, request);
    BatchStep(c, 4);
    ControlSeen(c, Begin(1), 0);
    BatchStep(c, 5);
    ListingMatched(c, symbol, 1);
    BatchStep(c, 6);
    RequestMatched(c, symbol, After(c, 1, Batch(6)), 2);
    BatchStep(c, 7);
    ControlSeen(c, After(c, 1, Batch(7)), 3);
  }

  lemma ControlSeen(c: Setup, w: World, k: nat)
    requires k < |c.commands| && c.commands[k].Control? && |w.shards| == |w.known|
    ensures var w' := Effect(c, w, P.Handled(P.ME(0), k));
            w'.known == w.known && w'.matched == w.matched && (c.commands[k] != Control(RESET) ==> w' == w)
  {
  }

  /** The pipeline comes to a settlement that fails: the symbol of the request, which was matched, is gone. */
  lemma UngroupedResetFails(symbol: Symbol, request: Request, limit: int) returns (actions: seq<P.Action>, q: P.Pipe)
    requires symbol.kind == CURRENCY_EXCHANGE_PAIR && request.command == ORDER_BOOK_REQUEST
             && 0 <= request.price <= MAX_KEY
    ensures var c := Ungrouped(symbol, request);
            && SetupOk(c) && P.Runs(P.Start(limit, 1, 1), actions, q)
            && |q.kinds| == 4 && (forall s: nat | s < 4 :: q.kinds[s] == KindOf(c.commands[s]))
            && P.Enabled(q, P.SettleR2(0)) && |q.risks| == 1 && q.risks[0].slaveNext < 4
            && SettleFails(c, After(c, 1, q.history), 0, q.risks[0].slaveNext)
  {
    hide After, P.Runs, P.Enabled;
    var c := Ungrouped(symbol, request);
    actions, q := OneBatchRuns(limit);
    FourMatched(symbol, request);
    BatchStep(c, 8);
    BatchStep(c, 9);
    assert Batch(10) == OneBatch();
  }
}
