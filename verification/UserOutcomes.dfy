/** What the user service, balance adjustments and batches do, said of users, balances and counters alone. */
module UserOutcomes {
  import opened OrderTypes
  import opened Positions
  import opened RiskSpec
  import opened Worth

  // ----- Balances -----

  predicate Fresh(sh: Shard, uid: int, txid: int) {
    uid in sh.profiles && sh.profiles[uid].adjustmentsCounter < txid
  }

  /** An adjustment is applied exactly if its user is there, its transaction id is above all applied before, and it
      takes no more than there is; it moves one balance and, against it, the adjustments or the suspends. */
  lemma AdjustIff(sh: Shard, uid: int, c: int, amount: int, txid: int, t: AdjustmentType)
    ensures var (sh', code) := AdjustBalance(sh, uid, c, amount, txid, t);
            && (code == SUCCESS <==> Fresh(sh, uid, txid) && (0 <= amount || 0 <= BalanceOf(sh, uid, c) + amount))
            && (code == USER_MGMT_USER_NOT_FOUND <==> uid !in sh.profiles)
            && (code == USER_MGMT_ACCOUNT_BALANCE_ADJUSTMENT_ALREADY_APPLIED_SAME <==>
                  uid in sh.profiles && sh.profiles[uid].adjustmentsCounter == txid)
            && (code == USER_MGMT_ACCOUNT_BALANCE_ADJUSTMENT_ALREADY_APPLIED_MANY <==>
                  uid in sh.profiles && txid < sh.profiles[uid].adjustmentsCounter)
            && (code == USER_MGMT_ACCOUNT_BALANCE_ADJUSTMENT_NSF <==>
                  Fresh(sh, uid, txid) && amount < 0 && BalanceOf(sh, uid, c) + amount < 0)
            && (code != SUCCESS ==> sh' == sh)
            && (code == SUCCESS ==> Adjusted(sh, sh', uid, c, amount, txid, t))
  {
    hide Adjusted;
    var (sh', code) := AdjustBalance(sh, uid, c, amount, txid, t);
    if code == SUCCESS { AdjustedIs(sh, uid, c, amount, txid, t); }
  }

  ghost predicate Adjusted(sh: Shard, sh': Shard, uid: int, c: int, amount: int, txid: int, t: AdjustmentType)
    requires uid in sh.profiles
  {
    var p := sh.profiles[uid];
    && uid in sh'.profiles
    && sh'.profiles == sh.profiles[uid := p.(adjustmentsCounter := txid, accounts := sh'.profiles[uid].accounts)]
    && (forall d :: Balance(sh'.profiles[uid].accounts, d) == Balance(p.accounts, d) + At(d, c, amount))
    && sh'.fees == sh.fees
    && (forall d :: Balance(sh'.adjustments, d)
                      == Balance(sh.adjustments, d) - if t == ADJUSTMENT then At(d, c, amount) else 0)
    && (forall d :: Balance(sh'.suspends, d) == Balance(sh.suspends, d) - if t == SUSPEND then At(d, c, amount) else 0)
  }

  lemma AdjustedIs(sh: Shard, uid: int, c: int, amount: int, txid: int, t: AdjustmentType)
    requires AdjustBalance(sh, uid, c, amount, txid, t).1 == SUCCESS
    ensures uid in sh.profiles && Adjusted(sh, AdjustBalance(sh, uid, c, amount, txid, t).0, uid, c, amount, txid, t)
  {
  }

  // ----- Users -----

  ghost predicate Flat(p: Profile) {
    && (forall y <- p.positions ::
          p.positions[y].direction == EMPTY && p.positions[y].pendingSellSize == 0
              && p.positions[y].pendingBuySize == 0)
    && forall c :: Balance(p.accounts, c) == 0
  }

  lemma NoFunds(p: Profile)
    ensures (forall c :: Balance(p.accounts, c) == 0) <==> !HasFunds(p)
  {
    if c: int :| Balance(p.accounts, c) != 0 { assert c in p.accounts; }
    if HasFunds(p) {
      var c: int :| c in p.accounts && p.accounts[c] != 0;
      assert Balance(p.accounts, c) != 0;
    }
  }

  /** A user is deleted exactly if it is active, holds no position and has nothing on its accounts. */
  lemma SuspendIff(sh: Shard, uid: int)
    ensures var (sh', code) := SuspendUser(sh, uid);
            && (code == SUCCESS <==> uid in sh.profiles && sh.profiles[uid].status == ACTIVE && Flat(sh.profiles[uid]))
            && sh' == (if code == SUCCESS then sh.(profiles := sh.profiles - {uid}) else sh)
  {
    hide HasFunds, Balance;
    if uid in sh.profiles { NoFunds(sh.profiles[uid]); }
  }

  // ----- Batches -----

  predicate Listed(symbols: seq<(int, Symbol)>, marginEnabled: bool, id: int, k: int) {
    0 <= k < |symbols| && symbols[k].0 == id && (symbols[k].1.kind == CURRENCY_EXCHANGE_PAIR || marginEnabled)
  }

  ghost predicate ListedFirst(symbols: seq<(int, Symbol)>, marginEnabled: bool, id: int, k: int) {
    Listed(symbols, marginEnabled, id, k) && forall j | 0 <= j < k :: !Listed(symbols, marginEnabled, id, j)
  }

  lemma ListedNext(symbols: seq<(int, Symbol)>, marginEnabled: bool, id: int, k: int)
    requires symbols != []
    ensures 0 < k ==> (Listed(symbols, marginEnabled, id, k) <==> Listed(symbols[1..], marginEnabled, id, k - 1))
    ensures 0 < k && ListedFirst(symbols, marginEnabled, id, k) ==>
              ListedFirst(symbols[1..], marginEnabled, id, k - 1) && !Listed(symbols, marginEnabled, id, 0)
  {
    if 0 < k && ListedFirst(symbols, marginEnabled, id, k) {
      forall j | 0 <= j < k - 1 ensures !Listed(symbols[1..], marginEnabled, id, j) {
        assert !Listed(symbols, marginEnabled, id, j + 1);
      }
    }
  }

  /** A batch never changes a symbol that is known; one that is not becomes what the batch lists first in a form that
      may be traded, and stays unknown if there is none. */
  lemma {:induction false} SymbolsListed(known: map<int, Symbol>, symbols: seq<(int, Symbol)>, marginEnabled: bool,
                                         id: int)
    ensures var after := AddedTo(known, symbols, marginEnabled);
            if id in known then id in after && after[id] == known[id]
            else
              && (forall k | ListedFirst(symbols, marginEnabled, id, k) :: id in after && after[id] == symbols[k].1)
              && ((forall k :: !Listed(symbols, marginEnabled, id, k)) ==> id !in after)
    decreases |symbols|
  {
    if symbols != [] {
      var (first, s) := symbols[0];
      var rest := symbols[1..];
      var refused := first in known || !(s.kind == CURRENCY_EXCHANGE_PAIR || marginEnabled);
      var next := if refused then known else known[first := s];
      SymbolsListed(next, rest, marginEnabled, id);
      if id !in known {
        hide Listed, ListedFirst;
        FirstListed(symbols, marginEnabled, id);
        forall k | ListedFirst(symbols, marginEnabled, id, k)
          ensures id in AddedTo(next, rest, marginEnabled) && AddedTo(next, rest, marginEnabled)[id] == symbols[k].1
        {
          ListedNext(symbols, marginEnabled, id, k);
        }
        forall k ensures 0 <= k && Listed(rest, marginEnabled, id, k) ==> Listed(symbols, marginEnabled, id, k + 1) {
          ListedNext(symbols, marginEnabled, id, k + 1);
        }
        assert forall k | Listed(rest, marginEnabled, id, k) :: 0 <= k && Listed(symbols, marginEnabled, id, k + 1) by {
          ListedIn(rest, marginEnabled, id);
        }
      }
    }
  }

  lemma ListedIn(symbols: seq<(int, Symbol)>, marginEnabled: bool, id: int)
    ensures forall k | Listed(symbols, marginEnabled, id, k) :: 0 <= k
  {
  }

  lemma FirstListed(symbols: seq<(int, Symbol)>, marginEnabled: bool, id: int)
    requires symbols != []
    ensures var (first, s) := symbols[0];
            && (Listed(symbols, marginEnabled, id, 0) <==>
                  first == id && (s.kind == CURRENCY_EXCHANGE_PAIR || marginEnabled))
            && (forall k | ListedFirst(symbols, marginEnabled, id, k) ::
                  0 <= k && (Listed(symbols, marginEnabled, id, 0) ==> k == 0))
            && (ListedFirst(symbols, marginEnabled, id, 0) <==> Listed(symbols, marginEnabled, id, 0))
  {
  }

  ghost predicate InBatch(accounts: seq<Account>, u: int) {
    exists k | 0 <= k < |accounts| :: accounts[k].uid == u
  }

  lemma {:induction false} FundUsers(sh: Shard, uid: int, balances: seq<(int, int)>, u: int)
    requires uid in sh.profiles
    ensures u in Fund(sh, uid, balances).profiles <==> u in sh.profiles
    ensures u != uid && u in sh.profiles ==> Fund(sh, uid, balances).profiles[u] == sh.profiles[u]
    ensures Fund(sh, uid, balances).fees == sh.fees && Fund(sh, uid, balances).suspends == sh.suspends
    decreases |balances|
  {
    if balances != [] {
      var (c, amount) := balances[0];
      FundUsers(AdjustBalance(sh, uid, c, amount, BatchTxid(c), ADJUSTMENT).0, uid, balances[1..], u);
    }
  }

  /** After a batch exactly its users and those who were there are there, and the latter keep all they had; what the new
      ones get is booked against the adjustments alone. */
  lemma {:induction false} BatchUsers(sh: Shard, accounts: seq<Account>, u: int)
    ensures u in AddAccounts(sh, accounts).profiles <==> u in sh.profiles || InBatch(accounts, u)
    ensures u in sh.profiles ==> AddAccounts(sh, accounts).profiles[u] == sh.profiles[u]
    ensures AddAccounts(sh, accounts).fees == sh.fees && AddAccounts(sh, accounts).suspends == sh.suspends
    decreases |accounts|
  {
    if accounts != [] {
      var first := accounts[0];
      var (added, code) := AddUser(sh, first.uid);
      var next := if code == SUCCESS then Fund(added, first.uid, first.balances) else added;
      if code == SUCCESS { FundUsers(added, first.uid, first.balances, u); }
      BatchUsers(next, accounts[1..], u);
      assert forall k | 0 < k < |accounts| :: accounts[k] == accounts[1..][k - 1];
    }
  }
}
