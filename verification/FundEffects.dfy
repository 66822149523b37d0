/** What each ledger operation writes, row by row and field by field, and why it is refused. */
module FundEffects {
  import opened Wrappers
  import opened Allocation
  import opened Fund
  import opened FundInvariants
  import opened FundRuns

  /** The same account but for its money. */
  predicate SamePerson(a: Account, b: Account) {
    a.owner == b.owner && a.address == b.address && a.active == b.active
  }

  predicate SameHistory(s: State, t: State) {
    s.trades == t.trades && s.allocations == t.allocations && s.withdrawals == t.withdrawals
  }

  predicate SameMarket(s: State, t: State) {
    s.additions == t.additions && s.sales == t.sales && s.listings == t.listings && s.swaps == t.swaps
  }

  // ---------------------------------------------------------------- Invariants, spelled out

  /** The tokens of the active accounts up to `n`. */
  function ActiveTokens(m: map<int, Account>, n: int): set<int> {
    set t | t in m && m[t].active && t <= n
  }

  function SumOver(m: map<int, Account>, tokens: set<int>, n: int): int
    decreases if n < 0 then 0 else n
  {
    if n <= 0 then 0 else SumOver(m, tokens, n - 1) + if n in tokens && n in m then m[n].balance else 0
  }

  lemma {:induction false} SumsAgree(m: map<int, Account>, tokens: set<int>, n: int)
    requires forall t :: t in m && 1 <= t <= n ==> (t in tokens <==> m[t].active)
    ensures SumBy(m, n, ActiveBalance) == SumOver(m, tokens, n)
    decreases if n < 0 then 0 else n
  {
    if n <= 0 {
    } else {
      SumsAgree(m, tokens, n - 1);
    }
  }

  lemma {:induction false} CountAgrees(m: map<int, Account>, n: int)
    requires forall t :: t in m ==> 1 <= t
    ensures SumBy(m, n, ActiveOne) == |ActiveTokens(m, n)|
    decreases if n < 0 then 0 else n
  {
    if n <= 0 {
      assert ActiveTokens(m, n) == {};
    } else {
      CountAgrees(m, n - 1);
      var rest := ActiveTokens(m, n - 1);
      if n in m && m[n].active {
        assert ActiveTokens(m, n) == rest + {n};
      } else {
        assert ActiveTokens(m, n) == rest;
      }
    }
  }

  /**
   * The published invariants in every reachable ledger, spelled out: the pool is the sum of
   * the active balances, every active balance is deposit plus P&L and not negative, every
   * trade's allocations add up to its P&L, and the account count is right.
   */
  lemma ReachableInvariants(limit: int, ops: seq<Op>)
    ensures var s := Run(Empty(limit), ops);
      && s.pool == SumOver(s.accounts, ActiveTokens(s.accounts, limit), limit)
      && s.activeCount == |ActiveTokens(s.accounts, limit)|
      && (forall t :: t in s.accounts ==> 1 <= t <= limit && t <= 500 && s.accounts[t].balance >= 0)
      && (forall t :: t in s.accounts && s.accounts[t].active ==>
            s.accounts[t].balance == s.accounts[t].deposit + s.accounts[t].pnl)
      && (forall t :: t in s.accounts && !s.accounts[t].active ==> s.accounts[t].balance == 0)
      && (forall i :: 0 <= i < |s.trades| ==> AllocationTotal(s.allocations, i + 1) == s.trades[i].profitLoss)
  {
    var s := Run(Empty(limit), ops);
    RunsAreValid(limit, ops);
    LimitIsFixed(limit, ops);
    SumsAgree(s.accounts, ActiveTokens(s.accounts, limit), limit);
    CountAgrees(s.accounts, limit);
  }

  // ---------------------------------------------------------------- Refusals

  /** A paused fund refuses everything, and nothing else is refused for that reason. */
  lemma PauseRefuses(s: State, op: Op)
    ensures Apply(s, op) == Err(FundPaused) <==> s.paused
  {
    hide SchemaAccepts, Audit, AfterTrade, Spread, Leave, Transfer, SettleSwaps;
  }

  /** An account that is unknown or withdrawn can take no money, leave, be listed or be sold. */
  lemma UnknownAccountRefused(s: State, op: Op)
    requires !s.paused
    requires op.OpAddFunds? || op.OpWithdraw? || op.OpList? || op.OpSell?
    requires op.token !in s.accounts || !s.accounts[op.token].active
    requires op.OpAddFunds? ==> op.amount > 0
    requires op.OpList? || op.OpSell? ==> op.price > 0
    ensures Apply(s, op) == Err(AccountNotFound)
  {
  }

  // ---------------------------------------------------------------- Effects

  lemma CreateWrites(s: State, token: int, owner: string, address: string, deposit: int)
    requires Create(s, token, owner, address, deposit).Ok?
    ensures var after := Create(s, token, owner, address, deposit).value;
      && token !in s.accounts && after.accounts.Keys == s.accounts.Keys + {token}
      && (forall t :: t in s.accounts ==> after.accounts[t] == s.accounts[t])
      && var a := after.accounts[token];
         && a.owner == owner && a.address == address && a.active
         && a.deposit == deposit && a.balance == deposit && a.pnl == 0
         && after.pool == s.pool + deposit && after.activeCount == s.activeCount + 1
         && SameHistory(s, after) && SameMarket(s, after)
  {
  }

  lemma AddFundsWrites(s: State, token: int, amount: int)
    requires AddFunds(s, token, amount).Ok?
    ensures var after := AddFunds(s, token, amount).value;
      && token in s.accounts && after.accounts.Keys == s.accounts.Keys
      && (forall t :: t in s.accounts && t != token ==> after.accounts[t] == s.accounts[t])
      && var a, was := after.accounts[token], s.accounts[token];
         && SamePerson(a, was) && a.pnl == was.pnl
         && a.deposit == was.deposit + amount && a.balance == was.balance + amount
         && after.pool == s.pool + amount && after.activeCount == s.activeCount
         && |after.additions| == |s.additions| + 1 && after.additions[..|s.additions|] == s.additions
         && after.additions[|s.additions|].token == token && after.additions[|s.additions|].amount == amount
         && SameHistory(s, after) && after.sales == s.sales && after.listings == s.listings && after.swaps == s.swaps
  {
  }

  lemma {:induction false} RowAt(shares: seq<Share>, tradeId: int, pool: int, k: nat)
    requires k < |shares|
    ensures |AllocationRows(shares, tradeId, pool)| == |shares|
    ensures var r := AllocationRows(shares, tradeId, pool)[k];
      && r.tradeId == tradeId && r.token == shares[k].tokenId && r.share == shares[k].share
      && r.balanceAtTrade == shares[k].balance && r.poolAtTrade == pool
  {
    if |shares| == 1 {
      assert AllocationRows(shares[1..], tradeId, pool) == [];
    } else if k == 0 {
      RowAt(shares[1..], tradeId, pool, 0);
    } else {
      RowAt(shares[1..], tradeId, pool, k - 1);
    }
  }

  /** An allocation row of the trade: an active account, its balance before, and what it gained. */
  ghost predicate Allocated(s: State, after: State, r: AllocationRow, pnl: int) {
    && r.tradeId == |s.trades| + 1 && r.poolAtTrade == s.pool
    && IsActive(s, r.token) && IsActive(after, r.token)
    && r.balanceAtTrade == s.accounts[r.token].balance
    && r.share == after.accounts[r.token].balance - s.accounts[r.token].balance
    && -s.pool <= s.pool * r.share - r.balanceAtTrade * pnl <= s.pool
  }

  /** Everybody is who they were, with the same deposit, and gained in P&L what they gained in balance. */
  ghost predicate OnlyGains(s: State, after: State) {
    && after.accounts.Keys == s.accounts.Keys && after.activeCount == s.activeCount
    && forall t :: t in s.accounts ==> var a, was := after.accounts[t], s.accounts[t];
         && SamePerson(a, was) && a.deposit == was.deposit
         && a.balance - was.balance == a.pnl - was.pnl && (!was.active ==> a == was)
  }

  lemma SpreadGains(s: State, amount: int)
    requires MoneyAccepted(s) && PoolAudit(s)
    ensures OnlyGains(s, Spread(s, amount))
  {
    SpreadBalances(s, amount);
    if Distributes(s, amount) {
      CreditKeeps(s.accounts, Shares(s, amount));
    }
  }

  /** The allocation in place `k`, against the two ledgers. */
  lemma AllocationWritten(s: State, pnl: int, k: nat)
    requires MoneyAccepted(s) && PoolAudit(s) && TokensInRange(s.accounts, s.limit) && Distributes(s, pnl)
    requires k < |Shares(s, pnl)|
    ensures var share, after := Shares(s, pnl)[k], Spread(s, pnl);
      && share.tokenId in s.accounts && s.accounts[share.tokenId].active
      && share.balance == s.accounts[share.tokenId].balance
      && share.tokenId in after.accounts && after.accounts[share.tokenId].active
      && share.share == after.accounts[share.tokenId].balance - share.balance
      && -s.pool <= s.pool * share.share - share.balance * pnl <= s.pool
  {
    RowsSplittable(s);
    SharesNameAccounts(s, pnl);
    SplitIsFair(ActiveRows(s.accounts, s.limit), pnl, s.pool, k);
    CreditHits(s.accounts, Shares(s, pnl), k);
    SpreadBalances(s, pnl);
  }

  lemma InRange(s: State, t: int)
    requires Valid(s) && IsActive(s, t)
    ensures MoneyAccepted(s) && PoolAudit(s) && 1 <= t <= s.limit
  {
  }

  lemma AllocationOfTrade(s: State, amount: int, pnl: int, k: nat)
    requires Valid(s) && RecordTrade(s, amount, pnl).Ok? && s.pool > 0 && Distributes(s, pnl) && k < |Shares(s, pnl)|
    ensures var share, after := Shares(s, pnl)[k], RecordTrade(s, amount, pnl).value;
      && IsActive(s, share.tokenId) && IsActive(after, share.tokenId)
      && share.balance == s.accounts[share.tokenId].balance
      && share.share == after.accounts[share.tokenId].balance - share.balance
      && -s.pool <= s.pool * share.share - share.balance * pnl <= s.pool
  {
    AllocationWritten(s, pnl, k);
    hide Shares, Spread;
  }

  /** The allocations that a trade adds. */
  ghost function NewRows(s: State, after: State): seq<AllocationRow> {
    if |s.allocations| <= |after.allocations| then after.allocations[|s.allocations|..] else []
  }

  lemma RowsOfTrade(s: State, amount: int, pnl: int)
    requires Valid(s) && RecordTrade(s, amount, pnl).Ok? && pnl != 0
    ensures var after := RecordTrade(s, amount, pnl).value;
      && s.allocations <= after.allocations && s.pool > 0 && Distributes(s, pnl) && |Shares(s, pnl)| > 0
      && NewRows(s, after) == AllocationRows(Shares(s, pnl), |s.trades| + 1, s.pool)
  {
    TradeOutcome(s, amount, pnl);
    RowsSplittable(s);
    SharesNameAccounts(s, pnl);
  }

  lemma NewRowsAllocated(s: State, amount: int, pnl: int)
    requires Valid(s) && RecordTrade(s, amount, pnl).Ok? && pnl != 0
    ensures var after := RecordTrade(s, amount, pnl).value;
      forall i :: 0 <= i < |NewRows(s, after)| ==> Allocated(s, after, NewRows(s, after)[i], pnl)
  {
    RowsOfTrade(s, amount, pnl);
    hide Valid, RecordTrade, Shares, AllocationRows, NewRows, Distributes;
    var after, shares := RecordTrade(s, amount, pnl).value, Shares(s, pnl);
    RowAt(shares, |s.trades| + 1, s.pool, 0);
    forall i | 0 <= i < |shares|
      ensures Allocated(s, after, NewRows(s, after)[i], pnl)
    {
      RowAt(shares, |s.trades| + 1, s.pool, i);
      AllocationOfTrade(s, amount, pnl, i);
    }
  }

  lemma ValidMoney(s: State)
    requires Valid(s)
    ensures MoneyAccepted(s) && PoolAudit(s)
  {
  }

  lemma NewRowsCover(s: State, amount: int, pnl: int)
    requires Valid(s) && RecordTrade(s, amount, pnl).Ok? && pnl != 0
    ensures var news := NewRows(s, RecordTrade(s, amount, pnl).value);
      && news != []
      && (forall i, j :: 0 <= i < j < |news| ==> news[i].token != news[j].token)
      && (forall t :: IsActive(s, t) ==> exists i :: 0 <= i < |news| && news[i].token == t)
  {
    RowsOfTrade(s, amount, pnl);
    ValidMoney(s);
    hide Valid, RecordTrade, Shares, AllocationRows, NewRows, Distributes, MoneyAccepted, PoolAudit;
    var news, shares := NewRows(s, RecordTrade(s, amount, pnl).value), Shares(s, pnl);
    SharesNameAccounts(s, pnl);
    RowAt(shares, |s.trades| + 1, s.pool, 0);
    forall i | 0 <= i < |shares|
      ensures news[i].token == shares[i].tokenId
    {
      RowAt(shares, |s.trades| + 1, s.pool, i);
    }
    forall t | IsActive(s, t)
      ensures exists i :: 0 <= i < |news| && news[i].token == t
    {
      InRange(s, t);
      var k := PlaceOf(s, pnl, t);
      assert news[k].token == t;
    }
  }

  lemma TradeTables(s: State, amount: int, pnl: int)
    requires Valid(s) && RecordTrade(s, amount, pnl).Ok?
    ensures var after := RecordTrade(s, amount, pnl).value;
      && after.trades == s.trades + [Trade(amount, pnl)] && after.pool == s.pool + pnl
      && after.accounts == Spread(s, pnl).accounts && after.activeCount == s.activeCount
      && after.withdrawals == s.withdrawals && SameMarket(s, after) && s.allocations <= after.allocations
      && (pnl == 0 ==> after.allocations == s.allocations)
  {
    TradeOutcome(s, amount, pnl);
    if pnl != 0 {
      RowsSplittable(s);
    }
  }

  /**
   * A committed trade adds its row, moves the pool by its P&L, and, when there is a P&L,
   * writes exactly one allocation for each active account.
   */
  lemma TradeWrites(s: State, amount: int, pnl: int)
    requires Valid(s) && RecordTrade(s, amount, pnl).Ok?
    ensures var after := RecordTrade(s, amount, pnl).value;
      && |after.trades| == |s.trades| + 1 && after.trades[..|s.trades|] == s.trades
      && after.trades[|s.trades|].amount == amount && after.trades[|s.trades|].profitLoss == pnl
      && after.pool == s.pool + pnl && OnlyGains(s, after)
      && after.withdrawals == s.withdrawals && SameMarket(s, after)
      && s.allocations <= after.allocations
      && var news := after.allocations[|s.allocations|..];
         && (pnl == 0 <==> news == [])
         && (forall i :: 0 <= i < |news| ==> Allocated(s, after, news[i], pnl))
         && (forall i, j :: 0 <= i < j < |news| ==> news[i].token != news[j].token)
         && (pnl != 0 ==> forall t :: IsActive(s, t) ==> exists i :: 0 <= i < |news| && news[i].token == t)
  {
    hide RecordTrade, Valid, Allocated, Shares, AllocationRows, Spread, IsActive, MoneyAccepted, PoolAudit;
    ValidMoney(s);
    SpreadGains(s, pnl);
    TradeTables(s, amount, pnl);
    if pnl != 0 {
      NewRowsAllocated(s, amount, pnl);
      NewRowsCover(s, amount, pnl);
    }
  }

  /** A withdrawal closes one account and keeps who it belonged to, what it put in and what it earned. */
  lemma WithdrawWrites(s: State, token: int)
    requires Valid(s) && Withdraw(s, token).Ok?
    ensures var after := Withdraw(s, token).value;
      && after.accounts.Keys == s.accounts.Keys && after.activeCount == s.activeCount - 1
      && (var a, was := after.accounts[token], s.accounts[token];
          && was.active && !a.active && a.balance == 0
          && a.owner == was.owner && a.address == was.address && a.deposit == was.deposit && a.pnl == was.pnl)
      && (forall t :: t in s.accounts && t != token ==> var a, was := after.accounts[t], s.accounts[t];
            && SamePerson(a, was) && a.deposit == was.deposit && a.balance - was.balance == a.pnl - was.pnl)
      && |after.withdrawals| == |s.withdrawals| + 1 && after.withdrawals[..|s.withdrawals|] == s.withdrawals
      && (var w := after.withdrawals[|s.withdrawals|];
          && w.token == token && w.amount == s.accounts[token].balance
          && 50 * w.fee <= w.amount < 50 * (w.fee + 1) && w.net == w.amount - w.fee)
      && after.trades == s.trades && after.allocations == s.allocations && SameMarket(s, after)
  {
    WithdrawalIsFair(s, token);
    LeaveKeeps(s, token);
    SpreadGains(Leave(s, token), Fee(s.accounts[token].balance));
    FeeBounds(s.accounts[token].balance);
  }

  lemma ListWrites(s: State, token: int, price: int)
    ensures ListForSale(s, token, price).Ok? <==>
      !s.paused && price > 0 && token in s.accounts && s.accounts[token].active
    ensures ListForSale(s, token, price).Ok? ==>
      var after := ListForSale(s, token, price).value;
      && after == s.(listings := after.listings)
      && |after.listings| == |s.listings| + 1 && after.listings[..|s.listings|] == s.listings
      && var row := after.listings[|s.listings|];
         row.token == token && row.seller == s.accounts[token].owner && row.price == price && !row.sold
  {
  }

  /** Somebody already asks for the same exchange. */
  ghost predicate AlreadyAsked(s: State, proposerToken: int, targetToken: int) {
    exists w :: w in s.swaps && w.status == Pending && w.proposerToken == proposerToken && w.targetToken == targetToken
  }

  lemma ProposeWrites(
    s: State, proposerToken: int, proposer: string, targetToken: int, target: string, now: int, hours: int)
    ensures ProposeSwap(s, proposerToken, proposer, targetToken, target, now, hours).Ok? <==>
      && !s.paused && proposer != target && !AlreadyAsked(s, proposerToken, targetToken)
      && proposerToken in s.accounts && s.accounts[proposerToken].active && s.accounts[proposerToken].owner == proposer
      && targetToken in s.accounts && s.accounts[targetToken].active && s.accounts[targetToken].owner == target
    ensures ProposeSwap(s, proposerToken, proposer, targetToken, target, now, hours).Ok? ==>
      var after := ProposeSwap(s, proposerToken, proposer, targetToken, target, now, hours).value;
      && after == s.(swaps := after.swaps)
      && |after.swaps| == |s.swaps| + 1 && after.swaps[..|s.swaps|] == s.swaps
      && var w := after.swaps[|s.swaps|];
         && w.proposerToken == proposerToken && w.proposer == proposer
         && w.targetToken == targetToken && w.target == target
         && w.status == Pending && w.expiresAt == now + 3600 * hours
  {
    if HasPending(s.swaps, proposerToken, targetToken) {
      var i :| 0 <= i < |s.swaps| && s.swaps[i].status == Pending
        && s.swaps[i].proposerToken == proposerToken && s.swaps[i].targetToken == targetToken;
      assert s.swaps[i] in s.swaps;
    }
    if AlreadyAsked(s, proposerToken, targetToken) {
      var w :| w in s.swaps && w.status == Pending && w.proposerToken == proposerToken && w.targetToken == targetToken;
      var i :| 0 <= i < |s.swaps| && s.swaps[i] == w;
    }
  }

  /** Two tokens name the same request or cross it. */
  predicate Names(w: Swap, token: int) { w.proposerToken == token || w.targetToken == token }

  /**
   * A request is executed exactly when it is pending, not expired, and both tokens are
   * active and still owned by those who agreed; then no request that names either token is
   * left pending, and requests that name neither stay as they were.
   */
  lemma SwapWrites(s: State, id: int, now: int)
    requires Valid(s)
    ensures ExecuteSwap(s, id, now).Ok? <==>
      && !s.paused && 1 <= id <= |s.swaps|
      && var w := s.swaps[id - 1];
         && w.status == Pending && now <= w.expiresAt
         && w.proposerToken in s.accounts && s.accounts[w.proposerToken].active
         && s.accounts[w.proposerToken].owner == w.proposer
         && w.targetToken in s.accounts && s.accounts[w.targetToken].active
         && s.accounts[w.targetToken].owner == w.target
    ensures ExecuteSwap(s, id, now).Ok? ==>
      var after, w := ExecuteSwap(s, id, now).value, s.swaps[id - 1];
      && |after.swaps| == |s.swaps| && after.swaps[id - 1] == w.(status := Accepted)
      && (forall v :: v in after.swaps && v.status == Pending ==>
            !Names(v, w.proposerToken) && !Names(v, w.targetToken))
      && (forall i :: 0 <= i < |s.swaps| && i != id - 1 ==>
            after.swaps[i] == s.swaps[i]
            || (s.swaps[i].status == Pending && after.swaps[i] == s.swaps[i].(status := Cancelled)
                && (Names(s.swaps[i], w.proposerToken) || Names(s.swaps[i], w.targetToken))))
  {
    SwapOutcome(s, id, now);
    if ExecuteSwap(s, id, now).Ok? {
      SwapExchangesOwners(s, id, now);
    }
  }
}
