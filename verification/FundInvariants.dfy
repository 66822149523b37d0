/** What every operation on the fund keeps, when it commits, and what follows over whole runs. */
module FundInvariants {
  import opened Wrappers
  import opened Allocation
  import opened Fund

  // ---------------------------------------------------------------- Sums over the accounts table

  /** Writing one row changes a sum by the difference of that row. */
  lemma {:induction false} SumByUpdate(m: map<int, Account>, n: int, t: int, a: Account, f: Account -> int)
    requires 1 <= t
    ensures SumBy(m[t := a], n, f)
         == SumBy(m, n, f) + (if t <= n then f(a) - (if t in m then f(m[t]) else 0) else 0)
    decreases if n < 0 then 0 else n
  {
    if n <= 0 {
    } else {
      SumByUpdate(m, n - 1, t, a, f);
    }
  }

  lemma {:induction false} TotalSnoc(rows: seq<Row>, r: Row)
    ensures Total(rows + [r]) == Total(rows) + r.balance
  {
    if rows == [] {
      assert rows + [r] == [r];
    } else {
      assert (rows + [r])[1..] == rows[1..] + [r];
      TotalSnoc(rows[1..], r);
    }
  }

  lemma {:induction false} RowsTotal(m: map<int, Account>, n: int)
    ensures Total(ActiveRows(m, n)) == SumBy(m, n, ActiveBalance)
    decreases if n < 0 then 0 else n
  {
    if n <= 0 {
    } else {
      RowsTotal(m, n - 1);
      var rest := ActiveRows(m, n - 1);
      if n in m && m[n].active {
        TotalSnoc(rest, Row(n, m[n].balance));
      } else {
        assert rest + [] == rest;
      }
    }
  }

  ghost predicate IsRowOf(r: Row, m: map<int, Account>, n: int) {
    1 <= r.token <= n && r.token in m && m[r.token].active && m[r.token].balance == r.balance
  }

  /** Each listed row is an active account; the listing is in token order, so no token repeats. */
  lemma {:induction false} RowsAreAccounts(m: map<int, Account>, n: int)
    ensures DistinctTokens(ActiveRows(m, n))
    ensures forall i :: 0 <= i < |ActiveRows(m, n)| ==> IsRowOf(ActiveRows(m, n)[i], m, n)
    decreases if n < 0 then 0 else n
  {
    if n <= 0 {
    } else {
      RowsAreAccounts(m, n - 1);
      var before, rows := ActiveRows(m, n - 1), ActiveRows(m, n);
      forall i | 0 <= i < |rows| ensures IsRowOf(rows[i], m, n) {
        if i < |before| {
          assert IsRowOf(before[i], m, n - 1);
        }
      }
      forall i, j | 0 <= i < j < |rows| ensures rows[i].token != rows[j].token {
        assert IsRowOf(before[i], m, n - 1);
        if j < |before| {
          assert before[i].token != before[j].token;
        }
      }
    }
  }

  lemma {:induction false} AccountsAreRows(m: map<int, Account>, n: int, t: int)
    requires t in m && m[t].active && 1 <= t <= n
    ensures Row(t, m[t].balance) in ActiveRows(m, n)
  {
    if t < n {
      AccountsAreRows(m, n - 1, t);
    }
  }

  /** The accounts of a valid ledger with money in it satisfy what the split demands. */
  lemma RowsSplittable(s: State)
    requires MoneyAccepted(s) && PoolAudit(s) && s.pool > 0
    ensures Splittable(ActiveRows(s.accounts, s.limit), s.pool)
    ensures ActiveRows(s.accounts, s.limit) != []
  {
    var rows := ActiveRows(s.accounts, s.limit);
    RowsTotal(s.accounts, s.limit);
    RowsAreAccounts(s.accounts, s.limit);
    forall i | 0 <= i < |rows| ensures rows[i].balance >= 0 {
      assert IsRowOf(rows[i], s.accounts, s.limit);
    }
  }

  // ---------------------------------------------------------------- Crediting a list of shares

  ghost predicate DistinctShares(shares: seq<Share>) {
    forall i, j :: 0 <= i < j < |shares| ==> shares[i].tokenId != shares[j].tokenId
  }

  lemma {:induction false} CreditKeeps(m: map<int, Account>, shares: seq<Share>)
    ensures CreditAll(m, shares).Keys == m.Keys
    ensures forall t :: t in m ==> var a := CreditAll(m, shares)[t];
      && a.owner == m[t].owner && a.address == m[t].address && a.deposit == m[t].deposit && a.active == m[t].active
      && a.balance - m[t].balance == a.pnl - m[t].pnl
  {
    if shares == [] {
    } else {
      CreditKeeps(m, shares[..|shares| - 1]);
    }
  }

  lemma {:induction false} CreditMisses(m: map<int, Account>, shares: seq<Share>, t: int)
    requires t in m && forall i :: 0 <= i < |shares| ==> shares[i].tokenId != t
    ensures t in CreditAll(m, shares) && CreditAll(m, shares)[t] == m[t]
  {
    if shares == [] {
    } else {
      CreditMisses(m, shares[..|shares| - 1], t);
    }
  }

  lemma {:induction false} CreditHits(m: map<int, Account>, shares: seq<Share>, k: nat)
    requires DistinctShares(shares) && k < |shares| && shares[k].tokenId in m
    ensures var t := shares[k].tokenId;
      t in CreditAll(m, shares) && CreditAll(m, shares)[t].balance == m[t].balance + shares[k].share
  {
    var n := |shares| - 1;
    CreditKeeps(m, shares[..n]);
    if k == n {
      CreditMisses(m, shares[..n], shares[k].tokenId);
    } else {
      CreditHits(m, shares[..n], k);
    }
  }

  lemma {:induction false} ShareTotalSnoc(shares: seq<Share>, s: Share)
    ensures ShareTotal(shares + [s]) == ShareTotal(shares) + s.share
  {
    if shares == [] {
      assert shares + [s] == [s];
    } else {
      assert (shares + [s])[1..] == shares[1..] + [s];
      ShareTotalSnoc(shares[1..], s);
    }
  }

  lemma {:induction false} CreditSums(m: map<int, Account>, n: int, shares: seq<Share>)
    requires forall i :: 0 <= i < |shares| ==>
      1 <= shares[i].tokenId <= n && shares[i].tokenId in m && m[shares[i].tokenId].active
    ensures SumBy(CreditAll(m, shares), n, ActiveBalance) == SumBy(m, n, ActiveBalance) + ShareTotal(shares)
    ensures SumBy(CreditAll(m, shares), n, ActiveOne) == SumBy(m, n, ActiveOne)
    ensures SumBy(CreditAll(m, shares), n, Deposit) == SumBy(m, n, Deposit)
  {
    if shares == [] {
    } else {
      var front, last := shares[..|shares| - 1], shares[|shares| - 1];
      CreditSums(m, n, front);
      CreditKeeps(m, front);
      var before := CreditAll(m, front);
      var a := Credit(before, last.tokenId, last.share)[last.tokenId];
      SumByUpdate(before, n, last.tokenId, a, ActiveBalance);
      SumByUpdate(before, n, last.tokenId, a, ActiveOne);
      SumByUpdate(before, n, last.tokenId, a, Deposit);
      ShareTotalSnoc(front, last);
      assert shares == front + [last];
    }
  }

  lemma {:induction false} AllocationTotalAppend(a: seq<AllocationRow>, b: seq<AllocationRow>, id: int)
    ensures AllocationTotal(a + b, id) == AllocationTotal(a, id) + AllocationTotal(b, id)
  {
    if a == [] {
      assert a + b == b;
    } else {
      assert (a + b)[1..] == a[1..] + b;
      AllocationTotalAppend(a[1..], b, id);
    }
  }

  lemma {:induction false} AllocationsOf(shares: seq<Share>, id: int, pool: int, other: int)
    ensures AllocationTotal(AllocationRows(shares, id, pool), other) == if other == id then ShareTotal(shares) else 0
    ensures forall i :: 0 <= i < |AllocationRows(shares, id, pool)| ==>
      AllocationRows(shares, id, pool)[i].tradeId == id
  {
    if shares == [] {
    } else {
      AllocationsOf(shares[1..], id, pool, other);
    }
  }

  lemma {:induction false} AllocationRowsSnoc(shares: seq<Share>, s: Share, id: int, pool: int)
    ensures AllocationRows(shares + [s], id, pool)
         == AllocationRows(shares, id, pool) + [AllocationRow(id, s.tokenId, s.share, s.balance, pool)]
  {
    if shares == [] {
      assert shares + [s] == [s];
    } else {
      assert (shares + [s])[1..] == shares[1..] + [s];
      AllocationRowsSnoc(shares[1..], s, id, pool);
    }
  }

  lemma {:induction false} NoAllocations(rows: seq<AllocationRow>, id: int)
    requires forall i :: 0 <= i < |rows| ==> rows[i].tradeId != id
    ensures AllocationTotal(rows, id) == 0
  {
    if rows == [] {
    } else {
      NoAllocations(rows[1..], id);
    }
  }

  // ---------------------------------------------------------------- One distribution

  /** The shares name distinct active accounts, with the balances they hold. */
  lemma SharesNameAccounts(s: State, amount: int)
    requires MoneyAccepted(s) && PoolAudit(s) && s.pool > 0
    ensures var shares := Shares(s, amount);
      && DistinctShares(shares)
      && |shares| == |ActiveRows(s.accounts, s.limit)|
      && forall k :: 0 <= k < |shares| ==> var t := shares[k].tokenId;
           1 <= t <= s.limit && t in s.accounts && s.accounts[t].active && s.accounts[t].balance == shares[k].balance
  {
    var rows := ActiveRows(s.accounts, s.limit);
    var shares := Shares(s, amount);
    RowsSplittable(s);
    RowsAreAccounts(s.accounts, s.limit);
    RankedSplittable(rows, s.pool);
    RankedPermutes(rows);
    forall k | 0 <= k < |shares|
      ensures var t := shares[k].tokenId;
        1 <= t <= s.limit && t in s.accounts && s.accounts[t].active && s.accounts[t].balance == shares[k].balance
    {
      MemberOfMultiset(Ranked(rows), rows, Ranked(rows)[k]);
      assert IsRowOf(Ranked(rows)[k], s.accounts, s.limit);
    }
  }

  /** Every active account has a place in the list of shares. */
  lemma PlaceOf(s: State, amount: int, t: int) returns (k: nat)
    requires MoneyAccepted(s) && PoolAudit(s) && s.pool > 0
    requires t in s.accounts && s.accounts[t].active && 1 <= t <= s.limit
    ensures k < |Shares(s, amount)| && Shares(s, amount)[k].tokenId == t
    ensures Shares(s, amount)[k].balance == s.accounts[t].balance
  {
    var rows := ActiveRows(s.accounts, s.limit);
    AccountsAreRows(s.accounts, s.limit, t);
    RankedPermutes(rows);
    MemberOfMultiset(rows, Ranked(rows), Row(t, s.accounts[t].balance));
    k :| 0 <= k < |Ranked(rows)| && Ranked(rows)[k] == Row(t, s.accounts[t].balance);
  }

  /** What one active account holds after a distribution. */
  lemma SpreadAt(s: State, amount: int, t: int) returns (k: nat)
    requires MoneyAccepted(s) && PoolAudit(s) && Distributes(s, amount)
    requires t in s.accounts && s.accounts[t].active && 1 <= t <= s.limit
    ensures k < |Shares(s, amount)| && Shares(s, amount)[k].tokenId == t
    ensures Shares(s, amount)[k].balance == s.accounts[t].balance
    ensures t in Spread(s, amount).accounts
    ensures Spread(s, amount).accounts[t].balance == s.accounts[t].balance + Shares(s, amount)[k].share
  {
    k := PlaceOf(s, amount, t);
    SharesNameAccounts(s, amount);
    CreditHits(s.accounts, Shares(s, amount), k);
  }

  /** A distribution moves the pool and the active balances by the same amount. */
  lemma SpreadBalances(s: State, amount: int)
    requires MoneyAccepted(s) && PoolAudit(s)
    ensures PoolAudit(Spread(s, amount))
    ensures AccountAudit(s) ==> AccountAudit(Spread(s, amount))
    ensures Spread(s, amount).accounts.Keys == s.accounts.Keys
    ensures forall t :: t in s.accounts ==> var a := Spread(s, amount).accounts[t];
      && a.owner == s.accounts[t].owner && a.deposit == s.accounts[t].deposit && a.active == s.accounts[t].active
      && (!a.active ==> a == s.accounts[t])
    ensures SumBy(Spread(s, amount).accounts, s.limit, ActiveOne) == SumBy(s.accounts, s.limit, ActiveOne)
    ensures SumBy(Spread(s, amount).accounts, s.limit, Deposit) == SumBy(s.accounts, s.limit, Deposit)
  {
    if Distributes(s, amount) {
      var shares := Shares(s, amount);
      RowsSplittable(s);
      SharesNameAccounts(s, amount);
      SplitIsExact(ActiveRows(s.accounts, s.limit), amount, s.pool);
      CreditSums(s.accounts, s.limit, shares);
      CreditKeeps(s.accounts, shares);
      forall t | t in s.accounts && !s.accounts[t].active
        ensures Spread(s, amount).accounts[t] == s.accounts[t]
      {
        CreditMisses(s.accounts, shares, t);
      }
    }
  }

  lemma {:induction false} SumNonNegative(m: map<int, Account>, n: int)
    requires forall t :: t in m ==> m[t].balance >= 0
    ensures SumBy(m, n, ActiveBalance) >= 0
    decreases if n < 0 then 0 else n
  {
    if n <= 0 {
    } else {
      SumNonNegative(m, n - 1);
    }
  }

  /** Solvency of a distribution: no balance goes below zero exactly when the pool does not. */
  lemma SpreadSolvent(s: State, amount: int)
    requires MoneyAccepted(s) && PoolAudit(s) && TokensInRange(s.accounts, s.limit) && WithdrawnAreEmpty(s.accounts)
    requires Distributes(s, amount)
    ensures (forall t :: t in Spread(s, amount).accounts ==> Spread(s, amount).accounts[t].balance >= 0)
      <==> s.pool + amount >= 0
  {
    SpreadBalances(s, amount);
    var after := Spread(s, amount);
    if s.pool + amount >= 0 {
      forall t | t in after.accounts ensures after.accounts[t].balance >= 0 {
        if s.accounts[t].active {
          var k := SpreadAt(s, amount, t);
          RowsSplittable(s);
          SplitIsSolvent(ActiveRows(s.accounts, s.limit), amount, s.pool, k);
        }
      }
    } else {
      if forall t :: t in after.accounts ==> after.accounts[t].balance >= 0 {
        SumNonNegative(after.accounts, s.limit);
        assert false;
      }
    }
  }

  // ---------------------------------------------------------------- When each operation commits

  /** A trade adds allocations to its own id and to no other. */
  lemma AllocationsAfter(s: State, amount: int, pnl: int, id: int)
    requires MoneyAccepted(s) && PoolAudit(s) && AllocationsBelongToTrades(s)
    ensures AllocationTotal(AfterTrade(s, amount, pnl).allocations, id)
         == (if id != |s.trades| + 1 then AllocationTotal(s.allocations, id)
             else if Distributes(s, pnl) then pnl else 0)
  {
    var next := |s.trades| + 1;
    if Distributes(s, pnl) {
      var shares := Shares(s, pnl);
      RowsSplittable(s);
      SplitIsExact(ActiveRows(s.accounts, s.limit), pnl, s.pool);
      AllocationsOf(shares, next, s.pool, id);
      AllocationTotalAppend(s.allocations, AllocationRows(shares, next, s.pool), id);
    } else {
      AllocationTotalAppend(s.allocations, [], id);
    }
    if id == next {
      NoAllocations(s.allocations, id);
    }
  }

  lemma TradeAudited(s: State, amount: int, pnl: int)
    requires MoneyAccepted(s) && PoolAudit(s) && TradeAudit(s) && AllocationsBelongToTrades(s)
    ensures TradeAudit(AfterTrade(s, amount, pnl)) <==> (pnl == 0 || Distributes(s, pnl))
    ensures AllocationsBelongToTrades(AfterTrade(s, amount, pnl))
  {
    var after, next := AfterTrade(s, amount, pnl), |s.trades| + 1;
    forall i | 0 <= i < |s.trades|
      ensures AllocationTotal(after.allocations, i + 1) == after.trades[i].profitLoss
    {
      AllocationsAfter(s, amount, pnl, i + 1);
      assert after.trades[i] == s.trades[i];
    }
    AllocationsAfter(s, amount, pnl, next);
    assert after.trades[next - 1].profitLoss == pnl;
    if Distributes(s, pnl) {
      AllocationsOf(Shares(s, pnl), next, s.pool, next);
    }
  }

  /**
   * A trade commits exactly when the fund runs, the traded amount is positive, and its
   * P&L is zero or falls on a pool that holds money and covers a loss. The schema stops
   * it when the loss exceeds the pool, `verifyInvariants` exactly when the pool is empty.
   */
  lemma TradeOutcome(s: State, amount: int, pnl: int)
    requires Valid(s)
    ensures RecordTrade(s, amount, pnl).Ok? <==>
      !s.paused && amount > 0 && (pnl == 0 || (s.pool > 0 && s.pool + pnl >= 0))
    ensures RecordTrade(s, amount, pnl) == Err(InvariantViolation) <==>
      !s.paused && amount > 0 && pnl != 0 && s.pool == 0
    ensures RecordTrade(s, amount, pnl).Ok? ==> Valid(RecordTrade(s, amount, pnl).value)
  {
    var after := AfterTrade(s, amount, pnl);
    if s.pool > 0 {
      RowsSplittable(s);
    }
    TradeAudited(s, amount, pnl);
    SpreadBalances(s, pnl);
    if Distributes(s, pnl) {
      SpreadSolvent(s, pnl);
    }
    assert after.trades[|s.trades|].amount == amount;
    assert SchemaAccepts(after) <==> amount > 0 && (Distributes(s, pnl) ==> s.pool + pnl >= 0);
  }

  lemma FeeBounds(balance: int)
    requires balance >= 0
    ensures Fee(balance) == balance / 50
    ensures 0 <= Fee(balance) <= balance
  {
  }

  /** Taking an account out keeps everything but the schema's demand for a positive amount. */
  lemma LeaveKeeps(s: State, token: int)
    requires Valid(s) && IsActive(s, token)
    ensures var left := Leave(s, token);
      && MoneyAccepted(left)
      && Audit(left)
      && WithdrawnAreEmpty(left.accounts)
      && SumBy(left.accounts, left.limit, ActiveOne) == left.activeCount
  {
    var left := Leave(s, token);
    var gone := left.accounts[token];
    SumByUpdate(s.accounts, s.limit, token, gone, ActiveBalance);
    SumByUpdate(s.accounts, s.limit, token, gone, ActiveOne);
    SumNonNegative(left.accounts, s.limit);
  }

  lemma {:induction false} OnesNonNegative(m: map<int, Account>, n: int)
    ensures SumBy(m, n, ActiveOne) >= 0
    decreases if n < 0 then 0 else n
  {
    if n <= 0 {
    } else {
      OnesNonNegative(m, n - 1);
    }
  }

  lemma LeaveHistory(s: State, token: int)
    requires Valid(s) && IsActive(s, token)
    ensures HistoryAccepted(Leave(s, token)) <==> s.accounts[token].balance > 0
  {
    var left := Leave(s, token);
    LeaveKeeps(s, token);
    OnesNonNegative(left.accounts, s.limit);
    FeeBounds(s.accounts[token].balance);
    assert left.withdrawals[|s.withdrawals|].amount == s.accounts[token].balance;
  }

  /** Spreading a non-negative amount keeps everything. */
  lemma SpreadFee(s: State, fee: int)
    requires MoneyAccepted(s) && Audit(s) && TokensInRange(s.accounts, s.limit) && WithdrawnAreEmpty(s.accounts)
    requires fee >= 0
    ensures MoneyAccepted(Spread(s, fee)) && Audit(Spread(s, fee))
    ensures TokensInRange(Spread(s, fee).accounts, s.limit) && WithdrawnAreEmpty(Spread(s, fee).accounts)
  {
    SpreadBalances(s, fee);
    if Distributes(s, fee) {
      SpreadSolvent(s, fee);
    }
  }

  /** An account can leave exactly when it is active and holds something. */
  lemma WithdrawOutcome(s: State, token: int)
    requires Valid(s)
    ensures Withdraw(s, token).Ok? <==> !s.paused && IsActive(s, token) && s.accounts[token].balance > 0
    ensures Withdraw(s, token) != Err(InvariantViolation)
    ensures Withdraw(s, token).Ok? ==> Valid(Withdraw(s, token).value)
  {
    if !s.paused && IsActive(s, token) {
      var left, fee := Leave(s, token), Fee(s.accounts[token].balance);
      LeaveKeeps(s, token);
      LeaveHistory(s, token);
      FeeBounds(s.accounts[token].balance);
      SpreadFee(left, fee);
      SpreadBalances(left, fee);
    }
  }

  lemma CreateOutcome(s: State, token: int, owner: string, address: string, deposit: int)
    requires Valid(s)
    ensures var r := Create(s, token, owner, address, deposit);
      && (r.Ok? <==> !s.paused && 1 <= token <= s.limit && token <= 500 && deposit > 0 && token !in s.accounts)
      && r != Err(InvariantViolation)
      && (r.Ok? ==> Valid(r.value))
  {
    var a := Account(owner, address, deposit, deposit, 0, true);
    if 1 <= token <= s.limit && token !in s.accounts {
      SumByUpdate(s.accounts, s.limit, token, a, ActiveBalance);
      SumByUpdate(s.accounts, s.limit, token, a, ActiveOne);
      assert s.accounts[token := a][token] == a;
    }
  }

  lemma AddFundsOutcome(s: State, token: int, amount: int)
    requires Valid(s)
    ensures var r := AddFunds(s, token, amount);
      && (r.Ok? <==> !s.paused && amount > 0 && IsActive(s, token))
      && r != Err(InvariantViolation)
      && (r.Ok? ==> Valid(r.value))
  {
    if IsActive(s, token) {
      var was := s.accounts[token];
      var a := was.(deposit := was.deposit + amount, balance := was.balance + amount);
      SumByUpdate(s.accounts, s.limit, token, a, ActiveBalance);
      SumByUpdate(s.accounts, s.limit, token, a, ActiveOne);
    }
  }

  /** Changing owners touches no sum. */
  lemma TransferKeeps(m: map<int, Account>, n: int, token: int, owner: string, address: string)
    requires token in m ==> 1 <= token
    ensures SumBy(Transfer(m, token, owner, address), n, ActiveBalance) == SumBy(m, n, ActiveBalance)
    ensures SumBy(Transfer(m, token, owner, address), n, ActiveOne) == SumBy(m, n, ActiveOne)
    ensures SumBy(Transfer(m, token, owner, address), n, Deposit) == SumBy(m, n, Deposit)
  {
    if token in m {
      var a := m[token].(owner := owner, address := address);
      SumByUpdate(m, n, token, a, ActiveBalance);
      SumByUpdate(m, n, token, a, ActiveOne);
      SumByUpdate(m, n, token, a, Deposit);
    }
  }

  lemma SellOutcome(s: State, token: int, buyer: string, address: string, price: int)
    requires Valid(s)
    ensures var r := SellToPeer(s, token, buyer, address, price);
      && (r.Ok? <==> !s.paused && price > 0 && IsActive(s, token))
      && r != Err(InvariantViolation)
      && (r.Ok? ==> Valid(r.value))
  {
    if IsActive(s, token) {
      TransferKeeps(s.accounts, s.limit, token, buyer, address);
    }
  }

  lemma SwapOutcome(s: State, id: int, now: int)
    requires Valid(s)
    ensures var r := ExecuteSwap(s, id, now);
      && (r.Ok? <==> !s.paused && Executable(s, id, now))
      && r != Err(InvariantViolation)
      && (r.Ok? ==> Valid(r.value))
  {
    if Executable(s, id, now) {
      var w := s.swaps[id - 1];
      var m := Transfer(s.accounts, w.proposerToken, w.target, s.accounts[w.targetToken].address);
      TransferKeeps(s.accounts, s.limit, w.proposerToken, w.target, s.accounts[w.targetToken].address);
      TransferKeeps(m, s.limit, w.targetToken, w.proposer, s.accounts[w.proposerToken].address);
    }
  }
}
