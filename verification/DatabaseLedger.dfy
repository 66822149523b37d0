/**
 * The ledger object: one database whose tables its methods update statement by
 * statement. A transaction keeps the tables it started from and puts them back when a
 * statement or the audit throws.
 */
module DatabaseLedger {
  import opened Wrappers
  import opened Allocation
  import opened Fund
  import opened FundInvariants

  datatype Position = Position(id: int, pair: string, amountCents: int)

  function WithoutIds(ps: seq<Position>, ids: set<int>): seq<Position> {
    if ps == [] then []
    else if ps[0].id in ids then WithoutIds(ps[1..], ids)
    else [ps[0]] + WithoutIds(ps[1..], ids)
  }

  predicate IsOpen(ps: seq<Position>, id: int) {
    exists i :: 0 <= i < |ps| && ps[i].id == id
  }

  /** The tables once a list of shares is booked against the balances, before the pool moves. */
  ghost function PartlyBooked(s: State, shares: seq<Share>, tradeId: int): State {
    s.(accounts := CreditAll(s.accounts, shares),
       allocations := s.allocations + AllocationRows(shares, tradeId, s.pool))
  }

  lemma NothingBooked(s: State, tradeId: int)
    ensures PartlyBooked(s, [], tradeId) == s
  {
  }

  /** While the loop runs, the next account still holds its old balance. */
  lemma ShareInTable(s: State, pnl: int, i: nat)
    requires MoneyAccepted(s) && PoolAudit(s) && Distributes(s, pnl) && i < |Shares(s, pnl)|
    ensures var share := Shares(s, pnl)[i];
      && share.tokenId in s.accounts
      && share.tokenId in CreditAll(s.accounts, Shares(s, pnl)[..i])
      && CreditAll(s.accounts, Shares(s, pnl)[..i])[share.tokenId] == s.accounts[share.tokenId]
      && share.tokenId in Spread(s, pnl).accounts
      && Spread(s, pnl).accounts[share.tokenId].balance == s.accounts[share.tokenId].balance + share.share
  {
    var shares := Shares(s, pnl);
    SharesNameAccounts(s, pnl);
    CreditMisses(s.accounts, shares[..i], shares[i].tokenId);
    CreditHits(s.accounts, shares, i);
  }

  lemma BookNext(s: State, shares: seq<Share>, tradeId: int, i: nat)
    requires i < |shares|
    ensures var now, next := PartlyBooked(s, shares[..i], tradeId), shares[i];
      PartlyBooked(s, shares[..i + 1], tradeId) == s.(
        accounts := Credit(now.accounts, next.tokenId, next.share),
        allocations := now.allocations + [AllocationRow(tradeId, next.tokenId, next.share, next.balance, s.pool)])
  {
    assert shares[..i + 1] == shares[..i] + [shares[i]];
    assert shares[..i + 1][..i] == shares[..i];
    AllocationRowsSnoc(shares[..i], shares[i], tradeId, s.pool);
  }

  /** Inserting the trade row first and distributing second gives the state the specification names. */
  lemma TradeSteps(s: State, amount: int, pnl: int)
    ensures var inserted := s.(trades := s.trades + [Trade(amount, pnl)]);
      && AfterTrade(s, amount, pnl) == Spread(inserted, pnl).(allocations := s.allocations
           + if Distributes(inserted, pnl)
             then AllocationRows(Shares(inserted, pnl), |inserted.trades|, s.pool) else [])
      && MoneyAccepted(Spread(inserted, pnl)) == MoneyAccepted(AfterTrade(s, amount, pnl))
  {
  }

  lemma TradeHistory(s: State, amount: int, pnl: int)
    requires HistoryAccepted(s)
    ensures HistoryAccepted(AfterTrade(s, amount, pnl)) <==> amount > 0
  {
    assert AfterTrade(s, amount, pnl).trades[|s.trades|].amount == amount;
  }

  lemma CreditNothing(m: map<int, Account>, token: int)
    ensures Credit(m, token, 0) == m
  {
  }

  class Ledger {
    var db: State
    /** The `open_positions` table, outside every audit. */
    var positions: seq<Position>
    var nextPosition: int

    constructor (limit: int)
      ensures db == Empty(limit) && positions == [] && nextPosition == 1
    {
      db := Empty(limit);
      positions, nextPosition := [], 1;
    }

    /** Outside a transaction a failed audit leaves the fund paused. */
    method VerifyInvariants() returns (passed: bool)
      modifies this`db
      ensures passed <==> Audit(old(db))
      ensures db == old(db).(paused := old(db.paused) || !passed)
    {
      passed := PoolAudit(db) && AccountAudit(db) && TradeAudit(db);
      if !passed {
        db := db.(paused := true);
      }
    }

    /** The common end of the audited transactions: check, or put the saved tables back. */
    method VerifyOrRollback(saved: State) returns (passed: bool)
      modifies this`db
      ensures passed <==> Audit(old(db))
      ensures db == if passed then old(db) else saved
    {
      passed := VerifyInvariants();
      if !passed {
        db := saved;
      }
    }

    method CreateNFTAccount(token: int, owner: string, address: string, deposit: int)
      returns (r: Result<Account, Error>)
      requires Valid(db)
      modifies this`db
      ensures var spec := Create(old(db), token, owner, address, deposit);
        && db == (if spec.Ok? then spec.value else old(db))
        && r == (if spec.Ok? then Ok(spec.value.accounts[token]) else Err(spec.error))
    {
      if db.paused {
        return Err(FundPaused);
      }
      if token < 1 || token > db.limit || deposit <= 0 {
        return Err(InvalidArgument);
      }
      var saved := db;
      var a := Account(owner, address, deposit, deposit, 0, true);
      CreateOutcome(saved, token, owner, address, deposit);
      if token in db.accounts || token > 500 {
        assert token !in db.accounts ==> a == db.accounts[token := a][token];
        return Err(ConstraintFailed);
      }
      db := db.(accounts := db.accounts[token := a]);
      db := db.(pool := db.pool + deposit, activeCount := db.activeCount + 1);
      var passed := VerifyOrRollback(saved);
      if !passed {
        return Err(InvariantViolation);
      }
      r := Ok(db.accounts[token]);
    }

    method AddFundsToNFT(token: int, amount: int) returns (r: Result<Addition, Error>)
      requires Valid(db)
      modifies this`db
      ensures var spec := AddFunds(old(db), token, amount);
        && db == (if spec.Ok? then spec.value else old(db))
        && r == (if spec.Ok? then Ok(Addition(token, amount)) else Err(spec.error))
    {
      if db.paused {
        return Err(FundPaused);
      }
      if amount <= 0 {
        return Err(InvalidArgument);
      }
      var saved := db;
      AddFundsOutcome(saved, token, amount);
      if !IsActive(db, token) {
        return Err(AccountNotFound);
      }
      var a := db.accounts[token];
      db := db.(accounts := db.accounts[token := a.(deposit := a.deposit + amount, balance := a.balance + amount)]);
      db := db.(pool := db.pool + amount);
      db := db.(additions := db.additions + [Addition(token, amount)]);
      var passed := VerifyOrRollback(saved);
      if !passed {
        return Err(InvariantViolation);
      }
      r := Ok(Addition(token, amount));
    }

    /** Books the shares one row at a time; false when a CHECK constraint throws. */
    method DistributeTradePnL(tradeId: int, pnl: int) returns (ok: bool)
      requires MoneyAccepted(db) && PoolAudit(db)
      modifies this`db
      ensures ok ==> db == Spread(old(db), pnl).(allocations := old(db.allocations)
        + if Distributes(old(db), pnl) then AllocationRows(Shares(old(db), pnl), tradeId, old(db.pool)) else [])
      ensures ok <==> MoneyAccepted(Spread(old(db), pnl))
    {
      hide Split, Ranked, ActiveRows, CreditAll, AllocationRows, Splittable, PoolAudit;
      ok := true;
      if pnl == 0 {
        return;
      }
      var rows := ActiveRows(db.accounts, db.limit);
      if rows == [] {
        return;
      }
      var totalPool := db.pool;
      if totalPool == 0 {
        return;
      }
      ghost var start := db;
      RowsSplittable(start);
      var shares := SplitTrade(rows, pnl, totalPool);
      NothingBooked(start, tradeId);
      for i := 0 to |shares|
        invariant db == PartlyBooked(start, shares[..i], tradeId)
        invariant MoneyAccepted(db)
      {
        var s := shares[i];
        ShareInTable(start, pnl, i);
        BookNext(start, shares, tradeId, i);
        db := db.(allocations := db.allocations + [AllocationRow(tradeId, s.tokenId, s.share, s.balance, totalPool)]);
        if db.accounts[s.tokenId].balance + s.share < 0 {
          return false;
        }
        db := db.(accounts := Credit(db.accounts, s.tokenId, s.share));
      }
      assert shares[..|shares|] == shares;
      if db.pool + pnl < 0 {
        return false;
      }
      db := db.(pool := db.pool + pnl);
    }

    method RecordTrade(amount: int, pnl: int) returns (r: Result<int, Error>)
      requires Valid(db)
      modifies this`db
      ensures var spec := Fund.RecordTrade(old(db), amount, pnl);
        && db == (if spec.Ok? then spec.value else old(db))
        && r == (if spec.Ok? then Ok(|spec.value.trades|) else Err(spec.error))
    {
      if db.paused {
        return Err(FundPaused);
      }
      var saved := db;
      TradeSteps(saved, amount, pnl);
      TradeHistory(saved, amount, pnl);
      if amount <= 0 {
        return Err(ConstraintFailed);
      }
      db := db.(trades := db.trades + [Trade(amount, pnl)]);
      var ok := DistributeTradePnL(|db.trades|, pnl);
      if !ok {
        db := saved;
        return Err(ConstraintFailed);
      }
      var passed := VerifyOrRollback(saved);
      if !passed {
        return Err(InvariantViolation);
      }
      r := Ok(|db.trades|);
    }

    method DistributeWithdrawalFee(fee: nat)
      requires MoneyAccepted(db) && PoolAudit(db)
      modifies this`db
      ensures db == Spread(old(db), fee)
    {
      hide Split, Ranked, ActiveRows, CreditAll, Credit, Splittable, PoolAudit;
      if fee == 0 {
        return;
      }
      var rows := ActiveRows(db.accounts, db.limit);
      if rows == [] {
        return;
      }
      var totalPool := db.pool;
      if totalPool == 0 {
        return;
      }
      ghost var start := db;
      RowsSplittable(start);
      var shares := SplitFee(rows, fee, totalPool);
      NothingBooked(start, 0);
      for i := 0 to |shares|
        invariant db == start.(accounts := CreditAll(start.accounts, shares[..i]))
      {
        var s := shares[i];
        BookNext(start, shares, 0, i);
        SplitIsFair(rows, fee, totalPool, i);
        if s.share > 0 {
          db := db.(accounts := Credit(db.accounts, s.tokenId, s.share));
        } else {
          CreditNothing(db.accounts, s.tokenId);
        }
      }
      assert shares[..|shares|] == shares;
      db := db.(pool := db.pool + fee);
    }

    method RecordWithdrawal(token: int) returns (r: Result<Withdrawal, Error>)
      requires Valid(db)
      modifies this`db
      ensures var spec := Withdraw(old(db), token);
        && db == (if spec.Ok? then spec.value else old(db))
        && r == (if spec.Ok? then Ok(spec.value.withdrawals[|old(db.withdrawals)|]) else Err(spec.error))
    {
      if db.paused {
        return Err(FundPaused);
      }
      if !IsActive(db, token) {
        return Err(AccountNotFound);
      }
      var saved := db;
      var a := db.accounts[token];
      var fee := TruncDiv(a.balance * 2, 100);
      WithdrawOutcome(saved, token);
      if a.balance <= 0 {
        LeaveHistory(saved, token);
        return Err(ConstraintFailed);
      }
      var w := Withdrawal(token, a.balance, fee, a.balance - fee);
      db := db.(withdrawals := db.withdrawals + [w]);
      db := db.(accounts := db.accounts[token := a.(balance := 0, active := false)]);
      db := db.(pool := db.pool - a.balance, activeCount := db.activeCount - 1);
      assert db == Leave(saved, token);
      LeaveKeeps(saved, token);
      FeeBounds(a.balance);
      if fee > 0 {
        DistributeWithdrawalFee(fee);
      }
      var passed := VerifyOrRollback(saved);
      if !passed {
        return Err(InvariantViolation);
      }
      r := Ok(w);
    }

    method RecordP2PSale(token: int, buyer: string, address: string, price: int) returns (r: Result<Sale, Error>)
      requires Valid(db)
      modifies this`db
      ensures var spec := SellToPeer(old(db), token, buyer, address, price);
        && db == (if spec.Ok? then spec.value else old(db))
        && r == (if spec.Ok? then Ok(Sale(token, old(db).accounts[token].owner, buyer, price)) else Err(spec.error))
    {
      if db.paused {
        return Err(FundPaused);
      }
      if price <= 0 {
        return Err(InvalidArgument);
      }
      var saved := db;
      SellOutcome(saved, token, buyer, address, price);
      if !IsActive(db, token) {
        return Err(AccountNotFound);
      }
      var sale := Sale(token, db.accounts[token].owner, buyer, price);
      db := db.(sales := db.sales + [sale]);
      db := db.(accounts := Transfer(db.accounts, token, buyer, address));
      db := db.(listings := MarkSold(db.listings, token));
      var passed := VerifyOrRollback(saved);
      if !passed {
        return Err(InvariantViolation);
      }
      r := Ok(sale);
    }

    /** The expiry mark is written just before the throw and rolled back with it. */
    method ExecuteSwap(id: int, now: int) returns (r: Result<Swap, Error>)
      requires Valid(db)
      modifies this`db
      ensures var spec := Fund.ExecuteSwap(old(db), id, now);
        && db == (if spec.Ok? then spec.value else old(db))
        && r == (if spec.Ok? then Ok(spec.value.swaps[id - 1]) else Err(spec.error))
    {
      if db.paused {
        return Err(FundPaused);
      }
      var saved := db;
      SwapOutcome(saved, id, now);
      if id < 1 || id > |db.swaps| {
        return Err(SwapUnavailable);
      }
      var w := db.swaps[id - 1];
      if w.status != Pending {
        return Err(SwapUnavailable);
      }
      if now > w.expiresAt {
        db := db.(swaps := db.swaps[id - 1 := w.(status := Expired)]);
        db := saved;
        return Err(SwapUnavailable);
      }
      if !IsActive(db, w.proposerToken) || !IsActive(db, w.targetToken) {
        return Err(AccountNotFound);
      }
      var p, t := db.accounts[w.proposerToken], db.accounts[w.targetToken];
      if p.owner != w.proposer || t.owner != w.target {
        return Err(SwapUnavailable);
      }
      db := db.(accounts := Transfer(db.accounts, w.proposerToken, w.target, t.address));
      db := db.(accounts := Transfer(db.accounts, w.targetToken, w.proposer, p.address));
      db := db.(swaps := SettleSwaps(db.swaps, id, w.proposerToken, w.targetToken));
      var passed := VerifyOrRollback(saved);
      if !passed {
        return Err(InvariantViolation);
      }
      r := Ok(db.swaps[id - 1]);
    }

    method CreateP2PListing(token: int, price: int) returns (r: Result<Listing, Error>)
      requires Valid(db)
      modifies this`db
      ensures var spec := ListForSale(old(db), token, price);
        && db == (if spec.Ok? then spec.value else old(db))
        && r == (if spec.Ok? then Ok(spec.value.listings[|old(db.listings)|]) else Err(spec.error))
    {
      if db.paused {
        return Err(FundPaused);
      }
      if price <= 0 {
        return Err(InvalidArgument);
      }
      if !IsActive(db, token) {
        return Err(AccountNotFound);
      }
      db := db.(listings := db.listings + [Listing(token, db.accounts[token].owner, price, false)]);
      r := Ok(db.listings[|db.listings| - 1]);
    }

    method OpenPosition(pair: string, amountCents: int) returns (r: Result<int, Error>)
      modifies this`positions, this`nextPosition
      ensures r == (if db.paused then Err(FundPaused)
                    else if amountCents <= 0 then Err(ConstraintFailed)
                    else Ok(old(nextPosition)))
      ensures positions == old(positions) + if r.Ok? then [Position(r.value, pair, amountCents)] else []
      ensures nextPosition == old(nextPosition) + if r.Ok? then 1 else 0
    {
      if db.paused {
        return Err(FundPaused);
      }
      if amountCents <= 0 {
        return Err(ConstraintFailed);
      }
      positions := positions + [Position(nextPosition, pair, amountCents)];
      nextPosition := nextPosition + 1;
      r := Ok(nextPosition - 1);
    }

    /** False when no such position is open, which throws. */
    method ClosePosition(id: int) returns (found: bool)
      modifies this`positions
      ensures found <==> IsOpen(old(positions), id)
      ensures positions == if found then WithoutIds(old(positions), {id}) else old(positions)
    {
      found := IsOpen(positions, id);
      if found {
        positions := WithoutIds(positions, {id});
      }
    }

    method CreateSwapRequest(proposerToken: int, proposer: string, targetToken: int, target: string,
                             now: int, hours: int) returns (r: Result<Swap, Error>)
      requires Valid(db)
      modifies this`db
      ensures var spec := ProposeSwap(old(db), proposerToken, proposer, targetToken, target, now, hours);
        && db == (if spec.Ok? then spec.value else old(db))
        && r == (if spec.Ok? then Ok(spec.value.swaps[|old(db.swaps)|]) else Err(spec.error))
    {
      if db.paused {
        return Err(FundPaused);
      }
      if !IsActive(db, proposerToken) || !IsActive(db, targetToken) {
        return Err(AccountNotFound);
      }
      if db.accounts[proposerToken].owner != proposer || db.accounts[targetToken].owner != target
         || proposer == target {
        return Err(SwapUnavailable);
      }
      if HasPending(db.swaps, proposerToken, targetToken) {
        return Err(SwapUnavailable);
      }
      var w := Swap(proposerToken, proposer, targetToken, target, Pending, now + hours * 3600);
      db := db.(swaps := db.swaps + [w]);
      r := Ok(w);
    }
  }
}
