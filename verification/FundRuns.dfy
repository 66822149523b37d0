/** Theorems about every run of the fund that starts from an empty ledger. */
module FundRuns {
  import opened Wrappers
  import opened Allocation
  import opened Fund
  import opened FundInvariants

  // ---------------------------------------------------------------- Safety

  /** No operation changes the pause flag (its rollback undoes the pause) or the limit. */
  lemma StepKeepsSettings(s: State, op: Op)
    ensures Step(s, op).paused == s.paused && Step(s, op).limit == s.limit
  {
  }

  /** One step keeps the invariants, and the audit fires for one reason only. */
  lemma StepKeepsValid(s: State, op: Op)
    requires Valid(s)
    ensures Valid(Step(s, op))
    ensures Apply(s, op) == Err(InvariantViolation) <==>
      op.OpTrade? && !s.paused && op.amount > 0 && op.pnl != 0 && s.pool == 0
  {
    hide Create, AddFunds, RecordTrade, Withdraw, SellToPeer, ExecuteSwap;
    match op
    case OpCreate(t, o, a, d) => CreateOutcome(s, t, o, a, d);
    case OpAddFunds(t, c) => AddFundsOutcome(s, t, c);
    case OpTrade(a, p) => TradeOutcome(s, a, p);
    case OpWithdraw(t) => WithdrawOutcome(s, t);
    case OpList(t, p) =>
    case OpSell(t, b, a, p) => SellOutcome(s, t, b, a, p);
    case OpPropose(pt, p, tt, t, n, h) =>
    case OpSwap(id, n) => SwapOutcome(s, id, n);
  }

  lemma {:induction false} EmptySums(n: int)
    ensures SumBy(map[], n, ActiveBalance) == SumBy(map[], n, ActiveOne) == SumBy(map[], n, Deposit) == 0
    decreases if n < 0 then 0 else n
  {
    if n <= 0 {
    } else {
      EmptySums(n - 1);
    }
  }

  /**
   * Every reachable ledger satisfies the three invariants, counts its accounts correctly
   * and holds no negative balance; it is never left paused by its own operations.
   */
  lemma {:induction false} RunsAreValid(limit: int, ops: seq<Op>)
    ensures Valid(Run(Empty(limit), ops))
    ensures !Run(Empty(limit), ops).paused
  {
    if ops == [] {
      EmptySums(limit);
    } else {
      RunsAreValid(limit, ops[..|ops| - 1]);
      StepKeepsValid(Run(Empty(limit), ops[..|ops| - 1]), ops[|ops| - 1]);
      StepKeepsSettings(Run(Empty(limit), ops[..|ops| - 1]), ops[|ops| - 1]);
    }
  }

  /**
   * A failed audit does not leave the fund paused: the trade books a profit that no
   * account can share, and the pause goes back with the rest of the transaction.
   */
  lemma PauseIsRolledBack(limit: int)
    ensures Apply(Empty(limit), OpTrade(100, 1)) == Err(InvariantViolation)
    ensures !Step(Empty(limit), OpTrade(100, 1)).paused
  {
    RunsAreValid(limit, []);
    TradeOutcome(Empty(limit), 100, 1);
  }

  // ---------------------------------------------------------------- Withdrawals

  /** Spreading a fee costs nobody anything. */
  lemma HoldersGain(s: State, fee: int)
    requires MoneyAccepted(s) && PoolAudit(s) && TokensInRange(s.accounts, s.limit) && fee >= 0
    ensures Spread(s, fee).accounts.Keys == s.accounts.Keys
    ensures forall t :: t in s.accounts ==> Spread(s, fee).accounts[t].balance >= s.accounts[t].balance
  {
    SpreadBalances(s, fee);
    forall t | t in s.accounts && s.accounts[t].active
      ensures Spread(s, fee).accounts[t].balance >= s.accounts[t].balance
    {
      if Distributes(s, fee) {
        var k := SpreadAt(s, fee, t);
        RowsSplittable(s);
        SplitIsFair(ActiveRows(s.accounts, s.limit), fee, s.pool, k);
      }
    }
  }

  /**
   * A withdrawal pays out the balance less a fiftieth. Nobody else loses; when money
   * remains in the pool the others gain the fee to the cent, otherwise nobody gets it.
   */
  lemma WithdrawalIsFair(s: State, token: int)
    requires Valid(s) && Withdraw(s, token).Ok?
    ensures var after, b := Withdraw(s, token).value, s.accounts[token].balance;
      && after.withdrawals == s.withdrawals + [Withdrawal(token, b, b / 50, b - b / 50)]
      && after.pool == s.pool - b + (if s.pool > b then b / 50 else 0)
      && after.accounts.Keys == s.accounts.Keys
      && (forall t :: t in after.accounts ==>
            if t == token then !after.accounts[t].active && after.accounts[t].balance == 0
            else after.accounts[t].active == s.accounts[t].active && after.accounts[t].balance >= s.accounts[t].balance)
  {
    var b := s.accounts[token].balance;
    var left, fee := Leave(s, token), Fee(b);
    LeaveKeeps(s, token);
    FeeBounds(b);
    HoldersGain(left, fee);
    SpreadBalances(left, fee);
    if left.pool > 0 {
      RowsSplittable(left);
    }
  }

  // ---------------------------------------------------------------- Conservation

  /** The pool, less every deposit and P&L, plus every cent paid out: what has gone missing, negated. */
  function Balance(s: State): int {
    s.pool - SumBy(s.accounts, s.limit, Deposit) - TradeTotal(s.trades) + NetTotal(s.withdrawals)
  }

  /** The fee of a withdrawal that leaves nobody to pay it to. */
  ghost function Stranded(s: State, op: Op): int {
    if op.OpWithdraw? && Withdraw(s, op.token).Ok? && Withdraw(s, op.token).value.pool == 0
    then Fee(s.accounts[op.token].balance) else 0
  }

  ghost function StrandedIn(s: State, ops: seq<Op>): int {
    if ops == [] then 0
    else StrandedIn(s, ops[..|ops| - 1]) + Stranded(Run(s, ops[..|ops| - 1]), ops[|ops| - 1])
  }

  lemma TradeBalances(s: State, amount: int, pnl: int)
    requires Valid(s) && RecordTrade(s, amount, pnl).Ok?
    ensures Balance(RecordTrade(s, amount, pnl).value) == Balance(s)
  {
    TradeOutcome(s, amount, pnl);
    SpreadBalances(s, pnl);
    if pnl != 0 {
      RowsSplittable(s);
    }
    var trades := s.trades + [Trade(amount, pnl)];
    assert trades[..|trades| - 1] == s.trades;
  }

  lemma WithdrawBalances(s: State, token: int)
    requires Valid(s) && Withdraw(s, token).Ok?
    ensures Balance(Withdraw(s, token).value) == Balance(s) - Stranded(s, OpWithdraw(token))
  {
    var left, after := Leave(s, token), Withdraw(s, token).value;
    WithdrawalIsFair(s, token);
    WithdrawOutcome(s, token);
    FeeBounds(s.accounts[token].balance);
    SumByUpdate(s.accounts, s.limit, token, left.accounts[token], Deposit);
    assert SumBy(after.accounts, s.limit, Deposit) == SumBy(s.accounts, s.limit, Deposit) by {
      LeaveKeeps(s, token);
      SpreadBalances(left, Fee(s.accounts[token].balance));
    }
    assert after.withdrawals[..|after.withdrawals| - 1] == s.withdrawals;
  }

  lemma DepositBalances(s: State, op: Op)
    requires Valid(s) && (op.OpCreate? || op.OpAddFunds?)
    ensures Balance(Step(s, op)) == Balance(s)
  {
    if Apply(s, op).Ok? {
      SumByUpdate(s.accounts, s.limit, op.token, Step(s, op).accounts[op.token], Deposit);
    }
  }

  lemma OwnershipBalances(s: State, op: Op)
    requires Valid(s) && (op.OpSell? || op.OpSwap?)
    ensures Balance(Step(s, op)) == Balance(s)
  {
    if op.OpSell? {
      TransferKeeps(s.accounts, s.limit, op.token, op.buyer, op.address);
    } else if Apply(s, op).Ok? {
      var w := s.swaps[op.id - 1];
      var m := Transfer(s.accounts, w.proposerToken, w.target, s.accounts[w.targetToken].address);
      TransferKeeps(s.accounts, s.limit, w.proposerToken, w.target, s.accounts[w.targetToken].address);
      TransferKeeps(m, s.limit, w.targetToken, w.proposer, s.accounts[w.proposerToken].address);
    }
  }

  /** Every operation keeps the books, but for a fee that finds no holder. */
  lemma StepBalances(s: State, op: Op)
    requires Valid(s)
    ensures Balance(Step(s, op)) == Balance(s) - Stranded(s, op)
  {
    if op.OpTrade? && Apply(s, op).Ok? {
      TradeBalances(s, op.amount, op.pnl);
    } else if op.OpWithdraw? && Apply(s, op).Ok? {
      WithdrawBalances(s, op.token);
    } else if op.OpCreate? || op.OpAddFunds? {
      DepositBalances(s, op);
    } else if op.OpSell? || op.OpSwap? {
      OwnershipBalances(s, op);
    }
  }

  lemma {:induction false} LimitIsFixed(limit: int, ops: seq<Op>)
    ensures Run(Empty(limit), ops).limit == limit
  {
    if ops == [] {
    } else {
      LimitIsFixed(limit, ops[..|ops| - 1]);
      StepKeepsSettings(Run(Empty(limit), ops[..|ops| - 1]), ops[|ops| - 1]);
    }
  }

  /**
   * Global conservation: the pool is every cent ever deposited, plus every cent of trade
   * P&L, less every cent paid out and every fee that found no holder.
   */
  lemma {:induction false} Conservation(limit: int, ops: seq<Op>)
    ensures var s := Run(Empty(limit), ops);
      s.pool == SumBy(s.accounts, limit, Deposit) + TradeTotal(s.trades) - NetTotal(s.withdrawals)
                - StrandedIn(Empty(limit), ops)
  {
    var s := Run(Empty(limit), ops);
    if ops == [] {
      EmptySums(limit);
    } else {
      var front := ops[..|ops| - 1];
      RunsAreValid(limit, front);
      LimitIsFixed(limit, front);
      Conservation(limit, front);
      StepKeepsSettings(Run(Empty(limit), front), ops[|ops| - 1]);
      StepBalances(Run(Empty(limit), front), ops[|ops| - 1]);
    }
  }

  // ---------------------------------------------------------------- Order of wealth

  /** The booked balances of two accounts, located in the sorted list. */
  lemma PlacesOf(s: State, amount: int, rich: int, poor: int) returns (i: nat, j: nat)
    requires Valid(s) && Distributes(s, amount) && IsActive(s, rich) && IsActive(s, poor)
    requires Before(Row(rich, s.accounts[rich].balance), Row(poor, s.accounts[poor].balance))
    ensures var rows := ActiveRows(s.accounts, s.limit);
      && Splittable(rows, s.pool)
      && i < j < |Ranked(rows)|
      && Ranked(rows)[i] == Row(rich, s.accounts[rich].balance)
      && Ranked(rows)[j] == Row(poor, s.accounts[poor].balance)
      && rich in Spread(s, amount).accounts && poor in Spread(s, amount).accounts
      && Spread(s, amount).accounts[rich].balance == Booked(rows, amount, s.pool, i)
      && Spread(s, amount).accounts[poor].balance == Booked(rows, amount, s.pool, j)
  {
    var rows := ActiveRows(s.accounts, s.limit);
    RowsSplittable(s);
    RankedSplittable(rows, s.pool);
    i := SpreadAt(s, amount, rich);
    j := SpreadAt(s, amount, poor);
    assert j < i ==> Before(Ranked(rows)[j], Ranked(rows)[i]);
  }

  /**
   * Order of wealth over a committed trade. A profit keeps every strict order, and equal
   * balances end at most one cent apart with the lower token not behind. A loss can
   * invert a pair by one cent at most.
   */
  lemma TradeKeepsOrder(s: State, amount: int, pnl: int, rich: int, poor: int)
    requires Valid(s) && RecordTrade(s, amount, pnl).Ok? && IsActive(s, rich) && IsActive(s, poor)
    requires s.accounts[rich].balance > s.accounts[poor].balance
          || (s.accounts[rich].balance == s.accounts[poor].balance && rich < poor)
    ensures var m := RecordTrade(s, amount, pnl).value.accounts;
      && rich in m && poor in m
      && (pnl >= 0 && s.accounts[rich].balance > s.accounts[poor].balance ==> m[rich].balance > m[poor].balance)
      && (pnl >= 0 && s.accounts[rich].balance == s.accounts[poor].balance ==>
            m[poor].balance <= m[rich].balance <= m[poor].balance + 1)
      && m[rich].balance >= m[poor].balance - 1
  {
    TradeOutcome(s, amount, pnl);
    if Distributes(s, pnl) {
      var rows := ActiveRows(s.accounts, s.limit);
      var i, j := PlacesOf(s, pnl, rich, poor);
      if pnl >= 0 {
        ProfitKeepsOrder(rows, pnl, s.pool, i, j);
      } else {
        LossKeepsOrder(rows, -pnl, s.pool, i, j);
      }
    }
  }

  // ---------------------------------------------------------------- Ownership

  /**
   * An executed swap exchanges the two owners and nothing else about any account, and
   * leaves no other request pending on either token.
   */
  lemma SwapExchangesOwners(s: State, id: int, now: int)
    requires Valid(s) && ExecuteSwap(s, id, now).Ok?
    ensures var w, after := s.swaps[id - 1], ExecuteSwap(s, id, now).value;
      var p, t := s.accounts[w.proposerToken], s.accounts[w.targetToken];
      && after.accounts == s.accounts[w.proposerToken := p.(owner := t.owner, address := t.address)]
                                     [w.targetToken := t.(owner := p.owner, address := p.address)]
      && after.pool == s.pool
      && |after.swaps| == |s.swaps| && after.swaps[id - 1] == w.(status := Accepted)
      && forall i :: 0 <= i < |s.swaps| && i != id - 1 ==>
           after.swaps[i] == if s.swaps[i].status == Pending && Touches(s.swaps[i], w.proposerToken, w.targetToken)
                             then s.swaps[i].(status := Cancelled) else s.swaps[i]
  {
    SwapOutcome(s, id, now);
    var w := s.swaps[id - 1];
    assert w.proposer != w.target;
  }

  lemma {:induction false} MarkSoldAt(listings: seq<Listing>, token: int)
    ensures |MarkSold(listings, token)| == |listings|
    ensures forall i :: 0 <= i < |listings| ==>
      MarkSold(listings, token)[i] == listings[i].(sold := listings[i].sold || listings[i].token == token)
  {
    if listings == [] {
    } else {
      MarkSoldAt(listings[1..], token);
    }
  }

  /**
   * A peer sale hands the token to the buyer and moves no money: every balance and the
   * pool stay, the sale names the former owner, and exactly the token's listings end.
   */
  lemma SaleChangesOwner(s: State, token: int, buyer: string, address: string, price: int)
    requires Valid(s) && SellToPeer(s, token, buyer, address, price).Ok?
    ensures var after, a := SellToPeer(s, token, buyer, address, price).value, s.accounts[token];
      && after.accounts == s.accounts[token := a.(owner := buyer, address := address)]
      && after.pool == s.pool
      && after.sales == s.sales + [Sale(token, a.owner, buyer, price)]
      && |after.listings| == |s.listings|
      && forall i :: 0 <= i < |s.listings| ==>
           after.listings[i] == s.listings[i].(sold := s.listings[i].sold || s.listings[i].token == token)
  {
    MarkSoldAt(s.listings, token);
  }
}
