/**
 * The fund's tables as a value, and every ledger operation as a function from one state
 * to the next. A transaction that throws leaves the state it started from.
 */
module Fund {
  import opened Wrappers
  import opened Allocation

  // ---------------------------------------------------------------- Tables

  datatype Account = Account(
    owner: string, address: string,
    deposit: int, balance: int, pnl: int, active: bool)

  datatype Trade = Trade(amount: int, profitLoss: int)

  datatype AllocationRow = AllocationRow(
    tradeId: int, token: int, share: int, balanceAtTrade: int, poolAtTrade: int)

  datatype Withdrawal = Withdrawal(token: int, amount: int, fee: int, net: int)

  datatype Addition = Addition(token: int, amount: int)

  datatype Sale = Sale(token: int, seller: string, buyer: string, price: int)

  datatype Listing = Listing(token: int, seller: string, price: int, sold: bool)

  datatype SwapStatus = Pending | Accepted | Cancelled | Expired

  datatype Swap = Swap(
    proposerToken: int, proposer: string, targetToken: int, target: string,
    status: SwapStatus, expiresAt: int)

  /** `limit` is MAX_NFTS; the other fields are the tables. Row ids count from one. */
  datatype State = State(
    limit: int,
    accounts: map<int, Account>,
    pool: int,
    activeCount: int,
    paused: bool,
    trades: seq<Trade>,
    allocations: seq<AllocationRow>,
    withdrawals: seq<Withdrawal>,
    additions: seq<Addition>,
    sales: seq<Sale>,
    listings: seq<Listing>,
    swaps: seq<Swap>)

  datatype Error =
    | FundPaused
    | AccountNotFound
    | InvalidArgument
    | ConstraintFailed     // a CHECK, PRIMARY KEY or NOT NULL of the schema
    | InvariantViolation
    | SwapUnavailable
    | PositionNotFound

  function Empty(limit: int): State {
    State(limit, map[], 0, 0, false, [], [], [], [], [], [], [])
  }

  // ---------------------------------------------------------------- Aggregates

  function SumBy(m: map<int, Account>, n: int, f: Account -> int): int
    decreases if n < 0 then 0 else n
  {
    if n <= 0 then 0 else SumBy(m, n - 1, f) + (if n in m then f(m[n]) else 0)
  }

  function ActiveBalance(a: Account): int { if a.active then a.balance else 0 }

  function ActiveOne(a: Account): int { if a.active then 1 else 0 }

  function Deposit(a: Account): int { a.deposit }

  /** `getAllNFTAccounts(true)`: the active accounts in token order. */
  function ActiveRows(m: map<int, Account>, n: int): seq<Row>
    decreases if n < 0 then 0 else n
  {
    if n <= 0 then []
    else ActiveRows(m, n - 1) + (if n in m && m[n].active then [Row(n, m[n].balance)] else [])
  }

  function AllocationTotal(rows: seq<AllocationRow>, tradeId: int): int {
    if rows == [] then 0
    else (if rows[0].tradeId == tradeId then rows[0].share else 0) + AllocationTotal(rows[1..], tradeId)
  }

  function TradeTotal(trades: seq<Trade>): int {
    if trades == [] then 0 else TradeTotal(trades[..|trades| - 1]) + trades[|trades| - 1].profitLoss
  }

  function NetTotal(ws: seq<Withdrawal>): int {
    if ws == [] then 0 else NetTotal(ws[..|ws| - 1]) + ws[|ws| - 1].net
  }

  // ---------------------------------------------------------------- Invariants

  /** The CHECK constraints of schema.sql on accounts and on the pool. */
  ghost predicate MoneyAccepted(s: State) {
    && (forall t :: t in s.accounts ==> 1 <= t <= 500 && s.accounts[t].deposit > 0 && s.accounts[t].balance >= 0)
    && s.pool >= 0
  }

  /** The CHECK constraints on the history tables and on the account count. */
  ghost predicate HistoryAccepted(s: State) {
    && s.activeCount >= 0
    && (forall i :: 0 <= i < |s.trades| ==> s.trades[i].amount > 0)
    && (forall i :: 0 <= i < |s.withdrawals| ==>
          s.withdrawals[i].amount > 0 && s.withdrawals[i].fee >= 0 && s.withdrawals[i].net >= 0)
  }

  ghost predicate SchemaAccepts(s: State) {
    MoneyAccepted(s) && HistoryAccepted(s)
  }

  /** Invariant 1: the pool is the sum of the active balances. */
  predicate PoolAudit(s: State) {
    SumBy(s.accounts, s.limit, ActiveBalance) == s.pool
  }

  /** Invariant 2: every active balance is deposit plus P&L. */
  predicate AccountAudit(s: State) {
    forall t :: t in s.accounts && s.accounts[t].active ==>
      s.accounts[t].balance == s.accounts[t].deposit + s.accounts[t].pnl
  }

  /** Invariant 3: the allocations of every trade add up to its P&L. */
  predicate TradeAudit(s: State) {
    forall i :: 0 <= i < |s.trades| ==> AllocationTotal(s.allocations, i + 1) == s.trades[i].profitLoss
  }

  /** What `verifyInvariants` checks. */
  predicate Audit(s: State) {
    PoolAudit(s) && AccountAudit(s) && TradeAudit(s)
  }

  ghost predicate TokensInRange(m: map<int, Account>, limit: int) {
    forall t :: t in m ==> 1 <= t <= limit
  }

  ghost predicate WithdrawnAreEmpty(m: map<int, Account>) {
    forall t :: t in m && !m[t].active ==> m[t].balance == 0
  }

  ghost predicate AllocationsBelongToTrades(s: State) {
    forall i :: 0 <= i < |s.allocations| ==> 1 <= s.allocations[i].tradeId <= |s.trades|
  }

  ghost predicate SwapsBetweenTwo(s: State) {
    forall i :: 0 <= i < |s.swaps| ==> s.swaps[i].proposer != s.swaps[i].target
  }

  /** Everything that holds of a ledger between operations. */
  ghost predicate Valid(s: State) {
    && SchemaAccepts(s)
    && Audit(s)
    && TokensInRange(s.accounts, s.limit)
    && WithdrawnAreEmpty(s.accounts)
    && SumBy(s.accounts, s.limit, ActiveOne) == s.activeCount
    && AllocationsBelongToTrades(s)
    && SwapsBetweenTwo(s)
  }

  // ---------------------------------------------------------------- Operations

  /** The end of a transaction: the schema, then `verifyInvariants`, or rollback. */
  ghost function Commit(s: State): Result<State, Error> {
    if !SchemaAccepts(s) then Err(ConstraintFailed)
    else if !Audit(s) then Err(InvariantViolation)
    else Ok(s)
  }

  predicate IsActive(s: State, token: int) {
    token in s.accounts && s.accounts[token].active
  }

  ghost function Create(s: State, token: int, owner: string, address: string, deposit: int): Result<State, Error> {
    if s.paused then Err(FundPaused)
    else if token < 1 || token > s.limit || deposit <= 0 then Err(InvalidArgument)
    else if token in s.accounts then Err(ConstraintFailed)
    else Commit(s.(
      accounts := s.accounts[token := Account(owner, address, deposit, deposit, 0, true)],
      pool := s.pool + deposit,
      activeCount := s.activeCount + 1))
  }

  ghost function AddFunds(s: State, token: int, amount: int): Result<State, Error> {
    if s.paused then Err(FundPaused)
    else if amount <= 0 then Err(InvalidArgument)
    else if !IsActive(s, token) then Err(AccountNotFound)
    else
      var a := s.accounts[token];
      Commit(s.(
        accounts := s.accounts[token := a.(deposit := a.deposit + amount, balance := a.balance + amount)],
        pool := s.pool + amount,
        additions := s.additions + [Addition(token, amount)]))
  }

  /** One `UPDATE nft_accounts SET current_balance = current_balance + ?, ...`. */
  function Credit(m: map<int, Account>, token: int, cents: int): map<int, Account> {
    if token in m
    then m[token := m[token].(balance := m[token].balance + cents, pnl := m[token].pnl + cents)]
    else m
  }

  /** The updates of a whole distribution, in list order. */
  function CreditAll(m: map<int, Account>, shares: seq<Share>): map<int, Account> {
    if shares == [] then m
    else
      var last := shares[|shares| - 1];
      Credit(CreditAll(m, shares[..|shares| - 1]), last.tokenId, last.share)
  }

  /** The `trade_allocations` rows of a distribution. */
  function AllocationRows(shares: seq<Share>, tradeId: int, pool: int): seq<AllocationRow> {
    if shares == [] then []
    else [AllocationRow(tradeId, shares[0].tokenId, shares[0].share, shares[0].balance, pool)]
         + AllocationRows(shares[1..], tradeId, pool)
  }

  /** A distribution that finds no active account or an empty pool does nothing. */
  predicate Distributes(s: State, amount: int) {
    amount != 0 && ActiveRows(s.accounts, s.limit) != [] && s.pool > 0
  }

  function Shares(s: State, amount: int): seq<Share>
    requires s.pool > 0
  {
    Split(ActiveRows(s.accounts, s.limit), amount, s.pool)
  }

  /** The accounts and the pool after `amount` is spread over the active accounts. */
  function Spread(s: State, amount: int): State {
    if Distributes(s, amount)
    then s.(accounts := CreditAll(s.accounts, Shares(s, amount)), pool := s.pool + amount)
    else s
  }

  /** The state a trade would commit. */
  function AfterTrade(s: State, amount: int, pnl: int): State {
    var id := |s.trades| + 1;
    var t := Spread(s, pnl);
    t.(trades := s.trades + [Trade(amount, pnl)],
       allocations := s.allocations + if Distributes(s, pnl) then AllocationRows(Shares(s, pnl), id, s.pool) else [])
  }

  ghost function RecordTrade(s: State, amount: int, pnl: int): Result<State, Error> {
    if s.paused then Err(FundPaused) else Commit(AfterTrade(s, amount, pnl))
  }

  /** `Math.trunc(balance * 2 / 100)`. */
  function Fee(balance: int): int { TruncDiv(balance * 2, 100) }

  /** The state between the withdrawal itself and the distribution of its fee. */
  function Leave(s: State, token: int): State
    requires token in s.accounts
  {
    var a := s.accounts[token];
    s.(accounts := s.accounts[token := a.(balance := 0, active := false)],
       pool := s.pool - a.balance,
       activeCount := s.activeCount - 1,
       withdrawals := s.withdrawals + [Withdrawal(token, a.balance, Fee(a.balance), a.balance - Fee(a.balance))])
  }

  ghost function Withdraw(s: State, token: int): Result<State, Error> {
    if s.paused then Err(FundPaused)
    else if !IsActive(s, token) then Err(AccountNotFound)
    else Commit(Spread(Leave(s, token), Fee(s.accounts[token].balance)))
  }

  function Transfer(m: map<int, Account>, token: int, owner: string, address: string): map<int, Account> {
    if token in m then m[token := m[token].(owner := owner, address := address)] else m
  }

  function MarkSold(listings: seq<Listing>, token: int): seq<Listing> {
    if listings == [] then []
    else [if listings[0].token == token then listings[0].(sold := true) else listings[0]]
         + MarkSold(listings[1..], token)
  }

  function ListForSale(s: State, token: int, price: int): Result<State, Error> {
    if s.paused then Err(FundPaused)
    else if price <= 0 then Err(InvalidArgument)
    else if !IsActive(s, token) then Err(AccountNotFound)
    else Ok(s.(listings := s.listings + [Listing(token, s.accounts[token].owner, price, false)]))
  }

  ghost function SellToPeer(s: State, token: int, buyer: string, address: string, price: int): Result<State, Error> {
    if s.paused then Err(FundPaused)
    else if price <= 0 then Err(InvalidArgument)
    else if !IsActive(s, token) then Err(AccountNotFound)
    else Commit(s.(
      sales := s.sales + [Sale(token, s.accounts[token].owner, buyer, price)],
      accounts := Transfer(s.accounts, token, buyer, address),
      listings := MarkSold(s.listings, token)))
  }

  /** A pending request for the same ordered pair of tokens. */
  predicate HasPending(swaps: seq<Swap>, proposerToken: int, targetToken: int) {
    exists i :: 0 <= i < |swaps| && swaps[i].status == Pending
      && swaps[i].proposerToken == proposerToken && swaps[i].targetToken == targetToken
  }

  /** `now` and expiry are in whole seconds, as the stored timestamps are. */
  function ProposeSwap(s: State, proposerToken: int, proposer: string, targetToken: int, target: string,
                       now: int, hours: int): Result<State, Error> {
    if s.paused then Err(FundPaused)
    else if !IsActive(s, proposerToken) || !IsActive(s, targetToken) then Err(AccountNotFound)
    else if s.accounts[proposerToken].owner != proposer || s.accounts[targetToken].owner != target
         || proposer == target || HasPending(s.swaps, proposerToken, targetToken)
    then Err(SwapUnavailable)
    else Ok(s.(swaps := s.swaps + [Swap(proposerToken, proposer, targetToken, target, Pending, now + hours * 3600)]))
  }

  predicate Touches(w: Swap, p: int, t: int) {
    w.proposerToken == p || w.proposerToken == t || w.targetToken == p || w.targetToken == t
  }

  /** Request `id` becomes accepted; every other pending request on either token is cancelled. */
  function SettleSwaps(swaps: seq<Swap>, id: int, p: int, t: int): seq<Swap> {
    seq(|swaps|, i requires 0 <= i < |swaps| =>
      if i == id - 1 then swaps[i].(status := Accepted)
      else if swaps[i].status == Pending && Touches(swaps[i], p, t) then swaps[i].(status := Cancelled)
      else swaps[i])
  }

  predicate Executable(s: State, id: int, now: int) {
    && 1 <= id <= |s.swaps|
    && var w := s.swaps[id - 1];
    && w.status == Pending && now <= w.expiresAt
    && IsActive(s, w.proposerToken) && IsActive(s, w.targetToken)
    && s.accounts[w.proposerToken].owner == w.proposer && s.accounts[w.targetToken].owner == w.target
  }

  ghost function ExecuteSwap(s: State, id: int, now: int): Result<State, Error> {
    if s.paused then Err(FundPaused)
    else if !(1 <= id <= |s.swaps|) then Err(SwapUnavailable)
    else
      var w := s.swaps[id - 1];
      if w.status != Pending || now > w.expiresAt then Err(SwapUnavailable)
      else if !IsActive(s, w.proposerToken) || !IsActive(s, w.targetToken) then Err(AccountNotFound)
      else if !Executable(s, id, now) then Err(SwapUnavailable)
      else Commit(s.(
        accounts := Transfer(
          Transfer(s.accounts, w.proposerToken, w.target, s.accounts[w.targetToken].address),
          w.targetToken, w.proposer, s.accounts[w.proposerToken].address),
        swaps := SettleSwaps(s.swaps, id, w.proposerToken, w.targetToken)))
  }

  // ---------------------------------------------------------------- Runs

  datatype Op =
    | OpCreate(token: int, owner: string, address: string, deposit: int)
    | OpAddFunds(token: int, amount: int)
    | OpTrade(amount: int, pnl: int)
    | OpWithdraw(token: int)
    | OpList(token: int, price: int)
    | OpSell(token: int, buyer: string, address: string, price: int)
    | OpPropose(proposerToken: int, proposer: string, targetToken: int, target: string, now: int, hours: int)
    | OpSwap(id: int, now: int)

  ghost function Apply(s: State, op: Op): Result<State, Error> {
    match op
    case OpCreate(t, o, a, d) => Create(s, t, o, a, d)
    case OpAddFunds(t, c) => AddFunds(s, t, c)
    case OpTrade(a, p) => RecordTrade(s, a, p)
    case OpWithdraw(t) => Withdraw(s, t)
    case OpList(t, p) => ListForSale(s, t, p)
    case OpSell(t, b, a, p) => SellToPeer(s, t, b, a, p)
    case OpPropose(pt, p, tt, t, n, h) => ProposeSwap(s, pt, p, tt, t, n, h)
    case OpSwap(id, n) => ExecuteSwap(s, id, n)
  }

  /** A failed operation leaves the state unchanged. */
  ghost function Step(s: State, op: Op): State {
    var r := Apply(s, op);
    if r.Ok? then r.value else s
  }

  ghost function Run(s: State, ops: seq<Op>): State {
    if ops == [] then s else Step(Run(s, ops[..|ops| - 1]), ops[|ops| - 1])
  }
}
