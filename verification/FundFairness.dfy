/** How far rounding can move an account's part of the pool over a run of trades. */
module FundFairness {
  import opened Wrappers
  import opened Allocation
  import opened Fund
  import opened FundInvariants
  import opened FundRuns

  function Part(s: State, t: int): real
    requires s.pool > 0 && t in s.accounts
  {
    s.accounts[t].balance as real / s.pool as real
  }

  function Distance(x: real, y: real): real { if x < y then y - x else x - y }

  ghost predicate OnlyTrades(ops: seq<Op>) {
    forall i :: 0 <= i < |ops| ==> ops[i].OpTrade?
  }

  /** Every pool along the run is positive. */
  ghost predicate Funded(s: State, ops: seq<Op>)
    decreases |ops|
  {
    Run(s, ops).pool > 0 && (ops != [] ==> Funded(s, ops[..|ops| - 1]))
  }

  /** One rounding step, a cent over the new pool, for each trade of the run. */
  ghost function RoundingSteps(s: State, ops: seq<Op>): real
    requires Funded(s, ops)
    decreases |ops|
  {
    if ops == [] then 0.0 else RoundingSteps(s, ops[..|ops| - 1]) + 1.0 / Run(s, ops).pool as real
  }

  lemma MulLessCancel(p: real, x: real, y: real)
    requires p > 0.0 && p * x <= p * y
    ensures x <= y
  {
  }

  /** `x / t` is within `1 / t` of `b / p` when the cross products differ by at most `p`. */
  lemma FractionsClose(b: real, p: real, x: real, t: real)
    requires p > 0.0 && t > 0.0 && -p <= x * p - b * t <= p
    ensures Distance(x / t, b / p) <= 1.0 / t
  {
    var u, v, w := x / t, b / p, 1.0 / t;
    assert u * t == x && v * p == b && w * t == 1.0;
    var k := p * t;
    assert k > 0.0;
    assert k * u == x * p;
    assert k * v == b * t;
    assert k * w == p;
    assert k * (u - v) == k * u - k * v;
    assert k * (v - u) == k * v - k * u;
    MulLessCancel(k, u - v, w);
    MulLessCancel(k, v - u, w);
  }

  lemma PartStep(balance: int, pool: int, share: int, pnl: int)
    requires pool > 0 && pool + pnl > 0 && -pool <= pool * share - balance * pnl <= pool
    ensures Distance((balance + share) as real / (pool + pnl) as real, balance as real / pool as real)
         <= 1.0 / (pool + pnl) as real
  {
    var cross := (balance + share) * pool - balance * (pool + pnl);
    assert cross == pool * share - balance * pnl;
    assert cross as real == (balance + share) as real * pool as real - balance as real * (pool + pnl) as real;
    FractionsClose(balance as real, pool as real, (balance + share) as real, (pool + pnl) as real);
  }

  /** What one trade, committed or not, does to an account and to the pool. */
  lemma TradeShare(s: State, op: Op, t: int) returns (share: int, pnl: int)
    requires Valid(s) && op.OpTrade? && IsActive(s, t) && s.pool > 0
    ensures IsActive(Step(s, op), t)
    ensures Step(s, op).accounts[t].balance == s.accounts[t].balance + share
    ensures Step(s, op).pool == s.pool + pnl
    ensures -s.pool <= s.pool * share - s.accounts[t].balance * pnl <= s.pool
  {
    share, pnl := 0, 0;
    if Apply(s, op).Ok? && Distributes(s, op.pnl) {
      var k := SpreadAt(s, op.pnl, t);
      RowsSplittable(s);
      SplitIsFair(ActiveRows(s.accounts, s.limit), op.pnl, s.pool, k);
      SpreadBalances(s, op.pnl);
      share, pnl := Shares(s, op.pnl)[k].share, op.pnl;
    }
  }

  /** One trade moves an account's part of the pool by at most one rounding step. */
  lemma TradeDrift(s: State, op: Op, t: int)
    requires Valid(s) && op.OpTrade? && IsActive(s, t) && s.pool > 0 && Step(s, op).pool > 0
    ensures IsActive(Step(s, op), t)
    ensures Distance(Part(Step(s, op), t), Part(s, t)) <= 1.0 / Step(s, op).pool as real
  {
    hide Apply;
    var share, pnl := TradeShare(s, op, t);
    PartStep(s.accounts[t].balance, s.pool, share, pnl);
  }

  /**
   * Equal returns, to the cent: over any run of trades with money in the pool
   * throughout, every account's part of the pool drifts by no more than the sum of the
   * rounding steps.
   */
  lemma {:induction false} LongRunFairness(s: State, ops: seq<Op>, t: int)
    requires Valid(s) && IsActive(s, t) && OnlyTrades(ops) && Funded(s, ops)
    ensures s.pool > 0 && Valid(Run(s, ops)) && IsActive(Run(s, ops), t)
    ensures Distance(Part(Run(s, ops), t), Part(s, t)) <= RoundingSteps(s, ops)
    decreases |ops|
  {
    if ops == [] {
    } else {
      var front, last := ops[..|ops| - 1], ops[|ops| - 1];
      LongRunFairness(s, front, t);
      StepKeepsValid(Run(s, front), last);
      TradeDrift(Run(s, front), last, t);
    }
  }

  // ---------------------------------------------------------------- One trade

  /** The account's gain or loss is exactly its proportion of the P&L. */
  predicate EqualReturn(s: State, after: State, pnl: int, t: int)
    requires t in s.accounts && t in after.accounts
  {
    s.pool * (after.accounts[t].balance - s.accounts[t].balance) == s.accounts[t].balance * pnl
  }

  /**
   * A committed trade gives every account the same percentage return if and only if the
   * pool divides every active balance times the P&L.
   */
  lemma ReturnsAreEqual(s: State, amount: int, pnl: int)
    requires Valid(s) && pnl != 0 && RecordTrade(s, amount, pnl).Ok?
    ensures var after := RecordTrade(s, amount, pnl).value;
      && s.pool > 0 && s.accounts.Keys == after.accounts.Keys
      && ((forall t :: IsActive(s, t) ==> EqualReturn(s, after, pnl, t))
          <==> (forall t :: IsActive(s, t) ==> s.accounts[t].balance * pnl % s.pool == 0))
  {
    TradeOutcome(s, amount, pnl);
    SpreadBalances(s, pnl);
    RowsSplittable(s);
    hide Spread, Split, Ranked, ActiveRows, Splittable;
    var after, rows := RecordTrade(s, amount, pnl).value, ActiveRows(s.accounts, s.limit);
    assert after.accounts == Spread(s, pnl).accounts;
    forall t | IsActive(s, t)
      ensures EqualReturn(s, after, pnl, t) ==> s.accounts[t].balance * pnl % s.pool == 0
      ensures Proportional(rows, pnl, s.pool) ==> EqualReturn(s, after, pnl, t)
    {
      var k := SpreadAt(s, pnl, t);
      if EqualReturn(s, after, pnl, t) {
        ProportionIsWhole(rows, pnl, s.pool, k);
      }
    }
    if forall t :: IsActive(s, t) ==> s.accounts[t].balance * pnl % s.pool == 0 {
      RowsAreAccounts(s.accounts, s.limit);
      assert forall i :: 0 <= i < |rows| ==> IsRowOf(rows[i], s.accounts, s.limit);
      ReturnsAreEqualExactly(rows, pnl, s.pool);
    }
  }

  lemma ThreeCents()
    ensures var s := Run(Empty(2), [OpCreate(1, "", "", 1), OpCreate(2, "", "", 2)]);
      s.pool == 3 && !s.paused && IsActive(s, 1) && s.accounts[1].balance == 1
  {
    var a, b := OpCreate(1, "", "", 1), OpCreate(2, "", "", 2);
    RunsAreValid(2, []);
    RunsAreValid(2, [a]);
    assert [a][..0] == [] && [a, b][..1] == [a];
    assert Run(Empty(2), []) == Empty(2);
    assert Run(Empty(2), [a]) == Step(Empty(2), a);
    hide Valid;
    CreateOutcome(Empty(2), 1, "", "", 1);
    CreateOutcome(Step(Empty(2), a), 2, "", "", 2);
  }

  /** One cent of profit on three cents, one of which is one account's. */
  lemma CentOnThree(s: State)
    requires Valid(s) && !s.paused && s.pool == 3 && IsActive(s, 1) && s.accounts[1].balance == 1
    ensures var r := RecordTrade(s, 100, 1);
      r.Ok? && exists t :: IsActive(s, t) && t in r.value.accounts && !EqualReturn(s, r.value, 1, t)
  {
    hide Valid, RecordTrade, EqualReturn;
    TradeOutcome(s, 100, 1);
    ReturnsAreEqual(s, 100, 1);
    assert IsActive(s, 1) && s.accounts[1].balance * 1 % s.pool == 1;
  }

  /** The ledger itself pays unequal returns: one cent on accounts of one and two cents. */
  lemma UnequalReturnsInLedger()
    ensures var s := Run(Empty(2), [OpCreate(1, "", "", 1), OpCreate(2, "", "", 2)]);
      var r := Apply(s, OpTrade(100, 1));
      r.Ok? && exists t :: IsActive(s, t) && t in r.value.accounts && !EqualReturn(s, r.value, 1, t)
  {
    hide Valid, Run, Step, Empty, RecordTrade, EqualReturn, IsActive;
    ThreeCents();
    RunsAreValid(2, [OpCreate(1, "", "", 1), OpCreate(2, "", "", 2)]);
    CentOnThree(Run(Empty(2), [OpCreate(1, "", "", 1), OpCreate(2, "", "", 2)]));
  }
}
