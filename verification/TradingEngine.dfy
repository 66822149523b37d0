/** Opening and closing positions against the ledger, and the withdrawal preview. */
module TradingEngine {
  import opened Wrappers
  import opened Allocation
  import opened Fund
  import opened FundInvariants
  import opened FundRuns
  import opened DatabaseLedger

  /** USDC has six decimals: one cent is ten thousand units. */
  const CENTS_TO_USDC_UNITS := 10_000

  // ---------------------------------------------------------------- Selling

  /** A position whose swap went through, with the P&L in cents. */
  datatype Fill = Fill(id: int, amount: int, pnl: int)

  function FillOf(p: Position, units: nat): Fill {
    Fill(p.id, p.amountCents, units / CENTS_TO_USDC_UNITS - p.amountCents)
  }

  /** A swap that returned `units` of USDC brought this many whole cents. */
  predicate Received(units: nat, cents: int) {
    10_000 * cents <= units < 10_000 * (cents + 1)
  }

  /** The P&L is what was received, in whole cents, less what the position cost. */
  lemma FillIsReceipt(p: Position, units: nat)
    ensures var f := FillOf(p, units);
      f.id == p.id && f.amount == p.amountCents && Received(units, p.amountCents + f.pnl)
  {
  }

  /** The swaps that succeeded, in the order of the list. A failed swap has no quote. */
  function Fills(open: seq<Position>, quotes: seq<Option<nat>>): seq<Fill>
    requires |open| == |quotes|
  {
    if open == [] then []
    else
      var n := |open| - 1;
      Fills(open[..n], quotes[..n]) + if quotes[n].Some? then [FillOf(open[n], quotes[n].value)] else []
  }

  /** The places of the list whose swap succeeded. */
  function FilledAt(quotes: seq<Option<nat>>): seq<nat> {
    if quotes == [] then []
    else
      var n := |quotes| - 1;
      FilledAt(quotes[..n]) + if quotes[n].Some? then [n] else []
  }

  /** Exactly the places with a quote, in order. */
  lemma {:induction false} FilledAtAll(quotes: seq<Option<nat>>)
    ensures forall k :: 0 <= k < |FilledAt(quotes)| ==>
      FilledAt(quotes)[k] < |quotes| && quotes[FilledAt(quotes)[k]].Some?
    ensures forall j, k :: 0 <= j < k < |FilledAt(quotes)| ==> FilledAt(quotes)[j] < FilledAt(quotes)[k]
    ensures forall i :: 0 <= i < |quotes| && quotes[i].Some? ==> i in FilledAt(quotes)
  {
    if quotes == [] {
    } else {
      var n := |quotes| - 1;
      FilledAtAll(quotes[..n]);
      assert forall i :: 0 <= i < n ==> quotes[..n][i] == quotes[i];
    }
  }

  lemma {:induction false} FillsCount(open: seq<Position>, quotes: seq<Option<nat>>)
    requires |open| == |quotes|
    ensures |Fills(open, quotes)| == |FilledAt(quotes)|
  {
    if open == [] {
    } else {
      FillsCount(open[..|open| - 1], quotes[..|open| - 1]);
    }
  }

  /** The `k`-th fill is the receipt of the `k`-th swap that succeeded. */
  ghost predicate IsReceipt(open: seq<Position>, quotes: seq<Option<nat>>, k: nat)
    requires |open| == |quotes|
  {
    && k < |FilledAt(quotes)| && k < |Fills(open, quotes)|
    && FilledAt(quotes)[k] < |quotes| && quotes[FilledAt(quotes)[k]].Some?
    && var i, f := FilledAt(quotes)[k], Fills(open, quotes)[k];
       && f.id == open[i].id && f.amount == open[i].amountCents
       && Received(quotes[i].value, open[i].amountCents + f.pnl)
  }

  lemma {:induction false} ReceiptAt(open: seq<Position>, quotes: seq<Option<nat>>, k: nat)
    requires |open| == |quotes| && k < |FilledAt(quotes)|
    ensures IsReceipt(open, quotes, k)
  {
    var n := |open| - 1;
    FillsCount(open, quotes);
    FillsCount(open[..n], quotes[..n]);
    if k < |FilledAt(quotes[..n])| {
      ReceiptAt(open[..n], quotes[..n], k);
    } else {
      FillIsReceipt(open[n], quotes[n].value);
    }
  }

  /** Each fill is the receipt of its swap. */
  lemma {:induction false} FillsAreReceipts(open: seq<Position>, quotes: seq<Option<nat>>)
    requires |open| == |quotes|
    ensures |Fills(open, quotes)| == |FilledAt(quotes)|
    ensures forall k :: 0 <= k < |FilledAt(quotes)| ==>
      FilledAt(quotes)[k] < |quotes| && quotes[FilledAt(quotes)[k]].Some?
    ensures forall k :: 0 <= k < |FilledAt(quotes)| ==>
      var i, f := FilledAt(quotes)[k], Fills(open, quotes)[k];
      && f.id == open[i].id && f.amount == open[i].amountCents
      && Received(quotes[i].value, open[i].amountCents + f.pnl)
  {
    FillsCount(open, quotes);
    hide Fills, FilledAt, Received;
    forall k | 0 <= k < |FilledAt(quotes)|
      ensures FilledAt(quotes)[k] < |quotes| && quotes[FilledAt(quotes)[k]].Some?
      ensures var i, f := FilledAt(quotes)[k], Fills(open, quotes)[k];
        && f.id == open[i].id && f.amount == open[i].amountCents
        && Received(quotes[i].value, open[i].amountCents + f.pnl)
    {
      ReceiptAt(open, quotes, k);
      assert IsReceipt(open, quotes, k);
    }
  }

  function TradesOf(fills: seq<Fill>): seq<Trade> {
    seq(|fills|, i requires 0 <= i < |fills| => Trade(fills[i].amount, fills[i].pnl))
  }

  function PnlTotal(fills: seq<Fill>): int {
    if fills == [] then 0 else PnlTotal(fills[..|fills| - 1]) + fills[|fills| - 1].pnl
  }

  function Ids(fills: seq<Fill>): set<int> {
    set i | 0 <= i < |fills| :: fills[i].id
  }

  /** Each P&L in turn is zero or falls on a pool that holds money and covers a loss. */
  predicate Covered(pool: int, fills: seq<Fill>) {
    fills == [] || (
      var front, last := fills[..|fills| - 1], fills[|fills| - 1].pnl;
      var before := pool + PnlTotal(front);
      Covered(pool, front) && (last == 0 || (before > 0 && before + last >= 0)))
  }

  /** The ledger takes every trade of the fills: none is needed, or the fund runs and the pool covers each. */
  predicate Taken(s: State, fills: seq<Fill>) {
    fills == [] || (!s.paused && Covered(s.pool, fills))
  }

  lemma {:induction false} WithoutTwice(ps: seq<Position>, a: set<int>, b: set<int>)
    ensures WithoutIds(WithoutIds(ps, a), b) == WithoutIds(ps, a + b)
  {
    if ps == [] {
    } else {
      WithoutTwice(ps[1..], a, b);
      var rest := WithoutIds(ps[1..], a);
      assert ([ps[0]] + rest)[1..] == rest;
    }
  }

  lemma {:induction false} WithoutNone(ps: seq<Position>)
    ensures WithoutIds(ps, {}) == ps
  {
    if ps == [] {
    } else {
      WithoutNone(ps[1..]);
    }
  }

  lemma FillsNext(open: seq<Position>, quotes: seq<Option<nat>>, i: nat)
    requires |open| == |quotes| && i < |open|
    ensures Fills(open[..i + 1], quotes[..i + 1])
         == if quotes[i].Some? then Fills(open[..i], quotes[..i]) + [FillOf(open[i], quotes[i].value)]
            else Fills(open[..i], quotes[..i])
  {
    assert open[..i + 1][..i] == open[..i] && quotes[..i + 1][..i] == quotes[..i];
  }

  lemma NoFills(open: seq<Position>, quotes: seq<Option<nat>>)
    requires |open| == |quotes|
    ensures Fills(open[..0], quotes[..0]) == []
  {
  }

  /** What one more fill does to the sums over the fills. */
  lemma FillAdds(pool: int, fills: seq<Fill>, f: Fill)
    ensures PnlTotal(fills + [f]) == PnlTotal(fills) + f.pnl
    ensures TradesOf(fills + [f]) == TradesOf(fills) + [Trade(f.amount, f.pnl)]
    ensures Ids(fills + [f]) == Ids(fills) + {f.id}
    ensures Covered(pool, fills + [f]) <==>
      Covered(pool, fills) && (f.pnl == 0 || (pool + PnlTotal(fills) > 0 && pool + PnlTotal(fills) + f.pnl >= 0))
  {
    assert (fills + [f])[..|fills|] == fills;
    assert forall i :: 0 <= i < |fills| ==> (fills + [f])[i].id == fills[i].id;
    assert (fills + [f])[|fills|].id == f.id;
  }

  /** Fills that the ledger does not take are not taken with more behind them. */
  lemma {:induction false} TakenPrefix(s: State, open: seq<Position>, quotes: seq<Option<nat>>, i: nat)
    requires |open| == |quotes| && i <= |open| && !Taken(s, Fills(open[..i], quotes[..i]))
    ensures !Taken(s, Fills(open, quotes))
    decreases |open| - i
  {
    if i == |open| {
      assert open[..i] == open && quotes[..i] == quotes;
    } else {
      FillsNext(open, quotes, i);
      if quotes[i].Some? {
        FillAdds(s.pool, Fills(open[..i], quotes[..i]), FillOf(open[i], quotes[i].value));
      }
      TakenPrefix(s, open, quotes, i + 1);
    }
  }

  /** One committed trade, seen from the pool and the trades table. */
  lemma TradeEffect(s: State, amount: int, pnl: int)
    requires Valid(s) && RecordTrade(s, amount, pnl).Ok?
    ensures var t := RecordTrade(s, amount, pnl).value;
      Valid(t) && t.pool == s.pool + pnl && t.trades == s.trades + [Trade(amount, pnl)] && t.paused == s.paused
  {
    TradeOutcome(s, amount, pnl);
    if pnl != 0 {
      RowsSplittable(s);
    }
  }

  /** The listed positions are open and listed once. */
  ghost predicate Listed(ps: seq<Position>, open: seq<Position>) {
    && (forall i :: 0 <= i < |open| ==> open[i] in ps && open[i].amountCents > 0)
    && (forall i, j :: 0 <= i < j < |open| ==> open[i].id != open[j].id)
  }

  lemma {:induction false} StillOpen(ps: seq<Position>, ids: set<int>, p: Position)
    requires p in ps && p.id !in ids
    ensures p in WithoutIds(ps, ids)
  {
    if ps[0] != p {
      StillOpen(ps[1..], ids, p);
    }
  }

  lemma {:induction false} FillIds(open: seq<Position>, quotes: seq<Option<nat>>, id: int)
    requires |open| == |quotes| && forall i :: 0 <= i < |open| ==> open[i].id != id
    ensures id !in Ids(Fills(open, quotes))
  {
    if open == [] {
    } else {
      var n := |open| - 1;
      FillIds(open[..n], quotes[..n], id);
      if quotes[n].Some? {
        FillAdds(0, Fills(open[..n], quotes[..n]), FillOf(open[n], quotes[n].value));
      }
    }
  }

  /** The ledger after exactly these fills were booked and closed. */
  ghost predicate Sold(s: State, ps: seq<Position>, done: seq<Fill>, t: State, qs: seq<Position>) {
    && Valid(t) && t.paused == s.paused
    && qs == WithoutIds(ps, Ids(done))
    && t.trades == s.trades + TradesOf(done)
    && t.pool == s.pool + PnlTotal(done)
  }

  lemma NothingSold(s: State, ps: seq<Position>)
    requires Valid(s)
    ensures Sold(s, ps, [], s, ps) && Taken(s, []) && PnlTotal([]) == 0
  {
    assert Ids([]) == {};
    WithoutNone(ps);
  }

  lemma ValidPasses(s: State)
    requires Valid(s)
    ensures Audit(s)
  {
  }

  /**
   * One trade for each swap that succeeded, in order, with what the position cost and what
   * was received for it; and exactly those positions are gone.
   */
  ghost predicate ReceiptsBooked(
    trades: seq<Trade>, ps: seq<Position>, open: seq<Position>, quotes: seq<Option<nat>>,
    trades': seq<Trade>, ps': seq<Position>)
    requires |quotes| <= |open|
  {
    var at := FilledAt(quotes);
    && |trades'| == |trades| + |at| && trades <= trades'
    && (forall k :: 0 <= k < |at| ==> at[k] < |quotes| && quotes[at[k]].Some?)
    && (forall k :: 0 <= k < |at| ==> var t, p := trades'[|trades| + k], open[at[k]];
          t.amount == p.amountCents && Received(quotes[at[k]].value, t.amount + t.profitLoss))
    && (forall p :: p in ps' <==>
          p in ps && forall i :: 0 <= i < |quotes| && quotes[i].Some? ==> open[i].id != p.id)
  }

  lemma {:induction false} WithoutMembers(ps: seq<Position>, ids: set<int>)
    ensures forall p :: p in WithoutIds(ps, ids) <==> p in ps && p.id !in ids
  {
    if ps == [] {
    } else {
      WithoutMembers(ps[1..], ids);
      assert forall p :: p in ps <==> p == ps[0] || p in ps[1..];
    }
  }

  lemma IdsOfFills(open: seq<Position>, quotes: seq<Option<nat>>, id: int)
    requires |open| == |quotes|
    ensures id in Ids(Fills(open, quotes)) <==> exists i :: 0 <= i < |quotes| && quotes[i].Some? && open[i].id == id
  {
    FillsAreReceipts(open, quotes);
    FilledAtAll(quotes);
    hide Fills, FilledAt;
    var fills, at := Fills(open, quotes), FilledAt(quotes);
    if id in Ids(fills) {
      var k :| 0 <= k < |fills| && fills[k].id == id;
      assert open[at[k]].id == id;
    }
    if i :| 0 <= i < |quotes| && quotes[i].Some? && open[i].id == id {
      var k :| 0 <= k < |at| && at[k] == i;
      assert fills[k].id == id;
    }
  }

  lemma SoldIsBooked(
    s: State, ps: seq<Position>, open: seq<Position>, quotes: seq<Option<nat>>, t: State, qs: seq<Position>)
    requires |open| == |quotes| && Sold(s, ps, Fills(open, quotes), t, qs)
    ensures ReceiptsBooked(s.trades, ps, open, quotes, t.trades, qs)
  {
    FillsAreReceipts(open, quotes);
    WithoutMembers(ps, Ids(Fills(open, quotes)));
    forall id
      ensures id in Ids(Fills(open, quotes)) <==> exists i :: 0 <= i < |quotes| && quotes[i].Some? && open[i].id == id
    {
      IdsOfFills(open, quotes, id);
    }
    hide Fills, FilledAt, Ids, WithoutIds, Valid;
  }

  /** Positions behind the places that were reached do not matter. */
  lemma BookedPrefix(
    trades: seq<Trade>, ps: seq<Position>, open: seq<Position>, quotes: seq<Option<nat>>,
    trades': seq<Trade>, ps': seq<Position>)
    requires |quotes| <= |open| && ReceiptsBooked(trades, ps, open[..|quotes|], quotes, trades', ps')
    ensures ReceiptsBooked(trades, ps, open, quotes, trades', ps')
  {
    hide FilledAt;
  }

  /** Booking one more fill. */
  lemma SoldOneMore(s: State, ps: seq<Position>, done: seq<Fill>, t: State, qs: seq<Position>, f: Fill)
    requires Sold(s, ps, done, t, qs) && Taken(s, done) && f.amount > 0
    ensures RecordTrade(t, f.amount, f.pnl).Ok? <==> Taken(s, done + [f])
    ensures RecordTrade(t, f.amount, f.pnl).Ok? ==>
      Sold(s, ps, done + [f], RecordTrade(t, f.amount, f.pnl).value, WithoutIds(qs, {f.id}))
  {
    TradeOutcome(t, f.amount, f.pnl);
    FillAdds(s.pool, done, f);
    if RecordTrade(t, f.amount, f.pnl).Ok? {
      TradeEffect(t, f.amount, f.pnl);
      WithoutTwice(ps, Ids(done), {f.id});
    }
  }

  /**
   * The loop body for a position whose swap returned `units` of USDC. The trade is
   * recorded first; when the position is no longer there, the trade stays and the call
   * throws.
   */
  method SellOne(ledger: Ledger, pos: Position, units: nat) returns (r: Result<int, Error>)
    requires Valid(ledger.db)
    modifies ledger`db, ledger`positions
    ensures var f, was := FillOf(pos, units), old(ledger.positions);
      var spec := RecordTrade(old(ledger.db), f.amount, f.pnl);
      && r == (if spec.Err? then Err(spec.error)
               else if IsOpen(was, pos.id) then Ok(f.pnl) else Err(PositionNotFound))
      && ledger.db == (if spec.Ok? then spec.value else old(ledger.db))
      && ledger.positions == if r.Ok? then WithoutIds(was, {pos.id}) else was
    ensures r.Ok? ==>
      && 10_000 * (r.value + pos.amountCents) <= units < 10_000 * (r.value + pos.amountCents + 1)
      && ledger.db.pool == old(ledger.db.pool) + r.value
      && ledger.db.trades == old(ledger.db.trades) + [Trade(pos.amountCents, r.value)]
  {
    FillIsReceipt(pos, units);
    if RecordTrade(ledger.db, pos.amountCents, FillOf(pos, units).pnl).Ok? {
      TradeEffect(ledger.db, pos.amountCents, FillOf(pos, units).pnl);
    }
    hide Valid, RecordTrade;
    var usdcReceivedCents := units / CENTS_TO_USDC_UNITS;
    var pnlCents := usdcReceivedCents - pos.amountCents;
    var trade := ledger.RecordTrade(pos.amountCents, pnlCents);
    if trade.Err? {
      return Err(trade.error);
    }
    var found := ledger.ClosePosition(pos.id);
    if !found {
      return Err(PositionNotFound);
    }
    r := Ok(pnlCents);
  }

  /**
   * Closing every listed position when nothing else runs during the awaits. It returns
   * normally exactly when the ledger takes each fill in turn; then exactly the filled
   * positions are gone, each is one trade, and the pool has moved by the reported total.
   * When a trade is refused at place `stopped`, the earlier fills stay booked and that
   * position stays open.
   */
  method HandleSell(ledger: Ledger, open: seq<Position>, quotes: seq<Option<nat>>)
    returns (r: Result<int, Error>, ghost stopped: nat)
    requires Valid(ledger.db)
    requires |open| == |quotes| && Listed(ledger.positions, open)
    modifies ledger`db, ledger`positions
    ensures r.Ok? <==> Taken(old(ledger.db), Fills(open, quotes))
    ensures r.Ok? ==> stopped == |open| && r.value == PnlTotal(Fills(open, quotes))
    ensures r.Err? ==> stopped < |open| && quotes[stopped].Some?
    ensures stopped <= |open| && Sold(old(ledger.db), old(ledger.positions),
                                      Fills(open[..stopped], quotes[..stopped]), ledger.db, ledger.positions)
    ensures r.Ok? ==> ledger.db.pool == old(ledger.db.pool) + r.value
    ensures ReceiptsBooked(old(ledger.db.trades), old(ledger.positions), open, quotes[..stopped],
                           ledger.db.trades, ledger.positions)
  {
    hide Valid, RecordTrade, Fills, PnlTotal, Taken, Ids, TradesOf, WithoutIds, ReceiptsBooked;
    var totalPnlCents := 0;
    stopped := 0;
    NothingSold(ledger.db, ledger.positions);
    NoFills(open, quotes);
    for i := 0 to |open|
      invariant stopped == i
      invariant totalPnlCents == PnlTotal(Fills(open[..i], quotes[..i]))
      invariant Taken(old(ledger.db), Fills(open[..i], quotes[..i]))
      invariant Sold(old(ledger.db), old(ledger.positions), Fills(open[..i], quotes[..i]), ledger.db, ledger.positions)
    {
      var pos := open[i];
      ghost var done := Fills(open[..i], quotes[..i]);
      FillsNext(open, quotes, i);
      if quotes[i].Some? {
        ghost var f := FillOf(pos, quotes[i].value);
        SoldOneMore(old(ledger.db), old(ledger.positions), done, ledger.db, ledger.positions, f);
        FillAdds(old(ledger.db.pool), done, f);
        FillIds(open[..i], quotes[..i], pos.id);
        StillOpen(old(ledger.positions), Ids(done), pos);
        assert IsOpen(ledger.positions, pos.id);
        var sold := SellOne(ledger, pos, quotes[i].value);
        if sold.Err? {
          TakenPrefix(old(ledger.db), open, quotes, i + 1);
          SoldIsBooked(old(ledger.db), old(ledger.positions), open[..i], quotes[..i], ledger.db, ledger.positions);
          BookedPrefix(old(ledger.db.trades), old(ledger.positions), open, quotes[..i],
                       ledger.db.trades, ledger.positions);
          return sold, i;
        }
        totalPnlCents := totalPnlCents + sold.value;
      }
      stopped := i + 1;
    }
    assert open[..|open|] == open && quotes[..|quotes|] == quotes;
    SoldIsBooked(old(ledger.db), old(ledger.positions), open, quotes, ledger.db, ledger.positions);
    ValidPasses(ledger.db);
    var passed := ledger.VerifyInvariants();
    if !passed {
      return Err(InvariantViolation), stopped;
    }
    r := Ok(totalPnlCents);
  }

  // ---------------------------------------------------------------- Buying

  /** The hard limits on one position, in percent of the pool. */
  const MAX_POSITION_SIZE := 30.0
  const MIN_POSITION_SIZE := 5.0

  datatype BuyResult = Opened(id: int, cents: int) | Skipped | SwapFailed | Refused(error: Error)

  function Exposure(ps: seq<Position>, pair: string): int {
    if ps == [] then 0
    else Exposure(ps[..|ps| - 1], pair)
         + if ps[|ps| - 1].pair == pair then ps[|ps| - 1].amountCents else 0
  }

  function Min(x: real, y: real): real { if x < y then x else y }

  /** `clampPositionSize`. */
  function ClampPositionSize(size: real): real {
    if Min(MAX_POSITION_SIZE, size) < MIN_POSITION_SIZE then MIN_POSITION_SIZE else Min(MAX_POSITION_SIZE, size)
  }

  lemma FloorBelow(x: real, n: nat)
    requires x * 10.0 <= 3.0 * n as real
    ensures 10 * x.Floor <= 3 * n
  {
    assert x.Floor as real <= x;
    assert (10 * x.Floor) as real == 10.0 * x.Floor as real;
  }

  function PositionCents(pool: nat, size: real): int {
    (pool as real * ClampPositionSize(size) / 100.0).Floor
  }

  /** No clamped position is larger than three tenths of the pool. */
  lemma PositionIsSmall(pool: nat, size: real)
    ensures 10 * PositionCents(pool, size) <= 3 * pool
  {
    var c := ClampPositionSize(size);
    assert pool as real * c <= pool as real * 30.0;
    FloorBelow(pool as real * c / 100.0, pool);
  }

  /** Below thirty percent, in exact arithmetic. */
  lemma ExposureIsSmall(open: int, pool: nat, limit: real)
    requires pool > 0 && limit <= 30.0 && open as real / pool as real * 100.0 < limit
    ensures 10 * open < 3 * pool
  {
    var q := open as real / pool as real;
    assert q * pool as real == open as real;
    assert q < 0.3;
    assert q * pool as real < 0.3 * pool as real;
  }

  /** The governance limit never lifts the hard one. */
  function ExposureLimit(govLimit: Option<real>): real {
    if govLimit.Some? then Min(govLimit.value, MAX_POSITION_SIZE) else MAX_POSITION_SIZE
  }

  /** The size the strategy asks for, in percent. */
  function Asked(size: Option<real>): real { if size.Some? then size.value else 10.0 }

  /** The checks of `handleBuy` before it swaps: room below the limit, and at least a cent to spend. */
  predicate MayBuy(pool: nat, exposure: int, govLimit: Option<real>, size: Option<real>) {
    && pool > 0
    && exposure as real / pool as real * 100.0 < ExposureLimit(govLimit)
    && PositionCents(pool, Asked(size)) > 0
  }

  /** The size in force: what the strategy asks for, ten by default, between five and thirty percent. */
  function Percent(size: Option<real>): real {
    if size.None? then 10.0
    else if size.value < 5.0 then 5.0
    else if size.value > 30.0 then 30.0
    else size.value
  }

  /** A position is the clamped percentage of the pool, in whole cents. */
  lemma PositionIsPercent(pool: nat, size: Option<real>)
    ensures var cents := PositionCents(pool, Asked(size));
      100.0 * cents as real <= pool as real * Percent(size) < 100.0 * (cents + 1) as real
  {
    var x := pool as real * Percent(size) / 100.0;
    assert ClampPositionSize(Asked(size)) == Percent(size);
    assert x.Floor as real <= x < (x.Floor + 1) as real;
  }

  lemma PercentBelow(x: int, pool: nat, limit: real)
    requires pool > 0
    ensures x as real / pool as real * 100.0 < limit <==> 100.0 * x as real < limit * pool as real
  {
    var q, p := x as real / pool as real, pool as real;
    assert q * p == x as real;
    var z := q * 100.0;
    assert z * p == 100.0 * x as real;
    if z < limit {
      assert z * p < limit * p;
    } else {
      assert z * p >= limit * p;
    }
  }

  /** The checks, spelled out: below thirty percent or what governance allows, and a cent at least. */
  lemma MayBuyMeans(pool: nat, exposure: int, govLimit: Option<real>, size: Option<real>)
    ensures MayBuy(pool, exposure, govLimit, size) <==>
      && pool > 0 && pool as real * Percent(size) >= 100.0
      && 100.0 * exposure as real < 30.0 * pool as real
      && (govLimit.Some? ==> 100.0 * exposure as real < govLimit.value * pool as real)
  {
    if pool > 0 {
      PositionIsPercent(pool, size);
      PercentBelow(exposure, pool, 30.0);
      if govLimit.Some? {
        PercentBelow(exposure, pool, govLimit.value);
      }
      hide PositionCents, Percent, Asked;
      var cents := PositionCents(pool, Asked(size));
      var y := pool as real * Percent(size);
      assert y >= 100.0 <==> cents > 0;
    }
  }

  /** Exposure counts the open positions on the pair and no others. */
  lemma ExposureCounts(ps: seq<Position>, p: Position, pair: string)
    ensures Exposure([], pair) == 0
    ensures Exposure(ps + [p], pair) == Exposure(ps, pair) + if p.pair == pair then p.amountCents else 0
  {
    assert (ps + [p])[..|ps|] == ps;
  }

  /** What was checked leaves room: the position fits below 60% of the pool. */
  lemma CheckLeavesRoom(pool: nat, exposure: int, govLimit: Option<real>, size: Option<real>)
    requires MayBuy(pool, exposure, govLimit, size)
    ensures 5 * (exposure + PositionCents(pool, Asked(size))) < 3 * pool
  {
    ExposureIsSmall(exposure, pool, ExposureLimit(govLimit));
    PositionIsSmall(pool, Asked(size));
  }

  /**
   * Opening a position when nothing else runs during the awaits: however governance sets
   * the limit and whatever size the strategy asks for, a successful buy leaves less than
   * 60% of the pool exposed on the pair. It succeeds exactly when the checks pass, the
   * swap goes through and the fund is not paused.
   */
  method HandleBuy(
    ledger: Ledger, pair: string, poolCents: nat, govLimit: Option<real>, size: Option<real>, swapped: bool)
    returns (r: BuyResult)
    modifies ledger`positions, ledger`nextPosition
    ensures r.Opened? <==>
      !ledger.db.paused && swapped && MayBuy(poolCents, Exposure(old(ledger.positions), pair), govLimit, size)
    ensures r.Opened? <==>
      && !ledger.db.paused && swapped && poolCents > 0 && poolCents as real * Percent(size) >= 100.0
      && 100.0 * Exposure(old(ledger.positions), pair) as real < 30.0 * poolCents as real
      && (govLimit.Some? ==>
            100.0 * Exposure(old(ledger.positions), pair) as real < govLimit.value * poolCents as real)
    ensures r.Opened? ==>
      100.0 * r.cents as real <= poolCents as real * Percent(size) < 100.0 * (r.cents + 1) as real
    ensures ledger.positions == old(ledger.positions) + if r.Opened? then [Position(r.id, pair, r.cents)] else []
    ensures r.Opened? ==> 5 * Exposure(ledger.positions, pair) < 3 * poolCents
  {
    MayBuyMeans(poolCents, Exposure(ledger.positions, pair), govLimit, size);
    PositionIsPercent(poolCents, size);
    hide Percent;
    var maxPosSize := ExposureLimit(govLimit);
    var totalOpenCents := Exposure(ledger.positions, pair);
    if poolCents == 0 || totalOpenCents as real / poolCents as real * 100.0 >= maxPosSize {
      return Skipped;
    }
    var positionCents := PositionCents(poolCents, Asked(size));
    if positionCents <= 0 {
      return Skipped;
    }
    if !swapped {
      return SwapFailed;
    }
    CheckLeavesRoom(poolCents, totalOpenCents, govLimit, size);
    hide PositionCents, ExposureLimit;
    var placed := ledger.OpenPosition(pair, positionCents);
    if placed.Err? {
      return Refused(placed.error);
    }
    assert ledger.positions[..|ledger.positions| - 1] == old(ledger.positions);
    assert Exposure(ledger.positions, pair) == totalOpenCents + positionCents;
    r := Opened(placed.value, positionCents);
  }

  // ---------------------------------------------------------------- Withdrawal preview

  datatype Preview = Preview(gross: int, fee: int, net: int, recipients: int)

  function PreviewWithdrawal(s: State, token: int): Option<Preview> {
    if !IsActive(s, token) || s.accounts[token].balance <= 0 then None
    else
      var b := s.accounts[token].balance;
      Some(Preview(b, Fee(b), b - Fee(b), |ActiveRows(s.accounts, s.limit)| - 1))
  }

  lemma {:induction false} RowCount(m: map<int, Account>, n: int)
    ensures |ActiveRows(m, n)| == SumBy(m, n, ActiveOne)
    decreases if n < 0 then 0 else n
  {
    if n <= 0 {
    } else {
      RowCount(m, n - 1);
    }
  }

  /** A withdrawal takes one account off the list. */
  lemma OneFewer(s: State, token: int)
    requires Valid(s) && Withdraw(s, token).Ok?
    ensures var after := Withdraw(s, token).value;
      |ActiveRows(after.accounts, after.limit)| == |ActiveRows(s.accounts, s.limit)| - 1
  {
    var after := Withdraw(s, token).value;
    WithdrawOutcome(s, token);
    hide ActiveRows, SumBy;
    RowCount(s.accounts, s.limit);
    RowCount(after.accounts, after.limit);
  }

  /**
   * The preview tells the truth: it is offered exactly when the withdrawal would commit,
   * its fee and net amount are the ones then recorded, and its recipients are the
   * accounts that remain.
   */
  lemma PreviewIsExact(s: State, token: int)
    requires Valid(s) && !s.paused
    ensures PreviewWithdrawal(s, token).Some? <==> Withdraw(s, token).Ok?
    ensures PreviewWithdrawal(s, token).Some? ==>
      var p, after := PreviewWithdrawal(s, token).value, Withdraw(s, token).value;
      && after.withdrawals == s.withdrawals + [Withdrawal(token, p.gross, p.fee, p.net)]
      && p.recipients == |ActiveRows(after.accounts, after.limit)|
  {
    hide Valid, Withdraw, ActiveRows, Fee;
    WithdrawOutcome(s, token);
    if Withdraw(s, token).Ok? {
      WithdrawalIsFair(s, token);
      FeeBounds(s.accounts[token].balance);
      OneFewer(s, token);
    }
  }
}
