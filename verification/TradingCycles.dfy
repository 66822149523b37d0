/**
 * Trading cycles that overlap. A cycle is suspended wherever it awaits the market data,
 * a swap or a price, and between any two of its steps other cycles, any transaction on
 * the ledger and governance may run.
 */
module TradingCycles {
  import opened Wrappers
  import opened Fund
  import opened FundInvariants
  import opened FundRuns
  import opened DatabaseLedger
  import opened TradingEngine

  const PAIR := "SOL/USDC"

  // ---------------------------------------------------------------- The machine

  datatype Ending =
    | Idle
    | Unswapped
    | Placed(id: int, cents: int)
    | Sold(total: int)
    | Threw(error: Error)
    | Gone(id: int)

  /** A cycle between two steps; `pool` is what it read when it began. */
  datatype Cycle =
    | Thinking(pool: int)                                              // awaits candles and sentiment
    | Buying(pool: int, cents: int)                                    // awaits the swap into SOL
    | Bought(pool: int, cents: int)                                    // awaits the price
    | Selling(list: seq<Position>, next: nat, total: int)              // awaits the swap of list[next]
    | Closing(list: seq<Position>, next: nat, total: int, fill: Fill)  // awaits the price
    | Ended(ending: Ending)

  /** What happened, in order. A sale is one recorded trade; `closed` says whether the position was still there. */
  datatype Entry =
    | Opening(c: nat, p: Position)
    | Filled(c: nat, f: Fill)
    | Traded(c: nat, f: Fill, closed: bool)
    | Moved(op: Op, cents: int)

  datatype Desk = Desk(db: State, positions: seq<Position>, nextId: int, cycles: seq<Cycle>, log: seq<Entry>)

  datatype Event =
    | Start
    | Hold(c: nat)
    | Buy(c: nat, govLimit: Option<real>, size: Option<real>)
    | Sell(c: nat, list: seq<Position>)
    | SwapDone(c: nat, units: Option<nat>)
    | PriceKnown(c: nat)
    | Book(op: Op)
    | SetPaused(paused: bool)

  function NewDesk(limit: int): Desk { Desk(Empty(limit), [], 1, [], []) }

  predicate DistinctIds(ps: seq<Position>) {
    forall i, j :: 0 <= i < j < |ps| ==> ps[i].id != ps[j].id
  }

  /** `getOpenPositions` in some order. */
  ghost predicate Lists(ps: seq<Position>, list: seq<Position>) {
    DistinctIds(list) && forall p :: p in list <==> p in ps && p.pair == PAIR
  }

  function Put(w: Desk, c: nat, cycle: Cycle): Desk
    requires c < |w.cycles|
  {
    w.(cycles := w.cycles[c := cycle])
  }

  /** The pre-checks of a cycle. */
  function Begun(s: State): Cycle {
    if s.paused || s.pool == 0 || s.activeCount == 0 then Ended(Idle) else Thinking(s.pool)
  }

  /** `handleBuy` up to its first await. */
  function Checked(w: Desk, pool: int, govLimit: Option<real>, size: Option<real>): Cycle {
    if pool > 0 && MayBuy(pool, Exposure(w.positions, PAIR), govLimit, size)
    then Buying(pool, PositionCents(pool, Asked(size)))
    else Ended(Idle)
  }

  /** The sale goes on to the next position, or checks the invariants and returns. */
  function Advance(w: Desk, c: nat, list: seq<Position>, next: nat, total: int): Desk
    requires c < |w.cycles|
  {
    if next + 1 < |list| then Put(w, c, Selling(list, next + 1, total))
    else if Audit(w.db) then Put(w, c, Ended(Sold(total)))
    else Put(w.(db := w.db.(paused := true)), c, Ended(Threw(InvariantViolation)))
  }

  function AfterSwap(w: Desk, c: nat, units: Option<nat>): Desk
    requires c < |w.cycles|
  {
    match w.cycles[c]
    case Buying(pool, cents) => Put(w, c, if units.Some? then Bought(pool, cents) else Ended(Unswapped))
    case Selling(list, next, total) =>
      if next >= |list| then w
      else if units.None? then Advance(w, c, list, next, total)
      else
        var f := FillOf(list[next], units.value);
        Put(w.(log := w.log + [Filled(c, f)]), c, Closing(list, next, total + f.pnl, f))
    case _ => w
  }

  /** The trade is recorded first; then the position is closed, which throws when it is gone. */
  ghost function Booked(w: Desk, c: nat, list: seq<Position>, next: nat, total: int, f: Fill): Desk
    requires c < |w.cycles|
  {
    var r := RecordTrade(w.db, f.amount, f.pnl);
    if r.Err? then Put(w, c, Ended(Threw(r.error)))
    else
      var open := IsOpen(w.positions, f.id);
      var traded := w.(db := r.value, log := w.log + [Traded(c, f, open)]);
      if open then Advance(traded.(positions := WithoutIds(w.positions, {f.id})), c, list, next, total)
      else Put(traded, c, Ended(Gone(f.id)))
  }

  ghost function AfterPrice(w: Desk, c: nat): Desk
    requires c < |w.cycles|
  {
    match w.cycles[c]
    case Bought(pool, cents) =>
      if w.db.paused then Put(w, c, Ended(Threw(FundPaused)))
      else if cents <= 0 then Put(w, c, Ended(Threw(ConstraintFailed)))
      else
        var p := Position(w.nextId, PAIR, cents);
        Put(w.(positions := w.positions + [p], nextId := w.nextId + 1, log := w.log + [Opening(c, p)]),
            c, Ended(Placed(w.nextId, cents)))
    case Closing(list, next, total, f) => Booked(w, c, list, next, total, f)
    case _ => w
  }

  /** By how much a transaction moves the pool. */
  ghost function MoveOf(s: State, op: Op): int {
    if Apply(s, op).Err? then 0
    else match op
      case OpCreate(_, _, _, deposit) => deposit
      case OpAddFunds(_, amount) => amount
      case OpTrade(_, pnl) => pnl
      case OpWithdraw(token) =>
        if token !in s.accounts then 0
        else
          var b := s.accounts[token].balance;
          -b + (if s.pool > b then b / 50 else 0)
      case _ => 0
  }

  predicate IsThinking(w: Desk, c: nat) { c < |w.cycles| && w.cycles[c].Thinking? }

  /** An event that nobody is waiting for changes nothing. */
  ghost function Next(w: Desk, e: Event): Desk {
    match e
    case Start => w.(cycles := w.cycles + [Begun(w.db)])
    case Hold(c) => if IsThinking(w, c) then Put(w, c, Ended(Idle)) else w
    case Buy(c, govLimit, size) =>
      if IsThinking(w, c) then Put(w, c, Checked(w, w.cycles[c].pool, govLimit, size)) else w
    case Sell(c, list) =>
      if IsThinking(w, c) && Lists(w.positions, list)
      then Put(w, c, if list == [] then Ended(Idle) else Selling(list, 0, 0)) else w
    case SwapDone(c, units) => if c < |w.cycles| then AfterSwap(w, c, units) else w
    case PriceKnown(c) => if c < |w.cycles| then AfterPrice(w, c) else w
    case Book(op) => w.(db := Step(w.db, op), log := w.log + [Moved(op, MoveOf(w.db, op))])
    case SetPaused(b) => w.(db := w.db.(paused := b))
  }

  ghost function RunFrom(w: Desk, events: seq<Event>): Desk {
    if events == [] then w else Next(RunFrom(w, events[..|events| - 1]), events[|events| - 1])
  }

  // ---------------------------------------------------------------- Reading the log

  /** Cents of positions opened so far. */
  function OpenedSoFar(log: seq<Entry>): int {
    if log == [] then 0
    else
      var e := log[|log| - 1];
      OpenedSoFar(log[..|log| - 1]) + if e.Opening? then e.p.amountCents else 0
  }

  /** Cents of positions closed so far. */
  function ClosedSoFar(log: seq<Entry>): int {
    if log == [] then 0
    else
      var e := log[|log| - 1];
      ClosedSoFar(log[..|log| - 1]) + if e.Traded? && e.closed then e.f.amount else 0
  }

  /** How many trades the position has become. */
  function Trades(log: seq<Entry>, id: int): nat {
    if log == [] then 0
    else
      var e := log[|log| - 1];
      Trades(log[..|log| - 1], id) + if e.Traded? && e.f.id == id then 1 else 0
  }

  /** The swaps of cycle `c` that went through. */
  function FillsBy(log: seq<Entry>, c: nat): seq<Fill> {
    if log == [] then []
    else
      var e := log[|log| - 1];
      FillsBy(log[..|log| - 1], c) + if e.Filled? && e.c == c then [e.f] else []
  }

  /** The trades that cycle `c` recorded. */
  function SalesBy(log: seq<Entry>, c: nat): seq<Fill> {
    if log == [] then []
    else
      var e := log[|log| - 1];
      SalesBy(log[..|log| - 1], c) + if e.Traded? && e.c == c then [e.f] else []
  }

  /** What everybody but cycle `c` moved the pool by. */
  function OthersMoved(log: seq<Entry>, c: nat): int {
    if log == [] then 0
    else
      var e := log[|log| - 1];
      OthersMoved(log[..|log| - 1], c)
      + if e.Traded? && e.c != c then e.f.pnl else if e.Moved? then e.cents else 0
  }

  /** One more entry. */
  lemma LogGrows(log: seq<Entry>, e: Entry)
    ensures OpenedSoFar(log + [e]) == OpenedSoFar(log) + if e.Opening? then e.p.amountCents else 0
    ensures ClosedSoFar(log + [e]) == ClosedSoFar(log) + if e.Traded? && e.closed then e.f.amount else 0
    ensures forall id :: Trades(log + [e], id) == Trades(log, id) + if e.Traded? && e.f.id == id then 1 else 0
    ensures forall c :: FillsBy(log + [e], c) == FillsBy(log, c) + if e.Filled? && e.c == c then [e.f] else []
    ensures forall c :: SalesBy(log + [e], c) == SalesBy(log, c) + if e.Traded? && e.c == c then [e.f] else []
    ensures forall c :: OthersMoved(log + [e], c) == OthersMoved(log, c)
              + if e.Traded? && e.c != c then e.f.pnl else if e.Moved? then e.cents else 0
  {
    assert (log + [e])[..|log|] == log;
  }

  // ---------------------------------------------------------------- Safety

  ghost predicate PositionsFit(w: Desk) {
    && DistinctIds(w.positions)
    && (forall p :: p in w.positions ==>
          p.id < w.nextId && p.amountCents > 0 && p.pair == PAIR && Trades(w.log, p.id) == 0)
  }

  /** A position that is open, or became a trade. */
  ghost predicate EverOpen(w: Desk, p: Position) {
    p.id < w.nextId && p.amountCents > 0 && (p in w.positions || Trades(w.log, p.id) > 0)
  }

  ghost predicate ListFits(w: Desk, list: seq<Position>, next: nat) {
    next < |list| && DistinctIds(list) && forall i :: 0 <= i < |list| ==> EverOpen(w, list[i])
  }

  ghost predicate CycleFits(w: Desk, cycle: Cycle) {
    match cycle
    case Selling(list, next, _) => ListFits(w, list, next)
    case Closing(list, next, _, f) =>
      ListFits(w, list, next) && f.id == list[next].id && f.amount == list[next].amountCents
    case _ => true
  }

  /** Every trade of the cycle closed its position. */
  ghost predicate AllClosed(log: seq<Entry>, c: nat) {
    forall i :: 0 <= i < |log| && log[i].Traded? && log[i].c == c ==> log[i].closed
  }

  /** A selling cycle recorded exactly its fills, but for the one it is about to record, and its total is theirs. */
  ghost predicate OwnBooks(log: seq<Entry>, c: nat, cycle: Cycle) {
    match cycle
    case Selling(_, _, total) =>
      AllClosed(log, c) && FillsBy(log, c) == SalesBy(log, c) && total == PnlTotal(FillsBy(log, c))
    case Closing(_, _, total, f) =>
      AllClosed(log, c) && FillsBy(log, c) == SalesBy(log, c) + [f] && total == PnlTotal(FillsBy(log, c))
    case Ended(e) =>
      e.Sold? ==> AllClosed(log, c) && FillsBy(log, c) == SalesBy(log, c) && e.total == PnlTotal(FillsBy(log, c))
    case _ => AllClosed(log, c) && FillsBy(log, c) == SalesBy(log, c) == []
  }

  /** A trade closes its position exactly when it is the position's first. */
  ghost predicate FirstTradeCloses(log: seq<Entry>) {
    forall i :: 0 <= i < |log| && log[i].Traded? ==> (log[i].closed <==> Trades(log[..i], log[i].f.id) == 0)
  }

  ghost predicate LogFits(w: Desk) {
    && FirstTradeCloses(w.log)
    && (forall id :: id >= w.nextId ==> Trades(w.log, id) == 0)
    && (forall c :: c >= |w.cycles| ==> FillsBy(w.log, c) == SalesBy(w.log, c) == [] && AllClosed(w.log, c))
    && Exposure(w.positions, PAIR) == OpenedSoFar(w.log) - ClosedSoFar(w.log)
  }

  ghost predicate CyclesFit(w: Desk) {
    forall c :: 0 <= c < |w.cycles| ==> CycleFits(w, w.cycles[c]) && OwnBooks(w.log, c, w.cycles[c])
  }

  ghost predicate Safe(w: Desk) {
    Valid(w.db) && PositionsFit(w) && LogFits(w) && CyclesFit(w)
  }

  /** Nothing that was ever open is forgotten. */
  ghost predicate Later(w: Desk, v: Desk) {
    w.nextId <= v.nextId && forall p :: EverOpen(w, p) ==> EverOpen(v, p)
  }

  lemma FitsLater(w: Desk, v: Desk, cycle: Cycle)
    requires Later(w, v) && CycleFits(w, cycle)
    ensures CycleFits(v, cycle)
  {
  }

  lemma NewDeskIsSafe(limit: int)
    ensures Safe(NewDesk(limit))
  {
    RunsAreValid(limit, []);
  }

  /** A cycle moves on and nothing else happens. */
  lemma PutKeepsSafe(w: Desk, c: nat, cycle: Cycle)
    requires Safe(w) && c < |w.cycles| && CycleFits(w, cycle) && OwnBooks(w.log, c, cycle)
    ensures Safe(Put(w, c, cycle))
  {
    hide Valid, OwnBooks, CycleFits, FirstTradeCloses;
    var v := Put(w, c, cycle);
    assert Later(w, v);
    forall d | 0 <= d < |v.cycles|
      ensures CycleFits(v, v.cycles[d]) && OwnBooks(v.log, d, v.cycles[d])
    {
      FitsLater(w, v, v.cycles[d]);
    }
  }

  /** The ledger changes and the positions do not. */
  lemma LedgerKeepsSafe(w: Desk, db: State)
    requires Safe(w) && Valid(db)
    ensures Safe(w.(db := db))
  {
    hide Valid, OwnBooks, CycleFits, FirstTradeCloses;
    var v := w.(db := db);
    assert Later(w, v);
    forall d | 0 <= d < |v.cycles|
      ensures CycleFits(v, v.cycles[d])
    {
      FitsLater(w, v, v.cycles[d]);
    }
  }

  lemma StartKeepsSafe(w: Desk)
    requires Safe(w)
    ensures Safe(Next(w, Start))
  {
    hide Valid, FirstTradeCloses;
    var v := Next(w, Start);
    assert Later(w, v);
    forall d | 0 <= d < |v.cycles|
      ensures CycleFits(v, v.cycles[d]) && OwnBooks(v.log, d, v.cycles[d])
    {
      FitsLater(w, v, v.cycles[d]);
    }
  }

  /** One more entry keeps the trades in order. */
  lemma LogKeepsFirst(log: seq<Entry>, e: Entry)
    requires FirstTradeCloses(log) && (e.Traded? ==> (e.closed <==> Trades(log, e.f.id) == 0))
    ensures FirstTradeCloses(log + [e])
  {
    hide Trades;
    forall i | 0 <= i <= |log|
      ensures (log + [e])[..i] == log[..i]
    {
    }
    assert log[..|log|] == log;
  }

  /** An entry about another cycle, or about none, leaves this cycle's books alone. */
  lemma BooksOfOthers(log: seq<Entry>, e: Entry, d: nat, cycle: Cycle)
    requires OwnBooks(log, d, cycle) && (e.Moved? || e.c != d)
    ensures OwnBooks(log + [e], d, cycle)
    ensures AllClosed(log, d) ==> AllClosed(log + [e], d)
  {
    hide FillsBy, SalesBy, PnlTotal;
    LogGrows(log, e);
    assert FillsBy(log + [e], d) == FillsBy(log, d) && SalesBy(log + [e], d) == SalesBy(log, d);
    assert AllClosed(log, d) ==> AllClosed(log + [e], d);
  }

  /** Cycles that have not begun have no entries. */
  lemma NobodyElse(w: Desk, e: Entry)
    requires LogFits(w) && (e.Moved? || e.c < |w.cycles|)
    ensures forall c :: c >= |w.cycles| ==>
      FillsBy(w.log + [e], c) == SalesBy(w.log + [e], c) == [] && AllClosed(w.log + [e], c)
  {
    hide FirstTradeCloses, Trades, FillsBy, SalesBy, OpenedSoFar, ClosedSoFar, Exposure;
    LogGrows(w.log, e);
  }

  /** An entry that trades nothing and opens nothing, with the cycle it is about. */
  lemma NoteKeepsSafe(w: Desk, e: Entry, c: nat, cycle: Cycle)
    requires Safe(w) && c < |w.cycles| && (e.Moved? || (e.Filled? && e.c == c))
    requires CycleFits(w, cycle) && OwnBooks(w.log + [e], c, cycle)
    ensures Safe(Put(w.(log := w.log + [e]), c, cycle))
  {
    hide Valid, FirstTradeCloses, OwnBooks, CycleFits, Trades, FillsBy, SalesBy, OpenedSoFar, ClosedSoFar, Exposure;
    var v := Put(w.(log := w.log + [e]), c, cycle);
    LogGrows(w.log, e);
    LogKeepsFirst(w.log, e);
    assert Later(w, v);
    forall d | 0 <= d < |v.cycles|
      ensures CycleFits(v, v.cycles[d]) && OwnBooks(v.log, d, v.cycles[d])
    {
      if d == c {
        FitsLater(w, v, cycle);
      } else {
        FitsLater(w, v, w.cycles[d]);
        BooksOfOthers(w.log, e, d, w.cycles[d]);
      }
    }
    NobodyElse(w, e);
  }

  /** The log gets an entry that trades and opens nothing, and the ledger changes. */
  lemma MovedKeepsSafe(w: Desk, db: State, e: Entry)
    requires Safe(w) && Valid(db) && e.Moved?
    ensures Safe(w.(db := db, log := w.log + [e]))
  {
    hide Valid, FirstTradeCloses, OwnBooks, CycleFits, Trades, FillsBy, SalesBy, OpenedSoFar, ClosedSoFar, Exposure;
    var v := w.(db := db, log := w.log + [e]);
    LogGrows(w.log, e);
    LogKeepsFirst(w.log, e);
    assert Later(w, v);
    forall d | 0 <= d < |v.cycles|
      ensures CycleFits(v, v.cycles[d]) && OwnBooks(v.log, d, v.cycles[d])
    {
      FitsLater(w, v, w.cycles[d]);
      BooksOfOthers(w.log, e, d, w.cycles[d]);
    }
    NobodyElse(w, e);
  }

  lemma SafeIsValid(w: Desk)
    requires Safe(w)
    ensures Valid(w.db)
  {
  }

  lemma BookKeepsSafe(w: Desk, op: Op)
    requires Safe(w)
    ensures Safe(Next(w, Book(op)))
  {
    hide Safe, Valid, Step, MoveOf;
    SafeIsValid(w);
    StepKeepsValid(w.db, op);
    MovedKeepsSafe(w, Step(w.db, op), Moved(op, MoveOf(w.db, op)));
  }

  lemma ExposureSnoc(ps: seq<Position>, p: Position)
    ensures Exposure(ps + [p], PAIR) == Exposure(ps, PAIR) + if p.pair == PAIR then p.amountCents else 0
  {
    assert (ps + [p])[..|ps|] == ps;
  }

  lemma EndedFits(w: Desk, c: nat, ending: Ending)
    requires !ending.Sold?
    ensures CycleFits(w, Ended(ending)) && OwnBooks(w.log, c, Ended(ending))
  {
  }

  /** The desk once cycle `c` has opened a position. */
  function Grown(w: Desk, c: nat, cents: int): Desk
    requires c < |w.cycles|
  {
    var p := Position(w.nextId, PAIR, cents);
    Put(w.(positions := w.positions + [p], nextId := w.nextId + 1, log := w.log + [Opening(c, p)]),
        c, Ended(Placed(w.nextId, cents)))
  }

  lemma GrownPositions(w: Desk, c: nat, cents: int)
    requires Safe(w) && c < |w.cycles| && cents > 0
    ensures var v := Grown(w, c, cents); PositionsFit(v) && LogFits(v) && Later(w, v)
  {
    hide Valid, FirstTradeCloses, CyclesFit, Trades, FillsBy, SalesBy, OpenedSoFar, ClosedSoFar, Exposure;
    var p := Position(w.nextId, PAIR, cents);
    LogGrows(w.log, Opening(c, p));
    LogKeepsFirst(w.log, Opening(c, p));
    ExposureSnoc(w.positions, p);
    NobodyElse(w, Opening(c, p));
  }

  lemma GrownKeepsSafe(w: Desk, c: nat, cents: int)
    requires Safe(w) && c < |w.cycles| && cents > 0
    ensures Safe(Grown(w, c, cents))
  {
    GrownPositions(w, c, cents);
    hide Valid, PositionsFit, LogFits, OwnBooks, CycleFits, Later;
    var e := Opening(c, Position(w.nextId, PAIR, cents));
    var v := Grown(w, c, cents);
    forall d | 0 <= d < |v.cycles|
      ensures CycleFits(v, v.cycles[d]) && OwnBooks(v.log, d, v.cycles[d])
    {
      if d == c {
        EndedFits(v, c, Placed(w.nextId, cents));
      } else {
        FitsLater(w, v, w.cycles[d]);
        BooksOfOthers(w.log, e, d, w.cycles[d]);
      }
    }
  }

  lemma OpeningKeepsSafe(w: Desk, c: nat)
    requires Safe(w) && c < |w.cycles| && w.cycles[c].Bought?
    ensures Safe(Next(w, PriceKnown(c)))
  {
    hide Safe, CycleFits, OwnBooks;
    var cents := w.cycles[c].cents;
    if w.db.paused {
      EndedFits(w, c, Threw(FundPaused));
      PutKeepsSafe(w, c, Ended(Threw(FundPaused)));
    } else if cents <= 0 {
      EndedFits(w, c, Threw(ConstraintFailed));
      PutKeepsSafe(w, c, Ended(Threw(ConstraintFailed)));
    } else {
      GrownKeepsSafe(w, c, cents);
    }
  }

  // ---------------------------------------------------------------- Closing one position

  lemma {:induction false} WithoutKeepsDistinct(ps: seq<Position>, ids: set<int>)
    requires DistinctIds(ps)
    ensures DistinctIds(WithoutIds(ps, ids))
  {
    if ps == [] {
    } else {
      WithoutKeepsDistinct(ps[1..], ids);
      WithoutMembers(ps[1..], ids);
      var rest := WithoutIds(ps[1..], ids);
      if ps[0].id !in ids {
        assert forall i :: 0 <= i < |ps| - 1 ==> ps[1..][i] == ps[i + 1];
        assert forall i :: 0 <= i < |rest| ==> rest[i] in ps[1..];
      }
    }
  }

  lemma {:induction false} ExposureCons(p: Position, ps: seq<Position>)
    ensures Exposure([p] + ps, PAIR) == (if p.pair == PAIR then p.amountCents else 0) + Exposure(ps, PAIR)
  {
    if ps == [] {
      assert [p] + ps == [] + [p];
      ExposureSnoc([], p);
    } else {
      var front := ps[..|ps| - 1];
      ExposureCons(p, front);
      assert [p] + ps == ([p] + front) + [ps[|ps| - 1]];
      assert ps == front + [ps[|ps| - 1]];
      ExposureSnoc([p] + front, ps[|ps| - 1]);
      ExposureSnoc(front, ps[|ps| - 1]);
    }
  }

  lemma {:induction false} NotThere(ps: seq<Position>, id: int)
    requires forall i :: 0 <= i < |ps| ==> ps[i].id != id
    ensures WithoutIds(ps, {id}) == ps
  {
    if ps == [] {
    } else {
      NotThere(ps[1..], id);
    }
  }

  lemma {:induction false} ExposureWithout(ps: seq<Position>, p: Position)
    requires DistinctIds(ps) && p in ps && p.pair == PAIR
    ensures Exposure(WithoutIds(ps, {p.id}), PAIR) == Exposure(ps, PAIR) - p.amountCents
  {
    var rest := ps[1..];
    assert ps == [ps[0]] + rest;
    ExposureCons(ps[0], rest);
    if ps[0] == p {
      NotThere(rest, p.id);
    } else {
      ExposureWithout(rest, p);
      ExposureCons(ps[0], WithoutIds(rest, {p.id}));
    }
  }

  /** The position a fill is about, if it is open at all, is the one that was listed. */
  lemma OpenMeansUntraded(w: Desk, p: Position)
    requires PositionsFit(w) && EverOpen(w, p)
    ensures IsOpen(w.positions, p.id) <==> Trades(w.log, p.id) == 0
    ensures IsOpen(w.positions, p.id) <==> p in w.positions
  {
    hide Trades;
    if p in w.positions {
      var i :| 0 <= i < |w.positions| && w.positions[i] == p;
      assert IsOpen(w.positions, p.id);
    }
    if IsOpen(w.positions, p.id) {
      var i :| 0 <= i < |w.positions| && w.positions[i].id == p.id;
      assert w.positions[i] in w.positions;
      if p in w.positions {
      } else {
        assert false;
      }
    }
  }

  /** The desk once a trade is recorded for a fill of `p`, and the position is gone. */
  ghost function Recorded(w: Desk, db: State, c: nat, f: Fill): Desk {
    var open := IsOpen(w.positions, f.id);
    w.(db := db, log := w.log + [Traded(c, f, open)],
       positions := if open then WithoutIds(w.positions, {f.id}) else w.positions)
  }

  lemma RecordedPositions(w: Desk, db: State, c: nat, f: Fill, p: Position)
    requires PositionsFit(w) && LogFits(w) && EverOpen(w, p) && f.id == p.id && f.amount == p.amountCents
    ensures var v := Recorded(w, db, c, f); PositionsFit(v) && Later(w, v)
    ensures var v := Recorded(w, db, c, f);
      Exposure(v.positions, PAIR) == OpenedSoFar(v.log) - ClosedSoFar(v.log)
    ensures var v := Recorded(w, db, c, f);
      FirstTradeCloses(v.log) && forall id :: id >= v.nextId ==> Trades(v.log, id) == 0
    ensures !IsOpen(Recorded(w, db, c, f).positions, f.id)
  {
    hide FirstTradeCloses, Trades, FillsBy, SalesBy, OpenedSoFar, ClosedSoFar, Exposure, WithoutIds;
    var v, open := Recorded(w, db, c, f), IsOpen(w.positions, f.id);
    OpenMeansUntraded(w, p);
    WithoutMembers(w.positions, {f.id});
    WithoutKeepsDistinct(w.positions, {f.id});
    LogGrows(w.log, Traded(c, f, open));
    LogKeepsFirst(w.log, Traded(c, f, open));
    if open {
      ExposureWithout(w.positions, p);
    }
    assert forall i :: 0 <= i < |v.positions| ==> v.positions[i] in v.positions;
  }

  lemma TradeKeepsSafe(w: Desk, db: State, c: nat, f: Fill, p: Position, cycle: Cycle)
    requires Safe(w) && Valid(db) && c < |w.cycles|
    requires EverOpen(w, p) && f.id == p.id && f.amount == p.amountCents
    requires CycleFits(w, cycle) && OwnBooks(Recorded(w, db, c, f).log, c, cycle)
    ensures Safe(Put(Recorded(w, db, c, f), c, cycle))
  {
    var e := Traded(c, f, IsOpen(w.positions, f.id));
    var recorded := Recorded(w, db, c, f);
    var v := Put(recorded, c, cycle);
    RecordedPositions(w, db, c, f, p);
    hide Valid, FirstTradeCloses, OwnBooks, CycleFits, Trades, FillsBy, SalesBy, OpenedSoFar, ClosedSoFar, Exposure;
    hide IsOpen, WithoutIds;
    assert recorded.log == w.log + [e];
    assert Later(w, v);
    forall d | 0 <= d < |v.cycles|
      ensures CycleFits(v, v.cycles[d]) && OwnBooks(v.log, d, v.cycles[d])
    {
      if d == c {
        FitsLater(w, v, cycle);
      } else {
        FitsLater(w, v, w.cycles[d]);
        BooksOfOthers(w.log, e, d, w.cycles[d]);
      }
    }
    NobodyElse(w, e);
  }

  /** Where a sale stands after a position that is done with. */
  function AfterPosition(list: seq<Position>, next: nat, total: int): Cycle {
    if next + 1 < |list| then Selling(list, next + 1, total) else Ended(Sold(total))
  }

  lemma AdvanceIsPut(w: Desk, c: nat, list: seq<Position>, next: nat, total: int)
    requires c < |w.cycles| && Valid(w.db)
    ensures Advance(w, c, list, next, total) == Put(w, c, AfterPosition(list, next, total))
  {
    ValidPasses(w.db);
  }

  lemma ClosingFits(w: Desk, c: nat)
    requires Safe(w) && c < |w.cycles| && w.cycles[c].Closing?
    ensures var Closing(list, next, _, f) := w.cycles[c];
      && Valid(w.db) && next < |list| && EverOpen(w, list[next])
      && f.id == list[next].id && f.amount == list[next].amountCents > 0
  {
    assert CycleFits(w, w.cycles[c]);
    assert EverOpen(w, w.cycles[c].list[w.cycles[c].next]);
  }

  /** A sale is booked, and the cycle goes on, exactly when the ledger takes the trade and the position is open. */
  lemma BookedOutcome(w: Desk, c: nat)
    requires Safe(w) && c < |w.cycles| && w.cycles[c].Closing?
    ensures var Closing(list, next, total, f) := w.cycles[c];
      var taken := !w.db.paused && (f.pnl == 0 || (w.db.pool > 0 && w.db.pool + f.pnl >= 0));
      && Valid(w.db)
      && next < |list| && EverOpen(w, list[next]) && f.id == list[next].id && f.amount == list[next].amountCents > 0
      && (RecordTrade(w.db, f.amount, f.pnl).Ok? <==> taken)
      && (taken ==>
            var db := RecordTrade(w.db, f.amount, f.pnl).value;
            && Valid(db) && db.pool == w.db.pool + f.pnl && db.paused == w.db.paused
            && Next(w, PriceKnown(c)) == Put(Recorded(w, db, c, f), c,
                 if IsOpen(w.positions, f.id) then AfterPosition(list, next, total) else Ended(Gone(f.id))))
      && (!taken ==> Next(w, PriceKnown(c))
                     == Put(w, c, Ended(Threw(RecordTrade(w.db, f.amount, f.pnl).error))))
  {
    var Closing(list, next, total, f) := w.cycles[c];
    ClosingFits(w, c);
    hide Safe, CycleFits, Valid, RecordTrade, IsOpen, EverOpen, WithoutIds, Advance, AfterPosition;
    TradeOutcome(w.db, f.amount, f.pnl);
    if RecordTrade(w.db, f.amount, f.pnl).Ok? {
      TradeEffect(w.db, f.amount, f.pnl);
      var db := RecordTrade(w.db, f.amount, f.pnl).value;
      AdvanceIsPut(Recorded(w, db, c, f), c, list, next, total);
    }
  }

  lemma BooksAfterSale(log: seq<Entry>, c: nat, list: seq<Position>, next: nat, total: int, f: Fill)
    requires OwnBooks(log, c, Closing(list, next, total, f))
    ensures OwnBooks(log + [Traded(c, f, true)], c, AfterPosition(list, next, total))
  {
    hide FillsBy, SalesBy, PnlTotal;
    var e := Traded(c, f, true);
    LogGrows(log, e);
    assert FillsBy(log + [e], c) == FillsBy(log, c);
    assert SalesBy(log + [e], c) == SalesBy(log, c) + [f];
    assert AllClosed(log + [e], c);
  }

  lemma ClosingKeepsSafe(w: Desk, c: nat)
    requires Safe(w) && c < |w.cycles| && w.cycles[c].Closing?
    ensures Safe(Next(w, PriceKnown(c)))
  {
    var Closing(list, next, total, f) := w.cycles[c];
    assert CycleFits(w, w.cycles[c]) && OwnBooks(w.log, c, w.cycles[c]);
    BookedOutcome(w, c);
    hide Next, Valid, RecordTrade, IsOpen, PositionsFit, LogFits, WithoutIds, OwnBooks, EverOpen;
    var r := RecordTrade(w.db, f.amount, f.pnl);
    if r.Err? {
      EndedFits(w, c, Threw(r.error));
      PutKeepsSafe(w, c, Ended(Threw(r.error)));
    } else if IsOpen(w.positions, f.id) {
      BooksAfterSale(w.log, c, list, next, total, f);
      TradeKeepsSafe(w, r.value, c, f, list[next], AfterPosition(list, next, total));
    } else {
      var v := Recorded(w, r.value, c, f);
      EndedFits(v, c, Gone(f.id));
      TradeKeepsSafe(w, r.value, c, f, list[next], Ended(Gone(f.id)));
    }
  }

  lemma PnlSnoc(fills: seq<Fill>, f: Fill)
    ensures PnlTotal(fills + [f]) == PnlTotal(fills) + f.pnl
  {
    assert (fills + [f])[..|fills|] == fills;
  }

  lemma BooksAfterFill(log: seq<Entry>, c: nat, list: seq<Position>, next: nat, total: int, f: Fill)
    requires OwnBooks(log, c, Selling(list, next, total))
    ensures OwnBooks(log + [Filled(c, f)], c, Closing(list, next, total + f.pnl, f))
  {
    hide FillsBy, SalesBy, PnlTotal;
    var e := Filled(c, f);
    LogGrows(log, e);
    PnlSnoc(FillsBy(log, c), f);
    assert SalesBy(log + [e], c) == SalesBy(log, c);
    assert AllClosed(log + [e], c);
  }

  lemma SellingFits(w: Desk, c: nat)
    requires Safe(w) && c < |w.cycles| && w.cycles[c].Selling?
    ensures Valid(w.db) && OwnBooks(w.log, c, w.cycles[c]) && ListFits(w, w.cycles[c].list, w.cycles[c].next)
  {
    assert CycleFits(w, w.cycles[c]);
  }

  lemma SkippedFits(w: Desk, c: nat, list: seq<Position>, next: nat, total: int)
    requires ListFits(w, list, next) && OwnBooks(w.log, c, Selling(list, next, total))
    ensures CycleFits(w, AfterPosition(list, next, total)) && OwnBooks(w.log, c, AfterPosition(list, next, total))
  {
    hide AllClosed, EverOpen;
  }

  lemma InList(w: Desk, cycle: Cycle)
    requires cycle.Selling? && ListFits(w, cycle.list, cycle.next)
    ensures cycle.next < |cycle.list|
  {
  }

  lemma SkipKeepsSafe(w: Desk, c: nat)
    requires Safe(w) && c < |w.cycles| && w.cycles[c].Selling?
    ensures Safe(Next(w, SwapDone(c, None)))
  {
    SellingFits(w, c);
    hide Safe, Valid, OwnBooks, CycleFits, ListFits, Advance;
    assert w.cycles[c].next < |w.cycles[c].list| by { InList(w, w.cycles[c]); }
    var Selling(list, next, total) := w.cycles[c];
    SkippedFits(w, c, list, next, total);
    AdvanceIsPut(w, c, list, next, total);
    PutKeepsSafe(w, c, AfterPosition(list, next, total));
  }

  lemma SkipStep(w: Desk, d: nat)
    requires d < |w.cycles| && w.cycles[d].Selling? && w.cycles[d].next + 1 < |w.cycles[d].list|
    ensures var Selling(list, next, total) := w.cycles[d];
      Next(w, SwapDone(d, None)) == Put(w, d, Selling(list, next + 1, total))
  {
  }

  lemma FillStep(w: Desk, d: nat, units: nat)
    requires d < |w.cycles| && w.cycles[d].Selling? && w.cycles[d].next < |w.cycles[d].list|
    ensures var Selling(list, next, total) := w.cycles[d];
      var f := FillOf(list[next], units);
      Next(w, SwapDone(d, Some(units)))
      == Put(w.(log := w.log + [Filled(d, f)]), d, Closing(list, next, total + f.pnl, f))
  {
    hide FillOf;
  }

  lemma FilledFits(w: Desk, list: seq<Position>, next: nat, total: int, units: nat)
    requires ListFits(w, list, next)
    ensures var f := FillOf(list[next], units); CycleFits(w, Closing(list, next, total + f.pnl, f))
  {
    hide EverOpen;
  }

  lemma FillKeepsSafe(w: Desk, c: nat, units: nat)
    requires Safe(w) && c < |w.cycles| && w.cycles[c].Selling?
    ensures Safe(Next(w, SwapDone(c, Some(units))))
  {
    hide Safe, Valid, Next, OwnBooks, CycleFits, ListFits, FillOf, Put;
    SellingFits(w, c);
    InList(w, w.cycles[c]);
    var Selling(list, next, total) := w.cycles[c];
    var f := FillOf(list[next], units);
    FilledFits(w, list, next, total, units);
    BooksAfterFill(w.log, c, list, next, total, f);
    NoteKeepsSafe(w, Filled(c, f), c, Closing(list, next, total + f.pnl, f));
    FillStep(w, c, units);
  }

  lemma SwapKeepsSafe(w: Desk, c: nat, units: Option<nat>)
    requires Safe(w) && c < |w.cycles|
    ensures Safe(Next(w, SwapDone(c, units)))
  {
    assert OwnBooks(w.log, c, w.cycles[c]);
    match w.cycles[c]
    case Buying(pool, cents) =>
      hide Valid, PositionsFit, LogFits, CyclesFit;
      PutKeepsSafe(w, c, if units.Some? then Bought(pool, cents) else Ended(Unswapped));
    case Selling(_, _, _) => if units.None? { SkipKeepsSafe(w, c); } else { FillKeepsSafe(w, c, units.value); }
    case _ =>
  }

  lemma ThinkingKeepsSafe(w: Desk, c: nat, e: Event)
    requires Safe(w) && IsThinking(w, c)
    requires e == Hold(c) || (e.Buy? && e.c == c) || (e.Sell? && e.c == c)
    ensures Safe(Next(w, e))
  {
    assert OwnBooks(w.log, c, w.cycles[c]);
    match e
    case Hold(_) => PutKeepsSafe(w, c, Ended(Idle));
    case Buy(_, govLimit, size) =>
      hide MayBuy, PositionCents;
      PutKeepsSafe(w, c, Checked(w, w.cycles[c].pool, govLimit, size));
    case Sell(_, list) =>
      if Lists(w.positions, list) {
        PutKeepsSafe(w, c, if list == [] then Ended(Idle) else Selling(list, 0, 0));
      }
    case _ =>
  }

  lemma PauseKeepsValid(s: State, b: bool)
    requires Valid(s)
    ensures Valid(s.(paused := b))
  {
  }

  lemma PauseKeepsSafe(w: Desk, b: bool)
    requires Safe(w)
    ensures Safe(Next(w, SetPaused(b)))
  {
    PauseKeepsValid(w.db, b);
    LedgerKeepsSafe(w, w.db.(paused := b));
  }

  lemma NextIsSafe(w: Desk, e: Event)
    requires Safe(w)
    ensures Safe(Next(w, e))
  {
    hide Safe, AfterSwap, Booked, Step, MoveOf, Checked, Lists;
    match e
    case Start => StartKeepsSafe(w);
    case Hold(c) => if IsThinking(w, c) { ThinkingKeepsSafe(w, c, e); }
    case Buy(c, _, _) => if IsThinking(w, c) { ThinkingKeepsSafe(w, c, e); }
    case Sell(c, _) => if IsThinking(w, c) { ThinkingKeepsSafe(w, c, e); }
    case SwapDone(c, units) => if c < |w.cycles| { SwapKeepsSafe(w, c, units); }
    case PriceKnown(c) =>
      if c < |w.cycles| && w.cycles[c].Bought? {
        OpeningKeepsSafe(w, c);
      } else if c < |w.cycles| && w.cycles[c].Closing? {
        ClosingKeepsSafe(w, c);
      }
    case Book(op) => BookKeepsSafe(w, op);
    case SetPaused(b) => PauseKeepsSafe(w, b);
  }

  /** Whatever overlaps, every reachable desk keeps its books. */
  lemma {:induction false} RunIsSafe(w: Desk, events: seq<Event>)
    requires Safe(w)
    ensures Safe(RunFrom(w, events))
  {
    hide Safe, Next;
    if events == [] {
    } else {
      RunIsSafe(w, events[..|events| - 1]);
      NextIsSafe(RunFrom(w, events[..|events| - 1]), events[|events| - 1]);
    }
  }

  // ---------------------------------------------------------------- One step, as the log tells it

  function CentsOf(e: Entry): int { if e.Traded? then e.f.pnl else if e.Moved? then e.cents else 0 }

  function PoolMoves(entries: seq<Entry>): int { if entries == [] then 0 else CentsOf(entries[0]) }

  /** A transaction moves the pool by its own cents. */
  lemma TransactionMoves(s: State, op: Op)
    requires Valid(s)
    ensures Step(s, op).pool == s.pool + MoveOf(s, op)
  {
    match op
    case OpCreate(t, o, a, d) => CreateOutcome(s, t, o, a, d);
    case OpAddFunds(t, c) => AddFundsOutcome(s, t, c);
    case OpTrade(a, p) => if RecordTrade(s, a, p).Ok? { TradeEffect(s, a, p); }
    case OpWithdraw(t) =>
      WithdrawOutcome(s, t);
      if Withdraw(s, t).Ok? { WithdrawalIsFair(s, t); }
    case OpList(t, p) =>
    case OpSell(t, b, a, p) =>
    case OpPropose(pt, p, tt, t, n, h) =>
    case OpSwap(id, n) =>
  }

  /** A step writes at most one entry, of positive size, and the pool moves by what it says. */
  lemma NextLog(w: Desk, e: Event) returns (news: seq<Entry>)
    requires Safe(w)
    ensures |news| <= 1 && Next(w, e).log == w.log + news
    ensures Next(w, e).db.pool == w.db.pool + PoolMoves(news)
    ensures |Next(w, e).cycles| >= |w.cycles|
    ensures news != [] && news[0].Opening? ==> news[0].p.amountCents > 0
    ensures news != [] && news[0].Traded? ==> news[0].f.amount > 0
  {
    hide Valid, PositionsFit, LogFits, CyclesFit, Checked, Lists, Step, MoveOf, RecordTrade;
    news := [];
    assert w.log + [] == w.log;
    match e
    case Start =>
    case Hold(c) =>
    case Buy(c, _, _) =>
    case Sell(c, _) =>
    case SwapDone(c, units) =>
      if c < |w.cycles| && w.cycles[c].Selling? {
        var Selling(list, next, total) := w.cycles[c];
        if next < |list| && units.None? {
          AdvanceIsPut(w, c, list, next, total);
        } else if next < |list| {
          news := [Filled(c, FillOf(list[next], units.value))];
        }
      }
    case PriceKnown(c) =>
      if c < |w.cycles| && w.cycles[c].Bought? {
        if !w.db.paused && w.cycles[c].cents > 0 {
          news := [Opening(c, Position(w.nextId, PAIR, w.cycles[c].cents))];
        }
      } else if c < |w.cycles| && w.cycles[c].Closing? {
        BookedOutcome(w, c);
        var f := w.cycles[c].fill;
        if RecordTrade(w.db, f.amount, f.pnl).Ok? {
          news := [Traded(c, f, IsOpen(w.positions, f.id))];
        }
      }
    case Book(op) =>
      TransactionMoves(w.db, op);
      news := [Moved(op, MoveOf(w.db, op))];
    case SetPaused(b) =>
  }

  lemma {:induction false} CountersGrow(w: Desk, events: seq<Event>)
    requires Safe(w)
    ensures var v := RunFrom(w, events);
      && OpenedSoFar(v.log) >= OpenedSoFar(w.log) && ClosedSoFar(v.log) >= ClosedSoFar(w.log)
      && (forall id :: Trades(v.log, id) >= Trades(w.log, id))
      && |v.cycles| >= |w.cycles|
  {
    hide Safe, Next, OpenedSoFar, ClosedSoFar, Trades;
    if events == [] {
    } else {
      var u, e := RunFrom(w, events[..|events| - 1]), events[|events| - 1];
      CountersGrow(w, events[..|events| - 1]);
      RunIsSafe(w, events[..|events| - 1]);
      var news := NextLog(u, e);
      if news == [] {
        assert u.log + news == u.log;
      } else {
        assert news == [news[0]];
        LogGrows(u.log, news[0]);
      }
    }
  }

  // ---------------------------------------------------------------- Exposure

  predicate BuyingFor(cycle: Cycle, pool: int, cents: int) {
    cycle == Buying(pool, cents) || cycle == Bought(pool, cents)
  }

  /** The cycle whose step an event is. */
  function Actor(e: Event): Option<nat> {
    match e
    case Hold(c) => Some(c)
    case Buy(c, _, _) => Some(c)
    case Sell(c, _) => Some(c)
    case SwapDone(c, _) => Some(c)
    case PriceKnown(c) => Some(c)
    case _ => None
  }

  lemma SwapInPlace(w: Desk, c: nat, units: Option<nat>, d: nat)
    requires c < |w.cycles| && d < |w.cycles|
    ensures var v := AfterSwap(w, c, units); |v.cycles| == |w.cycles| && (d != c ==> v.cycles[d] == w.cycles[d])
  {
    hide Audit;
  }

  lemma PriceInPlace(w: Desk, c: nat, d: nat)
    requires c < |w.cycles| && d < |w.cycles|
    ensures var v := AfterPrice(w, c); |v.cycles| == |w.cycles| && (d != c ==> v.cycles[d] == w.cycles[d])
  {
    hide Audit, RecordTrade, IsOpen, WithoutIds;
  }

  /** No step touches another cycle, and an ended cycle stays as it is. */
  lemma OthersWait(w: Desk, e: Event, d: nat)
    requires d < |w.cycles| && (Actor(e) != Some(d) || w.cycles[d].Ended?)
    ensures d < |Next(w, e).cycles| && Next(w, e).cycles[d] == w.cycles[d]
  {
    if e.SwapDone? && e.c < |w.cycles| {
      SwapInPlace(w, e.c, e.units, d);
    } else if e.PriceKnown? && e.c < |w.cycles| {
      PriceInPlace(w, e.c, d);
    }
    hide Checked, Lists, Step, MoveOf, Booked, Advance, Begun;
  }

  lemma OwnBuyingStep(w: Desk, e: Event, c: nat, pool: int, cents: int)
    requires c < |w.cycles| && BuyingFor(w.cycles[c], pool, cents) && Actor(e) == Some(c)
    ensures c < |Next(w, e).cycles|
    ensures var cycle := Next(w, e).cycles[c]; BuyingFor(cycle, pool, cents) || cycle.Ended?
  {
    hide Checked, Lists, Step, MoveOf, Booked, Advance, Begun;
  }

  lemma {:induction false} BuyingGoesOn(w: Desk, c: nat, pool: int, cents: int, events: seq<Event>)
    requires c < |w.cycles| && BuyingFor(w.cycles[c], pool, cents)
    ensures c < |RunFrom(w, events).cycles|
    ensures var cycle := RunFrom(w, events).cycles[c]; BuyingFor(cycle, pool, cents) || cycle.Ended?
  {
    hide Next;
    if events == [] {
    } else {
      var u, e := RunFrom(w, events[..|events| - 1]), events[|events| - 1];
      BuyingGoesOn(w, c, pool, cents, events[..|events| - 1]);
      if u.cycles[c].Ended? || Actor(e) != Some(c) {
        OthersWait(u, e, c);
      } else {
        OwnBuyingStep(u, e, c, pool, cents);
      }
    }
  }

  lemma SafeExposure(w: Desk)
    requires Safe(w)
    ensures Exposure(w.positions, PAIR) == OpenedSoFar(w.log) - ClosedSoFar(w.log)
  {
  }

  /** A check that passes leaves the desk alone and some room. */
  lemma CheckedOutcome(w: Desk, c: nat, govLimit: Option<real>, size: Option<real>)
    requires Safe(w) && IsThinking(w, c) && Next(w, Buy(c, govLimit, size)).cycles[c].Buying?
    ensures w.cycles[c].pool > 0
    ensures var v, pool := Next(w, Buy(c, govLimit, size)), w.cycles[c].pool;
      var cents := PositionCents(pool, Asked(size));
      && Safe(v) && v.log == w.log && c < |v.cycles| && v.cycles[c] == Buying(pool, cents)
      && 5 * (Exposure(w.positions, PAIR) + cents) < 3 * pool
  {
    ThinkingKeepsSafe(w, c, Buy(c, govLimit, size));
    hide Safe, MayBuy, PositionCents, Exposure, Asked;
    CheckLeavesRoom(w.cycles[c].pool, Exposure(w.positions, PAIR), govLimit, size);
  }

  lemma StartsBuying(cycle: Cycle, pool: int, cents: int)
    requires cycle == Buying(pool, cents)
    ensures BuyingFor(cycle, pool, cents)
  {
  }

  lemma BoughtFor(cycle: Cycle, pool: int, cents: int)
    requires cycle.Bought? && BuyingFor(cycle, pool, cents)
    ensures cycle == Bought(pool, cents)
  {
  }

  lemma PlacedOutcome(w: Desk, c: nat, pool: int, cents: int)
    requires c < |w.cycles| && w.cycles[c] == Bought(pool, cents)
    requires c < |Next(w, PriceKnown(c)).cycles| && Next(w, PriceKnown(c)).cycles[c].Ended?
    requires Next(w, PriceKnown(c)).cycles[c].ending.Placed?
    ensures Exposure(Next(w, PriceKnown(c)).positions, PAIR) == Exposure(w.positions, PAIR) + cents
  {
    hide Exposure;
    ExposureSnoc(w.positions, Position(w.nextId, PAIR, cents));
  }

  /**
   * The exposure of an opening, whatever ran since its check. It is the exposure checked,
   * plus the position, plus what was opened and less what was closed since; it is below
   * 60% of the pool the cycle read if and only if what was opened since, less what was
   * closed, is below the room that the check left, and there is always some room.
   */
  lemma ExposureAfterOpening(
    w: Desk, c: nat, govLimit: Option<real>, size: Option<real>, events: seq<Event>)
    requires Safe(w) && IsThinking(w, c)
    requires Next(w, Buy(c, govLimit, size)).cycles[c].Buying?
    requires var v := RunFrom(Next(w, Buy(c, govLimit, size)), events);
      c < |v.cycles| && v.cycles[c].Bought? && c < |Next(v, PriceKnown(c)).cycles|
      && Next(v, PriceKnown(c)).cycles[c].Ended? && Next(v, PriceKnown(c)).cycles[c].ending.Placed?
    ensures var v := RunFrom(Next(w, Buy(c, govLimit, size)), events);
      var pool, cents := w.cycles[c].pool, PositionCents(w.cycles[c].pool, Asked(size));
      var after := Exposure(Next(v, PriceKnown(c)).positions, PAIR);
      var added, removed := OpenedSoFar(v.log) - OpenedSoFar(w.log), ClosedSoFar(v.log) - ClosedSoFar(w.log);
      var room := 3 * pool - 5 * (Exposure(w.positions, PAIR) + cents);
      && after == Exposure(w.positions, PAIR) + cents + added - removed
      && added >= 0 && removed >= 0 && room > 0
      && (5 * after < 3 * pool <==> 5 * (added - removed) < room)
      && (added == 0 ==> 5 * after < 3 * pool)
  {
    assert c < |w.cycles| && w.cycles[c].Thinking?;
    hide Safe, Next, PositionCents, MayBuy, Exposure, OpenedSoFar, ClosedSoFar, RunFrom, BuyingFor, Asked;
    var checked := Next(w, Buy(c, govLimit, size));
    var pool := w.cycles[c].pool;
    var cents := PositionCents(pool, Asked(size));
    CheckedOutcome(w, c, govLimit, size);
    StartsBuying(checked.cycles[c], pool, cents);
    BuyingGoesOn(checked, c, pool, cents, events);
    BoughtFor(RunFrom(checked, events).cycles[c], pool, cents);
    RunIsSafe(checked, events);
    CountersGrow(checked, events);
    SafeExposure(w);
    SafeExposure(RunFrom(checked, events));
    PlacedOutcome(RunFrom(checked, events), c, pool, cents);
  }

  // ---------------------------------------------------------------- Each step, spelled out

  /** A cycle begins exactly when the fund runs, holds money and has an active account. */
  lemma StartOutcome(w: Desk)
    ensures var v := Next(w, Start);
      && v == w.(cycles := v.cycles) && |v.cycles| == |w.cycles| + 1 && v.cycles[..|w.cycles|] == w.cycles
      && (!w.db.paused && w.db.pool != 0 && w.db.activeCount != 0 ==> v.cycles[|w.cycles|] == Thinking(w.db.pool))
      && (w.db.paused || w.db.pool == 0 || w.db.activeCount == 0 ==> v.cycles[|w.cycles|] == Ended(Idle))
  {
  }

  /** A hold ends the cycle; a sale starts with the first position, or ends when there is none. */
  lemma HoldOrSellOutcome(w: Desk, c: nat, list: seq<Position>)
    requires IsThinking(w, c)
    ensures Next(w, Hold(c)) == w.(cycles := w.cycles[c := Ended(Idle)])
    ensures Lists(w.positions, list) ==>
      Next(w, Sell(c, list)) == w.(cycles := w.cycles[c := if list != [] then Selling(list, 0, 0) else Ended(Idle)])
  {
  }

  lemma BuyStep(w: Desk, c: nat, govLimit: Option<real>, size: Option<real>)
    requires IsThinking(w, c)
    ensures Next(w, Buy(c, govLimit, size)) == Put(w, c, Checked(w, w.cycles[c].pool, govLimit, size))
  {
    hide Checked;
  }

  /** It goes on to swap for a position exactly when there is room below the limits and a cent to spend. */
  lemma BuyOutcome(w: Desk, c: nat, govLimit: Option<real>, size: Option<real>)
    requires IsThinking(w, c) && w.cycles[c].pool > 0
    ensures var v, pool := Next(w, Buy(c, govLimit, size)), w.cycles[c].pool as real;
      var exposure := 100.0 * Exposure(w.positions, PAIR) as real;
      && v == w.(cycles := v.cycles) && c < |v.cycles| && (v.cycles[c].Buying? || v.cycles[c] == Ended(Idle))
      && (v.cycles[c].Buying? <==>
            && pool * Percent(size) >= 100.0 && exposure < 30.0 * pool
            && (govLimit.Some? ==> exposure < govLimit.value * pool))
      && (v.cycles[c].Buying? ==>
            && v.cycles[c].pool == w.cycles[c].pool
            && 100.0 * v.cycles[c].cents as real <= pool * Percent(size) < 100.0 * (v.cycles[c].cents + 1) as real)
  {
    hide Next, MayBuy, PositionCents, Percent, Exposure, Asked;
    BuyStep(w, c, govLimit, size);
    MayBuyMeans(w.cycles[c].pool, Exposure(w.positions, PAIR), govLimit, size);
    PositionIsPercent(w.cycles[c].pool, size);
  }

  /** A swap into SOL that goes through leads to the opening, once the price is known and unless the fund is paused. */
  lemma OpeningOutcome(w: Desk, c: nat, pool: int, cents: int, units: Option<nat>)
    requires c < |w.cycles| && cents > 0
    ensures w.cycles[c] == Buying(pool, cents) ==>
      Next(w, SwapDone(c, units)) == Put(w, c, if units.Some? then Bought(pool, cents) else Ended(Unswapped))
    ensures w.cycles[c] == Bought(pool, cents) && w.db.paused ==>
      Next(w, PriceKnown(c)) == Put(w, c, Ended(Threw(FundPaused)))
    ensures w.cycles[c] == Bought(pool, cents) && !w.db.paused ==>
      var v := Next(w, PriceKnown(c));
      && v.positions == w.positions + [Position(w.nextId, PAIR, cents)] && v.nextId == w.nextId + 1
      && c < |v.cycles| && v.cycles[c] == Ended(Placed(w.nextId, cents)) && v.db == w.db
  {
    hide Exposure;
  }

  /** What one swap out of SOL does to a sale: the receipt is pending, or the next position's turn comes. */
  lemma SellOutcomeOfSwap(w: Desk, c: nat, units: Option<nat>)
    requires Safe(w) && c < |w.cycles| && w.cycles[c].Selling?
    ensures w.cycles[c].next < |w.cycles[c].list|
    ensures var Selling(list, next, total) := w.cycles[c];
      var v := Next(w, SwapDone(c, units));
      && c < |v.cycles| && v.db == w.db && v.positions == w.positions
      && (units.Some? ==>
            && v.cycles[c].Closing? && v.cycles[c].list == list && v.cycles[c].next == next
            && v.cycles[c].total == total + v.cycles[c].fill.pnl
            && v.cycles[c].fill.id == list[next].id && v.cycles[c].fill.amount == list[next].amountCents
            && Received(units.value, list[next].amountCents + v.cycles[c].fill.pnl))
      && (units.None? && next + 1 < |list| ==> v.cycles[c] == Selling(list, next + 1, total))
      && (units.None? && next + 1 == |list| ==> v.cycles[c] == Ended(Sold(total)))
  {
    SellingFits(w, c);
    hide Safe, Valid, OwnBooks, CycleFits, EverOpen, FillOf, Received;
    var Selling(list, next, total) := w.cycles[c];
    if units.Some? {
      FillStep(w, c, units.value);
      FillIsReceipt(list[next], units.value);
    } else {
      AdvanceIsPut(w, c, list, next, total);
      assert Next(w, SwapDone(c, None)) == Put(w, c, AfterPosition(list, next, total));
    }
  }

  lemma {:induction false} ClosingWaits(w: Desk, c: nat, events: seq<Event>)
    requires c < |w.cycles| && forall i :: 0 <= i < |events| ==> Actor(events[i]) != Some(c)
    ensures c < |RunFrom(w, events).cycles| && RunFrom(w, events).cycles[c] == w.cycles[c]
  {
    hide Next;
    if events == [] {
    } else {
      ClosingWaits(w, c, events[..|events| - 1]);
      OthersWait(RunFrom(w, events[..|events| - 1]), events[|events| - 1], c);
    }
  }

  lemma TradeIsRecorded(s: State, f: Fill)
    requires Valid(s) && RecordTrade(s, f.amount, f.pnl).Ok?
    ensures RecordTrade(s, f.amount, f.pnl).value.trades == s.trades + [Trade(f.amount, f.pnl)]
  {
    TradeEffect(s, f.amount, f.pnl);
  }

  lemma NotOpen(ps: seq<Position>, id: int)
    ensures !IsOpen(ps, id) ==> forall p :: p in ps ==> p.id != id
  {
  }

  /** A fill that is recorded is one trade, of its amount and P&L, and one entry; else the ledger is left alone. */
  lemma RecordingOutcome(w: Desk, c: nat)
    requires Safe(w) && c < |w.cycles| && w.cycles[c].Closing?
    ensures var f, v := w.cycles[c].fill, Next(w, PriceKnown(c));
      && c < |v.cycles|
      && (RecordTrade(w.db, f.amount, f.pnl).Ok? ==>
            && |v.log| == |w.log| + 1 && v.db.pool == w.db.pool + f.pnl
            && v.db.trades == w.db.trades + [Trade(f.amount, f.pnl)])
      && (RecordTrade(w.db, f.amount, f.pnl).Err? ==> v.log == w.log && v.db == w.db && v.cycles[c].Ended?)
  {
    BookedOutcome(w, c);
    hide Safe, Next, RecordTrade, EverOpen, WithoutIds, IsOpen, Valid;
    var f := w.cycles[c].fill;
    if RecordTrade(w.db, f.amount, f.pnl).Ok? {
      TradeIsRecorded(w.db, f);
    }
  }

  /** Then its position is gone, and the cycle goes on to the next one, returns, or throws if it was gone before. */
  lemma ClosingOutcome(w: Desk, c: nat)
    requires Safe(w) && c < |w.cycles| && w.cycles[c].Closing?
    requires RecordTrade(w.db, w.cycles[c].fill.amount, w.cycles[c].fill.pnl).Ok?
    ensures var Closing(list, next, total, f) := w.cycles[c];
      var v := Next(w, PriceKnown(c));
      && c < |v.cycles|
      && (forall p :: p in v.positions <==> p in w.positions && p.id != f.id)
      && (!IsOpen(w.positions, f.id) ==> v.cycles[c] == Ended(Gone(f.id)))
      && (IsOpen(w.positions, f.id) && next + 1 < |list| ==> v.cycles[c] == Selling(list, next + 1, total))
      && (IsOpen(w.positions, f.id) && next + 1 == |list| ==> v.cycles[c] == Ended(Sold(total)))
  {
    BookedOutcome(w, c);
    WithoutMembers(w.positions, {w.cycles[c].fill.id});
    NotOpen(w.positions, w.cycles[c].fill.id);
    hide Safe, Next, RecordTrade, EverOpen, WithoutIds, IsOpen, Valid, Later, DistinctIds;
  }

  /**
   * The trade that a cycle records is the receipt of its swap, whatever ran in between: what
   * the position cost, and as P&L the whole cents received less that cost. The pool moves by
   * that P&L.
   */
  lemma SaleRecordsReceipt(w: Desk, c: nat, units: nat, events: seq<Event>)
    requires Safe(w) && c < |w.cycles| && w.cycles[c].Selling?
    requires forall i :: 0 <= i < |events| ==> Actor(events[i]) != Some(c)
    ensures var p := w.cycles[c].list[w.cycles[c].next];
      var v := RunFrom(Next(w, SwapDone(c, Some(units))), events);
      var after := Next(v, PriceKnown(c));
      && c < |v.cycles| && v.cycles[c].Closing?
      && (after.log != v.log ==>
            && |after.db.trades| == |v.db.trades| + 1 && after.db.trades[..|v.db.trades|] == v.db.trades
            && var t := after.db.trades[|v.db.trades|];
               && t.amount == p.amountCents && Received(units, p.amountCents + t.profitLoss)
               && after.db.pool == v.db.pool + t.profitLoss)
      && (after.log == v.log ==> after.db == v.db && c < |after.cycles| && after.cycles[c].Ended?)
  {
    hide Safe, Next, RunFrom, Received, RecordTrade;
    SellOutcomeOfSwap(w, c, Some(units));
    var u := Next(w, SwapDone(c, Some(units)));
    NextIsSafe(w, SwapDone(c, Some(units)));
    ClosingWaits(u, c, events);
    RunIsSafe(u, events);
    RecordingOutcome(RunFrom(u, events), c);
  }

  // ---------------------------------------------------------------- The pool

  /** The pool moves by what the cycle traded and what everybody else moved. */
  lemma {:induction false} PoolFollowsLog(w: Desk, c: nat, events: seq<Event>)
    requires Safe(w)
    ensures var v := RunFrom(w, events);
      v.db.pool == w.db.pool + PnlTotal(SalesBy(v.log, c)) - PnlTotal(SalesBy(w.log, c))
                   + OthersMoved(v.log, c) - OthersMoved(w.log, c)
  {
    hide Safe, Next, SalesBy, OthersMoved, PnlTotal;
    if events == [] {
    } else {
      var u, e := RunFrom(w, events[..|events| - 1]), events[|events| - 1];
      PoolFollowsLog(w, c, events[..|events| - 1]);
      RunIsSafe(w, events[..|events| - 1]);
      var news := NextLog(u, e);
      if news == [] {
        assert u.log + news == u.log;
      } else {
        assert news == [news[0]];
        LogGrows(u.log, news[0]);
        if news[0].Traded? && news[0].c == c {
          PnlSnoc(SalesBy(u.log, c), news[0].f);
        } else {
          assert SalesBy(u.log + news, c) == SalesBy(u.log, c);
        }
      }
    }
  }

  lemma {:induction false} SaleIsTraded(log: seq<Entry>, c: nat, f: Fill)
    requires f in SalesBy(log, c)
    ensures Trades(log, f.id) > 0
  {
    if log == [] {
    } else {
      var front, e := log[..|log| - 1], log[|log| - 1];
      if f in SalesBy(front, c) {
        SaleIsTraded(front, c, f);
      }
    }
  }

  /**
   * A sale that returns, whatever overlapped it. It recorded exactly the swaps that went
   * through, in order; each of its trades closed its position, which is gone; the total it
   * reports is theirs; and the pool is what it was, plus that total, plus the moves of
   * everybody else.
   */
  lemma SaleReturns(w: Desk, c: nat, events: seq<Event>)
    requires Safe(w) && IsThinking(w, c)
    requires var v := RunFrom(w, events); c < |v.cycles| && v.cycles[c].Ended? && v.cycles[c].ending.Sold?
    ensures var v := RunFrom(w, events);
      var total, sales := v.cycles[c].ending.total, SalesBy(v.log, c);
      && sales == FillsBy(v.log, c) && total == PnlTotal(sales) && AllClosed(v.log, c)
      && (forall f :: f in sales ==> !IsOpen(v.positions, f.id))
      && v.db.pool == w.db.pool + total + OthersMoved(v.log, c) - OthersMoved(w.log, c)
  {
    var v := RunFrom(w, events);
    RunIsSafe(w, events);
    PoolFollowsLog(w, c, events);
    assert OwnBooks(v.log, c, v.cycles[c]) && OwnBooks(w.log, c, w.cycles[c]);
    hide Valid, CyclesFit, LogFits, RunFrom, FillsBy, OthersMoved, Trades;
    forall f | f in SalesBy(v.log, c)
      ensures !IsOpen(v.positions, f.id)
    {
      SaleIsTraded(v.log, c, f);
      assert forall i :: 0 <= i < |v.positions| ==> v.positions[i] in v.positions;
    }
  }

  // ---------------------------------------------------------------- One position, one trade

  predicate IsFree(s: State, t: int) { 1 <= t <= s.limit && t <= 500 && t !in s.accounts }

  /** Some account can take money in: one is active, or a token is free. */
  ghost predicate CanGrow(s: State) {
    exists t: int :: IsActive(s, t) || IsFree(s, t)
  }

  /** Listed from place `from` on. */
  predicate ListedFrom(list: seq<Position>, from: nat, id: int) {
    exists i :: from <= i < |list| && list[i].id == id
  }

  /** Can the ledger ever take the trade? */
  ghost predicate Bookable(s: State, f: Fill) { f.pnl == 0 || CanGrow(s) }

  /**
   * A sale of the position is in flight: a cycle still has it to sell and is not bound to
   * throw before it gets there, at a fill whose position is gone or whose trade no ledger
   * without accounts will ever take.
   */
  ghost predicate InFlight(w: Desk, cycle: Cycle, id: int) {
    match cycle
    case Selling(list, next, _) => ListedFrom(list, next, id)
    case Closing(list, next, _, f) =>
      Bookable(w.db, f) && (f.id == id || (IsOpen(w.positions, f.id) && ListedFrom(list, next + 1, id)))
    case _ => false
  }

  lemma {:induction false} NobodyHoldsNothing(m: map<int, Account>, n: int)
    requires forall t :: t in m ==> !m[t].active
    ensures SumBy(m, n, ActiveBalance) == 0
    decreases if n < 0 then 0 else n
  {
    if n <= 0 {
    } else {
      NobodyHoldsNothing(m, n - 1);
    }
  }

  lemma NobodyMeansEmptyPool(s: State)
    requires Valid(s) && !CanGrow(s)
    ensures s.pool == 0 && forall t :: !IsActive(s, t)
  {
    assert forall t :: IsActive(s, t) ==> CanGrow(s);
    assert forall t :: t in s.accounts && s.accounts[t].active ==> IsActive(s, t);
    NobodyHoldsNothing(s.accounts, s.limit);
  }

  /** A fund that can take no money in never can again. */
  lemma GrowthStaysAway(s: State, op: Op)
    requires Valid(s) && !CanGrow(s)
    ensures !CanGrow(Step(s, op))
  {
    NobodyMeansEmptyPool(s);
    assert forall t :: IsFree(s, t) ==> CanGrow(s);
    var after := Step(s, op);
    match op {
      case OpCreate(t, o, a, d) => CreateOutcome(s, t, o, a, d); assert !IsFree(s, t);
      case OpAddFunds(t, c) => AddFundsOutcome(s, t, c);
      case OpTrade(a, p) => TradeOutcome(s, a, p);
      case OpWithdraw(t) => WithdrawOutcome(s, t);
      case OpList(t, p) =>
      case OpSell(t, b, a, p) => SellOutcome(s, t, b, a, p);
      case OpPropose(pt, p, tt, t, n, h) =>
      case OpSwap(id, n) => SwapOutcome(s, id, n);
    }
    assert after.accounts == s.accounts && after.limit == s.limit;
    assert forall t :: (IsActive(after, t) <==> IsActive(s, t)) && (IsFree(after, t) <==> IsFree(s, t));
  }

  /** A trade neither opens nor closes an account. */
  lemma TradeKeepsGrowth(s: State, amount: int, pnl: int)
    requires Valid(s) && RecordTrade(s, amount, pnl).Ok?
    ensures CanGrow(RecordTrade(s, amount, pnl).value) <==> CanGrow(s)
  {
    var after := RecordTrade(s, amount, pnl).value;
    SpreadBalances(s, pnl);
    assert forall t :: (IsActive(after, t) <==> IsActive(s, t)) && (IsFree(after, t) <==> IsFree(s, t));
  }

  /** The position became its trades, and no sale of it is in flight. */
  ghost predicate Settled(w: Desk, id: int) {
    id < w.nextId && !IsOpen(w.positions, id)
    && forall d :: 0 <= d < |w.cycles| ==> !InFlight(w, w.cycles[d], id)
  }

  /** What can only go away: open positions, sales in flight, and the room for them. */
  ghost predicate NothingReturns(w: Desk, v: Desk) {
    && w.nextId <= v.nextId
    && (forall id :: id < w.nextId && IsOpen(v.positions, id) ==> IsOpen(w.positions, id))
    && (CanGrow(v.db) ==> CanGrow(w.db))
  }

  lemma NotInFlightLater(w: Desk, v: Desk, cycle: Cycle, id: int)
    requires NothingReturns(w, v) && CycleFits(w, cycle) && !InFlight(w, cycle, id)
    ensures !InFlight(v, cycle, id)
  {
    hide CanGrow, IsOpen, ListedFrom;
  }

  lemma OpenAfterOpening(ps: seq<Position>, p: Position)
    ensures forall id :: IsOpen(ps + [p], id) <==> IsOpen(ps, id) || id == p.id
  {
    forall id
      ensures IsOpen(ps + [p], id) <==> IsOpen(ps, id) || id == p.id
    {
      var qs := ps + [p];
      if IsOpen(ps, id) {
        var i :| 0 <= i < |ps| && ps[i].id == id;
        assert qs[i].id == id;
      }
      assert qs[|ps|] == p;
    }
  }

  lemma OpenAfterClosing(ps: seq<Position>, closed: int)
    ensures forall id :: IsOpen(WithoutIds(ps, {closed}), id) <==> IsOpen(ps, id) && id != closed
  {
    var rest := WithoutIds(ps, {closed});
    WithoutMembers(ps, {closed});
    forall id
      ensures IsOpen(rest, id) <==> IsOpen(ps, id) && id != closed
    {
      if IsOpen(rest, id) {
        var i :| 0 <= i < |rest| && rest[i].id == id;
        assert rest[i] in rest;
      }
      if IsOpen(ps, id) && id != closed {
        var i :| 0 <= i < |ps| && ps[i].id == id;
        assert ps[i] in ps && ps[i] in rest;
      }
    }
  }

  lemma PauseKeepsGrowth(s: State, b: bool)
    ensures CanGrow(s.(paused := b)) <==> CanGrow(s)
  {
    var after := s.(paused := b);
    assert forall t :: (IsActive(after, t) <==> IsActive(s, t)) && (IsFree(after, t) <==> IsFree(s, t));
  }

  lemma SwapReturnsNothing(w: Desk, c: nat, units: Option<nat>)
    requires Safe(w) && c < |w.cycles|
    ensures NothingReturns(w, AfterSwap(w, c, units))
    ensures AfterSwap(w, c, units).db == w.db && AfterSwap(w, c, units).positions == w.positions
  {
    hide PositionsFit, LogFits, CyclesFit, Valid, CanGrow, IsOpen;
    if w.cycles[c].Selling? && units.None? && w.cycles[c].next < |w.cycles[c].list| {
      AdvanceIsPut(w, c, w.cycles[c].list, w.cycles[c].next, w.cycles[c].total);
    }
  }

  lemma PriceReturnsNothing(w: Desk, c: nat)
    requires Safe(w) && c < |w.cycles|
    ensures NothingReturns(w, Next(w, PriceKnown(c)))
  {
    if w.cycles[c].Bought? {
      hide PositionsFit, LogFits, CyclesFit, Valid, CanGrow, IsOpen;
      OpenAfterOpening(w.positions, Position(w.nextId, PAIR, w.cycles[c].cents));
    } else if w.cycles[c].Closing? {
      BookedOutcome(w, c);
      var f := w.cycles[c].fill;
      OpenAfterClosing(w.positions, f.id);
      hide Next, PositionsFit, LogFits, CyclesFit, Valid, CanGrow, IsOpen, RecordTrade;
      if RecordTrade(w.db, f.amount, f.pnl).Ok? {
        TradeKeepsGrowth(w.db, f.amount, f.pnl);
      }
    }
  }

  lemma NextReturnsNothing(w: Desk, e: Event)
    requires Safe(w)
    ensures NothingReturns(w, Next(w, e))
  {
    match e {
      case SwapDone(c, units) => if c < |w.cycles| { SwapReturnsNothing(w, c, units); }
      case PriceKnown(c) => if c < |w.cycles| { PriceReturnsNothing(w, c); }
      case Book(op) =>
        hide CanGrow, Step, MoveOf, Valid;
        if !CanGrow(w.db) { GrowthStaysAway(w.db, op); }
      case SetPaused(b) => PauseKeepsGrowth(w.db, b);
      case Start =>
      case Hold(c) =>
      case Buy(c, _, _) =>
      case Sell(c, _) =>
    }
  }

  lemma ListShrinks(list: seq<Position>, next: nat, id: int)
    requires next < |list|
    ensures ListedFrom(list, next, id) <==> list[next].id == id || ListedFrom(list, next + 1, id)
  {
    if ListedFrom(list, next, id) {
      var i :| next <= i < |list| && list[i].id == id;
      assert i == next || next + 1 <= i;
    }
  }

  lemma SwapStartsNoSale(w: Desk, c: nat, units: Option<nat>, id: int)
    requires Safe(w) && c < |w.cycles| && !InFlight(w, w.cycles[c], id)
    ensures var v := Next(w, SwapDone(c, units));
      c < |v.cycles| && !InFlight(v, v.cycles[c], id) && Trades(v.log, id) == Trades(w.log, id)
  {
    hide PositionsFit, LogFits, CyclesFit, Valid, CanGrow, IsOpen, Trades, ListedFrom;
    if w.cycles[c].Selling? && w.cycles[c].next < |w.cycles[c].list| {
      var Selling(list, next, total) := w.cycles[c];
      ListShrinks(list, next, id);
      if units.None? {
        AdvanceIsPut(w, c, list, next, total);
        assert Next(w, SwapDone(c, units)) == Put(w, c, AfterPosition(list, next, total));
      } else {
        LogGrows(w.log, Filled(c, FillOf(list[next], units.value)));
      }
    }
  }

  /** A fill that the ledger will never take, or whose position is gone, ends its cycle. */
  lemma DoomedFill(w: Desk, c: nat)
    requires Safe(w) && c < |w.cycles| && w.cycles[c].Closing? && !Bookable(w.db, w.cycles[c].fill)
    ensures RecordTrade(w.db, w.cycles[c].fill.amount, w.cycles[c].fill.pnl).Err?
  {
    BookedOutcome(w, c);
    hide Next, Valid, CanGrow, RecordTrade, IsOpen;
    NobodyMeansEmptyPool(w.db);
  }

  lemma BookedStartsNoSale(w: Desk, c: nat, id: int)
    requires Safe(w) && c < |w.cycles| && w.cycles[c].Closing? && !InFlight(w, w.cycles[c], id)
    requires !IsOpen(w.positions, id) && Bookable(w.db, w.cycles[c].fill)
    requires RecordTrade(w.db, w.cycles[c].fill.amount, w.cycles[c].fill.pnl).Ok?
    ensures var v := Next(w, PriceKnown(c));
      c < |v.cycles| && !InFlight(v, v.cycles[c], id) && Trades(v.log, id) == Trades(w.log, id)
  {
    BookedOutcome(w, c);
    hide Next, Safe, CanGrow, IsOpen, RecordTrade, Trades, ListedFrom, WithoutIds, EverOpen;
    var f := w.cycles[c].fill;
    LogGrows(w.log, Traded(c, f, IsOpen(w.positions, f.id)));
  }

  lemma RefusedStartsNoSale(w: Desk, c: nat, id: int)
    requires c < |w.cycles| && w.cycles[c].Closing?
    requires RecordTrade(w.db, w.cycles[c].fill.amount, w.cycles[c].fill.pnl).Err?
    ensures var v := Next(w, PriceKnown(c)); c < |v.cycles| && !InFlight(v, v.cycles[c], id) && v.log == w.log
  {
    hide RecordTrade;
  }

  lemma ClosingStartsNoSale(w: Desk, c: nat, id: int)
    requires Safe(w) && c < |w.cycles| && w.cycles[c].Closing? && !InFlight(w, w.cycles[c], id)
    requires !IsOpen(w.positions, id)
    ensures var v := Next(w, PriceKnown(c));
      c < |v.cycles| && !InFlight(v, v.cycles[c], id) && Trades(v.log, id) == Trades(w.log, id)
  {
    hide Safe, CanGrow, IsOpen, RecordTrade, Trades, ListedFrom, InFlight;
    var f := w.cycles[c].fill;
    if !Bookable(w.db, f) {
      DoomedFill(w, c);
    }
    if RecordTrade(w.db, f.amount, f.pnl).Ok? {
      BookedStartsNoSale(w, c, id);
    } else {
      RefusedStartsNoSale(w, c, id);
    }
  }

  lemma PriceStartsNoSale(w: Desk, c: nat, id: int)
    requires Safe(w) && c < |w.cycles| && !InFlight(w, w.cycles[c], id) && !IsOpen(w.positions, id)
    ensures var v := Next(w, PriceKnown(c));
      c < |v.cycles| && !InFlight(v, v.cycles[c], id) && Trades(v.log, id) == Trades(w.log, id)
  {
    if w.cycles[c].Closing? {
      ClosingStartsNoSale(w, c, id);
    } else {
      hide Safe, CanGrow, IsOpen, Trades, ListedFrom;
      if w.cycles[c].Bought? {
        LogGrows(w.log, Opening(c, Position(w.nextId, PAIR, w.cycles[c].cents)));
      }
    }
  }

  lemma ThinkingStartsNoSale(w: Desk, e: Event, c: nat, id: int)
    requires Settled(w, id) && IsThinking(w, c)
    requires e == Hold(c) || (e.Buy? && e.c == c) || (e.Sell? && e.c == c)
    ensures var v := Next(w, e); !InFlight(v, v.cycles[c], id) && v.log == w.log
  {
    if e.Sell? && Lists(w.positions, e.list) {
      forall i | 0 <= i < |e.list|
        ensures e.list[i].id != id
      {
        assert e.list[i] in w.positions;
      }
    }
    hide Checked, IsOpen, CanGrow;
  }

  /** The step of a cycle, seen from a settled position. */
  lemma ActorStartsNoSale(w: Desk, e: Event, c: nat, id: int)
    requires Safe(w) && Settled(w, id) && Actor(e) == Some(c) && c < |w.cycles|
    ensures var v := Next(w, e);
      c < |v.cycles| && !InFlight(v, v.cycles[c], id) && Trades(v.log, id) == Trades(w.log, id)
  {
    hide Safe, InFlight, AfterSwap, AfterPrice, Checked, Lists, Trades, IsOpen;
    assert !InFlight(w, w.cycles[c], id);
    match e
    case SwapDone(_, units) => SwapInPlace(w, c, units, c); SwapStartsNoSale(w, c, units, id);
    case PriceKnown(_) => PriceInPlace(w, c, c); PriceStartsNoSale(w, c, id);
    case _ => if IsThinking(w, c) { ThinkingStartsNoSale(w, e, c, id); }
  }

  /** Every other event leaves its trades alone. */
  lemma NobodyTrades(w: Desk, e: Event, id: int)
    requires Actor(e).None? || Actor(e).value >= |w.cycles|
    ensures Trades(Next(w, e).log, id) == Trades(w.log, id)
    ensures forall d :: |w.cycles| <= d < |Next(w, e).cycles| ==> !InFlight(Next(w, e), Next(w, e).cycles[d], id)
  {
    hide Trades, Step, MoveOf, CanGrow, IsOpen;
    if e.Book? {
      LogGrows(w.log, Moved(e.op, MoveOf(w.db, e.op)));
    }
  }

  /** A settled position stays settled and becomes no further trade, whatever happens. */
  lemma SettledStays(w: Desk, e: Event, id: int)
    requires Safe(w) && Settled(w, id)
    ensures Settled(Next(w, e), id) && Trades(Next(w, e).log, id) == Trades(w.log, id)
  {
    var v := Next(w, e);
    NextReturnsNothing(w, e);
    var acts := Actor(e).Some? && Actor(e).value < |w.cycles|;
    if acts {
      var c := Actor(e).value;
      ActorStartsNoSale(w, e, c, id);
      assert |v.cycles| == |w.cycles| by {
        if e.SwapDone? { SwapInPlace(w, c, e.units, c); } else if e.PriceKnown? { PriceInPlace(w, c, c); }
      }
    } else {
      NobodyTrades(w, e, id);
    }
    hide Next, InFlight, IsOpen, CanGrow, Trades, Valid, PositionsFit, LogFits, OwnBooks;
    forall d | 0 <= d < |v.cycles|
      ensures !InFlight(v, v.cycles[d], id)
    {
      if d < |w.cycles| && Actor(e) != Some(d) {
        OthersWait(w, e, d);
        NotInFlightLater(w, v, w.cycles[d], id);
      }
    }
  }

  lemma {:induction false} SettledForever(w: Desk, events: seq<Event>, id: int)
    requires Safe(w) && Settled(w, id)
    ensures Settled(RunFrom(w, events), id) && Trades(RunFrom(w, events).log, id) == Trades(w.log, id)
  {
    hide Safe, Settled, Next, Trades;
    if events == [] {
    } else {
      SettledForever(w, events[..|events| - 1], id);
      RunIsSafe(w, events[..|events| - 1]);
      SettledStays(RunFrom(w, events[..|events| - 1]), events[|events| - 1], id);
    }
  }

  // ---------------------------------------------------------------- A second trade

  lemma {:induction false} RunAppend(w: Desk, a: seq<Event>, b: seq<Event>)
    ensures RunFrom(w, a + b) == RunFrom(RunFrom(w, a), b)
  {
    hide Next;
    if b == [] {
      assert a + b == a;
    } else {
      assert (a + b)[..|a + b| - 1] == a + b[..|b| - 1];
      RunAppend(w, a, b[..|b| - 1]);
    }
  }

  lemma RunOne(w: Desk, e: Event)
    ensures RunFrom(w, [e]) == Next(w, e)
  {
    hide Next;
    assert [e][..0] == [];
    assert RunFrom(w, []) == w;
  }

  /** A transaction that brings enough money for the trade. */
  lemma RoomFor(s: State, pnl: int) returns (op: Op)
    requires Valid(s) && !s.paused && CanGrow(s)
    ensures var t := Step(s, op); !t.paused && t.pool > 0 && t.pool + pnl >= 0
  {
    var t :| IsActive(s, t) || IsFree(s, t);
    var cents := 1 + if pnl < 0 then -pnl else pnl;
    if IsActive(s, t) {
      AddFundsOutcome(s, t, cents);
      op := OpAddFunds(t, cents);
    } else {
      CreateOutcome(s, t, "", "", cents);
      op := OpCreate(t, "", "", cents);
    }
  }

  /** Governance and a depositor can make the ledger take a bookable trade. */
  lemma MakeRoom(w: Desk, f: Fill) returns (events: seq<Event>)
    requires Safe(w) && Bookable(w.db, f)
    ensures var v := RunFrom(w, events);
      && v.cycles == w.cycles && v.positions == w.positions && (forall id :: Trades(v.log, id) == Trades(w.log, id))
      && !v.db.paused && (f.pnl == 0 || (v.db.pool > 0 && v.db.pool + f.pnl >= 0))
  {
    var u := Next(w, SetPaused(false));
    RunOne(w, SetPaused(false));
    events := [SetPaused(false)];
    if f.pnl != 0 {
      PauseKeepsGrowth(w.db, false);
      PauseKeepsSafe(w, false);
      var op := RoomFor(u.db, f.pnl);
      RunAppend(w, events, [Book(op)]);
      RunOne(u, Book(op));
      LogGrows(u.log, Moved(op, MoveOf(u.db, op)));
      events := events + [Book(op)];
    }
  }

  /** What is left to do before cycle `d` can have sold everything on its list. */
  function StepsLeft(cycle: Cycle): nat {
    match cycle
    case Selling(list, next, _) => if next < |list| then 2 * (|list| - next) + 1 else 0
    case Closing(list, next, _, _) => if next < |list| then 2 * (|list| - next) else 0
    case _ => 0
  }

  /** What one cycle in flight can do next: record a trade of the position, or come closer to it. */
  ghost predicate Closer(w: Desk, d: nat, id: int, v: Desk)
    requires d < |w.cycles|
  {
    && Safe(v) && |v.cycles| >= |w.cycles| && Trades(v.log, id) >= Trades(w.log, id)
    && (Trades(v.log, id) > Trades(w.log, id)
        || (InFlight(v, v.cycles[d], id) && StepsLeft(v.cycles[d]) < StepsLeft(w.cycles[d])))
  }

  lemma ListEnds(list: seq<Position>, from: nat, id: int)
    requires ListedFrom(list, from, id)
    ensures from < |list|
  {
  }

  /** The swap of another position may fail. */
  lemma SkipComesCloser(w: Desk, d: nat, id: int)
    requires Safe(w) && d < |w.cycles| && w.cycles[d].Selling?
    requires var Selling(list, next, _) := w.cycles[d]; next < |list| && ListedFrom(list, next + 1, id)
    ensures Closer(w, d, id, Next(w, SwapDone(d, None)))
  {
    hide Safe, Next, Trades, ListedFrom;
    ListEnds(w.cycles[d].list, w.cycles[d].next + 1, id);
    NextIsSafe(w, SwapDone(d, None));
    SkipStep(w, d);
  }

  lemma FlatFill(p: Position, units: nat)
    requires units == p.amountCents * CENTS_TO_USDC_UNITS
    ensures FillOf(p, units) == Fill(p.id, p.amountCents, 0)
  {
  }

  lemma FlatFillIsCloser(w: Desk, d: nat, id: int, v: Desk, total: int, f: Fill)
    requires d < |w.cycles| && w.cycles[d].Selling? && w.cycles[d].next < |w.cycles[d].list|
    requires f.id == id && f.pnl == 0 && Safe(v) && Trades(v.log, id) >= Trades(w.log, id)
    requires v.cycles == w.cycles[d := Closing(w.cycles[d].list, w.cycles[d].next, total, f)]
    ensures Closer(w, d, id, v)
  {
    hide Safe, Trades, ListedFrom, IsOpen, CanGrow;
  }

  /** The swap of the position may go through at no loss. */
  lemma FillComesCloser(w: Desk, d: nat, units: nat, id: int)
    requires Safe(w) && d < |w.cycles| && w.cycles[d].Selling? && w.cycles[d].next < |w.cycles[d].list|
    requires FillOf(w.cycles[d].list[w.cycles[d].next], units).id == id
    requires FillOf(w.cycles[d].list[w.cycles[d].next], units).pnl == 0
    ensures Closer(w, d, id, Next(w, SwapDone(d, Some(units))))
  {
    hide Safe, Next, Trades, FillOf, Closer;
    var v := Next(w, SwapDone(d, Some(units)));
    var f := FillOf(w.cycles[d].list[w.cycles[d].next], units);
    NextIsSafe(w, SwapDone(d, Some(units)));
    FillStep(w, d, units);
    LogGrows(w.log, Filled(d, f));
    FlatFillIsCloser(w, d, id, v, w.cycles[d].total + f.pnl, f);
  }

  lemma SwapComesCloser(w: Desk, d: nat, id: int) returns (e: Event)
    requires Safe(w) && d < |w.cycles| && w.cycles[d].Selling? && InFlight(w, w.cycles[d], id)
    ensures Closer(w, d, id, Next(w, e))
  {
    var Selling(list, next, total) := w.cycles[d];
    assert CycleFits(w, w.cycles[d]);
    assert EverOpen(w, list[next]);
    hide Safe, Next, Closer, CanGrow, IsOpen, Trades, ListedFrom, Valid, FillOf;
    ListShrinks(list, next, id);
    if list[next].id == id {
      var units: nat := list[next].amountCents * CENTS_TO_USDC_UNITS;
      e := SwapDone(d, Some(units));
      FlatFill(list[next], units);
      FillComesCloser(w, d, units, id);
    } else {
      e := SwapDone(d, None);
      SkipComesCloser(w, d, id);
    }
  }

  /** The booking goes through, and what is behind it on the list comes next. */
  lemma BookedGoesOn(w: Desk, d: nat)
    requires Safe(w) && d < |w.cycles| && w.cycles[d].Closing?
    requires var f := w.cycles[d].fill;
      !w.db.paused && (f.pnl == 0 || (w.db.pool > 0 && w.db.pool + f.pnl >= 0))
    ensures var Closing(list, next, total, f) := w.cycles[d];
      var v := Next(w, PriceKnown(d));
      && next < |list| && |v.cycles| == |w.cycles|
      && (forall id :: Trades(v.log, id) == Trades(w.log, id) + if f.id == id then 1 else 0)
      && (IsOpen(w.positions, f.id) ==> v.cycles[d] == AfterPosition(list, next, total))
  {
    BookedOutcome(w, d);
    hide Safe, Next, IsOpen, Trades, RecordTrade, WithoutIds;
    var f := w.cycles[d].fill;
    LogGrows(w.log, Traded(d, f, IsOpen(w.positions, f.id)));
  }

  lemma BookingComesCloser(w: Desk, d: nat, id: int)
    requires Safe(w) && d < |w.cycles| && w.cycles[d].Closing? && InFlight(w, w.cycles[d], id)
    requires var f := w.cycles[d].fill;
      !w.db.paused && (f.pnl == 0 || (w.db.pool > 0 && w.db.pool + f.pnl >= 0))
    ensures Closer(w, d, id, Next(w, PriceKnown(d)))
  {
    var Closing(list, next, total, f) := w.cycles[d];
    NextIsSafe(w, PriceKnown(d));
    BookedGoesOn(w, d);
    hide Safe, Next, CanGrow, IsOpen, Trades, ListedFrom;
    if f.id != id {
      ListEnds(list, next + 1, id);
    }
  }

  /** With room made, the sale is still in flight. */
  lemma RoomIsKept(w: Desk, u: Desk, d: nat, id: int)
    requires d < |w.cycles| && w.cycles[d].Closing? && InFlight(w, w.cycles[d], id)
    requires u.cycles == w.cycles && u.positions == w.positions && Valid(u.db)
    requires w.cycles[d].fill.pnl == 0 || u.db.pool > 0
    ensures InFlight(u, u.cycles[d], id)
  {
    hide IsOpen, ListedFrom;
    if !CanGrow(u.db) {
      NobodyMeansEmptyPool(u.db);
    }
  }

  lemma CloseNow(w: Desk, d: nat, id: int) returns (room: seq<Event>)
    requires Safe(w) && d < |w.cycles| && !w.cycles[d].Selling? && InFlight(w, w.cycles[d], id)
    ensures Closer(w, d, id, Next(RunFrom(w, room), PriceKnown(d)))
  {
    var f := w.cycles[d].fill;
    room := MakeRoom(w, f);
    var u := RunFrom(w, room);
    RunIsSafe(w, room);
    RoomIsKept(w, u, d, id);
    BookingComesCloser(u, d, id);
  }

  /** A sale in flight can become one more trade of its position. */
  lemma {:induction false} SecondTrade(w: Desk, d: nat, id: int) returns (events: seq<Event>)
    requires Safe(w) && d < |w.cycles| && InFlight(w, w.cycles[d], id)
    ensures Trades(RunFrom(w, events).log, id) > Trades(w.log, id)
    decreases StepsLeft(w.cycles[d])
  {
    hide Safe, Next, Trades, InFlight, Bookable, ListedFrom, IsOpen;
    if w.cycles[d].Selling? {
      var e := SwapComesCloser(w, d, id);
      RunOne(w, e);
      events := [e];
    } else {
      var room := CloseNow(w, d, id);
      RunAppend(w, room, [PriceKnown(d)]);
      RunOne(RunFrom(w, room), PriceKnown(d));
      events := room + [PriceKnown(d)];
    }
    var v := RunFrom(w, events);
    if Trades(v.log, id) == Trades(w.log, id) {
      var more := SecondTrade(v, d, id);
      RunAppend(w, events, more);
      events := events + more;
    }
  }

  lemma RecordedOnce(w: Desk, c: nat)
    requires Safe(w) && c < |w.cycles| && w.cycles[c].Closing?
    requires RecordTrade(w.db, w.cycles[c].fill.amount, w.cycles[c].fill.pnl).Ok?
    ensures var id, v := w.cycles[c].fill.id, Next(w, PriceKnown(c));
      && id < v.nextId && |v.cycles| == |w.cycles| && Safe(v)
      && (IsOpen(w.positions, id) <==> Trades(w.log, id) == 0)
      && Trades(v.log, id) == Trades(w.log, id) + 1
      && !IsOpen(v.positions, id) && !InFlight(v, v.cycles[c], id)
      && (forall other :: other != id ==> (IsOpen(v.positions, other) <==> IsOpen(w.positions, other)))
      && (CanGrow(v.db) <==> CanGrow(w.db))
  {
    var Closing(list, next, total, f) := w.cycles[c];
    assert CycleFits(w, w.cycles[c]);
    NextIsSafe(w, PriceKnown(c));
    BookedOutcome(w, c);
    hide Next, CanGrow, IsOpen, Trades, Valid, RecordTrade, LogFits, CyclesFit;
    var db := RecordTrade(w.db, f.amount, f.pnl).value;
    TradeKeepsGrowth(w.db, f.amount, f.pnl);
    OpenMeansUntraded(w, list[next]);
    RecordedPositions(w, db, c, f, list[next]);
    OpenAfterClosing(w.positions, f.id);
    LogGrows(w.log, Traded(c, f, IsOpen(w.positions, f.id)));
    assert forall i :: next + 1 <= i < |list| ==> list[i].id != f.id;
  }

  lemma FlightGoesOn(w: Desk, c: nat, d: nat)
    requires Safe(w) && c < |w.cycles| && w.cycles[c].Closing? && d < |w.cycles| && d != c
    requires RecordTrade(w.db, w.cycles[c].fill.amount, w.cycles[c].fill.pnl).Ok?
    ensures var id, v := w.cycles[c].fill.id, Next(w, PriceKnown(c));
      |v.cycles| == |w.cycles| && (InFlight(v, v.cycles[d], id) <==> InFlight(w, w.cycles[d], id))
  {
    RecordedOnce(w, c);
    OthersWait(w, PriceKnown(c), d);
    hide Next, CanGrow, IsOpen, Trades, Safe, RecordTrade, ListedFrom;
  }

  lemma AlwaysOne(w: Desk, id: int)
    requires Safe(w) && Settled(w, id) && Trades(w.log, id) == 1
    ensures forall events :: Trades(RunFrom(w, events).log, id) == 1
  {
    hide Safe, Settled, Trades, RunFrom;
    forall events
      ensures Trades(RunFrom(w, events).log, id) == 1
    {
      SettledForever(w, events, id);
    }
  }

  /** No cycle but `c` has a sale of the position in flight. */
  ghost predicate Alone(w: Desk, c: nat, id: int) {
    forall d :: 0 <= d < |w.cycles| && d != c ==> !InFlight(w, w.cycles[d], id)
  }

  lemma AloneMeansSettled(w: Desk, c: nat)
    requires Safe(w) && c < |w.cycles| && w.cycles[c].Closing?
    requires RecordTrade(w.db, w.cycles[c].fill.amount, w.cycles[c].fill.pnl).Ok?
    requires IsOpen(w.positions, w.cycles[c].fill.id) && Alone(w, c, w.cycles[c].fill.id)
    ensures var id, v := w.cycles[c].fill.id, Next(w, PriceKnown(c));
      Safe(v) && Settled(v, id) && Trades(v.log, id) == 1
  {
    var id, v := w.cycles[c].fill.id, Next(w, PriceKnown(c));
    RecordedOnce(w, c);
    hide Next, InFlight, CanGrow, IsOpen, Trades, Safe, RecordTrade;
    forall d | 0 <= d < |w.cycles| && d != c
      ensures !InFlight(v, v.cycles[d], id)
    {
      FlightGoesOn(w, c, d);
    }
  }

  lemma AnotherCanFollow(w: Desk, c: nat) returns (events: seq<Event>)
    requires Safe(w) && c < |w.cycles| && w.cycles[c].Closing?
    requires RecordTrade(w.db, w.cycles[c].fill.amount, w.cycles[c].fill.pnl).Ok?
    requires !IsOpen(w.positions, w.cycles[c].fill.id) || !Alone(w, c, w.cycles[c].fill.id)
    ensures Trades(RunFrom(Next(w, PriceKnown(c)), events).log, w.cycles[c].fill.id) > 1
  {
    var id, v := w.cycles[c].fill.id, Next(w, PriceKnown(c));
    RecordedOnce(w, c);
    hide Next, InFlight, CanGrow, IsOpen, Trades, Safe, RecordTrade;
    if !IsOpen(w.positions, id) {
      events := [];
      assert RunFrom(v, events) == v;
    } else {
      var d :| 0 <= d < |w.cycles| && d != c && InFlight(w, w.cycles[d], id);
      FlightGoesOn(w, c, d);
      events := SecondTrade(v, d, id);
    }
  }

  /**
   * One position, one trade. When a cycle records its sale of a position, this is the
   * position's only trade, now and ever, if and only if the position was still open and
   * no other sale of it is in flight.
   */
  lemma OneTradeOnly(w: Desk, c: nat)
    requires Safe(w) && c < |w.cycles| && w.cycles[c].Closing?
    requires RecordTrade(w.db, w.cycles[c].fill.amount, w.cycles[c].fill.pnl).Ok?
    ensures var id := w.cycles[c].fill.id;
      (forall events :: Trades(RunFrom(Next(w, PriceKnown(c)), events).log, id) == 1)
      <==> IsOpen(w.positions, id) && Alone(w, c, id)
  {
    hide *;
    var id, v := w.cycles[c].fill.id, Next(w, PriceKnown(c));
    if IsOpen(w.positions, id) && Alone(w, c, id) {
      AloneMeansSettled(w, c);
      AlwaysOne(v, id);
    } else {
      var events := AnotherCanFollow(w, c);
      assert Trades(RunFrom(v, events).log, id) != 1;
    }
  }

  // ---------------------------------------------------------------- Two runs that overlap

  lemma RunFour(w: Desk, e: Event, f: Event, g: Event, h: Event)
    ensures RunFrom(w, [e, f, g, h]) == Next(Next(Next(Next(w, e), f), g), h)
  {
    hide RunFrom, Next;
    RunOne(w, e);
    RunOne(Next(w, e), f);
    RunOne(Next(Next(w, e), f), g);
    RunOne(Next(Next(Next(w, e), f), g), h);
    RunAppend(w, [e], [f]);
    RunAppend(w, [e] + [f], [g]);
    RunAppend(w, [e] + [f] + [g], [h]);
    assert [e] + [f] + [g] + [h] == [e, f, g, h];
  }

  lemma FirstDeposit()
    ensures var s := Step(Empty(1), OpCreate(1, "", "", 1000)); s.pool == 1000 && s.activeCount == 1 && !s.paused
  {
    RunsAreValid(1, []);
    hide Valid;
    CreateOutcome(Empty(1), 1, "", "", 1000);
  }

  lemma FirstBooking(op: Op)
    ensures var w := Next(NewDesk(1), Book(op));
      w == Desk(Step(Empty(1), op), [], 1, [], [Moved(op, MoveOf(Empty(1), op))]) && Trades(w.log, 1) == 0
  {
    hide Step, MoveOf, Empty;
    LogGrows([], Moved(op, MoveOf(Empty(1), op)));
  }

  /** What the runs below start from: one account that holds ten dollars. */
  lemma TenDollars() returns (events: seq<Event>)
    ensures var w := RunFrom(NewDesk(1), events);
      && Safe(w) && w.db.pool == 1000 && w.db.activeCount == 1 && !w.db.paused
      && w.positions == [] && w.cycles == [] && w.nextId == 1 && Trades(w.log, 1) == 0
  {
    hide *;
    var op := OpCreate(1, "", "", 1000);
    events := [Book(op)];
    RunOne(NewDesk(1), Book(op));
    NewDeskIsSafe(1);
    NextIsSafe(NewDesk(1), Book(op));
    FirstDeposit();
    FirstBooking(op);
  }

  /** A cycle that begins and checks, with nothing exposed yet. */
  lemma CheckNow(w: Desk, size: Option<real>, cents: int)
    requires w.db.pool == 1000 && w.db.activeCount > 0 && !w.db.paused && w.positions == []
    requires cents == PositionCents(1000, Asked(size)) > 0
    ensures Next(Next(w, Start), Buy(|w.cycles|, None, size)) == w.(cycles := w.cycles + [Buying(1000, cents)])
  {
    hide PositionCents, Asked;
    assert Exposure([], PAIR) as real / 1000.0 * 100.0 == 0.0;
    assert Next(w, Start) == w.(cycles := w.cycles + [Thinking(1000)]);
  }

  lemma OpenNow(w: Desk, c: nat, cents: int)
    requires c < |w.cycles| && w.cycles[c] == Buying(1000, cents) && cents > 0 && !w.db.paused
    ensures var p := Position(w.nextId, PAIR, cents);
      Next(Next(w, SwapDone(c, Some(0))), PriceKnown(c))
      == w.(positions := w.positions + [p], nextId := w.nextId + 1, log := w.log + [Opening(c, p)],
            cycles := w.cycles[c := Ended(Placed(w.nextId, cents))])
  {
    assert Next(w, SwapDone(c, Some(0))) == Put(w, c, Bought(1000, cents));
  }

  /** A cycle that begins, checks and opens a position of `cents`, without interruption. */
  lemma BuyNow(w: Desk, size: real, cents: int) returns (events: seq<Event>)
    requires Safe(w) && w.db.pool == 1000 && w.db.activeCount > 0 && !w.db.paused && w.positions == []
    requires cents == PositionCents(1000, size) > 0
    ensures var v := RunFrom(w, events);
      && v.db == w.db && v.positions == [Position(w.nextId, PAIR, cents)] && v.nextId == w.nextId + 1
      && |v.cycles| == |w.cycles| + 1 && forall id :: Trades(v.log, id) == Trades(w.log, id)
  {
    hide Safe, Next, PositionCents, Trades, RunFrom;
    var c := |w.cycles|;
    CheckNow(w, Some(size), cents);
    OpenNow(w.(cycles := w.cycles + [Buying(1000, cents)]), c, cents);
    LogGrows(w.log, Opening(c, Position(w.nextId, PAIR, cents)));
    events := [Start, Buy(c, None, Some(size)), SwapDone(c, Some(0)), PriceKnown(c)];
    RunFour(w, Start, Buy(c, None, Some(size)), SwapDone(c, Some(0)), PriceKnown(c));
  }

  /** Both cycles check before either opens. */
  lemma TwoChecks(w: Desk, cents: int) returns (events: seq<Event>)
    requires Safe(w) && w.db.pool == 1000 && w.db.activeCount > 0 && !w.db.paused
    requires Exposure(w.positions, PAIR) < 300 && cents == PositionCents(1000, 30.0) > 0
    ensures RunFrom(w, events) == w.(cycles := w.cycles + [Buying(1000, cents), Buying(1000, cents)])
  {
    var c, d, size := |w.cycles|, |w.cycles| + 1, Some(30.0);
    hide PositionCents, Exposure, RunFrom, Safe;
    var w2 := Next(Next(w, Start), Start);
    assert w2 == w.(cycles := w.cycles + [Thinking(1000), Thinking(1000)]);
    var w3 := Next(w2, Buy(c, None, size));
    assert w3 == w.(cycles := w.cycles + [Buying(1000, cents), Thinking(1000)]);
    events := [Start, Start, Buy(c, None, size), Buy(d, None, size)];
    RunFour(w, Start, Start, Buy(c, None, size), Buy(d, None, size));
  }

  lemma TwoOpenings(w: Desk, c: nat, d: nat, cents: int) returns (events: seq<Event>)
    requires !w.db.paused && cents > 0 && c < d < |w.cycles| && w.cycles[c] == w.cycles[d] == Buying(1000, cents)
    ensures var v := RunFrom(w, events);
      v.db == w.db && Exposure(v.positions, PAIR) == Exposure(w.positions, PAIR) + 2 * cents
  {
    hide Exposure, RunFrom;
    var w2 := Next(Next(w, SwapDone(c, Some(0))), SwapDone(d, Some(0)));
    assert w2 == w.(cycles := w.cycles[c := Bought(1000, cents)][d := Bought(1000, cents)]);
    var p, q := Position(w.nextId, PAIR, cents), Position(w.nextId + 1, PAIR, cents);
    var w3 := Next(w2, PriceKnown(c));
    assert w3.positions == w.positions + [p] && w3.nextId == w.nextId + 1 && w3.cycles[d] == Bought(1000, cents);
    ExposureSnoc(w.positions, p);
    ExposureSnoc(w3.positions, q);
    events := [SwapDone(c, Some(0)), SwapDone(d, Some(0)), PriceKnown(c), PriceKnown(d)];
    RunFour(w, SwapDone(c, Some(0)), SwapDone(d, Some(0)), PriceKnown(c), PriceKnown(d));
  }

  lemma TwoBuys(w: Desk, cents: int) returns (events: seq<Event>)
    requires Safe(w) && w.db.pool == 1000 && w.db.activeCount > 0 && !w.db.paused
    requires Exposure(w.positions, PAIR) < 300 && cents == PositionCents(1000, 30.0) > 0
    ensures var v := RunFrom(w, events);
      v.db == w.db && Exposure(v.positions, PAIR) == Exposure(w.positions, PAIR) + 2 * cents
  {
    hide PositionCents, Exposure, RunFrom, Safe;
    events := TwoChecks(w, cents);
    var u := RunFrom(w, events);
    var more := TwoOpenings(u, |w.cycles|, |w.cycles| + 1, cents);
    RunAppend(w, events, more);
    events := events + more;
  }

  lemma SizesOfTenDollars()
    ensures PositionCents(1000, 29.0) == 290 && PositionCents(1000, 30.0) == 300
  {
  }

  /** Two buys that overlap: 29%, then 30% twice, make 89% of the pool. */
  lemma OverlappingBuys() returns (events: seq<Event>)
    ensures var v := RunFrom(NewDesk(1), events); v.db.pool == 1000 && Exposure(v.positions, PAIR) == 890
  {
    hide RunFrom, PositionCents, Trades, Safe;
    SizesOfTenDollars();
    var start := NewDesk(1);
    NewDeskIsSafe(1);
    events := TenDollars();
    var w := RunFrom(start, events);
    var first := BuyNow(w, 29.0, 290);
    RunAppend(start, events, first);
    RunIsSafe(w, first);
    events := events + first;
    ExposureSnoc([], Position(w.nextId, PAIR, 290));
    var u := RunFrom(start, events);
    assert u.positions == [] + [Position(w.nextId, PAIR, 290)];
    var more := TwoBuys(u, 300);
    RunAppend(start, events, more);
    events := events + more;
  }

  lemma BookFirst(w: Desk, c: nat, d: nat, p: Position)
    requires Safe(w) && !w.db.paused && w.positions == [p] && c < |w.cycles| && d < |w.cycles| && c != d
    requires w.cycles[c] == w.cycles[d] == Closing([p], 0, 0, Fill(p.id, p.amountCents, 0))
    ensures var v := Next(w, PriceKnown(c));
      && Safe(v) && !v.db.paused && Trades(v.log, p.id) == 1 && !IsOpen(v.positions, p.id)
      && d < |v.cycles| && v.cycles[d] == w.cycles[d]
  {
    assert w.positions[0] in w.positions;
    assert IsOpen(w.positions, p.id);
    hide Safe, Next, RecordTrade, Trades, IsOpen, CanGrow;
    BookedOutcome(w, c);
    RecordedOnce(w, c);
    OthersWait(w, PriceKnown(c), d);
  }

  lemma BookAgain(w: Desk, d: nat, p: Position)
    requires Safe(w) && !w.db.paused && !IsOpen(w.positions, p.id) && d < |w.cycles|
    requires w.cycles[d] == Closing([p], 0, 0, Fill(p.id, p.amountCents, 0))
    ensures var v := Next(w, PriceKnown(d));
      Trades(v.log, p.id) == Trades(w.log, p.id) + 1 && d < |v.cycles| && v.cycles[d] == Ended(Gone(p.id))
  {
    hide Safe, Next, RecordTrade, Trades, IsOpen, CanGrow;
    BookedOutcome(w, d);
    RecordedOnce(w, d);
  }

  /** The first sale closes the position; the second records it again and throws. */
  lemma BookTwice(w: Desk, c: nat, d: nat, p: Position)
    requires Safe(w) && !w.db.paused && w.positions == [p] && c < |w.cycles| && d < |w.cycles| && c != d
    requires w.cycles[c] == w.cycles[d] == Closing([p], 0, 0, Fill(p.id, p.amountCents, 0))
    ensures var v := Next(Next(w, PriceKnown(c)), PriceKnown(d));
      Trades(v.log, p.id) == 2 && d < |v.cycles| && v.cycles[d] == Ended(Gone(p.id))
  {
    hide *;
    BookFirst(w, c, d, p);
    BookAgain(Next(w, PriceKnown(c)), d, p);
  }

  lemma SwapFills(w: Desk, c: nat, p: Position, units: nat)
    requires c < |w.cycles| && w.cycles[c] == Selling([p], 0, 0) && units == p.amountCents * CENTS_TO_USDC_UNITS
    ensures var f, v := Fill(p.id, p.amountCents, 0), Next(w, SwapDone(c, Some(units)));
      v == w.(cycles := w.cycles[c := Closing([p], 0, 0, f)], log := w.log + [Filled(c, f)])
  {
  }

  /** Both cycles list the position before either sells it. */
  lemma TwoSales(w: Desk, p: Position) returns (events: seq<Event>)
    requires Safe(w) && w.db.pool > 0 && w.db.activeCount > 0 && !w.db.paused
    requires w.positions == [p] && p.pair == PAIR && p.amountCents > 0
    ensures var v := RunFrom(w, events); Trades(v.log, p.id) == 2 && Ended(Gone(p.id)) in v.cycles
  {
    hide Safe, AfterSwap, AfterPrice, Trades, RunFrom;
    var c, d, units: nat := |w.cycles|, |w.cycles| + 1, p.amountCents * CENTS_TO_USDC_UNITS;
    var w1 := Next(w, Start);
    var w2 := Next(w1, Start);
    assert Lists([p], [p]);
    var w3 := Next(w2, Sell(c, [p]));
    var w4 := Next(w3, Sell(d, [p]));
    assert w4.cycles[c] == w4.cycles[d] == Selling([p], 0, 0);
    RunFour(w, Start, Start, Sell(c, [p]), Sell(d, [p]));
    events := [Start, Start, Sell(c, [p]), Sell(d, [p])];
    var w5 := Next(w4, SwapDone(c, Some(units)));
    SwapFills(w4, c, p, units);
    var w6 := Next(w5, SwapDone(d, Some(units)));
    SwapFills(w5, d, p, units);
    RunFour(w4, SwapDone(c, Some(units)), SwapDone(d, Some(units)), PriceKnown(c), PriceKnown(d));
    var sales := [SwapDone(c, Some(units)), SwapDone(d, Some(units)), PriceKnown(c), PriceKnown(d)];
    RunAppend(w, events, sales);
    RunIsSafe(w, events);
    NextIsSafe(w4, SwapDone(c, Some(units)));
    NextIsSafe(w5, SwapDone(d, Some(units)));
    BookTwice(w6, c, d, p);
    events := events + sales;
  }

  /** Two sales that overlap: one position becomes two trades, and the second cycle throws. */
  lemma OverlappingSales() returns (events: seq<Event>)
    ensures var v := RunFrom(NewDesk(1), events); Trades(v.log, 1) == 2 && Ended(Gone(1)) in v.cycles
  {
    hide RunFrom, PositionCents, Trades, Safe;
    SizesOfTenDollars();
    var start := NewDesk(1);
    NewDeskIsSafe(1);
    events := TenDollars();
    var w := RunFrom(start, events);
    var first := BuyNow(w, 30.0, 300);
    RunAppend(start, events, first);
    RunIsSafe(w, first);
    events := events + first;
    var more := TwoSales(RunFrom(start, events), Position(1, PAIR, 300));
    RunAppend(start, events, more);
    events := events + more;
  }
}
