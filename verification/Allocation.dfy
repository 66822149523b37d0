/**
 * The pro-rata split shared by `distributeTradePnL` and `distributeWithdrawalFee`:
 * truncated shares, a sort by wealth, then a loop that hands out the missing cents.
 */
module Allocation {
  import opened Arithmetic

  /** One active account as the split reads it. */
  datatype Row = Row(token: int, balance: int)

  /** One entry of the working list `shares`. */
  datatype Share = Share(tokenId: int, share: int, balance: int)

  function Abs(x: int): nat { if x < 0 then -x else x }

  /** `c` cents in the direction of `amount`. */
  function Signed(amount: int, c: int): int { if amount < 0 then -c else c }

  /** `Math.trunc(n / d)`: rounds toward zero. */
  function TruncDiv(n: int, d: int): int
    requires d > 0
  {
    if n >= 0 then n / d else -((-n) / d)
  }

  function Total(rows: seq<Row>): int {
    if rows == [] then 0 else rows[0].balance + Total(rows[1..])
  }

  function ShareTotal(shares: seq<Share>): int {
    if shares == [] then 0 else shares[0].share + ShareTotal(shares[1..])
  }

  ghost predicate DistinctTokens(rows: seq<Row>) {
    forall i, j :: 0 <= i < j < |rows| ==> rows[i].token != rows[j].token
  }

  ghost predicate NonNegative(rows: seq<Row>) {
    forall i :: 0 <= i < |rows| ==> rows[i].balance >= 0
  }

  /** What the remainder loop needs from its caller in order to terminate. */
  ghost predicate Splittable(rows: seq<Row>, pool: int) {
    && DistinctTokens(rows)
    && NonNegative(rows)
    && Total(rows) == pool > 0
  }

  // ---------------------------------------------------------------- Sorting

  /** The sort key: larger balance first, then smaller token. */
  predicate Before(a: Row, b: Row) {
    a.balance > b.balance || (a.balance == b.balance && a.token < b.token)
  }

  ghost predicate Sorted(rows: seq<Row>) {
    forall i, j :: 0 <= i < j < |rows| ==> Before(rows[i], rows[j])
  }

  function Insert(r: Row, rows: seq<Row>): seq<Row> {
    if rows == [] then [r]
    else if Before(r, rows[0]) then [r] + rows
    else [rows[0]] + Insert(r, rows[1..])
  }

  /** The rows in order of the sort key. */
  function Ranked(rows: seq<Row>): seq<Row> {
    if rows == [] then [] else Insert(rows[0], Ranked(rows[1..]))
  }

  lemma {:induction false} InsertPermutes(r: Row, rows: seq<Row>)
    ensures multiset(Insert(r, rows)) == multiset(rows) + multiset{r}
  {
    if rows != [] && !Before(r, rows[0]) {
      InsertPermutes(r, rows[1..]);
      assert rows == [rows[0]] + rows[1..];
    }
  }

  lemma {:induction false} RankedPermutes(rows: seq<Row>)
    ensures multiset(Ranked(rows)) == multiset(rows)
  {
    if rows == [] {
    } else {
      RankedPermutes(rows[1..]);
      InsertPermutes(rows[0], Ranked(rows[1..]));
      assert rows == [rows[0]] + rows[1..];
    }
  }

  lemma MemberOfMultiset(a: seq<Row>, b: seq<Row>, r: Row)
    requires multiset(a) == multiset(b) && r in a
    ensures r in b
  {
    assert r in multiset(b);
  }

  lemma {:induction false} InsertSorted(r: Row, rows: seq<Row>)
    requires Sorted(rows)
    requires forall i :: 0 <= i < |rows| ==> rows[i].token != r.token
    ensures Sorted(Insert(r, rows))
  {
    if rows != [] && !Before(r, rows[0]) {
      var rest := Insert(r, rows[1..]);
      InsertSorted(r, rows[1..]);
      InsertPermutes(r, rows[1..]);
      forall j | 0 <= j < |rest| ensures Before(rows[0], rest[j]) {
        assert rest[j] in multiset(rest);
        assert rest[j] == r || rest[j] in rows[1..];
      }
    }
  }

  lemma {:induction false} RankedSorted(rows: seq<Row>)
    requires DistinctTokens(rows)
    ensures Sorted(Ranked(rows))
  {
    if rows == [] {
    } else {
      RankedSorted(rows[1..]);
      RankedPermutes(rows[1..]);
      var rest := Ranked(rows[1..]);
      forall i | 0 <= i < |rest| ensures rest[i].token != rows[0].token {
        MemberOfMultiset(rest, rows[1..], rest[i]);
      }
      InsertSorted(rows[0], rest);
    }
  }

  lemma DropHead(a: seq<Row>)
    requires a != []
    ensures multiset(a[1..]) == multiset(a) - multiset{a[0]}
  {
    assert a == [a[0]] + a[1..];
  }

  /** The key is a strict total order, so only one sorted listing of the rows exists. */
  lemma {:induction false} SortedIsUnique(a: seq<Row>, b: seq<Row>)
    requires Sorted(a) && Sorted(b) && multiset(a) == multiset(b)
    ensures a == b
  {
    assert |a| == |multiset(a)| == |multiset(b)| == |b|;
    if a == [] {
    } else {
      assert a[0] == b[0] by {
        MemberOfMultiset(a, b, a[0]);
        MemberOfMultiset(b, a, b[0]);
      }
      DropHead(a);
      DropHead(b);
      SortedIsUnique(a[1..], b[1..]);
    }
  }

  lemma {:induction false} InsertTotal(r: Row, rows: seq<Row>)
    ensures Total(Insert(r, rows)) == r.balance + Total(rows)
  {
    if rows != [] && !Before(r, rows[0]) {
      InsertTotal(r, rows[1..]);
    } else {
      assert ([r] + rows)[1..] == rows;
    }
  }

  lemma {:induction false} RankedTotal(rows: seq<Row>)
    ensures Total(Ranked(rows)) == Total(rows)
  {
    if rows == [] {
    } else {
      RankedTotal(rows[1..]);
      InsertTotal(rows[0], Ranked(rows[1..]));
    }
  }

  /** Sorting keeps what the split needs. */
  lemma RankedSplittable(rows: seq<Row>, pool: int)
    requires Splittable(rows, pool)
    ensures Splittable(Ranked(rows), pool) && Sorted(Ranked(rows)) && |Ranked(rows)| == |rows|
  {
    var s := Ranked(rows);
    RankedTotal(rows);
    RankedSorted(rows);
    RankedPermutes(rows);
    assert |s| == |multiset(s)| == |multiset(rows)| == |rows|;
    forall i | 0 <= i < |s| ensures s[i].balance >= 0 {
      MemberOfMultiset(s, rows, s[i]);
    }
    forall i, j | 0 <= i < j < |s| ensures s[i].token != s[j].token {
      MemberOfMultiset(s, rows, s[i]);
      MemberOfMultiset(s, rows, s[j]);
      assert Before(s[i], s[j]);
    }
  }

  // ---------------------------------------------------------------- The split

  /** The truncated share of a balance in `m` cents out of `pool`. */
  function Floor(balance: int, m: nat, pool: int): int
    requires pool > 0
  {
    balance * m / pool
  }

  function FloorTotal(rows: seq<Row>, m: nat, pool: int): int
    requires pool > 0
  {
    if rows == [] then 0 else Floor(rows[0].balance, m, pool) + FloorTotal(rows[1..], m, pool)
  }

  /** The cents that truncation leaves undistributed. */
  function Missing(rows: seq<Row>, m: nat, pool: int): int
    requires pool > 0
  {
    m - FloorTotal(rows, m, pool)
  }

  function Positives(rows: seq<Row>): nat {
    if rows == [] then 0 else (if rows[0].balance > 0 then 1 else 0) + Positives(rows[1..])
  }

  /** Truncated shares, the first `bonus` of them raised by one cent. */
  function Cents(rows: seq<Row>, m: nat, pool: int, bonus: int): (c: seq<int>)
    requires pool > 0
    ensures |c| == |rows|
  {
    if rows == [] then []
    else [Floor(rows[0].balance, m, pool) + (if bonus > 0 then 1 else 0)] + Cents(rows[1..], m, pool, bonus - 1)
  }

  /**
   * The reference split of `amount`: every row, in order of wealth, gets its truncated
   * share, and the first `Missing` rows get one cent more in the direction of `amount`.
   */
  function Split(rows: seq<Row>, amount: int, pool: int): (shares: seq<Share>)
    requires pool > 0
    ensures |shares| == |Ranked(rows)|
  {
    var s := Ranked(rows);
    var c := Cents(s, Abs(amount), pool, Missing(s, Abs(amount), pool));
    seq(|s|, k requires 0 <= k < |s| => Share(s[k].token, Signed(amount, c[k]), s[k].balance))
  }

  lemma {:induction false} CentsAt(rows: seq<Row>, m: nat, pool: int, bonus: int, k: nat)
    requires pool > 0 && k < |rows|
    ensures Cents(rows, m, pool, bonus)[k]
         == Floor(rows[k].balance, m, pool) + (if k < bonus then 1 else 0)
  {
    if k == 0 {
    } else {
      CentsAt(rows[1..], m, pool, bonus - 1, k - 1);
    }
  }

  /** One account's truncation error, in units of `1 / pool` of a cent. */
  lemma FloorError(balance: int, m: nat, pool: int)
    requires pool > 0 && balance >= 0
    ensures 0 <= balance * m - pool * Floor(balance, m, pool) < pool
    ensures balance == 0 ==> Floor(balance, m, pool) == 0
    ensures Floor(balance, m, pool) >= 0
  {
    FloorBounds(balance * m, pool);
    var f := Floor(balance, m, pool);
    MulMonotone(m, 0, balance);
    Cancel(pool, -1, f);
    if balance == 0 {
      FloorUnique(0, pool, 0);
    }
  }

  /** The truncation errors of all rows add up; only positive balances contribute. */
  lemma {:induction false} FloorTotalError(rows: seq<Row>, m: nat, pool: int)
    requires pool > 0 && NonNegative(rows)
    ensures 0 <= m * Total(rows) - pool * FloorTotal(rows, m, pool)
    ensures m * Total(rows) - pool * FloorTotal(rows, m, pool) <= (pool - 1) * Positives(rows)
  {
    hide Floor;
    if rows == [] {
    } else {
      var b, f := rows[0].balance, Floor(rows[0].balance, m, pool);
      FloorTotalError(rows[1..], m, pool);
      FloorError(b, m, pool);
      var t, g, p := Total(rows[1..]), FloorTotal(rows[1..], m, pool), Positives(rows[1..]);
      assert m * (b + t) == b * m + m * t;
      assert pool * (f + g) == pool * f + pool * g;
      assert (pool - 1) * (1 + p) == (pool - 1) + (pool - 1) * p;
    }
  }

  lemma {:induction false} PositiveTotal(rows: seq<Row>)
    requires NonNegative(rows)
    ensures Positives(rows) <= |rows|
    ensures Total(rows) >= 0
    ensures Total(rows) > 0 <==> Positives(rows) > 0
  {
    if rows == [] {
    } else {
      PositiveTotal(rows[1..]);
    }
  }

  /**
   * The loop hands out fewer cents than there are positive balances, so its modulo
   * index never wraps.
   */
  lemma MissingBounds(rows: seq<Row>, m: nat, pool: int)
    requires pool > 0 && NonNegative(rows) && Total(rows) == pool
    ensures 0 <= Missing(rows, m, pool) < Positives(rows) <= |rows|
  {
    hide Floor;
    FloorTotalError(rows, m, pool);
    PositiveTotal(rows);
    var r, f := Missing(rows, m, pool), FloorTotal(rows, m, pool);
    assert pool * r == m * pool - pool * f;
    CountBelow(m * pool - pool * f, pool, r, Positives(rows));
  }

  lemma {:induction false} NoPositives(rows: seq<Row>)
    requires forall i :: 0 <= i < |rows| ==> rows[i].balance <= 0
    ensures Positives(rows) == 0
  {
    if rows == [] {
    } else {
      NoPositives(rows[1..]);
    }
  }

  /** In order of wealth the positive balances come first. */
  lemma {:induction false} PositivesFirst(rows: seq<Row>, k: nat)
    requires Sorted(rows) && NonNegative(rows) && k < |rows|
    ensures rows[k].balance > 0 <==> k < Positives(rows)
  {
    if k > 0 {
      assert Before(rows[0], rows[k]);
      PositivesFirst(rows[1..], k - 1);
      if rows[0].balance == 0 {
        PositiveTotal(rows[1..]);
        NoPositives(rows[1..]);
      }
    } else if rows[0].balance == 0 {
      forall i | 0 <= i < |rows| ensures rows[i].balance == 0 {
        assert i > 0 ==> Before(rows[0], rows[i]);
      }
      NoPositives(rows);
    }
  }

  /** The extra cent of the row in position `k`. */
  function Extra(rows: seq<Row>, amount: int, pool: int, k: nat): int
    requires pool > 0
  {
    if k < Missing(Ranked(rows), Abs(amount), pool) then 1 else 0
  }

  /** The share in position `k` of the split, in closed form. */
  lemma SplitAt(rows: seq<Row>, amount: int, pool: int, k: nat)
    requires pool > 0 && k < |Ranked(rows)|
    ensures Split(rows, amount, pool)[k].share
         == Signed(amount, Floor(Ranked(rows)[k].balance, Abs(amount), pool) + Extra(rows, amount, pool, k))
  {
    CentsAt(Ranked(rows), Abs(amount), pool, Missing(Ranked(rows), Abs(amount), pool), k);
  }

  /** An extra cent goes only to an account that owns something. */
  lemma ExtraToPositive(rows: seq<Row>, amount: int, pool: int, k: nat)
    requires Splittable(rows, pool) && k < |Ranked(rows)|
    ensures Ranked(rows)[k].balance >= 0
    ensures Extra(rows, amount, pool, k) == 1 ==> Ranked(rows)[k].balance > 0
  {
    RankedSplittable(rows, pool);
    MissingBounds(Ranked(rows), Abs(amount), pool);
    PositivesFirst(Ranked(rows), k);
  }

  // ---------------------------------------------------------------- What the split guarantees

  lemma {:induction false} CentsTotal(s: seq<Row>, amount: int, m: nat, pool: int, bonus: nat, shares: seq<Share>)
    requires pool > 0 && |shares| == |s| && bonus <= |s|
    requires forall k :: 0 <= k < |s| ==> shares[k].share == Signed(amount, Cents(s, m, pool, bonus)[k])
    ensures ShareTotal(shares) == Signed(amount, FloorTotal(s, m, pool) + bonus)
  {
    if s == [] {
    } else {
      var rest := if bonus > 0 then bonus - 1 else 0;
      forall k | 0 <= k < |s| - 1 ensures shares[1..][k].share == Signed(amount, Cents(s[1..], m, pool, rest)[k]) {
        CentsAt(s[1..], m, pool, rest, k);
        CentsAt(s, m, pool, bonus, k + 1);
        assert shares[1..][k] == shares[k + 1];
      }
      CentsTotal(s[1..], amount, m, pool, rest, shares[1..]);
      CentsAt(s, m, pool, bonus, 0);
    }
  }

  /** Conservation: the shares add up to the amount, to the cent. */
  lemma SplitIsExact(rows: seq<Row>, amount: int, pool: int)
    requires Splittable(rows, pool)
    ensures ShareTotal(Split(rows, amount, pool)) == amount
  {
    var s, m := Ranked(rows), Abs(amount);
    RankedSplittable(rows, pool);
    MissingBounds(s, m, pool);
    CentsTotal(s, amount, m, pool, Missing(s, m, pool), Split(rows, amount, pool));
  }

  lemma OneCent(b: int, amount: int, pool: int, extra: int)
    requires pool > 0 && 0 <= extra <= 1 && b >= 0
    ensures -pool <= pool * Signed(amount, Floor(b, Abs(amount), pool) + extra) - b * amount <= pool
  {
    var f := Floor(b, Abs(amount), pool);
    FloorError(b, Abs(amount), pool);
    assert pool * (f + extra) == pool * f + pool * extra;
    assert pool * -(f + extra) == -(pool * (f + extra));
    assert b * -amount == -(b * amount);
  }

  /**
   * Fairness of one split: each share is within one cent of `balance * amount / pool`,
   * has the sign of the amount, and is nothing for an empty account.
   */
  lemma SplitIsFair(rows: seq<Row>, amount: int, pool: int, k: nat)
    requires Splittable(rows, pool) && k < |Ranked(rows)|
    ensures var s := Split(rows, amount, pool)[k];
      && -pool <= pool * s.share - s.balance * amount <= pool
      && Signed(amount, s.share) >= 0
      && (s.balance == 0 ==> s.share == 0)
  {
    var b := Ranked(rows)[k].balance;
    SplitAt(rows, amount, pool, k);
    ExtraToPositive(rows, amount, pool, k);
    FloorError(b, Abs(amount), pool);
    OneCent(b, amount, pool, Extra(rows, amount, pool, k));
  }

  /** When no share needs truncating, nothing is left to hand out. */
  lemma {:induction false} ExactFloors(rows: seq<Row>, m: nat, pool: int)
    requires pool > 0
    requires forall i :: 0 <= i < |rows| ==> pool * Floor(rows[i].balance, m, pool) == rows[i].balance * m
    ensures pool * FloorTotal(rows, m, pool) == m * Total(rows)
  {
    hide Floor;
    if rows == [] {
    } else {
      ExactFloors(rows[1..], m, pool);
      var b, t := rows[0].balance, Total(rows[1..]);
      var f, g := Floor(b, m, pool), FloorTotal(rows[1..], m, pool);
      assert pool * (f + g) == pool * f + pool * g;
      assert m * (b + t) == b * m + m * t;
    }
  }

  lemma Divides(n: int, d: int)
    requires d > 0
    ensures n % d == 0 <==> d * (n / d) == n
  {
  }

  lemma NegatedDivides(n: int, d: int)
    requires d > 0 && d * (n / d) == n
    ensures d * (-n / d) == -n
  {
    assert d * -(n / d) == -(d * (n / d));
    FloorUnique(-n, d, -(n / d));
  }

  /** A whole share, of a profit or of a loss, is a floor without remainder. */
  lemma WholeShare(b: int, amount: int, pool: int)
    requires pool > 0
    ensures b * amount % pool == 0 <==> pool * Floor(b, Abs(amount), pool) == b * Abs(amount)
  {
    var m := Abs(amount);
    assert b * -amount == -(b * amount);
    Divides(b * amount, pool);
    if b * amount % pool == 0 && amount < 0 {
      NegatedDivides(b * amount, pool);
    }
    if pool * Floor(b, m, pool) == b * m && amount < 0 {
      NegatedDivides(b * m, pool);
    }
  }

  /** A floor without remainder, paid in the direction of the amount, is the whole proportion. */
  lemma PaidInFull(b: int, amount: int, pool: int)
    requires pool > 0 && pool * Floor(b, Abs(amount), pool) == b * Abs(amount)
    ensures pool * Signed(amount, Floor(b, Abs(amount), pool)) == b * amount
  {
    var f := Floor(b, Abs(amount), pool);
    assert b * -amount == -(b * amount) && pool * -f == -(pool * f);
  }

  /** A share that is the whole proportion had no cent added, so its floor was exact. */
  lemma ExactShare(b: int, amount: int, pool: int, extra: int)
    requires pool > 0 && 0 <= extra <= 1 && b >= 0
    requires pool * Signed(amount, Floor(b, Abs(amount), pool) + extra) == b * amount
    ensures pool * Floor(b, Abs(amount), pool) == b * Abs(amount)
  {
    var f := Floor(b, Abs(amount), pool);
    FloorError(b, Abs(amount), pool);
    assert pool * (f + extra) == pool * f + pool * extra;
    assert pool * -(f + extra) == -(pool * (f + extra));
    assert b * -amount == -(b * amount);
  }

  /** Every account gets exactly its proportion of the amount. */
  ghost predicate Proportional(rows: seq<Row>, amount: int, pool: int)
    requires pool > 0
  {
    forall k :: 0 <= k < |Ranked(rows)| ==>
      pool * Split(rows, amount, pool)[k].share == Split(rows, amount, pool)[k].balance * amount
  }

  lemma NoneMissing(s: seq<Row>, m: nat, pool: int)
    requires pool > 0 && pool * FloorTotal(s, m, pool) == pool * m
    ensures Missing(s, m, pool) == 0
  {
    var f := FloorTotal(s, m, pool);
    Cancel(pool, f - 1, m);
    Cancel(pool, m - 1, f);
  }

  lemma WholeShareAt(rows: seq<Row>, amount: int, pool: int, k: nat)
    requires pool > 0 && k < |Ranked(rows)| && Missing(Ranked(rows), Abs(amount), pool) == 0
    requires pool * Floor(Ranked(rows)[k].balance, Abs(amount), pool) == Ranked(rows)[k].balance * Abs(amount)
    ensures pool * Split(rows, amount, pool)[k].share == Split(rows, amount, pool)[k].balance * amount
  {
    assert Split(rows, amount, pool)[k].balance == Ranked(rows)[k].balance;
    hide Floor, Abs, Signed, Missing, Split;
    SplitAt(rows, amount, pool, k);
    PaidInFull(Ranked(rows)[k].balance, amount, pool);
  }

  lemma WholeSharesArePaid(rows: seq<Row>, amount: int, pool: int)
    requires Splittable(rows, pool)
    requires forall i :: 0 <= i < |rows| ==> rows[i].balance * amount % pool == 0
    ensures Proportional(rows, amount, pool)
  {
    hide Floor, Abs, Signed, Missing, FloorTotal, Split, Extra;
    var s, m := Ranked(rows), Abs(amount);
    RankedSplittable(rows, pool);
    RankedPermutes(rows);
    forall k | 0 <= k < |s|
      ensures pool * Floor(s[k].balance, m, pool) == s[k].balance * m
    {
      MemberOfMultiset(s, rows, s[k]);
      WholeShare(s[k].balance, amount, pool);
    }
    ExactFloors(s, m, pool);
    assert m * Total(s) == pool * m;
    NoneMissing(s, m, pool);
    forall k | 0 <= k < |s|
      ensures pool * Split(rows, amount, pool)[k].share == Split(rows, amount, pool)[k].balance * amount
    {
      WholeShareAt(rows, amount, pool, k);
    }
  }

  lemma ShareKeepsBalance(rows: seq<Row>, amount: int, pool: int, k: nat)
    requires pool > 0 && k < |Ranked(rows)|
    ensures Split(rows, amount, pool)[k].balance == Ranked(rows)[k].balance
  {
  }

  lemma ProportionIsWhole(rows: seq<Row>, amount: int, pool: int, k: nat)
    requires Splittable(rows, pool) && k < |Ranked(rows)|
    ensures var s := Split(rows, amount, pool)[k];
      pool * s.share == s.balance * amount ==> s.balance * amount % pool == 0
  {
    var b := Ranked(rows)[k].balance;
    ShareKeepsBalance(rows, amount, pool, k);
    hide Floor, Missing, Cents, Split, Abs, Signed;
    SplitAt(rows, amount, pool, k);
    ExtraToPositive(rows, amount, pool, k);
    if pool * Split(rows, amount, pool)[k].share == b * amount {
      ExactShare(b, amount, pool, Extra(rows, amount, pool, k));
      WholeShare(b, amount, pool);
    }
  }

  /** Equal percentage returns are exact if and only if the pool divides every proportion. */
  lemma ReturnsAreEqualExactly(rows: seq<Row>, amount: int, pool: int)
    requires Splittable(rows, pool)
    ensures Proportional(rows, amount, pool) <==> forall i :: 0 <= i < |rows| ==> rows[i].balance * amount % pool == 0
  {
    hide Floor, Missing, Cents, Split;
    var s, m := Ranked(rows), Abs(amount);
    RankedSplittable(rows, pool);
    RankedPermutes(rows);
    if forall i :: 0 <= i < |rows| ==> rows[i].balance * amount % pool == 0 {
      WholeSharesArePaid(rows, amount, pool);
    }
    if Proportional(rows, amount, pool) {
      forall i | 0 <= i < |rows|
        ensures rows[i].balance * amount % pool == 0
      {
        MemberOfMultiset(rows, s, rows[i]);
        var k :| 0 <= k < |s| && s[k] == rows[i];
        ShareKeepsBalance(rows, amount, pool, k);
        ProportionIsWhole(rows, amount, pool, k);
      }
    }
  }

  /** Returns that are not equal: a profit of one cent on balances of one and two cents. */
  lemma UnequalReturns()
    ensures Splittable([Row(1, 1), Row(2, 2)], 3)
    ensures !Proportional([Row(1, 1), Row(2, 2)], 1, 3)
  {
    var rows := [Row(1, 1), Row(2, 2)];
    assert rows[1..] == [Row(2, 2)];
    assert rows[0].balance * 1 % 3 == 1;
    ReturnsAreEqualExactly(rows, 1, 3);
  }

  /** A truncated loss share leaves room for one more cent unless the whole pool is lost. */
  lemma LossCovered(b: int, m: nat, pool: int)
    requires pool > 0 && m <= pool && b >= 0
    ensures Floor(b, m, pool) <= b
    ensures m < pool && b > 0 ==> Floor(b, m, pool) < b
  {
    FloorError(b, m, pool);
    var f := Floor(b, m, pool);
    MulMonotone(b, m, pool);
    Cancel(pool, f, b + 1);
    if m < pool && b > 0 {
      MulMonotone(b, m + 1, pool);
      assert b * (m + 1) == b * m + b;
      Cancel(pool, f, b);
    }
  }

  /** Splitting exactly the pool truncates nothing. */
  lemma {:induction false} AllOrNothing(rows: seq<Row>, m: nat, pool: int)
    requires pool > 0 && m == pool
    ensures FloorTotal(rows, m, pool) == Total(rows)
    ensures forall i :: 0 <= i < |rows| ==> Floor(rows[i].balance, m, pool) == rows[i].balance
  {
    if rows == [] {
    } else {
      AllOrNothing(rows[1..], m, pool);
      FloorUnique(rows[0].balance * m, pool, rows[0].balance);
      forall i | 0 < i < |rows| ensures Floor(rows[i].balance, m, pool) == rows[i].balance {
        assert rows[i] == rows[1..][i - 1];
      }
    }
  }

  /** Solvency: a loss no larger than the pool costs no account more than it has. */
  lemma SplitIsSolvent(rows: seq<Row>, amount: int, pool: int, k: nat)
    requires Splittable(rows, pool) && k < |Ranked(rows)|
    requires pool + amount >= 0
    ensures var s := Split(rows, amount, pool)[k]; s.balance + s.share >= 0
  {
    var b := Ranked(rows)[k].balance;
    SplitAt(rows, amount, pool, k);
    ExtraToPositive(rows, amount, pool, k);
    if amount >= 0 {
      FloorError(b, amount, pool);
    } else {
      LossCovered(b, -amount, pool);
      if -amount == pool {
        RankedTotal(rows);
        AllOrNothing(Ranked(rows), pool, pool);
      }
    }
  }

  /** The split depends on the set of accounts, not on the order in which they are listed. */
  lemma SplitIgnoresListing(a: seq<Row>, b: seq<Row>, amount: int, pool: int)
    requires DistinctTokens(a) && DistinctTokens(b) && multiset(a) == multiset(b) && pool > 0
    ensures Split(a, amount, pool) == Split(b, amount, pool)
  {
    RankedSorted(a);
    RankedSorted(b);
    RankedPermutes(a);
    RankedPermutes(b);
    SortedIsUnique(Ranked(a), Ranked(b));
  }

  lemma ShareMonotone(a: int, b: int, m: nat, pool: int)
    requires pool > 0 && a <= b
    ensures Floor(a, m, pool) <= Floor(b, m, pool)
  {
    MulMonotone(m, a, b);
    FloorMonotone(a * m, b * m, pool);
  }

  /** The balance in position `k` once its share is booked. */
  function Booked(rows: seq<Row>, amount: int, pool: int, k: nat): int
    requires pool > 0 && k < |Ranked(rows)|
  {
    Split(rows, amount, pool)[k].balance + Split(rows, amount, pool)[k].share
  }

  lemma BookedAt(rows: seq<Row>, amount: int, pool: int, k: nat)
    requires pool > 0 && k < |Ranked(rows)|
    ensures Booked(rows, amount, pool, k) == Ranked(rows)[k].balance
      + Signed(amount, Floor(Ranked(rows)[k].balance, Abs(amount), pool) + Extra(rows, amount, pool, k))
  {
    SplitAt(rows, amount, pool, k);
  }

  /**
   * Order of wealth under a profit: every strict order is kept; equal balances end at
   * most one cent apart, with the lower token not behind.
   */
  lemma ProfitKeepsOrder(rows: seq<Row>, amount: nat, pool: int, i: nat, j: nat)
    requires Splittable(rows, pool) && i < j < |Ranked(rows)|
    ensures var richer, poorer := Booked(rows, amount, pool, i), Booked(rows, amount, pool, j);
      if Ranked(rows)[i].balance > Ranked(rows)[j].balance then richer > poorer
      else Ranked(rows)[i].token < Ranked(rows)[j].token && poorer <= richer <= poorer + 1
  {
    assert Before(Ranked(rows)[i], Ranked(rows)[j]) by {
      RankedSplittable(rows, pool);
    }
    BookedAt(rows, amount, pool, i);
    BookedAt(rows, amount, pool, j);
    ShareMonotone(Ranked(rows)[j].balance, Ranked(rows)[i].balance, amount, pool);
  }

  /** What is left of a balance after a proportional loss grows with the balance. */
  lemma LossMonotone(a: int, b: int, m: nat, pool: int)
    requires 0 <= m <= pool && pool > 0 && 0 <= a <= b
    ensures a - Floor(a, m, pool) <= b - Floor(b, m, pool)
  {
    FloorError(a, m, pool);
    FloorError(b, m, pool);
    var f, g, d := Floor(a, m, pool), Floor(b, m, pool), b - a;
    MulMonotone(d, m, pool);
    assert b * m - a * m == d * m;
    assert pool * (g - f - d) == pool * g - pool * f - pool * d;
    Cancel(pool, g - f - d, 1);
  }

  lemma LossAt(rows: seq<Row>, loss: int, pool: int, k: nat)
    requires pool > 0 && loss > 0 && k < |Ranked(rows)|
    ensures var left := Ranked(rows)[k].balance - Floor(Ranked(rows)[k].balance, loss, pool);
      left - 1 <= Booked(rows, -loss, pool, k) <= left
  {
    hide Ranked, Split, Floor, Missing, Booked;
    BookedAt(rows, -loss, pool, k);
  }

  lemma NothingAt(rows: seq<Row>, pool: int, k: nat)
    requires pool > 0 && k < |Ranked(rows)|
    ensures Ranked(rows)[k].balance <= Booked(rows, 0, pool, k) <= Ranked(rows)[k].balance + 1
  {
    hide Ranked, Split, Missing, Booked;
    BookedAt(rows, 0, pool, k);
    FloorUnique(0, pool, 0);
  }

  lemma RicherFirst(rows: seq<Row>, pool: int, i: nat, j: nat)
    requires Splittable(rows, pool) && i < j < |Ranked(rows)|
    ensures pool > 0 && 0 <= Ranked(rows)[j].balance <= Ranked(rows)[i].balance
  {
    RankedSplittable(rows, pool);
    hide Ranked;
    assert Before(Ranked(rows)[i], Ranked(rows)[j]);
  }

  /** Order of wealth under a loss no larger than the pool: no pair inverts by more than one cent. */
  lemma LossKeepsOrder(rows: seq<Row>, loss: int, pool: int, i: nat, j: nat)
    requires Splittable(rows, pool) && i < j < |Ranked(rows)|
    requires 0 <= loss <= pool
    ensures Booked(rows, -loss, pool, i) >= Booked(rows, -loss, pool, j) - 1
  {
    hide *;
    RicherFirst(rows, pool, i, j);
    if loss == 0 {
      NothingAt(rows, pool, i);
      NothingAt(rows, pool, j);
    } else {
      LossAt(rows, loss, pool, i);
      LossAt(rows, loss, pool, j);
      LossMonotone(Ranked(rows)[j].balance, Ranked(rows)[i].balance, loss, pool);
    }
  }

  // ---------------------------------------------------------------- The loops

  function RowOf(s: Share): Row { Row(s.tokenId, s.balance) }

  function InsertShare(s: Share, shares: seq<Share>): seq<Share> {
    if shares == [] then [s]
    else if Before(RowOf(s), RowOf(shares[0])) then [s] + shares
    else [shares[0]] + InsertShare(s, shares[1..])
  }

  /** `shares.sort(...)`. */
  function SortShares(shares: seq<Share>): seq<Share> {
    if shares == [] then [] else InsertShare(shares[0], SortShares(shares[1..]))
  }

  /** The share of a row before any remainder is handed out. */
  function Truncated(r: Row, amount: int, pool: int): Share
    requires pool > 0
  {
    Share(r.token, TruncDiv(r.balance * amount, pool), r.balance)
  }

  function TruncatedAll(rows: seq<Row>, amount: int, pool: int): (shares: seq<Share>)
    requires pool > 0
    ensures |shares| == |rows|
  {
    if rows == [] then [] else [Truncated(rows[0], amount, pool)] + TruncatedAll(rows[1..], amount, pool)
  }

  lemma {:induction false} TruncatedAt(rows: seq<Row>, amount: int, pool: int, k: nat)
    requires pool > 0 && k < |rows|
    ensures TruncatedAll(rows, amount, pool)[k] == Truncated(rows[k], amount, pool)
  {
    if k == 0 {
    } else {
      TruncatedAt(rows[1..], amount, pool, k - 1);
    }
  }

  lemma {:induction false} TruncatedSnoc(rows: seq<Row>, r: Row, amount: int, pool: int)
    requires pool > 0
    ensures TruncatedAll(rows + [r], amount, pool) == TruncatedAll(rows, amount, pool) + [Truncated(r, amount, pool)]
    ensures FloorTotal(rows + [r], Abs(amount), pool)
         == FloorTotal(rows, Abs(amount), pool) + Floor(r.balance, Abs(amount), pool)
  {
    if rows == [] {
      assert rows + [r] == [r];
    } else {
      assert (rows + [r])[1..] == rows[1..] + [r];
      TruncatedSnoc(rows[1..], r, amount, pool);
    }
  }

  /** Truncation is symmetric: a loss share is the negated profit share. */
  lemma TruncatedIsSigned(r: Row, amount: int, pool: int)
    requires pool > 0 && r.balance >= 0
    ensures Truncated(r, amount, pool).share == Signed(amount, Floor(r.balance, Abs(amount), pool))
  {
    var b := r.balance;
    if amount >= 0 {
      MulMonotone(amount, 0, b);
    } else {
      MulMonotone(-amount, 0, b);
      assert b * amount == -(b * -amount);
      if b * amount == 0 {
        FloorUnique(0, pool, 0);
      }
    }
  }

  lemma {:induction false} InsertTruncated(r: Row, rows: seq<Row>, amount: int, pool: int)
    requires pool > 0
    ensures InsertShare(Truncated(r, amount, pool), TruncatedAll(rows, amount, pool))
         == TruncatedAll(Insert(r, rows), amount, pool)
    ensures FloorTotal(Insert(r, rows), Abs(amount), pool)
         == Floor(r.balance, Abs(amount), pool) + FloorTotal(rows, Abs(amount), pool)
  {
    if rows == [] {
    } else {
      var t := TruncatedAll(rows, amount, pool);
      assert t[1..] == TruncatedAll(rows[1..], amount, pool);
      assert RowOf(t[0]) == rows[0];
      if Before(r, rows[0]) {
        assert ([r] + rows)[1..] == rows;
      } else {
        InsertTruncated(r, rows[1..], amount, pool);
      }
    }
  }

  /** Sorting the truncated shares is truncating the sorted rows. */
  lemma {:induction false} SortTruncated(rows: seq<Row>, amount: int, pool: int)
    requires pool > 0
    ensures SortShares(TruncatedAll(rows, amount, pool)) == TruncatedAll(Ranked(rows), amount, pool)
    ensures FloorTotal(Ranked(rows), Abs(amount), pool) == FloorTotal(rows, Abs(amount), pool)
  {
    if rows == [] {
    } else {
      assert TruncatedAll(rows, amount, pool)[1..] == TruncatedAll(rows[1..], amount, pool);
      SortTruncated(rows[1..], amount, pool);
      InsertTruncated(rows[0], Ranked(rows[1..]), amount, pool);
    }
  }

  /** Step 1 of both distributions: the truncated shares and their sum. */
  method TruncateShares(rows: seq<Row>, amount: int, pool: int) returns (shares: seq<Share>, sumShares: int)
    requires pool > 0 && NonNegative(rows)
    ensures shares == TruncatedAll(rows, amount, pool)
    ensures sumShares == Signed(amount, FloorTotal(rows, Abs(amount), pool))
  {
    shares, sumShares := [], 0;
    for i := 0 to |rows|
      invariant shares == TruncatedAll(rows[..i], amount, pool)
      invariant sumShares == Signed(amount, FloorTotal(rows[..i], Abs(amount), pool))
    {
      var share := TruncDiv(rows[i].balance * amount, pool);
      shares := shares + [Share(rows[i].token, share, rows[i].balance)];
      sumShares := sumShares + share;
      assert rows[..i + 1] == rows[..i] + [rows[i]];
      TruncatedSnoc(rows[..i], rows[i], amount, pool);
      TruncatedIsSigned(rows[i], amount, pool);
    }
    assert rows[..|rows|] == rows;
  }

  /** The working list after `i` cents of remainder have been handed out. */
  ghost predicate HandedOut(shares: seq<Share>, rows: seq<Row>, amount: int, pool: int, i: nat)
    requires pool > 0
  {
    && |shares| == |rows|
    && forall k :: 0 <= k < |rows| ==>
         shares[k] == Share(rows[k].token,
                            Signed(amount, Floor(rows[k].balance, Abs(amount), pool) + (if k < i then 1 else 0)),
                            rows[k].balance)
  }

  /** Sorted truncated shares are the start of the remainder loop. */
  lemma NothingHandedOut(rows: seq<Row>, amount: int, pool: int)
    requires Splittable(rows, pool)
    ensures HandedOut(SortShares(TruncatedAll(rows, amount, pool)), Ranked(rows), amount, pool, 0)
    ensures Missing(Ranked(rows), Abs(amount), pool) == Missing(rows, Abs(amount), pool)
    ensures 0 <= Missing(rows, Abs(amount), pool) <= |Ranked(rows)|
    ensures Missing(rows, Abs(amount), pool) < |Ranked(rows)|
  {
    var r := Ranked(rows);
    SortTruncated(rows, amount, pool);
    RankedSplittable(rows, pool);
    MissingBounds(r, Abs(amount), pool);
    forall k | 0 <= k < |r|
      ensures TruncatedAll(r, amount, pool)[k]
           == Share(r[k].token, Signed(amount, Floor(r[k].balance, Abs(amount), pool)), r[k].balance)
    {
      TruncatedAt(r, amount, pool, k);
      TruncatedIsSigned(r[k], amount, pool);
    }
  }

  lemma AllHandedOut(shares: seq<Share>, rows: seq<Row>, amount: int, pool: int)
    requires Splittable(rows, pool)
    requires Missing(Ranked(rows), Abs(amount), pool) >= 0
    requires HandedOut(shares, Ranked(rows), amount, pool, Missing(Ranked(rows), Abs(amount), pool))
    ensures shares == Split(rows, amount, pool)
  {
    forall k | 0 <= k < |shares| ensures shares[k] == Split(rows, amount, pool)[k] {
      SplitAt(rows, amount, pool, k);
    }
  }

  /** One round of the remainder loop: the next account in order of wealth gets a cent. */
  lemma HandOutOne(shares: seq<Share>, rows: seq<Row>, amount: int, pool: int, i: nat, direction: int)
    requires pool > 0 && i < |rows| && HandedOut(shares, rows, amount, pool, i)
    requires direction == Signed(amount, 1)
    ensures i % |shares| == i
    ensures HandedOut(shares[i := shares[i].(share := shares[i].share + direction)], rows, amount, pool, i + 1)
  {
    hide Floor;
    SmallModulo(i, |shares|);
  }

  /** The trade split: the loop runs in the direction of the P&L until nothing remains. */
  method SplitTrade(rows: seq<Row>, pnl: int, pool: int) returns (shares: seq<Share>)
    requires Splittable(rows, pool) && pnl != 0
    ensures shares == Split(rows, pnl, pool)
  {
    var sumShares;
    shares, sumShares := TruncateShares(rows, pnl, pool);
    var remainder := pnl - sumShares;
    shares := SortShares(shares);
    NothingHandedOut(rows, pnl, pool);
    var direction := if pnl > 0 then 1 else -1;
    ghost var missing := Missing(rows, Abs(pnl), pool);
    var i := 0;
    while remainder != 0
      invariant 0 <= i <= missing < |shares| == |Ranked(rows)|
      invariant remainder == Signed(pnl, missing - i)
      invariant HandedOut(shares, Ranked(rows), pnl, pool, i)
      decreases Abs(remainder)
    {
      HandOutOne(shares, Ranked(rows), pnl, pool, i, direction);
      var k := i % |shares|;
      shares := shares[k := shares[k].(share := shares[k].share + direction)];
      remainder := remainder - direction;
      i := i + 1;
    }
    AllHandedOut(shares, rows, pnl, pool);
  }

  /** The fee split: the loop stops as soon as the remainder is not positive. */
  method SplitFee(rows: seq<Row>, fee: nat, pool: int) returns (shares: seq<Share>)
    requires Splittable(rows, pool)
    ensures shares == Split(rows, fee, pool)
  {
    var sumShares;
    shares, sumShares := TruncateShares(rows, fee, pool);
    var remainder := fee - sumShares;
    shares := SortShares(shares);
    NothingHandedOut(rows, fee, pool);
    ghost var missing := Missing(rows, fee, pool);
    var i := 0;
    while remainder > 0
      invariant 0 <= i <= missing < |shares| == |Ranked(rows)|
      invariant remainder == missing - i
      invariant HandedOut(shares, Ranked(rows), fee, pool, i)
    {
      HandOutOne(shares, Ranked(rows), fee, pool, i, 1);
      var k := i % |shares|;
      shares := shares[k := shares[k].(share := shares[k].share + 1)];
      remainder := remainder - 1;
      i := i + 1;
    }
    AllHandedOut(shares, rows, fee, pool);
  }
}
