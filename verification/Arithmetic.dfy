/** Facts about products and quotients that the split's proofs cite one at a time. */
module Arithmetic {
  lemma MulMonotone(p: int, x: int, y: int)
    requires p >= 0 && x <= y
    ensures p * x <= p * y
  {
  }

  lemma Cancel(p: int, x: int, y: int)
    requires p > 0 && p * x < p * y
    ensures x < y
  {
    if y <= x {
      MulMonotone(p, y, x);
      assert false;
    }
  }

  /** `q` is the floor of `n / d` exactly when the remainder lies in `[0, d)`. */
  lemma FloorBounds(n: int, d: int)
    requires d > 0
    ensures 0 <= n - d * (n / d) < d
  {
  }

  lemma FloorUnique(n: int, d: int, q: int)
    requires d > 0 && 0 <= n - d * q < d
    ensures n / d == q
  {
    FloorBounds(n, d);
    var r := n / d;
    assert d * (q - r) == d * q - d * r;
    assert d * (r - q) == d * r - d * q;
    Cancel(d, q - r, 1);
    Cancel(d, r - q, 1);
  }

  lemma FloorMonotone(x: int, y: int, d: int)
    requires d > 0 && x <= y
    ensures x / d <= y / d
  {
    FloorBounds(x, d);
    FloorBounds(y, d);
    var a, b := x / d, y / d;
    assert d * (a - b) == d * a - d * b;
    Cancel(d, a - b, 1);
  }

  /** `p` errors below `d` add up to fewer than `p` multiples of `d`. */
  lemma CountBelow(e: int, d: int, r: int, p: int)
    requires d > 0 && p > 0 && e == d * r && 0 <= e <= (d - 1) * p
    ensures 0 <= r < p
  {
    Cancel(d, -1, r);
    assert (d - 1) * p == d * p - p;
    Cancel(d, r, p);
  }

  lemma SmallModulo(i: int, n: int)
    requires 0 <= i < n
    ensures i % n == i
  {
  }
}
