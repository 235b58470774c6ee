/** Products of reals. Each is given a name of its own, so that it counts as one number. */
module Reals {
  lemma Product(x: real, y: real) returns (p: real)
    requires x >= 0.0 && y >= 0.0
    ensures p == x * y && p >= 0.0 && (x > 0.0 && y > 0.0 ==> p > 0.0)
  {
    p := x * y;
  }

  /** Multiplying by a non-negative number keeps the order. */
  lemma Scale(c: real, x: real, y: real) returns (cx: real, cy: real)
    requires c >= 0.0 && x <= y
    ensures cx == c * x && cy == c * y && cx <= cy && (c > 0.0 && x < y ==> cx < cy)
  {
    var p := Product(c, y - x);
    cx, cy := c * x, c * y;
    assert cy - cx == p;
  }

  /** A fraction of a length. */
  lemma Fraction(alpha: real, d: real) returns (u: real)
    requires 0.0 <= alpha <= 1.0 && d >= 0.0
    ensures u == alpha * d && 0.0 <= u <= d
  {
    u := Product(alpha, d);
    var w := Product(1.0 - alpha, d);
    assert u + w == d;
  }
}
