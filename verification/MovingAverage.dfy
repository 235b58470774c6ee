/** The exponential moving average that serves as the baseline of a metric. */
module MovingAverage {
  import opened Wrappers
  import opened Reals
  import Seqs

  /** The average of all values seen, the oldest first. */
  function Ema(alpha: real, xs: seq<real>): real
    requires xs != []
  {
    if |xs| == 1 then xs[0]
    else var before := Ema(alpha, xs[..|xs| - 1]); before + alpha * (xs[|xs| - 1] - before)
  }

  class ExponentialMovingAverage {
    const alpha: real
    var oldValue: Option<real>
    ghost var seen: seq<real>

    ghost predicate Valid()
      reads this
    {
      oldValue == if seen == [] then None else Some(Ema(alpha, seen))
    }

    constructor (alpha: real)
      ensures Valid() && this.alpha == alpha && seen == []
    {
      this.alpha, oldValue, seen := alpha, None, [];
    }

    method Average(value: real) returns (r: real)
      requires Valid()
      modifies this
      ensures Valid() && seen == old(seen) + [value] && r == Ema(alpha, seen)
      ensures if old(oldValue) == None then r == value
              else r == old(oldValue).value + alpha * (value - old(oldValue).value)
    {
      NextAverage(alpha, seen, value);
      if oldValue == None {
        r := value;
      } else {
        r := oldValue.value + alpha * (value - oldValue.value);
      }
      oldValue := Some(r);
      seen := seen + [value];
    }
  }

  lemma NextAverage(alpha: real, xs: seq<real>, x: real)
    ensures Ema(alpha, xs + [x]) ==
      if xs == [] then x else Ema(alpha, xs) + alpha * (x - Ema(alpha, xs))
  {
    Seqs.Snoc(xs, x);
  }

  ghost predicate Within(xs: seq<real>, lo: real, hi: real) {
    forall i :: 0 <= i < |xs| ==> lo <= xs[i] <= hi
  }

  lemma Convex(x: real, y: real, alpha: real, lo: real, hi: real)
    requires 0.0 <= alpha <= 1.0 && lo <= x <= hi && lo <= y <= hi
    ensures lo <= x + alpha * (y - x) <= hi
  {
    var u := alpha * (y - x);
    if x <= y {
      var v := Fraction(alpha, y - x);
      assert u == v;
    } else {
      var v := Fraction(alpha, x - y);
      assert u == -v;
    }
    assert lo <= x + u <= hi;
  }

  /** The average stays between any bounds of the values. */
  lemma {:induction false} EmaWithin(alpha: real, xs: seq<real>, lo: real, hi: real)
    requires xs != [] && 0.0 <= alpha <= 1.0 && Within(xs, lo, hi)
    ensures lo <= Ema(alpha, xs) <= hi
  {
    if |xs| > 1 {
      var n := |xs| - 1;
      EmaWithin(alpha, xs[..n], lo, hi);
      Convex(Ema(alpha, xs[..n]), xs[n], alpha, lo, hi);
    }
  }

  /** Averaging the first value twice is averaging it once. */
  lemma {:induction false} FirstTwice(alpha: real, x: real, xs: seq<real>)
    ensures Ema(alpha, [x, x] + xs) == Ema(alpha, [x] + xs)
  {
    if xs == [] {
      Seqs.NilRight([x, x]);
      Seqs.NilRight([x]);
      assert [x, x][..1] == [x];
    } else {
      var n := |xs| - 1;
      FirstTwice(alpha, x, xs[..n]);
      assert ([x, x] + xs)[..n + 2] == [x, x] + xs[..n];
      assert ([x] + xs)[..n + 1] == [x] + xs[..n];
    }
  }

  // ---------- a level shift ----------

  function Pow2(n: nat): (p: real)
    ensures p >= 1.0
  {
    if n == 0 then 1.0 else 2.0 * Pow2(n - 1)
  }

  lemma {:induction false} Pow2Grows(n: nat)
    ensures Pow2(n) >= n as real + 1.0
  {
    if n > 0 {
      Pow2Grows(n - 1);
    }
  }

  /** What is left of `d` after it has been halved m times. */
  function Halved(d: real, m: nat): real {
    if m == 0 then d else Halved(d, m - 1) / 2.0
  }

  lemma {:induction false} HalvedIsQuotient(d: real, m: nat)
    ensures Halved(d, m) * Pow2(m) == d
    ensures Halved(d, m) == d / Pow2(m)
  {
    if m > 0 {
      HalvedIsQuotient(d, m - 1);
      var h, p := Halved(d, m - 1), Pow2(m - 1);
      assert (h / 2.0) * (2.0 * p) == h * p;
    }
    QuotientUnique(Halved(d, m), Pow2(m), d);
  }

  lemma QuotientUnique(q: real, p: real, d: real)
    requires p > 0.0 && q * p == d
    ensures q == d / p
  {
  }

  lemma {:induction false} HalvedShrinks(d: real, m: nat)
    requires d > 0.0
    ensures 0.0 < Halved(d, m + 1) < Halved(d, m)
  {
    if m > 0 {
      HalvedShrinks(d, m - 1);
    }
  }

  function Repeat(x: real, n: nat): (xs: seq<real>)
    ensures |xs| == n
  {
    seq(n, _ => x)
  }

  lemma {:induction false} EmaOfConstant(a: real, n: nat)
    requires n >= 1
    ensures Ema(0.5, Repeat(a, n)) == a
  {
    if n > 1 {
      assert Repeat(a, n)[..n - 1] == Repeat(a, n - 1);
      EmaOfConstant(a, n - 1);
    }
  }

  /** After n values equal to `a` and m equal to `b` the average has covered all but the
      2^m-th part of the way from `a` to `b`. */
  lemma {:induction false} EmaOfShift(a: real, b: real, n: nat, m: nat)
    requires n >= 1
    ensures Ema(0.5, Repeat(a, n) + Repeat(b, m)) == b - Halved(b - a, m)
  {
    var xs := Repeat(a, n) + Repeat(b, m);
    if m == 0 {
      assert xs == Repeat(a, n);
      EmaOfConstant(a, n);
    } else {
      assert xs[..|xs| - 1] == Repeat(a, n) + Repeat(b, m - 1);
      EmaOfShift(a, b, n, m - 1);
    }
  }
}
