/** The few facts about quotients and remainders that the models rest on. */
module Arithmetic {
  lemma MulMonotone(a: nat, b: nat, c: nat)
    requires a <= b
    ensures a * c <= b * c
  {
  }

  lemma DivModUnique(k: nat, q: nat, r: nat, d: nat)
    requires r < d && k == q * d + r
    ensures k / d == q && k % d == r
  {
    var q' := k / d;
    assert k == q' * d + k % d;
    assert (q' + 1) * d == q' * d + d && (q + 1) * d == q * d + d;
    if q' < q {
      MulMonotone(q' + 1, q, d);
    } else if q < q' {
      MulMonotone(q + 1, q', d);
    }
  }

  lemma QuotientBelow(k: nat, rows: nat, columns: nat)
    requires k < rows * columns
    ensures columns > 0 && k / columns < rows
  {
    if columns > 0 {
      var q := k / columns;
      assert k == q * columns + k % columns;
      if q >= rows {
        MulMonotone(rows, q, columns);
        assert false;
      }
    }
  }

  lemma CellInRange(i: nat, j: nat, rows: nat, columns: nat)
    requires i < rows && j < columns
    ensures i * columns + j < rows * columns
  {
    MulMonotone(i + 1, rows, columns);
    assert (i + 1) * columns == i * columns + columns;
  }

  function CeilDiv(a: nat, b: nat): nat
    requires b > 0
  {
    (a + b - 1) / b
  }

  /** CeilDiv(a, b) is the least m with a <= m * b. */
  lemma CeilDivIsLeast(a: nat, b: nat, m: nat)
    requires b > 0
    ensures a <= m * b <==> CeilDiv(a, b) <= m
  {
    var c := CeilDiv(a, b);
    assert a + b - 1 == c * b + (a + b - 1) % b;
    if c <= m {
      MulMonotone(c, m, b);
    } else {
      MulMonotone(m + 1, c, b);
      assert (m + 1) * b == m * b + b;
    }
  }

  lemma FloorAndCeil(a: nat, b: nat)
    requires b > 0
    ensures a / b <= CeilDiv(a, b)
    ensures a % b > 0 ==> a / b < CeilDiv(a, b)
    ensures a >= b ==> a / b >= 1
  {
    var q := a / b;
    assert a == q * b + a % b;
    if CeilDiv(a, b) <= q {
      CeilDivIsLeast(a, b, q);
    }
    if q > 0 {
      CeilDivIsLeast(a, b, q - 1);
      assert (q - 1) * b == q * b - b;
    }
  }

  lemma ModOfSum(x: nat, j: nat, m: nat)
    requires m > 0
    ensures (x + j % m) % m == (x + j) % m
  {
    var q := (x + j % m) / m;
    var r := (x + j % m) % m;
    assert x + j % m == q * m + r;
    assert j == (j / m) * m + j % m;
    assert (q + j / m) * m == q * m + (j / m) * m;
    DivModUnique(x + j, q + j / m, r, m);
  }

  lemma ModDistinct(x: nat, a: nat, b: nat, m: nat)
    requires a < b < m
    ensures (x + a) % m != (x + b) % m
  {
    var q := (x + a) / m;
    var r := (x + a) % m;
    assert x + a == q * m + r;
    if r + (b - a) < m {
      DivModUnique(x + b, q, r + (b - a), m);
    } else {
      assert (q + 1) * m == q * m + m;
      DivModUnique(x + b, q + 1, r + (b - a) - m, m);
    }
  }

  lemma ModFacts(j: nat, m: nat)
    requires m > 0
    ensures j % m < m && j % m <= j
    ensures j < m ==> j % m == j
  {
    assert j == (j / m) * m + j % m;
    if j < m {
      DivModUnique(j, 0, j, m);
    }
  }

  lemma Successor(k: nat, m: nat)
    requires m > 0
    ensures k % m + 1 < m ==> (k + 1) / m == k / m && (k + 1) % m == k % m + 1
    ensures k % m + 1 == m ==> (k + 1) / m == k / m + 1 && (k + 1) % m == 0
  {
    var q, r := k / m, k % m;
    assert k == q * m + r;
    if r + 1 < m {
      DivModUnique(k + 1, q, r + 1, m);
    } else {
      assert (q + 1) * m == q * m + m;
      DivModUnique(k + 1, q + 1, 0, m);
    }
  }
}
