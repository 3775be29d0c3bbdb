/** Facts about products and Euclidean division used by the index arithmetic of the mask. */
module Arith {

  lemma MulStep(c: nat, b: nat)
    requires c > 0
    ensures (c - 1) * b + b == c * b
  {
  }

  lemma MulMono(a: nat, c: nat, b: nat)
    requires a <= c
    ensures a * b <= c * b
    decreases c - a
  {
    if a < c {
      MulMono(a, c - 1, b);
      MulStep(c, b);
    }
  }

  /** Division and remainder are fixed by any q, m with x == q * b + m and 0 <= m < b. */
  lemma DivModUnique(x: nat, b: nat, q: nat, m: nat)
    requires 0 <= m < b
    requires x == q * b + m
    ensures x / b == q && x % b == m
  {
    var q', m' := x / b, x % b;
    assert x == q' * b + m';
    if q' < q {
      MulMono(q' + 1, q, b);
      MulStep(q' + 1, b);
      assert false;
    } else if q' > q {
      MulMono(q + 1, q', b);
      MulStep(q + 1, b);
      assert false;
    }
  }

  lemma DivMono(x: nat, y: nat, b: nat)
    requires b > 0 && x <= y
    ensures x / b <= y / b
  {
    var qx, qy := x / b, y / b;
    MulStep(qy + 1, b);
    MulCancelLt(qx, qy + 1, b);
  }

  lemma MulCancelLt(a: nat, c: nat, b: nat)
    requires a * b < c * b
    ensures a < c
  {
    if a >= c {
      MulMono(c, a, b);
      assert false;
    }
  }

  /** Counting on by one wraps the remainder round to zero at the modulus. */
  lemma ModNext(x: nat, n: nat)
    requires n >= 1
    ensures (x + 1) % n == if x % n == n - 1 then 0 else x % n + 1
  {
    var q, r := x / n, x % n;
    if r == n - 1 {
      MulStep(q + 1, n);
      DivModUnique(x + 1, n, q + 1, 0);
    } else {
      DivModUnique(x + 1, n, q, r + 1);
    }
  }

  /**
   * Counting from m in cycles of n, the cycle that position i lies in starts
   * at i - (i - m) % n, no more than n - 1 positions back.
   */
  lemma CycleStart(i: nat, m: nat, n: nat)
    requires n >= 1 && m <= i
    ensures var k := i - (i - m) % n; m <= k <= i && (k - m) % n == 0 && i - k < n
  {
    var x := i - m;
    var k := i - x % n;
    assert k - m == x - x % n;
    DivModUnique(x - x % n, n, x / n, 0);
  }
}
