/** Products of sizes as addresses: what the solver will not work out about them by itself. */
module Radix {

  /** A block of `n` numbers for each digit: the blocks follow each other. */
  lemma {:induction false} Blocks(a: nat, c: nat, n: nat)
    requires a < c
    ensures a * n + n <= c * n
    decreases c - a
  {
    if a + 1 < c {
      Blocks(a + 1, c, n);
    }
    assert (a + 1) * n == a * n + n;
  }

  /** `a * n + b` with `b < n` determines `a` and `b`. */
  lemma MixedRadix(a: nat, b: nat, c: nat, d: nat, n: nat)
    requires b < n && d < n && a * n + b == c * n + d
    ensures a == c && b == d
  {
    if a < c {
      Blocks(a, c, n);
    }
    if c < a {
      Blocks(c, a, n);
    }
  }

  /** Digit `a` below `m` and digit `b` below `n` stay below `m * n`. */
  lemma InRange(a: nat, b: nat, m: nat, n: nat)
    requires a < m && b < n
    ensures a * n + b < m * n
  {
    Blocks(a, m, n);
  }
}
