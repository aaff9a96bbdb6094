/** Unsigned words of any width as naturals, with the C bit operators defined digit by digit. */
module Bits {

  predicate Bit(x: nat, i: nat) {
    if i == 0 then x % 2 == 1 else Bit(x / 2, i - 1)
  }

  /** `1 << i` */
  function Pow2(i: nat): (p: nat)
    ensures p > 0
  {
    if i == 0 then 1 else 2 * Pow2(i - 1)
  }

  /** `x << k` */
  function Shl(x: nat, k: nat): nat {
    if k == 0 then x else 2 * Shl(x, k - 1)
  }

  function And(x: nat, y: nat): nat {
    if x == 0 || y == 0 then 0
    else 2 * And(x / 2, y / 2) + (if x % 2 == 1 && y % 2 == 1 then 1 else 0)
  }

  function Or(x: nat, y: nat): nat
    decreases x + y
  {
    if x == 0 && y == 0 then 0
    else 2 * Or(x / 2, y / 2) + (if x % 2 == 1 || y % 2 == 1 then 1 else 0)
  }

  function Xor(x: nat, y: nat): nat
    decreases x + y
  {
    if x == 0 && y == 0 then 0
    else 2 * Xor(x / 2, y / 2) + (if x % 2 != y % 2 then 1 else 0)
  }

  lemma {:induction false} BitZero(i: nat)
    ensures !Bit(0, i)
  {
    if i > 0 {
      BitZero(i - 1);
    }
  }

  lemma {:induction false} BitAnd(x: nat, y: nat, i: nat)
    ensures Bit(And(x, y), i) <==> Bit(x, i) && Bit(y, i)
  {
    if x == 0 || y == 0 {
      BitZero(i);
    } else if i > 0 {
      BitAnd(x / 2, y / 2, i - 1);
    }
  }

  lemma {:induction false} BitOr(x: nat, y: nat, i: nat)
    ensures Bit(Or(x, y), i) <==> Bit(x, i) || Bit(y, i)
  {
    if x == 0 && y == 0 {
      BitZero(i);
    } else if i > 0 {
      BitOr(x / 2, y / 2, i - 1);
    }
  }

  lemma {:induction false} BitXor(x: nat, y: nat, i: nat)
    ensures Bit(Xor(x, y), i) <==> Bit(x, i) != Bit(y, i)
  {
    if x == 0 && y == 0 {
      BitZero(i);
    } else if i > 0 {
      BitXor(x / 2, y / 2, i - 1);
    }
  }

  lemma {:induction false} BitPow2(j: nat, i: nat)
    ensures Bit(Pow2(j), i) <==> i == j
  {
    if i > 0 {
      if j == 0 {
        BitZero(i - 1);
      } else {
        BitPow2(j - 1, i - 1);
      }
    }
  }

  /** The index of some set bit: the lowest. */
  function Lowest(x: nat): nat
    requires x != 0
  {
    if x % 2 == 1 then 0 else 1 + Lowest(x / 2)
  }

  lemma {:induction false} LowestIsSet(x: nat)
    requires x != 0
    ensures Bit(x, Lowest(x))
  {
    if x % 2 == 0 {
      LowestIsSet(x / 2);
    }
  }

  /** Words with the same bits are the same word. */
  lemma {:induction false} SameBits(x: nat, y: nat)
    requires forall i: nat :: Bit(x, i) == Bit(y, i)
    ensures x == y
    decreases x + y
  {
    assert Bit(x, 0) == Bit(y, 0);
    if x == 0 && y == 0 {
    } else {
      forall i: nat ensures Bit(x / 2, i) == Bit(y / 2, i) {
        assert Bit(x, i + 1) == Bit(y, i + 1);
      }
      SameBits(x / 2, y / 2);
    }
  }

  /** The test `x & (1 << i)`. */
  lemma MaskTest(x: nat, i: nat)
    ensures And(x, Pow2(i)) != 0 <==> Bit(x, i)
  {
    var m := And(x, Pow2(i));
    if m != 0 {
      LowestIsSet(m);
      BitAnd(x, Pow2(i), Lowest(m));
      BitPow2(i, Lowest(m));
    }
    BitZero(i);
    BitAnd(x, Pow2(i), i);
    BitPow2(i, i);
  }

  /** `x & (x - 1)` clears exactly the lowest set bit. */
  lemma {:induction false} ClearLowest(x: nat, i: nat)
    requires x != 0
    ensures Bit(And(x, x - 1), i) <==> Bit(x, i) && i != Lowest(x)
  {
    BitAnd(x, x - 1, i);
    if x % 2 == 1 {
      assert (x - 1) / 2 == x / 2;
    } else {
      assert (x - 1) / 2 == x / 2 - 1;
      if i > 0 {
        ClearLowest(x / 2, i - 1);
        BitAnd(x / 2, x / 2 - 1, i - 1);
      }
    }
  }

  ghost predicate TwoBits(x: nat) {
    exists i: nat, j: nat :: i != j && Bit(x, i) && Bit(x, j)
  }

  /** `popcount_more_than_one`; for zero the unsigned `x - 1` wraps, and the conjunction is zero anyway. */
  predicate MoreThanOne(x: nat) {
    x != 0 && And(x, x - 1) != 0
  }

  lemma MoreThanOneIff(x: nat)
    ensures MoreThanOne(x) <==> TwoBits(x)
  {
    if MoreThanOne(x) {
      var rest := And(x, x - 1);
      LowestIsSet(x);
      LowestIsSet(rest);
      ClearLowest(x, Lowest(rest));
      assert Bit(x, Lowest(rest)) && Lowest(rest) != Lowest(x);
    }
    if TwoBits(x) {
      var i: nat, j: nat :| i != j && Bit(x, i) && Bit(x, j);
      BitZero(i);
      var k := if i == Lowest(x) then j else i;
      ClearLowest(x, k);
      BitZero(k);
    }
  }

  /** The word with bits 0 to `n - 1` set. */
  function Ones(n: nat): nat {
    if n == 0 then 0 else 2 * Ones(n - 1) + 1
  }

  lemma {:induction false} BitOnes(n: nat, i: nat)
    ensures Bit(Ones(n), i) <==> i < n
  {
    if n == 0 {
      BitZero(i);
    } else if i > 0 {
      BitOnes(n - 1, i - 1);
    }
  }

  /** A number below `2^n` has no bit from `n` on. */
  lemma {:induction false} SmallBits(x: nat, n: nat, b: nat)
    requires x < Pow2(n) && b >= n
    ensures !Bit(x, b)
  {
    if n == 0 {
      BitZero(b);
    } else {
      SmallBits(x / 2, n - 1, b - 1);
    }
  }

  /** The bits of `x << k`. */
  lemma {:induction false} BitShifted(x: nat, k: nat, i: nat)
    ensures Bit(Shl(x, k), i) <==> i >= k && Bit(x, i - k)
  {
    if k > 0 && i > 0 {
      BitShifted(x, k - 1, i - 1);
    }
  }

  /** Fields that do not overlap are put together by `|` as by `+`. */
  lemma {:induction false} OrIsSum(x: nat, k: nat, y: nat)
    requires y < Pow2(k)
    ensures Or(x * Pow2(k), y) == x * Pow2(k) + y
  {
    if k == 0 {
      OrZero(x);
    } else {
      assert x * Pow2(k) == 2 * (x * Pow2(k - 1));
      OrIsSum(x, k - 1, y / 2);
    }
  }

  lemma {:induction false} OrZero(x: nat)
    ensures Or(x, 0) == x
  {
    if x > 0 {
      OrZero(x / 2);
    }
  }
}
