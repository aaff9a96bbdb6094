/** The bitwise CRC-8 of `quantum/crc.c` (polynomial 0x31, initial value 0xFF). */
module Crc8 {

  /** One round of the inner loop. */
  function Shift(crc: bv8): bv8 {
    if crc & 0x80 != 0 then (crc << 1) ^ 0x31 else crc << 1
  }

  function ShiftN(crc: bv8, n: nat): bv8 {
    if n == 0 then crc else Shift(ShiftN(crc, n - 1))
  }

  /** One byte of the message. */
  function Absorb(crc: bv8, d: bv8): bv8 {
    ShiftN(crc ^ d, 8)
  }

  /** The register after the message, starting from `crc`. */
  function Feed(crc: bv8, data: seq<bv8>): bv8 {
    if data == [] then crc else Absorb(Feed(crc, data[..|data| - 1]), data[|data| - 1])
  }

  function Crc(data: seq<bv8>): bv8 {
    Feed(0xFF, data)
  }

  method ComputeCrc8(data: seq<bv8>) returns (crc: bv8)
    ensures crc == Crc(data)
  {
    crc := 0xFF;
    for i := 0 to |data|
      invariant crc == Feed(0xFF, data[..i])
    {
      ghost var before := crc;
      crc := crc ^ data[i];
      for j := 0 to 8
        invariant crc == ShiftN(before ^ data[i], j)
      {
        if crc & 0x80 != 0 {
          crc := (crc << 1) ^ 0x31;
        } else {
          crc := crc << 1;
        }
      }
      assert data[..i + 1][..i] == data[..i];
    }
    assert data[..|data|] == data;
  }

  /** `crc_t` may be any unsigned type of at least 8 bits; this is the same loop on 32 bits, never masked. */
  function WideShift(crc: bv32): bv32 {
    if crc & 0x80 != 0 then (crc << 1) ^ 0x31 else crc << 1
  }

  function WideFeed(crc: bv32, data: seq<bv8>): bv32 {
    if data == [] then crc
    else WideShiftN(WideFeed(crc, data[..|data| - 1]) ^ (data[|data| - 1] as bv32), 8)
  }

  function WideShiftN(crc: bv32, n: nat): bv32 {
    if n == 0 then crc else WideShift(WideShiftN(crc, n - 1))
  }

  function Low(crc: bv32): bv8 {
    (crc & 0xFF) as bv8
  }

  // ---------------------------------------------------------------- rounds

  lemma ShiftInjective(x: bv8, y: bv8)
    ensures Shift(x) == Shift(y) <==> x == y
  {
  }

  lemma {:induction false} ShiftNInjective(x: bv8, y: bv8, n: nat)
    ensures ShiftN(x, n) == ShiftN(y, n) <==> x == y
  {
    if n > 0 {
      ShiftInjective(ShiftN(x, n - 1), ShiftN(y, n - 1));
      ShiftNInjective(x, y, n - 1);
    }
  }

  lemma {:induction false} ShiftNZero(n: nat)
    ensures ShiftN(0, n) == 0
  {
    if n > 0 {
      ShiftNZero(n - 1);
    }
  }

  /** For a fixed byte each step is a bijection on the register, and for a fixed register one on the byte. */
  lemma AbsorbInjective(x: bv8, y: bv8, d: bv8, e: bv8)
    ensures Absorb(x, d) == Absorb(y, d) <==> x == y
    ensures Absorb(x, d) == Absorb(x, e) <==> d == e
  {
    ShiftNInjective(x ^ d, y ^ d, 8);
    ShiftNInjective(x ^ d, x ^ e, 8);
    XorInjective(x, y, d);
    XorInjective(d, e, x);
  }

  lemma XorInjective(x: bv8, y: bv8, d: bv8)
    ensures x ^ d == y ^ d <==> x == y
    ensures d ^ x == d ^ y <==> x == y
  {
  }

  /** Different registers stay different whatever message follows. */
  lemma {:induction false} FeedInjective(x: bv8, y: bv8, data: seq<bv8>)
    ensures Feed(x, data) == Feed(y, data) <==> x == y
  {
    if data != [] {
      var rest, d := data[..|data| - 1], data[|data| - 1];
      FeedInjective(x, y, rest);
      AbsorbInjective(Feed(x, rest), Feed(y, rest), d, d);
    }
  }

  lemma {:induction false} FeedConcat(x: bv8, a: seq<bv8>, b: seq<bv8>)
    ensures Feed(x, a + b) == Feed(Feed(x, a), b)
  {
    if b == [] {
      assert a + b == a;
    } else {
      FeedConcat(x, a, b[..|b| - 1]);
      assert (a + b)[..|a + b| - 1] == a + b[..|b| - 1];
    }
  }

  // ---------------------------------------------------------------- what the checksum is for

  /** Changing any single byte of a message, to anything else, changes its CRC. */
  lemma SingleByteErrorDetected(data: seq<bv8>, i: nat, d: bv8)
    requires i < |data|
    ensures Crc(data[i := d]) == Crc(data) <==> d == data[i]
  {
    var a, b := data[..i], data[i + 1..];
    assert data == (a + [data[i]]) + b;
    assert data[i := d] == (a + [d]) + b;
    FeedConcat(0xFF, a + [data[i]], b);
    FeedConcat(0xFF, a + [d], b);
    AppendOne(a, data[i]);
    AppendOne(a, d);
    FeedInjective(Crc(a + [data[i]]), Crc(a + [d]), b);
    AbsorbInjective(Crc(a), Crc(a), data[i], d);
  }

  lemma AppendOne(a: seq<bv8>, d: bv8)
    ensures Crc(a + [d]) == Absorb(Crc(a), d)
  {
    assert (a + [d])[..|a + [d]| - 1] == a;
  }

  /** A message followed by a check byte has CRC 0 exactly when the check byte is the message's CRC. */
  lemma CheckByteIff(data: seq<bv8>, check: bv8)
    ensures Crc(data + [check]) == 0 <==> check == Crc(data)
  {
    AppendOne(data, check);
    ShiftNZero(8);
    ShiftNInjective(Crc(data) ^ check, 0, 8);
    XorIsZero(Crc(data), check);
  }

  lemma XorIsZero(x: bv8, y: bv8)
    ensures x ^ y == 0 <==> x == y
  {
  }

  // ---------------------------------------------------------------- wider registers

  lemma WideShiftLow(x: bv32)
    ensures Low(WideShift(x)) == Shift(Low(x))
  {
  }

  lemma WideXorLow(x: bv32, d: bv8)
    ensures Low(x ^ (d as bv32)) == Low(x) ^ d
  {
  }

  lemma {:induction false} WideShiftNLow(x: bv32, n: nat)
    ensures Low(WideShiftN(x, n)) == ShiftN(Low(x), n)
  {
    if n > 0 {
      WideShiftNLow(x, n - 1);
      WideShiftLow(WideShiftN(x, n - 1));
    }
  }

  /** Whatever collects in the upper bits of a wider register, the byte returned is the same. */
  lemma {:induction false} WideSameCrc(x: bv32, data: seq<bv8>)
    ensures Low(WideFeed(x, data)) == Feed(Low(x), data)
  {
    if data != [] {
      var rest, d := data[..|data| - 1], data[|data| - 1];
      WideSameCrc(x, rest);
      WideXorLow(WideFeed(x, rest), d);
      WideShiftNLow(WideFeed(x, rest) ^ (d as bv32), 8);
    }
  }

  // ---------------------------------------------------------------- as division of polynomials

  /**
   One step of dividing a polynomial of degree below 16 by x^8 + x^5 + x^4 + 1, over two elements:
   if the term of degree 15 - k is there, the divisor is subtracted from it.
   */
  function DivideAt(v: bv16, k: nat): bv16
    requires k < 8
  {
    var divisor: bv16 := 0x9880;
    if v & (0x8000 >> k) != 0 then v ^ (divisor >> k) else v
  }

  /** The first `k` steps; after eight of them the remainder is left. */
  function Divided(v: bv16, k: nat): bv16
    requires k <= 8
  {
    if k == 0 then v else DivideAt(Divided(v, k - 1), k - 1)
  }

  /** The register after `k` shifts, where the division has it. */
  function Scaled(u: bv8, k: nat): bv16
    requires k <= 8
  {
    (u as bv16) << (8 - k)
  }

  lemma DivisionBits(u: bv8, k: nat)
    requires k < 8
    ensures var v: bv16 := (u as bv16) << (8 - k);
      (if v & (0x8000 >> k) != 0 then v ^ (0x9880 >> k) else v) == (Shift(u) as bv16) << (7 - k)
  {
    if k == 0 {
    } else if k == 1 {
    } else if k == 2 {
    } else if k == 3 {
    } else if k == 4 {
    } else if k == 5 {
    } else if k == 6 {
    } else {
      assert k == 7;
    }
  }

  lemma DivisionStep(u: bv8, k: nat)
    requires k < 8
    ensures DivideAt(Scaled(u, k), k) == Scaled(Shift(u), k + 1)
  {
    DivisionBits(u, k);
  }

  lemma {:induction false} DivisionSteps(x: bv8, k: nat)
    requires k <= 8
    ensures Divided(Scaled(x, 0), k) == Scaled(ShiftN(x, k), k)
  {
    if k > 0 {
      DivisionSteps(x, k - 1);
      DivisionStep(ShiftN(x, k - 1), k - 1);
    }
  }

  /** One byte of the message: register and byte together, times x^8, divided by the polynomial. */
  lemma AbsorbIsDivision(crc: bv8, d: bv8)
    ensures Absorb(crc, d) as bv16 == Divided(((crc ^ d) as bv16) << 8, 8)
  {
    DivisionSteps(crc ^ d, 8);
    Unscaled(crc ^ d, ShiftN(crc ^ d, 8));
  }

  lemma Unscaled(x: bv8, u: bv8)
    ensures Scaled(x, 0) == (x as bv16) << 8 && Scaled(u, 8) == u as bv16
  {
  }

  /** The register starts full of ones, and is divided on byte by byte. */
  lemma CrcIsDivision(data: seq<bv8>)
    ensures Crc([]) == 0xFF
    ensures data != [] ==>
      var n := |data| - 1;
      Crc(data) as bv16 == Divided(((Crc(data[..n]) ^ data[n]) as bv16) << 8, 8)
  {
    if data != [] {
      AbsorbIsDivision(Crc(data[..|data| - 1]), data[|data| - 1]);
    }
  }
}
