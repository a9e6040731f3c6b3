// The flag and bit-extraction macros of memory_utilities.h, on unsigned
// values of any width. Shifts of unsigned values are division by and
// multiplication with powers of two; a cast to an unsigned type of w bits
// keeps the value modulo 2^w.

module MemoryUtilities {

  function Pow2(n: nat): (r: nat)
    ensures r >= 1
  {
    if n == 0 then 1 else 2 * Pow2(n - 1)
  }

  /** Bit i of v, counting from the least significant bit 0. */
  function Bit(v: nat, i: nat): nat
  {
    if i == 0 then v % 2 else Bit(v / 2, i - 1)
  }

  /** The unsigned bitwise `a & b`, one bit at a time. */
  function And(a: nat, b: nat): (r: nat)
    ensures r <= a && r <= b
    decreases a
  {
    if a == 0 || b == 0 then 0 else 2 * And(a / 2, b / 2) + (a % 2) * (b % 2)
  }

  /** `OV_CHECK_FLAG(x, flag)`: `(x & flag) == flag`. */
  predicate CheckFlag(x: nat, flag: nat)
  {
    And(x, flag) == flag
  }

  lemma {:induction false} BitOfZero(i: nat)
    ensures Bit(0, i) == 0
  {
    if i > 0 {
      BitOfZero(i - 1);
    }
  }

  /** A non-zero value has a set bit. */
  lemma {:induction false} SomeBitSet(f: nat)
    requires f > 0
    ensures exists i: nat :: Bit(f, i) == 1
    decreases f
  {
    if f % 2 == 1 {
      assert Bit(f, 0) == 1;
    } else {
      SomeBitSet(f / 2);
      var j: nat :| Bit(f / 2, j) == 1;
      assert Bit(f, j + 1) == 1;
    }
  }

  /** Every bit set in flag is also set in x. */
  ghost predicate BitsCovered(x: nat, flag: nat)
  {
    forall i: nat :: Bit(flag, i) == 1 ==> Bit(x, i) == 1
  }

  /** The covering of bits splits into bit 0 and the covering of the remaining bits. */
  lemma BitsCoveredStep(x: nat, flag: nat)
    ensures BitsCovered(x, flag) <==> (flag % 2 == 1 ==> x % 2 == 1) && BitsCovered(x / 2, flag / 2)
  {
    if BitsCovered(x, flag) {
      forall j: nat | Bit(flag / 2, j) == 1
        ensures Bit(x / 2, j) == 1
      {
        assert Bit(flag, j + 1) == 1;
      }
      assert flag % 2 == 1 ==> Bit(flag, 0) == 1;
    }
    if (flag % 2 == 1 ==> x % 2 == 1) && BitsCovered(x / 2, flag / 2) {
      forall i: nat | Bit(flag, i) == 1
        ensures Bit(x, i) == 1
      {
        if i > 0 {
          assert Bit(flag / 2, i - 1) == 1;
        }
      }
    }
  }

  /** `OV_CHECK_FLAG(x, flag)` holds iff every bit of flag is set in x. */
  lemma {:induction false} CheckFlagMeans(x: nat, flag: nat)
    ensures CheckFlag(x, flag) <==> BitsCovered(x, flag)
    decreases x
  {
    BitsCoveredStep(x, flag);
    if flag == 0 {
      forall i: nat
        ensures Bit(flag, i) == 0
      {
        BitOfZero(i);
      }
    } else if x == 0 {
      SomeBitSet(flag);
      var i: nat :| Bit(flag, i) == 1;
      BitOfZero(i);
    } else {
      CheckFlagMeans(x / 2, flag / 2);
      var t := (x % 2) * (flag % 2);
      assert And(x, flag) == 2 * And(x / 2, flag / 2) + t;
      assert flag == 2 * (flag / 2) + flag % 2;
    }
  }

  /** `CheckFlag(x, 0)` always holds: the empty flag is contained in everything. */
  lemma CheckFlagZero(x: nat)
    ensures CheckFlag(x, 0)
  {
  }

  /** `x >> n` on an unsigned value: n halvings. */
  function ShiftRight(x: nat, n: nat): nat
  {
    if n == 0 then x else ShiftRight(x / 2, n - 1)
  }

  /** `x << n` before any truncation: n doublings. */
  function ShiftLeft(x: nat, n: nat): nat
    decreases n
  {
    if n == 0 then x else ShiftLeft(2 * x, n - 1)
  }

  /** The low m bits of x: the cast to an unsigned type of m bits (x mod 2^m). */
  function Low(x: nat, m: nat): nat
  {
    if m == 0 then 0 else 2 * Low(x / 2, m - 1) + x % 2
  }

  /** The low m bits are below 2^m and leave a value below 2^m as it is. */
  lemma {:induction false} LowMeans(x: nat, m: nat)
    ensures Low(x, m) < Pow2(m)
    ensures x < Pow2(m) ==> Low(x, m) == x
  {
    if m > 0 {
      LowMeans(x / 2, m - 1);
    }
  }

  /** Bit j of `x >> n` is bit n+j of x. */
  lemma {:induction false} BitOfShiftRight(x: nat, n: nat, j: nat)
    ensures Bit(ShiftRight(x, n), j) == Bit(x, n + j)
    decreases n
  {
    if n > 0 {
      BitOfShiftRight(x / 2, n - 1, j);
      BitOfHalf(x, n - 1 + j);
    }
  }

  lemma BitOfHalf(x: nat, i: nat)
    ensures Bit(x / 2, i) == Bit(x, i + 1)
  {
  }

  /** Bit j of the low m bits of x is bit j of x below m, and 0 from m on. */
  lemma {:induction false} BitOfLow(x: nat, m: nat, j: nat)
    ensures Bit(Low(x, m), j) == if j < m then Bit(x, j) else 0
  {
    if m == 0 {
      BitOfZero(j);
    } else if j > 0 {
      BitOfLow(x / 2, m - 1, j - 1);
      assert Low(x, m) / 2 == Low(x / 2, m - 1);
    }
  }

  lemma {:induction false} LowOfZero(m: nat)
    ensures Low(0, m) == 0
  {
    if m > 0 {
      LowOfZero(m - 1);
    }
  }

  /** Shifting the low m bits right by n keeps the low m - n bits of the shifted value. */
  lemma {:induction false} ShiftRightLow(x: nat, m: nat, n: nat)
    requires n <= m
    ensures ShiftRight(Low(x, m), n) == Low(ShiftRight(x, n), m - n)
  {
    if n > 0 {
      assert Low(x, m) / 2 == Low(x / 2, m - 1);
      ShiftRightLow(x / 2, m - 1, n - 1);
    }
  }

  /** Truncating a left shift by k to m bits is shifting the low m - k bits. */
  lemma {:induction false} LowShiftLeft(x: nat, k: nat, m: nat)
    requires k <= m
    ensures Low(ShiftLeft(x, k), m) == ShiftLeft(Low(x, m - k), k)
    decreases k
  {
    if k > 0 {
      LowShiftLeft(2 * x, k - 1, m);
      assert Low(2 * x, m - k + 1) == 2 * Low(x, m - k);
    }
  }

  /** A right shift by n undoes a left shift by k <= n and shifts on by n - k. */
  lemma {:induction false} ShiftRightLeft(y: nat, k: nat, n: nat)
    requires k <= n
    ensures ShiftRight(ShiftLeft(y, k), n) == ShiftRight(y, n - k)
    decreases k
  {
    if k > 0 {
      ShiftRightLeft(2 * y, k - 1, n);
    }
  }

  /** Truncating twice keeps the narrower width. */
  lemma {:induction false} LowLow(x: nat, a: nat, b: nat)
    ensures Low(Low(x, a), b) == Low(x, if a < b then a else b)
  {
    if a == 0 {
      LowOfZero(b);
    } else if b > 0 {
      assert Low(x, a) / 2 == Low(x / 2, a - 1) && Low(x, a) % 2 == x % 2;
      LowLow(x / 2, a - 1, b - 1);
    }
  }

  /** `OV_GET_BIT(value, index)`: `(value >> index) & 1`. */
  function GetBit(v: nat, index: nat): nat
  {
    And(ShiftRight(v, index), 1)
  }

  /** `x & 1` is the lowest bit of x. */
  lemma AndOne(x: nat)
    ensures And(x, 1) == x % 2
  {
    if x > 0 {
      assert And(x / 2, 0) == 0;
    }
  }

  /** `OV_GET_BIT(v, i)` is bit i of v, so always 0 or 1. */
  lemma GetBitIsBit(v: nat, index: nat)
    ensures GetBit(v, index) == Bit(v, index)
    ensures GetBit(v, index) == 0 || GetBit(v, index) == 1
  {
    AndOne(ShiftRight(v, index));
    BitOfShiftRight(v, index, 0);
  }

  /** The documented example: `OV_GET_BIT(0b1010, 2) == 0`. */
  lemma GetBitExample()
    ensures GetBit(10, 2) == 0
  {
    GetBitIsBit(10, 2);
    assert Bit(10, 2) == Bit(5, 1) == Bit(2, 0) == 0;
  }

  /**
   * `OV_GET_BITS(T, value, index, count)` for an unsigned T of w bits: cast to
   * T, shift left so that bit index+count-1 becomes the top bit (the cast
   * back to T drops the bits above), then shift right by w - count.
   */
  function GetBits(w: nat, v: nat, index: nat, count: nat): nat
    requires 1 <= count && index + count <= w
  {
    ShiftRight(Low(ShiftLeft(Low(v, w), w - (index + count)), w), w - count)
  }

  /** `OV_GET_BITS(T, v, i, c)` is `(v >> i) mod 2^c`: the c bits of v from bit i on. */
  lemma GetBitsMeans(w: nat, v: nat, index: nat, count: nat)
    requires 1 <= count && index + count <= w
    ensures GetBits(w, v, index, count) == Low(ShiftRight(v, index), count)
  {
    var k := w - (index + count);
    assert Low(ShiftLeft(Low(v, w), k), w) == ShiftLeft(Low(v, index + count), k) by {
      LowShiftLeft(Low(v, w), k, w);
      LowLow(v, w, index + count);
    }
    assert ShiftRight(ShiftLeft(Low(v, index + count), k), w - count) == ShiftRight(Low(v, index + count), index) by {
      ShiftRightLeft(Low(v, index + count), k, w - count);
    }
    assert ShiftRight(Low(v, index + count), index) == Low(ShiftRight(v, index), count) by {
      ShiftRightLow(v, index + count, index);
    }
  }

  /** Bit j of `OV_GET_BITS(T, v, i, c)` is bit i+j of v for j < c, and 0 above. */
  lemma GetBitsBits(w: nat, v: nat, index: nat, count: nat, j: nat)
    requires 1 <= count && index + count <= w
    ensures Bit(GetBits(w, v, index, count), j) == if j < count then Bit(v, index + j) else 0
  {
    GetBitsMeans(w, v, index, count);
    BitOfLow(ShiftRight(v, index), count, j);
    BitOfShiftRight(v, index, j);
  }

  /** The documented example: `OV_GET_BITS(uint8_t, 0b00111100, 5, 2) == 0b01`. */
  lemma GetBitsExample()
    ensures GetBits(8, 60, 5, 2) == 1
  {
    assert Low(60, 8) == 60 by {
      LowMeans(60, 8);
      assert Pow2(8) == 256;
    }
    assert ShiftLeft(60, 1) == 120;
    assert Low(120, 8) == 120 by {
      LowMeans(120, 8);
      assert Pow2(8) == 256;
    }
    assert ShiftRight(3, 1) == 1;
    assert ShiftRight(7, 2) == 1;
    assert ShiftRight(15, 3) == 1;
    assert ShiftRight(30, 4) == 1;
    assert ShiftRight(60, 5) == 1;
    assert ShiftRight(120, 6) == 1;
  }

  /** Extracting one bit with OV_GET_BITS agrees with OV_GET_BIT. */
  lemma GetBitsOneIsGetBit(w: nat, v: nat, index: nat)
    requires index < w
    ensures GetBits(w, v, index, 1) == GetBit(v, index)
  {
    GetBitsMeans(w, v, index, 1);
    AndOne(ShiftRight(v, index));
  }
}
