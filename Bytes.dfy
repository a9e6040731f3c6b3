// Octets and the fixed-width unsigned integers the media code stores in them.

module Bytes {

  /** An 8-bit unsigned value, C++ `uint8_t`. */
  type byte = x: int | 0 <= x < 256

  const Two16: nat := 0x1_0000
  const Two32: nat := 0x1_0000_0000

  /** The four octets of a 32-bit value in network (big-endian) order. */
  function BigEndian32(v: nat): (r: seq<byte>)
    requires v < Two32
    ensures |r| == 4
  {
    [v / 0x100_0000, (v / 0x1_0000) % 0x100, (v / 0x100) % 0x100, v % 0x100]
  }

  /** The value of four octets read in network (big-endian) order. */
  function ReadBigEndian32(b: seq<byte>): (v: nat)
    requires |b| == 4
    ensures v < Two32
  {
    (b[0] as int) * 0x100_0000 + (b[1] as int) * 0x1_0000 + (b[2] as int) * 0x100 + b[3] as int
  }

  /** Dividing by 2^8 twice is dividing by 2^16. */
  lemma DivideTwice(v: nat)
    ensures (v / 0x100) / 0x100 == v / 0x1_0000
  {
    var q := v / 0x100;
    assert v == q * 0x100 + v % 0x100;
    assert q == (q / 0x100) * 0x100 + q % 0x100;
    assert v == (q / 0x100) * 0x1_0000 + (q % 0x100) * 0x100 + v % 0x100;
  }

  /** Reading back the four octets written for a 32-bit value gives the value. */
  lemma ReadWrite32(v: nat)
    requires v < Two32
    ensures ReadBigEndian32(BigEndian32(v)) == v
  {
    var q1 := v / 0x100;
    var q2 := q1 / 0x100;
    var q3 := q2 / 0x100;
    assert q2 == v / 0x1_0000 by {
      DivideTwice(v);
    }
    assert q3 == v / 0x100_0000 by {
      DivideTwice(q1);
      assert (v / 0x1_0000) / 0x100 == v / 0x100_0000 by {
        DivideTwice(v / 0x100);
      }
    }
    assert v == q1 * 0x100 + v % 0x100;
    assert q1 == q2 * 0x100 + q1 % 0x100;
    assert q2 == q3 * 0x100 + q2 % 0x100;
  }
}
