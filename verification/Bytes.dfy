/** Bytes and the big-endian integers of the two wire formats. */
module Bytes {

  type byte = b: int | 0 <= b < 256

  type Wire = seq<byte>

  type u32 = n: int | 0 <= n < 0x1_0000_0000

  /** The low 24 bits of a number, most significant byte first. */
  function Be24(n: nat): (w: Wire)
    ensures |w| == 3
  {
    [n / 256 / 256 % 256, n / 256 % 256, n % 256]
  }

  function FromBe24(a: byte, b: byte, c: byte): nat {
    256 * (256 * a + b) + c
  }

  function FromBe16(a: byte, b: byte): nat {
    256 * a + b
  }

  /** `u32::to_be_bytes`. */
  function Be32(n: u32): (w: Wire)
    ensures |w| == 4
  {
    [n / 256 / 256 / 256, n / 256 / 256 % 256, n / 256 % 256, n % 256]
  }

  /** `u32::from_be_bytes`. */
  function FromBe32(a: byte, b: byte, c: byte, d: byte): u32 {
    256 * (256 * (256 * a + b) + c) + d
  }

  lemma LowByte(n: nat)
    ensures n == 256 * (n / 256) + n % 256 && n % 256 < 256
  {}

  lemma Be32RoundTrip(n: u32)
    ensures FromBe32(Be32(n)[0], Be32(n)[1], Be32(n)[2], Be32(n)[3]) == n
  {
    LowByte(n);
    LowByte(n / 256);
    LowByte(n / 256 / 256);
  }

  /** Most significant byte first. */
  lemma BigEndian(n: u32)
    ensures var b := Be32(n); n == 0x100_0000 * (b[0] as int) + 0x1_0000 * (b[1] as int) + 0x100 * (b[2] as int) + b[3]
  {
    LowByte(n);
    LowByte(n / 256);
    LowByte(n / 256 / 256);
  }

  lemma Be32Inverse(a: byte, b: byte, c: byte, d: byte)
    ensures Be32(FromBe32(a, b, c, d)) == [a, b, c, d]
  {
    var n := FromBe32(a, b, c, d);
    assert n / 256 == 256 * (256 * a + b) + c && n % 256 == d;
    assert n / 256 / 256 == 256 * a + b && n / 256 % 256 == c;
  }

  /** Three bytes carry a number exactly below 2^24, and its low 24 bits otherwise. */
  lemma Be24RoundTrip(n: nat)
    ensures FromBe24(Be24(n)[0], Be24(n)[1], Be24(n)[2]) == n % 0x100_0000
  {
    var m := n / 256;
    var k := m / 256;
    var q := k / 256;
    LowByte(n);
    LowByte(m);
    LowByte(k);
    var low := 256 * (256 * (k % 256) + m % 256) + n % 256;
    assert n == 0x100_0000 * q + low && low < 0x100_0000;
    Remainder(n, q, low);
  }

  lemma Remainder(n: nat, q: nat, low: nat)
    requires n == 0x100_0000 * q + low && low < 0x100_0000
    ensures n % 0x100_0000 == low
  {}

  lemma Be24Inverse(a: byte, b: byte, c: byte)
    ensures Be24(FromBe24(a, b, c)) == [a, b, c]
  {
    var n := FromBe24(a, b, c);
    assert n / 256 == 256 * a + b && n % 256 == c;
    assert n / 256 / 256 == a && n / 256 % 256 == b;
  }
}
