/** IPv4 address management for one subnet (src/core/src/network.rs), CIDR blocks as in section
    3.1 of RFC 4632. */
module Ipam {
  import opened Common
  import opened Bytes

  /** An IPv4 address as the 32-bit number it stands for. */
  type Ip = u32

  const ALL_ONES: Ip := 0xFFFF_FFFF

  datatype Ipam = Ipam(network: Ip, prefixLen: nat, gateway: Ip)

  /** What `Ipam::new` accepts after parsing: a prefix of 1 to 30 bits and room for a gateway.
      Host bits of the network address are kept as they are. */
  function New(network: Ip, prefixLen: nat): (r: Option<Ipam>)
    ensures r.Some? ==> Valid(r.value)
    ensures r.Some? <==> 1 <= prefixLen <= 30 && network != ALL_ONES
  {
    if prefixLen == 0 || prefixLen > 30 || network == ALL_ONES then None
    else Some(Ipam(network, prefixLen, network + 1))
  }

  ghost predicate Valid(m: Ipam) {
    1 <= m.prefixLen <= 30 && m.network != ALL_ONES && m.gateway == m.network + 1
  }

  function Pow2(n: nat): (p: nat)
    ensures p >= 1
  {
    if n == 0 then 1 else 2 * Pow2(n - 1)
  }

  /** The number of addresses in the block. */
  function BlockSize(m: Ipam): nat
    requires m.prefixLen <= 32
  {
    Pow2(32 - m.prefixLen)
  }

  /** Bitwise or. */
  function Or(a: nat, b: nat): nat {
    if a == 0 then b
    else if b == 0 then a
    else 2 * Or(a / 2, b / 2) + if a % 2 == 1 || b % 2 == 1 then 1 else 0
  }

  function Broadcast(m: Ipam): nat
    requires m.prefixLen <= 32
  {
    Or(m.network, BlockSize(m) - 1)
  }

  function Capacity(m: Ipam): nat
    requires m.prefixLen <= 32
  {
    var total := BlockSize(m) - 1;
    if total >= 2 then total - 2 else 0
  }

  /** The first candidate; the 32-bit addition wraps. */
  function First(m: Ipam): Ip {
    if m.network + 2 < 0x1_0000_0000 then m.network + 2 else m.network + 2 - 0x1_0000_0000
  }

  /** The lowest address from `c` up to `hi`, other than the gateway, that is not in use. */
  function LowestFree(c: nat, hi: nat, gateway: Ip, used: set<nat>): Option<nat>
    decreases hi - c
  {
    if c >= hi then None
    else if c != gateway && c !in used then Some(c)
    else LowestFree(c + 1, hi, gateway, used)
  }

  ghost function Elements(s: seq<nat>): set<nat> {
    set ip | ip in s
  }

  method Allocate(m: Ipam, used: seq<nat>) returns (r: Option<nat>)
    requires Valid(m)
    ensures r == LowestFree(First(m), Broadcast(m), m.gateway, Elements(used))
  {
    var broadcast := Broadcast(m);
    var candidate: nat := First(m);
    ghost var taken := Elements(used);
    while candidate < broadcast
      invariant LowestFree(First(m), broadcast, m.gateway, taken) == LowestFree(candidate, broadcast, m.gateway, taken)
    {
      if candidate != m.gateway && candidate !in used {
        return Some(candidate);
      }
      candidate := candidate + 1;
    }
    r := None;
  }

  // ---------------------------------------------------------------- the addresses that can be allocated

  ghost predicate Usable(m: Ipam, ip: nat)
    requires m.prefixLen <= 32
  {
    First(m) <= ip < Broadcast(m) && ip != m.gateway
  }

  ghost function UsableSet(m: Ipam): set<nat>
    requires m.prefixLen <= 32
  {
    set ip: nat | ip < Broadcast(m) && Usable(m, ip)
  }

  /** The search finds the lowest free address, and fails only when there is none. */
  lemma {:induction false} LowestFreeIsLowest(c: nat, hi: nat, gateway: Ip, used: set<nat>)
    ensures var r := LowestFree(c, hi, gateway, used);
            && (r.Some? ==> c <= r.value < hi && r.value != gateway && r.value !in used
                            && forall ip :: c <= ip < r.value && ip != gateway ==> ip in used)
            && (r.None? ==> forall ip :: c <= ip < hi && ip != gateway ==> ip in used)
    decreases hi - c
  {
    if c < hi {
      LowestFreeIsLowest(c + 1, hi, gateway, used);
    }
  }

  // ---------------------------------------------------------------- arithmetic of the block

  /** The lowest `h` bits of a number. */
  function LowBits(n: nat, h: nat): (r: nat)
    ensures r <= n
  {
    if h == 0 then 0 else 2 * LowBits(n / 2, h - 1) + n % 2
  }

  /** A number shifted right by `h` bits. */
  function HighBits(n: nat, h: nat): nat {
    if h == 0 then n else HighBits(n / 2, h - 1)
  }

  function HostBits(m: Ipam, ip: nat): nat
    requires m.prefixLen <= 32
  {
    LowBits(ip, 32 - m.prefixLen)
  }

  function Prefix(m: Ipam, ip: nat): nat
    requires m.prefixLen <= 32
  {
    HighBits(ip, 32 - m.prefixLen)
  }

  lemma {:induction false} OrLowMask(n: nat, h: nat)
    ensures Or(n, Pow2(h) - 1) == n - LowBits(n, h) + Pow2(h) - 1
  {
    if n == 0 {
      LowBitsOfZero(h);
    } else if h > 0 {
      OrLowMask(n / 2, h - 1);
      var p := Pow2(h - 1);
      assert (2 * p - 1) / 2 == p - 1 && (2 * p - 1) % 2 == 1;
    }
  }

  lemma {:induction false} LowBitsOfZero(h: nat)
    ensures LowBits(0, h) == 0
  {
    if h > 0 {
      LowBitsOfZero(h - 1);
    }
  }

  /** A block never runs past the end of the address space. */
  lemma {:induction false} BlockFits(n: nat, h: nat, width: nat)
    requires h <= width && n < Pow2(width)
    ensures n - LowBits(n, h) + Pow2(h) <= Pow2(width)
  {
    if h > 0 {
      BlockFits(n / 2, h - 1, width - 1);
    } else {
      assert LowBits(n, h) == 0;
    }
  }

  lemma PowOf32()
    ensures Pow2(32) == 0x1_0000_0000
  {
    assert Pow2(6) == 0x40;
    assert Pow2(12) == 0x1000;
    assert Pow2(18) == 0x4_0000;
    assert Pow2(24) == 0x100_0000;
    assert Pow2(28) == 0x1000_0000;
  }

  lemma {:induction false} SizeBounds(h: nat)
    requires h >= 2
    ensures Pow2(h) >= 4
  {
    if h > 2 {
      SizeBounds(h - 1);
    } else {
      assert Pow2(2) == 4;
    }
  }

  /** The broadcast address is the last of the block that contains the network address. */
  lemma BroadcastIsLast(m: Ipam)
    requires Valid(m)
    ensures Broadcast(m) == m.network - HostBits(m, m.network) + BlockSize(m) - 1
    ensures BlockSize(m) >= 4 && m.network <= Broadcast(m) < 0x1_0000_0000
  {
    var h := 32 - m.prefixLen;
    OrLowMask(m.network, h);
    SizeBounds(h);
    PowOf32();
    BlockFits(m.network, h, 32);
    LowBitsBound(m.network, h);
  }

  lemma {:induction false} LowBitsBound(n: nat, h: nat)
    ensures LowBits(n, h) < Pow2(h)
  {
    if h > 0 {
      LowBitsBound(n / 2, h - 1);
    }
  }

  /** Addresses from the network address to the end of its block have its high bits. */
  lemma {:induction false} SameBlock(n: nat, ip: nat, h: nat)
    requires n <= ip <= n - LowBits(n, h) + Pow2(h) - 1
    ensures HighBits(ip, h) == HighBits(n, h)
  {
    if h > 0 {
      assert n == 2 * (n / 2) + n % 2 && ip == 2 * (ip / 2) + ip % 2;
      SameBlock(n / 2, ip / 2, h - 1);
    } else {
      assert LowBits(n, h) == 0;
    }
  }

  // ---------------------------------------------------------------- what the block promises

  /** Every allocated address lies strictly between gateway and broadcast, with the network's own
      prefix, if and only if the first candidate did not wrap around. */
  lemma InsideBlock(m: Ipam, ip: nat)
    requires Valid(m) && Usable(m, ip)
    ensures m.gateway < ip < Broadcast(m) <==> m.network + 2 < 0x1_0000_0000
    ensures m.network + 2 < 0x1_0000_0000 ==> Prefix(m, ip) == Prefix(m, m.network)
  {
    BroadcastIsLast(m);
    if m.network + 2 < 0x1_0000_0000 {
      SameBlock(m.network, ip, 32 - m.prefixLen);
    }
  }

  /** 255.255.255.254 is accepted, and the first address handed out is 0.0.0.0. */
  lemma WrapsAround()
    ensures exists m :: New(0xFFFF_FFFE, 30) == Some(m) && Usable(m, 0)
                        && LowestFree(First(m), Broadcast(m), m.gateway, {}) == Some(0)
  {
    var m := Ipam(0xFFFF_FFFE, 30, ALL_ONES);
    assert New(0xFFFF_FFFE, 30) == Some(m);
    BroadcastIsLast(m);
  }

  ghost function Interval(lo: nat, hi: nat): (s: set<nat>)
    ensures forall ip :: ip in s <==> lo <= ip < hi
    ensures |s| == if lo < hi then hi - lo else 0
  {
    if lo >= hi then {} else Interval(lo, hi - 1) + {hi - 1}
  }

  lemma GatewayOutside(m: Ipam)
    requires Valid(m)
    ensures !(First(m) <= m.gateway < Broadcast(m))
  {
    BroadcastIsLast(m);
  }

  /** How many addresses the search can ever return. */
  lemma UsableCount(m: Ipam)
    requires Valid(m)
    ensures |UsableSet(m)| == if First(m) < Broadcast(m) then Broadcast(m) - First(m) else 0
  {
    GatewayOutside(m);
    var lo, hi := First(m), Broadcast(m);
    forall ip: nat ensures ip in UsableSet(m) <==> ip in Interval(lo, hi) {}
    assert UsableSet(m) == Interval(lo, hi);
  }

  /** The closed form counts the addresses the search can return exactly when the network
      address has no host bits set. */
  lemma CapacityIsExact(m: Ipam)
    requires Valid(m)
    ensures Capacity(m) == |UsableSet(m)| <==> HostBits(m, m.network) == 0
  {
    UsableCount(m);
    BroadcastIsLast(m);
  }

  /** 10.0.0.1/24 is accepted as it is, and has one address fewer than `capacity` says. */
  lemma MiscountedHostBits()
    ensures exists m :: New(0x0A00_0001, 24) == Some(m) && Capacity(m) != |UsableSet(m)|
  {
    var m := Ipam(0x0A00_0001, 24, 0x0A00_0002);
    assert New(0x0A00_0001, 24) == Some(m);
    assert LowBits(0x0A00_0001, 8) >= 0x0A00_0001 % 2;
    CapacityIsExact(m);
  }

  // ---------------------------------------------------------------- MAC addresses

  function HexDigit(d: nat): char
    requires d < 16
  {
    "0123456789abcdef"[d]
  }

  function Hex(b: byte): (s: string)
    ensures |s| == 2
  {
    [HexDigit(b / 16), HexDigit(b % 16)]
  }

  function Colons(octets: Wire): string {
    if octets == [] then "" else ":" + Hex(octets[0]) + Colons(octets[1..])
  }

  /** The locally administered prefix and the four octets of the address. */
  function MacFromIp(ip: nat): string {
    "02:42" + Colons(Octets(ip))
  }

  function Octets(ip: nat): (o: Wire)
    ensures |o| == 4
  {
    [ip / 256 / 256 / 256 % 256] + Be24(ip)
  }

  lemma HexInjective(a: byte, b: byte)
    requires Hex(a) == Hex(b)
    ensures a == b
  {
    assert Hex(a)[0] == Hex(b)[0] && Hex(a)[1] == Hex(b)[1];
    DigitInjective(a / 16, b / 16);
    DigitInjective(a % 16, b % 16);
  }

  lemma DigitInjective(a: nat, b: nat)
    requires a < 16 && b < 16 && HexDigit(a) == HexDigit(b)
    ensures a == b
  {}

  lemma {:induction false} ColonsInjective(v: Wire, w: Wire)
    requires |v| == |w| && Colons(v) == Colons(w)
    ensures v == w
  {
    if v != [] {
      var s, t := Colons(v), Colons(w);
      assert s[1..3] == Hex(v[0]) && s[3..] == Colons(v[1..]);
      assert t[1..3] == Hex(w[0]) && t[3..] == Colons(w[1..]);
      HexInjective(v[0], w[0]);
      ColonsInjective(v[1..], w[1..]);
      assert v == [v[0]] + v[1..] && w == [w[0]] + w[1..];
    }
  }

  lemma OctetsInjective(a: Ip, b: Ip)
    requires Octets(a) == Octets(b)
    ensures a == b
  {
    Be32RoundTrip(a);
    Be32RoundTrip(b);
    assert forall i :: 0 <= i < 4 ==> Octets(a)[i] == Be32(a)[i];
    assert forall i :: 0 <= i < 4 ==> Octets(b)[i] == Be32(b)[i];
  }

  /** Different addresses have different MAC addresses. */
  lemma MacInjective(a: Ip, b: Ip)
    requires MacFromIp(a) == MacFromIp(b)
    ensures a == b
  {
    assert MacFromIp(a)[5..] == Colons(Octets(a)) && MacFromIp(b)[5..] == Colons(Octets(b));
    ColonsInjective(Octets(a), Octets(b));
    OctetsInjective(a, b);
  }

  /** The text of a MAC address, octet by octet. */
  lemma MacText(a: byte, b: byte, c: byte, d: byte)
    ensures MacFromIp(FromBe32(a, b, c, d)) ==
            "02:42:" + Hex(a) + ":" + Hex(b) + ":" + Hex(c) + ":" + Hex(d)
  {
    var ip := FromBe32(a, b, c, d);
    OctetsOf(a, b, c, d);
    FourColons(a, b, c, d);
  }

  lemma OctetsOf(a: byte, b: byte, c: byte, d: byte)
    ensures Octets(FromBe32(a, b, c, d)) == [a, b, c, d]
  {
    Be32Inverse(a, b, c, d);
    var ip := FromBe32(a, b, c, d);
    assert forall i :: 0 <= i < 4 ==> Octets(ip)[i] == Be32(ip)[i];
  }

  lemma ColonsOf(o: byte, more: Wire)
    ensures Colons([o] + more) == ":" + Hex(o) + Colons(more)
  {
    assert ([o] + more)[1..] == more;
  }

  lemma FourColons(a: byte, b: byte, c: byte, d: byte)
    ensures Colons([a, b, c, d]) == ":" + Hex(a) + (":" + Hex(b) + (":" + Hex(c) + (":" + Hex(d))))
  {
    assert Colons([d]) == ":" + Hex(d) + "" == ":" + Hex(d);
    ColonsOf(c, [d]);
    ColonsOf(b, [c, d]);
    ColonsOf(a, [b, c, d]);
  }

  /** 10.88.0.2. */
  lemma MacExample()
    ensures MacFromIp(0x0A58_0002) == "02:42:0a:58:00:02"
  {
    MacText(10, 88, 0, 2);
  }
}
