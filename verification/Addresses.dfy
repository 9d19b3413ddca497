// IPv4 addresses as four octets, and CIDR blocks over them (section 3.1 of RFC 4632).
module Addresses {

  type Byte = x: nat | x < 256
  type Port = x: nat | x < 65536
  type Prefix = x: nat | x <= 32

  datatype Addr = Addr(a: Byte, b: Byte, c: Byte, d: Byte)

  datatype Cidr = Cidr(addr: Addr, prefix: Prefix)

  // The address as a 32-bit number, most significant octet first.
  function Num(ip: Addr): (n: nat)
    ensures n < 0x1_0000_0000
    ensures n / 0x100_0000 == ip.a
  {
    ip.a * 0x100_0000 + ip.b * 0x1_0000 + ip.c * 0x100 + ip.d
  }

  function Pow2(n: nat): (p: nat)
    ensures p > 0
  {
    if n == 0 then 1 else 2 * Pow2(n - 1)
  }

  // How many addresses the block holds.
  function Size(c: Cidr): (n: nat)
    ensures n > 0
  {
    Pow2(32 - c.prefix)
  }

  // The block holds the address when their leading `prefix` bits agree.
  predicate Contains(c: Cidr, ip: Addr) {
    Num(ip) / Size(c) == Num(c.addr) / Size(c)
  }

  // The first and the last address of the block, as numbers.
  function Network(c: Cidr): int {
    Num(c.addr) - Num(c.addr) % Size(c)
  }

  function Broadcast(c: Cidr): int {
    Network(c) + Size(c) - 1
  }

  predicate IsPrivate(ip: Addr) {
    || ip.a == 10
    || (ip.a == 172 && 16 <= ip.b <= 31)
    || (ip.a == 192 && ip.b == 168)
  }

  predicate IsReservedOrPrivate(ip: Addr) {
    || IsPrivate(ip)
    || ip.a == 127
    || (ip.a == 169 && ip.b == 254)
    || 224 <= ip.a <= 239
    || ip == Addr(255, 255, 255, 255)
    || ip == Addr(0, 0, 0, 0)
    || (ip.a == 100 && 64 <= ip.b <= 127)
    || (ip.a == 192 && ip.b == 0 && ip.c == 0)
    || (ip.a == 192 && ip.b == 0 && ip.c == 2)
    || (ip.a == 198 && ip.b == 51 && ip.c == 100)
    || (ip.a == 203 && ip.b == 0 && ip.c == 113)
    || ip.a >= 240
  }

  // A number has one quotient and one remainder.
  lemma OneQuotient(k: nat, r: nat, q: nat, size: nat)
    requires r < size
    ensures k == q <==> q * size <= k * size + r < q * size + size
  {
    if k < q {
      ProductMonotone(k + 1, q, size);
      assert (k + 1) * size == k * size + size;
    } else if k > q {
      ProductMonotone(q + 1, k, size);
      assert (q + 1) * size == q * size + size;
    }
  }

  lemma QuotientIsRange(n: nat, size: nat, q: nat)
    requires size > 0
    ensures n / size == q <==> q * size <= n < q * size + size
  {
    OneQuotient(n / size, n % size, q, size);
  }

  lemma SameBlock(n: nat, base: nat, size: nat)
    requires size > 0
    ensures n / size == base / size <==> base - base % size <= n < base - base % size + size
  {
    var q := base / size;
    QuotientIsRange(n, size, q);
    assert base == q * size + base % size;
  }

  // Agreeing on the leading bits is lying between the network and the broadcast address.
  lemma ContainsIsRange(c: Cidr, ip: Addr)
    ensures Contains(c, ip) <==> Network(c) <= Num(ip) <= Broadcast(c)
  {
    SameBlock(Num(ip), Num(c.addr), Size(c));
  }

  // A block of `size` addresses that starts at a multiple of `size` stays inside a space of
  // `size * count` addresses.
  lemma BlockFits(base: nat, size: nat, count: nat)
    requires size > 0 && base < size * count
    ensures 0 <= base - base % size && base - base % size + size <= size * count
  {
    var q, r := base / size, base % size;
    assert base == q * size + r && 0 <= r < size;
    WholeBlocks(q, r, size, count);
  }

  lemma ProductMonotone(x: nat, y: nat, size: nat)
    ensures x <= y ==> x * size <= y * size
  {
  }

  lemma WholeBlocks(q: nat, r: nat, size: nat, count: nat)
    requires q * size + r < size * count && size > 0
    ensures q * size + size <= size * count
  {
    ProductMonotone(count, q, size);
    ProductMonotone(q + 1, count, size);
  }

  // The network and the broadcast address are members of the block and both fit in 32 bits.
  lemma BlockEnds(c: Cidr)
    ensures 0 <= Network(c) <= Num(c.addr) <= Broadcast(c) < 0x1_0000_0000
  {
    SizeDivides(c.prefix);
    BlockFits(Num(c.addr), Pow2(32 - c.prefix), Pow2(c.prefix));
  }

  lemma SizeDivides(prefix: Prefix)
    ensures Pow2(32 - prefix) * Pow2(prefix) == 0x1_0000_0000
  {
    PowersMultiply(32 - prefix, prefix);
    SmallPowers();
  }

  lemma SmallPowers()
    ensures Pow2(1) == 2 && Pow2(16) == 0x1_0000 && Pow2(20) == 0x10_0000
    ensures Pow2(24) == 0x100_0000 && Pow2(32) == 0x1_0000_0000
    ensures Pow2(0) == 1 && Pow2(8) == 0x100 && Pow2(22) == 0x40_0000 && Pow2(28) == 0x1000_0000
  {
    assert Pow2(4) == 16;
    PowersMultiply(4, 4);
    PowersMultiply(8, 8);
    PowersMultiply(16, 4);
    PowersMultiply(16, 8);
    PowersMultiply(16, 16);
    PowersMultiply(20, 2);
    PowersMultiply(24, 4);
  }

  lemma {:induction false} PowersMultiply(m: nat, n: nat)
    ensures Pow2(m + n) == Pow2(m) * Pow2(n)
  {
    if m > 0 {
      PowersMultiply(m - 1, n);
      assert Pow2(m + n) == 2 * Pow2(m + n - 1);
      assert 2 * (Pow2(m - 1) * Pow2(n)) == (2 * Pow2(m - 1)) * Pow2(n);
    }
  }

  // A block that starts at a multiple of its size is a run of `size` addresses.
  lemma AlignedBlock(c: Cidr, size: nat, ip: Addr)
    requires Size(c) == size && Num(c.addr) % size == 0
    ensures Contains(c, ip) <==> Num(c.addr) <= Num(ip) < Num(c.addr) + size
  {
    ContainsIsRange(c, ip);
  }

  // The blocks of section 3 of RFC 1918.
  const PRIVATE_BLOCKS := [Cidr(Addr(10, 0, 0, 0), 8), Cidr(Addr(172, 16, 0, 0), 12), Cidr(Addr(192, 168, 0, 0), 16)]

  // The other blocks no public address may come from: loopback, link-local, multicast, limited
  // broadcast, unspecified, shared, protocol assignments, documentation, and reserved.
  const SPECIAL_BLOCKS := [
    Cidr(Addr(127, 0, 0, 0), 8), Cidr(Addr(169, 254, 0, 0), 16), Cidr(Addr(224, 0, 0, 0), 4),
    Cidr(Addr(255, 255, 255, 255), 32), Cidr(Addr(0, 0, 0, 0), 32), Cidr(Addr(100, 64, 0, 0), 10),
    Cidr(Addr(192, 0, 0, 0), 24), Cidr(Addr(192, 0, 2, 0), 24), Cidr(Addr(198, 51, 100, 0), 24),
    Cidr(Addr(203, 0, 113, 0), 24), Cidr(Addr(240, 0, 0, 0), 4)]

  ghost predicate InSomeBlock(ip: Addr, blocks: seq<Cidr>) {
    exists k :: 0 <= k < |blocks| && Contains(blocks[k], ip)
  }

  // The octet test for private addresses is membership of those blocks.
  lemma PrivateIsRfc1918(ip: Addr)
    ensures IsPrivate(ip) <==> InSomeBlock(ip, PRIVATE_BLOCKS)
  {
    SmallPowers();
    AlignedBlock(PRIVATE_BLOCKS[0], 0x100_0000, ip);
    AlignedBlock(PRIVATE_BLOCKS[1], 0x10_0000, ip);
    AlignedBlock(PRIVATE_BLOCKS[2], 0x1_0000, ip);
  }

  lemma WideSpecialBlocks(ip: Addr)
    ensures Contains(SPECIAL_BLOCKS[0], ip) <==> ip.a == 127
    ensures Contains(SPECIAL_BLOCKS[1], ip) <==> ip.a == 169 && ip.b == 254
    ensures Contains(SPECIAL_BLOCKS[2], ip) <==> 224 <= ip.a <= 239
    ensures Contains(SPECIAL_BLOCKS[5], ip) <==> ip.a == 100 && 64 <= ip.b <= 127
    ensures Contains(SPECIAL_BLOCKS[10], ip) <==> 240 <= ip.a
  {
    hide Contains, Pow2;
    SmallPowers();
    AlignedBlock(Cidr(Addr(127, 0, 0, 0), 8), 0x100_0000, ip);
    AlignedBlock(Cidr(Addr(169, 254, 0, 0), 16), 0x1_0000, ip);
    AlignedBlock(Cidr(Addr(224, 0, 0, 0), 4), 0x1000_0000, ip);
    AlignedBlock(Cidr(Addr(100, 64, 0, 0), 10), 0x40_0000, ip);
    AlignedBlock(Cidr(Addr(240, 0, 0, 0), 4), 0x1000_0000, ip);
  }

  // A /24 block is given by its three leading octets, and a /32 block holds its address alone.
  lemma ThreeOctets(a: Byte, b: Byte, c: Byte, ip: Addr)
    ensures Contains(Cidr(Addr(a, b, c, 0), 24), ip) <==> ip.a == a && ip.b == b && ip.c == c
  {
    hide Contains, Pow2;
    SmallPowers();
    var base := Addr(a, b, c, 0);
    assert Num(base) == (a * 0x1_0000 + b * 0x100 + c) * 0x100;
    AlignedBlock(Cidr(base, 24), 0x100, ip);
  }

  lemma FourOctets(other: Addr, ip: Addr)
    ensures Contains(Cidr(other, 32), ip) <==> ip == other
  {
    AlignedBlock(Cidr(other, 32), 1, ip);
  }

  lemma NarrowSpecialBlocks(ip: Addr)
    ensures Contains(SPECIAL_BLOCKS[3], ip) <==> ip == Addr(255, 255, 255, 255)
    ensures Contains(SPECIAL_BLOCKS[4], ip) <==> ip == Addr(0, 0, 0, 0)
    ensures Contains(SPECIAL_BLOCKS[6], ip) <==> ip.a == 192 && ip.b == 0 && ip.c == 0
    ensures Contains(SPECIAL_BLOCKS[7], ip) <==> ip.a == 192 && ip.b == 0 && ip.c == 2
    ensures Contains(SPECIAL_BLOCKS[8], ip) <==> ip.a == 198 && ip.b == 51 && ip.c == 100
    ensures Contains(SPECIAL_BLOCKS[9], ip) <==> ip.a == 203 && ip.b == 0 && ip.c == 113
  {
    hide Contains;
    FourOctets(Addr(255, 255, 255, 255), ip);
    FourOctets(Addr(0, 0, 0, 0), ip);
    ThreeOctets(192, 0, 0, ip);
    ThreeOctets(192, 0, 2, ip);
    ThreeOctets(198, 51, 100, ip);
    ThreeOctets(203, 0, 113, ip);
  }

  // The octet test for addresses that are not routable is membership of the listed blocks.
  lemma ReservedIsBlocks(ip: Addr)
    ensures IsReservedOrPrivate(ip) <==> InSomeBlock(ip, PRIVATE_BLOCKS) || InSomeBlock(ip, SPECIAL_BLOCKS)
  {
    hide Contains;
    PrivateIsRfc1918(ip);
    WideSpecialBlocks(ip);
    NarrowSpecialBlocks(ip);
  }
}
