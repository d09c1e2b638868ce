/** IPv4 subnets and the search for a free address, on 32-bit words that wrap. */
module Addresses {
  import opened Wrappers
  import opened Counting

  const WORD := 0x1_0000_0000

  type Addr = n: nat | n < WORD

  type Bits = b: nat | b <= 32

  datatype Prefix = Missing | V6 | V4(addr: Addr, bits: Bits)

  /** How many addresses share a prefix of this length: 2 to the power 32 - bits. */
  function Size(bits: Bits): (n: nat)
    ensures n > 0
    decreases 32 - bits
  {
    if bits == 32 then 1 else 2 * Size(bits + 1)
  }

  /** The largest multiple of `size` that is not above `a`. */
  function Floor(a: nat, size: nat): (n: nat)
    requires size > 0
    ensures n <= a < n + size
    decreases a
  {
    if a < size then 0 else size + Floor(a - size, size)
  }

  /** The masked address: the first one of the block of this length that holds `a`. */
  function Network(a: Addr, bits: Bits): (n: Addr)
    ensures n <= a < n + Size(bits)
  {
    Floor(a, Size(bits))
  }

  /** What a uint32 holds of an integer. */
  function Wrapped(n: int): (w: Addr)
    ensures 0 <= n < WORD ==> w == n
    ensures -WORD <= n < 0 ==> w == n + WORD
    ensures n == WORD ==> w == 0
  {
    n % WORD
  }

  /** The uint32 range the code walks: a shift by 32 gives 0, and sums wrap. */
  function HostRange(p: Prefix): Option<(Addr, Addr)> {
    if !p.V4? || p.bits > 30 then None
    else
      var network, size := Network(p.addr, p.bits), Wrapped(Size(p.bits));
      Some((Wrapped(network + 1), Wrapped(network + size - 2)))
  }

  predicate IsHostAddress(p: Prefix) {
    var range := HostRange(p);
    range.Some? && range.value.0 <= p.addr && p.addr <= range.value.1
  }

  function Capacity(bits: Bits): int {
    Size(bits) - 3
  }

  /** In the same block, and neither its first nor its last address. */
  predicate IsHostOf(p: Prefix, a: Addr) {
    p.V4? && p.bits <= 30 && Network(a, p.bits) == Network(p.addr, p.bits)
    && a != Network(a, p.bits) && a != Network(a, p.bits) + Size(p.bits) - 1
  }

  function Hosts(p: Prefix): set<int> {
    var range := HostRange(p);
    if range.None? then {} else Interval(range.value.0, range.value.1)
  }

  // ---------------------------------------------------------------- blocks

  predicate Multiple(n: nat, size: nat)
    requires size > 0
  {
    Floor(n, size) == n
  }

  lemma {:induction false} FloorPlus(n: nat, a: nat, size: nat)
    requires size > 0 && Multiple(n, size)
    ensures Floor(n + a, size) == n + Floor(a, size)
  {
    if n >= size {
      FloorPlus(n - size, a, size);
    }
  }

  /** Two addresses share a block exactly when one lies in the other's. */
  lemma SameBlock(a: nat, b: nat, size: nat)
    requires size > 0
    ensures Multiple(Floor(b, size), size)
    ensures Floor(a, size) == Floor(b, size) <==> Floor(b, size) <= a < Floor(b, size) + size
  {
    FloorIsMultiple(b, size);
    if Floor(b, size) <= a < Floor(b, size) + size {
      FloorPlus(Floor(b, size), a - Floor(b, size), size);
    }
  }

  lemma {:induction false} FloorIsMultiple(a: nat, size: nat)
    requires size > 0
    ensures Multiple(Floor(a, size), size)
    decreases a
  {
    if a >= size {
      FloorIsMultiple(a - size, size);
    }
  }

  lemma {:induction false} SizeFalls(a: Bits, b: Bits)
    requires a <= b
    ensures Size(b) <= Size(a) && Multiple(Size(a), Size(b))
    decreases b - a
  {
    if a < b {
      SizeFalls(a + 1, b);
      FloorPlus(Size(a + 1), Size(a + 1), Size(b));
    }
  }

  lemma SizeFacts()
    ensures Size(30) == 4 && Size(24) == 256 && Size(16) == 65536 && Size(0) == WORD
  {
    assert Size(28) == 16 && Size(26) == 64 && Size(24) == 256;
    assert Size(22) == 1024 && Size(20) == 4096 && Size(18) == 16384 && Size(16) == 65536;
    assert Size(14) == 0x4_0000 && Size(12) == 0x10_0000 && Size(10) == 0x40_0000 && Size(8) == 0x100_0000;
    assert Size(6) == 0x400_0000 && Size(4) == 0x1000_0000 && Size(2) == 0x4000_0000;
  }

  /** Multiples of a size below a larger multiple leave room for a whole block. */
  lemma {:induction false} RoomForABlock(a: nat, total: nat, size: nat)
    requires size > 0 && Multiple(total, size) && a < total
    ensures Floor(a, size) + size <= total
    decreases a
  {
    if a >= size {
      FloorIsMultiple(total, size);
      RoomForABlock(a - size, total - size, size);
    }
  }

  /** A block never runs past the last address. */
  lemma BlockFits(a: Addr, bits: Bits)
    ensures Network(a, bits) + Size(bits) <= WORD
  {
    SizeFalls(0, bits);
    SizeFacts();
    RoomForABlock(a, WORD, Size(bits));
  }

  /** Blocks of two lengths nest. */
  lemma Nested(a: nat, small: nat, large: nat)
    requires small > 0 && large > 0 && Multiple(large, small)
    ensures Floor(Floor(a, small), large) == Floor(a, large)
    ensures Floor(a, large) <= Floor(a, small) && Floor(a, small) + small <= Floor(a, large) + large
  {
    var n := Floor(a, large);
    FloorIsMultiple(a, large);
    MultipleOfMultiple(n, large, small);
    FloorPlus(n, a - n, small);
    RoomForABlock(a - n, large, small);
    SameBlock(Floor(a, small), a, large);
  }

  lemma {:induction false} MultipleOfMultiple(n: nat, e: nat, d: nat)
    requires d > 0 && e > 0 && Multiple(n, e) && Multiple(e, d)
    ensures Multiple(n, d)
    decreases n
  {
    if n >= e {
      MultipleOfMultiple(n - e, e, d);
      FloorPlus(e, n - e, d);
    }
  }

  // ---------------------------------------------------------------- the range is the subnet's hosts

  lemma SizeRange(bits: Bits)
    requires bits <= 30
    ensures 4 <= Size(bits) <= WORD && (Size(bits) == WORD <==> bits == 0)
  {
    SizeFalls(bits, 30);
    SizeFacts();
    if bits > 0 {
      SizeFalls(1, bits);
      assert Size(0) == 2 * Size(1);
    }
  }

  /** No sum in the range wraps, even where the size itself does. */
  lemma HostRangeIs(p: Prefix)
    requires p.V4? && p.bits <= 30
    ensures HostRange(p) == Some((Network(p.addr, p.bits) + 1, Network(p.addr, p.bits) + Size(p.bits) - 2))
    ensures Size(p.bits) >= 4 && Network(p.addr, p.bits) + Size(p.bits) <= WORD
  {
    BlockFits(p.addr, p.bits);
    SizeRange(p.bits);
  }

  /** The walk meets exactly the subnet's host addresses. */
  lemma HostsAreHosts(p: Prefix, a: Addr)
    ensures a in Hosts(p) <==> IsHostOf(p, a)
  {
    if p.V4? && p.bits <= 30 {
      HostRangeIs(p);
      SameBlock(a, p.addr, Size(p.bits));
    }
  }

  /** One host address is the server's own: the rest are as many as `Capacity` says. */
  lemma HostCount(p: Prefix)
    requires p.V4? && p.bits <= 30
    ensures |Hosts(p)| == Capacity(p.bits) + 1
    ensures forall n | n in Hosts(p) :: 0 <= n < WORD
  {
    HostRangeIs(p);
  }

  // ---------------------------------------------------------------- the search

  /** The lowest free host address; none is found exactly when every host address is used. */
  method NextAddress(subnet: Prefix, used: seq<Addr>) returns (r: Option<Addr>)
    ensures r.Some? ==> IsHostOf(subnet, r.value) && r.value !in used
    ensures r.Some? ==> forall a: Addr | IsHostOf(subnet, a) && a < r.value :: a in used
    ensures r.None? <==> forall a: Addr | IsHostOf(subnet, a) :: a in used
  {
    var range := HostRange(subnet);
    if range.None? {
      return None;
    }
    var (first, last) := range.value;
    HostRangeIs(subnet);
    var taken := set a | a in used;
    var n: Addr := first;
    while n <= last
      invariant first <= n <= last + 1
      invariant forall a: Addr | first <= a < n :: a in used
      decreases last - n
    {
      if n !in taken {
        break;
      }
      n := Wrapped(n + 1);
    }
    forall a: Addr
      ensures IsHostOf(subnet, a) <==> first <= a <= last
    {
      HostsAreHosts(subnet, a);
    }
    r := if n <= last then Some(n) else None;
  }
}
