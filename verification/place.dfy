/** Where a new server or device goes: a free subnet, a free port, the emptiest server. */
module Placement {
  import opened Addresses
  import opened Counting
  import opened PeerTable
  import opened Sets
  import opened Wrappers

  const MIN_SUBNET_BITS: Bits := 16
  const MAX_SUBNET_BITS: Bits := 30
  const DEFAULT_BITS: Bits := 24
  const DEFAULT_PORT := 51820

  /** What a server's address may be once it is stored. */
  predicate Stored(p: Prefix) {
    p.V4? && MIN_SUBNET_BITS <= p.bits <= MAX_SUBNET_BITS
  }

  // ---------------------------------------------------------------- overlap

  /** The two subnets agree on the shorter of their prefixes. */
  predicate Overlaps(p: Prefix, q: Prefix) {
    p.V4? && q.V4? &&
    var bits: Bits := if p.bits < q.bits then p.bits else q.bits;
    Network(p.addr, bits) == Network(q.addr, bits)
  }

  predicate Covers(p: Prefix, a: Addr) {
    p.V4? && Network(a, p.bits) == Network(p.addr, p.bits)
  }

  /** Which is to say that some address lies in both. */
  lemma OverlapIsShared(p: Prefix, q: Prefix)
    ensures Overlaps(p, q) <==> exists a: Addr :: Covers(p, a) && Covers(q, a)
  {
    if p.V4? && q.V4? {
      if Overlaps(p, q) {
        var a := if p.bits < q.bits then q.addr else p.addr;
        assert Covers(p, a) && Covers(q, a);
      }
      forall a: Addr | Covers(p, a) && Covers(q, a)
        ensures Overlaps(p, q)
      {
        SharedOverlaps(p, q, a);
      }
    }
  }

  lemma SharedOverlaps(p: Prefix, q: Prefix, a: Addr)
    requires Covers(p, a) && Covers(q, a)
    ensures Overlaps(p, q)
  {
    var bits: Bits := if p.bits < q.bits then p.bits else q.bits;
    SizeFalls(bits, p.bits);
    SizeFalls(bits, q.bits);
    Nested(a, Size(p.bits), Size(bits));
    Nested(a, Size(q.bits), Size(bits));
    Nested(p.addr, Size(p.bits), Size(bits));
    Nested(q.addr, Size(q.bits), Size(bits));
  }

  predicate Apart(existing: seq<Prefix>, p: Prefix) {
    forall q | q in existing :: !Overlaps(q, p)
  }

  ghost predicate PairwiseApart(s: seq<Prefix>) {
    forall i, j | 0 <= i < j < |s| :: !Overlaps(s[i], s[j])
  }

  /** The first server whose subnet overlaps the address. */
  method Overlapping(existing: seq<Prefix>, addr: Prefix) returns (r: Option<nat>)
    ensures r.None? <==> Apart(existing, addr)
    ensures r.Some? ==> r.value < |existing| && Overlaps(existing[r.value], addr) && Apart(existing[..r.value], addr)
  {
    if addr.Missing? {
      return None;
    }
    for i := 0 to |existing|
      invariant Apart(existing[..i], addr)
    {
      if Overlaps(existing[i], addr) {
        return Some(i);
      }
      assert existing[..i + 1] == existing[..i] + [existing[i]];
    }
    assert existing[..|existing|] == existing;
    return None;
  }

  // ---------------------------------------------------------------- a free subnet

  const FIRST_BLOCK := 8
  const LAST_BLOCK := 255

  /** The address 10.second.0.0. */
  function BlockStart(second: int): int {
    0xA00_0000 + second * 0x1_0000
  }

  function Candidate(second: nat, bits: Bits): Prefix
    requires second <= LAST_BLOCK
  {
    V4(BlockStart(second) + 1, bits)
  }

  /** The /16 block an address lies in. */
  function BlockOf(a: Addr): int {
    Network(a, 16)
  }

  lemma {:induction false} WholeBlocks(n: nat)
    ensures Multiple(n * 0x1_0000, 0x1_0000)
  {
    if n > 0 {
      WholeBlocks(n - 1);
    }
  }

  lemma CandidateBlock(second: nat, bits: Bits)
    requires second <= LAST_BLOCK
    ensures BlockOf(Candidate(second, bits).addr) == BlockStart(second)
  {
    SizeFacts();
    WholeBlocks(0xA00 + second);
    FloorPlus((0xA00 + second) * 0x1_0000, 1, 0x1_0000);
  }

  /** A subnet of /16 or smaller meets no block but its own. */
  lemma OverlapWithinBlock(p: Prefix, q: Prefix)
    requires Overlaps(p, q) && p.bits >= 16 && q.bits >= 16
    ensures BlockOf(p.addr) == BlockOf(q.addr)
  {
    var bits: Bits := if p.bits < q.bits then p.bits else q.bits;
    SizeFalls(16, bits);
    Nested(p.addr, Size(bits), Size(16));
    Nested(q.addr, Size(bits), Size(16));
  }

  /** The blocks that existing servers lie in, at most one each. */
  function Taken(existing: seq<Prefix>): (s: set<int>)
    ensures |s| <= |existing|
    ensures forall q | q in existing && q.V4? :: BlockOf(q.addr) in s
  {
    if existing == [] then {}
    else (if existing[0].V4? then {BlockOf(existing[0].addr)} else {}) + Taken(existing[1..])
  }

  /** A candidate whose block no server lies in is apart from them all. */
  lemma FreeBlockIsApart(existing: seq<Prefix>, second: nat, bits: Bits)
    requires second <= LAST_BLOCK && bits >= 16 && forall q | q in existing :: Stored(q)
    requires BlockStart(second) !in Taken(existing)
    ensures Apart(existing, Candidate(second, bits))
  {
    CandidateBlock(second, bits);
    forall q | q in existing
      ensures !Overlaps(q, Candidate(second, bits))
    {
      if Overlaps(q, Candidate(second, bits)) {
        OverlapWithinBlock(q, Candidate(second, bits));
        assert false;
      }
    }
  }

  function Hit(taken: set<int>): (s: set<int>) {
    set n | n in Interval(FIRST_BLOCK, LAST_BLOCK) && BlockStart(n) in taken
  }

  /** Pigeonhole: fewer than 248 servers leave one of the 248 blocks alone. */
  lemma SomeBlockFree(existing: seq<Prefix>, bits: Bits)
    requires |existing| < 248 && bits >= 16 && forall q | q in existing :: Stored(q)
    ensures exists second: nat :: FIRST_BLOCK <= second <= LAST_BLOCK && Apart(existing, Candidate(second, bits))
  {
    var hit, all := Hit(Taken(existing)), Interval(FIRST_BLOCK, LAST_BLOCK);
    FewHit(hit, Taken(existing));
    SubsetSize(hit, all);
    assert |all| == 248;
    assert hit != all;
    var second :| second in all && second !in hit;
    FreeBlockIsApart(existing, second, bits);
  }

  lemma {:induction false} FewHit(hit: set<int>, taken: set<int>)
    requires forall n | n in hit :: BlockStart(n) in taken
    ensures |hit| <= |taken|
    decreases |hit|
  {
    if hit != {} {
      var n := Pick(hit);
      FewHit(hit - {n}, taken - {BlockStart(n)});
    }
  }

  /**
   The first candidate apart from every existing server. When there is none the default
   comes back though it clashes, so the result is apart exactly when some candidate is;
   with fewer than 248 servers stored, one always is.
   */
  method NextFreeSubnet(existing: seq<Prefix>, bits: Bits) returns (p: Prefix)
    requires MIN_SUBNET_BITS <= bits <= MAX_SUBNET_BITS
    ensures Stored(p) && p.bits == bits && IsHostAddress(p)
    ensures Apart(existing, p) <==>
            exists second: nat :: FIRST_BLOCK <= second <= LAST_BLOCK && Apart(existing, Candidate(second, bits))
    ensures |existing| < 248 && (forall q | q in existing :: Stored(q)) ==> Apart(existing, p)
    ensures exists second: nat ::
              8 <= second <= 255 && p == Candidate(second, bits) && p.addr == 0xA00_0001 + 0x1_0000 * second
              && forall n: nat | Apart(existing, p) && 8 <= n < second :: !Apart(existing, Candidate(n, bits))
  {
    if |existing| < 248 && forall q | q in existing :: Stored(q) {
      SomeBlockFree(existing, bits);
    }
    for second: nat := FIRST_BLOCK to LAST_BLOCK + 1
      invariant forall n: nat | FIRST_BLOCK <= n < second :: !Apart(existing, Candidate(n, bits))
    {
      p := Candidate(second, bits);
      var other := Overlapping(existing, p);
      if other.None? {
        CandidateIsHost(second, bits);
        return;
      }
    }
    p := Candidate(8, bits);
    CandidateIsHost(8, bits);
  }

  lemma CandidateIsHost(second: nat, bits: Bits)
    requires second <= LAST_BLOCK && MIN_SUBNET_BITS <= bits <= MAX_SUBNET_BITS
    ensures IsHostAddress(Candidate(second, bits))
  {
    var p := Candidate(second, bits);
    CandidateBlock(second, bits);
    HostRangeIs(p);
    SizeFalls(16, bits);
    SizeFacts();
    var n := BlockStart(second);
    WholeBlocks(0xA00 + second);
    MultipleOfMultiple(n, Size(16), Size(bits));
    FloorPlus(n, 1, Size(bits));
  }

  /** Creating servers one at a time keeps all their subnets apart. */
  lemma CreatingKeepsApart(existing: seq<Prefix>, p: Prefix)
    requires PairwiseApart(existing) && Apart(existing, p)
    ensures PairwiseApart(existing + [p])
  {
  }

  // ---------------------------------------------------------------- a subnet big enough

  /** The longest prefix up to /24 that leaves room for `n` devices. */
  method SubnetBitsFor(n: int) returns (bits: int, ok: bool)
    ensures ok <==> 1 <= n <= Capacity(MIN_SUBNET_BITS)
    ensures ok ==> MIN_SUBNET_BITS <= bits <= DEFAULT_BITS && n <= Capacity(bits)
    ensures ok ==> forall b: Bits | bits < b <= DEFAULT_BITS :: Capacity(b) < n
  {
    bits := DEFAULT_BITS;
    while bits >= MIN_SUBNET_BITS
      invariant MIN_SUBNET_BITS - 1 <= bits <= DEFAULT_BITS
      invariant forall b: Bits | bits < b <= DEFAULT_BITS :: Capacity(b) < n
    {
      if n <= Capacity(bits) {
        SizeFalls(MIN_SUBNET_BITS, bits);
        return bits, n >= 1;
      }
      bits := bits - 1;
    }
    return 0, false;
  }

  /**
   The subnet of a new server: the one asked for if it overlaps no other, or a free one,
   sized for the devices it is to hold. None when the request is refused.
   */
  method ChooseSubnet(existing: seq<Prefix>, address: Option<Prefix>, maxDevices: Option<int>)
    returns (r: Option<Prefix>)
    requires PairwiseApart(existing) && forall q | q in existing :: Stored(q)
    ensures r.Some? ==> Stored(r.value) && IsHostAddress(r.value)
    ensures r.Some? && (address.Some? || |existing| < 248) ==> PairwiseApart(existing + [r.value])
    ensures r.Some? && address.Some? ==> r == address
    ensures r.Some? && address.None? && maxDevices.None? ==> r.value.bits == 24
    ensures r.Some? && maxDevices.Some? ==> 1 <= maxDevices.value <= Capacity(r.value.bits)
    ensures r.Some? && maxDevices.Some? ==> forall b: Bits | r.value.bits < b <= 24 :: Capacity(b) < maxDevices.value
    ensures r.None? <==>
            || (maxDevices.Some? && (address.Some? || !(1 <= maxDevices.value <= Capacity(MIN_SUBNET_BITS))))
            || (address.Some?
                && !(Apart(existing, address.value) && Stored(address.value) && IsHostAddress(address.value)))
  {
    var p := NextFreeSubnet(existing, DEFAULT_BITS);
    var refused := false;
    if address.Some? {
      p := address.value;
    }
    if maxDevices.Some? {
      var bits, ok := SubnetBitsFor(maxDevices.value);
      if address.Some? || !ok {
        refused := true;
      } else {
        p := NextFreeSubnet(existing, bits);
      }
    }
    if address.Some? {
      var other := Overlapping(existing, p);
      refused := refused || other.Some?;
    }
    if refused || !Stored(p) || !IsHostAddress(p) {
      return None;
    }
    if Apart(existing, p) {
      CreatingKeepsApart(existing, p);
    }
    return Some(p);
  }

  // ---------------------------------------------------------------- a free port

  datatype Listener = Listener(node: nat, port: nat)

  predicate PortUsed(existing: seq<Listener>, node: nat, port: nat) {
    Listener(node, port) in existing
  }

  /** The lowest free port of a node from the default up; the last one when none is free. */
  method NextFreePort(existing: seq<Listener>, node: nat) returns (port: nat)
    ensures DEFAULT_PORT <= port <= 65535
    ensures forall n | DEFAULT_PORT <= n < port :: PortUsed(existing, node, n)
    ensures PortUsed(existing, node, port) <==> forall n | DEFAULT_PORT <= n <= 65535 :: PortUsed(existing, node, n)
  {
    var used: set<nat> := {};
    for i := 0 to |existing|
      invariant forall n: nat :: n in used <==> PortUsed(existing[..i], node, n)
    {
      assert existing[..i + 1] == existing[..i] + [existing[i]];
      if existing[i].node == node {
        used := used + {existing[i].port};
      }
    }
    assert existing[..|existing|] == existing;
    port := DEFAULT_PORT;
    while port in used && port < 65535
      invariant DEFAULT_PORT <= port <= 65535
      invariant forall n | DEFAULT_PORT <= n < port :: PortUsed(existing, node, n)
    {
      port := port + 1;
    }
  }

  // ---------------------------------------------------------------- the emptiest server

  /** A server as the picker sees it; country and city with their case folded. */
  datatype Server = Server(id: nat, address: Prefix, running: bool, country: string, city: string)

  /** In the place asked for, and not the one a device is leaving. */
  predicate Wanted(s: Server, country: string, city: string, skip: nat) {
    s.id != skip && (country == "" || s.country == country) && (city == "" || s.city == city)
  }

  function Count(peers: Peers, s: Server): nat {
    |On(peers, s.id)|
  }

  /** Up, with an address left for one more device. */
  ghost predicate Open(instances: Instances, peers: Peers, s: Server) {
    s.running && s.id in instances && !Exhausted(instances, peers, s.id)
  }

  /** The servers' addresses are the stored ones. */
  predicate Listed(servers: seq<Server>, instances: Instances) {
    forall i | 0 <= i < |servers| :: servers[i].id in instances && servers[i].address == instances[servers[i].id]
  }

  /** How many peers each server has. */
  method PeerCounts(servers: seq<Server>, peers: Peers) returns (counts: seq<nat>)
    ensures |counts| == |servers| && forall i | 0 <= i < |servers| :: counts[i] == Count(peers, servers[i])
  {
    counts := [];
    for i := 0 to |servers|
      invariant |counts| == i && forall k | 0 <= k < i :: counts[k] == Count(peers, servers[k])
    {
      counts := counts + [Count(peers, servers[i])];
    }
  }

  /** Comes first in the order by count and then by position. */
  predicate Before(counts: seq<nat>, i: nat, k: nat)
    requires i < |counts| && k < |counts|
  {
    counts[i] < counts[k] || (counts[i] == counts[k] && i <= k)
  }

  predicate Eligible(s: Server, count: nat, country: string, city: string, skip: nat)
    requires s.address.V4?
  {
    Wanted(s, country, city, skip) && s.running && count < Capacity(s.address.bits)
  }

  /** Counting is as good as looking: an eligible server is one with a free address. */
  lemma EligibleIsOpen(
    servers: seq<Server>, instances: Instances, peers: Peers, i: nat, country: string, city: string, skip: nat)
    requires Sound(instances, peers) && Listed(servers, instances) && i < |servers|
    ensures servers[i].address.V4?
    ensures Eligible(servers[i], Count(peers, servers[i]), country, city, skip)
            <==> Wanted(servers[i], country, city, skip) && Open(instances, peers, servers[i])
  {
    CapacityIsExact(instances, peers, servers[i].id);
  }

  /**
   The running server asked for with a free address and the fewest devices, the first of
   those; none exactly when no such server has a free address.
   */
  method Select(servers: seq<Server>, instances: Instances, peers: Peers, country: string, city: string, skip: nat)
    returns (best: Option<nat>)
    requires Sound(instances, peers) && Listed(servers, instances)
    ensures best.Some? ==> best.value < |servers|
    ensures best.Some? ==>
              Wanted(servers[best.value], country, city, skip) && Open(instances, peers, servers[best.value])
    ensures best.Some? ==> servers[best.value].id != skip && servers[best.value].running
    ensures best.Some? && country != "" ==> servers[best.value].country == country
    ensures best.Some? && city != "" ==> servers[best.value].city == city
    ensures best.None? ==>
              forall s | s in servers && s.running && s.id != skip && (country == "" || s.country == country)
                         && (city == "" || s.city == city) ::
                Exhausted(instances, peers, s.id)
    ensures forall i: nat |
              i < |servers| && Wanted(servers[i], country, city, skip) && Open(instances, peers, servers[i]) ::
              best.Some? && Count(peers, servers[best.value]) <= Count(peers, servers[i])
              && (Count(peers, servers[best.value]) == Count(peers, servers[i]) ==> best.value <= i)
  {
    var counts := PeerCounts(servers, peers);
    forall i: nat | i < |servers|
      ensures Eligible(servers[i], counts[i], country, city, skip)
              <==> Wanted(servers[i], country, city, skip) && Open(instances, peers, servers[i])
    {
      EligibleIsOpen(servers, instances, peers, i, country, city, skip);
    }
    best := Emptiest(servers, counts, country, city, skip);
  }

  method Emptiest(servers: seq<Server>, counts: seq<nat>, country: string, city: string, skip: nat)
    returns (best: Option<nat>)
    requires |counts| == |servers| && forall i | 0 <= i < |servers| :: servers[i].address.V4?
    ensures best.Some? ==>
              best.value < |servers| && Eligible(servers[best.value], counts[best.value], country, city, skip)
    ensures forall i: nat | i < |servers| && Eligible(servers[i], counts[i], country, city, skip) ::
              best.Some? && Before(counts, best.value, i)
  {
    best := None;
    for i := 0 to |servers|
      invariant best.Some? ==> best.value < i && Eligible(servers[best.value], counts[best.value], country, city, skip)
      invariant forall k: nat | k < i && Eligible(servers[k], counts[k], country, city, skip) ::
                  best.Some? && Before(counts, best.value, k)
    {
      var s, n := servers[i], counts[i];
      if Wanted(s, country, city, skip) {
        if s.running && n < Capacity(s.address.bits) && (best.None? || n < counts[best.value]) {
          best := Some(i);
        }
      }
    }
  }
}
