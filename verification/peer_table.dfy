/** Peers and the addresses they are given: creating, moving and deleting them. */
module PeerTable {
  import opened Addresses
  import opened Counting
  import opened Sets
  import opened Wrappers

  datatype Peer = Peer(instance: nat, address: Addr)

  datatype Error = NotFound | SubnetFull | Refused

  type Instances = map<nat, Prefix>

  type Peers = map<nat, Peer>

  /** The addresses of one instance's peers, by peer. */
  function On(peers: Peers, i: nat): map<nat, int> {
    map id | id in peers && peers[id].instance == i :: peers[id].address
  }

  function Masked(p: Prefix): Prefix {
    if p.V4? then V4(Network(p.addr, p.bits), p.bits) else p
  }

  /** A peer's address: a host of the subnet, and not the server's own. */
  predicate Fits(server: Prefix, a: Addr) {
    IsHostOf(server, a) && a != server.addr
  }

  /** No two peers of one instance share an address, and each has one that fits. */
  ghost predicate Sound(instances: Instances, peers: Peers) {
    && (forall i | i in instances :: IsHostAddress(instances[i]))
    && (forall id | id in peers ::
          peers[id].instance in instances && Fits(instances[peers[id].instance], peers[id].address))
    && (forall i, a, b | a in On(peers, i) && b in On(peers, i) && a != b :: On(peers, i)[a] != On(peers, i)[b])
  }

  /** Every address that fits is taken. */
  ghost predicate Exhausted(instances: Instances, peers: Peers, i: nat)
    requires i in instances
  {
    forall a: Addr | Fits(instances[i], a) :: a in On(peers, i).Values
  }

  /** Pigeonhole: a subnet is full exactly when it has as many peers as its capacity, and never has more. */
  lemma CapacityIsExact(instances: Instances, peers: Peers, i: nat)
    requires Sound(instances, peers) && i in instances
    ensures |On(peers, i)| <= Capacity(instances[i].bits)
    ensures Exhausted(instances, peers, i) <==> |On(peers, i)| == Capacity(instances[i].bits)
  {
    var server, rows := instances[i], On(peers, i);
    assert IsHostAddress(server);
    HostCount(server);
    var free := Hosts(server) - {server.addr};
    assert |free| == Capacity(server.bits) by {
      HostRangeIs(server);
      assert server.addr in Hosts(server);
    }
    Injective(rows);
    assert |rows.Values| == |rows|;
    FitsAreFree(server);
    SubsetSize(rows.Values, free);
  }

  lemma FitsAreFree(server: Prefix)
    requires IsHostAddress(server)
    ensures forall n :: n in Hosts(server) - {server.addr} <==> 0 <= n < WORD && Fits(server, n)
  {
    HostCount(server);
    forall n: Addr
      ensures n in Hosts(server) <==> IsHostOf(server, n)
    {
      HostsAreHosts(server, n);
    }
  }

  lemma MaskedHosts(p: Prefix, a: Addr)
    ensures IsHostOf(Masked(p), a) <==> IsHostOf(p, a)
  {
    if p.V4? {
      SameBlock(Network(p.addr, p.bits), p.addr, Size(p.bits));
    }
  }

  /** Giving a peer an address that is free on its instance keeps the table sound. */
  lemma PlacingKeeps(instances: Instances, peers: Peers, id: nat, i: nat, a: Addr)
    requires Sound(instances, peers) && i in instances && Fits(instances[i], a) && a !in On(peers, i).Values
    ensures Sound(instances, peers[id := Peer(i, a)])
  {
    var after := peers[id := Peer(i, a)];
    forall j, x, y | x in On(after, j) && y in On(after, j) && x != y
      ensures On(after, j)[x] != On(after, j)[y]
    {
      if x == id && j == i {
        assert y in On(peers, i) && On(peers, i)[y] in On(peers, i).Values;
      } else if y == id && j == i {
        assert x in On(peers, i) && On(peers, i)[x] in On(peers, i).Values;
      } else {
        assert x in On(peers, j) && y in On(peers, j);
      }
    }
  }

  lemma RemovingKeeps(instances: Instances, peers: Peers, ids: set<nat>)
    requires Sound(instances, peers)
    ensures Sound(instances, peers - ids)
  {
    var after := peers - ids;
    forall j, x, y | x in On(after, j) && y in On(after, j) && x != y
      ensures On(after, j)[x] != On(after, j)[y]
    {
      assert x in On(peers, j) && y in On(peers, j);
    }
  }

  class Table {
    var instances: Instances
    var peers: Peers
    var nextInstance: nat
    var nextPeer: nat

    /** Ids are never used twice. */
    ghost predicate Valid()
      reads this
    {
      && Sound(instances, peers)
      && (forall id | id in peers :: id < nextPeer)
      && (forall i | i in instances :: i < nextInstance)
    }

    constructor ()
      ensures Valid() && instances == map[] && peers == map[]
    {
      instances, peers, nextInstance, nextPeer := map[], map[], 1, 1;
    }

    method PeerAddresses(i: nat) returns (used: seq<Addr>)
      ensures forall a: Addr :: a in used <==> a in On(peers, i).Values
    {
      used := [];
      var rest := peers.Keys;
      while rest != {}
        invariant rest <= peers.Keys
        invariant forall a: Addr | a in used :: a in On(peers, i).Values
        invariant forall id | id in On(peers, i) && id !in rest :: On(peers, i)[id] in used
        decreases rest
      {
        var id := Least(rest);
        rest := rest - {id};
        if peers[id].instance == i {
          assert On(peers, i)[id] == peers[id].address;
          used := used + [peers[id].address];
        }
      }
    }

    /** The lowest address free on an instance. */
    method Allocate(i: nat) returns (a: Option<Addr>)
      requires Valid() && i in instances
      ensures a.Some? ==> Fits(instances[i], a.value) && a.value !in On(peers, i).Values
      ensures a.Some? ==> forall b: Addr | Fits(instances[i], b) && b < a.value :: b in On(peers, i).Values
      ensures a.None? <==> |On(peers, i)| == Capacity(instances[i].bits)
    {
      var server := instances[i];
      assert IsHostAddress(server);
      var used := PeerAddresses(i);
      a := NextAddress(Masked(server), used + [server.addr]);
      forall b: Addr
        ensures IsHostOf(Masked(server), b) <==> IsHostOf(server, b)
      {
        MaskedHosts(server, b);
      }
      CapacityIsExact(instances, peers, i);
    }

    /** `stored` is false when the row is refused, by a name or key already in use, say. */
    method CreatePeer(i: nat, stored: bool) returns (r: Result<(nat, Addr), Error>)
      requires Valid()
      modifies this`peers, this`nextPeer
      ensures Valid()
      ensures r.Ok? ==> i in instances && r.value.0 !in old(peers)
      ensures r.Ok? ==> peers == old(peers)[r.value.0 := Peer(i, r.value.1)]
      ensures r.Ok? ==> forall b: Addr | Fits(instances[i], b) && b < r.value.1 :: b in On(old(peers), i).Values
      ensures r.Err? ==> unchanged(this)
      ensures r == Err(NotFound) <==> i !in instances
      ensures r == Err(SubnetFull) <==> i in instances && |On(old(peers), i)| == Capacity(instances[i].bits)
      ensures r == Err(Refused) <==> i in instances && |On(old(peers), i)| != Capacity(instances[i].bits) && !stored
    {
      if i !in instances {
        return Err(NotFound);
      }
      var a := Allocate(i);
      if a.None? {
        return Err(SubnetFull);
      }
      if !stored {
        return Err(Refused);
      }
      PlacingKeeps(instances, peers, nextPeer, i, a.value);
      r := Ok((nextPeer, a.value));
      peers := peers[nextPeer := Peer(i, a.value)];
      nextPeer := nextPeer + 1;
    }

    /** The row stays; only its instance and address change. */
    method MovePeer(id: nat, i: nat, stored: bool) returns (r: Result<Addr, Error>)
      requires Valid()
      modifies this`peers
      ensures Valid()
      ensures r.Ok? ==> i in instances && id in old(peers) && peers == old(peers)[id := Peer(i, r.value)]
      ensures r.Ok? ==> r.value !in On(old(peers), i).Values
      ensures r.Ok? ==> forall b: Addr | Fits(instances[i], b) && b < r.value :: b in On(old(peers), i).Values
      ensures r.Err? ==> unchanged(this)
      ensures r == Err(Refused) <==> i in instances && |On(old(peers), i)| != Capacity(instances[i].bits) && !stored
      ensures r == Err(SubnetFull) <==> i in instances && |On(old(peers), i)| == Capacity(instances[i].bits)
      ensures r == Err(NotFound) <==>
                i !in instances ||
                (|On(old(peers), i)| != Capacity(instances[i].bits) && stored && id !in old(peers))
    {
      if i !in instances {
        return Err(NotFound);
      }
      var a := Allocate(i);
      if a.None? {
        return Err(SubnetFull);
      }
      if !stored {
        return Err(Refused);
      }
      if id !in peers {
        return Err(NotFound);
      }
      PlacingKeeps(instances, peers, id, i, a.value);
      peers := peers[id := Peer(i, a.value)];
      return Ok(a.value);
    }

    method DeletePeer(id: nat) returns (r: Option<Error>)
      requires Valid()
      modifies this`peers
      ensures Valid()
      ensures peers == old(peers) - {id} && r == if id in old(peers) then None else Some(NotFound)
    {
      if id !in peers {
        assert peers == peers - {id};
        return Some(NotFound);
      }
      RemovingKeeps(instances, peers, {id});
      peers := peers - {id};
      return None;
    }

    /** The address was validated: a host of an IPv4 subnet from /16 to /30. */
    method CreateInstance(address: Prefix) returns (i: nat)
      requires Valid() && IsHostAddress(address) && 16 <= address.bits
      modifies this`instances, this`nextInstance
      ensures Valid()
      ensures i !in old(instances) && instances == old(instances)[i := address] && On(peers, i) == map[]
    {
      i := nextInstance;
      instances := instances[i := address];
      nextInstance := nextInstance + 1;
    }

    /** An instance's peers go with it. */
    method DeleteInstance(i: nat) returns (r: Option<Error>)
      requires Valid()
      modifies this`instances, this`peers
      ensures Valid()
      ensures instances == old(instances) - {i} && On(peers, i) == map[]
      ensures forall id :: id in peers <==> id in old(peers) && old(peers)[id].instance != i
      ensures forall id | id in peers :: peers[id] == old(peers)[id]
      ensures r == if i in old(instances) then None else Some(NotFound)
    {
      if i !in instances {
        assert instances == instances - {i};
        return Some(NotFound);
      }
      RemovingKeeps(instances, peers, On(peers, i).Keys);
      peers := peers - On(peers, i).Keys;
      instances := instances - {i};
      return None;
    }
  }
}
