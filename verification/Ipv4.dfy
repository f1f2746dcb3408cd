/** IPv4 addresses as 32-bit numbers, CIDR blocks and the daemon's fixed topology. */
module Ipv4 {
  import opened Base

  type Address = a: int | 0 <= a < 0x1_0000_0000

  function Pow2(n: nat): (r: nat)
    ensures r > 0
  {
    if n == 0 then 1 else 2 * Pow2(n - 1)
  }

  /** A block as `ipaddress.IPv4Network` holds it: the host bits of `base` are zero. */
  datatype Cidr = Cidr(base: int, bits: nat) {
    function Size(): (n: nat)
      requires bits <= 32
      ensures n > 0
    {
      Pow2(32 - bits)
    }

    predicate Valid() {
      bits <= 32 && 0 <= base && base % Size() == 0 && base + Size() <= 0x1_0000_0000
    }

    /** Prefix match: the leftmost `bits` bits agree (section 3.1 of RFC 4632). */
    predicate Contains(a: Address)
      requires bits <= 32
    {
      a / Size() == base / Size()
    }

    /** First address `hosts()` yields: blocks wider than /31 skip the network address. */
    function FirstHost(): int
      requires bits <= 32
    {
      if bits >= 31 then base else base + 1
    }

    /** Last address `hosts()` yields: blocks wider than /31 skip the broadcast address. */
    function LastHost(): int
      requires bits <= 32
    {
      if bits >= 31 then base + Size() - 1 else base + Size() - 2
    }

    ghost predicate IsHost(a: int)
      requires bits <= 32
    {
      FirstHost() <= a <= LastHost()
    }
  }

  const WG_SUBNET := Cidr(10 * 0x1000000 + 8 * 0x10000, 24)
  const WG_SERVER_IP: Address := 10 * 0x1000000 + 8 * 0x10000 + 1
  const DOCKER_POOL := Cidr(10 * 0x1000000 + 9 * 0x10000, 16)

  /** First address of 10.9.octet.0/24. */
  function OctetBase(octet: int): int { 10 * 0x1000000 + 9 * 0x10000 + octet * 0x100 }

  /** `None` is the ValueError raised for an octet outside 1-254. */
  function OwnerSubnet(octet: int): Option<Cidr> {
    if 1 <= octet <= 254 then Some(Cidr(OctetBase(octet), 24)) else None
  }

  function OwnerGateway(octet: int): Address
    requires 1 <= octet <= 254
  {
    OctetBase(octet) + 1
  }

  function HostRoute(a: Address): Cidr { Cidr(a, 32) }

  // ----- arithmetic of the blocks in use

  lemma BlockSizes()
    ensures Pow2(0) == 1 && Pow2(8) == 0x100 && Pow2(16) == 0x10000
  {
    assert Pow2(4) == 16;
    assert Pow2(8) == 0x100;
    assert Pow2(12) == 0x1000;
    assert Pow2(16) == 0x10000;
  }

  lemma QuotientRange(a: int, q: int, n: int)
    requires n > 0
    ensures a / n == q <==> q * n <= a < q * n + n
  {
    var d := a / n;
    var k := d - q;
    assert a == d * n + a % n;
    assert d * n == q * n + k * n;
    if k >= 1 {
      assert k * n >= n;
    } else if k <= -1 {
      assert k * n <= -n;
    }
  }

  /** The prefix test is the range test, for every aligned block. */
  lemma ContainsIsRange(c: Cidr, a: Address)
    requires c.Valid()
    ensures c.Contains(a) <==> c.base <= a < c.base + c.Size()
  {
    var q := c.base / c.Size();
    QuotientRange(c.base, q, c.Size());
    QuotientRange(a, q, c.Size());
    assert c.base == q * c.Size() + c.base % c.Size();
  }

  /** An owner's subnet, the pool and the VPN subnet as ranges of addresses. */
  lemma TopologyRanges(a: Address)
    ensures WG_SUBNET.Valid() && DOCKER_POOL.Valid()
    ensures WG_SUBNET.Contains(a) <==> WG_SUBNET.base <= a <= WG_SUBNET.base + 255
    ensures DOCKER_POOL.Contains(a) <==> DOCKER_POOL.base <= a <= DOCKER_POOL.base + 0xffff
    ensures forall k | 1 <= k <= 254 ::
              OwnerSubnet(k).value.Valid() &&
              (OwnerSubnet(k).value.Contains(a) <==> OctetBase(k) <= a <= OctetBase(k) + 255)
  {
    BlockSizes();
    ContainsIsRange(WG_SUBNET, a);
    ContainsIsRange(DOCKER_POOL, a);
    forall k | 1 <= k <= 254
      ensures OwnerSubnet(k).value.Valid()
      ensures OwnerSubnet(k).value.Contains(a) <==> OctetBase(k) <= a <= OctetBase(k) + 255
    {
      ContainsIsRange(OwnerSubnet(k).value, a);
    }
  }

  /** The hosts of a block are its addresses without the first and the last, or all of a /31 or /32. */
  lemma HostIff(c: Cidr, a: Address)
    requires c.Valid()
    ensures c.IsHost(a) <==> c.Contains(a) && (c.bits < 31 ==> a != c.base && a != c.base + c.Size() - 1)
  {
    ContainsIsRange(c, a);
  }

  lemma HostRouteMatchesOnlyItself(a: Address, b: Address)
    ensures HostRoute(a).Contains(b) <==> a == b
  {
    BlockSizes();
  }

  /** One address lies in at most one owner's subnet, and then in the pool, never in the VPN. */
  lemma SubnetsPartitionThePool(a: Address, j: int, k: int)
    requires 1 <= j <= 254 && 1 <= k <= 254
    requires OwnerSubnet(j).value.Contains(a)
    ensures OwnerSubnet(k).value.Contains(a) <==> j == k
    ensures DOCKER_POOL.Contains(a) && !WG_SUBNET.Contains(a)
  {
    TopologyRanges(a);
  }

  // ----- host iteration

  /** `iter_subnet_hosts`: the lowest host address not excluded; `None` is the exhausted error.
      Excluded strings need not be addresses: a row may record the empty string. */
  method IterSubnetHosts(network: Cidr, exclude: set<Option<Address>>) returns (r: Option<Address>)
    requires network.Valid()
    ensures r.Some? ==>
              network.IsHost(r.value) && r !in exclude &&
              forall h: Address :: network.FirstHost() <= h < r.value ==> Some(h) in exclude
    ensures r.None? ==> forall h: Address :: network.IsHost(h) ==> Some(h) in exclude
  {
    var host := network.FirstHost();
    while host <= network.LastHost()
      invariant network.FirstHost() <= host
      invariant forall h: Address :: network.FirstHost() <= h < host ==> Some(h) in exclude
      decreases network.LastHost() - host
    {
      if Some(host) !in exclude {
        return Some(host);
      }
      host := host + 1;
    }
    r := None;
  }

  /** The hosts of a block in ascending order without the reserved ones, from `host` on. */
  function HostsFrom(network: Cidr, reserved: set<Address>, host: int): (s: seq<Address>)
    requires network.Valid() && network.FirstHost() <= host
    ensures forall a :: a in s <==> host <= a <= network.LastHost() && a !in reserved
    ensures forall i, j :: 0 <= i < j < |s| ==> s[i] < s[j]
    decreases network.LastHost() - host
  {
    if host > network.LastHost() then []
    else if host in reserved then HostsFrom(network, reserved, host + 1)
    else
      var rest := HostsFrom(network, reserved, host + 1);
      assert forall i :: 0 <= i < |rest| ==> rest[i] in rest;
      [host] + rest
  }

  /** `ordered_subnet_hosts`. */
  function OrderedSubnetHosts(network: Cidr, reserved: set<Address>): (s: seq<Address>)
    requires network.Valid()
    ensures forall a :: a in s <==> network.IsHost(a) && a !in reserved
    ensures forall i, j :: 0 <= i < j < |s| ==> s[i] < s[j]
  {
    HostsFrom(network, reserved, network.FirstHost())
  }
}
