/** Who may reach whom, said about the daemon's tables alone, and that the compiled chain says the same. */
module Isolation {
  import opened Base
  import opened Ipv4
  import opened Database
  import opened Allocation
  import opened Firewall
  import opened Iptables

  /** Peer addresses come from the VPN's candidate list. */
  ghost predicate PeersInVpn(peers: seq<Peer>) {
    forall p :: p in peers ==> WG_SUBNET.IsHost(p.ip) && p.ip != WG_SERVER_IP
  }

  /** Some peer row has the address and its owner's current subnet holds the other address. */
  ghost predicate Admitted(peers: seq<Peer>, octets: Octets, peer: Address, other: Address)
    requires OctetTable(octets)
  {
    exists q :: q in peers && q.ip == peer && q.owner in octets && OwnerSubnet(octets[q.owner]).value.Contains(other)
  }

  ghost function Decision(publicIface: string, peers: seq<Peer>, octets: Octets, p: Packet): Verdict
    requires OctetTable(octets)
  {
    if WG_SUBNET.Contains(p.src) && WG_SUBNET.Contains(p.dst) then Dropped
    else if Admitted(peers, octets, p.src, p.dst) || Admitted(peers, octets, p.dst, p.src) then Accepted
    else if DOCKER_POOL.Contains(p.src) && (DOCKER_POOL.Contains(p.dst) || p.outIface == publicIface) then Dropped
    else FallThrough
  }

  // ----- the compiled chain makes this decision

  ghost predicate Groups(peers: seq<Peer>, groups: PeersByOwner) {
    forall o :: PeersOf(groups, o) == AddressesOf(peers, o)
  }

  ghost predicate Lists(octets: Octets, rows: OctetsByOwner) {
    forall o, k :: (o, k) in rows <==> o in octets && octets[o] == k
  }

  lemma ListsInRange(octets: Octets, rows: OctetsByOwner)
    requires OctetTable(octets) && Lists(octets, rows)
    ensures InRange(rows)
  {
    assert forall i :: 0 <= i < |rows| ==> (rows[i].0, rows[i].1) in rows;
  }

  lemma PairedIsAdmitted(peers: seq<Peer>, octets: Octets, groups: PeersByOwner, rows: OctetsByOwner, a: Address, b: Address)
    requires OctetTable(octets) && Groups(peers, groups) && Lists(octets, rows)
    ensures InRange(rows)
    ensures Paired(groups, rows, a, b) <==> Admitted(peers, octets, a, b)
  {
    ListsInRange(octets, rows);
    if Paired(groups, rows, a, b) {
      var i :| 0 <= i < |rows| && a in PeersOf(groups, rows[i].0) && OwnerSubnet(rows[i].1).value.Contains(b);
      AddressesOfMembers(peers, rows[i].0, a);
    }
    if Admitted(peers, octets, a, b) {
      var q :| q in peers && q.ip == a && q.owner in octets && OwnerSubnet(octets[q.owner]).value.Contains(b);
      AddressesOfMembers(peers, q.owner, a);
      assert (q.owner, octets[q.owner]) in rows;
    }
  }

  lemma MeaningIsDecision(publicIface: string, peers: seq<Peer>, octets: Octets, groups: PeersByOwner,
                          rows: OctetsByOwner, p: Packet)
    requires OctetTable(octets) && Groups(peers, groups) && Lists(octets, rows)
    ensures InRange(rows) && Meaning(publicIface, groups, rows, p) == Decision(publicIface, peers, octets, p)
  {
    PairedIsAdmitted(peers, octets, groups, rows, p.src, p.dst);
    PairedIsAdmitted(peers, octets, groups, rows, p.dst, p.src);
  }

  /** EDO_FORWARD is hooked first in a candidate chain and decides every packet as `Decision` says. */
  ghost predicate Enforced(chains: Chains, publicIface: string, peers: seq<Peer>, octets: Octets) {
    && OctetTable(octets)
    && EdoForward in chains && (exists c :: HookedIn(chains, c))
    && exists rules: seq<Rule> :: Enforces(rules, chains[EdoForward], publicIface, peers, octets)
  }

  ghost predicate Enforces(rules: seq<Rule>, edo: Chain, publicIface: string, peers: seq<Peer>, octets: Octets)
    requires OctetTable(octets)
  {
    && edo == Filters(rules) && ValidRules(rules)
    && forall p :: ChainVerdict(rules, p) == Decision(publicIface, peers, octets, p)
  }

  lemma InstalledIsEnforced(chains: Chains, target: ChainName, publicIface: string, peers: seq<Peer>, octets: Octets,
                            groups: PeersByOwner, rows: OctetsByOwner)
    requires OctetTable(octets) && Groups(peers, groups) && Lists(octets, rows)
    requires InRange(rows) && Installed(chains, target, publicIface, groups, rows)
    ensures Enforced(chains, publicIface, peers, octets)
  {
    var rules := ChainRules(publicIface, groups, rows);
    var kept: seq<Rule> :| chains[EdoForward] == Filters(kept) && Thinned(kept, rules);
    forall p
      ensures ValidRules(kept) && ChainVerdict(kept, p) == Decision(publicIface, peers, octets, p)
    {
      ChainMeaning(publicIface, groups, rows, p);
      ThinnedPreservesVerdict(kept, rules, p);
      MeaningIsDecision(publicIface, peers, octets, groups, rows, p);
    }
    assert ValidRules(kept) by {
      var sample := Packet(0, 0, "");
      ChainMeaning(publicIface, groups, rows, sample);
      ThinnedPreservesVerdict(kept, rules, sample);
    }
    assert Enforces(kept, chains[EdoForward], publicIface, peers, octets);
  }

  /** A chain it is hooked into decides a packet as `Decision` does, or leaves it to the foreign rules. */
  lemma EnforcedDecides(chains: Chains, c: ChainName, rules: seq<Rule>, publicIface: string, peers: seq<Peer>, octets: Octets,
                        decide: KernelRule -> Verdict, p: Packet)
    requires Enforced(chains, publicIface, peers, octets) && HookedIn(chains, c)
    requires Enforces(rules, chains[EdoForward], publicIface, peers, octets) && Decides(chains, decide, p)
    ensures var own := Decision(publicIface, peers, octets, p);
            Traverse(chains[c], decide) == if own != FallThrough then own else Traverse(StripHooks(chains[c]), decide)
  {
    TraverseFilters(rules, decide, p);
    if decide(Hook) == FallThrough {
      FallThroughHooksAreInert(chains[c], decide);
    }
  }

  // ----- what the decision means for peers, subnets and instances

  /** The whole decision by where a packet comes from and goes to: VPN, pool or elsewhere. The three do
      not overlap, so no rule of one zone shadows another's, and nothing is accepted but between a peer
      and its owner's current subnet. */
  lemma DecisionByZone(publicIface: string, peers: seq<Peer>, octets: Octets, p: Packet)
    requires OctetTable(octets) && PeersInVpn(peers)
    ensures var fromVpn, fromPool := WG_SUBNET.Contains(p.src), DOCKER_POOL.Contains(p.src);
            var toVpn, toPool := WG_SUBNET.Contains(p.dst), DOCKER_POOL.Contains(p.dst);
            && !(fromVpn && fromPool) && !(toVpn && toPool)
            && (Admitted(peers, octets, p.src, p.dst) ==> fromVpn && toPool)
            && (Admitted(peers, octets, p.dst, p.src) ==> fromPool && toVpn)
            && Decision(publicIface, peers, octets, p) ==
               if fromVpn then
                 if toVpn then Dropped else if Admitted(peers, octets, p.src, p.dst) then Accepted else FallThrough
               else if fromPool then
                 if Admitted(peers, octets, p.dst, p.src) then Accepted
                 else if toPool || p.outIface == publicIface then Dropped else FallThrough
               else FallThrough
  {
    TopologyRanges(p.src);
    TopologyRanges(p.dst);
  }

  /** From a peer to subnet k and back: accepted if and only if the peer's owner holds octet k. A packet
      to a foreign subnet is not dropped here but handed back; only the way out is closed. */
  lemma PeerReachesOnlyItsOwner(publicIface: string, peers: seq<Peer>, nextId: nat, octets: Octets,
                                q: Peer, k: int, b: Address, out: string)
    requires PeerTable(peers, nextId) && OctetTable(octets) && PeersInVpn(peers)
    requires q in peers && 1 <= k <= 254 && OwnerSubnet(k).value.Contains(b)
    ensures var own := q.owner in octets && octets[q.owner] == k;
            && Decision(publicIface, peers, octets, Packet(q.ip, b, out)) == (if own then Accepted else FallThrough)
            && Decision(publicIface, peers, octets, Packet(b, q.ip, out)) ==
               (if own then Accepted else if out == publicIface then Dropped else FallThrough)
  {
    TopologyRanges(q.ip);
    TopologyRanges(b);
    SubnetsPartitionThePool(b, k, k);
    assert Admitted(peers, octets, q.ip, b) <==> q.owner in octets && octets[q.owner] == k by {
      if Admitted(peers, octets, q.ip, b) {
        var q' :| q' in peers && q'.ip == q.ip && q'.owner in octets && OwnerSubnet(octets[q'.owner]).value.Contains(b);
        SubnetsPartitionThePool(b, k, octets[q'.owner]);
      }
    }
    assert !Admitted(peers, octets, b, q.ip);
  }

  lemma InstancesHaveAddresses(rows: seq<Instance>, octets: Octets, r: Instance, s: Instance)
    requires OctetTable(octets) && WellAllocated(rows, octets)
    requires r in rows && r.status == Running && s in rows && s.status == Running
    ensures r.assignedIp.Some? && s.assignedIp.Some? && (r.assignedIp == s.assignedIp <==> r == s)
    ensures r.owner in octets && 1 <= octets[r.owner] <= 254
    ensures OwnerSubnet(octets[r.owner]).value.Contains(r.assignedIp.value)
    ensures DOCKER_POOL.Contains(r.assignedIp.value) && DOCKER_POOL.Contains(s.assignedIp.value)
  {
    assert Placed(r, octets) && Placed(s, octets);
    TopologyRanges(r.assignedIp.value);
    TopologyRanges(s.assignedIp.value);
    if r != s {
      RunningAddressesAreUnique(rows, octets, r, s);
    }
  }

  /** Allocation and firewall together. The chain may have been built from older octets: a peer then
      reaches a running instance, and is reached by it, if and only if its owner held at that time the
      octet that the instance's owner holds now. */
  lemma PeerReachesThroughChainOf(publicIface: string, peers: seq<Peer>, nextId: nat, built: Octets, octets: Octets,
                                  rows: seq<Instance>, q: Peer, r: Instance, out: string)
    requires PeerTable(peers, nextId) && PeersInVpn(peers)
    requires OctetTable(built) && OctetTable(octets) && WellAllocated(rows, octets)
    requires q in peers && r in rows && r.status == Running
    ensures r.owner in octets && r.assignedIp.Some?
    ensures var a := r.assignedIp.value; var reached := q.owner in built && built[q.owner] == octets[r.owner];
            && (Decision(publicIface, peers, built, Packet(q.ip, a, out)) == Accepted <==> reached)
            && (Decision(publicIface, peers, built, Packet(a, q.ip, out)) == Accepted <==> reached)
  {
    InstancesHaveAddresses(rows, octets, r, r);
    PeerReachesOnlyItsOwner(publicIface, peers, nextId, built, q, octets[r.owner], r.assignedIp.value, out);
  }

  /** With a current chain: if and only if both have the same owner. */
  lemma PeerReachesOnlyItsOwnersInstances(publicIface: string, peers: seq<Peer>, nextId: nat, octets: Octets,
                                          rows: seq<Instance>, q: Peer, r: Instance, out: string)
    requires PeerTable(peers, nextId) && OctetTable(octets) && PeersInVpn(peers) && WellAllocated(rows, octets)
    requires q in peers && r in rows && r.status == Running
    ensures r.assignedIp.Some?
    ensures var a, own := r.assignedIp.value, q.owner == r.owner;
            && Decision(publicIface, peers, octets, Packet(q.ip, a, out)) == (if own then Accepted else FallThrough)
            && Decision(publicIface, peers, octets, Packet(a, q.ip, out)) ==
               (if own then Accepted else if out == publicIface then Dropped else FallThrough)
  {
    InstancesHaveAddresses(rows, octets, r, r);
    PeerReachesOnlyItsOwner(publicIface, peers, nextId, octets, q, octets[r.owner], r.assignedIp.value, out);
  }

  // ----- and about the kernel's traversal

  lemma KernelToSubnet(chains: Chains, c: ChainName, publicIface: string, peers: seq<Peer>, nextId: nat, octets: Octets,
                       q: Peer, k: int, p: Packet, decide: KernelRule -> Verdict)
    requires PeerTable(peers, nextId) && OctetTable(octets) && PeersInVpn(peers)
    requires Enforced(chains, publicIface, peers, octets) && HookedIn(chains, c) && Decides(chains, decide, p)
    requires q in peers && p.src == q.ip && 1 <= k <= 254 && OwnerSubnet(k).value.Contains(p.dst)
    ensures Traverse(chains[c], decide) ==
            if q.owner in octets && octets[q.owner] == k then Accepted else Traverse(StripHooks(chains[c]), decide)
  {
    var rules :| Enforces(rules, chains[EdoForward], publicIface, peers, octets);
    EnforcedDecides(chains, c, rules, publicIface, peers, octets, decide, p);
    PeerReachesOnlyItsOwner(publicIface, peers, nextId, octets, q, k, p.dst, p.outIface);
  }

  lemma KernelFromSubnet(chains: Chains, c: ChainName, publicIface: string, peers: seq<Peer>, nextId: nat, octets: Octets,
                         q: Peer, k: int, p: Packet, decide: KernelRule -> Verdict)
    requires PeerTable(peers, nextId) && OctetTable(octets) && PeersInVpn(peers)
    requires Enforced(chains, publicIface, peers, octets) && HookedIn(chains, c) && Decides(chains, decide, p)
    requires q in peers && p.dst == q.ip && 1 <= k <= 254 && OwnerSubnet(k).value.Contains(p.src)
    ensures Traverse(chains[c], decide) ==
            if q.owner in octets && octets[q.owner] == k then Accepted
            else if p.outIface == publicIface then Dropped else Traverse(StripHooks(chains[c]), decide)
  {
    var rules :| Enforces(rules, chains[EdoForward], publicIface, peers, octets);
    EnforcedDecides(chains, c, rules, publicIface, peers, octets, decide, p);
    PeerReachesOnlyItsOwner(publicIface, peers, nextId, octets, q, k, p.src, p.outIface);
  }

  /** No peer reaches a peer, and no address of the pool another. */
  lemma KernelSeparates(chains: Chains, c: ChainName, publicIface: string, peers: seq<Peer>, octets: Octets, p: Packet,
                        decide: KernelRule -> Verdict)
    requires OctetTable(octets) && PeersInVpn(peers)
    requires Enforced(chains, publicIface, peers, octets) && HookedIn(chains, c) && Decides(chains, decide, p)
    requires (WG_SUBNET.Contains(p.src) && WG_SUBNET.Contains(p.dst)) ||
             (DOCKER_POOL.Contains(p.src) && DOCKER_POOL.Contains(p.dst))
    ensures Traverse(chains[c], decide) == Dropped
  {
    var rules :| Enforces(rules, chains[EdoForward], publicIface, peers, octets);
    EnforcedDecides(chains, c, rules, publicIface, peers, octets, decide, p);
    DecisionByZone(publicIface, peers, octets, p);
  }

  // ----- when a chain is out of date

  /** Some peer has the address and its owner holds octet `k`. */
  ghost predicate Granted(peers: seq<Peer>, octets: Octets, a: Address, k: int) {
    exists q :: q in peers && q.ip == a && q.owner in octets && octets[q.owner] == k
  }

  ghost predicate SameGrants(peers: seq<Peer>, octets: Octets, peers': seq<Peer>, octets': Octets) {
    forall a: Address, k: int :: Granted(peers, octets, a, k) <==> Granted(peers', octets', a, k)
  }

  lemma AdmittedIffGranted(peers: seq<Peer>, octets: Octets, a: Address, k: int, b: Address)
    requires OctetTable(octets) && 1 <= k <= 254 && OwnerSubnet(k).value.Contains(b)
    ensures Admitted(peers, octets, a, b) <==> Granted(peers, octets, a, k)
  {
    if Admitted(peers, octets, a, b) {
      var q :| q in peers && q.ip == a && q.owner in octets && OwnerSubnet(octets[q.owner]).value.Contains(b);
      SubnetsPartitionThePool(b, k, octets[q.owner]);
    }
  }

  lemma SameGrantsAdmitSame(peers: seq<Peer>, octets: Octets, peers': seq<Peer>, octets': Octets, a: Address, b: Address)
    requires OctetTable(octets) && OctetTable(octets') && SameGrants(peers, octets, peers', octets')
    requires Admitted(peers, octets, a, b)
    ensures Admitted(peers', octets', a, b)
  {
    var q :| q in peers && q.ip == a && q.owner in octets && OwnerSubnet(octets[q.owner]).value.Contains(b);
    var k := octets[q.owner];
    assert Granted(peers, octets, a, k);
    AdmittedIffGranted(peers', octets', a, k, b);
  }

  /** A grant shows in the decision of one packet. */
  lemma GrantIsVisible(publicIface: string, peers: seq<Peer>, octets: Octets, a: Address, k: int)
    requires OctetTable(octets) && PeersInVpn(peers) && 1 <= k <= 254
    ensures Granted(peers, octets, a, k) <==>
            WG_SUBNET.Contains(a) && Decision(publicIface, peers, octets, Packet(a, OctetBase(k) + 2, "")) == Accepted
  {
    var b: Address := OctetBase(k) + 2;
    TopologyRanges(a);
    TopologyRanges(b);
    AdmittedIffGranted(peers, octets, a, k, b);
    DecisionByZone(publicIface, peers, octets, Packet(a, b, ""));
  }

  /** Two states of the tables decide every packet alike if and only if they grant the same pairs of peer
      address and octet. */
  lemma DecisionsAgreeIff(publicIface: string, peers: seq<Peer>, octets: Octets, peers': seq<Peer>, octets': Octets)
    requires OctetTable(octets) && OctetTable(octets') && PeersInVpn(peers) && PeersInVpn(peers')
    ensures (forall p :: Decision(publicIface, peers, octets, p) == Decision(publicIface, peers', octets', p))
            <==> SameGrants(peers, octets, peers', octets')
  {
    if SameGrants(peers, octets, peers', octets') {
      forall p: Packet
        ensures Decision(publicIface, peers, octets, p) == Decision(publicIface, peers', octets', p)
      {
        GrantsDecide(publicIface, peers, octets, peers', octets', p);
      }
    } else {
      var a: Address, k: int :| Granted(peers, octets, a, k) != Granted(peers', octets', a, k);
      GrantIsVisible(publicIface, peers, octets, a, k);
      GrantIsVisible(publicIface, peers', octets', a, k);
    }
  }

  lemma GrantsDecide(publicIface: string, peers: seq<Peer>, octets: Octets, peers': seq<Peer>, octets': Octets, p: Packet)
    requires OctetTable(octets) && OctetTable(octets') && SameGrants(peers, octets, peers', octets')
    ensures Decision(publicIface, peers, octets, p) == Decision(publicIface, peers', octets', p)
  {
    if Admitted(peers, octets, p.src, p.dst) { SameGrantsAdmitSame(peers, octets, peers', octets', p.src, p.dst); }
    if Admitted(peers', octets', p.src, p.dst) { SameGrantsAdmitSame(peers', octets', peers, octets, p.src, p.dst); }
    if Admitted(peers, octets, p.dst, p.src) { SameGrantsAdmitSame(peers, octets, peers', octets', p.dst, p.src); }
    if Admitted(peers', octets', p.dst, p.src) { SameGrantsAdmitSame(peers', octets', peers, octets, p.dst, p.src); }
  }

  /** The octet an owner holds, if any. */
  function Held(octets: Octets, owner: Owner): Option<int> { if owner in octets then Some(octets[owner]) else None }

  /** No peer's owner holds another octet than before, or one more, or one less. */
  ghost predicate PeersKeepOctets(peers: seq<Peer>, octets: Octets, octets': Octets) {
    forall q :: q in peers ==> Held(octets, q.owner) == Held(octets', q.owner)
  }

  /** With the same peers: if and only if no peer's owner changed octet. */
  lemma SamePeersGrantIff(peers: seq<Peer>, nextId: nat, octets: Octets, octets': Octets)
    requires PeerTable(peers, nextId)
    ensures SameGrants(peers, octets, peers, octets') <==> PeersKeepOctets(peers, octets, octets')
  {
    if SameGrants(peers, octets, peers, octets') {
      forall q | q in peers
        ensures Held(octets, q.owner) == Held(octets', q.owner)
      {
        if q.owner in octets {
          assert Granted(peers, octets, q.ip, octets[q.owner]);
          assert Granted(peers, octets', q.ip, octets[q.owner]);
        } else if q.owner in octets' {
          assert Granted(peers, octets', q.ip, octets'[q.owner]);
        }
      }
    } else {
      var a: Address, k: int :| Granted(peers, octets, a, k) != Granted(peers, octets', a, k);
    }
  }

  lemma FiltersInjective(a: seq<Rule>, b: seq<Rule>)
    requires Filters(a) == Filters(b)
    ensures a == b
  {
    forall i | 0 <= i < |a|
      ensures a[i] == b[i]
    {
      assert Filters(a)[i] == Filter(a[i]) && Filters(b)[i] == Filter(b[i]);
    }
  }

  /** A chain that enforces one state of the tables enforces another if and only if both grant the same:
      the exact condition under which a change without a rebuild leaves the chain out of date. */
  lemma ChainIsCurrentIff(chains: Chains, publicIface: string, peers: seq<Peer>, octets: Octets,
                          peers': seq<Peer>, octets': Octets)
    requires OctetTable(octets') && PeersInVpn(peers) && PeersInVpn(peers')
    requires Enforced(chains, publicIface, peers, octets)
    ensures Enforced(chains, publicIface, peers', octets') <==> SameGrants(peers, octets, peers', octets')
  {
    DecisionsAgreeIff(publicIface, peers, octets, peers', octets');
    var rules :| Enforces(rules, chains[EdoForward], publicIface, peers, octets);
    if SameGrants(peers, octets, peers', octets') {
      assert Enforces(rules, chains[EdoForward], publicIface, peers', octets');
    }
    if Enforced(chains, publicIface, peers', octets') {
      var rules' :| Enforces(rules', chains[EdoForward], publicIface, peers', octets');
      FiltersInjective(rules, rules');
      assert forall p :: Decision(publicIface, peers, octets, p) == ChainVerdict(rules, p);
    }
  }

  /** Freeing one octet changes a decision if and only if its owner still has a peer. */
  lemma FreedOctetOutdatesChain(publicIface: string, peers: seq<Peer>, octets: Octets, owner: Owner)
    requires OctetTable(octets) && PeersInVpn(peers) && owner in octets
    ensures (exists p :: Decision(publicIface, peers, octets, p) != Decision(publicIface, peers, octets - {owner}, p))
            <==> (exists q :: q in peers && q.owner == owner)
  {
    var fewer := octets - {owner};
    DecisionsAgreeIff(publicIface, peers, octets, peers, fewer);
    if q :| q in peers && q.owner == owner {
      assert Granted(peers, octets, q.ip, octets[owner]);
      assert !Granted(peers, fewer, q.ip, octets[owner]);
    } else {
      assert SameGrants(peers, octets, peers, fewer);
    }
  }
}
