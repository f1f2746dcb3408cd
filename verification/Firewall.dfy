/** The rule list of EDO_FORWARD: how it is compiled from the database and what it means. */
module Firewall {
  import opened Base
  import opened Ipv4

  datatype Packet = Packet(src: Address, dst: Address, outIface: string)

  datatype Target = ACCEPT | DROP

  /** One rule of EDO_FORWARD: `-s`, `-d` and `-o` are optional matches. */
  datatype Rule = Rule(src: Option<Cidr>, dst: Option<Cidr>, out: Option<string>, target: Target) {
    ghost predicate Valid() {
      (src.Some? ==> src.value.bits <= 32) && (dst.Some? ==> dst.value.bits <= 32)
    }

    ghost predicate Matches(p: Packet)
      requires Valid()
    {
      && (src.Some? ==> src.value.Contains(p.src))
      && (dst.Some? ==> dst.value.Contains(p.dst))
      && (out.Some? ==> out.value == p.outIface)
    }
  }

  /** A chain either decides a packet or hands it back to the chain that jumped to it. */
  datatype Verdict = Accepted | Dropped | FallThrough

  ghost predicate ValidRules(rules: seq<Rule>) {
    forall r :: r in rules ==> r.Valid()
  }

  /** First match wins. */
  ghost function ChainVerdict(rules: seq<Rule>, p: Packet): Verdict
    requires ValidRules(rules)
  {
    if rules == [] then FallThrough
    else if rules[0].Matches(p) then (if rules[0].target == ACCEPT then Accepted else Dropped)
    else ChainVerdict(rules[1..], p)
  }

  lemma {:induction false} VerdictOfConcat(a: seq<Rule>, b: seq<Rule>, p: Packet)
    requires ValidRules(a) && ValidRules(b)
    ensures ValidRules(a + b)
    ensures ChainVerdict(a + b, p) ==
            if ChainVerdict(a, p) != FallThrough then ChainVerdict(a, p) else ChainVerdict(b, p)
  {
    if a == [] {
      assert a + b == b;
    } else {
      assert (a + b)[1..] == a[1..] + b;
      VerdictOfConcat(a[1..], b, p);
    }
  }

  lemma VerdictOfRule(r: Rule, p: Packet)
    requires r.Valid()
    ensures ValidRules([r])
    ensures ChainVerdict([r], p) ==
            if !r.Matches(p) then FallThrough else if r.target == ACCEPT then Accepted else Dropped
  {
    assert !r.Matches(p) ==> ChainVerdict([r], p) == ChainVerdict([], p);
  }

  // ----- compilation

  type PeersByOwner = map<Owner, seq<Address>>
  /** The dict {owner: octet} in its iteration order. */
  type OctetsByOwner = seq<(Owner, int)>

  function DropBetween(a: Cidr, b: Cidr): Rule { Rule(Some(a), Some(b), None, DROP) }

  function AcceptBetween(a: Cidr, b: Cidr): Rule { Rule(Some(a), Some(b), None, ACCEPT) }

  const PEER_ISOLATION: Rule := DropBetween(WG_SUBNET, WG_SUBNET)
  const POOL_ISOLATION: Rule := DropBetween(DOCKER_POOL, DOCKER_POOL)

  function Egress(publicIface: string): Rule { Rule(Some(DOCKER_POOL), None, Some(publicIface), DROP) }

  function PeersOf(peers: PeersByOwner, owner: Owner): seq<Address> {
    if owner in peers then peers[owner] else []
  }

  /** Both directions, for every peer of one owner. */
  function OwnerRules(ips: seq<Address>, subnet: Cidr): seq<Rule> {
    if ips == [] then []
    else
      var last := HostRoute(ips[|ips| - 1]);
      OwnerRules(ips[..|ips| - 1], subnet) + [AcceptBetween(last, subnet), AcceptBetween(subnet, last)]
  }

  ghost predicate InRange(octets: OctetsByOwner) {
    forall i :: 0 <= i < |octets| ==> 1 <= octets[i].1 <= 254
  }

  function AcceptRules(peers: PeersByOwner, octets: OctetsByOwner): seq<Rule>
    requires InRange(octets)
  {
    if octets == [] then []
    else
      var (owner, octet) := octets[|octets| - 1];
      AcceptRules(peers, octets[..|octets| - 1]) + OwnerRules(PeersOf(peers, owner), OwnerSubnet(octet).value)
  }

  function ChainRules(publicIface: string, peers: PeersByOwner, octets: OctetsByOwner): seq<Rule>
    requires InRange(octets)
  {
    RulesSoFar(peers, octets) + [POOL_ISOLATION, Egress(publicIface)]
  }

  lemma OwnerRulesStep(ips: seq<Address>, j: nat, subnet: Cidr)
    requires j < |ips|
    ensures OwnerRules(ips[..j + 1], subnet) ==
            OwnerRules(ips[..j], subnet) +
            [AcceptBetween(HostRoute(ips[j]), subnet), AcceptBetween(subnet, HostRoute(ips[j]))]
  {
    assert ips[..j + 1][..j] == ips[..j];
  }

  function RulesSoFar(peers: PeersByOwner, octets: OctetsByOwner): seq<Rule>
    requires InRange(octets)
  {
    [PEER_ISOLATION] + AcceptRules(peers, octets)
  }

  lemma RulesSoFarStep(peers: PeersByOwner, octets: OctetsByOwner, i: nat)
    requires i < |octets| && InRange(octets[..i]) && 1 <= octets[i].1 <= 254
    ensures InRange(octets[..i + 1])
    ensures RulesSoFar(peers, octets[..i + 1]) ==
            RulesSoFar(peers, octets[..i]) + OwnerRules(PeersOf(peers, octets[i].0), OwnerSubnet(octets[i].1).value)
  {
    assert octets[..i + 1][..i] == octets[..i];
  }

  lemma TwoMore(rules: seq<Rule>, a: Rule, b: Rule)
    ensures (rules + [a]) + [b] == rules + [a, b]
  {}

  /** The inner loop of `_build_chain_rules`. */
  method AppendOwnerRules(rules: seq<Rule>, ips: seq<Address>, subnet: Cidr) returns (more: seq<Rule>)
    ensures more == rules + OwnerRules(ips, subnet)
  {
    more := rules;
    for j := 0 to |ips|
      invariant more == rules + OwnerRules(ips[..j], subnet)
    {
      OwnerRulesStep(ips, j, subnet);
      more := more + [AcceptBetween(HostRoute(ips[j]), subnet)];
      more := more + [AcceptBetween(subnet, HostRoute(ips[j]))];
    }
    assert ips[..|ips|] == ips;
  }

  /** `_build_chain_rules`; `None` is the ValueError that an octet outside 1-254 raises. */
  method BuildChainRules(publicIface: string, peers: PeersByOwner, octets: OctetsByOwner)
    returns (r: Option<seq<Rule>>)
    ensures r.Some? <==> InRange(octets)
    ensures r.Some? ==> r.value == ChainRules(publicIface, peers, octets)
  {
    var rules := [PEER_ISOLATION];
    for i := 0 to |octets|
      invariant InRange(octets[..i]) && rules == RulesSoFar(peers, octets[..i])
    {
      var (owner, octet) := octets[i];
      var subnet := OwnerSubnet(octet);
      if subnet.None? {
        return None;
      }
      RulesSoFarStep(peers, octets, i);
      rules := AppendOwnerRules(rules, PeersOf(peers, owner), subnet.value);
    }
    assert octets[..|octets|] == octets;
    TwoMore(rules, POOL_ISOLATION, Egress(publicIface));
    rules := rules + [POOL_ISOLATION];
    rules := rules + [Egress(publicIface)];
    return Some(rules);
  }

  // ----- meaning

  /** Some owner has the address as a peer and the other address in its subnet. */
  ghost predicate Paired(peers: PeersByOwner, octets: OctetsByOwner, peer: Address, other: Address)
    requires InRange(octets)
  {
    exists i :: 0 <= i < |octets| && peer in PeersOf(peers, octets[i].0) &&
                OwnerSubnet(octets[i].1).value.Contains(other)
  }

  /** What the chain decides, said without rules or their order. */
  ghost function Meaning(publicIface: string, peers: PeersByOwner, octets: OctetsByOwner, p: Packet): Verdict
    requires InRange(octets)
  {
    if WG_SUBNET.Contains(p.src) && WG_SUBNET.Contains(p.dst) then Dropped
    else if Paired(peers, octets, p.src, p.dst) || Paired(peers, octets, p.dst, p.src) then Accepted
    else if DOCKER_POOL.Contains(p.src) && (DOCKER_POOL.Contains(p.dst) || p.outIface == publicIface) then Dropped
    else FallThrough
  }

  lemma {:induction false} OwnerRulesVerdict(ips: seq<Address>, subnet: Cidr, p: Packet)
    requires subnet.bits <= 32
    ensures ValidRules(OwnerRules(ips, subnet))
    ensures ChainVerdict(OwnerRules(ips, subnet), p) ==
            if (p.src in ips && subnet.Contains(p.dst)) || (p.dst in ips && subnet.Contains(p.src))
            then Accepted else FallThrough
  {
    if ips != [] {
      var n := |ips| - 1;
      var route := HostRoute(ips[n]);
      var pair := [AcceptBetween(route, subnet), AcceptBetween(subnet, route)];
      OwnerRulesVerdict(ips[..n], subnet, p);
      VerdictOfConcat(OwnerRules(ips[..n], subnet), pair, p);
      HostRouteMatchesOnlyItself(ips[n], p.src);
      HostRouteMatchesOnlyItself(ips[n], p.dst);
      VerdictOfRule(pair[0], p);
      VerdictOfRule(pair[1], p);
      VerdictOfConcat([pair[0]], [pair[1]], p);
      assert forall a :: a in ips <==> a in ips[..n] || a == ips[n];
    }
  }

  lemma {:induction false} AcceptRulesVerdict(peers: PeersByOwner, octets: OctetsByOwner, p: Packet)
    requires InRange(octets)
    ensures ValidRules(AcceptRules(peers, octets))
    ensures ChainVerdict(AcceptRules(peers, octets), p) ==
            if Paired(peers, octets, p.src, p.dst) || Paired(peers, octets, p.dst, p.src)
            then Accepted else FallThrough
  {
    if octets != [] {
      var n := |octets| - 1;
      var init := octets[..n];
      var ips, subnet := PeersOf(peers, octets[n].0), OwnerSubnet(octets[n].1).value;
      AcceptRulesVerdict(peers, init, p);
      OwnerRulesVerdict(ips, subnet, p);
      VerdictOfConcat(AcceptRules(peers, init), OwnerRules(ips, subnet), p);
      PairedSnoc(peers, octets, p.src, p.dst);
      PairedSnoc(peers, octets, p.dst, p.src);
    }
  }

  lemma PairedSnoc(peers: PeersByOwner, octets: OctetsByOwner, a: Address, b: Address)
    requires InRange(octets) && octets != []
    ensures var n := |octets| - 1;
            Paired(peers, octets, a, b) <==>
            Paired(peers, octets[..n], a, b) ||
            (a in PeersOf(peers, octets[n].0) && OwnerSubnet(octets[n].1).value.Contains(b))
  {
    var n := |octets| - 1;
    var init := octets[..n];
    if i :| 0 <= i < n && a in PeersOf(peers, octets[i].0) && OwnerSubnet(octets[i].1).value.Contains(b) {
      assert init[i] == octets[i];
    }
  }

  /** The compiled list decides every packet exactly as `Meaning` says. */
  lemma ChainMeaning(publicIface: string, peers: PeersByOwner, octets: OctetsByOwner, p: Packet)
    requires InRange(octets)
    ensures ValidRules(ChainRules(publicIface, peers, octets))
    ensures ChainVerdict(ChainRules(publicIface, peers, octets), p) == Meaning(publicIface, peers, octets, p)
  {
    var accepts := AcceptRules(peers, octets);
    var tail := [POOL_ISOLATION, Egress(publicIface)];
    AcceptRulesVerdict(peers, octets, p);
    VerdictOfRule(PEER_ISOLATION, p);
    VerdictOfRule(POOL_ISOLATION, p);
    VerdictOfRule(Egress(publicIface), p);
    VerdictOfConcat([POOL_ISOLATION], [Egress(publicIface)], p);
    VerdictOfConcat([PEER_ISOLATION], accepts, p);
    VerdictOfConcat([PEER_ISOLATION] + accepts, tail, p);
  }

  /** Neither the order of owners nor the order of one owner's peers shows in any verdict. */
  lemma OrderIrrelevant(publicIface: string, p: Packet,
                        peers: PeersByOwner, octets: OctetsByOwner, peers': PeersByOwner, octets': OctetsByOwner)
    requires InRange(octets)
    requires forall e :: e in octets <==> e in octets'
    requires forall o, a :: a in PeersOf(peers, o) <==> a in PeersOf(peers', o)
    ensures InRange(octets')
    ensures ValidRules(ChainRules(publicIface, peers, octets))
    ensures ValidRules(ChainRules(publicIface, peers', octets'))
    ensures ChainVerdict(ChainRules(publicIface, peers, octets), p) ==
            ChainVerdict(ChainRules(publicIface, peers', octets'), p)
  {
    assert forall i :: 0 <= i < |octets'| ==> octets'[i] in octets;
    PairedTransfers(p.src, p.dst, peers, octets, peers', octets');
    PairedTransfers(p.dst, p.src, peers, octets, peers', octets');
    PairedTransfers(p.src, p.dst, peers', octets', peers, octets);
    PairedTransfers(p.dst, p.src, peers', octets', peers, octets);
    ChainMeaning(publicIface, peers, octets, p);
    ChainMeaning(publicIface, peers', octets', p);
  }

  lemma PairedTransfers(a: Address, b: Address,
                        peers: PeersByOwner, octets: OctetsByOwner, peers': PeersByOwner, octets': OctetsByOwner)
    requires InRange(octets) && InRange(octets')
    requires forall e :: e in octets ==> e in octets'
    requires forall o, x :: x in PeersOf(peers, o) ==> x in PeersOf(peers', o)
    ensures Paired(peers, octets, a, b) ==> Paired(peers', octets', a, b)
  {
    if Paired(peers, octets, a, b) {
      var i :| 0 <= i < |octets| && a in PeersOf(peers, octets[i].0) && OwnerSubnet(octets[i].1).value.Contains(b);
      assert octets[i] in octets;
      var j :| 0 <= j < |octets'| && octets'[j] == octets[i];
    }
  }

  // ----- check-then-append

  /** The list without the later copies of a rule. */
  function KeepFirst<T(==)>(rules: seq<T>): seq<T> {
    if rules == [] then []
    else
      var kept := KeepFirst(rules[..|rules| - 1]);
      var last := rules[|rules| - 1];
      if last in kept then kept else kept + [last]
  }

  lemma {:induction false} KeepFirstIsDistinct<T(!new)>(rules: seq<T>)
    ensures Distinct(KeepFirst(rules))
    ensures forall r :: r in KeepFirst(rules) <==> r in rules
  {
    if rules != [] {
      var init := rules[..|rules| - 1];
      KeepFirstIsDistinct(init);
      assert forall r :: r in rules <==> r in init || r == rules[|rules| - 1];
    }
  }

  /** A rule already present decides nothing when it is repeated later. */
  lemma {:induction false} RepeatedRuleIsDead(rules: seq<Rule>, r: Rule, p: Packet)
    requires ValidRules(rules) && r in rules
    ensures ChainVerdict(rules, p) == FallThrough ==> !r.Matches(p)
  {
    if rules[0] != r {
      assert r in rules[1..];
      RepeatedRuleIsDead(rules[1..], r, p);
    }
  }

  lemma {:induction false} KeepFirstPreservesVerdict(rules: seq<Rule>, p: Packet)
    requires ValidRules(rules)
    ensures ValidRules(KeepFirst(rules))
    ensures ChainVerdict(KeepFirst(rules), p) == ChainVerdict(rules, p)
  {
    KeepFirstIsDistinct(rules);
    if rules != [] {
      var n := |rules| - 1;
      var init, last := rules[..n], rules[n];
      var kept := KeepFirst(init);
      KeepFirstIsDistinct(init);
      KeepFirstPreservesVerdict(init, p);
      assert rules == init + [last];
      VerdictOfConcat(init, [last], p);
      VerdictOfConcat(kept, [last], p);
      if last in kept {
        RepeatedRuleIsDead(kept, last, p);
      }
    }
  }

  /** The list with some later copies of a rule left out: what check-then-append installs when a check may
      miss a rule that is there. */
  ghost predicate Thinned<T>(kept: seq<T>, rules: seq<T>) {
    if rules == [] then kept == []
    else
      var init, last := rules[..|rules| - 1], rules[|rules| - 1];
      || (last in kept && Thinned(kept, init))
      || (kept != [] && kept[|kept| - 1] == last && Thinned(kept[..|kept| - 1], init))
  }

  /** `KeepFirst` leaves out all of them. */
  lemma {:induction false} KeepFirstIsThinned<T>(rules: seq<T>)
    ensures Thinned(KeepFirst(rules), rules)
  {
    if rules != [] {
      var kept := KeepFirst(rules[..|rules| - 1]);
      KeepFirstIsThinned(rules[..|rules| - 1]);
      assert (kept + [rules[|rules| - 1]])[..|kept|] == kept;
    }
  }

  lemma ThinnedStep<T>(kept: seq<T>, rules: seq<T>, i: nat)
    requires i < |rules| && Thinned(kept, rules[..i])
    ensures Thinned(kept + [rules[i]], rules[..i + 1])
    ensures rules[i] in kept ==> Thinned(kept, rules[..i + 1])
  {
    assert rules[..i + 1][..i] == rules[..i];
    assert (kept + [rules[i]])[..|kept|] == kept;
  }

  /** Leaving copies out, whichever, changes no verdict. */
  lemma {:induction false} ThinnedPreservesVerdict(kept: seq<Rule>, rules: seq<Rule>, p: Packet)
    requires ValidRules(rules) && Thinned(kept, rules)
    ensures ValidRules(kept) && ChainVerdict(kept, p) == ChainVerdict(rules, p)
    decreases |rules|
  {
    if rules != [] {
      var n := |rules| - 1;
      var init, last := rules[..n], rules[n];
      assert rules == init + [last];
      VerdictOfConcat(init, [last], p);
      if last in kept && Thinned(kept, init) {
        ThinnedPreservesVerdict(kept, init, p);
        RepeatedRuleIsDead(kept, last, p);
        VerdictOfRule(last, p);
      } else {
        var rest := kept[..|kept| - 1];
        ThinnedPreservesVerdict(rest, init, p);
        assert kept == rest + [last];
        VerdictOfConcat(rest, [last], p);
      }
    }
  }

  /** A list cut short by a failed append decides a packet only as the whole list would. */
  lemma PartialChainIsSafe(rules: seq<Rule>, kept: seq<Rule>, n: nat, p: Packet)
    requires ValidRules(rules) && n <= |rules| && Thinned(kept, rules[..n])
    ensures ValidRules(kept) && ChainVerdict(kept, p) in {ChainVerdict(rules, p), FallThrough}
  {
    assert rules == rules[..n] + rules[n..];
    assert ValidRules(rules[..n]) && ValidRules(rules[n..]);
    VerdictOfConcat(rules[..n], rules[n..], p);
    ThinnedPreservesVerdict(kept, rules[..n], p);
  }
}
