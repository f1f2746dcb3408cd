/** What the octet, address and port allocators keep, said about the tables as values. */
module Allocation {
  import opened Base
  import opened Ipv4
  import opened Database
  import opened Docker
  import opened Names

  const PUBLIC_PORT_RANGE_START: int := 40000
  const PUBLIC_PORT_RANGE_END: int := 41000

  predicate InPortRange(p: int) { PUBLIC_PORT_RANGE_START <= p <= PUBLIC_PORT_RANGE_END }

  /** A host address of 10.9.octet.0/24 other than the gateway. */
  predicate IsGuest(octet: int, a: Address) { OctetBase(octet) + 2 <= a <= OctetBase(octet) + 254 }

  /** One row: its owner holds an octet, and while it runs its address is a guest of that subnet. */
  ghost predicate Placed(row: Instance, octets: Octets) {
    && row.owner in octets
    && (row.status == Running ==> row.assignedIp.Some? && IsGuest(octets[row.owner], row.assignedIp.value))
    && (forall p :: p in row.publishedPorts.Values ==> InPortRange(p))
  }

  /** Two rows: one owner's running rows differ in address, and no host port is published twice. */
  ghost predicate Apart(r: Instance, s: Instance) {
    && (r.owner == s.owner && r.status == Running && s.status == Running ==> r.assignedIp != s.assignedIp)
    && r.publishedPorts.Values !! s.publishedPorts.Values
  }

  /** The allocation invariant; `adopt_untracked` is the one operation that can break it. */
  ghost predicate WellAllocated(rows: seq<Instance>, octets: Octets) {
    && (forall r :: r in rows ==> Placed(r, octets))
    && (forall r, s :: r in rows && s in rows && r != s ==> Apart(r, s))
  }

  /** Every network edo_o{k} is labelled with the owner that holds octet k now. */
  ghost predicate NetworksAgree(networks: Networks, octets: Octets) {
    forall k :: k in networks ==> networks[k].holder in octets && octets[networks[k].holder] == k
  }

  /** Rows and containers refer to each other by ids Docker issued, and agree on the name. */
  ghost predicate RowsMatchContainers(rows: seq<Instance>, containers: Containers, nextId: nat) {
    && (forall r :: r in rows ==> r.containerId < nextId)
    && (forall r :: r in rows && r.containerId in containers ==> containers[r.containerId].name == r.containerName)
  }

  /** Rows and labelled containers carry the name that belongs to their challenge and owner. */
  ghost predicate NamesFit(rows: seq<Instance>, containers: Containers) {
    && (forall r :: r in rows ==> RowNamed(r))
    && (forall id :: id in containers ==> ContainerNamed(containers[id]))
  }

  ghost predicate RowNamed(r: Instance) { r.containerName == ContainerName(r.challengeRef, r.owner) }

  ghost predicate ContainerNamed(c: Container) {
    c.labels.Some? ==> c.name == ContainerName(c.labels.value.challengeRef, c.labels.value.owner)
  }

  // ----- consequences

  /** Subnets of different owners are disjoint, so running rows differ in address over all owners. */
  lemma RunningAddressesAreUnique(rows: seq<Instance>, octets: Octets, r: Instance, s: Instance)
    requires OctetTable(octets) && WellAllocated(rows, octets)
    requires r in rows && s in rows && r != s && r.status == Running && s.status == Running
    ensures r.assignedIp.Some? && s.assignedIp.Some? && r.assignedIp != s.assignedIp
    ensures OwnerSubnet(octets[r.owner]).value.Contains(r.assignedIp.value)
    ensures r.assignedIp.value != OwnerGateway(octets[r.owner])
  {
    assert Apart(r, s);
    TopologyRanges(r.assignedIp.value);
    if r.owner != s.owner {
      assert octets[r.owner] != octets[s.owner];
    }
  }

  /** The guests of a subnet are its hosts but for the gateway. */
  lemma GuestIff(octet: int, a: Address)
    requires 1 <= octet <= 254
    ensures IsGuest(octet, a) <==> OwnerSubnet(octet).value.IsHost(a) && a != OwnerGateway(octet)
  {
    BlockSizes();
  }

  // ----- each table write keeps the invariants

  lemma FewerRows(rows: seq<Instance>, fewer: seq<Instance>, octets: Octets)
    requires forall r :: r in fewer ==> r in rows
    ensures WellAllocated(rows, octets) ==> WellAllocated(fewer, octets)
  {}

  lemma StoppedRow(rows: seq<Instance>, octets: Octets, containerId: nat, status: Status)
    requires WellAllocated(rows, octets) && status != Running
    ensures WellAllocated(WithStatusOf(rows, containerId, status), octets)
  {
    var after := WithStatusOf(rows, containerId, status);
    forall r | r in after
      ensures Placed(r, octets)
    {
      var q := RowBeforeUpdate(rows, containerId, status, r);
    }
    forall r, s | r in after && s in after && r != s
      ensures Apart(r, s)
    {
      var q := RowBeforeUpdate(rows, containerId, status, r);
      var q' := RowBeforeUpdate(rows, containerId, status, s);
      assert Apart(q, q');
    }
  }

  /** What a new row must meet: its owner holds an octet, and its address and host ports are valid and unused. */
  ghost predicate FitsIn(row: Instance, rows: seq<Instance>, octets: Octets) {
    && Placed(row, octets)
    && (row.status == Running ==> row.assignedIp !in UsedInstanceIps(rows, row.owner))
    && row.publishedPorts.Values !! PublishedPorts(rows)
  }

  lemma AddedRow(rows: seq<Instance>, octets: Octets, row: Instance)
    requires WellAllocated(rows, octets) && FitsIn(row, rows, octets)
    ensures WellAllocated(rows + [row], octets)
  {
    forall r | r in rows
      ensures Apart(r, row) && Apart(row, r)
    {
      assert forall p :: p in r.publishedPorts.Values ==> p in PublishedPorts(rows);
      assert r.owner == row.owner && r.status == Running ==> r.assignedIp in UsedInstanceIps(rows, row.owner);
    }
  }

  /** A new row keeps the invariant if and only if it fits. */
  lemma AddedRowIff(rows: seq<Instance>, octets: Octets, row: Instance)
    requires row !in rows
    ensures WellAllocated(rows + [row], octets) <==> WellAllocated(rows, octets) && FitsIn(row, rows, octets)
  {
    var more := rows + [row];
    assert row in more && forall r :: r in rows ==> r in more;
    if WellAllocated(more, octets) {
      assert forall r :: r in rows ==> Apart(r, row);
    } else if WellAllocated(rows, octets) && FitsIn(row, rows, octets) {
      AddedRow(rows, octets, row);
    }
  }

  /** Every row appended to `before` fits among those ahead of it. */
  ghost predicate AllFit(before: seq<Instance>, after: seq<Instance>, octets: Octets) {
    forall i :: |before| <= i < |after| ==> FitsIn(after[i], after[..i], octets)
  }

  /** Any number of appended rows keep the invariant if and only if they all fit. */
  lemma {:induction false} AppendedRowsIff(before: seq<Instance>, after: seq<Instance>, octets: Octets)
    requires before <= after && Distinct(after) && WellAllocated(before, octets)
    ensures WellAllocated(after, octets) <==> AllFit(before, after, octets)
    decreases |after|
  {
    if after == before {
    } else {
      var n := |after| - 1;
      var init := after[..n];
      AppendedRowsIff(before, init, octets);
      assert after == init + [after[n]];
      assert after[n] !in init;
      AddedRowIff(init, octets, after[n]);
      assert forall i :: 0 <= i < n ==> init[i] == after[i] && init[..i] == after[..i];
    }
  }

  lemma OctetGranted(rows: seq<Instance>, networks: Networks, octets: Octets, owner: Owner, octet: int)
    requires owner !in octets
    ensures WellAllocated(rows, octets) ==> WellAllocated(rows, octets[owner := octet])
    ensures NetworksAgree(networks, octets) ==> NetworksAgree(networks, octets[owner := octet])
  {
    if WellAllocated(rows, octets) {
      forall r | r in rows
        ensures Placed(r, octets[owner := octet])
      {
        assert Placed(r, octets);
      }
    }
  }

  lemma NetworkAdded(before: Networks, after: Networks, octets: Octets, owner: Owner)
    requires NetworksAgree(before, octets) && owner in octets
    requires after == before || after == before[octets[owner] := Network(owner, true)]
    ensures NetworksAgree(after, octets)
  {}

  /** An octet may be freed once its owner has no row and its network is gone. */
  lemma OctetFreed(rows: seq<Instance>, networks: Networks, octets: Octets, owner: Owner)
    requires owner in octets && octets[owner] !in networks
    requires forall r :: r in rows ==> r.owner != owner
    ensures WellAllocated(rows, octets) ==> WellAllocated(rows, octets - {owner})
    ensures NetworksAgree(networks, octets) ==> NetworksAgree(networks, octets - {owner})
  {
    if WellAllocated(rows, octets) {
      forall r | r in rows
        ensures Placed(r, octets - {owner})
      {
        assert Placed(r, octets);
      }
    }
  }

  /** Removing, restarting or drifting containers leaves rows and containers in agreement. */
  lemma ContainersDrifted(rows: seq<Instance>, before: Containers, after: Containers, nextId: nat, nextId': nat)
    requires RowsMatchContainers(rows, before, nextId) && nextId <= nextId'
    requires DriftedFrom(before, after)
    ensures RowsMatchContainers(rows, after, nextId')
  {}

  lemma RowRecorded(rows: seq<Instance>, row: Instance, containers: Containers, nextId: nat)
    requires RowsMatchContainers(rows, containers, nextId) && row.containerId < nextId
    requires row.containerId in containers ==> containers[row.containerId].name == row.containerName
    ensures RowsMatchContainers(rows + [row], containers, nextId)
  {}

  lemma RowsRestatused(rows: seq<Instance>, containers: Containers, nextId: nat, containerId: nat, status: Status)
    requires RowsMatchContainers(rows, containers, nextId)
    ensures RowsMatchContainers(WithStatusOf(rows, containerId, status), containers, nextId)
  {
    forall r | r in WithStatusOf(rows, containerId, status)
      ensures r.containerId < nextId
      ensures r.containerId in containers ==> containers[r.containerId].name == r.containerName
    {
      var q := RowBeforeUpdate(rows, containerId, status, r);
    }
  }

  // ----- public ports

  /** The unused ports of the range, from `lo` on, in ascending order. */
  function FreePorts(used: set<int>, lo: int): seq<int>
    decreases PUBLIC_PORT_RANGE_END - lo
  {
    if lo > PUBLIC_PORT_RANGE_END then []
    else if lo in used then FreePorts(used, lo + 1)
    else [lo] + FreePorts(used, lo + 1)
  }

  ghost predicate Increases(s: seq<int>) {
    forall i, j :: 0 <= i < j < |s| ==> s[i] < s[j]
  }

  lemma {:induction false} FreePortsAscend(used: set<int>, lo: int)
    ensures var s := FreePorts(used, lo);
            && (forall p :: p in s <==> lo <= p <= PUBLIC_PORT_RANGE_END && p !in used)
            && Increases(s)
    decreases PUBLIC_PORT_RANGE_END - lo
  {
    if lo <= PUBLIC_PORT_RANGE_END {
      var rest := FreePorts(used, lo + 1);
      FreePortsAscend(used, lo + 1);
      assert forall i :: 0 <= i < |rest| ==> rest[i] in rest;
    }
  }

  /** The public ports are 40000 to 41000. */
  lemma PublicPorts(used: set<int>)
    ensures var s := FreePorts(used, PUBLIC_PORT_RANGE_START);
            && (forall p :: p in s <==> 40000 <= p <= 41000 && p !in used)
            && Increases(s)
    ensures forall p :: InPortRange(p) <==> 40000 <= p <= 41000
  {
    FreePortsAscend(used, PUBLIC_PORT_RANGE_START);
  }

  /** The ports chosen so far are the first free ones, and the rest lies from `port` on. */
  ghost predicate PortsSoFar(free: seq<int>, chosen: seq<int>, used: set<int>, port: int) {
    free == chosen + FreePorts(used, port)
  }

  lemma PortsSoFarStep(free: seq<int>, chosen: seq<int>, used: set<int>, port: int)
    requires PortsSoFar(free, chosen, used, port) && port <= PUBLIC_PORT_RANGE_END
    ensures PortsSoFar(free, if port in used then chosen else chosen + [port], used, port + 1)
    ensures port !in used ==> |chosen| < |free| && chosen + [port] == free[..|chosen| + 1]
  {
    if port !in used {
      assert chosen + ([port] + FreePorts(used, port + 1)) == (chosen + [port]) + FreePorts(used, port + 1);
    }
  }

  lemma PublishedPortsStep(rows: seq<Instance>, i: nat)
    requires i < |rows|
    ensures PublishedPorts(rows[..i + 1]) == PublishedPorts(rows[..i]) + rows[i].publishedPorts.Values
  {
    var init, row := rows[..i], rows[i];
    assert rows[..i + 1] == init + [row];
    forall p | p in PublishedPorts(init) || p in row.publishedPorts.Values
      ensures p in PublishedPorts(init + [row])
    {
      if p in row.publishedPorts.Values {
        assert row in init + [row];
      } else {
        var r :| r in init && p in r.publishedPorts.Values;
        assert r in init + [row];
      }
    }
  }

  /** `dict(zip(exposed_ports, host_ports))`. */
  function PortBindings(exposed: seq<string>, hostPorts: seq<int>): (m: PortMap)
    requires |exposed| == |hostPorts|
    ensures forall e :: e in m <==> e in exposed
    ensures forall e :: e in m ==> m[e] in hostPorts
  {
    if exposed == [] then map[]
    else
      var n := |exposed| - 1;
      PortBindings(exposed[..n], hostPorts[..n])[exposed[n] := hostPorts[n]]
  }

  /** Distinct exposed ports each get their own host port. */
  lemma {:induction false} PortBindingsAt(exposed: seq<string>, hostPorts: seq<int>, i: nat)
    requires |exposed| == |hostPorts| && i < |exposed| && Distinct(exposed)
    ensures PortBindings(exposed, hostPorts)[exposed[i]] == hostPorts[i]
  {
    var n := |exposed| - 1;
    if i < n {
      PortBindingsAt(exposed[..n], hostPorts[..n], i);
    }
  }

  ghost predicate BoundTo(exposed: seq<string>, free: seq<int>, bindings: PortMap, e: string, i: nat) {
    i < |exposed| <= |free| && exposed[i] == e && e in bindings && bindings[e] == free[i]
  }

  lemma BindingOf(exposed: seq<string>, free: seq<int>, bindings: PortMap, e: string) returns (i: nat)
    requires |exposed| <= |free| && Distinct(exposed) && bindings == PortBindings(exposed, free[..|exposed|])
    requires e in bindings
    ensures BoundTo(exposed, free, bindings, e, i)
  {
    i :| 0 <= i < |exposed| && exposed[i] == e;
    PortBindingsAt(exposed, free[..|exposed|], i);
  }

  lemma BindingsDiffer(exposed: seq<string>, free: seq<int>, bindings: PortMap, e: string, e': string)
    requires |exposed| <= |free| && Distinct(exposed) && bindings == PortBindings(exposed, free[..|exposed|])
    requires Increases(free) && e in bindings && e' in bindings && e != e'
    ensures bindings[e] != bindings[e']
  {
    var i := BindingOf(exposed, free, bindings, e);
    var j := BindingOf(exposed, free, bindings, e');
    IncreasingDiffer(free, i, j);
  }

  lemma IncreasingDiffer(s: seq<int>, i: nat, j: nat)
    requires Increases(s) && i < |s| && j < |s|
    ensures s[i] == s[j] <==> i == j
    ensures s[i] < s[j] <==> i < j
  {}

  lemma LowerIsBound(exposed: seq<string>, free: seq<int>, bindings: PortMap, e: string, p: int)
    requires |exposed| <= |free| && Distinct(exposed) && bindings == PortBindings(exposed, free[..|exposed|])
    requires Increases(free) && e in bindings && p in free && p < bindings[e]
    ensures p in bindings.Values
  {
    var i := BindingOf(exposed, free, bindings, e);
    var j :| 0 <= j < |free| && free[j] == p;
    IncreasingDiffer(free, j, i);
    PortBindingsAt(exposed, free[..|exposed|], j);
    assert bindings[exposed[j]] == p;
  }

  /** Bound to the first ports of an ascending list, no two exposed ports share one and none below is skipped. */
  lemma FirstPortsBound(exposed: seq<string>, free: seq<int>, bindings: PortMap)
    requires |exposed| <= |free| && Distinct(exposed) && bindings == PortBindings(exposed, free[..|exposed|])
    requires Increases(free)
    ensures forall e, e' :: e in bindings && e' in bindings && e != e' ==> bindings[e] != bindings[e']
    ensures forall e, p :: e in bindings && p in free && p < bindings[e] ==> p in bindings.Values
  {
    forall e, e' | e in bindings && e' in bindings && e != e'
      ensures bindings[e] != bindings[e']
    {
      BindingsDiffer(exposed, free, bindings, e, e');
    }
    forall e, p | e in bindings && p in free && p < bindings[e]
      ensures p in bindings.Values
    {
      LowerIsBound(exposed, free, bindings, e, p);
    }
  }
}
