/** The container lifecycle: what spawn, release, teardown, reconcile and adopt do to the
    daemon's tables and to Docker. One request runs at a time; Docker may fail at every call. */
module Containers {
  import opened Base
  import opened Ipv4
  import opened Database
  import opened Docker
  import opened Names
  import opened Allocation

  /** Kept by every operation on every exit. */
  ghost predicate Consistent(db: DatabaseManager, docker: Engine)
    reads db, docker
  {
    && db.Valid() && docker.Valid()
    && NetworksAgree(docker.networks, db.octets)
    && RowsMatchContainers(db.instances, docker.containers, docker.nextId)
  }

  /** The further invariant, kept by every operation except adoption. */
  ghost predicate Allocated(db: DatabaseManager)
    reads db
  {
    WellAllocated(db.instances, db.octets)
  }

  /** At most the owner's octet is new. */
  ghost predicate OctetsExtended(before: Octets, after: Octets, owner: Owner) {
    after == before || (owner !in before && owner in after && after == before[owner := after[owner]])
  }

  // ----- per-owner network

  /** Under the octet this owner will be given there is no bridge, or one labelled with this owner. */
  predicate BridgeIsOwn(networks: Networks, octets: Octets, owner: Owner) {
    var octet := OctetFor(octets, owner);
    octet.Some? && octet.value in networks ==> networks[octet.value].holder == owner
  }

  /** Why there is no network without anything failing: all octets are held, or the bridge found is not routed. */
  ghost predicate NoNetworkFor(before: Octets, after: Octets, networks: Networks, owner: Owner) {
    || (owner !in before && forall k :: 1 <= k <= 254 ==> k in UsedOctets(before))
    || (owner in after && after[owner] in networks && !networks[after[owner]].routed)
  }

  /** `ensure_owner_network`; `None` is any of its exceptions. Labels are not looked at, so from a state
      in which bridges and octets disagree, as after the loss of the database, the bridge returned is the
      owner's if and only if it was or did not exist; in a consistent state it always is. */
  method EnsureOwnerNetwork(db: DatabaseManager, docker: Engine, owner: Owner) returns (r: Option<int>)
    requires db.Valid() && docker.Valid()
    modifies db`octets, docker`networks, docker`faults, docker`connected
    ensures db.Valid() && docker.Valid()
    ensures old(Consistent(db, docker)) ==> Consistent(db, docker)
    ensures old(Allocated(db)) ==> Allocated(db)
    ensures OctetsExtended(old(db.octets), db.octets, owner) && db.octets == GrantedOctets(old(db.octets), owner)
    ensures r.Some? ==>
              docker.connected && owner in db.octets && r.value == db.octets[owner] &&
              r.value in docker.networks && docker.networks[r.value].routed &&
              (docker.networks[r.value].holder == owner <==> old(BridgeIsOwn(docker.networks, db.octets, owner)))
    ensures r.Some? ==> r == OctetFor(old(db.octets), owner)
    ensures r.Some? && old(Consistent(db, docker)) ==> docker.networks[r.value].holder == owner
    ensures old(docker.faults) <= docker.faults && (r.Some? ==> docker.faults == old(docker.faults))
    ensures r.None? ==> NoNetworkFor(old(db.octets), db.octets, old(docker.networks), owner) ||
                        !docker.connected || old(docker.faults) < docker.faults
    ensures docker.networks == old(docker.networks) ||
            (owner in db.octets && db.octets[owner] !in old(docker.networks) &&
             docker.networks == old(docker.networks)[db.octets[owner] := Network(owner, true)])
  {
    ghost var octets := db.octets;
    var octet := db.AllocateOctet(owner);
    if octet.None? {
      return None;
    }
    if owner !in octets {
      OctetGranted(db.instances, docker.networks, octets, owner, octet.value);
      assert db.octets == octets[owner := octet.value];
    }
    assert OctetsExtended(octets, db.octets, owner);
    assert old(Consistent(db, docker)) ==> NetworksAgree(docker.networks, db.octets);
    var connected := docker.Connect();
    if !connected {
      return None;
    }
    ghost var before := docker.networks;
    var open := OpenBridge(docker, octet.value, owner);
    if NetworksAgree(before, db.octets) {
      NetworkAdded(before, docker.networks, db.octets, owner);
    }
    r := if open then octet else None;
  }

  /** The bridge of one octet, reused whatever its labels say, or created. */
  method OpenBridge(docker: Engine, octet: int, owner: Owner) returns (ok: bool)
    requires docker.Valid()
    modifies docker`networks, docker`faults
    ensures docker.Valid() && old(docker.faults) <= docker.faults && (ok ==> docker.faults == old(docker.faults))
    ensures docker.networks == old(docker.networks) ||
            (octet !in old(docker.networks) && docker.networks == old(docker.networks)[octet := Network(owner, true)])
    ensures ok ==> octet in docker.networks && docker.networks[octet].routed
    ensures !ok ==> old(docker.faults) < docker.faults ||
                    (octet in old(docker.networks) && !old(docker.networks)[octet].routed)
  {
    var existing := docker.GetNetwork(octet);
    if existing.Ok? {
      return existing.value.routed;
    }
    if existing.ApiError? {
      return false;
    }
    ok := docker.CreateNetwork(octet, Network(owner, true));
  }

  /** The tables are lost and bridge edo_o1 is left, labelled with `a`: the first other owner to ask gets it. */
  method AskAfterLoss(db: DatabaseManager, docker: Engine, a: Owner, b: Owner) returns (r: Option<int>)
    requires db.Valid() && docker.Valid() && a != b
    requires db.octets == map[] && docker.networks == map[1 := Network(a, true)]
    modifies db`octets, docker`networks, docker`faults, docker`connected
    ensures r.Some? ==> r.value == 1 && 1 in docker.networks && docker.networks[1].holder == a && db.octets == map[b := 1]
    ensures r.None? ==> !docker.connected || old(docker.faults) < docker.faults
  {
    LostDatabaseSharesBridge(a, b);
    r := EnsureOwnerNetwork(db, docker, b);
  }

  /** The condition fails there: `b` will be given octet 1. */
  lemma LostDatabaseSharesBridge(a: Owner, b: Owner)
    requires a != b
    ensures OctetFor(map[], b) == Some(1)
    ensures !BridgeIsOwn(map[1 := Network(a, true)], map[], b)
  {
    assert 1 !in UsedOctets(map[]);
  }

  /** An owner without rows whose network existed holds no octet any more. */
  ghost predicate IdleOwnerReleased(before: Octets, networks: Networks, after: Octets, rows: seq<Instance>, owner: Owner) {
    CountForOwner(rows, owner) == 0 && owner in before && before[owner] in networks ==> owner !in after
  }

  /** `release_owner_network_if_idle`: the octet is freed exactly when the owner is idle and its
      network was removed; a missing or busy network keeps it. */
  method ReleaseOwnerNetworkIfIdle(db: DatabaseManager, docker: Engine, owner: Owner)
    requires Consistent(db, docker)
    modifies db`octets, docker`networks, docker`faults
    ensures Consistent(db, docker) && (old(Allocated(db)) ==> Allocated(db))
    ensures old(docker.faults) <= docker.faults
    ensures CountForOwner(db.instances, owner) > 0 || owner !in old(db.octets) ==>
              db.octets == old(db.octets) && docker.networks == old(docker.networks)
    ensures db.octets == old(db.octets) ||
            (owner in old(db.octets) && db.octets == old(db.octets) - {owner} &&
             old(db.octets)[owner] in old(docker.networks) &&
             docker.networks == old(docker.networks) - {old(db.octets)[owner]})
    ensures docker.faults == old(docker.faults) ==>
              IdleOwnerReleased(old(db.octets), old(docker.networks), db.octets, db.instances, owner)
    ensures docker.networks == old(docker.networks) ||
            (owner in old(db.octets) && docker.networks == old(docker.networks) - {old(db.octets)[owner]})
  {
    if CountForOwner(db.instances, owner) > 0 {
      return;
    }
    if owner !in db.octets {
      return;
    }
    var octet := db.octets[owner];
    var found := docker.GetNetwork(octet);
    if !found.Ok? {
      return;
    }
    var removed := docker.RemoveNetwork(octet);
    if !removed.Ok? {
      return;
    }
    OctetFreed(db.instances, docker.networks, db.octets, owner);
    var _ := db.FreeOctet(owner);
  }

  // ----- address and ports

  /** The lowest guest address that no running row of the owner uses. */
  ghost predicate LowestFree(rows: seq<Instance>, owner: Owner, octet: int, a: Address) {
    && IsGuest(octet, a) && Some(a) !in UsedInstanceIps(rows, owner)
    && forall h: Address :: IsGuest(octet, h) && h < a ==> Some(h) in UsedInstanceIps(rows, owner)
  }

  /** Every guest address is in use. */
  ghost predicate NoGuestFree(rows: seq<Instance>, owner: Owner, octet: int) {
    forall a: Address :: IsGuest(octet, a) ==> Some(a) in UsedInstanceIps(rows, owner)
  }

  /** `find_next_owner_ip`; `None` when every guest address is in use. */
  method FindNextOwnerIp(db: DatabaseManager, owner: Owner, octet: int) returns (r: Option<Address>)
    requires 1 <= octet <= 254
    ensures r.Some? ==> LowestFree(db.instances, owner, octet, r.value)
    ensures r.None? ==> NoGuestFree(db.instances, owner, octet)
  {
    BlockSizes();
    TopologyRanges(0);
    var blocked := UsedInstanceIps(db.instances, owner) + {Some(OwnerGateway(octet))};
    r := IterSubnetHosts(OwnerSubnet(octet).value, blocked);
    if r.None? {
      forall a: Address | IsGuest(octet, a)
        ensures Some(a) in UsedInstanceIps(db.instances, owner)
      {
        assert OwnerSubnet(octet).value.IsHost(a);
      }
    }
  }

  /** `_used_public_ports`. */
  method UsedPublicPorts(db: DatabaseManager) returns (used: set<int>)
    ensures used == PublishedPorts(db.instances)
  {
    used := {};
    for i := 0 to |db.instances|
      invariant used == PublishedPorts(db.instances[..i])
    {
      PublishedPortsStep(db.instances, i);
      used := used + db.instances[i].publishedPorts.Values;
    }
    assert db.instances[..|db.instances|] == db.instances;
  }

  /** The loop of `_allocate_public_ports`. */
  method TakeFreePorts(used: set<int>, count: nat, start: int) returns (r: Option<seq<int>>)
    requires start <= PUBLIC_PORT_RANGE_END
    ensures var free := FreePorts(used, start);
            r == if 1 <= count <= |free| then Some(free[..count]) else None
  {
    ghost var free := FreePorts(used, start);
    var chosen: seq<int> := [];
    for port := start to PUBLIC_PORT_RANGE_END + 1
      invariant PortsSoFar(free, chosen, used, port)
      invariant |chosen| < count || count == 0
    {
      PortsSoFarStep(free, chosen, used, port);
      if port !in used {
        chosen := chosen + [port];
        if |chosen| == count {
          return Some(chosen);
        }
      }
    }
    r := None;
  }

  /** `_allocate_public_ports`: the first `count` free ports, ascending; `None` is the exhausted
      error, which a count of zero also runs into. */
  method AllocatePublicPorts(db: DatabaseManager, count: nat, exclude: set<int>) returns (r: Option<seq<int>>)
    ensures var free := FreePorts(PublishedPorts(db.instances) + exclude, PUBLIC_PORT_RANGE_START);
            r == if 1 <= count <= |free| then Some(free[..count]) else None
  {
    var used := UsedPublicPorts(db);
    r := TakeFreePorts(used + exclude, count, PUBLIC_PORT_RANGE_START);
  }

  // ----- spawn

  /** One pass of the try block: create, start, look up; on an API error remove by name. */
  datatype Attempt = Started(id: nat) | Conflicted | Refused

  /** Among containers known before, only ones of this name may be gone; a new one is `c`. */
  ghost predicate OnlyNamed(before: Containers, nextId: nat, after: Containers, c: Container) {
    && (forall id :: id in before && before[id].name != c.name ==> id in after && after[id] == before[id])
    && (forall id :: id in after ==> if id in before then after[id] == before[id]
                                     else id == nextId && after[id] == c.(status := after[id].status))
  }

  lemma OnlyNamedKeepsRows(rows: seq<Instance>, before: Containers, nextId: nat, after: Containers, nextId': nat,
                           c: Container)
    requires RowsMatchContainers(rows, before, nextId) && nextId <= nextId' && OnlyNamed(before, nextId, after, c)
    ensures RowsMatchContainers(rows, after, nextId')
  {}

  /** Unless a second call failed, nothing of this name is left. */
  ghost predicate Cleaned(faults: nat, faults': nat, containers: Containers, name: string) {
    faults' <= faults + 1 ==> !NameTaken(containers, name)
  }

  /** The calls of the try block up to the first that fails. */
  method CreateAndStart(docker: Engine, c: Container) returns (r: Docker.Reply<nat>)
    requires docker.Valid()
    modifies docker`containers, docker`nextId, docker`faults, docker`failed, docker`conflicts, docker`started, docker`creates
    ensures docker.Valid() && old(docker.nextId) <= docker.nextId
    ensures docker.creates == old(docker.creates) + [CreateCall(c.ip, c.bindings.Values)]
    ensures docker.containers == old(docker.containers) ||
            (old(docker.nextId) in docker.containers &&
             docker.containers ==
             old(docker.containers)[old(docker.nextId) := c.(status := docker.containers[old(docker.nextId)].status)])
    ensures r.Ok? ==> r.value == old(docker.nextId) && r.value in docker.containers && r.value in docker.started
    ensures !r.NotFound? && docker.faults == old(docker.faults) + if r.ApiError? then 1 else 0
    ensures docker.conflicts == old(docker.conflicts) + if r.ApiError? && r.conflict then 1 else 0
  {
    r := docker.CreateContainer(c);
    if !r.Ok? {
      return;
    }
    var id := r.value;
    var started := docker.StartContainer(id);
    if !started.Ok? {
      return ApiError(started.conflict);
    }
    var found := docker.GetContainer(id);
    r := if found.Ok? then Ok(id) else ApiError(found.conflict);
  }

  method TryCreate(docker: Engine, c: Container) returns (r: Attempt)
    requires docker.Valid()
    modifies docker`containers, docker`nextId, docker`faults, docker`failed, docker`conflicts, docker`started, docker`creates
    ensures docker.Valid() && old(docker.nextId) <= docker.nextId && old(docker.faults) <= docker.faults
    ensures docker.creates == old(docker.creates) + [CreateCall(c.ip, c.bindings.Values)]
    ensures OnlyNamed(old(docker.containers), old(docker.nextId), docker.containers, c)
    ensures r.Started? ==> r.id == old(docker.nextId) && r.id in docker.containers && r.id < docker.nextId
    ensures r.Started? ==> r.id in docker.started && docker.faults == old(docker.faults)
    ensures !r.Started? ==> old(docker.faults) < docker.faults
    ensures !r.Started? ==> (r.Conflicted? <==> old(docker.conflicts) < docker.conflicts)
    ensures !r.Started? ==> Cleaned(old(docker.faults), docker.faults, docker.containers, c.name)
  {
    var created := CreateAndStart(docker, c);
    if created.Ok? {
      return Started(created.value);
    }
    docker.TryRemoveByName(c.name);
    r := if created.conflict then Conflicted else Refused;
  }

  datatype SpawnError = NoDockerfile | BuildFailed | NoFreePorts | RunFailed | NoFreeIp | DatabaseFailed

  /** `Raised` is an exception that leaves `spawn_instance`. */
  datatype SpawnResult = Spawned(instance: Instance) | Failed(error: SpawnError) | Raised

  /** The container `spawn_instance` asks for. */
  function Wanted(name: string, owner: Owner, challengeRef: string, octet: int, ip: Address, bindings: PortMap,
                  exposed: seq<string>, expiresAt: Option<string>): Container {
    Container(name, true, Some(Labels(owner, challengeRef, expiresAt, exposed)),
              octet, ip, bindings, Created)
  }

  /** Host ports for a public challenge: the lowest free ones, in the order of the exposed ports. */
  ghost predicate Published(rows: seq<Instance>, publish: bool, exposed: seq<string>, bindings: PortMap) {
    if publish && exposed != [] then
      var free := FreePorts(PublishedPorts(rows), PUBLIC_PORT_RANGE_START);
      |exposed| <= |free| && bindings == PortBindings(exposed, free[..|exposed|])
    else bindings == map[]
  }

  lemma PublishedIsFresh(rows: seq<Instance>, publish: bool, exposed: seq<string>, bindings: PortMap)
    requires Published(rows, publish, exposed, bindings)
    ensures bindings.Values !! PublishedPorts(rows)
    ensures forall p :: p in bindings.Values ==> 40000 <= p <= 41000
  {
    if publish && exposed != [] {
      PublicPorts(PublishedPorts(rows));
      var chosen := FreePorts(PublishedPorts(rows), PUBLIC_PORT_RANGE_START)[..|exposed|];
      forall p | p in bindings.Values
        ensures p !in PublishedPorts(rows) && 40000 <= p <= 41000
      {
        var e :| e in bindings && bindings[e] == p;
        assert p in chosen;
      }
    }
  }

  lemma BelowBindingIsBound(used: set<int>, free: seq<int>, exposed: seq<string>, bindings: PortMap, e: string, p: int)
    requires forall q :: q in free <==> 40000 <= q <= 41000 && q !in used
    requires forall q :: q in bindings.Values ==> q in free
    requires forall q :: e in bindings && q in free && q < bindings[e] ==> q in bindings.Values
    requires e in bindings && 40000 <= p < bindings[e]
    ensures p in used || p in bindings.Values
  {
    assert bindings[e] in free;
  }

  /** Each exposed port of a public challenge gets a host port of its own, and below the highest of them
      every port of the range is used by a row or given to this container. */
  lemma PublishedIsLowest(rows: seq<Instance>, exposed: seq<string>, bindings: PortMap)
    requires Published(rows, true, exposed, bindings) && Distinct(exposed)
    ensures forall e :: e in bindings <==> e in exposed
    ensures forall e, e' :: e in bindings && e' in bindings && e != e' ==> bindings[e] != bindings[e']
    ensures forall e, p :: e in bindings && 40000 <= p < bindings[e] ==> p in PublishedPorts(rows) || p in bindings.Values
  {
    if exposed != [] {
      var free := FreePorts(PublishedPorts(rows), PUBLIC_PORT_RANGE_START);
      PublicPorts(PublishedPorts(rows));
      FirstPortsBound(exposed, free, bindings);
      forall e, p | e in bindings && 40000 <= p < bindings[e]
        ensures p in PublishedPorts(rows) || p in bindings.Values
      {
        BelowBindingIsBound(PublishedPorts(rows), free, exposed, bindings, e, p);
      }
    }
  }

  /** A container for this owner and challenge at the lowest free address and host ports. */
  ghost predicate Requested(c: Container, rows: seq<Instance>, name: string, owner: Owner, challengeRef: string, octet: int,
                            publish: bool, exposed: seq<string>, expiresAt: Option<string>) {
    && c == Wanted(name, owner, challengeRef, octet, c.ip, c.bindings, exposed, expiresAt)
    && LowestFree(rows, owner, octet, c.ip) && Published(rows, publish, exposed, c.bindings)
  }

  /** A public challenge exposes more ports than are free. */
  ghost predicate TooFewPorts(rows: seq<Instance>, publish: bool, exposed: seq<string>) {
    publish && |exposed| > |FreePorts(PublishedPorts(rows), PUBLIC_PORT_RANGE_START)|
  }

  /** The ports of one round: none unless the challenge is public. */
  method ChoosePorts(db: DatabaseManager, publish: bool, exposed: seq<string>, tried: set<int>) returns (r: Option<PortMap>)
    ensures tried == {} ==> if r.Some? then Published(db.instances, publish, exposed, r.value)
                            else TooFewPorts(db.instances, publish, exposed)
  {
    if !publish || exposed == [] {
      return Some(map[]);
    }
    var ports := AllocatePublicPorts(db, |exposed|, tried);
    assert tried == {} ==> PublishedPorts(db.instances) + tried == PublishedPorts(db.instances);
    r := if ports.Some? then Some(PortBindings(exposed, ports.value)) else None;
  }

  /** The retry loop: eight rounds that recompute the address from the same rows, so the second
      round on finds the address already tried and no second container is ever requested. */
  method CreateWithRetry(db: DatabaseManager, docker: Engine, name: string, owner: Owner, challengeRef: string, octet: int,
                         publish: bool, exposed: seq<string>, expiresAt: Option<string>)
    returns (r: SpawnStep, ghost wanted: Container)
    requires 1 <= octet <= 254 && docker.Valid()
    modifies docker`containers, docker`nextId, docker`faults, docker`failed, docker`conflicts, docker`started, docker`creates
    ensures docker.Valid() && old(docker.nextId) <= docker.nextId
    ensures || (docker.creates == old(docker.creates) && docker.containers == old(docker.containers) && !r.Up?)
            || (docker.creates == old(docker.creates) + [CreateCall(wanted.ip, wanted.bindings.Values)] &&
                Requested(wanted, db.instances, name, owner, challengeRef, octet, publish, exposed, expiresAt) &&
                OnlyNamed(old(docker.containers), old(docker.nextId), docker.containers, wanted))
    ensures r.Up? ==> r.id == old(docker.nextId) && r.id in docker.containers && r.id < docker.nextId && r.ip == wanted.ip
    ensures r.Up? ==> r.id in docker.started && docker.faults == old(docker.faults)
    ensures old(docker.faults) <= docker.faults
    ensures r.Exception? ==> NoGuestFree(db.instances, owner, octet)
    ensures r == Error(NoFreePorts) ==> TooFewPorts(db.instances, publish, exposed)
    ensures r.Error? && r.error != NoFreePorts ==>
              r.error == (if old(docker.conflicts) < docker.conflicts then NoFreeIp else RunFailed) &&
              old(docker.faults) < docker.faults && Cleaned(old(docker.faults), docker.faults, docker.containers, name)
  {
    wanted := Wanted(name, owner, challengeRef, octet, 0, map[], exposed, expiresAt);
    var triedIps: seq<Address> := [];
    var triedPorts: set<int> := {};
    for i := 0 to 8
      invariant docker.Valid() && old(docker.nextId) <= docker.nextId && old(docker.faults) <= docker.faults
      invariant i > 0 ==> triedIps != []
      invariant triedIps == [] ==> triedPorts == {} && docker.creates == old(docker.creates) &&
                                   docker.containers == old(docker.containers) && docker.nextId == old(docker.nextId) &&
                                   docker.faults == old(docker.faults) && docker.conflicts == old(docker.conflicts)
      invariant triedIps != [] ==>
                  && triedIps[0] == wanted.ip
                  && old(docker.faults) < docker.faults && old(docker.conflicts) < docker.conflicts
                  && Cleaned(old(docker.faults), docker.faults, docker.containers, name)
                  && docker.creates == old(docker.creates) + [CreateCall(wanted.ip, wanted.bindings.Values)]
                  && Requested(wanted, db.instances, name, owner, challengeRef, octet, publish, exposed, expiresAt)
                  && OnlyNamed(old(docker.containers), old(docker.nextId), docker.containers, wanted)
    {
      var ip := FindNextOwnerIp(db, owner, octet);
      if ip.None? {
        return Exception, wanted;
      }
      assert triedIps != [] ==> triedIps[0] == ip.value;
      if ip.value in triedIps {
        continue;
      }
      var bindings := ChoosePorts(db, publish, exposed, triedPorts);
      if bindings.None? {
        return Error(NoFreePorts), wanted;
      }
      wanted := Wanted(name, owner, challengeRef, octet, ip.value, bindings.value, exposed, expiresAt);
      var c := Wanted(name, owner, challengeRef, octet, ip.value, bindings.value, exposed, expiresAt);
      var attempt := TryCreate(docker, c);
      if attempt.Started? {
        return Up(attempt.id, ip.value), wanted;
      }
      if attempt.Refused? {
        return Error(RunFailed), wanted;
      }
      triedIps := triedIps + [ip.value];
      triedPorts := triedPorts + bindings.value.Values;
    }
    r := Error(NoFreeIp);
  }

  datatype SpawnStep = Up(id: nat, ip: Address) | Error(error: SpawnError) | Exception

  /** The row a successful spawn adds, read off the container that was created. */
  ghost predicate NewRow(row: Instance, rows: seq<Instance>, octets: Octets, name: string, owner: Owner, challengeRef: string,
                         publish: bool, exposed: seq<string>, expiresAt: Option<string>, containerId: nat) {
    && owner in octets && row.assignedIp.Some?
    && LowestFree(rows, owner, octets[owner], row.assignedIp.value)
    && (row.publishedPorts == map[] || Published(rows, publish, exposed, row.publishedPorts))
    && row == Instance(row.id, containerId, name, owner, challengeRef, row.assignedIp,
                       exposed, row.publishedPorts, Running, expiresAt)
  }

  /** The container behind a new row: on the owner's bridge, at the recorded address, labelled, asked for
      with the lowest free host ports; for a public challenge the row has the ones it reports. */
  ghost predicate Backed(row: Instance, c: Container, octet: int, rows: seq<Instance>, publish: bool) {
    && c.name == row.containerName && c.octet == octet && Some(c.ip) == row.assignedIp
    && c.managed && c.labels == Some(Labels(row.owner, row.challengeRef, row.expiresAt, row.ports))
    && Published(rows, publish, row.ports, c.bindings)
    && row.publishedPorts == if publish then Reported(c) else map[]
  }

  lemma NewRowKeepsAllocation(row: Instance, rows: seq<Instance>, octets: Octets, name: string, owner: Owner,
                              challengeRef: string,
                              publish: bool, exposed: seq<string>, expiresAt: Option<string>, containerId: nat)
    requires NewRow(row, rows, octets, name, owner, challengeRef, publish, exposed, expiresAt, containerId)
    requires WellAllocated(rows, octets)
    ensures WellAllocated(rows + [row], octets)
  {
    if row.publishedPorts != map[] {
      PublishedIsFresh(rows, publish, exposed, row.publishedPorts);
    }
    AddedRow(rows, octets, row);
  }

  /** The address and ports to record, read off the running container. */
  method ReadBack(docker: Engine, id: nat, octet: int, publish: bool, ip: Address, ghost wanted: Container)
    returns (ok: bool, assignedIp: Address, published: PortMap)
    requires id in docker.containers && docker.containers[id] == wanted.(status := docker.containers[id].status)
    requires ip == wanted.ip
    modifies docker`faults
    ensures old(docker.faults) <= docker.faults && (!ok ==> old(docker.faults) < docker.faults)
    ensures assignedIp == wanted.ip && (ok ==> published == if publish then Reported(docker.containers[id]) else map[])
  {
    published := map[];
    var live := docker.LiveIp(id, Some(octet));
    assignedIp := if live.Some? then live.value else ip;
    ok := docker.Reload(id);
    if ok && publish {
      published := docker.LivePublishedPorts(id);
    }
  }

  /** The end of `spawn_instance`: read the container back and record it, or remove it again. */
  method RecordInstance(db: DatabaseManager, docker: Engine, name: string, owner: Owner, challengeRef: string, octet: int,
                        publish: bool, exposed: seq<string>, expiresAt: Option<string>, id: nat, ip: Address,
                        ghost wanted: Container)
    returns (r: SpawnResult)
    requires Consistent(db, docker) && owner in db.octets && db.octets[owner] == octet
    requires Requested(wanted, db.instances, name, owner, challengeRef, octet, publish, exposed, expiresAt) && ip == wanted.ip
    requires id in docker.containers && docker.containers[id] == wanted.(status := docker.containers[id].status)
    requires !Collides(db.instances, id, owner, challengeRef)
    modifies db`instances, db`nextInstanceId, db`faults, docker`containers, docker`faults
    ensures Consistent(db, docker) && (old(Allocated(db)) ==> Allocated(db))
    ensures r.Spawned? ==>
              db.instances == old(db.instances) + [r.instance] && docker.containers == old(docker.containers) &&
              NewRow(r.instance, old(db.instances), db.octets, name, owner, challengeRef, publish, exposed, expiresAt, id) &&
              Backed(r.instance, docker.containers[id], octet, old(db.instances), publish)
    ensures !r.Spawned? ==>
              db.instances == old(db.instances) &&
              (docker.containers == old(docker.containers) || docker.containers == old(docker.containers) - {id})
    ensures old(docker.faults) <= docker.faults && old(db.faults) <= db.faults
    ensures r.Raised? ==> old(docker.faults) < docker.faults
    // a failed write takes the container down again
    ensures r.Failed? ==> r.error == DatabaseFailed && old(db.faults) < db.faults
    ensures r.Failed? && docker.faults == old(docker.faults) ==> docker.containers == old(docker.containers) - {id}
  {
    var seen, assignedIp, published := ReadBack(docker, id, octet, publish, ip, wanted);
    if !seen {
      return Raised;
    }
    var added := db.AddInstance(id, name, owner, challengeRef, Some(assignedIp),
                                exposed, published, Running, expiresAt);
    if !added.Added? {
      docker.TryRemove(id);
      ContainersDrifted(db.instances, old(docker.containers), docker.containers, docker.nextId, docker.nextId);
      return Failed(DatabaseFailed);
    }
    RowRecorded(old(db.instances), added.row, docker.containers, docker.nextId);
    assert NewRow(added.row, old(db.instances), db.octets, name, owner, challengeRef, publish, exposed, expiresAt, id);
    if old(Allocated(db)) {
      NewRowKeepsAllocation(added.row, old(db.instances), db.octets, name, owner, challengeRef, publish, exposed,
                            expiresAt, id);
    }
    r := Spawned(added.row);
  }

  /** A failure after the build names its true reason. */
  ghost predicate Excused(r: SpawnResult, rows: seq<Instance>, owner: Owner, octet: int, publish: bool,
                          exposed: seq<string>, faulted: bool, conflicted: bool, unwritten: bool) {
    match r
    case Spawned(_) => true
    case Raised => faulted || NoGuestFree(rows, owner, octet)
    case Failed(error) =>
      if error == NoFreePorts then TooFewPorts(rows, publish, exposed)
      else if error == DatabaseFailed then unwritten
      else faulted && error == if conflicted then NoFreeIp else RunFailed
  }

  /** What an error leaves of the container: nothing of its name after a refused run, and none that is new
      after a failed write, unless the call that removes it failed too. */
  ghost predicate LeavesNothing(r: SpawnResult, faults: nat, faults': nat, before: Containers, after: Containers,
                                name: string) {
    r.Failed? ==>
      match r.error
      case RunFailed => Cleaned(faults, faults', after, name)
      case NoFreeIp => Cleaned(faults, faults', after, name)
      case DatabaseFailed => faults' == faults ==> after.Keys <= before.Keys
      case _ => after == before
  }

  /** What is there was there before, or is new, has this name and is labelled for this owner and challenge. */
  ghost predicate OnlyNewFor(before: Containers, after: Containers, name: string, owner: Owner, challengeRef: string) {
    forall id :: id in after ==>
      if id in before then after[id] == before[id]
      else after[id].name == name && after[id].labels.Some? && after[id].labels.value.owner == owner &&
           after[id].labels.value.challengeRef == challengeRef
  }

  /** Containers under any other name stay as they were. */
  ghost predicate OthersKept(before: Containers, after: Containers, name: string) {
    forall id :: id in before && before[id].name != name ==> id in after && after[id] == before[id]
  }

  lemma OnlyNamedSpares(before: Containers, nextId: nat, tried: Containers, after: Containers, c: Container, owner: Owner,
                        challengeRef: string)
    requires OnlyNamed(before, nextId, tried, c) && nextId !in before
    requires c.labels.Some? && c.labels.value.owner == owner && c.labels.value.challengeRef == challengeRef
    requires after == tried || after == tried - {nextId}
    ensures OthersKept(before, after, c.name) && OnlyNewFor(before, after, c.name, owner, challengeRef)
    ensures after == tried - {nextId} ==> after.Keys <= before.Keys
  {}

  /** `spawn_instance` once the network exists and the image is built. */
  method CreateAndRecord(db: DatabaseManager, docker: Engine, name: string, owner: Owner, challengeRef: string, octet: int,
                         publish: bool, exposed: seq<string>, expiresAt: Option<string>)
    returns (r: SpawnResult)
    requires Consistent(db, docker) && owner in db.octets && db.octets[owner] == octet
    requires FindInstance(db.instances, owner, challengeRef).None?
    modifies db`instances, db`nextInstanceId, db`faults, docker`containers, docker`nextId, docker`faults, docker`failed,
             docker`conflicts, docker`started, docker`creates
    ensures Consistent(db, docker) && (old(Allocated(db)) ==> Allocated(db))
    ensures r.Spawned? ==>
              db.instances == old(db.instances) + [r.instance] && old(docker.nextId) in docker.containers &&
              NewRow(r.instance, old(db.instances), db.octets, name, owner, challengeRef, publish, exposed, expiresAt,
                     old(docker.nextId)) &&
              Backed(r.instance, docker.containers[old(docker.nextId)], octet, old(db.instances), publish) &&
              old(docker.nextId) in docker.started
    ensures !r.Spawned? ==> db.instances == old(db.instances)
    ensures Excused(r, old(db.instances), owner, octet, publish, exposed, old(docker.faults) < docker.faults,
                    old(docker.conflicts) < docker.conflicts, old(db.faults) < db.faults)
    ensures LeavesNothing(r, old(docker.faults), docker.faults, old(docker.containers), docker.containers, name)
    ensures old(docker.faults) <= docker.faults && old(db.faults) <= db.faults
    ensures docker.creates == old(docker.creates) || |docker.creates| == |old(docker.creates)| + 1
    ensures OthersKept(old(docker.containers), docker.containers, name)
    ensures OnlyNewFor(old(docker.containers), docker.containers, name, owner, challengeRef)
  {
    var step, wanted := CreateWithRetry(db, docker, name, owner, challengeRef, octet, publish, exposed, expiresAt);
    ghost var tried := docker.containers;
    if docker.creates != old(docker.creates) {
      OnlyNamedKeepsRows(db.instances, old(docker.containers), old(docker.nextId), tried, docker.nextId, wanted);
      OnlyNamedSpares(old(docker.containers), old(docker.nextId), tried, tried, wanted, owner, challengeRef);
      OnlyNamedSpares(old(docker.containers), old(docker.nextId), tried, tried - {old(docker.nextId)}, wanted, owner,
                      challengeRef);
    }
    if step.Error? {
      return Failed(step.error);
    }
    if step.Exception? {
      return Raised;
    }
    r := RecordInstance(db, docker, name, owner, challengeRef, octet, publish, exposed, expiresAt, step.id, step.ip, wanted);
  }

  /** `spawn_instance`. `exposed` and `buildOk` are what the image build reports. */
  method SpawnInstance(db: DatabaseManager, docker: Engine, owner: Owner, challengeRef: string, hasDockerfile: bool,
                       buildOk: bool, exposed: seq<string>, expiresAt: Option<string>, publish: bool)
    returns (r: SpawnResult)
    requires Consistent(db, docker)
    modifies db`octets, db`instances, db`nextInstanceId, db`faults, docker
    ensures Consistent(db, docker) && (old(Allocated(db)) ==> Allocated(db))
    ensures old(docker.faults) <= docker.faults && old(db.faults) <= db.faults
    // idempotent per (owner, challenge)
    ensures FindInstance(old(db.instances), owner, challengeRef).Some? ==>
              r == Spawned(FindInstance(old(db.instances), owner, challengeRef).value) &&
              unchanged(db) && unchanged(docker)
    // otherwise a row is added on success and only then
    ensures FindInstance(old(db.instances), owner, challengeRef).None? && r.Spawned? ==>
              hasDockerfile && buildOk && db.instances == old(db.instances) + [r.instance] &&
              NewRow(r.instance, old(db.instances), db.octets, ContainerName(challengeRef, owner), owner, challengeRef,
                     publish, exposed, expiresAt, old(docker.nextId)) &&
              old(docker.nextId) in docker.containers &&
              Backed(r.instance, docker.containers[old(docker.nextId)], db.octets[owner], old(db.instances), publish) &&
              old(docker.nextId) in docker.started
    ensures !r.Spawned? ==> db.instances == old(db.instances)
    // and a failure has a reason
    ensures r == Failed(NoDockerfile) ==> !hasDockerfile
    ensures r == Failed(BuildFailed) ==> !buildOk
    ensures r.Failed? && r.error !in {NoDockerfile, BuildFailed} ==>
              owner in db.octets &&
              Excused(r, old(db.instances), owner, db.octets[owner], publish, exposed, old(docker.faults) < docker.faults,
                      old(docker.conflicts) < docker.conflicts, old(db.faults) < db.faults)
    ensures LeavesNothing(r, old(docker.faults), docker.faults, old(docker.containers), docker.containers,
                          ContainerName(challengeRef, owner))
    ensures r.Raised? ==>
              || NoNetworkFor(old(db.octets), db.octets, old(docker.networks), owner) || !docker.connected
              || (owner in db.octets && NoGuestFree(old(db.instances), owner, db.octets[owner]))
              || old(docker.faults) < docker.faults
    ensures OctetsExtended(old(db.octets), db.octets, owner)
    ensures FindInstance(old(db.instances), owner, challengeRef).None? ==>
              db.octets == if hasDockerfile then GrantedOctets(old(db.octets), owner) else old(db.octets)
    // Docker: no bridge but the owner's is new, and a success has one
    ensures docker.networks == old(docker.networks) ||
            (owner in db.octets && docker.networks == old(docker.networks)[db.octets[owner] := Network(owner, true)])
    ensures FindInstance(old(db.instances), owner, challengeRef).None? && r.Spawned? ==>
              db.octets[owner] in docker.networks && docker.networks[db.octets[owner]] == Network(owner, true)
    // at most one create, and only containers of this name are touched
    ensures docker.creates == old(docker.creates) || |docker.creates| == |old(docker.creates)| + 1
    ensures OthersKept(old(docker.containers), docker.containers, ContainerName(challengeRef, owner))
    ensures OnlyNewFor(old(docker.containers), docker.containers, ContainerName(challengeRef, owner), owner, challengeRef)
  {
    var existing := FindInstance(db.instances, owner, challengeRef);
    if existing.Some? {
      return Spawned(existing.value);
    }
    if !hasDockerfile {
      return Failed(NoDockerfile);
    }
    var octet := EnsureOwnerNetwork(db, docker, owner);
    if octet.None? {
      return Raised;
    }
    if !buildOk {
      return Failed(BuildFailed);
    }
    r := CreateAndRecord(db, docker, ContainerName(challengeRef, owner), owner, challengeRef, octet.value, publish,
                         exposed, expiresAt);
  }

  /** Rows with a numeric challenge and one of CTFd's kinds of owner, as the plugin sends them. */
  ghost predicate FromPlugin(rows: seq<Instance>) {
    forall r :: r in rows ==> PluginKey(r.owner, r.challengeRef)
  }

  predicate PluginKey(owner: Owner, challengeRef: string) { IsDigits(challengeRef) && '_' !in owner.kind }

  ghost predicate TrackedKept(rows: seq<Instance>, before: Containers, after: Containers) {
    forall r :: r in rows && r.containerId in before ==>
      r.containerId in after && after[r.containerId] == before[r.containerId]
  }

  /** The spawn removes by force whatever holds its name; that is never the container of a tracked row. */
  lemma SpawnSparesTracked(rows: seq<Instance>, before: Containers, nextId: nat, after: Containers, owner: Owner,
                           challengeRef: string)
    requires RowsMatchContainers(rows, before, nextId) && NamesFit(rows, before)
    requires FindInstance(rows, owner, challengeRef).None?
    requires OthersKept(before, after, ContainerName(challengeRef, owner))
    ensures FromPlugin(rows) && PluginKey(owner, challengeRef) ==> TrackedKept(rows, before, after)
  {
    forall r | FromPlugin(rows) && PluginKey(owner, challengeRef) && r in rows && r.containerId in before
      ensures r.containerId in after && after[r.containerId] == before[r.containerId]
    {
      assert RowNamed(r);
      SameNameIff(r.challengeRef, r.owner, challengeRef, owner);
      SlugOfDigits(r.challengeRef);
      SlugOfDigits(challengeRef);
    }
  }

  lemma NamesAfterSpawn(rows: seq<Instance>, before: Containers, rows': seq<Instance>, after: Containers, owner: Owner,
                        challengeRef: string)
    requires NamesFit(rows, before) && OnlyNewFor(before, after, ContainerName(challengeRef, owner), owner, challengeRef)
    requires rows' == rows ||
             exists r :: rows' == rows + [r] && r.containerName == ContainerName(challengeRef, owner) &&
                         r.owner == owner && r.challengeRef == challengeRef
    ensures NamesFit(rows', after)
  {
    forall id | id in after
      ensures ContainerNamed(after[id])
    {
      assert id in before ==> ContainerNamed(before[id]);
    }
  }

  /** Rows that go or take a status, containers that go or take a status. */
  lemma NamesAfterLoss(rows: seq<Instance>, before: Containers, rows': seq<Instance>, after: Containers)
    requires NamesFit(rows, before) && DriftedFrom(before, after)
    requires forall r :: r in rows' ==> r in rows || exists q :: q in rows && TookStatus(r, q, before)
    ensures NamesFit(rows', after)
  {
    forall r | r in rows'
      ensures RowNamed(r)
    {
      if r in rows {
        assert RowNamed(r);
      } else {
        var q :| q in rows && TookStatus(r, q, before);
        assert RowNamed(q);
      }
    }
    forall id | id in after
      ensures ContainerNamed(after[id])
    {
      assert ContainerNamed(before[id]);
    }
  }

  lemma NamesAfterAdoption(rows: seq<Instance>, rows': seq<Instance>, containers: Containers, octets: Octets)
    requires NamesFit(rows, containers) && FromContainers(rows, rows', containers, octets, false)
    ensures NamesFit(rows', containers)
  {
    forall r | r in rows'
      ensures RowNamed(r)
    {
      if r in rows {
        assert RowNamed(r);
      } else {
        var id :| Untracked(rows, containers, id) && AdoptedRow(r, id, containers[id], octets, false);
        assert ContainerNamed(containers[id]);
      }
    }
  }

  // ----- release

  predicate Tracked(rows: seq<Instance>, containerId: nat) {
    exists row :: row in rows && row.containerId == containerId
  }

  /** The octet of an owner is freed, if any is, only once that owner has no row left. */
  ghost predicate OctetsReleased(before: Octets, after: Octets, rows: seq<Instance>, owner: Option<Owner>) {
    after == before || (owner.Some? && after == before - {owner.value} && CountForOwner(rows, owner.value) == 0)
  }

  /** At most this owner's bridge and octet are gone, the octet only with the bridge, and only if the owner
      has no row left. */
  ghost predicate Released(octets: Octets, networks: Networks, octets': Octets, networks': Networks,
                           rows: seq<Instance>, owner: Owner) {
    || (octets' == octets && networks' == networks)
    || (CountForOwner(rows, owner) == 0 && owner in octets && networks' == networks - {octets[owner]} &&
        (octets' == octets || (octets' == octets - {owner} && octets[owner] in networks)))
  }

  /** The tables and bridges that freeing looks at. */
  datatype Tables = Tables(rows: seq<Instance>, octets: Octets, networks: Networks)

  /** Octets and bridges are only freed, and only of owners without a row. */
  ghost predicate OnlyFreed(start: Tables, now: Tables) {
    && (forall o :: o in now.octets ==> o in start.octets && now.octets[o] == start.octets[o])
    && (forall o :: o in start.octets && o !in now.octets ==> CountForOwner(now.rows, o) == 0)
    && (forall k :: k in now.networks ==> k in start.networks && now.networks[k] == start.networks[k])
    && (forall k :: k in start.networks && k !in now.networks ==> HeldByIdle(start.octets, now.rows, k))
  }

  ghost predicate HeldByIdle(octets: Octets, rows: seq<Instance>, k: int) {
    exists o :: o in octets && octets[o] == k && CountForOwner(rows, o) == 0
  }

  lemma OnlyFreedStep(start: Tables, now: Tables, next: Tables, owner: Owner)
    requires OnlyFreed(start, now) && Released(now.octets, now.networks, next.octets, next.networks, next.rows, owner)
    requires forall o :: CountForOwner(next.rows, o) > 0 ==> CountForOwner(now.rows, o) > 0
    ensures OnlyFreed(start, next)
  {
    forall k | k in start.networks && k !in next.networks
      ensures HeldByIdle(start.octets, next.rows, k)
    {
      if k !in now.networks {
        var o :| o in start.octets && start.octets[o] == k && CountForOwner(now.rows, o) == 0;
        assert CountForOwner(next.rows, o) == 0;
      } else {
        assert owner in start.octets && start.octets[owner] == k;
      }
    }
  }

  /** At most the row of that container goes, and with it what its owner leaves idle. */
  ghost predicate ReleasedWith(now: Tables, next: Tables, containerId: nat) {
    || (next.octets == now.octets && next.networks == now.networks && forall r :: r in next.rows ==> r in now.rows)
    || ((forall r :: r in next.rows ==> r in now.rows) &&
        exists row :: row in now.rows && row.containerId == containerId &&
                      Released(now.octets, now.networks, next.octets, next.networks, next.rows, row.owner))
  }

  lemma FewerRowsCount(rows: seq<Instance>, fewer: seq<Instance>, o: Owner)
    requires forall r :: r in fewer ==> r in rows
    ensures CountForOwner(fewer, o) > 0 ==> CountForOwner(rows, o) > 0
  {}

  lemma OnlyFreedByRelease(start: Tables, now: Tables, next: Tables, containerId: nat)
    requires OnlyFreed(start, now) && ReleasedWith(now, next, containerId)
    ensures OnlyFreed(start, next)
  {
    forall o
      ensures CountForOwner(next.rows, o) > 0 ==> CountForOwner(now.rows, o) > 0
    {
      FewerRowsCount(now.rows, next.rows, o);
    }
    if row :| row in now.rows && row.containerId == containerId &&
              Released(now.octets, now.networks, next.octets, next.networks, next.rows, row.owner) {
      OnlyFreedStep(start, now, next, row.owner);
    } else {
      assert next.octets == now.octets && next.networks == now.networks;
      assert forall k :: k in start.networks && k !in now.networks ==> HeldByIdle(start.octets, now.rows, k);
    }
  }

  /** The loop of `release_instance` that looks for the row. */
  method OwnerOf(db: DatabaseManager, containerId: nat) returns (owner: Option<Owner>)
    ensures owner.None? ==> !Tracked(db.instances, containerId)
    ensures OwnsRow(db.instances, containerId, owner)
  {
    for i := 0 to |db.instances|
      invariant forall j :: 0 <= j < i ==> db.instances[j].containerId != containerId
    {
      if db.instances[i].containerId == containerId {
        return Some(db.instances[i].owner);
      }
    }
    owner := None;
  }

  /** The owner, if any, of the row of that container. */
  ghost predicate OwnsRow(rows: seq<Instance>, containerId: nat, owner: Option<Owner>) {
    owner.Some? ==> exists row :: row in rows && row.containerId == containerId && row.owner == owner.value
  }

  /** `remove_instance`, then `release_owner_network_if_idle` for the owner of the row. */
  method Forget(db: DatabaseManager, docker: Engine, containerId: nat, owner: Option<Owner>) returns (removed: bool)
    requires Consistent(db, docker)
    modifies db`octets, db`instances, docker`networks, docker`faults
    ensures Consistent(db, docker) && (old(Allocated(db)) ==> Allocated(db))
    ensures old(docker.faults) <= docker.faults
    ensures removed == Tracked(old(db.instances), containerId)
    ensures db.instances == WithoutContainer(old(db.instances), containerId)
    ensures |db.instances| == |old(db.instances)| - if removed then 1 else 0
    ensures OctetsReleased(old(db.octets), db.octets, db.instances, owner)
    ensures owner.Some? ==>
              Released(old(db.octets), old(docker.networks), db.octets, docker.networks, db.instances, owner.value)
    ensures owner.Some? && docker.faults == old(docker.faults) ==>
              IdleOwnerReleased(old(db.octets), old(docker.networks), db.octets, db.instances, owner.value)
    ensures OwnsRow(old(db.instances), containerId, owner) ==>
              ReleasedWith(old(Tables(db.instances, db.octets, docker.networks)),
                           Tables(db.instances, db.octets, docker.networks), containerId)
  {
    FewerRows(db.instances, WithoutContainer(db.instances, containerId), db.octets);
    removed := db.RemoveInstance(containerId);
    assert Consistent(db, docker);
    if owner.Some? {
      ReleaseOwnerNetworkIfIdle(db, docker, owner.value);
    }
  }

  ghost predicate OnlyTouched(before: Containers, after: Containers, containerId: nat) {
    forall id :: id in before && id != containerId ==> id in after && after[id] == before[id]
  }

  /** `ReleaseRaised` is an exception; otherwise the returned boolean. */
  datatype ReleaseResult = ReleaseRaised | Returned(removed: bool)

  /** `release_instance`: on success the row is gone, and with an owner's last row its network and octet. */
  method ReleaseInstance(db: DatabaseManager, docker: Engine, containerId: nat) returns (r: ReleaseResult)
    requires Consistent(db, docker)
    modifies db`octets, db`instances, docker`containers, docker`networks, docker`faults, docker`failed, docker`connected
    ensures Consistent(db, docker) && (old(Allocated(db)) ==> Allocated(db))
    ensures r.ReleaseRaised? ==> !docker.connected
    ensures old(docker.connected) ==> docker.connected
    ensures old(docker.faults) <= docker.faults && GrowsAt(old(docker.failed), docker.failed, containerId)
    ensures docker.faults == old(docker.faults) ==> docker.failed == old(docker.failed)
    // unless stopping or removing it failed, the container is gone, tracked or not, and so is its row
    ensures r.Returned? && docker.failed == old(docker.failed) ==>
              r.removed == Tracked(old(db.instances), containerId) && containerId !in docker.containers
    ensures r == Returned(true) ==>
              Tracked(old(db.instances), containerId) && containerId !in docker.containers &&
              db.instances == WithoutContainer(old(db.instances), containerId) &&
              |db.instances| == |old(db.instances)| - 1
    ensures r != Returned(true) ==> db.instances == old(db.instances) && db.octets == old(db.octets)
    ensures db.octets == old(db.octets) ||
            exists row :: row in old(db.instances) && row.containerId == containerId &&
                          OctetsReleased(old(db.octets), db.octets, db.instances, Some(row.owner))
    ensures ReleasedWith(old(Tables(db.instances, db.octets, docker.networks)),
                         Tables(db.instances, db.octets, docker.networks), containerId)
    ensures r == Returned(true) && docker.faults == old(docker.faults) ==>
              forall row :: row in old(db.instances) && row.containerId == containerId ==>
                IdleOwnerReleased(old(db.octets), old(docker.networks), db.octets, db.instances, row.owner)
    ensures DriftedFrom(old(docker.containers), docker.containers)
    ensures OnlyTouched(old(docker.containers), docker.containers, containerId)
  {
    var connected := docker.Connect();
    if !connected {
      return ReleaseRaised;
    }
    var owner := OwnerOf(db, containerId);
    var stopped := docker.StopAndRemove(containerId);
    assert OnlyTouched(old(docker.containers), docker.containers, containerId);
    assert DriftedFrom(old(docker.containers), docker.containers);
    ContainersDrifted(db.instances, old(docker.containers), docker.containers, docker.nextId, docker.nextId);
    assert Consistent(db, docker);
    if stopped.ApiError? {
      return Returned(false);
    }
    var removed := Forget(db, docker, containerId, owner);
    r := Returned(removed);
  }

  /** A row is gone only if its container is. */
  ghost predicate GoneWithContainers(before: seq<Instance>, after: seq<Instance>, containers: Containers) {
    forall r :: r in before && r !in after ==> r.containerId !in containers
  }

  /** A row still marked running is one whose container could not be stopped or removed. */
  ghost predicate RunningOnlyIfFailed(rows: seq<Instance>, failed: multiset<nat>, failed': multiset<nat>) {
    forall r :: r in rows && r.status == Running ==> failed[r.containerId] < failed'[r.containerId]
  }

  /** Containers that no row marked running refers to are left alone. */
  ghost predicate OnlyRunningTouched(rows: seq<Instance>, before: Containers, after: Containers) {
    forall id :: id in before && (forall r :: r in rows && r.status == Running ==> r.containerId != id) ==>
      id in after && after[id] == before[id]
  }

  /** `teardown_all`; `None` is an exception. Rows of stopped containers are not visited. */
  method TeardownAll(db: DatabaseManager, docker: Engine) returns (count: Option<nat>)
    requires Consistent(db, docker)
    modifies db`octets, db`instances, docker`containers, docker`networks, docker`faults, docker`failed, docker`connected
    ensures Consistent(db, docker) && (old(Allocated(db)) ==> Allocated(db))
    ensures OnlyRunningRemoved(old(db.instances), db.instances)
    // a row goes only with its container, and a bridge only with its owner's last row
    ensures GoneWithContainers(old(db.instances), db.instances, docker.containers)
    ensures OnlyFreed(old(Tables(db.instances, db.octets, docker.networks)), Tables(db.instances, db.octets, docker.networks))
    ensures DriftedFrom(old(docker.containers), docker.containers)
    ensures OnlyRunningTouched(old(db.instances), old(docker.containers), docker.containers)
    ensures count.None? ==> !docker.connected
    ensures count.Some? ==> |db.instances| + count.value == |old(db.instances)|
    // the loop goes on after an error
    ensures count.Some? ==> RunningOnlyIfFailed(db.instances, old(docker.failed), docker.failed)
    ensures old(docker.faults) <= docker.faults &&
            (docker.faults == old(docker.faults) ==> docker.failed == old(docker.failed))
  {
    var active := WithStatus(db.instances, Running);
    ghost var start, containers := Tables(db.instances, db.octets, docker.networks), docker.containers;
    var n := 0;
    for i := 0 to |active|
      invariant Consistent(db, docker) && (old(Allocated(db)) ==> Allocated(db))
      invariant old(docker.faults) <= docker.faults
      invariant |db.instances| + n == |old(db.instances)|
      invariant docker.faults == old(docker.faults) ==> docker.failed == old(docker.failed)
      invariant TornDown(start, Tables(db.instances, db.octets, docker.networks), containers, docker.containers)
      invariant OnlyFailedLeft(active[..i], db.instances, old(docker.failed), docker.failed)
    {
      ghost var before, failed := db.instances, docker.failed;
      assert active[i] in active;
      var released := TeardownNext(db, docker, active[i], start, containers);
      if released.ReleaseRaised? {
        return None;
      }
      OnlyFailedLeftStep(active, i, before, db.instances, old(docker.failed), failed, docker.failed);
      if released.removed {
        n := n + 1;
      }
    }
    assert active[..|active|] == active;
    count := Some(n);
  }

  /** What any number of rounds of `teardown_all` leave alone. */
  ghost predicate TornDown(start: Tables, now: Tables, before: Containers, after: Containers) {
    && UniqueIds(start.rows) && OnlyRunningRemoved(start.rows, now.rows) && GoneWithContainers(start.rows, now.rows, after)
    && OnlyFreed(start, now) && DriftedFrom(before, after) && OnlyRunningTouched(start.rows, before, after)
  }

  lemma TornDownStep(start: Tables, now: Tables, next: Tables, before: Containers, middle: Containers, after: Containers,
                     row: Instance)
    requires TornDown(start, now, before, middle) && row in start.rows && row.status == Running
    requires ReleasedWith(now, next, row.containerId)
    requires DriftedFrom(middle, after) && OnlyTouched(middle, after, row.containerId)
    requires next.rows == now.rows || (next.rows == WithoutContainer(now.rows, row.containerId) && row.containerId !in after)
    ensures TornDown(start, next, before, after)
  {
    RunningRowRemoved(start.rows, now.rows, row);
    OnlyFreedByRelease(start, now, next, row.containerId);
  }

  /** One round. */
  method TeardownNext(db: DatabaseManager, docker: Engine, row: Instance, ghost start: Tables, ghost containers: Containers)
    returns (r: ReleaseResult)
    requires Consistent(db, docker) && row in start.rows && row.status == Running
    requires TornDown(start, Tables(db.instances, db.octets, docker.networks), containers, docker.containers)
    modifies db`octets, db`instances, docker`containers, docker`networks, docker`faults, docker`failed, docker`connected
    ensures Consistent(db, docker) && (old(Allocated(db)) ==> Allocated(db))
    ensures TornDown(start, Tables(db.instances, db.octets, docker.networks), containers, docker.containers)
    ensures r.ReleaseRaised? ==> !docker.connected
    ensures |db.instances| == |old(db.instances)| - if r == Returned(true) then 1 else 0
    ensures forall q :: q in db.instances ==> q in old(db.instances)
    ensures old(docker.faults) <= docker.faults && GrowsAt(old(docker.failed), docker.failed, row.containerId)
    ensures docker.faults == old(docker.faults) ==> docker.failed == old(docker.failed)
    ensures r.Returned? && docker.failed == old(docker.failed) ==> row !in db.instances
  {
    ghost var now, middle := Tables(db.instances, db.octets, docker.networks), docker.containers;
    r := ReleaseInstance(db, docker, row.containerId);
    TornDownStep(start, now, Tables(db.instances, db.octets, docker.networks), containers, middle, docker.containers, row);
  }

  /** Loop invariant: of the rows visited those are left whose container could not be removed. */
  ghost predicate OnlyFailedLeft(done: seq<Instance>, rows: seq<Instance>, failed: multiset<nat>, failed': multiset<nat>) {
    && (forall id :: failed[id] <= failed'[id])
    && forall r :: r in done && r in rows ==> failed[r.containerId] < failed'[r.containerId]
  }

  lemma OnlyFailedLeftStep(active: seq<Instance>, i: nat, rows: seq<Instance>, rows': seq<Instance>,
                           failed: multiset<nat>, failed': multiset<nat>, failed'': multiset<nat>)
    requires i < |active| && OnlyFailedLeft(active[..i], rows, failed, failed') && forall r :: r in rows' ==> r in rows
    requires GrowsAt(failed', failed'', active[i].containerId) && (active[i] in rows' ==> failed'' != failed')
    ensures OnlyFailedLeft(active[..i + 1], rows', failed, failed'')
  {
    assert active[..i + 1] == active[..i] + [active[i]];
    if failed''[active[i].containerId] == failed'[active[i].containerId] {
      assert failed'' == failed';
    }
  }

  ghost predicate OnlyRunningRemoved(before: seq<Instance>, after: seq<Instance>) {
    && (forall r :: r in after ==> r in before)
    && (forall r :: r in before && r.status != Running ==> r in after)
  }

  lemma RunningRowRemoved(before: seq<Instance>, middle: seq<Instance>, row: Instance)
    requires forall r, s :: r in before && s in before && r.containerId == s.containerId ==> r == s
    requires OnlyRunningRemoved(before, middle) && row in before && row.status == Running
    ensures OnlyRunningRemoved(before, WithoutContainer(middle, row.containerId))
  {}

  // ----- reconcile

  predicate HasRunning(containers: Containers, containerId: nat) {
    containerId in containers && containers[containerId].status == Running
  }

  /** A row that was running and took over the other status its container has. */
  ghost predicate TookStatus(r: Instance, q: Instance, containers: Containers) {
    && q.status == Running && q.containerId in containers && containers[q.containerId].status != Running
    && r == q.(status := containers[q.containerId].status)
  }

  /** Rows that were not running are untouched; a running one is gone only if its container is, and
      otherwise as it was or with the status of its container. */
  ghost predicate Reconciled(before: seq<Instance>, after: seq<Instance>, containers: Containers) {
    && (forall r :: r in before && r.status != Running ==> r in after)
    && (forall r :: r in before && r.containerId in containers ==> Survives(r, after, containers[r.containerId].status))
    && (forall r :: r in after ==> r in before || exists q :: q in before && TookStatus(r, q, containers))
  }

  ghost predicate Survives(r: Instance, rows: seq<Instance>, status: Status) {
    r in rows || r.(status := status) in rows
  }

  ghost predicate UniqueIds(rows: seq<Instance>) {
    forall r, s :: r in rows && s in rows && r.containerId == s.containerId ==> r == s
  }

  lemma ReconciledByStatus(before: seq<Instance>, middle: seq<Instance>, row: Instance, containers: Containers)
    requires UniqueIds(before) && Reconciled(before, middle, containers)
    requires row in before && row.containerId in containers
    requires TookStatus(row.(status := containers[row.containerId].status), row, containers)
    ensures Reconciled(before, WithStatusOf(middle, row.containerId, containers[row.containerId].status), containers)
  {
    var status := containers[row.containerId].status;
    var after := WithStatusOf(middle, row.containerId, status);
    forall r | r in before && r.status != Running
      ensures r in after
    {
      UpdatedRow(middle, row.containerId, status, r);
      assert r.containerId != row.containerId;
    }
    forall r | r in before && r.containerId in containers
      ensures Survives(r, after, containers[r.containerId].status)
    {
      var kept := if r in middle then r else r.(status := containers[r.containerId].status);
      assert Survives(r, middle, containers[r.containerId].status);
      UpdatedRow(middle, row.containerId, status, kept);
    }
    forall r | r in after
      ensures r in before || exists q :: q in before && TookStatus(r, q, containers)
    {
      var m := RowBeforeUpdate(middle, row.containerId, status, r);
      if m.containerId == row.containerId {
        assert m == row || m == row.(status := status);
        assert TookStatus(r, row, containers);
      }
    }
  }

  lemma ReconciledByRemoval(before: seq<Instance>, middle: seq<Instance>, row: Instance, containers: Containers)
    requires UniqueIds(before) && Reconciled(before, middle, containers) && row in before && row.status == Running
    requires row.containerId !in containers
    ensures Reconciled(before, WithoutContainer(middle, row.containerId), containers)
  {
    forall r | r in before && r.status != Running
      ensures r in WithoutContainer(middle, row.containerId)
    {
      assert r.containerId != row.containerId;
    }
    forall r | r in before && r.containerId in containers
      ensures Survives(r, WithoutContainer(middle, row.containerId), containers[r.containerId].status)
    {
      assert Survives(r, middle, containers[r.containerId].status);
    }
  }

  /** What one round of the loop did with a running row. */
  datatype Round = Skipped | InStep | Restatused(status: Status) | Pruned

  ghost predicate RoundDone(round: Round, row: Instance, before: seq<Instance>, after: seq<Instance>,
                            containers: Containers) {
    match round
    case Skipped => after == before
    case InStep => after == before && HasRunning(containers, row.containerId)
    case Restatused(status) =>
      row.containerId in containers && containers[row.containerId].status == status && status != Running &&
      after == WithStatusOf(before, row.containerId, status)
    case Pruned => row.containerId !in containers && after == WithoutContainer(before, row.containerId)
  }

  /** The loop body of `reconcile`. */
  method ReconcileRow(db: DatabaseManager, docker: Engine, inst: Instance) returns (round: Round)
    requires Consistent(db, docker) && inst in db.instances && inst.status == Running
    modifies db`octets, db`instances, docker`networks, docker`faults, docker`failed
    ensures Consistent(db, docker) && (old(Allocated(db)) ==> Allocated(db))
    ensures RoundDone(round, inst, old(db.instances), db.instances, docker.containers)
    ensures |db.instances| == |old(db.instances)| - if round.Pruned? then 1 else 0
    ensures docker.failed == if round.Skipped? then
                               old(docker.failed)[inst.containerId := old(docker.failed)[inst.containerId] + 1]
                             else old(docker.failed)
    ensures old(docker.faults) <= docker.faults && (round.Skipped? ==> old(docker.faults) < docker.faults)
    ensures Released(old(db.octets), old(docker.networks), db.octets, docker.networks, db.instances, inst.owner)
    ensures docker.faults == old(docker.faults) && round.Pruned? ==>
              IdleOwnerReleased(old(db.octets), old(docker.networks), db.octets, db.instances, inst.owner)
  {
    var found := docker.GetContainer(inst.containerId);
    if found.ApiError? {
      return Skipped;
    }
    if found.NotFound? {
      var _ := Forget(db, docker, inst.containerId, Some(inst.owner));
      return Pruned;
    }
    if found.value.status == inst.status {
      return InStep;
    }
    if Allocated(db) {
      StoppedRow(db.instances, db.octets, inst.containerId, found.value.status);
    }
    RowsRestatused(db.instances, docker.containers, docker.nextId, inst.containerId, found.value.status);
    db.UpdateInstanceStatus(inst.containerId, found.value.status);
    round := Restatused(found.value.status);
  }

  /** Loop invariant of `reconcile`. */
  ghost predicate Reconciling(start: Tables, now: Tables, active: seq<Instance>, i: nat, containers: Containers,
                              failed: multiset<nat>, failed': multiset<nat>, clean: bool)
    requires i <= |active|
  {
    InProgress(start.rows, now.rows, active, i, containers, failed, failed') && Freeing(start, now, clean)
  }

  /** One round. */
  method ReconcileNext(db: DatabaseManager, docker: Engine, active: seq<Instance>, i: nat, ghost start: Tables,
                       ghost failed: multiset<nat>, ghost clean: bool) returns (round: Round)
    requires Consistent(db, docker) && i < |active|
    requires Reconciling(start, Tables(db.instances, db.octets, docker.networks), active, i, docker.containers,
                         failed, docker.failed, clean)
    modifies db`octets, db`instances, docker`networks, docker`faults, docker`failed
    ensures Consistent(db, docker) && (old(Allocated(db)) ==> Allocated(db))
    ensures |db.instances| == |old(db.instances)| - if round.Pruned? then 1 else 0
    ensures old(docker.faults) <= docker.faults &&
            (docker.faults == old(docker.faults) ==> docker.failed == old(docker.failed))
    ensures Reconciling(start, Tables(db.instances, db.octets, docker.networks), active, i + 1, docker.containers,
                        failed, docker.failed, clean && docker.faults == old(docker.faults))
  {
    ghost var now := Tables(db.instances, db.octets, docker.networks);
    assert active[i] == active[i..][0] && active[i] in active;
    round := ReconcileRow(db, docker, active[i]);
    RoundProgress(start.rows, now.rows, db.instances, active, i, docker.containers, failed, old(docker.failed),
                  docker.failed, round);
    RoundFrees(start, now, Tables(db.instances, db.octets, docker.networks), docker.containers, active[i], round,
               clean, clean && docker.faults == old(docker.faults));
  }

  /** The loop of `reconcile`. */
  method ReconcileAll(db: DatabaseManager, docker: Engine) returns (pruned: nat)
    requires Consistent(db, docker)
    modifies db`octets, db`instances, docker`networks, docker`faults, docker`failed
    ensures Consistent(db, docker) && (old(Allocated(db)) ==> Allocated(db))
    ensures old(docker.faults) <= docker.faults
    ensures Reconciled(old(db.instances), db.instances, docker.containers)
    ensures |db.instances| + pruned == |old(db.instances)|
    ensures OnlyFreed(old(Tables(db.instances, db.octets, docker.networks)), Tables(db.instances, db.octets, docker.networks))
    ensures FreedHadRows(old(Tables(db.instances, db.octets, docker.networks)), db.octets)
    ensures InStepUnlessFailed(db.instances, docker.containers, old(docker.failed), docker.failed)
    ensures docker.faults == old(docker.faults) ==>
              docker.failed == old(docker.failed) &&
              IdleOwnersReleased(old(db.instances), old(db.octets), old(docker.networks), db.octets, db.instances)
  {
    ghost var before, start := db.instances, Tables(db.instances, db.octets, docker.networks);
    ProgressStarts(before, docker.containers, docker.failed);
    FreeingStarts(start);
    var active := WithStatus(db.instances, Running);
    pruned := 0;
    for i := 0 to |active|
      invariant Consistent(db, docker) && (old(Allocated(db)) ==> Allocated(db))
      invariant old(docker.faults) <= docker.faults
      invariant |db.instances| + pruned == |before|
      invariant docker.faults == old(docker.faults) ==> docker.failed == old(docker.failed)
      invariant Reconciling(start, Tables(db.instances, db.octets, docker.networks), active, i, docker.containers,
                            old(docker.failed), docker.failed, docker.faults == old(docker.faults))
    {
      var round := ReconcileNext(db, docker, active, i, start, old(docker.failed), docker.faults == old(docker.faults));
      if round.Pruned? {
        pruned := pruned + 1;
      }
    }
    ProgressEnds(before, db.instances, docker.containers, old(docker.failed), docker.failed);
    FreeingEnds(start, Tables(db.instances, db.octets, docker.networks), docker.faults == old(docker.faults));
  }

  /** An owner that had rows and a bridge holds its octet still if and only if it has a row still. */
  ghost predicate IdleOwnersReleased(rows0: seq<Instance>, octets0: Octets, networks0: Networks,
                                     octets: Octets, rows: seq<Instance>) {
    forall o :: o in octets0 && octets0[o] in networks0 && CountForOwner(rows0, o) > 0 ==>
      (o in octets <==> CountForOwner(rows, o) > 0)
  }

  /** For one owner: its octet is freed only if it had rows and a bridge; and if no call failed and it
      still holds its octet, it has both still. */
  ghost predicate FreeingFor(o: Owner, start: Tables, now: Tables, clean: bool) {
    && (CountForOwner(now.rows, o) > 0 ==> CountForOwner(start.rows, o) > 0)
    && (o in start.octets && o !in now.octets ==> start.octets[o] in start.networks && CountForOwner(start.rows, o) > 0)
    && (clean && o in now.octets && o in start.octets && start.octets[o] in start.networks &&
        CountForOwner(start.rows, o) > 0 ==>
          CountForOwner(now.rows, o) > 0 && now.octets[o] in now.networks)
  }

  /** Loop invariant. */
  ghost predicate Freeing(start: Tables, now: Tables, clean: bool) {
    OnlyFreed(start, now) && forall o :: FreeingFor(o, start, now, clean)
  }

  /** The octets a loop freed are of owners that had rows and a bridge. */
  ghost predicate FreedHadRows(start: Tables, octets: Octets) {
    forall o :: o in start.octets && o !in octets ==> start.octets[o] in start.networks && CountForOwner(start.rows, o) > 0
  }

  lemma FreeingStarts(start: Tables)
    ensures Freeing(start, start, true)
  {}

  lemma FreeingEnds(start: Tables, now: Tables, clean: bool)
    requires Freeing(start, now, clean)
    ensures OnlyFreed(start, now) && FreedHadRows(start, now.octets)
    ensures clean ==> IdleOwnersReleased(start.rows, start.octets, start.networks, now.octets, now.rows)
  {
    assert forall o :: o in start.octets || o in now.octets ==> FreeingFor(o, start, now, clean);
  }

  lemma RoundFrees(start: Tables, now: Tables, next: Tables, containers: Containers, row: Instance, round: Round,
                   clean: bool, clean': bool)
    requires OctetTable(now.octets) && UniqueIds(now.rows) && row in now.rows
    requires Freeing(start, now, clean) && RoundDone(round, row, now.rows, next.rows, containers)
    requires Released(now.octets, now.networks, next.octets, next.networks, next.rows, row.owner)
    requires clean' ==> clean && (round.Pruned? ==>
                                    IdleOwnerReleased(now.octets, now.networks, next.octets, next.rows, row.owner))
    ensures Freeing(start, next, clean')
  {
    forall o
      ensures CountForOwner(next.rows, o) > 0 ==> CountForOwner(now.rows, o) > 0
    {
      RoundCounts(now.rows, next.rows, containers, row, round, o);
    }
    OnlyFreedStep(start, now, next, row.owner);
    forall o
      ensures FreeingFor(o, start, next, clean')
    {
      RoundFreesFor(o, start, now, next, containers, row, round, clean, clean');
    }
  }

  lemma RoundFreesFor(o: Owner, start: Tables, now: Tables, next: Tables, containers: Containers, row: Instance, round: Round,
                      clean: bool, clean': bool)
    requires OctetTable(now.octets) && UniqueIds(now.rows) && row in now.rows
    requires OnlyFreed(start, now) && FreeingFor(o, start, now, clean)
    requires RoundDone(round, row, now.rows, next.rows, containers)
    requires Released(now.octets, now.networks, next.octets, next.networks, next.rows, row.owner)
    requires clean' ==> clean && (round.Pruned? ==>
                                    IdleOwnerReleased(now.octets, now.networks, next.octets, next.rows, row.owner))
    ensures FreeingFor(o, start, next, clean')
  {
    RoundCounts(now.rows, next.rows, containers, row, round, o);
    assert o != row.owner && o in now.octets && row.owner in now.octets ==> now.octets[o] != now.octets[row.owner];
  }

  /** A round takes rows only from the owner of the row it prunes. */
  lemma RoundCounts(rows: seq<Instance>, rows': seq<Instance>, containers: Containers, row: Instance, round: Round, o: Owner)
    requires UniqueIds(rows) && row in rows && RoundDone(round, row, rows, rows', containers)
    ensures CountForOwner(rows', o) > 0 ==> CountForOwner(rows, o) > 0
    ensures CountForOwner(rows, o) > 0 && (o != row.owner || !round.Pruned?) ==> CountForOwner(rows', o) > 0
  {
    if round.Restatused? {
      if CountForOwner(rows', o) > 0 {
        var r :| r in rows' && r.owner == o;
        var q := RowBeforeUpdate(rows, row.containerId, round.status, r);
      }
      if CountForOwner(rows, o) > 0 {
        var q :| q in rows && q.owner == o;
        UpdatedRow(rows, row.containerId, round.status, q);
      }
    } else if round.Pruned? && o != row.owner && CountForOwner(rows, o) > 0 {
      var q :| q in rows && q.owner == o;
      assert q in rows';
    }
  }

  /** Every row marked running has a running container, or asking for its container failed. */
  ghost predicate InStepUnlessFailed(rows: seq<Instance>, containers: Containers, failed: multiset<nat>,
                                     failed': multiset<nat>) {
    forall r :: r in rows && r.status == Running ==>
      HasRunning(containers, r.containerId) || failed[r.containerId] < failed'[r.containerId]
  }

  /** `reconcile`; `None` is an exception. Containers are only looked at. */
  method Reconcile(db: DatabaseManager, docker: Engine) returns (pruned: Option<nat>)
    requires Consistent(db, docker)
    modifies db`octets, db`instances, docker`networks, docker`faults, docker`failed, docker`connected
    ensures Consistent(db, docker) && (old(Allocated(db)) ==> Allocated(db))
    ensures old(docker.faults) <= docker.faults
    ensures pruned.Some? == docker.connected && (old(docker.connected) ==> docker.connected)
    ensures pruned.None? ==> db.instances == old(db.instances)
    ensures Reconciled(old(db.instances), db.instances, docker.containers)
    ensures pruned.Some? ==> |db.instances| + pruned.value == |old(db.instances)|
    ensures OnlyFreed(old(Tables(db.instances, db.octets, docker.networks)), Tables(db.instances, db.octets, docker.networks))
    ensures FreedHadRows(old(Tables(db.instances, db.octets, docker.networks)), db.octets)
    ensures pruned.Some? ==> InStepUnlessFailed(db.instances, docker.containers, old(docker.failed), docker.failed)
    ensures docker.faults == old(docker.faults) ==> docker.failed == old(docker.failed)
    ensures pruned.Some? && docker.faults == old(docker.faults) ==>
              IdleOwnersReleased(old(db.instances), old(db.octets), old(docker.networks), db.octets, db.instances)
  {
    ProgressStarts(db.instances, docker.containers, docker.failed);
    var connected := docker.Connect();
    if !connected {
      return None;
    }
    var n := ReconcileAll(db, docker);
    pruned := Some(n);
  }

  lemma ProgressStarts(rows: seq<Instance>, containers: Containers, failed: multiset<nat>)
    requires InstancesAscend(rows) && UniqueIds(rows)
    ensures Reconciled(rows, rows, containers)
    ensures InProgress(rows, rows, WithStatus(rows, Running), 0, containers, failed, failed)
  {
    SelectionAscends(rows, Running);
  }

  lemma ProgressEnds(before: seq<Instance>, rows: seq<Instance>, containers: Containers, failed: multiset<nat>,
                     failed': multiset<nat>)
    requires var active := WithStatus(before, Running);
             InProgress(before, rows, active, |active|, containers, failed, failed')
    ensures InStepUnlessFailed(rows, containers, failed, failed')
  {
    var active := WithStatus(before, Running);
    assert active[..|active|] == active;
  }

  /** The running rows among `done` have running containers, or asking for them failed. */
  ghost predicate Settled(done: seq<Instance>, rows: seq<Instance>, containers: Containers, failed: multiset<nat>,
                          failed': multiset<nat>) {
    && (forall id :: failed[id] <= failed'[id])
    && forall r :: r in done && r in rows && r.status == Running ==>
         HasRunning(containers, r.containerId) || failed[r.containerId] < failed'[r.containerId]
  }

  /** Loop invariant: rows still ahead are untouched, rows behind are settled unless a call failed. */
  ghost predicate InProgress(before: seq<Instance>, rows: seq<Instance>, active: seq<Instance>, i: nat,
                             containers: Containers, failed: multiset<nat>, failed': multiset<nat>)
    requires i <= |active|
  {
    && UniqueIds(before) && Reconciled(before, rows, containers)
    && InstancesAscend(active[i..]) && (forall r :: r in active ==> r in before && r.status == Running)
    && (forall r :: r in active[i..] ==> r in rows)
    && Settled(active[..i], rows, containers, failed, failed')
  }

  lemma RoundProgress(before: seq<Instance>, rows: seq<Instance>, rows': seq<Instance>, active: seq<Instance>, i: nat,
                      containers: Containers, failed: multiset<nat>, failed': multiset<nat>, failed'': multiset<nat>,
                      round: Round)
    requires i < |active| && InProgress(before, rows, active, i, containers, failed, failed')
    requires RoundDone(round, active[i], rows, rows', containers)
    requires var id := active[i].containerId; failed'' == if round.Skipped? then failed'[id := failed'[id] + 1] else failed'
    ensures InProgress(before, rows', active, i + 1, containers, failed, failed'')
  {
    var row := active[i];
    assert row in active && active[i..][0] == row && active[i..][1..] == active[i + 1..];
    assert active[..i + 1] == active[..i] + [row];
    OthersSurvive(before, rows, active[i + 1..], row, if round.Restatused? then round.status else Running);
    if round.Restatused? {
      ReconciledByStatus(before, rows, row, containers);
      UpdatedRowsStop(rows, row.containerId, round.status);
    } else if round.Pruned? {
      ReconciledByRemoval(before, rows, row, containers);
    }
  }

  /** A status update leaves no new running row behind. */
  lemma UpdatedRowsStop(rows: seq<Instance>, containerId: nat, status: Status)
    requires status != Running
    ensures forall r :: r in WithStatusOf(rows, containerId, status) && r.status == Running ==>
              r in rows && r.containerId != containerId
  {
    forall r | r in WithStatusOf(rows, containerId, status) && r.status == Running
      ensures r in rows && r.containerId != containerId
    {
      var q := RowBeforeUpdate(rows, containerId, status, r);
    }
  }

  lemma OthersSurvive(before: seq<Instance>, rows: seq<Instance>, rest: seq<Instance>, row: Instance, status: Status)
    requires UniqueIds(before) && row in before
    requires forall r :: r in rest ==> r in rows && r in before && row.id < r.id
    ensures forall r :: r in rest ==> r in WithStatusOf(rows, row.containerId, status)
    ensures forall r :: r in rest ==> r in WithoutContainer(rows, row.containerId)
  {
    forall r | r in rest
      ensures r in WithStatusOf(rows, row.containerId, status) && r in WithoutContainer(rows, row.containerId)
    {
      UpdatedRow(rows, row.containerId, status, r);
    }
  }

  /** A running container on the bridge at an address that no running row of the owner records. */
  ghost predicate Stray(rows: seq<Instance>, owner: Owner, octet: int, c: Container) {
    c.status == Running && c.octet == octet && Some(c.ip) !in UsedInstanceIps(rows, owner)
  }

  /** The address a spawn asks for is already in use if and only if a stray sits below every other free one. */
  lemma RequestedIsTakenIff(rows: seq<Instance>, containers: Containers, owner: Owner, octet: int, a: Address)
    requires LowestFree(rows, owner, octet, a)
    ensures (exists id :: id in containers && containers[id].status == Running && containers[id].octet == octet &&
                          containers[id].ip == a)
            <==> (exists id :: id in containers && Stray(rows, owner, octet, containers[id]) &&
                               LowestFree(rows, owner, octet, containers[id].ip))
  {
    if id :| id in containers && Stray(rows, owner, octet, containers[id]) &&
             LowestFree(rows, owner, octet, containers[id].ip) {
      assert containers[id].ip == a;
    }
  }

  /** A row recorded as not running is not revisited: should its container run again at an address the
      running rows leave free, it is a stray before and after every reconcile. */
  lemma RestartedStaysStray(before: seq<Instance>, after: seq<Instance>, containers: Containers, r: Instance, octet: int)
    requires Reconciled(before, after, containers) && r in before && r.status != Running
    requires r.containerId in containers && Stray(before, r.owner, octet, containers[r.containerId])
    ensures r in after && Stray(after, r.owner, octet, containers[r.containerId])
  {
    forall s | s in after && s.owner == r.owner && s.status == Running
      ensures s in before
    {
      assert s in before || exists q :: q in before && TookStatus(s, q, containers);
    }
  }

  // ----- adoption

  /** A fully labelled container is tracked, or another row holds its key. */
  ghost predicate Settleable(rows: seq<Instance>, id: nat, c: Container) {
    c.labels.Some? ==> Collides(rows, id, c.labels.value.owner, c.labels.value.challengeRef)
  }

  ghost predicate AllAdopted(rows: seq<Instance>, containers: Containers) {
    forall id :: id in containers && containers[id].managed ==> Settleable(rows, id, containers[id])
  }

  /** A row is added at most for a container that was not settled before. */
  ghost predicate AdoptedOne(before: seq<Instance>, after: seq<Instance>, id: nat, c: Container, octets: Octets,
                             adopted: bool, clean: bool) {
    if adopted then
      !Settleable(before, id, c) && exists row :: after == before + [row] && AdoptedRow(row, id, c, octets, clean)
    else after == before
  }

  /** The address of a container on the bridge of its owner's octet, if it holds one. */
  method OwnIp(db: DatabaseManager, docker: Engine, id: nat, owner: Owner) returns (ip: Option<Address>)
    requires id in docker.containers && docker.containers[id].labels.Some? &&
             docker.containers[id].labels.value.owner == owner
    modifies docker`faults
    ensures old(docker.faults) <= docker.faults
    ensures ip == OwnAddress(docker.containers[id], db.octets) || (ip.None? && old(docker.faults) < docker.faults)
  {
    ip := docker.LiveIp(id, if owner in db.octets then Some(db.octets[owner]) else None);
  }

  /** The loop body of `adopt_untracked`; `None` is a database error. */
  method AdoptOne(db: DatabaseManager, docker: Engine, id: nat, known: set<nat>) returns (adopted: Option<bool>)
    requires Consistent(db, docker) && id in docker.containers
    requires forall r :: r in known ==> Tracked(db.instances, r)
    modifies db`instances, db`nextInstanceId, db`faults, docker`faults
    ensures Consistent(db, docker)
    ensures old(docker.faults) <= docker.faults
    ensures db.faults == old(db.faults) + if adopted.None? then 1 else 0
    ensures AdoptedOne(old(db.instances), db.instances, id, docker.containers[id], db.octets, adopted == Some(true),
                       docker.faults == old(docker.faults))
    ensures adopted.Some? ==> Settleable(db.instances, id, docker.containers[id])
    ensures adopted == Some(true) ==>
              var row := db.instances[|db.instances| - 1];
              Allocated(db) <==> old(Allocated(db)) && FitsIn(row, old(db.instances), db.octets)
  {
    var c := docker.containers[id];
    if id in known || c.labels.None? {
      return Some(false);
    }
    var labels := c.labels.value;
    var ip := OwnIp(db, docker, id, labels.owner);
    var published := docker.LivePublishedPorts(id);
    var added := db.AddInstance(id, c.name, labels.owner, labels.challengeRef, ip, labels.ports, published,
                                c.status, labels.expires);
    if added.WriteFailed? {
      return None;
    }
    if added.Collision? {
      return Some(false);
    }
    RowRecorded(old(db.instances), added.row, docker.containers, docker.nextId);
    AddedRowIff(old(db.instances), db.octets, added.row);
    assert added.row in db.instances;
    return Some(true);
  }

  /** The address a container reports on the bridge of its owner's octet. */
  function OwnAddress(c: Container, octets: Octets): Option<Address>
    requires c.labels.Some?
  {
    var owner := c.labels.value.owner;
    AddressOn(c, if owner in octets then Some(octets[owner]) else None)
  }

  /** What adoption records: the labels, the ports reported, and the address, unless that call failed. */
  ghost predicate AdoptedRow(row: Instance, id: nat, c: Container, octets: Octets, clean: bool) {
    && c.labels.Some?
    && var l := c.labels.value;
       && row == Instance(row.id, id, c.name, l.owner, l.challengeRef, row.assignedIp, l.ports, Reported(c), c.status,
                          l.expires)
       && (row.assignedIp == OwnAddress(c, octets) || (row.assignedIp.None? && !clean))
  }

  /** A fully labelled managed container that is not tracked and whose key no row holds. */
  ghost predicate Untracked(rows: seq<Instance>, containers: Containers, id: nat) {
    id in containers && containers[id].managed && !Settleable(rows, id, containers[id])
  }

  /** Every new row was read off such a container. */
  ghost predicate FromContainers(before: seq<Instance>, after: seq<Instance>, containers: Containers, octets: Octets,
                                 clean: bool) {
    forall r :: r in after && r !in before ==>
      exists id :: Untracked(before, containers, id) && AdoptedRow(r, id, containers[id], octets, clean)
  }

  /** What an untracked container must meet, seen before adoption: its owner holds an octet; if it runs, it
      sits on that octet's bridge at a guest address no running row of the owner uses; its host ports are in
      range and published by no row. */
  ghost predicate Suits(c: Container, rows: seq<Instance>, octets: Octets)
    requires c.labels.Some?
  {
    var owner := c.labels.value.owner;
    && owner in octets
    && (c.status == Running ==>
          c.octet == octets[owner] && IsGuest(c.octet, c.ip) && Some(c.ip) !in UsedInstanceIps(rows, owner))
    && (forall p :: p in Reported(c).Values ==> InPortRange(p)) && Reported(c).Values !! PublishedPorts(rows)
  }

  /** Two untracked containers neither share an address, running for one owner, nor a host port. */
  ghost predicate GoTogether(c: Container, d: Container)
    requires c.labels.Some? && d.labels.Some?
  {
    && (c.labels.value.owner == d.labels.value.owner && c.status == Running && d.status == Running ==> c.ip != d.ip)
    && Reported(c).Values !! Reported(d).Values
  }

  ghost predicate Adoptable(rows: seq<Instance>, containers: Containers, octets: Octets) {
    && (forall id :: Untracked(rows, containers, id) ==> Suits(containers[id], rows, octets))
    && (forall i, j :: Untracked(rows, containers, i) && Untracked(rows, containers, j) && i != j ==>
          GoTogether(containers[i], containers[j]))
  }

  ghost predicate SameKey(c: Container, d: Container) {
    && c.labels.Some? && d.labels.Some?
    && c.labels.value.owner == d.labels.value.owner && c.labels.value.challengeRef == d.labels.value.challengeRef
  }

  /** No two labelled containers are for one owner and challenge. */
  ghost predicate KeysDistinct(containers: Containers) {
    forall i, j :: i in containers && j in containers && SameKey(containers[i], containers[j]) ==> i == j
  }

  lemma NamedKeysDistinct(rows: seq<Instance>, containers: Containers, nextId: nat)
    requires NamesFit(rows, containers) && WellFormed(containers, nextId)
    ensures KeysDistinct(containers)
  {
    assert forall id :: id in containers ==> ContainerNamed(containers[id]);
  }

  lemma SuitableRowIsPlaced(r: Instance, id: nat, c: Container, rows: seq<Instance>, octets: Octets)
    requires AdoptedRow(r, id, c, octets, true) && Suits(c, rows, octets)
    ensures Placed(r, octets) && forall s :: s in rows ==> Apart(r, s) && Apart(s, r)
  {
    forall s | s in rows
      ensures Apart(r, s) && Apart(s, r)
    {
      assert forall p :: p in s.publishedPorts.Values ==> p in PublishedPorts(rows);
      assert s.owner == r.owner && s.status == Running ==> s.assignedIp in UsedInstanceIps(rows, r.owner);
    }
  }

  lemma PlacedRowIsSuitable(r: Instance, id: nat, c: Container, rows: seq<Instance>, octets: Octets)
    requires AdoptedRow(r, id, c, octets, false) && Placed(r, octets)
    requires forall s :: s in rows ==> Apart(r, s)
    ensures Suits(c, rows, octets)
    ensures c.status == Running ==> r.assignedIp == Some(c.ip)
  {
    forall s | s in rows
      ensures Reported(c).Values !! s.publishedPorts.Values
      ensures c.status == Running && s.owner == r.owner && s.status == Running ==> s.assignedIp != Some(c.ip)
    {
      assert Apart(r, s);
    }
  }

  /** Where no call failed, suitable containers keep allocation. */
  lemma SuitableAdoptionKeeps(before: seq<Instance>, after: seq<Instance>, containers: Containers, octets: Octets)
    requires WellAllocated(before, octets) && UniqueIds(after)
    requires FromContainers(before, after, containers, octets, true) && Adoptable(before, containers, octets)
    ensures WellAllocated(after, octets)
  {
    forall r | r in after
      ensures Placed(r, octets)
    {
      if r !in before {
        var id :| Untracked(before, containers, id) && AdoptedRow(r, id, containers[id], octets, true);
        SuitableRowIsPlaced(r, id, containers[id], before, octets);
      }
    }
    forall r, s | r in after && s in after && r != s
      ensures Apart(r, s)
    {
      if r !in before {
        var i :| Untracked(before, containers, i) && AdoptedRow(r, i, containers[i], octets, true);
        SuitableRowIsPlaced(r, i, containers[i], before, octets);
        if s !in before {
          var j :| Untracked(before, containers, j) && AdoptedRow(s, j, containers[j], octets, true);
          assert i != j;
          assert GoTogether(containers[i], containers[j]);
        }
      } else if s !in before {
        var j :| Untracked(before, containers, j) && AdoptedRow(s, j, containers[j], octets, true);
        SuitableRowIsPlaced(s, j, containers[j], before, octets);
      }
    }
  }

  /** The row a complete adoption adds for an untracked container. */
  lemma RowOfUntracked(before: seq<Instance>, after: seq<Instance>, containers: Containers, octets: Octets, id: nat)
    returns (r: Instance)
    requires before <= after && FromContainers(before, after, containers, octets, false)
    requires AllAdopted(after, containers) && KeysDistinct(containers) && Untracked(before, containers, id)
    ensures r in after && r !in before && AdoptedRow(r, id, containers[id], octets, false)
  {
    var l := containers[id].labels.value;
    assert Settleable(after, id, containers[id]);
    r :| r in after && (r.containerId == id || (r.owner == l.owner && r.challengeRef == l.challengeRef));
    assert r !in before;
    var i :| Untracked(before, containers, i) && AdoptedRow(r, i, containers[i], octets, false);
    assert i == id;
  }

  /** And a complete adoption keeps allocation only for suitable ones. */
  lemma KeptAdoptionWasSuitable(before: seq<Instance>, after: seq<Instance>, containers: Containers, octets: Octets)
    requires before <= after && FromContainers(before, after, containers, octets, false)
    requires AllAdopted(after, containers) && KeysDistinct(containers) && WellAllocated(after, octets)
    ensures Adoptable(before, containers, octets)
  {
    assert forall s :: s in before ==> s in after;
    forall id | Untracked(before, containers, id)
      ensures Suits(containers[id], before, octets)
    {
      var r := RowOfUntracked(before, after, containers, octets, id);
      PlacedRowIsSuitable(r, id, containers[id], before, octets);
    }
    forall i, j | Untracked(before, containers, i) && Untracked(before, containers, j) && i != j
      ensures GoTogether(containers[i], containers[j])
    {
      var r := RowOfUntracked(before, after, containers, octets, i);
      var s := RowOfUntracked(before, after, containers, octets, j);
      PlacedRowIsSuitable(r, i, containers[i], [], octets);
      PlacedRowIsSuitable(s, j, containers[j], [], octets);
      assert Apart(r, s);
    }
  }

  /** `Unreachable` is the exception for want of Docker, `WriteError` one from the database. */
  datatype AdoptResult = Adopted(count: nat) | Unreachable | WriteError

  /** `adopt_untracked`; `listed` says whether Docker could list containers. Rows already there stay. The
      new ones may carry no address, so allocation is kept if and only if every one of them fits. */
  method AdoptUntracked(db: DatabaseManager, docker: Engine) returns (r: AdoptResult, ghost listed: bool)
    requires Consistent(db, docker)
    modifies db`instances, db`nextInstanceId, db`faults, docker`faults, docker`connected
    ensures Consistent(db, docker)
    ensures r.Unreachable? <==> !docker.connected
    ensures old(docker.connected) ==> docker.connected
    ensures if r.WriteError? then old(db.faults) < db.faults else db.faults == old(db.faults)
    ensures old(db.instances) <= db.instances
    ensures r.Adopted? ==> |db.instances| == |old(db.instances)| + r.count
    ensures FromContainers(old(db.instances), db.instances, docker.containers, db.octets, docker.faults == old(docker.faults))
    // everything is adopted, unless Docker could not list the containers
    ensures r.Adopted? && listed ==> AllAdopted(db.instances, docker.containers)
    ensures r.Adopted? && !listed ==> old(docker.faults) < docker.faults && db.instances == old(db.instances)
    ensures r.Adopted? && docker.faults == old(docker.faults) ==> AllAdopted(db.instances, docker.containers)
    ensures old(AllAdopted(db.instances, docker.containers)) ==> db.instances == old(db.instances)
    ensures old(Allocated(db)) ==> (Allocated(db) <==> AllFit(old(db.instances), db.instances, db.octets))
    // seen beforehand: kept if the untracked containers suit, and, where all of them are adopted, only if
    ensures old(docker.faults) <= docker.faults
    ensures docker.faults == old(docker.faults) && old(Allocated(db) && Adoptable(db.instances, docker.containers, db.octets))
            ==> Allocated(db)
    ensures r.Adopted? && listed && KeysDistinct(docker.containers) && Allocated(db) ==>
              old(Adoptable(db.instances, docker.containers, db.octets))
  {
    listed := false;
    var connected := docker.Connect();
    if !connected {
      return Unreachable, listed;
    }
    var ids := docker.ListManaged();
    if ids.None? {
      return Adopted(0), listed;
    }
    listed := true;
    ghost var before := db.instances;
    r := AdoptAll(db, docker, ids.value);
    AscendingIsDistinct(db.instances);
    AdoptionKeepsIff(before, db.instances, docker.containers, db.octets, docker.faults == old(docker.faults));
  }

  lemma AdoptionKeepsIff(before: seq<Instance>, after: seq<Instance>, containers: Containers, octets: Octets, clean: bool)
    requires before <= after && Distinct(after) && UniqueIds(after)
    requires FromContainers(before, after, containers, octets, clean)
    ensures WellAllocated(before, octets) ==> (WellAllocated(after, octets) <==> AllFit(before, after, octets))
    ensures clean && WellAllocated(before, octets) && Adoptable(before, containers, octets) ==> WellAllocated(after, octets)
    ensures AllAdopted(after, containers) && KeysDistinct(containers) && WellAllocated(after, octets) ==>
              Adoptable(before, containers, octets)
  {
    if WellAllocated(before, octets) {
      AppendedRowsIff(before, after, octets);
      if clean && Adoptable(before, containers, octets) {
        SuitableAdoptionKeeps(before, after, containers, octets);
      }
    }
    if AllAdopted(after, containers) && KeysDistinct(containers) && WellAllocated(after, octets) {
      LaxFromContainers(before, after, containers, octets, clean);
      KeptAdoptionWasSuitable(before, after, containers, octets);
    }
  }

  lemma LaxFromContainers(before: seq<Instance>, after: seq<Instance>, containers: Containers, octets: Octets, clean: bool)
    requires FromContainers(before, after, containers, octets, clean)
    ensures FromContainers(before, after, containers, octets, false)
  {
    forall r | r in after && r !in before
      ensures exists id :: Untracked(before, containers, id) && AdoptedRow(r, id, containers[id], octets, false)
    {
      var id :| Untracked(before, containers, id) && AdoptedRow(r, id, containers[id], octets, clean);
      assert AdoptedRow(r, id, containers[id], octets, false);
    }
  }

  /** The loop of `adopt_untracked`. */
  method AdoptAll(db: DatabaseManager, docker: Engine, ids: seq<nat>) returns (r: AdoptResult)
    requires Consistent(db, docker)
    requires forall id :: id in ids <==> id in docker.containers && docker.containers[id].managed
    modifies db`instances, db`nextInstanceId, db`faults, docker`faults
    ensures Consistent(db, docker) && !r.Unreachable?
    ensures if r.WriteError? then old(db.faults) < db.faults else db.faults == old(db.faults)
    ensures old(db.instances) <= db.instances
    ensures r.Adopted? ==> |db.instances| == |old(db.instances)| + r.count && AllAdopted(db.instances, docker.containers)
    ensures old(docker.faults) <= docker.faults
    ensures FromContainers(old(db.instances), db.instances, docker.containers, db.octets, docker.faults == old(docker.faults))
    ensures old(AllAdopted(db.instances, docker.containers)) ==> db.instances == old(db.instances)
  {
    ghost var before := db.instances;
    var known := set r | r in db.instances :: r.containerId;
    var n := 0;
    for i := 0 to |ids|
      invariant Consistent(db, docker)
      invariant old(docker.faults) <= docker.faults && db.faults == old(db.faults)
      invariant Adopting(before, db.instances, docker.containers, db.octets, ids[..i], n, docker.faults == old(docker.faults))
    {
      var id := ids[i];
      assert id in ids && ids[..i + 1] == ids[..i] + [id];
      ghost var rows, faults := db.instances, docker.faults;
      KnownStaysTracked(before, rows, known);
      var one := AdoptOne(db, docker, id, known);
      AdoptingStep(before, rows, db.instances, docker.containers, db.octets, ids[..i], n, id, one,
                   old(docker.faults) == faults, faults == docker.faults);
      if one.None? {
        return WriteError;
      }
      if one.value {
        n := n + 1;
      }
    }
    assert ids[..|ids|] == ids;
    r := Adopted(n);
  }

  /** With an untracked container whose owner holds no octet, as after the loss of the tables, a complete
      adoption never ends well allocated. */
  method AdoptWithoutOctet(db: DatabaseManager, docker: Engine, ghost id: nat) returns (r: AdoptResult, ghost listed: bool)
    requires Consistent(db, docker) && Untracked(db.instances, docker.containers, id)
    requires docker.containers[id].labels.value.owner !in db.octets
    modifies db`instances, db`nextInstanceId, db`faults, docker`faults, docker`connected
    ensures Consistent(db, docker)
    ensures r.Adopted? && (listed || docker.faults == old(docker.faults)) ==> !Allocated(db)
  {
    ghost var before := db.instances;
    r, listed := AdoptUntracked(db, docker);
    if r.Adopted? && listed {
      assert Settleable(db.instances, id, docker.containers[id]);
      ghost var l := docker.containers[id].labels.value;
      ghost var row :| row in db.instances &&
                       (row.containerId == id || (row.owner == l.owner && row.challengeRef == l.challengeRef));
      assert row !in before;
      assert row.owner == l.owner;
      assert !Placed(row, db.octets);
    }
  }

  lemma KnownStaysTracked(before: seq<Instance>, rows: seq<Instance>, known: set<nat>)
    requires before <= rows && known == set r | r in before :: r.containerId
    ensures forall id :: id in known ==> Tracked(rows, id)
  {
    forall id | id in known
      ensures Tracked(rows, id)
    {
      var r :| r in before && r.containerId == id;
      assert r in rows;
    }
  }

  /** Loop invariant: rows are only added, one per adoption, and none if all was settled at the start. */
  ghost predicate Adopting(before: seq<Instance>, rows: seq<Instance>, containers: Containers, octets: Octets,
                           done: seq<nat>, n: nat, clean: bool) {
    && before <= rows && |rows| == |before| + n && AllSettled(rows, containers, done)
    && FromContainers(before, rows, containers, octets, clean)
    && (AllAdopted(before, containers) ==> rows == before)
  }

  lemma AdoptingStep(before: seq<Instance>, rows: seq<Instance>, rows': seq<Instance>, containers: Containers, octets: Octets,
                     done: seq<nat>, n: nat, id: nat, one: Option<bool>, clean: bool, clean': bool)
    requires Adopting(before, rows, containers, octets, done, n, clean) && id in containers && containers[id].managed
    requires AdoptedOne(rows, rows', id, containers[id], octets, one == Some(true), clean')
    requires one.Some? ==> Settleable(rows', id, containers[id])
    ensures one.None? ==> Adopting(before, rows', containers, octets, done, n, clean && clean')
    ensures one.Some? ==>
              Adopting(before, rows', containers, octets, done + [id], n + if one.value then 1 else 0, clean && clean')
  {
    forall r | r in rows' && r !in before
      ensures exists i :: Untracked(before, containers, i) && AdoptedRow(r, i, containers[i], octets, clean && clean')
    {
      if r in rows {
        var i :| Untracked(before, containers, i) && AdoptedRow(r, i, containers[i], octets, clean);
        assert AdoptedRow(r, i, containers[i], octets, clean && clean');
      } else {
        assert Untracked(before, containers, id) && AdoptedRow(r, id, containers[id], octets, clean && clean');
      }
    }
    SettledStays(rows, rows', containers, done);
  }

  ghost predicate AllSettled(rows: seq<Instance>, containers: Containers, ids: seq<nat>) {
    forall id :: id in ids && id in containers ==> Settleable(rows, id, containers[id])
  }

  lemma SettledStays(rows: seq<Instance>, more: seq<Instance>, containers: Containers, ids: seq<nat>)
    requires rows <= more && AllSettled(rows, containers, ids)
    ensures AllSettled(more, containers, ids)
  {
    assert forall r :: r in rows ==> r in more;
  }
}
