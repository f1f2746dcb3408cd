/** The Docker engine as the daemon sees it: every call may fail, before or after it took effect. */
module Docker {
  import opened Base
  import opened Ipv4
  import opened Database

  /** A bridge network `edo_o{octet}`; the map key is the octet in its name. */
  datatype Network = Network(holder: Owner, routed: bool)

  /** The labels `spawn_instance` sets. */
  datatype Labels = Labels(owner: Owner, challengeRef: string, expires: Option<string>, ports: seq<string>)

  /** `labels` is `None` for a container that lacks one of the owner and challenge labels. */
  datatype Container = Container(name: string, managed: bool, labels: Option<Labels>, octet: int, ip: Address,
                                 bindings: PortMap, status: Status)

  type Networks = map<int, Network>
  type Containers = map<nat, Container>

  /** `conflict` is what `_is_resource_conflict` reads from the error text: an address, a port
      or a name that is already taken. */
  datatype Reply<+T> = Ok(value: T) | NotFound | ApiError(conflict: bool)

  datatype CreateCall = CreateCall(ip: Address, hostPorts: set<int>)

  /** Docker never reuses an id and never runs two containers under one name. */
  ghost predicate WellFormed(containers: Containers, nextId: nat) {
    && (forall id :: id in containers ==> id < nextId)
    && (forall i, j :: i in containers && j in containers && containers[i].name == containers[j].name ==> i == j)
  }

  /** A container is on its network, and its ports are bound, while it runs or is paused. */
  predicate Plugged(status: Status) { status == Running || status == Paused }

  function AddressOn(c: Container, octet: Option<int>): Option<Address> {
    if Plugged(c.status) && octet == Some(c.octet) then Some(c.ip) else None
  }

  /** Docker binds the host ports asked for. */
  function Reported(c: Container): PortMap { if Plugged(c.status) then c.bindings else map[] }

  predicate NameTaken(containers: Containers, name: string) {
    exists id :: id in containers && containers[id].name == name
  }

  /** What Docker holds, whether the client reaches it, and the failures so far. */
  datatype DockerView = DockerView(networks: Networks, containers: Containers, connected: bool, faults: nat,
                                   failed: multiset<nat>)

  class Engine {
    var networks: Networks
    var containers: Containers
    var nextId: nat
    /** The client is cached after its first successful ping. */
    var connected: bool
    /** API errors reported so far. */
    var faults: nat
    /** Among them, those of looking up or removing a container by its id, per id. */
    var failed: multiset<nat>
    /** And those that told of an address, port or name already taken. */
    var conflicts: nat
    /** Containers that start was called for with success. */
    var started: set<nat>
    /** Calls of create_container so far. */
    var creates: seq<CreateCall>

    ghost predicate Valid()
      reads this
    {
      WellFormed(containers, nextId)
    }

    ghost function View(): DockerView
      reads this
    {
      DockerView(networks, containers, connected, faults, failed)
    }

    /** An engine that runs no edo network and no container yet. */
    constructor ()
      ensures Valid() && networks == map[] && containers == map[] && creates == [] && faults == 0
    {
      networks, containers, nextId, connected, faults, creates := map[], map[], 0, false, 0, [];
      failed, conflicts, started := multiset{}, 0, {};
    }

    /** `_client()`. */
    method Connect() returns (ok: bool)
      modifies this`connected
      ensures ok == connected && (old(connected) ==> ok)
    {
      var up: bool := *;
      connected := connected || up;
      ok := connected;
    }

    /** A new process starts without a client. */
    method Forget()
      modifies this`connected
      ensures !connected
    {
      connected := false;
    }

    // ----- networks

    method GetNetwork(octet: int) returns (r: Reply<Network>)
      modifies this`faults
      ensures r.Ok? ==> octet in networks && r.value == networks[octet]
      ensures r.NotFound? ==> octet !in networks
      ensures faults == old(faults) + if r.ApiError? then 1 else 0
    {
      var fault: bool := *;
      if fault {
        faults := faults + 1;
        return ApiError(false);
      }
      r := if octet in networks then Ok(networks[octet]) else NotFound;
    }

    /** `check_duplicate=True`: an existing name is refused. */
    method CreateNetwork(octet: int, network: Network) returns (ok: bool)
      modifies this`networks, this`faults
      ensures ok ==> octet !in old(networks) && networks == old(networks)[octet := network]
      ensures !ok ==> networks == old(networks) ||
                      (octet !in old(networks) && networks == old(networks)[octet := network])
      ensures faults == old(faults) + if ok then 0 else 1
    {
      var fault: bool, effect: bool := *, *;
      var refused := octet in networks;
      if !refused && (effect || !fault) {
        networks := networks[octet := network];
      }
      ok := !refused && !fault;
      faults := faults + if ok then 0 else 1;
    }

    /** Refused while a running container is attached. */
    method RemoveNetwork(octet: int) returns (r: Reply<()>)
      modifies this`networks, this`faults
      ensures r.Ok? ==> octet in old(networks) && networks == old(networks) - {octet} &&
                        forall id :: id in containers && containers[id].octet == octet ==> containers[id].status != Running
      ensures r.NotFound? ==> octet !in old(networks) && networks == old(networks)
      ensures r.ApiError? ==> networks == old(networks) || networks == old(networks) - {octet}
      ensures faults == old(faults) + if r.ApiError? then 1 else 0
    {
      if octet !in networks {
        return NotFound;
      }
      var fault: bool, effect: bool := *, *;
      var busy := exists id :: id in containers && containers[id].octet == octet && containers[id].status == Running;
      if !busy && (effect || !fault) {
        networks := networks - {octet};
      }
      if busy || fault {
        faults := faults + 1;
        return ApiError(false);
      }
      r := Ok(());
    }

    // ----- containers

    /** A taken name is always refused; a taken address or port may be refused here, later or not at all. */
    method CreateContainer(c: Container) returns (r: Reply<nat>)
      requires Valid()
      modifies this`containers, this`nextId, this`faults, this`conflicts, this`creates
      ensures Valid()
      ensures creates == old(creates) + [CreateCall(c.ip, c.bindings.Values)]
      ensures r.Ok? ==> r.value == old(nextId) && containers == old(containers)[r.value := c]
      ensures !r.NotFound? && (NameTaken(old(containers), c.name) ==> r == ApiError(true))
      ensures r.ApiError? ==> containers == old(containers) || containers == old(containers)[old(nextId) := c]
      ensures old(nextId) <= nextId && faults == old(faults) + if r.ApiError? then 1 else 0
      ensures conflicts == old(conflicts) + if r.ApiError? && r.conflict then 1 else 0
    {
      creates := creates + [CreateCall(c.ip, c.bindings.Values)];
      if NameTaken(containers, c.name) {
        faults, conflicts := faults + 1, conflicts + 1;
        return ApiError(true);
      }
      var fault: bool, effect: bool, conflict: bool := *, *, *;
      var id := nextId;
      if effect || !fault {
        containers, nextId := containers[id := c], nextId + 1;
      }
      if fault {
        faults, conflicts := faults + 1, conflicts + if conflict then 1 else 0;
        return ApiError(conflict);
      }
      r := Ok(id);
    }

    method StartContainer(id: nat) returns (r: Reply<()>)
      requires Valid()
      modifies this`containers, this`faults, this`conflicts, this`started
      ensures Valid() && OnlyStatusOf(old(containers), containers, id)
      ensures r.Ok? ==> id in containers
      ensures r.NotFound? ==> id !in containers
      ensures started == old(started) + if r.Ok? then {id} else {}
      ensures faults == old(faults) + if r.ApiError? then 1 else 0
      ensures conflicts == old(conflicts) + if r.ApiError? && r.conflict then 1 else 0
    {
      var fault: bool, conflict: bool, status: Status := *, *, *;
      if id in containers {
        containers := containers[id := containers[id].(status := status)];
      }
      if fault {
        faults, conflicts := faults + 1, conflicts + if conflict then 1 else 0;
        return ApiError(conflict);
      }
      if id !in containers {
        return NotFound;
      }
      started := started + {id};
      r := Ok(());
    }

    method GetContainer(id: nat) returns (r: Reply<Container>)
      modifies this`faults, this`failed
      ensures r.Ok? ==> id in containers && r.value == containers[id]
      ensures r.NotFound? ==> id !in containers
      ensures r.ApiError? ==> !r.conflict
      ensures faults == old(faults) + if r.ApiError? then 1 else 0
      ensures failed == if r.ApiError? then old(failed)[id := old(failed)[id] + 1] else old(failed)
    {
      var fault: bool := *;
      if fault {
        faults, failed := faults + 1, failed[id := failed[id] + 1];
        return ApiError(false);
      }
      r := if id in containers then Ok(containers[id]) else NotFound;
    }

    /** `containers.get(id)`, `stop`, `remove(force=True)`. */
    method StopAndRemove(id: nat) returns (r: Reply<()>)
      requires Valid()
      modifies this`containers, this`faults, this`failed
      ensures Valid()
      ensures r.Ok? || r.NotFound? ==> containers == old(containers) - {id}
      ensures r.ApiError? ==> OnlyStatusOf(old(containers), containers, id) || containers == old(containers) - {id}
      ensures faults == old(faults) + if r.ApiError? then 1 else 0
      ensures failed == if r.ApiError? then old(failed)[id := old(failed)[id] + 1] else old(failed)
    {
      if id !in containers {
        assert containers - {id} == containers;
        return NotFound;
      }
      var fault: bool, stopped: bool, removed: bool := *, *, *;
      if stopped {
        containers := containers[id := containers[id].(status := Exited)];
      }
      if removed || !fault {
        containers := containers - {id};
        assert containers == old(containers) - {id};
      }
      if fault {
        faults, failed := faults + 1, failed[id := failed[id] + 1];
        return ApiError(false);
      }
      r := Ok(());
    }

    /** `containers.get(name).remove(force=True)` with its errors swallowed. */
    method TryRemoveByName(name: string)
      requires Valid()
      modifies this`containers, this`faults
      ensures Valid() && old(faults) <= faults <= old(faults) + 1
      ensures faults == old(faults) ==> !NameTaken(containers, name)
      ensures forall id :: id in containers ==> id in old(containers) && containers[id] == old(containers)[id]
      ensures forall id :: id in old(containers) && id !in containers ==> old(containers)[id].name == name
    {
      var fault: bool, effect: bool := *, *;
      if effect || !fault {
        containers := map id | id in containers && containers[id].name != name :: containers[id];
      }
      if fault {
        faults := faults + 1;
      }
    }

    /** `containers.get(id).remove(force=True)` with its errors swallowed. */
    method TryRemove(id: nat)
      requires Valid()
      modifies this`containers, this`faults
      ensures Valid() && old(faults) <= faults
      ensures containers == old(containers) || containers == old(containers) - {id}
      ensures faults == old(faults) ==> containers == old(containers) - {id}
    {
      var fault: bool, effect: bool := *, *;
      if effect || !fault {
        containers := containers - {id};
      }
      if fault {
        faults := faults + 1;
      }
    }

    /** `_live_container_ip`: `None` when the reload fails or the container reports no address on that network. */
    method LiveIp(id: nat, octet: Option<int>) returns (ip: Option<Address>)
      modifies this`faults
      ensures old(faults) <= faults
      ensures ip.Some? || faults == old(faults) ==> id in containers && ip == AddressOn(containers[id], octet)
    {
      var fault: bool := *;
      if fault || id !in containers {
        faults := faults + 1;
        return None;
      }
      ip := AddressOn(containers[id], octet);
    }

    /** `container.reload()`. */
    method Reload(id: nat) returns (ok: bool)
      modifies this`faults
      ensures faults == old(faults) + if ok then 0 else 1
    {
      var fault: bool := *;
      ok := id in containers && !fault;
      faults := faults + if ok then 0 else 1;
    }

    /** `_live_published_ports`. */
    method LivePublishedPorts(id: nat) returns (ports: PortMap)
      ensures ports == if id in containers then Reported(containers[id]) else map[]
    {
      ports := if id in containers then Reported(containers[id]) else map[];
    }

    /** `containers.list(all=True)` filtered by the managed label, in any order; `None` is an API error. */
    method ListManaged() returns (ids: Option<seq<nat>>)
      modifies this`faults
      ensures ids.Some? ==> forall id :: id in ids.value <==> id in containers && containers[id].managed
      ensures faults == old(faults) + if ids.None? then 1 else 0
    {
      var fault: bool := *;
      if fault {
        faults := faults + 1;
        return None;
      }
      var rest := set id | id in containers && containers[id].managed;
      var listed: seq<nat> := [];
      while rest != {}
        invariant forall id :: id in listed || id in rest <==> id in containers && containers[id].managed
        decreases rest
      {
        var id :| id in rest;
        listed, rest := listed + [id], rest - {id};
      }
      ids := Some(listed);
    }

    /** What happens between two requests: containers change state or vanish, networks are removed. */
    method Drift(gone: set<nat>, unplugged: set<int>, statuses: map<nat, Status>)
      requires Valid()
      modifies this`containers, this`networks
      ensures Valid() && DriftedFrom(old(containers), containers)
      ensures networks == old(networks) - unplugged
    {
      networks := networks - unplugged;
      containers := map id | id in containers && id !in gone ::
        containers[id].(status := if id in statuses then statuses[id] else containers[id].status);
    }
  }

  /** Only the status of container `id` may differ. */
  ghost predicate OnlyStatusOf(before: Containers, after: Containers, id: nat) {
    && after.Keys == before.Keys
    && (forall j :: j in after && j != id ==> after[j] == before[j])
    && (id in after ==> after[id] == before[id].(status := after[id].status))
  }

  ghost predicate DriftedFrom(before: Containers, after: Containers) {
    forall id :: id in after ==> id in before && after[id] == before[id].(status := after[id].status)
  }
}
