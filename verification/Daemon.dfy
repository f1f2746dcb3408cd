/** The daemon: its request handlers over the shared state, and the loop that serves requests. */
module Daemon {
  import opened Base
  import opened Ipv4
  import opened Names
  import opened Database
  import opened Docker
  import opened Allocation
  import opened Containers
  import opened WireGuard
  import opened Firewall
  import opened Iptables
  import opened Isolation
  import opened Runs

  /** Tables and Docker in agreement, rows and containers under their proper names. */
  ghost predicate Named(db: DatabaseManager, docker: Engine)
    reads db, docker
  {
    Consistent(db, docker) && NamesFit(db.instances, docker.containers)
  }

  /** Peers at VPN addresses, and a config file with the server's header. */
  ghost predicate Filed(db: DatabaseManager, config: ServerConfig, header: string)
    reads db, config
  {
    db.Valid() && PeersInVpn(db.peers) && PlainHeader(header) && HasHeader(config.text, header)
  }

  /** A peer for a user without one. */
  method Welcome(db: DatabaseManager, config: ServerConfig, userId: int, owner: Owner, keys: KeyPair,
                 ghost header: string)
    returns (ok: bool)
    requires Filed(db, config, header) && !HasUsername(db.peers, UserName(userId))
    modifies db`peers, db`nextPeerId, config
    ensures Filed(db, config, header)
    ensures JoinRun(userId, owner, keys, ok, old(db.View()), old(config.View()), db.View(), config.View())
  {
    ok := config.Load();
    if ok {
      ok := config.AddGeneratedPeer(db, owner, UserName(userId), keys, header);
    }
    JoinedIsInVpn(old(db.peers), db.peers, owner, UserName(userId), keys);
  }

  method Dismiss(db: DatabaseManager, config: ServerConfig, userId: int,
                 ghost header: string)
    returns (removed: RemoveOutcome)
    requires Filed(db, config, header)
    modifies db`peers, config
    ensures Filed(db, config, header)
    ensures removed.NoSuchPeer? <==> !HasUsername(old(db.peers), UserName(userId))
    ensures removed.NoSuchPeer? ==> db.View() == old(db.View()) && config.View() == old(config.View())
    ensures !removed.NoSuchPeer? ==>
              DismissRun(userId, removed.PeerRemoved?, old(db.View()), old(config.View()), db.View(), config.View())
    ensures removed.PeerRemoved? ==> config.InSync(header, db)
  {
    ghost var before := config.State(db);
    removed := config.RemovePeer(db, UserName(userId), header);
    ghost var after := config.State(db);
    assert after == before || after == before.Step(Remove(UserName(userId)));
    DismissedInVpn(before, after, UserName(userId));
  }

  method Spawn(db: DatabaseManager, docker: Engine, owner: Owner, challengeRef: string, hasDockerfile: bool,
               buildOk: bool, exposed: seq<string>,
               expiresAt: Option<string>, publish: bool)
    returns (result: SpawnResult)
    requires Named(db, docker)
    modifies db`octets, db`instances, db`nextInstanceId, db`faults, docker
    ensures Named(db, docker) && (old(Allocated(db)) ==> Allocated(db))
    ensures SpawnRun(owner, challengeRef, hasDockerfile, buildOk, exposed, expiresAt, publish, result,
                     old(db.View()), old(docker.View()), db.View(), docker.View())
  {
    result := SpawnInstance(db, docker, owner, challengeRef, hasDockerfile, buildOk, exposed, expiresAt, publish);
    NamesAfterSpawn(old(db.instances), old(docker.containers), db.instances, docker.containers, owner, challengeRef);
    if FindInstance(old(db.instances), owner, challengeRef).None? {
      SpawnSparesTracked(old(db.instances), old(docker.containers), old(docker.nextId), docker.containers, owner,
                         challengeRef);
    }
  }

  method Release(db: DatabaseManager, docker: Engine, containerId: nat) returns (released: ReleaseResult)
    requires Named(db, docker)
    modifies db`octets, db`instances, docker`containers, docker`networks, docker`faults, docker`failed, docker`connected
    ensures Named(db, docker) && (old(Allocated(db)) ==> Allocated(db))
    ensures ReleaseRun(containerId, released, old(db.View()), old(docker.View()), db.View(), docker.View())
  {
    released := Containers.ReleaseInstance(db, docker, containerId);
    NamesAfterLoss(old(db.instances), old(docker.containers), db.instances, docker.containers);
  }

  method Sync(db: DatabaseManager, docker: Engine) returns (pruned: Option<nat>)
    requires Named(db, docker)
    modifies db`octets, db`instances, docker`networks, docker`faults, docker`failed, docker`connected
    ensures Named(db, docker) && (old(Allocated(db)) ==> Allocated(db))
    ensures SyncRun(pruned, old(db.View()), old(docker.View()), db.View(), docker.View())
  {
    pruned := Containers.Reconcile(db, docker);
    NamesAfterLoss(old(db.instances), docker.containers, db.instances, docker.containers);
  }

  method Teardown(db: DatabaseManager, docker: Engine) returns (count: Option<nat>)
    requires Named(db, docker)
    modifies db`octets, db`instances, docker`containers, docker`networks, docker`faults, docker`failed, docker`connected
    ensures Named(db, docker) && (old(Allocated(db)) ==> Allocated(db))
    ensures TeardownRun(count, old(db.View()), old(docker.View()), db.View(), docker.View())
  {
    count := TeardownAll(db, docker);
    NamesAfterLoss(old(db.instances), old(docker.containers), db.instances, docker.containers);
  }

  /** A new client, then adoption. `complete` says that all containers were listed and every untracked
      one considered. */
  method Adopt(db: DatabaseManager, docker: Engine) returns (adopted: AdoptResult, ghost complete: bool)
    requires Named(db, docker)
    modifies db`instances, db`nextInstanceId, db`faults, docker`faults, docker`connected
    ensures Named(db, docker) && old(docker.faults) <= docker.faults
    ensures adopted.Unreachable? <==> !docker.connected
    ensures if adopted.WriteError? then old(db.faults) < db.faults else db.faults == old(db.faults)
    ensures AdoptionRun(old(db.instances), db.instances, docker.containers, db.octets, complete,
                        docker.faults == old(docker.faults))
    ensures adopted.Adopted? && docker.faults == old(docker.faults) ==> complete
  {
    NamedKeysDistinct(db.instances, docker.containers, docker.nextId);
    docker.Forget();
    ghost var listed;
    adopted, listed := AdoptUntracked(db, docker);
    complete := adopted.Adopted? && listed;
    LaxNames(old(db.instances), db.instances, docker.containers, db.octets, docker.faults == old(docker.faults));
  }

  /** The middle of start-up: adopt, reconcile. A RuntimeError is only logged; an error of the database
      ends the process. */
  method Recover(db: DatabaseManager, docker: Engine) returns (alive: bool, ghost taken: seq<Instance>, ghost complete: bool)
    requires Named(db, docker)
    modifies db`octets, db`instances, db`nextInstanceId, db`faults, docker`networks, docker`faults, docker`failed,
      docker`connected
    ensures Named(db, docker) && old(docker.faults) <= docker.faults
    ensures Recovered(alive, taken, old(db.View()), old(docker.View()), db.View(), docker.View())
    ensures AdoptionRun(old(db.instances), taken, docker.containers, old(db.octets), complete,
                        docker.faults == old(docker.faults))
    ensures WellAllocated(taken, old(db.octets)) ==> Allocated(db)
  {
    ghost var before, held := db.View(), docker.View();
    var adopted;
    adopted, complete := Adopt(db, docker);
    taken, alive := db.instances, !adopted.WriteError?;
    ghost var db1, held1 := db.View(), docker.View();
    if adopted.Adopted? {
      var pruned := Sync(db, docker);
      SyncedAfterAdoption(complete, pruned, before, held, db1, held1, db.View(), docker.View());
    } else {
      ReconciledAtOnce(taken, docker.containers);
    }
  }

  class Server {
    const db: DatabaseManager
    const docker: Engine
    const kernel: Kernel
    const config: ServerConfig
    ghost const header: string
    var running: bool

    ghost predicate Valid()
      reads this, db, docker, kernel, config
    {
      Named(db, docker) && Filed(db, config, header)
    }

    ghost predicate FirewallIsCurrent(host: Host)
      reads this, db, kernel
    {
      host.publicIface.Some? && Enforced(kernel.chains, host.publicIface.value, db.peers, db.octets)
    }

    ghost function State(): State
      reads this, db, docker, kernel, config
    {
      Runs.State(db.View(), docker.View(), kernel.View(), config.View(), running)
    }

    /** A first start: empty database, no edo network or container, whatever iptables holds. */
    constructor (chains: Chains, port: nat, privateKey: string)
      requires '[' !in privateKey
      ensures Valid() && Allocated(db) && !running && AllAdopted(db.instances, docker.containers)
      ensures fresh(db) && fresh(docker) && fresh(kernel) && fresh(config)
    {
      InitialConfigIsPlain(port, privateKey);
      db := new DatabaseManager();
      docker := new Engine();
      kernel := new Kernel(chains);
      config := new ServerConfig(InitialConfig(port, privateKey));
      header := InitialConfig(port, privateKey);
      running := false;
      new;
      assert config.text[|header|..] == "";
    }

    /** `_rebuild_firewall`. */
    method RebuildFirewall(host: Host) returns (ok: bool)
      requires Valid()
      modifies kernel
      ensures Valid()
      ensures ForeignRulesKept(old(kernel.chains), kernel.chains)
      ensures ok ==> FirewallIsCurrent(host)
      // without failures through DOCKER-USER if there is one, else through FORWARD
      ensures ok && kernel.faults == old(kernel.faults) ==>
                HookedIn(kernel.chains, if DockerUser in old(kernel.chains) then DockerUser else Forward)
      ensures !ok ==> MayFail(host, old(kernel.View()), kernel.View())
    {
      var groups := db.PeersGroupedByOwner();
      var octets := db.AllOwnerOctets();
      assert Groups(db.peers, groups) && Lists(db.octets, octets);
      ListsInRange(db.octets, octets);
      ghost var lost, target;
      ok, lost, target := kernel.ApplyFirewall(host.publicIface, host.sysctlOk, groups, octets);
      if ok {
        AppliedIsInstalled(old(kernel.chains), kernel.chains, lost, target, host.publicIface.value, groups, octets);
        InstalledIsEnforced(kernel.chains, target, host.publicIface.value, db.peers, db.octets, groups, octets);
      }
    }

    /** The answer of a handler that ends with a rebuild. */
    method Conclude(result: Result, host: Host) returns (r: Response)
      requires Valid()
      modifies kernel
      ensures Valid()
      ensures r.Rebuilt() ==> FirewallIsCurrent(host)
      ensures Concluded(host, r, result, old(kernel.View()), kernel.View())
    {
      var ok := RebuildFirewall(host);
      r := if ok then Served(true, result) else Response.Raised;
    }

    /** `handle_wg_ensure_peer`: no rebuild when the peer exists. */
    method HandleEnsurePeer(userId: int, owner: Owner, keys: KeyPair, host: Host) returns (r: Response)
      requires Valid()
      modifies db`peers, db`nextPeerId, config, kernel
      ensures Valid()
      ensures r.Rebuilt() ==> FirewallIsCurrent(host)
      ensures PeerEnsured(userId, owner, keys, host, r, old(State()), State())
    {
      var existing := FindPeer(db.peers, UserName(userId));
      if existing.Some? {
        var loaded := config.Load();
        return if loaded then Served(false, PeerGiven(existing.value)) else Response.Raised;
      }
      var ok := Welcome(db, config, userId, owner, keys, header);
      if !ok {
        return Response.Raised;
      }
      r := Conclude(PeerGiven(db.peers[|db.peers| - 1]), host);
    }

    /** `handle_wg_remove_peer`. */
    method HandleRemovePeer(userId: int, host: Host) returns (r: Response)
      requires Valid()
      modifies db`peers, config, kernel
      ensures Valid()
      ensures r.Rebuilt() ==> FirewallIsCurrent(host) && config.InSync(header, db)
      ensures PeerDismissed(userId, host, r, old(State()), State())
    {
      var removed := Dismiss(db, config, userId, header);
      if removed.RemoveRaised? {
        return Response.Raised;
      }
      if removed.NoSuchPeer? {
        return Served(false, PeerGone(false));
      }
      r := Conclude(PeerGone(true), host);
    }

    /** `handle_container_ensure_instance`: a failed spawn raises before the rebuild. */
    method HandleEnsureInstance(owner: Owner, challengeRef: string, hasDockerfile: bool, buildOk: bool,
                                exposed: seq<string>, expiresAt: Option<string>, publish: bool, host: Host)
      returns (r: Response)
      requires Valid()
      modifies db`octets, db`instances, db`nextInstanceId, db`faults, docker, kernel
      ensures Valid() && (old(Allocated(db)) ==> Allocated(db))
      ensures r.Rebuilt() ==> FirewallIsCurrent(host)
      ensures InstanceEnsured(owner, challengeRef, hasDockerfile, buildOk, exposed, expiresAt, publish, host, r,
                              old(State()), State())
    {
      var result := Spawn(db, docker, owner, challengeRef, hasDockerfile, buildOk, exposed, expiresAt, publish);
      if !result.Spawned? {
        return Response.Raised;
      }
      ghost var b, db', docker' := old(State()), db.View(), docker.View();
      r := Conclude(InstanceGiven(result.instance), host);
      ghost var a := State();
      assert a.db == db' && a.docker == docker' && a.config == b.config;
    }

    /** `handle_container_release_instance`: rebuilds whether or not a row was removed. */
    method HandleReleaseInstance(containerId: nat, host: Host) returns (r: Response)
      requires Valid()
      modifies db`octets, db`instances, docker, kernel
      ensures Valid() && (old(Allocated(db)) ==> Allocated(db))
      ensures r.Rebuilt() ==> FirewallIsCurrent(host)
      ensures InstanceReleased(containerId, host, r, old(State()), State())
    {
      var released := Release(db, docker, containerId);
      if released.ReleaseRaised? {
        return Response.Raised;
      }
      r := Conclude(ReleaseDone(released.removed), host);
    }

    /** `handle_container_reconcile`: the chain is not rebuilt. `host` is as the last rebuild found it. */
    method HandleReconcile(ghost host: Host) returns (r: Response)
      requires Valid()
      modifies db`octets, db`instances, docker`networks, docker`faults, docker`failed, docker`connected
      ensures Valid() && (old(Allocated(db)) ==> Allocated(db))
      ensures !r.Rebuilt()
      ensures InstancesReconciled(r, old(State()), State())
      // a current chain stays current exactly when no peer's owner lost its octet
      ensures old(FirewallIsCurrent(host)) ==>
                (FirewallIsCurrent(host) <==> PeersKeepOctets(db.peers, old(db.octets), db.octets))
      // that is, where nothing fails, when none was orphaned before; and only an orphaned one ever does
      ensures old(FirewallIsCurrent(host)) && !FirewallIsCurrent(host) ==>
                old(PeerOrphaned(db.peers, db.instances, db.octets, docker.networks, docker.containers))
      ensures r.Served? && docker.faults == old(docker.faults) && old(FirewallIsCurrent(host)) ==>
                (FirewallIsCurrent(host) <==>
                 !old(PeerOrphaned(db.peers, db.instances, db.octets, docker.networks, docker.containers)))
    {
      var n := Sync(db, docker);
      OutdatedIff(kernel.chains, host, db.peers, db.nextPeerId, old(db.octets), db.octets);
      OnlyOrphansLoseOctet(db.peers, old(Tables(db.instances, db.octets, docker.networks)),
                           Tables(db.instances, db.octets, docker.networks), docker.containers);
      if n.None? {
        return Response.Raised;
      }
      if docker.faults == old(docker.faults) {
        OrphansLoseOctet(db.peers, old(db.instances), db.instances, old(db.octets), db.octets, old(docker.networks),
                         docker.containers, docker.failed);
      }
      r := Served(false, Listed(n.value, db.instances));
    }

    /** `handle_kill_switch`: peers stay. */
    method HandleKillSwitch(host: Host) returns (r: Response)
      requires Valid()
      modifies db`octets, db`instances, docker, kernel
      ensures Valid() && (old(Allocated(db)) ==> Allocated(db))
      ensures r.Rebuilt() ==> FirewallIsCurrent(host)
      ensures AllTornDown(host, r, old(State()), State())
    {
      var count := Teardown(db, docker);
      if count.None? {
        return Response.Raised;
      }
      r := Conclude(TeardownDone(count.value), host);
    }

    /** Start-up on what is there. It serves unless the database fails, and with a current firewall unless
        the rebuild has a reason to fail. */
    method Startup(host: Host) returns (r: Response, ghost taken: seq<Instance>)
      requires Valid()
      modifies this`running, db`octets, db`instances, db`nextInstanceId, db`faults,
               docker`networks, docker`faults, docker`failed, docker`connected, kernel
      ensures Valid() && r != Down
      ensures r.Rebuilt() ==> FirewallIsCurrent(host)
      ensures StartedOver(host, r, old(State()), State())
      ensures Recovered(r.Served?, taken, old(State()).db, old(State()).docker, State().db, State().docker)
      // without failures on a host that can carry it, the firewall is current from the start
      ensures db.faults == old(db.faults) && !MayFail(host, old(kernel.View()), kernel.View()) ==>
                r.Rebuilt() && FirewallIsCurrent(host)
      // allocation survives a start that finds nothing untracked or, without failures, only what suits
      ensures old(Allocated(db)) && AllFit(old(db.instances), taken, old(db.octets)) ==> Allocated(db)
      ensures old(Allocated(db) && AllAdopted(db.instances, docker.containers)) ==> Allocated(db)
      ensures docker.faults == old(docker.faults) &&
              old(Allocated(db) && Adoptable(db.instances, docker.containers, db.octets))
              ==> Allocated(db)
    {
      running := false;
      var alive;
      ghost var complete;
      alive, taken, complete := Recover(db, docker);
      if !alive {
        return Response.Raised, taken;
      }
      running := true;
      var rebuilt := RebuildFirewall(host);
      r := Served(rebuilt, Ready);
    }

    /** One request as the handler table dispatches it. Where the chain is left as it was, a current one
        stays current if and only if the tables grant the same as before. */
    method Dispatch(request: Request, host: Host) returns (r: Response)
      requires Valid()
      modifies this`running, db, docker, kernel, config
      ensures Valid()
      ensures old(Allocated(db)) && (request.Start? ==> old(AllAdopted(db.instances, docker.containers))) ==> Allocated(db)
      ensures r.Rebuilt() ==> FirewallIsCurrent(host)
      ensures Effect(request, host, r, old(State()), State())
      ensures r == Down <==> !old(running) && !request.Start?
      ensures kernel.chains == old(kernel.chains) && old(FirewallIsCurrent(host)) ==>
                (FirewallIsCurrent(host) <==> SameGrants(old(db.peers), old(db.octets), db.peers, db.octets))
    {
      if !running && !request.Start? {
        return Down;
      }
      r := Handle(request, host);
      if kernel.chains == old(kernel.chains) && old(FirewallIsCurrent(host)) {
        ChainIsCurrentIff(kernel.chains, host.publicIface.value, old(db.peers), old(db.octets), db.peers, db.octets);
      }
    }

    /** The handler of each request. */
    method Handle(request: Request, host: Host) returns (r: Response)
      requires Valid() && (running || request.Start?)
      modifies this`running, db, docker, kernel, config
      ensures Valid()
      ensures old(Allocated(db)) && (request.Start? ==> old(AllAdopted(db.instances, docker.containers))) ==> Allocated(db)
      ensures r.Rebuilt() ==> FirewallIsCurrent(host)
      ensures Effect(request, host, r, old(State()), State())
      ensures r != Down
    {
      match request
      case Start =>
        var reply, _ := Startup(host);
        r := reply;
      case EnsurePeer(_, _, _) =>
        r := HandlePeers(request, host);
      case RemovePeer(_) =>
        r := HandlePeers(request, host);
      case _ =>
        r := HandleContainers(request, host);
    }

    /** Those of the `wg` methods. */
    method HandlePeers(request: Request, host: Host) returns (r: Response)
      requires Valid() && running && (request.EnsurePeer? || request.RemovePeer?)
      modifies db`peers, db`nextPeerId, config, kernel
      ensures Valid()
      ensures r.Rebuilt() ==> FirewallIsCurrent(host)
      ensures Effect(request, host, r, old(State()), State())
      ensures r != Down
    {
      match request
      case EnsurePeer(userId, owner, keys) =>
        r := HandleEnsurePeer(userId, owner, keys, host);
      case RemovePeer(userId) =>
        r := HandleRemovePeer(userId, host);
    }

    /** Those of the `container` methods and the kill switch. */
    method HandleContainers(request: Request, host: Host) returns (r: Response)
      requires Valid() && running && !request.EnsurePeer? && !request.RemovePeer? && !request.Start?
      modifies db, docker, kernel
      ensures Valid() && (old(Allocated(db)) ==> Allocated(db))
      ensures r.Rebuilt() ==> FirewallIsCurrent(host)
      ensures Effect(request, host, r, old(State()), State())
      ensures r != Down
    {
      match request
      case EnsureInstance(owner, ref, hasDockerfile, buildOk, exposed, expiresAt, publish) =>
        r := HandleEnsureInstance(owner, ref, hasDockerfile, buildOk, exposed, expiresAt, publish, host);
      case ReleaseInstance(containerId) =>
        r := HandleReleaseInstance(containerId, host);
      case Reconcile =>
        r := HandleReconcile(host);
      case KillSwitch =>
        r := HandleKillSwitch(host);
    }

    /** `run` is what happened since `start` and ends in the present state. */
    ghost predicate Recorded(start: State, run: seq<Event>)
      reads this, db, docker, kernel, config
    {
      AllKept(start, run) && Before(start, run, |run|) == State()
    }

    /** One turn. */
    method TakeTurn(turn: Turn) returns (reply: Response, ghost e: Event)
      requires Valid()
      modifies this`running, db, docker, kernel, config
      ensures Valid() && TurnKept(old(State()), e)
      ensures e.turn == turn && e.reply == reply && e.after == State()
    {
      Outside(turn);
      ghost var found := State();
      reply := Dispatch(turn.request, turn.host);
      e := Event(turn, found, reply, State());
    }

    /** One turn more of a run. */
    method ServeOne(turn: Turn, ghost start: State, ghost run: seq<Event>) returns (reply: Response, ghost e: Event)
      requires Valid() && Recorded(start, run)
      modifies this`running, db, docker, kernel, config
      ensures Valid() && Recorded(start, run + [e])
      ensures e.turn == turn && e.reply == reply
    {
      reply, e := TakeTurn(turn);
      OneMoreKept(start, run, e);
    }

    /** The daemon over any number of turns, starts and restarts among them, whatever the requests, the
        failures and the outside do. */
    method Serve(turns: seq<Turn>) returns (replies: seq<Response>, ghost run: seq<Event>)
      requires Valid()
      modifies this`running, db, docker, kernel, config
      ensures Valid() && Recorded(old(State()), run) && RunOf(run, turns, replies)
    {
      replies, run := [], [];
      ghost var start := State();
      for i := 0 to |turns|
        invariant Valid() && Recorded(start, run) && RunOf(run, turns[..i], replies)
      {
        var reply, e := ServeOne(turns[i], start, run);
        RunOfStep(run, turns, replies, i, e);
        replies, run := replies + [reply], run + [e];
      }
      assert turns[..|turns|] == turns;
    }

    method Outside(turn: Turn)
      requires Valid()
      modifies docker`containers, docker`networks
      ensures Valid()
      ensures Disturbed(old(State()), turn, State())
      ensures old(AllAdopted(db.instances, docker.containers)) ==> AllAdopted(db.instances, docker.containers)
    {
      docker.Drift(turn.gone, turn.unplugged, turn.statuses);
      ContainersDrifted(db.instances, old(docker.containers), docker.containers, docker.nextId, docker.nextId);
      NamesAfterLoss(db.instances, old(docker.containers), db.instances, docker.containers);
    }
  }
}
