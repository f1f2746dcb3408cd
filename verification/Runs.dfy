/** The requests the daemon serves, what each of them does, and what a run of them keeps: said about the
    states before and after as values. */
module Runs {
  import opened Base
  import opened Ipv4
  import opened Names
  import opened Database
  import opened Docker
  import opened Allocation
  import opened Containers
  import opened WireGuard
  import opened Firewall
  import opened Iptables
  import opened Isolation

  /** The host as one firewall rebuild finds it. */
  datatype Host = Host(publicIface: Option<string>, sysctlOk: bool)

  const NOWHERE := Host(None, false)

  /** What a handler gives back. */
  datatype Result =
    | PeerGiven(peer: Peer)
    | PeerGone(removed: bool)
    | InstanceGiven(instance: Instance)
    | ReleaseDone(released: bool)
    | Listed(pruned: nat, instances: seq<Instance>)
    | TeardownDone(count: nat)
    | Ready

  /** `rebuilt` says whether the handler ended with a successful firewall rebuild; `Raised` is an exception,
      `Down` what a client gets that finds no daemon. */
  datatype Response = Served(rebuilt: bool, result: Result) | Raised | Down {
    predicate Rebuilt() { Served? && rebuilt }
  }

  /** `Start` ends the process, if one runs, and starts it on what is there. */
  datatype Request =
    | EnsurePeer(userId: int, peerOwner: Owner, keys: KeyPair)
    | RemovePeer(leaver: int)
    | EnsureInstance(owner: Owner, challengeRef: string, hasDockerfile: bool, buildOk: bool,
                     exposed: seq<string>, expiresAt: Option<string>, publish: bool)
    | ReleaseInstance(containerId: nat)
    | Reconcile
    | KillSwitch
    | Start

  /** What the outside does to Docker before a request arrives. */
  datatype Turn = Turn(request: Request, host: Host, gone: set<nat>, unplugged: set<int>, statuses: map<nat, Status>)

  /** All the state there is. */
  datatype State = State(db: DbView, docker: DockerView, kernel: KernelView, config: FileView, running: bool) {
    /** Tables well-formed, bridges in the right hands; and right after a rebuild the kernel decides every
        packet as the tables say. */
    ghost predicate Safe(reply: Response, host: Host) {
      && PeerTable(db.peers, db.nextPeerId) && OctetTable(db.octets) && PeersInVpn(db.peers)
      && NetworksAgree(docker.networks, db.octets)
      && (reply.Rebuilt() ==>
            host.publicIface.Some? && Enforced(kernel.chains, host.publicIface.value, db.peers, db.octets))
    }

    /** The allocation invariant holds. */
    ghost predicate Allotted() { WellAllocated(db.instances, db.octets) }

    /** Every labelled managed container is tracked, or its key is taken. */
    ghost predicate NothingUntracked() { AllAdopted(db.instances, docker.containers) }

    /** Allocation outlasts a turn, a start included if it finds nothing untracked. */
    ghost predicate Leads(turn: Turn, next: State) {
      Allotted() && (turn.request.Start? ==> NothingUntracked()) ==> next.Allotted()
    }
  }

  // ----- what each request does, from the state it finds to the state it leaves

  /** The row of this owner and challenge: the one there was, or the only new one. */
  ghost predicate SameOrNew(before: seq<Instance>, after: seq<Instance>, row: Instance, owner: Owner, challengeRef: string) {
    && row.owner == owner && row.challengeRef == challengeRef
    && if FindInstance(before, owner, challengeRef).Some? then
         after == before && row == FindInstance(before, owner, challengeRef).value
       else after == before + [row] && row.status == Running
  }

  function UserName(userId: int): string { "user_" + Decimal(userId) }

  lemma UserNamesDiffer(m: int, n: int)
    ensures UserName(m) == UserName(n) <==> m == n
    ensures "user_" <= UserName(m) && UserName(m)[5..] == Decimal(m)
  {
    assert UserName(m)[5..] == Decimal(m) && UserName(n)[5..] == Decimal(n);
    if UserName(m) == UserName(n) {
      DecimalInjective(m, n);
    }
  }

  function OnFile(db: DbView, config: FileView): PeerState { PeerState(db.peers, config.text) }

  function TablesOf(db: DbView, docker: DockerView): Tables { Tables(db.instances, db.octets, docker.networks) }

  /** What a failed rebuild needs for a reason. */
  ghost predicate MayFail(host: Host, k: KernelView, k': KernelView) {
    host.publicIface.None? || !host.sysctlOk || NoCandidate(k.chains) || k.faults < k'.faults
  }

  /** The handler's answer after a rebuild, or an exception because that failed. */
  ghost predicate Concluded(host: Host, reply: Response, result: Result, k: KernelView, k': KernelView) {
    reply == Served(true, result) || (reply.Raised? && MayFail(host, k, k'))
  }

  lemma JoinedIsInVpn(before: seq<Peer>, after: seq<Peer>, owner: Owner, username: string, keys: KeyPair)
    requires PeersInVpn(before) && (after == before || PeerJoined(before, after, owner, username, keys))
    ensures PeersInVpn(after)
  {}

  /** A user without a row joins, in table and file; an exception has a reason. */
  ghost predicate JoinRun(userId: int, owner: Owner, keys: KeyPair, ok: bool, db: DbView, config: FileView,
                          db': DbView, config': FileView) {
    && db' == db.(peers := db'.peers, nextPeerId := db'.nextPeerId)
    && JoinStep(OnFile(db, config), OnFile(db', config'), ok, owner, UserName(userId), keys) && (ok ==> db'.peers != [])
    && (!ok ==> config.faults < config'.faults || NoAddressFree(db.peers))
  }

  /** `wg.ensure_peer`: this user's row is there afterwards, the one there was or one new row. */
  ghost predicate PeerEnsured(userId: int, owner: Owner, keys: KeyPair, host: Host, reply: Response, b: State, a: State) {
    && a.docker == b.docker
    && if HasUsername(b.db.peers, UserName(userId)) then
         && a.db == b.db && a.config.text == b.config.text && a.kernel == b.kernel
         && (|| (reply.Raised? && b.config.faults < a.config.faults)
             || (reply.Served? && !reply.rebuilt && reply.result.PeerGiven? && reply.result.peer in a.db.peers &&
                 reply.result.peer.username == UserName(userId)))
       else
         exists ok: bool :: JoinRun(userId, owner, keys, ok, b.db, b.config, a.db, a.config) &&
           if ok then Concluded(host, reply, PeerGiven(a.db.peers[|a.db.peers| - 1]), b.kernel, a.kernel)
           else reply.Raised? && a.kernel == b.kernel
  }

  lemma DismissedInVpn(before: PeerState, after: PeerState, username: string)
    requires PeersInVpn(before.peers) && (after == before || after == before.Step(Remove(username)))
    ensures PeersInVpn(after.peers)
  {}

  /** A user's row goes, and with it the section in the file. */
  ghost predicate DismissRun(userId: int, done: bool, db: DbView, config: FileView, db': DbView, config': FileView) {
    var step := OnFile(db, config).Step(Remove(UserName(userId)));
    && db' == db.(peers := db'.peers)
    && if done then OnFile(db', config') == step
       else (OnFile(db', config') == OnFile(db, config) || OnFile(db', config') == step) && config.faults < config'.faults
  }

  /** `wg.remove_peer`: this user's row goes and no other. */
  ghost predicate PeerDismissed(userId: int, host: Host, reply: Response, b: State, a: State) {
    && a.docker == b.docker
    && if !HasUsername(b.db.peers, UserName(userId)) then a == b && reply == Served(false, PeerGone(false))
       else
         exists done: bool :: DismissRun(userId, done, b.db, b.config, a.db, a.config) &&
           if done then Concluded(host, reply, PeerGone(true), b.kernel, a.kernel) else reply.Raised? && a.kernel == b.kernel
  }

  /** A new row says what was asked for, with a new container behind it on the owner's bridge. */
  ghost predicate FreshlyBacked(row: Instance, owner: Owner, challengeRef: string, exposed: seq<string>,
                                expiresAt: Option<string>,
                                publish: bool, db: DbView, docker: DockerView, db': DbView, docker': DockerView) {
    && NewRow(row, db.instances, db'.octets, ContainerName(challengeRef, owner), owner, challengeRef, publish, exposed,
              expiresAt, row.containerId)
    && row.containerId !in docker.containers && row.containerId in docker'.containers
    && Backed(row, docker'.containers[row.containerId], db'.octets[owner], db.instances, publish)
    && db'.octets[owner] in docker'.networks && docker'.networks[db'.octets[owner]] == Network(owner, true)
  }

  /** What a spawn does: the row there was, or one new row; its own octet and bridge; and no container of
      another name is touched, nor, with the plugin's keys, one of a tracked row. One that fails has a reason. */
  ghost predicate SpawnRun(owner: Owner, challengeRef: string, hasDockerfile: bool, buildOk: bool, exposed: seq<string>,
                           expiresAt: Option<string>, publish: bool, result: SpawnResult, db: DbView,
                           docker: DockerView, db': DbView, docker': DockerView) {
    && db'.peers == db.peers && db'.nextPeerId == db.nextPeerId && OctetsExtended(db.octets, db'.octets, owner)
    && (docker'.networks == docker.networks ||
        (owner in db'.octets && docker'.networks == docker.networks[db'.octets[owner] := Network(owner, true)]))
    && Containers.OthersKept(docker.containers, docker'.containers, ContainerName(challengeRef, owner))
    && (FromPlugin(db.instances) && PluginKey(owner, challengeRef) ==>
          TrackedKept(db.instances, docker.containers, docker'.containers))
    && if result.Spawned? then
         && SameOrNew(db.instances, db'.instances, result.instance, owner, challengeRef)
         && (if FindInstance(db.instances, owner, challengeRef).Some? then db' == db && docker' == docker
             else hasDockerfile && buildOk &&
                  FreshlyBacked(result.instance, owner, challengeRef, exposed, expiresAt, publish, db, docker, db', docker'))
       else
         && db'.instances == db.instances
         && db'.octets == (if hasDockerfile then GrantedOctets(db.octets, owner) else db.octets)
         && SpawnFailed(owner, challengeRef, hasDockerfile, buildOk, exposed, publish, db, docker, db', docker')
  }

  /** What a failed spawn needs for a reason. */
  ghost predicate SpawnFailed(owner: Owner, challengeRef: string, hasDockerfile: bool, buildOk: bool, exposed: seq<string>,
                              publish: bool, db: DbView, docker: DockerView, db': DbView, docker': DockerView) {
    && FindInstance(db.instances, owner, challengeRef).None?
    && (|| !hasDockerfile || !buildOk || !docker'.connected || NoNetworkFor(db.octets, db'.octets, docker.networks, owner)
        || (owner in db'.octets &&
            (NoGuestFree(db.instances, owner, db'.octets[owner]) || TooFewPorts(db.instances, publish, exposed)))
        || docker.faults < docker'.faults || db.faults < db'.faults)
  }

  /** `container.ensure_instance`: a failed spawn raises before the rebuild. */
  ghost predicate InstanceEnsured(owner: Owner, challengeRef: string, hasDockerfile: bool, buildOk: bool,
                                  exposed: seq<string>,
                                  expiresAt: Option<string>, publish: bool, host: Host, reply: Response, b: State, a: State) {
    && a.config == b.config
    && exists result: SpawnResult ::
         SpawnRun(owner, challengeRef, hasDockerfile, buildOk, exposed, expiresAt, publish, result, b.db, b.docker,
                  a.db, a.docker) &&
         if result.Spawned? then Concluded(host, reply, InstanceGiven(result.instance), b.kernel, a.kernel)
         else reply.Raised? && a.kernel == b.kernel
  }

  /** What a release does: at most that row and that container go, and what their owner leaves idle; and both
      do unless a call for the container failed. */
  ghost predicate ReleaseRun(containerId: nat, released: ReleaseResult, db: DbView, docker: DockerView, db': DbView,
                             docker': DockerView) {
    && db' == db.(octets := db'.octets, instances := db'.instances)
    && OnlyTouched(docker.containers, docker'.containers, containerId) && DriftedFrom(docker.containers, docker'.containers)
    && ReleasedWith(TablesOf(db, docker), TablesOf(db', docker'), containerId)
    && db'.instances == (if released == Returned(true) then WithoutContainer(db.instances, containerId) else db.instances)
    && (released.ReleaseRaised? ==> !docker'.connected)
    && (released == Returned(true) ==> containerId !in docker'.containers)
    && (released.Returned? && docker'.failed == docker.failed ==>
          released.removed == Tracked(db.instances, containerId) && containerId !in docker'.containers)
  }

  /** `container.release_instance`. */
  ghost predicate InstanceReleased(containerId: nat, host: Host, reply: Response, b: State, a: State) {
    && a.config == b.config
    && exists released: ReleaseResult :: ReleaseRun(containerId, released, b.db, b.docker, a.db, a.docker) &&
         if released.Returned? then Concluded(host, reply, ReleaseDone(released.removed), b.kernel, a.kernel)
         else reply.Raised? && a.kernel == b.kernel
  }

  /** What reconciling does: containers are only looked at, rows follow them, octets and bridges are only freed. */
  ghost predicate SyncRun(pruned: Option<nat>, db: DbView, docker: DockerView, db': DbView, docker': DockerView) {
    && db' == db.(octets := db'.octets, instances := db'.instances) && docker'.containers == docker.containers
    && Reconciled(db.instances, db'.instances, docker.containers)
    && OnlyFreed(TablesOf(db, docker), TablesOf(db', docker')) && FreedHadRows(TablesOf(db, docker), db'.octets)
    && docker.faults <= docker'.faults && (docker'.faults == docker.faults ==> docker'.failed == docker.failed)
    && (docker.connected ==> docker'.connected) && docker'.connected == pruned.Some?
    && if pruned.Some? then
         && |db'.instances| + pruned.value == |db.instances|
         && InStepUnlessFailed(db'.instances, docker.containers, docker.failed, docker'.failed)
         && (docker'.faults == docker.faults ==>
               IdleOwnersReleased(db.instances, db.octets, docker.networks, db'.octets, db'.instances))
       else db'.instances == db.instances
  }

  /** `container.reconcile`: no rebuild. */
  ghost predicate InstancesReconciled(reply: Response, b: State, a: State) {
    && a.config == b.config && a.kernel == b.kernel
    && exists pruned: Option<nat> :: SyncRun(pruned, b.db, b.docker, a.db, a.docker) &&
         reply == if pruned.Some? then Served(false, Listed(pruned.value, a.db.instances)) else Response.Raised
  }

  /** What tearing down does: every row marked running goes with its container, unless a call for it failed. */
  ghost predicate TeardownRun(count: Option<nat>, db: DbView, docker: DockerView, db': DbView, docker': DockerView) {
    && db' == db.(octets := db'.octets, instances := db'.instances)
    && TornDown(TablesOf(db, docker), TablesOf(db', docker'), docker.containers, docker'.containers)
    && (count.None? ==> !docker'.connected)
    && (count.Some? ==> |db'.instances| + count.value == |db.instances| &&
                        RunningOnlyIfFailed(db'.instances, docker.failed, docker'.failed))
  }

  /** `kill_switch`. */
  ghost predicate AllTornDown(host: Host, reply: Response, b: State, a: State) {
    && a.config == b.config
    && exists count: Option<nat> :: TeardownRun(count, b.db, b.docker, a.db, a.docker) &&
         if count.Some? then Concluded(host, reply, TeardownDone(count.value), b.kernel, a.kernel)
         else reply.Raised? && a.kernel == b.kernel
  }

  /** What recovery does: containers are only looked at; the untracked ones are adopted, `taken` being the rows
      after that; then rows follow their containers. `alive` says that the database did not fail. */
  ghost predicate Recovered(alive: bool, taken: seq<Instance>, db: DbView, docker: DockerView, db': DbView,
                            docker': DockerView) {
    && db' == db.(octets := db'.octets, instances := db'.instances, faults := db'.faults)
    && docker'.containers == docker.containers
    && (if alive then db'.faults == db.faults else db.faults < db'.faults)
    && db.instances <= taken
    && FromContainers(db.instances, taken, docker.containers, db.octets, docker'.faults == docker.faults)
    && (AllAdopted(db.instances, docker.containers) ==> taken == db.instances)
    && (alive && docker'.connected && docker'.faults == docker.faults ==> AllAdopted(taken, docker.containers))
    && Reconciled(taken, db'.instances, docker.containers)
    && OnlyFreed(Tables(taken, db.octets, docker.networks), TablesOf(db', docker'))
    && (docker'.faults == docker.faults ==> docker'.failed == docker.failed)
    && (alive && docker'.connected ==>
          InStepUnlessFailed(db'.instances, docker.containers, docker.failed, docker'.failed))
  }

  lemma SyncedAfterAdoption(complete: bool, pruned: Option<nat>, db: DbView, docker: DockerView, db1: DbView,
                            docker1: DockerView, db': DbView, docker': DockerView)
    requires db1 == db.(instances := db1.instances)
    requires docker1.containers == docker.containers && docker1.networks == docker.networks && docker1.failed == docker.failed
    requires docker.faults <= docker1.faults && docker1.connected && SyncRun(pruned, db1, docker1, db', docker')
    requires AdoptionRun(db.instances, db1.instances, docker.containers, db.octets, complete, docker1.faults == docker.faults)
    requires docker1.faults == docker.faults ==> complete
    ensures Recovered(true, db1.instances, db, docker, db', docker')
    ensures AdoptionRun(db.instances, db1.instances, docker.containers, db.octets, complete, docker'.faults == docker.faults)
  {
    AdoptionRunLater(db.instances, db1.instances, docker.containers, db.octets, complete, docker1.faults == docker.faults,
                     docker'.faults == docker.faults);
  }

  /** A start: it serves unless the database failed, and behind a rebuilt firewall unless that had a reason to fail. */
  ghost predicate StartedOver(host: Host, reply: Response, b: State, a: State) {
    && a.config == b.config && a.running == reply.Served?
    && (exists taken: seq<Instance> :: Recovered(reply.Served?, taken, b.db, b.docker, a.db, a.docker))
    && if reply.Served? then reply.result == Ready && (reply.rebuilt || MayFail(host, b.kernel, a.kernel))
       else reply.Raised? && a.kernel == b.kernel
  }

  /** One request, whatever fails. */
  ghost predicate Effect(request: Request, host: Host, reply: Response, b: State, a: State) {
    if !b.running && !request.Start? then a == b && reply == Down
    else
      && (request.Start? || a.running)
      && match request
         case EnsurePeer(userId, owner, keys) => PeerEnsured(userId, owner, keys, host, reply, b, a)
         case RemovePeer(userId) => PeerDismissed(userId, host, reply, b, a)
         case EnsureInstance(owner, ref, hasDockerfile, buildOk, exposed, expiresAt, publish) =>
           InstanceEnsured(owner, ref, hasDockerfile, buildOk, exposed, expiresAt, publish, host, reply, b, a)
         case ReleaseInstance(containerId) => InstanceReleased(containerId, host, reply, b, a)
         case Reconcile => InstancesReconciled(reply, b, a)
         case KillSwitch => AllTornDown(host, reply, b, a)
         case Start => StartedOver(host, reply, b, a)
  }

  // ----- runs

  /** One turn of a run: the request finds the state that the outside left. */
  datatype Event = Event(turn: Turn, found: State, reply: Response, after: State)

  /** Between two requests bridges and containers may go, and containers change state; nothing else moves. */
  ghost predicate Disturbed(before: State, turn: Turn, found: State) {
    && found == before.(docker := before.docker.(networks := before.docker.networks - turn.unplugged,
                                                 containers := found.docker.containers))
    && DriftedFrom(before.docker.containers, found.docker.containers)
  }

  /** What one turn promises: the request has the effect it asks for, the state after it is safe, and it keeps
      the allocation of the one before. */
  ghost predicate TurnKept(before: State, e: Event) {
    && Disturbed(before, e.turn, e.found) && Effect(e.turn.request, e.turn.host, e.reply, e.found, e.after)
    && e.after.Safe(e.reply, e.turn.host) && before.Leads(e.turn, e.after)
  }

  ghost function Before(start: State, run: seq<Event>, i: nat): State
    requires i <= |run|
  {
    if i == 0 then start else run[i - 1].after
  }

  /** The run of these turns, with these replies. */
  ghost predicate RunOf(run: seq<Event>, turns: seq<Turn>, replies: seq<Response>) {
    && |run| == |turns| == |replies|
    && forall i :: 0 <= i < |run| ==> run[i].turn == turns[i] && run[i].reply == replies[i]
  }

  lemma RunOfStep(run: seq<Event>, turns: seq<Turn>, replies: seq<Response>, i: nat, e: Event)
    requires i < |turns| && RunOf(run, turns[..i], replies) && e.turn == turns[i]
    ensures RunOf(run + [e], turns[..i + 1], replies + [e.reply])
  {}

  /** `kept` holds of every turn, of the state before it and what happens in it. */
  ghost predicate Throughout(start: State, run: seq<Event>, kept: (State, Event) -> bool) {
    forall i :: 0 <= i < |run| ==> kept(Before(start, run, i), run[i])
  }

  ghost predicate AllKept(start: State, run: seq<Event>) { Throughout(start, run, (s, e) => TurnKept(s, e)) }

  lemma OneMore(start: State, run: seq<Event>, e: Event, kept: (State, Event) -> bool)
    requires Throughout(start, run, kept) && kept(Before(start, run, |run|), e)
    ensures Throughout(start, run + [e], kept)
  {
    forall i | 0 <= i < |run|
      ensures kept(Before(start, run + [e], i), (run + [e])[i])
    {
      assert kept(Before(start, run, i), run[i]);
    }
  }

  lemma OneMoreKept(start: State, run: seq<Event>, e: Event)
    requires AllKept(start, run) && TurnKept(Before(start, run, |run|), e)
    ensures AllKept(start, run + [e])
  {
    OneMore(start, run, e, (s, e) => TurnKept(s, e));
  }

  lemma AllKeptAt(start: State, run: seq<Event>, i: nat)
    requires AllKept(start, run) && i < |run|
    ensures TurnKept(Before(start, run, i), run[i])
  {
    ghost var kept := (s, e) => TurnKept(s, e);
    assert kept(Before(start, run, i), run[i]);
  }

  /** In a run every reply leaves a safe state, and every request has its effect and no other. */
  lemma RunIsSafe(start: State, run: seq<Event>, i: nat)
    requires AllKept(start, run) && i < |run|
    ensures run[i].after.Safe(run[i].reply, run[i].turn.host)
    ensures Disturbed(Before(start, run, i), run[i].turn, run[i].found)
    ensures Effect(run[i].turn.request, run[i].turn.host, run[i].reply, run[i].found, run[i].after)
  {
    AllKeptAt(start, run, i);
  }

  /** A failed spawn leaves no row, and may have granted the octet, without a rebuild: a current chain is out of
      date then if and only if a Dockerfile was there and the owner had a peer, no octet and one left to get. */
  lemma FailedSpawnOutdatesIff(owner: Owner, challengeRef: string, hasDockerfile: bool, buildOk: bool, exposed: seq<string>,
                               expiresAt: Option<string>, publish: bool, host: Host, reply: Response, b: State, a: State)
    requires InstanceEnsured(owner, challengeRef, hasDockerfile, buildOk, exposed, expiresAt, publish, host, reply, b, a)
    requires FindInstance(a.db.instances, owner, challengeRef).None?
    requires PeerTable(b.db.peers, b.db.nextPeerId) && PeersInVpn(b.db.peers) && OctetTable(a.db.octets)
    ensures reply.Raised? && a.db.instances == b.db.instances && a.kernel == b.kernel
    ensures host.publicIface.Some? && Enforced(b.kernel.chains, host.publicIface.value, b.db.peers, b.db.octets) ==>
              (Enforced(a.kernel.chains, host.publicIface.value, a.db.peers, a.db.octets) <==>
               !(hasDockerfile && GrantsToPeer(b.db.peers, b.db.octets, owner)))
  {
    var result :| SpawnRun(owner, challengeRef, hasDockerfile, buildOk, exposed, expiresAt, publish, result, b.db,
                           b.docker, a.db, a.docker) &&
                  (result.Spawned? || (reply.Raised? && a.kernel == b.kernel));
    OutdatedIff(b.kernel.chains, host, b.db.peers, b.db.nextPeerId, b.db.octets, a.db.octets);
    GrantShowsIff(b.db.peers, b.db.octets, owner);
  }

  // ----- who comes and goes

  /** The request removes this very peer. */
  predicate Removes(request: Request, p: Peer) { request.RemovePeer? && UserName(request.leaver) == p.username }

  /** A peer leaves only when it is removed, unchanged until then. */
  lemma PeerStaysInTurn(before: State, e: Event, p: Peer)
    requires TurnKept(before, e) && p in before.db.peers && !Removes(e.turn.request, p)
    ensures p in e.after.db.peers
  {
    EffectKeepsPeer(e.turn.request, e.turn.host, e.reply, e.found, e.after, p);
  }

  lemma EffectKeepsPeer(request: Request, host: Host, reply: Response, b: State, a: State, p: Peer)
    requires Effect(request, host, reply, b, a) && p in b.db.peers && !Removes(request, p)
    ensures p in a.db.peers
  {
    if b.running && request.EnsurePeer? && !HasUsername(b.db.peers, UserName(request.userId)) {
      var ok: bool :| JoinRun(request.userId, request.peerOwner, request.keys, ok, b.db, b.config, a.db, a.config);
    }
  }

  lemma PeerStaysAt(start: State, run: seq<Event>, p: Peer, i: nat)
    requires AllKept(start, run) && i < |run|
    ensures Stays(start, run, p, i)
  {
    AllKeptAt(start, run, i);
    if p in Before(start, run, i).db.peers && !Removes(run[i].turn.request, p) {
      PeerStaysInTurn(Before(start, run, i), run[i], p);
    }
  }

  ghost predicate Stays(start: State, run: seq<Event>, p: Peer, i: nat)
    requires i < |run|
  {
    p in Before(start, run, i).db.peers && !Removes(run[i].turn.request, p) ==> p in run[i].after.db.peers
  }

  lemma {:induction false} PeerCarries(start: State, run: seq<Event>, p: Peer, i: nat)
    requires i <= |run| && p in start.db.peers
    requires forall j :: 0 <= j < i ==> Stays(start, run, p, j) && !Removes(run[j].turn.request, p)
    ensures p in Before(start, run, i).db.peers
  {
    if i > 0 {
      PeerCarries(start, run, p, i - 1);
      assert Stays(start, run, p, i - 1);
    }
  }

  /** Over any run: whatever else is asked for and whatever fails. */
  lemma PeerStays(start: State, run: seq<Event>, p: Peer, i: nat)
    requires AllKept(start, run) && p in start.db.peers && i <= |run|
    requires forall j :: 0 <= j < i ==> !Removes(run[j].turn.request, p)
    ensures p in Before(start, run, i).db.peers
  {
    forall j | 0 <= j < i
      ensures Stays(start, run, p, j)
    {
      PeerStaysAt(start, run, p, j);
    }
    PeerCarries(start, run, p, i);
  }

  /** A container that is still there after a turn is still tracked if it was before. */
  lemma TrackedUntilGone(before: State, e: Event, id: nat)
    requires TurnKept(before, e) && Tracked(before.db.instances, id) && id in e.after.docker.containers
    ensures Tracked(e.after.db.instances, id)
  {
    EffectKeepsTracked(e.turn.request, e.turn.host, e.reply, e.found, e.after, id);
  }

  lemma EffectKeepsTracked(request: Request, host: Host, reply: Response, b: State, a: State, id: nat)
    requires Effect(request, host, reply, b, a) && Tracked(b.db.instances, id) && id in a.docker.containers
    ensures Tracked(a.db.instances, id)
  {
    var row :| row in b.db.instances && row.containerId == id;
    if b.running || request.Start? {
      match request
      case EnsurePeer(_, _, _) =>
      case RemovePeer(_) =>
      case EnsureInstance(_, _, _, _, _, _, _) =>
      case ReleaseInstance(_) =>
      case KillSwitch =>
      case Reconcile =>
        ReconciledKeepsTracked(b.db.instances, a.db.instances, b.docker.containers, row);
      case Start =>
        var taken :| Recovered(reply.Served?, taken, b.db, b.docker, a.db, a.docker);
        ReconciledKeepsTracked(taken, a.db.instances, b.docker.containers, row);
    }
  }

  lemma ReconciledKeepsTracked(before: seq<Instance>, after: seq<Instance>, containers: Docker.Containers, row: Instance)
    requires Reconciled(before, after, containers) && row in before && row.containerId in containers
    ensures Tracked(after, row.containerId)
  {
    assert Survives(row, after, containers[row.containerId].status);
  }

  // ----- allocation over runs

  ghost predicate LeadsFrom(start: State, run: seq<Event>, i: nat)
    requires i < |run|
  {
    Before(start, run, i).Leads(run[i].turn, run[i].after)
  }

  lemma KeptRunsLead(start: State, run: seq<Event>)
    requires AllKept(start, run)
    ensures forall i :: 0 <= i < |run| ==> LeadsFrom(start, run, i)
  {
    forall i | 0 <= i < |run|
      ensures LeadsFrom(start, run, i)
    {
      AllKeptAt(start, run, i);
    }
  }

  lemma LeadsAt(start: State, run: seq<Event>, n: nat, i: nat)
    requires i < n <= |run| && LeadsFrom(start, run, i) && Before(start, run, i).Allotted() && NoneUntracked(start, run, n)
    ensures Before(start, run, i + 1).Allotted()
  {}

  lemma {:induction false} AllocationCarries(start: State, run: seq<Event>, n: nat, i: nat)
    requires i <= n <= |run| && start.Allotted() && NoneUntracked(start, run, n)
    requires forall j :: 0 <= j < |run| ==> LeadsFrom(start, run, j)
    ensures Before(start, run, i).Allotted()
  {
    if i > 0 {
      AllocationCarries(start, run, n, i - 1);
      LeadsAt(start, run, n, i - 1);
    }
  }

  /** From an allotted start the state before and after each of the first `n` turns is allotted, if no
      start among them found an untracked container. */
  lemma AllocationOutlasts(start: State, run: seq<Event>, n: nat, i: nat)
    requires AllKept(start, run) && i <= n <= |run| && start.Allotted() && NoneUntracked(start, run, n)
    ensures Before(start, run, i).Allotted()
  {
    KeptRunsLead(start, run);
    AllocationCarries(start, run, n, i);
  }

  /** No start among the first `n` turns found an untracked container. */
  ghost predicate NoneUntracked(start: State, run: seq<Event>, n: nat)
    requires n <= |run|
  {
    forall j :: 0 <= j < n && run[j].turn.request.Start? ==> Before(start, run, j).NothingUntracked()
  }

  /** What adoption promises of the table it leaves, `taken`. */
  ghost predicate AdoptionRun(rows: seq<Instance>, taken: seq<Instance>, containers: Docker.Containers, octets: Octets,
                              complete: bool, clean: bool) {
    && rows <= taken && FromContainers(rows, taken, containers, octets, clean)
    && (AllAdopted(rows, containers) ==> taken == rows)
    && (complete ==> AllAdopted(taken, containers))
    && AdoptionKept(rows, taken, containers, octets, complete, clean)
  }

  /** Without failures allocation is kept if the untracked containers suit, and where all were considered only if. */
  ghost predicate AdoptionKept(rows: seq<Instance>, taken: seq<Instance>, containers: Docker.Containers, octets: Octets,
                               complete: bool, clean: bool) {
    && (WellAllocated(rows, octets) ==> (WellAllocated(taken, octets) <==> AllFit(rows, taken, octets)))
    && (clean && WellAllocated(rows, octets) && Adoptable(rows, containers, octets) ==> WellAllocated(taken, octets))
    && (complete && WellAllocated(taken, octets) ==> Adoptable(rows, containers, octets))
  }

  lemma AdoptionRunLater(rows: seq<Instance>, taken: seq<Instance>, containers: Docker.Containers, octets: Octets,
                         complete: bool, clean: bool, clean': bool)
    requires AdoptionRun(rows, taken, containers, octets, complete, clean) && (clean' ==> clean)
    ensures AdoptionRun(rows, taken, containers, octets, complete, clean')
  {
    LaxFromContainers(rows, taken, containers, octets, clean);
  }

  lemma ReconciledAtOnce(rows: seq<Instance>, containers: Docker.Containers)
    ensures Reconciled(rows, rows, containers)
  {
    forall r | r in rows && r.containerId in containers
      ensures Survives(r, rows, containers[r.containerId].status)
    {}
  }

  lemma LaxNames(rows: seq<Instance>, rows': seq<Instance>, containers: Docker.Containers, octets: Octets, clean: bool)
    requires NamesFit(rows, containers) && FromContainers(rows, rows', containers, octets, clean)
    ensures NamesFit(rows', containers)
  {
    LaxFromContainers(rows, rows', containers, octets, clean);
    NamesAfterAdoption(rows, rows', containers, octets);
  }

  /** With the same peers a chain that was current is so still if and only if no peer's owner changed octet. */
  lemma OutdatedIff(chains: Chains, host: Host, peers: seq<Peer>, nextId: nat, octets: Octets, octets': Octets)
    requires PeerTable(peers, nextId) && PeersInVpn(peers) && OctetTable(octets')
    ensures host.publicIface.Some? && Enforced(chains, host.publicIface.value, peers, octets) ==>
              (Enforced(chains, host.publicIface.value, peers, octets') <==> PeersKeepOctets(peers, octets, octets'))
  {
    if host.publicIface.Some? && Enforced(chains, host.publicIface.value, peers, octets) {
      ChainIsCurrentIff(chains, host.publicIface.value, peers, octets, peers, octets');
      SamePeersGrantIff(peers, nextId, octets, octets');
    }
  }

  /** An owner with a bridge whose rows all say running while none of their containers is left. */
  ghost predicate Orphaned(o: Owner, rows: seq<Instance>, octets: Octets, networks: Networks, containers: Docker.Containers) {
    && o in octets && octets[o] in networks && CountForOwner(rows, o) > 0
    && forall r :: r in rows && r.owner == o ==> r.status == Running && r.containerId !in containers
  }

  ghost predicate PeerOrphaned(peers: seq<Peer>, rows: seq<Instance>, octets: Octets, networks: Networks,
                               containers: Docker.Containers) {
    exists q :: q in peers && Orphaned(q.owner, rows, octets, networks, containers)
  }

  /** Such an owner loses its octet to an error-free reconcile. */
  lemma OrphansLoseOctet(peers: seq<Peer>, rows: seq<Instance>, rows': seq<Instance>, octets: Octets, octets': Octets,
                         networks: Networks, containers: Docker.Containers, failed: multiset<nat>)
    requires Reconciled(rows, rows', containers) && InStepUnlessFailed(rows', containers, failed, failed)
    requires IdleOwnersReleased(rows, octets, networks, octets', rows')
    ensures PeerOrphaned(peers, rows, octets, networks, containers) ==> !PeersKeepOctets(peers, octets, octets')
  {
    if q :| q in peers && Orphaned(q.owner, rows, octets, networks, containers) {
      forall r | r in rows'
        ensures r.owner != q.owner
      {
        assert r in rows || exists s :: s in rows && TookStatus(r, s, containers);
      }
      assert q.owner !in octets';
    }
  }

  /** And no other owner loses it to any reconcile. */
  lemma OnlyOrphansLoseOctet(peers: seq<Peer>, start: Tables, now: Tables, containers: Docker.Containers)
    requires Reconciled(start.rows, now.rows, containers)
    requires OnlyFreed(start, now) && FreedHadRows(start, now.octets)
    ensures !PeersKeepOctets(peers, start.octets, now.octets) ==>
              PeerOrphaned(peers, start.rows, start.octets, start.networks, containers)
  {
    if q :| q in peers && Held(start.octets, q.owner) != Held(now.octets, q.owner) {
      var o := q.owner;
      assert o in start.octets && o !in now.octets;
      forall r | r in start.rows && r.owner == o
        ensures r.status == Running && r.containerId !in containers
      {
        assert r !in now.rows;
      }
      assert Orphaned(o, start.rows, start.octets, start.networks, containers);
    }
  }

  /** A spawn that gets as far as the octet will grant a new one to an owner that has a peer. */
  ghost predicate GrantsToPeer(peers: seq<Peer>, octets: Octets, owner: Owner) {
    owner !in octets && LowestUnheld(octets, 1).Some? && exists q :: q in peers && q.owner == owner
  }

  lemma GrantShowsIff(peers: seq<Peer>, octets: Octets, owner: Owner)
    ensures PeersKeepOctets(peers, octets, GrantedOctets(octets, owner)) <==> !GrantsToPeer(peers, octets, owner)
    ensures PeersKeepOctets(peers, octets, octets)
  {
    if q :| GrantsToPeer(peers, octets, owner) && q in peers && q.owner == owner {
      assert Held(octets, q.owner) != Held(GrantedOctets(octets, owner), q.owner);
    }
  }

  /** What the kernel's own traversal decides in the state after a reply that rebuilt the firewall, in every
      chain `c` that EDO_FORWARD is hooked into first (there is one), for every peer and subnet and whatever
      the foreign rules say: to and from the subnet of its owner a peer is accepted; to a foreign one it is
      left to the foreign rules; the way back is closed towards the public interface and left to the
      foreign rules otherwise. */
  lemma SubnetIsolation(s: State, reply: Response, host: Host, c: ChainName, q: Peer, k: int, p: Packet,
                        decide: KernelRule -> Verdict)
    requires s.Safe(reply, host) && reply.Rebuilt() && Decides(s.kernel.chains, decide, p)
    requires HookedIn(s.kernel.chains, c) && q in s.db.peers && 1 <= k <= 254
    ensures var own := q.owner in s.db.octets && s.db.octets[q.owner] == k; var subnet := OwnerSubnet(k).value;
            var hooked := s.kernel.chains[c]; var foreign := Traverse(StripHooks(hooked), decide);
            && (p.src == q.ip && subnet.Contains(p.dst) ==> Traverse(hooked, decide) == if own then Accepted else foreign)
            && (subnet.Contains(p.src) && p.dst == q.ip ==>
                  Traverse(hooked, decide) ==
                  if own then Accepted else if Some(p.outIface) == host.publicIface then Dropped else foreign)
  {
    if p.src == q.ip && OwnerSubnet(k).value.Contains(p.dst) {
      KernelToSubnet(s.kernel.chains, c, host.publicIface.value, s.db.peers, s.db.nextPeerId, s.db.octets, q, k, p, decide);
    }
    if OwnerSubnet(k).value.Contains(p.src) && p.dst == q.ip {
      KernelFromSubnet(s.kernel.chains, c, host.publicIface.value, s.db.peers, s.db.nextPeerId, s.db.octets, q, k, p, decide);
    }
  }

  /** The same for running instances where allocation holds: what a peer may reach is decided by the owners
      alone, and two running instances never reach each other. */
  lemma EndToEndIsolation(s: State, reply: Response, host: Host, c: ChainName, q: Peer, r: Instance, t: Instance, p: Packet,
                          decide: KernelRule -> Verdict)
    requires s.Safe(reply, host) && s.Allotted() && reply.Rebuilt() && Decides(s.kernel.chains, decide, p)
    requires HookedIn(s.kernel.chains, c) && q in s.db.peers && r in s.db.instances && r.status == Running &&
             t in s.db.instances && t.status == Running
    ensures r.assignedIp.Some? && t.assignedIp.Some? && (r.assignedIp == t.assignedIp <==> r == t)
    ensures var a, b := r.assignedIp.value, t.assignedIp.value; var own := q.owner == r.owner;
            var hooked := s.kernel.chains[c]; var foreign := Traverse(StripHooks(hooked), decide);
            && (p.src == q.ip && p.dst == a ==> Traverse(hooked, decide) == if own then Accepted else foreign)
            && (p.src == a && p.dst == q.ip ==>
                  Traverse(hooked, decide) ==
                  if own then Accepted else if Some(p.outIface) == host.publicIface then Dropped else foreign)
            && (p.src == a && p.dst == b ==> Traverse(hooked, decide) == Dropped)
  {
    InstancesHaveAddresses(s.db.instances, s.db.octets, r, t);
    SubnetIsolation(s, reply, host, c, q, s.db.octets[r.owner], p, decide);
    if p.src == r.assignedIp.value && p.dst == t.assignedIp.value {
      KernelSeparates(s.kernel.chains, c, host.publicIface.value, s.db.peers, s.db.octets, p, decide);
    }
  }
}
